/** RtpPacket: a packet edited in place at the start of a store. */
module RtpPacketClass {
  import opened Seq16
  import opened Bytes
  import opened Arithmetic
  import opened RtpPackets
  import opened RtpPacketBytes
  import opened RtpPacketEdits
  import E = RtpExtensions

  /** static_cast<int16_t>. */
  function Int16(x: int): int
  {
    (x + 0x8000) % 0x1_0000 - 0x8000
  }

  lemma Int16IsExactIff(x: int)
    ensures Int16(x) == x <==> -0x8000 <= x < 0x8000
  {
  }

  /** How far SetExtensions moves the payload. */
  function Shift(p: Packet, blockSize: nat): int
  {
    if p.extension.Some? then blockSize - |p.extension.value.value| else 4 + blockSize
  }

  /** The maps say what parsing the header extension says. */
  ghost predicate IsIndexed(extension: Option<Extension>, oneByte: map<byte, nat>, twoBytes: map<byte, nat>)
  {
    extension.Some? ==>
      var e := extension.value;
      match E.KindOf(e.id)
      case Some(OneByte) => oneByte == E.Parse(E.OneByte, e.value)
      case Some(TwoBytes) => twoBytes == E.Parse(E.TwoBytes, e.value)
      case None => true
  }

  class RtpPacket {
    const store: array<byte>
    var headerExtension: Option<nat>
    var oneByteExtensions: map<byte, nat>
    var twoBytesExtensions: map<byte, nat>
    var payload: nat
    var payloadLength: nat
    var payloadPadding: byte
    var size: nat
    ghost var packet: Packet

    ghost predicate Valid()
      reads this, store
    {
      && IsStored(store[..], size, packet)
      && IsPlaced(packet)
      && IsIndexed(packet.extension, oneByteExtensions, twoBytesExtensions)
    }

    ghost predicate IsPlaced(p: Packet)
      reads this
    {
      && headerExtension == (if p.extension.Some? then Some(CsrcEnd(p)) else None)
      && payload == PayloadStart(p)
      && payloadLength == |p.payload|
      && payloadPadding == p.padding
    }

    /** The bytes parse as the packet: the meaning of Valid. */
    lemma ValidIsParsed()
      requires Valid()
      ensures size == Size(packet) <= store.Length && RtpPacketBytes.Parse(store[..size]) == Some(packet)
    {
      IsStoredIff(store[..], size, packet);
      assert store[..size] == store[..][..size];
    }

    constructor (store: array<byte>, headerExtension: Option<nat>, payload: nat, payloadLength: nat,
                 payloadPadding: byte, size: nat, ghost packet: Packet)
      requires IsStored(store[..], size, packet)
      requires headerExtension == (if packet.extension.Some? then Some(CsrcEnd(packet)) else None)
      requires payload == PayloadStart(packet) && payloadLength == |packet.payload| && payloadPadding == packet.padding
      ensures Valid() && this.store == store && this.size == size && this.packet == packet
    {
      hide IsStored;
      this.store := store;
      this.headerExtension := headerExtension;
      this.oneByteExtensions := map[];
      this.twoBytesExtensions := map[];
      this.payload := payload;
      this.payloadLength := payloadLength;
      this.payloadPadding := payloadPadding;
      this.size := size;
      this.packet := packet;
      new;
      ParseExtensions();
    }

    /** Reads the packet that the first `len` bytes of a store are, if they are one. */
    static method Parse(store: array<byte>, len: nat) returns (result: RtpPacket?)
      requires len <= store.Length
      ensures result == null <==> RtpPacketBytes.Parse(store[..len]) == None
      ensures result != null ==>
        && fresh(result) && result.store == store && result.size == len && result.Valid()
        && RtpPacketBytes.Parse(store[..len]) == Some(result.packet)
    {
      hide Get2, Get4, IsStored;
      ghost var data := store[..len];
      assert store[..][..len] == data;
      result := null;
      if len < HEADER_SIZE || store[0] <= 127 || store[0] >= 192 {
        return;
      }
      var ptr := HEADER_SIZE + store[0] % 16 * 4;
      if len < ptr {
        return;
      }
      var headerExtension := None;
      if store[0] / 16 % 2 == 1 {
        if len < ptr + 4 {
          return;
        }
        headerExtension := Some(ptr);
        ptr := ptr + 4 + Get2(store[..len], ptr + 2) * 4;
        if len < ptr {
          return;
        }
      }
      var padded, padding := store[0] / 32 % 2 == 1, 0;
      if padded {
        if len == ptr {
          return;
        }
        padding := store[len - 1];
        if padding == 0 || len - ptr < padding {
          return;
        }
      }
      ghost var packet := RtpPacketBytes.Parse(data).value;
      IsStoredIff(store[..], len, packet);
      result := new RtpPacket(store, headerExtension, ptr, len - ptr - padding, padding, len, packet);
    }

    // ----- Getters

    function HeaderExtensionId(): u16
      reads this, store
      requires IsStored(store[..], size, packet) && IsPlaced(packet)
    {
      if headerExtension.None? then 0 else Get2(store[..], headerExtension.value)
    }

    function HeaderExtensionLength(): nat
      reads this, store
      requires IsStored(store[..], size, packet) && IsPlaced(packet)
    {
      if headerExtension.None? then 0 else Get2(store[..], headerExtension.value + 2) * 4
    }

    lemma HeaderExtensionIs()
      requires IsStored(store[..], size, packet) && IsPlaced(packet)
      ensures packet.extension.Some? ==>
        && HeaderExtensionId() == packet.extension.value.id
        && HeaderExtensionLength() == |packet.extension.value.value|
        && store[..][headerExtension.value + 4..payload] == packet.extension.value.value
      ensures packet.extension.None? ==> HeaderExtensionId() == 0 && HeaderExtensionLength() == 0
    {
      hide Get2, ExtensionBytes, HasHeader;
      if packet.extension.Some? {
        ExtensionFields(store[..], CsrcEnd(packet), packet.extension.value);
      }
    }

    // ----- Header extension elements

    method ParseExtensions()
      requires IsStored(store[..], size, packet) && IsPlaced(packet)
      modifies this`oneByteExtensions, this`twoBytesExtensions
      ensures Valid()
    {
      hide IsStored, E.Parse, Get2;
      HeaderExtensionIs();
      PlacesFit();
      if headerExtension.Some? {
        var start := headerExtension.value + 4;
        var end := start + HeaderExtensionLength();
        assert store[start..end] == store[..][start..payload];
        if HeaderExtensionId() == E.ONE_BYTE_ID {
          oneByteExtensions := E.FindElements(E.OneByte, store[start..end]);
        } else if HeaderExtensionId() / 16 == 0x100 {
          twoBytesExtensions := E.FindElements(E.TwoBytes, store[start..end]);
        }
      }
    }

    lemma PlacesFit()
      requires IsStored(store[..], size, packet) && IsPlaced(packet)
      ensures WellFormed(packet)
      ensures HEADER_SIZE <= CsrcEnd(packet) <= payload
      ensures payload + payloadLength <= payload + payloadLength + payloadPadding == size <= store.Length
      ensures headerExtension.Some? ==> payload == headerExtension.value + 4 + |packet.extension.value.value|
    {
    }

    /** The value of an extension element, if the packet has it. */
    method GetExtension(id: byte) returns (value: Option<seq<byte>>)
      requires Valid()
      ensures value == Lookup(packet, id)
    {
      hide IsStored, E.Parse, Get2, E.LenAt, E.IdAt;
      HeaderExtensionIs();
      PlacesFit();
      if id == 0 || headerExtension.None? {
        return None;
      }
      var start := headerExtension.value + 4;
      ghost var bytes := packet.extension.value.value;
      assert store[start..payload] == store[..][start..payload];
      if HeaderExtensionId() == E.ONE_BYTE_ID {
        E.ParseFits(E.OneByte, bytes);
        value := E.Get(E.OneByte, store[start..payload], oneByteExtensions, id);
      } else if HeaderExtensionId() / 16 == 0x100 {
        E.ParseFits(E.TwoBytes, bytes);
        value := E.Get(E.TwoBytes, store[start..payload], twoBytesExtensions, id);
      } else {
        value := None;
      }
    }

    // ----- Header fields

    method SetPayloadType(payloadType: byte)
      requires Carries(store[..], packet)
      modifies store, this`packet
      ensures packet == old(packet).(payloadType := payloadType % 128) && Carries(store[..], packet)
      ensures old(Valid()) ==> Valid()
    {
      hide Carries;
      ghost var before, p := store[..], packet;
      CarriesFits(before, p);
      PayloadTypeEdit(before, p, payloadType % 128);
      ghost var now := before[1 := before[1] - before[1] % 128 + payloadType % 128];
      packet := packet.(payloadType := payloadType % 128);
      store[1] := store[1] - store[1] % 128 + payloadType % 128;
      assert store[..] == now;
      StillStored(before, size, p, store[..], packet);
    }

    method SetSequenceNumber(sequenceNumber: u16)
      requires Carries(store[..], packet)
      modifies store, this`packet
      ensures packet == old(packet).(sequenceNumber := sequenceNumber) && Carries(store[..], packet)
      ensures old(Valid()) ==> Valid()
    {
      hide Carries, Put2;
      ghost var before, p := store[..], packet;
      CarriesFits(before, p);
      SequenceNumberEdit(before, p, sequenceNumber);
      packet := packet.(sequenceNumber := sequenceNumber);
      Copy(store, 2, Put2(sequenceNumber));
      StillStored(before, size, p, store[..], packet);
    }

    method SetSsrc(ssrc: u32)
      requires Carries(store[..], packet)
      modifies store, this`packet
      ensures packet == old(packet).(ssrc := ssrc) && Carries(store[..], packet)
      ensures old(Valid()) ==> Valid()
    {
      hide Carries, Put4;
      ghost var before, p := store[..], packet;
      CarriesFits(before, p);
      SsrcEdit(before, p, ssrc);
      packet := packet.(ssrc := ssrc);
      Copy(store, 8, Put4(ssrc));
      StillStored(before, size, p, store[..], packet);
    }

    /** SetPayloadPaddingFlag(false), and no padding any more. */
    method RemovePadding()
      requires Carries(store[..], packet) && payloadPadding == packet.padding
      requires size == PayloadEnd(packet) + payloadPadding <= store.Length
      modifies store, this`packet, this`size, this`payloadPadding
      ensures packet == WithoutPadding(old(packet)) && IsStored(store[..], size, packet) && payloadPadding == 0
    {
      if payloadPadding != 0 {
        hide Carries, WithFlag;
        ghost var before := store[..];
        CarriesFits(before, packet);
        PaddingEdit(before, packet, 0);
        ghost var now := before[0 := WithFlag(before[0], 32, false)];
        store[0] := WithFlag(store[0], 32, false);
        assert store[..] == now;
        size := size - payloadPadding;
        payloadPadding := 0;
        packet := WithoutPadding(packet);
      }
    }

    // ----- RTX

    method PrependSequenceNumber()
      requires Carries(store[..], packet) && payload == PayloadStart(packet) && payloadLength == |packet.payload|
      requires PayloadEnd(packet) + 2 <= store.Length
      modifies store, this`packet, this`payloadLength, this`size
      ensures packet == old(packet).(payload := Put2(old(packet).sequenceNumber) + old(packet).payload)
      ensures Carries(store[..], packet) && payloadLength == old(payloadLength) + 2 && size == old(size) + 2
    {
      hide Carries, Put2, Get2, Splice, PayloadStart, PayloadEnd;
      CarriesFits(store[..], packet);
      RtxPayload(store[..], packet);
      var original := Get2(store[..], 2);
      Move(store, payload + 2, payload, payloadLength);
      Copy(store, payload, Put2(original));
      packet := packet.(payload := Put2(original) + packet.payload);
      payloadLength := payloadLength + 2;
      size := size + 2;
    }

    method DropSequenceNumber()
      requires Carries(store[..], packet) && payload == PayloadStart(packet) && payloadLength == |packet.payload| >= 2
      requires size >= 2
      modifies store, this`packet, this`payloadLength, this`size
      ensures packet == old(packet).(payload := old(packet).payload[2..])
      ensures Carries(store[..], packet) && payloadLength == old(payloadLength) - 2 && size == old(size) - 2
    {
      hide Carries;
      CarriesFits(store[..], packet);
      ghost var before, rest := store[..], packet.payload[2..];
      Move(store, payload, payload + 2, payloadLength - 2);
      PayloadEdit(before, packet, store[..], rest);
      packet := packet.(payload := rest);
      payloadLength := payloadLength - 2;
      size := size - 2;
    }

    method RtxEncode(payloadType: byte, ssrc: u32, sequenceNumber: u16)
      requires Valid() && size + 2 <= store.Length
      modifies this, store
      ensures Valid() && packet == RtpPackets.RtxEncode(old(packet), payloadType, ssrc, sequenceNumber)
    {
      hide Carries, Put2, IsIndexed;
      PlacesFit();
      SetPayloadType(payloadType);
      SetSsrc(ssrc);
      PrependSequenceNumber();
      SetSequenceNumber(sequenceNumber);
      RemovePadding();
    }

    /** False, and nothing changed, for a packet without room for an original sequence number. */
    method RtxDecode(payloadType: byte, ssrc: u32) returns (ok: bool)
      requires Valid()
      modifies this, store
      ensures Valid()
      ensures RtpPackets.RtxDecode(old(packet), payloadType, ssrc) == if ok then Some(packet) else None
      ensures !ok ==> packet == old(packet) && store[..] == old(store[..]) && size == old(size)
    {
      hide Carries, IsIndexed;
      PlacesFit();
      if payloadLength < 2 {
        return false;
      }
      SetPayloadType(payloadType);
      CarriesFits(store[..], packet);
      var original := Get2(store[..], payload);
      OriginalIs(store[..], packet);
      SetSequenceNumber(original);
      SetSsrc(ssrc);
      DropSequenceNumber();
      RemovePadding();
      ok := true;
    }

    // ----- Writing the header extension

    /** The last loop of SetExtensions: the elements and the zeros after them, filled into [start, end). */
    method WriteElements(kind: E.Kind, extensions: seq<E.GenericExtension>, start: nat, end: nat)
      requires E.HasBlock(kind, extensions) && end == start + E.BlockSize(kind, extensions) <= store.Length
      modifies store, this`oneByteExtensions, this`twoBytesExtensions
      ensures store[..] == Splice(old(store[..]), start, E.Block(kind, extensions))
      ensures kind.OneByte? ==> oneByteExtensions == E.Offsets(kind, extensions)
      ensures kind.TwoBytes? ==> twoBytesExtensions == E.Offsets(kind, extensions)
    {
      hide E.Element, E.Elements, E.Offsets, Splice;
      ghost var before := store[..];
      var ptr := start;
      oneByteExtensions, twoBytesExtensions := map[], map[];
      E.NoElements(kind, extensions);
      SpliceNothing(before, start);
      var i := 0;
      while i < |extensions|
        invariant 0 <= i <= |extensions|
        invariant ptr == start + |E.Elements(kind, extensions[..i])| <= end
        invariant store[..] == Splice(before, start, E.Elements(kind, extensions[..i]))
        invariant kind.OneByte? ==> oneByteExtensions == E.Offsets(kind, extensions[..i])
        invariant kind.TwoBytes? ==> twoBytesExtensions == E.Offsets(kind, extensions[..i])
      {
        E.ElementsGrow(kind, extensions, i + 1);
        E.ElementsStep(kind, extensions, i);
        var e := extensions[i];
        if E.IsWritten(kind, e) {
          if kind.OneByte? {
            oneByteExtensions := oneByteExtensions[e.id := ptr - start];
          } else {
            twoBytesExtensions := twoBytesExtensions[e.id := ptr - start];
          }
          SpliceTwice(before, start, E.Elements(kind, extensions[..i]), E.Element(kind, e));
          ptr := PutElement(kind, e, ptr);
        }
        i := i + 1;
      }
      assert extensions[..i] == extensions;
      SpliceTwice(before, start, E.Elements(kind, extensions), E.Zeros(end - ptr));
      Copy(store, ptr, E.Zeros(end - ptr));
    }

    method PutElement(kind: E.Kind, e: E.GenericExtension, ptr: nat) returns (next: nat)
      requires E.IsWritten(kind, e) && ptr + |E.Element(kind, e)| <= store.Length
      modifies store
      ensures store[..] == Splice(old(store[..]), ptr, E.Element(kind, e)) && next == ptr + |E.Element(kind, e)|
    {
      hide Splice;
      ghost var before := store[..];
      ghost var prefix := E.Element(kind, e)[..E.Prefix(kind)];
      assert E.Element(kind, e) == prefix + e.value;
      PutPrefix(kind, e, ptr);
      next := ptr + E.Prefix(kind);
      SpliceTwice(before, ptr, prefix, e.value);
      Copy(store, next, e.value);
      next := next + |e.value|;
    }

    /** The id and the length of an element. */
    method PutPrefix(kind: E.Kind, e: E.GenericExtension, ptr: nat)
      requires E.IsWritten(kind, e) && ptr + E.Prefix(kind) <= store.Length
      modifies store
      ensures store[..] == Splice(old(store[..]), ptr, E.Element(kind, e)[..E.Prefix(kind)])
    {
      if kind.OneByte? {
        store[ptr] := e.id * 16 + |e.value| - 1;
      } else {
        store[ptr], store[ptr + 1] := e.id, |e.value|;
      }
    }

    /** Moves the payload and the padding behind a header extension of `total` bytes. */
    method MakeRoom(id: u16, total: nat)
      requires IsStored(store[..], size, packet) && IsPlaced(packet)
      requires total / 4 < 0x1_0000
      requires var shift := Shift(packet, total); -0x8000 <= shift < 0x8000 && size + shift <= store.Length
      modifies store, this`headerExtension, this`payload, this`size
      ensures RoomMade(old(store[..]), packet, store[..], id, total)
      ensures headerExtension == Some(CsrcEnd(packet)) && payload == CsrcEnd(packet) + 4 + total
      ensures size == old(size) + Shift(packet, total)
    {
      hide IsStored, Carries, RoomMade, Int16, WellFormed, Get2;
      PlacesFit();
      HeaderExtensionIs();
      StoredCarries(store[..], size, packet);
      Int16IsExactIff(Shift(packet, total));
      var rest := payloadLength + payloadPadding;
      var shift;
      if headerExtension.Some? {
        shift := Int16(total - HeaderExtensionLength());
        ResizeRoom(store, headerExtension.value, payload, shift, rest, id, total, packet);
      } else {
        Int16IsExactIff(total);
        shift := Int16(4 + Int16(total));
        AddRoom(store, payload, shift, rest, id, total, packet);
        headerExtension := Some(payload);
      }
      payload := payload + shift;
      size := size + shift;
    }

    /** Writes the elements into the room made for them. */
    method FillRoom(kind: E.Kind, extensions: seq<E.GenericExtension>, ghost data: seq<byte>, ghost q: Packet)
      requires E.HasBlock(kind, extensions) && q == WithExtensions(packet, kind, extensions)
      requires IsStored(data, PayloadEnd(packet) + packet.padding, packet)
      requires RoomMade(data, packet, store[..], q.extension.value.id, E.BlockSize(kind, extensions))
      requires headerExtension == Some(CsrcEnd(packet)) && payload == CsrcEnd(packet) + 4 + E.BlockSize(kind, extensions)
      requires size == PayloadEnd(q) + q.padding <= store.Length
      modifies store, this`oneByteExtensions, this`twoBytesExtensions
      ensures IsStored(store[..], size, q) && IsIndexed(q.extension, oneByteExtensions, twoBytesExtensions)
    {
      hide IsStored, RoomMade, Splice, PadTo4, IsIndexed, E.Block, E.Elements, E.Offsets, E.Parse, E.IdFor, E.KindOf;
      RoomFilled(data, packet, store[..], q.extension.value.id, E.Block(kind, extensions));
      WriteElements(kind, extensions, headerExtension.value + 4, payload);
      OffsetsAreIndexed(packet, kind, extensions, oneByteExtensions, twoBytesExtensions);
    }

    /** The elements of the packet become `extensions`; everything else of it stays. */
    method SetExtensions(kind: E.Kind, extensions: seq<E.GenericExtension>)
      requires Valid() && E.HasBlock(kind, extensions)
      requires var shift := Shift(packet, E.BlockSize(kind, extensions));
               -0x8000 <= shift < 0x8000 && size + shift <= store.Length
      modifies this, store
      ensures Valid() && packet == WithExtensions(old(packet), kind, extensions)
      ensures size == old(size) + Shift(old(packet), E.BlockSize(kind, extensions))
    {
      hide IsStored, Carries, RoomMade, Get2, E.BlockSize, Shift, IsIndexed, WithExtensions, WellFormed;
      hide CsrcEnd, PayloadStart, PayloadEnd, E.Block, E.Elements, E.IdFor, E.KindOf;
      ghost var data, q := store[..], WithExtensions(packet, kind, extensions);
      PlacesFit();
      StoredCarries(data, size, packet);
      WithExtensionsIs(packet, kind, extensions);
      var id := ExtensionIdFor(kind);
      var total := E.TotalSize(kind, extensions);
      MakeRoom(id, total);
      FillRoom(kind, extensions, data, q);
      packet := q;
    }

    method ExtensionIdFor(kind: E.Kind) returns (id: u16)
      requires Valid()
      ensures id == E.IdFor(kind, ExtensionId(packet))
    {
      hide IsStored, E.IdFor;
      HeaderExtensionIs();
      id := E.IdFor(kind, if headerExtension.Some? then Some(HeaderExtensionId()) else None);
    }

    // ----- The payload

    /** Opens a gap of `shift` bytes in the payload, or closes one. */
    method ShiftPayload(offset: nat, shift: nat, expand: bool)
      requires Valid()
      requires shift != 0 ==> offset < payloadLength
      requires if expand then size + shift <= store.Length else shift != 0 ==> shift <= payloadLength - offset
      modifies this, store
      ensures Valid()
      ensures shift == 0 ==> packet == old(packet)
      ensures shift != 0 && expand ==> IsExpanded(old(packet), packet, offset, shift)
      ensures shift != 0 && !expand ==> packet == Collapsed(old(packet), offset, shift)
    {
      hide IsStored, IsIndexed;
      if shift == 0 {
        return;
      }
      PlacesFit();
      if expand {
        packet := ExpandPayload(store, payload, size, offset, shift, packet);
        payloadLength := payloadLength + shift;
        size := size + shift;
      } else {
        CollapsePayload(store, payload, size, offset, shift, packet);
        payloadLength := payloadLength - shift;
        size := size - shift;
        packet := Collapsed(packet, offset, shift);
      }
    }

    // ----- Copies

    /** The same packet in another store; of the padding only the last byte is written. */
    method Clone(buffer: array<byte>) returns (clone: RtpPacket)
      requires Valid() && buffer != store && size <= buffer.Length
      modifies buffer
      ensures Valid() && packet == old(packet)
      ensures fresh(clone) && clone.store == buffer && clone.Valid() && clone.packet == packet
    {
      hide IsStored, IsIndexed, Carries, Get2, WellFormed;
      PlacesFit();
      StoredCarries(store[..], size, packet);
      var newHeaderExtension, newPayload := CopyParts(buffer);
      var ptr := newPayload + payloadLength;
      SamePayload(store[..], packet, buffer[..]);
      if payloadPadding != 0 {
        ptr := ptr + payloadPadding;
        ghost var before := buffer[..];
        buffer[ptr - 1] := payloadPadding;
        SamePayload(before, packet, buffer[..]);
      }
      CarriedIsStored(buffer[..], size, packet);
      clone := new RtpPacket(buffer, newHeaderExtension, newPayload, payloadLength, payloadPadding, size, packet);
    }

    /** Everything up to the padding. */
    method CopyParts(buffer: array<byte>) returns (newHeaderExtension: Option<nat>, newPayload: nat)
      requires Valid() && buffer != store && size <= buffer.Length
      modifies buffer
      ensures newHeaderExtension == headerExtension && newPayload == payload
      ensures payload + payloadLength <= buffer.Length
      ensures buffer[..payload + payloadLength] == store[..payload + payloadLength]
    {
      hide IsStored, IsIndexed, Carries, Get2, WellFormed;
      PlacesFit();
      newHeaderExtension, newPayload := CopyHeader(buffer);
      var ptr := newPayload;
      if payloadLength != 0 {
        ptr := CopyTo(buffer, ptr, payload, payloadLength);
      }
    }

    /** The fixed header, the CSRC list and the header extension. */
    method CopyHeader(buffer: array<byte>) returns (newHeaderExtension: Option<nat>, newPayload: nat)
      requires Valid() && buffer != store && size <= buffer.Length
      modifies buffer
      ensures newHeaderExtension == headerExtension && newPayload == payload
      ensures payload <= buffer.Length && buffer[..payload] == store[..payload]
    {
      hide IsStored, IsIndexed, Carries, Get2, WellFormed;
      PlacesFit();
      StoredCarries(store[..], size, packet);
      CsrcListSizeIs(store[..], packet);
      HeaderExtensionIs();
      var ptr := 0;
      ptr := CopyTo(buffer, ptr, 0, HEADER_SIZE);
      ptr := CopyTo(buffer, ptr, HEADER_SIZE, CsrcListSize());
      newHeaderExtension := None;
      if headerExtension.Some? {
        newHeaderExtension := Some(ptr);
        ptr := CopyTo(buffer, ptr, headerExtension.value, 4 + HeaderExtensionLength());
      }
      newPayload := ptr;
    }

    method CopyTo(buffer: array<byte>, ptr: nat, from: nat, len: nat) returns (next: nat)
      requires from == ptr && ptr + len <= buffer.Length && ptr + len <= store.Length && buffer != store
      requires buffer[..ptr] == store[..ptr]
      modifies buffer
      ensures next == ptr + len && buffer[..next] == store[..next]
    {
      Copy(buffer, ptr, store[from..from + len]);
      next := ptr + len;
      assert buffer[..next] == store[..ptr] + store[from..from + len];
    }

    function CsrcListSize(): nat
      reads store
      requires store.Length >= HEADER_SIZE
    {
      store[0] % 16 * 4
    }
  }

  lemma WithExtensionsIs(p: Packet, kind: E.Kind, extensions: seq<E.GenericExtension>)
    requires E.HasBlock(kind, extensions)
    ensures var block := E.Block(kind, extensions);
            && |block| / 4 < 0x1_0000
            && WithExtensions(p, kind, extensions)
               == p.(extension := Some(Extension(E.IdFor(kind, ExtensionId(p)), block)))
            && |block| == E.BlockSize(kind, extensions) && |block| % 4 == 0
    ensures var q := WithExtensions(p, kind, extensions);
            && CsrcEnd(q) == CsrcEnd(p)
            && PayloadStart(q) == CsrcEnd(p) + 4 + E.BlockSize(kind, extensions)
            && PayloadStart(q) == PayloadStart(p) + Shift(p, E.BlockSize(kind, extensions))
            && PayloadEnd(q) == PayloadStart(q) + |p.payload|
  {
    BlockFits(E.Block(kind, extensions));
  }

  lemma OffsetsAreIndexed(p: Packet, kind: E.Kind, extensions: seq<E.GenericExtension>,
                          oneByte: map<byte, nat>, twoBytes: map<byte, nat>)
    requires E.HasBlock(kind, extensions)
    requires kind.OneByte? ==> oneByte == E.Offsets(kind, extensions)
    requires kind.TwoBytes? ==> twoBytes == E.Offsets(kind, extensions)
    ensures IsIndexed(WithExtensions(p, kind, extensions).extension, oneByte, twoBytes)
  {
    hide E.Block, E.Offsets, E.Parse;
    E.ParseOfBlock(kind, extensions);
  }

  lemma OriginalIs(data: seq<byte>, p: Packet)
    requires Carries(data, p) && |p.payload| >= 2
    ensures Get2(data, PayloadStart(p)) == Get2(p.payload, 0)
  {
    var payload := data[PayloadStart(p)..PayloadEnd(p)];
    assert data[PayloadStart(p)] == payload[0] && data[PayloadStart(p) + 1] == payload[1];
  }
}
