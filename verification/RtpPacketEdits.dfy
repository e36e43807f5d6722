/** What changing some bytes of a packet makes of the packet. */
module RtpPacketEdits {
  import opened Seq16
  import opened Bytes
  import opened Arithmetic
  import opened RtpPackets
  import opened RtpPacketBytes
  import E = RtpExtensions

  /** A store starts with everything of a packet except its padding. */
  predicate Carries(data: seq<byte>, p: Packet)
  {
    && WellFormed(p)
    && PayloadEnd(p) <= |data|
    && HasHeader(data, p)
    && data[HEADER_SIZE..CsrcEnd(p)] == p.csrcs
    && data[CsrcEnd(p)..PayloadStart(p)] == ExtensionBytes(p.extension)
    && data[PayloadStart(p)..PayloadEnd(p)] == p.payload
  }

  /** The first `size` bytes of a store are a packet. */
  predicate IsStored(data: seq<byte>, size: nat, p: Packet)
  {
    && Carries(data, p)
    && size == PayloadEnd(p) + p.padding <= |data|
    && (p.padding != 0 ==> data[size - 1] == p.padding)
  }

  /** Which is to say that they parse as that packet. */
  lemma IsStoredIff(data: seq<byte>, size: nat, p: Packet)
    requires size <= |data|
    ensures IsStored(data, size, p) <==> Parse(data[..size]) == Some(p)
  {
    hide Parse, HasHeader, ExtensionBytes, Size, WellFormed;
    var packet := data[..size];
    ParseIff(packet, p);
    if WellFormed(p) && HEADER_SIZE <= PayloadEnd(p) <= size {
      HeaderOfPrefix(data, size, p);
      SliceOfSlice(data, 0, size, HEADER_SIZE, CsrcEnd(p));
      SliceOfSlice(data, 0, size, CsrcEnd(p), PayloadStart(p));
      SliceOfSlice(data, 0, size, PayloadStart(p), PayloadEnd(p));
    }
  }

  lemma HeaderOfPrefix(data: seq<byte>, size: nat, p: Packet)
    requires HEADER_SIZE <= size <= |data| && WellFormed(p)
    ensures HasHeader(data, p) <==> HasHeader(data[..size], p)
  {
    hide FirstByte, SecondByte;
  }

  // ----- The fixed header

  /** Nothing but the fixed header changes. */
  lemma HeaderEdit(data: seq<byte>, p: Packet, now: seq<byte>, q: Packet)
    requires Carries(data, p) && |now| == |data| && WellFormed(q)
    requires forall i :: HEADER_SIZE <= i < |data| ==> now[i] == data[i]
    requires q.csrcs == p.csrcs && q.extension == p.extension && q.payload == p.payload && HasHeader(now, q)
    ensures Carries(now, q)
  {
    hide HasHeader, ExtensionBytes;
    assert now[HEADER_SIZE..CsrcEnd(p)] == data[HEADER_SIZE..CsrcEnd(p)];
    assert now[CsrcEnd(p)..PayloadStart(p)] == data[CsrcEnd(p)..PayloadStart(p)];
    assert now[PayloadStart(p)..PayloadEnd(p)] == data[PayloadStart(p)..PayloadEnd(p)];
  }

  lemma PayloadTypeEdit(data: seq<byte>, p: Packet, payloadType: u7)
    requires Carries(data, p)
    ensures 0 <= data[1] - data[1] % 128 + payloadType < 0x100
    ensures Carries(data[1 := data[1] - data[1] % 128 + payloadType], p.(payloadType := payloadType))
  {
    hide FirstByte;
    SecondByteParts(p.marker, p.payloadType);
    var now, q := data[1 := data[1] - data[1] % 128 + payloadType], p.(payloadType := payloadType);
    HeaderEdit(data, p, now, q);
  }

  lemma SequenceNumberEdit(data: seq<byte>, p: Packet, sequenceNumber: u16)
    requires Carries(data, p)
    ensures Carries(Splice(data, 2, Put2(sequenceNumber)), p.(sequenceNumber := sequenceNumber))
  {
    hide FirstByte, SecondByte, Put2;
    var x := Put2(sequenceNumber);
    var now, q := Splice(data, 2, x), p.(sequenceNumber := sequenceNumber);
    assert now[2] == x[0] && now[3] == x[1];
    HeaderEdit(data, p, now, q);
  }

  lemma SsrcEdit(data: seq<byte>, p: Packet, ssrc: u32)
    requires Carries(data, p)
    ensures Carries(Splice(data, 8, Put4(ssrc)), p.(ssrc := ssrc))
  {
    hide FirstByte, SecondByte, Put4;
    var x := Put4(ssrc);
    var now, q := Splice(data, 8, x), p.(ssrc := ssrc);
    assert now[8] == x[0] && now[9] == x[1] && now[10] == x[2] && now[11] == x[3];
    HeaderEdit(data, p, now, q);
  }

  /** The flags of the first byte: `unit` is 32 for padding, 16 for extension. */
  function WithFlag(b: byte, unit: nat, flag: bool): byte
    requires unit == 32 || unit == 16
  {
    QuotientBounds(b, unit);
    var q := b / unit;
    assert q % 2 == 0 ==> q <= 256 / unit - 2;
    b + (if flag then unit else 0) - (if b / unit % 2 == 1 then unit else 0)
  }

  lemma PaddingEdit(data: seq<byte>, p: Packet, padding: byte)
    requires Carries(data, p)
    ensures Carries(data[0 := WithFlag(data[0], 32, padding != 0)], p.(padding := padding))
  {
    hide SecondByte;
    FirstByteParts(p.padding != 0, p.extension.Some?, |p.csrcs| / 4);
    HeaderEdit(data, p, data[0 := WithFlag(data[0], 32, padding != 0)], p.(padding := padding));
  }

  // ----- The payload

  /** Nothing before the payload changes. */
  lemma PayloadEdit(data: seq<byte>, p: Packet, now: seq<byte>, payload: seq<byte>)
    requires Carries(data, p)
    requires PayloadStart(p) + |payload| <= |now|
    requires now[..PayloadStart(p)] == data[..PayloadStart(p)]
    requires now[PayloadStart(p)..PayloadStart(p) + |payload|] == payload
    ensures Carries(now, p.(payload := payload))
  {
    hide ExtensionBytes;
    hide HasHeader;
    var start := PayloadStart(p);
    HeaderOfPrefix(data, start, p);
    HeaderOfPrefix(now, start, p);
    SliceOfSlice(data, 0, start, HEADER_SIZE, CsrcEnd(p));
    SliceOfSlice(now, 0, start, HEADER_SIZE, CsrcEnd(p));
    SliceOfSlice(data, 0, start, CsrcEnd(p), start);
    SliceOfSlice(now, 0, start, CsrcEnd(p), start);
    SameHeader(now, p, p.(payload := payload));
  }

  lemma SameHeader(data: seq<byte>, p: Packet, q: Packet)
    requires WellFormed(p) && WellFormed(q) && HasHeader(data, p)
    requires q.(extension := p.extension, payload := p.payload) == p && (q.extension.Some? <==> p.extension.Some?)
    ensures HasHeader(data, q)
  {
  }

  /** The payload moved up by two, and the original sequence number put in front of it. */
  lemma RtxPayload(data: seq<byte>, p: Packet)
    requires Carries(data, p) && PayloadEnd(p) + 2 <= |data|
    ensures var now := Splice(Splice(data, PayloadStart(p) + 2, p.payload), PayloadStart(p), Put2(p.sequenceNumber));
            Carries(now, p.(payload := Put2(p.sequenceNumber) + p.payload))
  {
    hide Carries, Put2;
    CarriesFits(data, p);
    var start, x := PayloadStart(p), Put2(p.sequenceNumber);
    var moved := Splice(data, start + 2, p.payload);
    var now := Splice(moved, start, x);
    SpliceParts(data, start + 2, p.payload, PayloadEnd(p) + 2);
    assert now[..start] == data[..start];
    assert now[start..start + |x + p.payload|] == x + p.payload;
    PayloadEdit(data, p, now, x + p.payload);
  }

  lemma StoredCarries(data: seq<byte>, size: nat, p: Packet)
    requires IsStored(data, size, p)
    ensures Carries(data, p) && size == PayloadEnd(p) + p.padding <= |data|
    ensures HEADER_SIZE <= CsrcEnd(p) <= PayloadStart(p) && PayloadEnd(p) == PayloadStart(p) + |p.payload|
    ensures p.padding != 0 ==> data[size - 1] == p.padding
  {
  }

  lemma CarriedIsStored(data: seq<byte>, size: nat, p: Packet)
    requires Carries(data, p) && size == PayloadEnd(p) + p.padding <= |data|
    requires p.padding != 0 ==> data[size - 1] == p.padding
    ensures IsStored(data, size, p)
  {
  }

  lemma CsrcListSizeIs(data: seq<byte>, p: Packet)
    requires Carries(data, p)
    ensures |data| > 0 && data[0] % 16 * 4 == |p.csrcs|
  {
    FirstByteParts(p.padding != 0, p.extension.Some?, |p.csrcs| / 4);
    QuotientBounds(|p.csrcs|, 4);
  }

  /** A change of the fixed header leaves the padding alone. */
  lemma StillStored(data: seq<byte>, size: nat, p: Packet, now: seq<byte>, q: Packet)
    requires Carries(now, q) && |now| == |data| && q.(marker := p.marker, payloadType := p.payloadType,
      sequenceNumber := p.sequenceNumber, timestamp := p.timestamp, ssrc := p.ssrc) == p
    requires forall i :: HEADER_SIZE <= i < |data| ==> now[i] == data[i]
    ensures IsStored(data, size, p) ==> IsStored(now, size, q)
  {
    hide Carries;
    CarriesFits(now, q);
  }

  lemma CarriesFits(data: seq<byte>, p: Packet)
    requires Carries(data, p)
    ensures WellFormed(p) && HEADER_SIZE <= CsrcEnd(p) <= PayloadStart(p) <= PayloadEnd(p) <= |data|
    ensures PayloadEnd(p) == PayloadStart(p) + |p.payload|
    ensures data[PayloadStart(p)..PayloadEnd(p)] == p.payload
    ensures data[1] % 128 == p.payloadType && Get2(data, 2) == p.sequenceNumber
  {
    SecondByteParts(p.marker, p.payloadType);
  }

  /** Nothing before the end of the payload changes. */
  lemma SamePayload(data: seq<byte>, p: Packet, now: seq<byte>)
    requires Carries(data, p) && PayloadEnd(p) <= |now| && now[..PayloadEnd(p)] == data[..PayloadEnd(p)]
    ensures Carries(now, p)
  {
    hide Carries;
    CarriesFits(data, p);
    SliceOfSlice(data, 0, PayloadEnd(p), 0, PayloadStart(p));
    SliceOfSlice(now, 0, PayloadEnd(p), 0, PayloadStart(p));
    SliceOfSlice(data, 0, PayloadEnd(p), PayloadStart(p), PayloadEnd(p));
    SliceOfSlice(now, 0, PayloadEnd(p), PayloadStart(p), PayloadEnd(p));
    PayloadEdit(data, p, now, p.payload);
    assert p.(payload := p.payload) == p;
  }

  /** The payload opened at `offset`; what is in the gap is not said. */
  ghost predicate IsExpanded(p: Packet, q: Packet, offset: nat, shift: nat)
    requires offset <= |p.payload|
  {
    && q == p.(payload := q.payload)
    && |q.payload| == |p.payload| + shift
    && q.payload[..offset] == p.payload[..offset]
    && q.payload[offset + shift..] == p.payload[offset..]
  }

  function Collapsed(p: Packet, offset: nat, shift: nat): Packet
    requires offset + shift <= |p.payload|
  {
    p.(payload := p.payload[..offset] + p.payload[offset + shift..])
  }

  /** Collapsing undoes expanding, whatever was put into the gap meanwhile. */
  lemma CollapseOfExpanded(p: Packet, q: Packet, offset: nat, shift: nat)
    requires offset <= |p.payload| && IsExpanded(p, q, offset, shift)
    ensures Collapsed(q, offset, shift) == p
  {
    assert q.payload[..offset] + q.payload[offset + shift..] == p.payload;
  }

  lemma TailExpanded(data: seq<byte>, size: nat, p: Packet, offset: nat, shift: nat)
    requires IsStored(data, size, p) && offset <= |p.payload| && size + shift <= |data|
    ensures var start := PayloadStart(p);
            var now := Splice(data, start + offset + shift, data[start + offset..size]);
            var q := p.(payload := now[start..PayloadEnd(p) + shift]);
            IsExpanded(p, q, offset, shift) && IsStored(now, size + shift, q)
  {
    hide Carries, Splice, IsStored, PayloadStart, PayloadEnd;
    StoredCarries(data, size, p);
    CarriesFits(data, p);
    var start, end := PayloadStart(p), PayloadEnd(p);
    GapIsOpen(data, start, end, size, offset, shift);
    var now := Splice(data, start + offset + shift, data[start + offset..size]);
    PartsAround(data, now, start, end, offset, shift);
    PayloadReplaced(data, size, p, now, size + shift, now[start..end + shift]);
  }

  /** Another payload, and the padding behind it. */
  lemma PayloadReplaced(data: seq<byte>, size: nat, p: Packet, now: seq<byte>, newSize: nat, payload: seq<byte>)
    requires IsStored(data, size, p) && newSize == PayloadStart(p) + |payload| + p.padding <= |now|
    requires now[..PayloadStart(p)] == data[..PayloadStart(p)]
    requires now[PayloadStart(p)..PayloadStart(p) + |payload|] == payload
    requires p.padding != 0 ==> now[newSize - 1] == data[size - 1]
    ensures IsStored(now, newSize, p.(payload := payload))
  {
    hide Carries, IsStored, PayloadStart, PayloadEnd;
    StoredCarries(data, size, p);
    SameStart(p, p.(payload := payload));
    PayloadEdit(data, p, now, payload);
    CarriedIsStored(now, newSize, p.(payload := payload));
  }

  lemma SameStart(p: Packet, q: Packet)
    requires q == p.(payload := q.payload)
    ensures PayloadStart(q) == PayloadStart(p) && PayloadEnd(q) == PayloadStart(p) + |q.payload|
  {
  }

  /** A gap in data[start..end], and what comes behind it moved up. */
  lemma GapIsOpen(data: seq<byte>, start: nat, end: nat, size: nat, offset: nat, shift: nat)
    requires start + offset <= end <= size && size + shift <= |data|
    ensures var now := Splice(data, start + offset + shift, data[start + offset..size]);
            && now[..start] == data[..start]
            && now[start..start + offset] == data[start..start + offset]
            && now[start + offset + shift..end + shift] == data[start + offset..end]
            && (end < size ==> now[size + shift - 1] == data[size - 1])
  {
    hide Splice;
    var at, tail := start + offset + shift, data[start + offset..size];
    var now := Splice(data, at, tail);
    SpliceElsewhere(data, at, tail, 0, start);
    SpliceElsewhere(data, at, tail, start, start + offset);
    SpliceHere(data, at, tail);
    TailParts(data, start + offset, end, size, now, at);
  }

  lemma PartsAround(data: seq<byte>, now: seq<byte>, start: nat, end: nat, offset: nat, shift: nat)
    requires start + offset <= end <= |data| && end + shift <= |now|
    requires now[start..start + offset] == data[start..start + offset]
    requires now[start + offset + shift..end + shift] == data[start + offset..end]
    ensures now[start..end + shift][..offset] == data[start..end][..offset]
    ensures now[start..end + shift][offset + shift..] == data[start..end][offset..]
  {
    SliceOfSlice(now, start, end + shift, 0, offset);
    SliceOfSlice(data, start, end, 0, offset);
    SliceOfSlice(now, start, end + shift, offset + shift, end - start + shift);
    SliceOfSlice(data, start, end, offset, end - start);
  }

  /** The tail of some data, found elsewhere. */
  lemma TailParts(data: seq<byte>, from: nat, mid: nat, size: nat, now: seq<byte>, at: nat)
    requires from <= mid <= size <= |data| && at + size - from <= |now| && now[at..at + size - from] == data[from..size]
    ensures now[at..at + mid - from] == data[from..mid]
    ensures mid < size ==> now[at + size - from - 1] == data[size - 1]
  {
    SliceOfSlice(now, at, at + size - from, 0, mid - from);
    SliceOfSlice(data, from, size, 0, mid - from);
    if mid < size {
      assert now[at + size - from - 1] == now[at..at + size - from][size - from - 1];
      assert data[size - 1] == data[from..size][size - from - 1];
    }
  }

  lemma TailCollapsed(data: seq<byte>, size: nat, p: Packet, offset: nat, shift: nat)
    requires IsStored(data, size, p) && offset + shift <= |p.payload|
    ensures var start := PayloadStart(p);
            var now := Splice(data, start + offset, data[start + offset + shift..size]);
            IsStored(now, size - shift, Collapsed(p, offset, shift))
  {
    hide Carries, Splice, IsStored, PayloadStart, PayloadEnd;
    StoredCarries(data, size, p);
    CarriesFits(data, p);
    var start, end, q := PayloadStart(p), PayloadEnd(p), Collapsed(p, offset, shift);
    GapIsClosed(data, start, end, size, offset, shift);
    var now := Splice(data, start + offset, data[start + offset + shift..size]);
    PartsWithout(data, start, end, offset, shift);
    PayloadReplaced(data, size, p, now, size - shift, q.payload);
  }

  lemma PartsWithout(data: seq<byte>, start: nat, end: nat, offset: nat, shift: nat)
    requires start + offset + shift <= end <= |data|
    ensures data[start..end][..offset] == data[start..start + offset]
    ensures data[start..end][offset + shift..] == data[start + offset + shift..end]
  {
    SliceOfSlice(data, start, end, 0, offset);
    SliceOfSlice(data, start, end, offset + shift, end - start);
  }

  /** The gap closed again, and what comes behind it moved down. */
  lemma GapIsClosed(data: seq<byte>, start: nat, end: nat, size: nat, offset: nat, shift: nat)
    requires start + offset + shift <= end <= size <= |data|
    ensures var now := Splice(data, start + offset, data[start + offset + shift..size]);
            && now[..start] == data[..start]
            && now[start..end - shift] == data[start..start + offset] + data[start + offset + shift..end]
            && (end < size ==> now[size - shift - 1] == data[size - 1])
  {
    hide Splice;
    var at, tail := start + offset, data[start + offset + shift..size];
    var now := Splice(data, at, tail);
    SpliceElsewhere(data, at, tail, 0, start);
    SpliceElsewhere(data, at, tail, start, at);
    SpliceHere(data, at, tail);
    TailParts(data, at + shift, end, size, now, at);
    SliceJoins(now, start, at, end - shift);
  }

  // ----- The header extension

  /** RtpPacket::SetExtensions. */
  function WithExtensions(p: Packet, kind: E.Kind, extensions: seq<E.GenericExtension>): (r: Packet)
    requires E.HasBlock(kind, extensions)
    ensures WellFormed(p) ==> WellFormed(r)
  {
    var block := E.Block(kind, extensions);
    BlockFits(block);
    p.(extension := Some(Extension(E.IdFor(kind, ExtensionId(p)), block)))
  }

  function ExtensionId(p: Packet): Option<u16>
  {
    if p.extension.Some? then Some(p.extension.value.id) else None
  }

  lemma BlockFits(block: seq<byte>)
    requires |block| <= 0xFFFC
    ensures |block| / 4 < 0x1_0000
  {
    QuotientBounds(|block|, 4);
  }

  /** What GetExtension answers for a packet. */
  function Lookup(p: Packet, id: byte): Option<seq<byte>>
  {
    if p.extension.None? then None
    else
      var kind := E.KindOf(p.extension.value.id);
      if kind.None? then None
      else
        E.ParseFits(kind.value, p.extension.value.value);
        E.Get(kind.value, p.extension.value.value, E.Parse(kind.value, p.extension.value.value), id)
  }

  /** What was set is what is read: per id the last entry that can be written; and only the extension changed. */
  lemma LookupOfWithExtensions(p: Packet, kind: E.Kind, extensions: seq<E.GenericExtension>, id: byte)
    requires E.HasBlock(kind, extensions)
    ensures var q, last := WithExtensions(p, kind, extensions), E.LastWritten(kind, extensions, id);
            && (last.Some? && last.value.value != [] ==> Lookup(q, id) == Some(last.value.value))
            && (last.None? || last.value.value == [] ==> Lookup(q, id) == None)
            && q.(extension := p.extension) == p
            && Size(q) == HEADER_SIZE + |p.csrcs| + 4 + E.BlockSize(kind, extensions) + |p.payload| + p.padding
  {
    E.GetOfBlock(kind, extensions, id);
  }

  /** The extension flag, the extension and the place of the payload change. */
  lemma ExtensionEdit(data: seq<byte>, p: Packet, now: seq<byte>, e: Extension)
    requires Carries(data, p)
    requires var q := p.(extension := Some(e));
             && WellFormed(q)
             && PayloadEnd(q) <= |now|
             && now[0] == WithFlag(data[0], 16, true)
             && now[1..CsrcEnd(p)] == data[1..CsrcEnd(p)]
             && now[CsrcEnd(p)..PayloadStart(q)] == ExtensionBytes(Some(e))
             && now[PayloadStart(q)..PayloadEnd(q)] == p.payload
    ensures Carries(now, p.(extension := Some(e)))
  {
    hide SecondByte, ExtensionBytes;
    FirstByteParts(p.padding != 0, p.extension.Some?, |p.csrcs| / 4);
    var end := CsrcEnd(p);
    SliceOfSlice(data, 1, end, HEADER_SIZE - 1, end - 1);
    SliceOfSlice(now, 1, end, HEADER_SIZE - 1, end - 1);
    assert forall i :: 0 <= i < HEADER_SIZE - 1 ==> now[1..end][i] == data[1..end][i];
    assert forall i :: 1 <= i < HEADER_SIZE ==> now[i] == now[1..end][i - 1] && data[i] == data[1..end][i - 1];
  }

  /** Only what is between the CSRC list and the payload has changed, and the extension flag. */
  ghost predicate IsNamed(data: seq<byte>, p: Packet, named: seq<byte>)
  {
    var end, start, rest := CsrcEnd(p), PayloadStart(p), |p.payload| + p.padding;
    && |named| == |data| && start + rest <= |data|
    && named[..1] == [WithFlag(data[0], 16, true)]
    && named[1..end] == data[1..end]
    && named[start..start + rest] == data[start..start + rest]
  }

  /** The payload and the padding are moved behind a header extension of `total` bytes. */
  ghost predicate IsMoved(data: seq<byte>, p: Packet, now: seq<byte>, total: nat)
  {
    var end, rest := CsrcEnd(p), |p.payload| + p.padding;
    && |now| == |data| && PayloadStart(p) + rest <= |data| && end + 4 + total + rest <= |data|
    && now[..1] == [WithFlag(data[0], 16, true)]
    && now[1..end] == data[1..end]
    && now[end + 4 + total..end + 4 + total + rest] == data[PayloadStart(p)..PayloadStart(p) + rest]
  }

  /** And its id and its length are in place. */
  ghost predicate RoomMade(data: seq<byte>, p: Packet, now: seq<byte>, id: u16, total: nat)
  {
    && IsMoved(data, p, now, total)
    && total / 4 < 0x1_0000
    && now[CsrcEnd(p)..CsrcEnd(p) + 2] == Put2(id)
    && now[CsrcEnd(p) + 2..CsrcEnd(p) + 4] == Put2(total / 4)
  }

  /** With the elements written into it, the room is the header extension. */
  lemma RoomFilled(data: seq<byte>, p: Packet, now: seq<byte>, id: u16, block: seq<byte>)
    requires IsStored(data, PayloadEnd(p) + p.padding, p) && RoomMade(data, p, now, id, |block|) && |block| % 4 == 0
    ensures var q := p.(extension := Some(Extension(id, block)));
            IsStored(Splice(now, CsrcEnd(p) + 4, block), PayloadEnd(q) + q.padding, q)
  {
    hide IsStored, RoomMade, HasHeader, ExtensionBytes, WithFlag, Splice, Carries;
    StoredCarries(data, PayloadEnd(p) + p.padding, p);
    var e, q := Extension(id, block), p.(extension := Some(Extension(id, block)));
    FilledParts(data, p, now, id, block);
    var filled := Splice(now, CsrcEnd(p) + 4, block);
    MovedRest(data, p, filled, PayloadStart(q));
    CarriesFits(data, p);
    ExtensionEdit(data, p, filled, e);
    CarriedIsStored(filled, PayloadEnd(q) + q.padding, q);
  }

  lemma FilledParts(data: seq<byte>, p: Packet, now: seq<byte>, id: u16, block: seq<byte>)
    requires RoomMade(data, p, now, id, |block|)
    ensures var end, start, rest := CsrcEnd(p), CsrcEnd(p) + 4 + |block|, |p.payload| + p.padding;
            && |block| / 4 < 0x1_0000
            && start + rest <= |now| && PayloadStart(p) + rest <= |data| == |now|
    ensures var end, start, rest := CsrcEnd(p), CsrcEnd(p) + 4 + |block|, |p.payload| + p.padding;
            var filled := Splice(now, end + 4, block);
            && filled[0] == WithFlag(data[0], 16, true)
            && filled[1..end] == data[1..end]
            && filled[end..start] == ExtensionBytes(Some(Extension(id, block)))
            && filled[start..start + rest] == data[PayloadStart(p)..PayloadStart(p) + rest]
  {
    hide ExtensionBytes, WithFlag, Splice;
    MovedFits(data, p, now, |block|);
    var end, start, rest := CsrcEnd(p), CsrcEnd(p) + 4 + |block|, |p.payload| + p.padding;
    var filled := Splice(now, end + 4, block);
    SpliceElsewhere(now, end + 4, block, 0, 1);
    assert filled[0] == filled[0..1][0] == now[..1][0];
    SpliceElsewhere(now, end + 4, block, 1, end);
    SpliceElsewhere(now, end + 4, block, start, start + rest);
    BlockWritten(now, end, Extension(id, block));
  }

  lemma MovedRest(data: seq<byte>, p: Packet, now: seq<byte>, start: nat)
    requires IsStored(data, PayloadEnd(p) + p.padding, p)
    requires var rest := |p.payload| + p.padding;
             start + rest <= |now| && now[start..start + rest] == data[PayloadStart(p)..PayloadStart(p) + rest]
    ensures now[start..start + |p.payload|] == p.payload
    ensures p.padding != 0 ==> now[start + |p.payload| + p.padding - 1] == p.padding
  {
    hide HasHeader, ExtensionBytes, WellFormed;
    var rest := |p.payload| + p.padding;
    SliceOfSlice(now, start, start + rest, 0, |p.payload|);
    SliceOfSlice(data, PayloadStart(p), PayloadStart(p) + rest, 0, |p.payload|);
    if p.padding != 0 {
      assert now[start + rest - 1] == now[start..start + rest][rest - 1];
      assert data[PayloadStart(p) + rest - 1] == data[PayloadStart(p)..PayloadStart(p) + rest][rest - 1];
    }
  }

  lemma BlockWritten(now: seq<byte>, end: nat, e: Extension)
    requires end + 4 + |e.value| <= |now| && |e.value| / 4 < 0x1_0000
    requires now[end..end + 2] == Put2(e.id) && now[end + 2..end + 4] == Put2(|e.value| / 4)
    ensures Splice(now, end + 4, e.value)[end..end + 4 + |e.value|] == ExtensionBytes(Some(e))
  {
    hide Put2;
    var filled := Splice(now, end + 4, e.value);
    assert filled[end..end + 4 + |e.value|] == now[end..end + 2] + now[end + 2..end + 4] + e.value;
  }

  /** Its parts are put in place one after the other. */
  lemma RestMoved(data: seq<byte>, p: Packet, named: seq<byte>, total: nat)
    requires var end, rest := CsrcEnd(p), |p.payload| + p.padding;
             IsNamed(data, p, named) && end + 4 + total + rest <= |named|
    ensures var end, start, rest := CsrcEnd(p), PayloadStart(p), |p.payload| + p.padding;
            var now := Splice(named, end + 4 + total, named[start..start + rest]);
            && IsMoved(data, p, now, total)
            && now[end..end + 2] == named[end..end + 2]
  {
    hide WithFlag, Splice;
    var end, start, rest := CsrcEnd(p), PayloadStart(p), |p.payload| + p.padding;
    var tail := named[start..start + rest];
    SpliceHere(named, end + 4 + total, tail);
    SpliceElsewhere(named, end + 4 + total, tail, 0, 1);
    SpliceElsewhere(named, end + 4 + total, tail, 1, end);
    SpliceElsewhere(named, end + 4 + total, tail, end, end + 2);
  }

  lemma MovedStays(data: seq<byte>, p: Packet, now: seq<byte>, total: nat, at: nat, x: seq<byte>)
    requires IsMoved(data, p, now, total) && CsrcEnd(p) <= at && at + |x| <= CsrcEnd(p) + 4 + total
    ensures IsMoved(data, p, Splice(now, at, x), total)
  {
    hide WithFlag, Splice;
    var end, rest := CsrcEnd(p), |p.payload| + p.padding;
    SpliceElsewhere(now, at, x, 0, 1);
    SpliceElsewhere(now, at, x, 1, end);
    SpliceElsewhere(now, at, x, end + 4 + total, end + 4 + total + rest);
  }

  lemma LengthIsPut(data: seq<byte>, p: Packet, now: seq<byte>, id: u16, total: nat)
    requires IsMoved(data, p, now, total) && total / 4 < 0x1_0000
    requires now[CsrcEnd(p)..CsrcEnd(p) + 2] == Put2(id)
    ensures RoomMade(data, p, Splice(now, CsrcEnd(p) + 2, Put2(total / 4)), id, total)
  {
    hide IsMoved, Splice, Put2;
    var at, x := CsrcEnd(p) + 2, Put2(total / 4);
    MovedFits(data, p, now, total);
    MovedStays(data, p, now, total, at, x);
    SpliceHere(now, at, x);
    SpliceElsewhere(now, at, x, at - 2, at);
  }

  lemma MovedFits(data: seq<byte>, p: Packet, now: seq<byte>, total: nat)
    requires IsMoved(data, p, now, total)
    ensures |now| == |data| && CsrcEnd(p) + 4 + total + |p.payload| + p.padding <= |now|
    ensures now[..1] == [WithFlag(data[0], 16, true)]
  {
  }

  lemma ExtensionHeader(data: seq<byte>, p: Packet)
    requires Carries(data, p) && p.extension.Some?
    ensures var at := CsrcEnd(p);
            && data[..1] == [WithFlag(data[0], 16, true)]
            && data[at..at + 2] == Put2(p.extension.value.id)
            && data[at + 2..at + 4] == Put2(|p.extension.value.value| / 4)
  {
    FirstByteParts(p.padding != 0, true, |p.csrcs| / 4);
    assert WithFlag(data[0], 16, true) == data[0];
    var at := CsrcEnd(p);
    SliceOfSlice(data, at, PayloadStart(p), 0, 2);
    SliceOfSlice(data, at, PayloadStart(p), 2, 4);
  }

  /** A header extension already there gets another id. */
  lemma Renamed(data: seq<byte>, p: Packet, id: u16)
    requires Carries(data, p) && p.extension.Some? && PayloadEnd(p) + p.padding <= |data|
    ensures var at := CsrcEnd(p);
            var named := Splice(data, at, Put2(id));
            && IsNamed(data, p, named)
            && named[at..at + 2] == Put2(id)
            && named[at + 2..at + 4] == Put2(|p.extension.value.value| / 4)
            && (id == p.extension.value.id ==> named == data)
  {
    hide WithFlag, Put2, Carries, Splice;
    CarriesFits(data, p);
    ExtensionHeader(data, p);
    var at, start, rest, x := CsrcEnd(p), PayloadStart(p), |p.payload| + p.padding, Put2(id);
    SpliceElsewhere(data, at, x, 0, 1);
    SpliceElsewhere(data, at, x, 1, at);
    SpliceHere(data, at, x);
    SpliceElsewhere(data, at, x, at + 2, at + 4);
    SpliceElsewhere(data, at, x, start, start + rest);
    if id == p.extension.value.id {
      SpliceSame(data, at, x);
    }
  }

  /** A header extension of the same size needs no moving. */
  lemma NotMoved(data: seq<byte>, p: Packet, named: seq<byte>)
    requires p.extension.Some? && IsNamed(data, p, named)
    ensures IsMoved(data, p, named, |p.extension.value.value|)
  {
  }

  // ----- In place

  method MoveRest(store: array<byte>, payload: nat, shift: int, rest: nat, total: nat, ghost data: seq<byte>, ghost p: Packet)
    requires payload == PayloadStart(p) && payload + shift == CsrcEnd(p) + 4 + total && rest == |p.payload| + p.padding
    requires IsNamed(data, p, store[..]) && payload + rest <= store.Length && payload + shift + rest <= store.Length
    modifies store
    ensures IsMoved(data, p, store[..], total)
    ensures store[..][CsrcEnd(p)..CsrcEnd(p) + 2] == old(store[..])[CsrcEnd(p)..CsrcEnd(p) + 2]
  {
    hide IsMoved, IsNamed, Splice, CsrcEnd, PayloadStart;
    RestMoved(data, p, store[..], total);
    Move(store, payload + shift, payload, rest);
  }

  method PutId(store: array<byte>, at: nat, id: u16, ghost total: nat, ghost data: seq<byte>, ghost p: Packet)
    requires at == CsrcEnd(p) && IsMoved(data, p, store[..], total)
    modifies store
    ensures at + 2 <= store.Length && store[..][at..at + 2] == Put2(id) && IsMoved(data, p, store[..], total)
  {
    hide IsMoved, Splice, Put2;
    MovedFits(data, p, store[..], total);
    MovedStays(data, p, store[..], total, at, Put2(id));
    SpliceHere(store[..], at, Put2(id));
    Copy(store, at, Put2(id));
  }

  method PutLength(store: array<byte>, at: nat, ghost id: u16, total: nat, ghost data: seq<byte>, ghost p: Packet)
    requires at == CsrcEnd(p) && IsMoved(data, p, store[..], total) && total / 4 < 0x1_0000
    requires at + 2 <= store.Length && store[..][at..at + 2] == Put2(id)
    modifies store
    ensures RoomMade(data, p, store[..], id, total)
  {
    hide IsMoved, RoomMade, Splice, Put2;
    MovedFits(data, p, store[..], total);
    LengthIsPut(data, p, store[..], id, total);
    Copy(store, at + 2, Put2(total / 4));
  }

  method AddRoom(store: array<byte>, payload: nat, shift: int, rest: nat, id: u16, total: nat, ghost p: Packet)
    requires Carries(store[..], p) && p.extension.None? && total / 4 < 0x1_0000
    requires payload == PayloadStart(p) && rest == |p.payload| + p.padding && shift == 4 + total
    requires payload + shift + rest <= store.Length
    modifies store
    ensures RoomMade(old(store[..]), p, store[..], id, total)
  {
    hide Carries, IsMoved, RoomMade, WithFlag, Put2;
    ghost var data := store[..];
    CarriesFits(data, p);
    store[0] := WithFlag(store[0], 16, true);
    assert IsNamed(data, p, store[..]);
    MoveRest(store, payload, shift, rest, total, data, p);
    PutId(store, payload, id, total, data, p);
    PutLength(store, payload, id, total, data, p);
  }

  method ResizeRoom(store: array<byte>, at: nat, payload: nat, shift: int, rest: nat, id: u16, total: nat, ghost p: Packet)
    requires Carries(store[..], p) && p.extension.Some? && total / 4 < 0x1_0000
    requires at == CsrcEnd(p) && payload == PayloadStart(p) && rest == |p.payload| + p.padding
    requires shift == total - |p.extension.value.value|
    requires payload + rest <= store.Length && payload + shift + rest <= store.Length
    modifies store
    ensures RoomMade(old(store[..]), p, store[..], id, total)
  {
    hide Carries, IsMoved, IsNamed, Splice, Put2;
    ghost var data := store[..];
    CarriesFits(data, p);
    Renamed(data, p, id);
    Copy(store, at, Put2(id));
    ghost var named := store[..];
    if shift != 0 {
      MoveRest(store, payload, shift, rest, total, data, p);
      PutLength(store, at, id, total, data, p);
    } else {
      NotMoved(data, p, named);
    }
  }

  method ExpandPayload(store: array<byte>, payload: nat, size: nat, offset: nat, shift: nat, ghost p: Packet) returns (ghost q: Packet)
    requires IsStored(store[..], size, p) && payload == PayloadStart(p) && offset <= |p.payload|
    requires size + shift <= store.Length
    modifies store
    ensures IsExpanded(p, q, offset, shift) && IsStored(store[..], size + shift, q)
  {
    hide Carries, Splice, IsStored, IsExpanded;
    StoredCarries(store[..], size, p);
    TailExpanded(store[..], size, p, offset, shift);
    ghost var end := PayloadEnd(p) + shift;
    Move(store, payload + offset + shift, payload + offset, size - payload - offset);
    q := p.(payload := store[..][payload..end]);
  }

  method CollapsePayload(store: array<byte>, payload: nat, size: nat, offset: nat, shift: nat, ghost p: Packet)
    requires IsStored(store[..], size, p) && payload == PayloadStart(p) && offset + shift <= |p.payload|
    modifies store
    ensures IsStored(store[..], size - shift, Collapsed(p, offset, shift))
  {
    hide Carries, Splice, IsStored, Collapsed;
    StoredCarries(store[..], size, p);
    TailCollapsed(store[..], size, p, offset, shift);
    Move(store, payload + offset, payload + offset + shift, size - payload - offset - shift);
  }
}
