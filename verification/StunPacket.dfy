/** StunPacket on buffers: the parser's loop, serializing in place, and checking the integrity in place. */
module StunPackets {
  import opened Seq16
  import opened Bytes
  import opened Stun
  import opened StunSerialize
  import opened StunLemmas

  lemma TakeStep(data: seq<byte>, pos: nat, p: Progress)
    requires |data| <= 0xFFFC && pos + 4 <= |data|
    requires p.fingerprint.Some? ==> p.fingerprint.value.0 <= |data|
    ensures var n := Get2(data, pos + 2);
            TakeAttributes(data, pos, p) ==
            if pos + 4 + n > |data| then None
            else
              var q := TakeAttribute(p, Get2(data, pos), data[pos + 4..pos + 4 + n], pos);
              if q.None? || PadTo4(pos + 4 + n) > |data| then None
              else TakeAttributes(data, PadTo4(pos + 4 + n), q.value)
  {
  }

  lemma TakeEnd(data: seq<byte>, pos: nat, p: Progress)
    requires |data| <= 0xFFFC && pos <= |data| < pos + 4
    requires p.fingerprint.Some? ==> p.fingerprint.value.0 <= |data|
    ensures TakeAttributes(data, pos, p) == if pos == |data| then Some(p) else None
  {
  }

  /** StunPacket::Parse. It ends on every input, because the position grows: it does not wrap below 65536 bytes. */
  method ParsePacket(data: array<byte>, crypto: Crypto) returns (r: Option<Packet>)
    requires data.Length <= 0xFFFF
    ensures r == Parse(data[..], crypto)
  {
    hide TakeAttributes, TakeAttribute, Get2, PadTo4, EmptyPacket;
    var d := data[..];
    var len := data.Length;
    if !IsStun(d) {
      return None;
    }
    var msgLength := Get2(d, 2);
    if msgLength != len - HEADER_SIZE || msgLength % 4 != 0 {
      return None;
    }
    var p := Progress(EmptyPacket(d), None);
    var pos: nat := HEADER_SIZE;
    ghost var goal := TakeAttributes(d, pos, p);
    while pos + 4 <= len
      invariant p.fingerprint.Some? ==> p.fingerprint.value.0 <= len
      invariant if pos <= len then TakeAttributes(d, pos, p) == goal else goal == None
      decreases len - pos
    {
      TakeStep(d, pos, p);
      var attrType := Get2(d, pos);
      var attrLength := Get2(d, pos + 2);
      if pos + 4 + attrLength > len {
        return None;
      }
      var q := TakeAttribute(p, attrType, d[pos + 4..pos + 4 + attrLength], pos);
      if q.None? {
        return None;
      }
      p := q.value;
      pos := PadTo4(pos + 4 + attrLength);
    }
    if pos <= len {
      TakeEnd(d, pos, p);
    }
    if pos != len {
      return None;
    }
    if p.fingerprint.Some? {
      var (place, fingerprint) := p.fingerprint.value;
      if crypto.fingerprint(d[..place]) != fingerprint {
        return None;
      }
    }
    return Some(p.packet);
  }

  /** Byte::Set2Bytes. */
  method Set2(buffer: array<byte>, at: nat, value: u16)
    requires at + 2 <= buffer.Length
    modifies buffer
    ensures buffer[..] == Splice(old(buffer[..]), at, Put2(value))
  {
    Copy(buffer, at, Put2(value));
  }

  /** Patching the length field is putting two bytes in place; patching it back restores the message. */
  lemma LengthField(data: seq<byte>, length: u16)
    requires HEADER_SIZE + 8 <= |data| <= 0xFFFF && Get2(data, 2) == |data| - HEADER_SIZE
    ensures Splice(data, 2, Put2(length)) == WithLength(data, length)
    ensures Splice(WithLength(data, length), 2, Put2(|data| - HEADER_SIZE)) == data
  {
    WrapOfSmall(length);
    var p := Put2(|data| - HEADER_SIZE);
    SameTwoBytes(p, data, 2);
    var patched := WithLength(data, length);
    assert patched[..2] == data[..2] && patched[4..] == data[4..];
    assert data == data[..2] + p + data[4..];
  }

  lemma SameTwoBytes(p: seq<byte>, data: seq<byte>, at: nat)
    requires |p| == 2 && at + 2 <= |data| && Get2(p, 0) == Get2(data, at)
    ensures p[0] == data[at] && p[1] == data[at + 1]
  {
  }

  /** CheckAuthentication: the length field is patched for the HMAC and restored, so that the bytes are as before. */
  method DoCheckAuthentication(p: Packet, data: array<byte>, localUsername: seq<byte>, localPassword: seq<byte>,
                               crypto: Crypto) returns (result: Authentication)
    requires HEADER_SIZE <= data.Length <= 0xFFFF && Get2(data[..], 2) == data.Length - HEADER_SIZE
    requires HasRoom(p, data[..])
    modifies data
    ensures data[..] == old(data[..])
    ensures result == CheckAuthentication(p, old(data[..]), localUsername, localPassword, crypto)
  {
    hide Put2, Wrap, Get2, Splice, WithLength;
    if !p.klass.Request? && !p.klass.Indication? {
      return BadRequest;
    }
    if p.messageIntegrity.None? || p.username == [] {
      return BadRequest;
    }
    if !UsernameMatches(p.username, localUsername) {
      return Unauthorized;
    }
    var size := data.Length;
    ghost var before := data[..];
    if p.hasFingerprint {
      LengthField(before, size - HEADER_SIZE - 8);
      Set2(data, 2, size - HEADER_SIZE - 8);
    }
    ghost var text := data[..];
    result := CompareDigest(data, p.messageIntegrity.value, localPassword, crypto);
    MessageIntegrityStays(before, text, p.messageIntegrity.value, size);
    if p.hasFingerprint {
      Set2(data, 2, size - HEADER_SIZE);
    }
  }

  /** Compares the digest at `i` with that of the text before its attribute. */
  method CompareDigest(data: array<byte>, i: nat, localPassword: seq<byte>, crypto: Crypto)
    returns (result: Authentication)
    requires 4 <= i <= data.Length - 20
    ensures var text := data[..];
            result == if text[i..i + 20] == crypto.hmac(localPassword, text[..i - 4]) then OK else Unauthorized
  {
    ghost var text := data[..];
    var computed := crypto.hmac(localPassword, data[..i - 4]);
    assert data[..i - 4] == text[..i - 4] && data[i..i + 20] == text[i..i + 20];
    result := if data[i..i + 20] == computed then OK else Unauthorized;
  }

  lemma MessageIntegrityStays(before: seq<byte>, text: seq<byte>, i: nat, size: nat)
    requires HEADER_SIZE <= |before| == size && 4 <= i <= size - 20
    requires text == before || (size >= HEADER_SIZE + 8 && text == WithLength(before, size - HEADER_SIZE - 8))
    ensures text[i..i + 20] == before[i..i + 20]
  {
    assert before[4..][i - 4..i + 16] == before[i..i + 20];
    assert text[4..] == before[4..];
    assert text[4..][i - 4..i + 16] == text[i..i + 20];
  }

  lemma WrapOfSmall(x: nat)
    requires x < 0x1_0000
    ensures Wrap(x) == x
  {
  }

  // ----- Serialize

  /** The size of an optional attribute. */
  function OptSize(set_: bool, length: nat): nat
  {
    if set_ then 4 + length + PadLength(length) else 0
  }

  /** The size of the attributes of a request. */
  function RequestSize(m: Message): nat
  {
    OptSize(m.username != [], |m.username|) + OptSize(m.priority != 0, 4) + OptSize(m.iceControlling != 0, 8)
    + OptSize(m.iceControlled != 0, 8) + OptSize(m.hasUseCandidate, 0)
  }

  /** The size that Serialize computes first. */
  function ComputedSize(m: Message): nat
    requires m.xorMappedAddress.Some? ==> IsAddress(m.xorMappedAddress.value)
  {
    HEADER_SIZE + RequestSize(m)
    + OptSize(AddsXorMappedAddress(m), if m.xorMappedAddress.Some? && m.xorMappedAddress.value.V4? then 8 else 20)
    + OptSize(AddsErrorCode(m), 4) + OptSize(AddsIntegrity(m), 20) + OptSize(true, 4)
  }

  lemma ConcatOpt(set_: bool, attrType: u16, value: seq<byte>, pad: seq<byte>, tail: seq<Attribute>)
    requires |value| < 0x1_0000 && |pad| == PadLength(|value|)
    ensures Concat(Opt(set_, attrType, value, pad) + tail) == Concat(Opt(set_, attrType, value, pad)) + Concat(tail)
    ensures |Concat(Opt(set_, attrType, value, pad))| == OptSize(set_, |value|)
    ensures set_ ==> Concat(Opt(set_, attrType, value, pad)) == Put2(attrType) + Put2(|value|) + value + pad
  {
    hide Put2, PadLength;
    ConcatAppend(Opt(set_, attrType, value, pad), tail);
    if set_ {
      var list := Opt(set_, attrType, value, pad);
      assert list[1..] == [];
      assert Concat(list) == AttributeBytes(list[0]) + [];
    }
  }

  /** One attribute, behind those already written; the padding keeps what was in the buffer. */
  method PutAttribute(buffer: array<byte>, pos: nat, set_: bool, attrType: u16, value: seq<byte>) returns (next: nat)
    requires |value| < 0x1_0000 && pos + OptSize(set_, |value|) <= buffer.Length
    modifies buffer
    ensures next == pos + OptSize(set_, |value|)
    ensures buffer[..pos] == old(buffer[..pos]) && buffer[next..] == old(buffer[next..])
    ensures set_ ==> buffer[pos..next] == Put2(attrType) + Put2(|value|) + value + old(buffer[pos + 4 + |value|..next])
  {
    hide Put2, Splice;
    next := pos;
    if set_ {
      ghost var before := buffer[..];
      Set2(buffer, pos, attrType);
      Set2(buffer, pos + 2, |value|);
      SpliceTwice(before, pos, Put2(attrType), Put2(|value|));
      Copy(buffer, pos + 4, value);
      SpliceTwice(before, pos, Put2(attrType) + Put2(|value|), value);
      next := pos + 4 + |value| + PadLength(|value|);
      SpliceParts(before, pos, Put2(attrType) + Put2(|value|) + value, next);
    }
  }

  /** What the buffer holds after an attribute that may be written. */
  lemma Written(front: seq<byte>, list: seq<Attribute>, set_: bool, attrType: u16, value: seq<byte>, pad: seq<byte>,
                tail: seq<Attribute>)
    requires |value| < 0x1_0000 && |pad| == PadLength(|value|)
    ensures (list + Opt(set_, attrType, value, pad)) + tail == list + (Opt(set_, attrType, value, pad) + tail)
    ensures Concat(list + Opt(set_, attrType, value, pad)) ==
            if set_ then Concat(list) + (Put2(attrType) + Put2(|value|) + value + pad) else Concat(list)
  {
    hide Put2, PadLength, Opt;
    ConcatAppend(list, Opt(set_, attrType, value, pad));
    ConcatOpt(set_, attrType, value, pad, []);
    NotSet(list, attrType, value, pad);
  }

  lemma NotSet(list: seq<Attribute>, attrType: u16, value: seq<byte>, pad: seq<byte>)
    requires |value| < 0x1_0000 && |pad| == PadLength(|value|)
    ensures list + Opt(false, attrType, value, pad) == list
  {
  }

  /** The buffer holds the header and some attributes, and is untouched behind them. */
  ghost predicate Holds(bytes: seq<byte>, header: seq<byte>, list: seq<Attribute>, pos: nat, before: seq<byte>)
  {
    && |bytes| == |before|
    && pos == |header| + |Concat(list)| <= |bytes|
    && bytes[..pos] == header + Concat(list)
    && bytes[pos..] == before[pos..]
  }

  lemma HoldsMore(b0: seq<byte>, b1: seq<byte>, header: seq<byte>, list: seq<Attribute>, more: seq<Attribute>, pos: nat,
                  next: nat, x: seq<byte>, before: seq<byte>)
    requires Holds(b0, header, list, pos, before) && |b1| == |b0| && next == pos + |x| <= |b1|
    requires b1[..pos] == b0[..pos] && b1[pos..next] == x && b1[next..] == b0[next..]
    requires Concat(more) == Concat(list) + x
    ensures Holds(b1, header, more, next, before)
  {
    hide Concat;
    assert b1[..next] == b1[..pos] + b1[pos..next];
    assert header + (Concat(list) + x) == header + Concat(list) + x;
    assert b0[next..] == b0[pos..][next - pos..];
    assert before[next..] == before[pos..][next - pos..];
  }

  lemma PaddingIsOld(bytes: seq<byte>, header: seq<byte>, list: seq<Attribute>, pos: nat, before: seq<byte>, i: nat, j: nat)
    requires Holds(bytes, header, list, pos, before) && pos <= i <= j <= |bytes|
    ensures bytes[i..j] == before[i..j]
  {
    hide Concat;
    assert bytes[i..j] == bytes[pos..][i - pos..j - pos];
    assert before[i..j] == before[pos..][i - pos..j - pos];
  }

  /** One more attribute; its padding is what the buffer held there. */
  method PutNext(buffer: array<byte>, pos: nat, set_: bool, attrType: u16, value: seq<byte>, ghost header: seq<byte>,
                 ghost list: seq<Attribute>, ghost before: seq<byte>)
    returns (next: nat, ghost pad: seq<byte>)
    requires |value| < 0x1_0000 && pos + OptSize(set_, |value|) <= buffer.Length
    requires Holds(buffer[..], header, list, pos, before)
    modifies buffer
    ensures next == pos + OptSize(set_, |value|) && |pad| == PadLength(|value|)
    ensures |before| == buffer.Length && (set_ ==> pad == before[pos + 4 + |value|..next])
    ensures Holds(buffer[..], header, list + Opt(set_, attrType, value, pad), next, before)
  {
    hide Concat, Put2, Opt, PadLength, Holds;
    HoldsLength(buffer[..], header, list, pos, before);
    ghost var b0 := buffer[..];
    if set_ {
      PaddingIsOld(b0, header, list, pos, before, pos + 4 + |value|, pos + OptSize(set_, |value|));
      pad := before[pos + 4 + |value|..pos + OptSize(set_, |value|)];
      assert buffer[pos + 4 + |value|..pos + OptSize(set_, |value|)] == b0[pos + 4 + |value|..pos + OptSize(set_, |value|)];
    } else {
      pad := seq(PadLength(|value|), i => 0);
    }
    next := PutAttribute(buffer, pos, set_, attrType, value);
    Written(header, list, set_, attrType, value, pad, []);
    ghost var b1 := buffer[..];
    ghost var x := if set_ then Put2(attrType) + Put2(|value|) + value + pad else [];
    assert b1[..pos] == b0[..pos] && b1[next..] == b0[next..];
    assert b1[pos..next] == x;
    HoldsMore(b0, b1, header, list, list + Opt(set_, attrType, value, pad), pos, next, x, before);
  }

  lemma HoldsLength(bytes: seq<byte>, header: seq<byte>, list: seq<Attribute>, pos: nat, before: seq<byte>)
    requires Holds(bytes, header, list, pos, before)
    ensures |bytes| == |before| && pos <= |bytes|
  {
  }

  lemma Associative<T>(a: seq<T>, b: seq<T>, c: seq<T>)
    ensures a + b + c == a + (b + c)
  {
  }

  lemma PatchedHeader(bytes: seq<byte>, m: Message, length: nat, other: u16, list: seq<Attribute>, pos: nat,
                      before: seq<byte>)
    requires Holds(bytes, Header(m, length), list, pos, before)
    ensures Holds(Splice(bytes, 2, Put2(other)), Header(m, other), list, pos, before)
  {
    hide Concat, Header, Put2;
    WrapOfSmall(other);
    HeaderWithLength(m, length, other);
    var h := Header(m, length);
    var r := Splice(bytes, 2, Put2(other));
    assert bytes[..pos] == h + Concat(list);
    assert bytes[..2] == h[..2] && bytes[4..pos] == h[4..] + Concat(list);
    assert r[..pos] == bytes[..2] + Put2(other) + bytes[4..pos];
    assert r[pos..] == bytes[pos..];
  }

  /** An attribute that needs no padding. */
  method PutAligned(buffer: array<byte>, pos: nat, set_: bool, attrType: u16, value: seq<byte>, ghost header: seq<byte>,
                    ghost list: seq<Attribute>, ghost before: seq<byte>)
    returns (next: nat)
    requires |value| < 0x1_0000 && |value| % 4 == 0 && pos + OptSize(set_, |value|) <= buffer.Length
    requires Holds(buffer[..], header, list, pos, before)
    modifies buffer
    ensures next == pos + OptSize(set_, |value|)
    ensures Holds(buffer[..], header, list + Opt(set_, attrType, value, []), next, before)
  {
    hide Holds, Opt;
    ghost var none: seq<byte>;
    next, none := PutNext(buffer, pos, set_, attrType, value, header, list, before);
    assert none == [];
  }

  /** The attributes of a request, in the order in which they are written. */
  function RequestAttributes(m: Message, pad: seq<byte>): seq<Attribute>
    requires Serializable(m, pad)
  {
    [] + Opt(m.username != [], USERNAME, m.username, pad) + Opt(m.priority != 0, PRIORITY, Put4(m.priority), [])
    + Opt(m.iceControlling != 0, ICE_CONTROLLING, Put8(m.iceControlling), [])
    + Opt(m.iceControlled != 0, ICE_CONTROLLED, Put8(m.iceControlled), [])
    + Opt(m.hasUseCandidate, USE_CANDIDATE, [], [])
  }

  method PutRequestAttributes(m: Message, buffer: array<byte>, ghost header: seq<byte>, ghost before: seq<byte>)
    returns (pos: nat, ghost pad: seq<byte>)
    requires |m.username| <= 0xFF00 && (m.xorMappedAddress.Some? ==> IsAddress(m.xorMappedAddress.value))
    requires HEADER_SIZE + RequestSize(m) <= buffer.Length
    requires Holds(buffer[..], header, [], HEADER_SIZE, before)
    modifies buffer
    ensures Serializable(m, pad)
    ensures |before| == buffer.Length
    ensures m.username != [] ==> HEADER_SIZE + 4 + |m.username| + |pad| <= |before|
    ensures m.username != [] ==>
              pad == before[HEADER_SIZE + 4 + |m.username|..HEADER_SIZE + 4 + |m.username| + |pad|]
    ensures pos == HEADER_SIZE + RequestSize(m)
    ensures Holds(buffer[..], header, RequestAttributes(m, pad), pos, before)
  {
    hide Holds, Put4, Put8, Opt, PadLength;
    pos := HEADER_SIZE;
    ghost var list: seq<Attribute> := [];
    pos, pad := PutNext(buffer, pos, m.username != [], USERNAME, m.username, header, list, before);
    assert m.username != [] ==> HEADER_SIZE + 4 + |m.username| + |pad| == pos <= |before|;
    hide OptSize;
    list := list + Opt(m.username != [], USERNAME, m.username, pad);
    pos := PutAligned(buffer, pos, m.priority != 0, PRIORITY, Put4(m.priority), header, list, before);
    list := list + Opt(m.priority != 0, PRIORITY, Put4(m.priority), []);
    pos := PutAligned(buffer, pos, m.iceControlling != 0, ICE_CONTROLLING, Put8(m.iceControlling), header, list, before);
    list := list + Opt(m.iceControlling != 0, ICE_CONTROLLING, Put8(m.iceControlling), []);
    pos := PutAligned(buffer, pos, m.iceControlled != 0, ICE_CONTROLLED, Put8(m.iceControlled), header, list, before);
    list := list + Opt(m.iceControlled != 0, ICE_CONTROLLED, Put8(m.iceControlled), []);
    pos := PutAligned(buffer, pos, m.hasUseCandidate, USE_CANDIDATE, [], header, list, before);
  }

  /** The attributes before MESSAGE-INTEGRITY. */
  method PutAttributes(m: Message, buffer: array<byte>, ghost header: seq<byte>, ghost before: seq<byte>)
    returns (pos: nat, ghost pad: seq<byte>)
    requires |m.username| <= 0xFF00 && (m.xorMappedAddress.Some? ==> IsAddress(m.xorMappedAddress.value))
    requires ComputedSize(m) <= buffer.Length
    requires Holds(buffer[..], header, [], HEADER_SIZE, before)
    modifies buffer
    ensures Serializable(m, pad)
    ensures |before| == buffer.Length
    ensures m.username != [] ==> HEADER_SIZE + 4 + |m.username| + |pad| <= |before|
    ensures m.username != [] ==>
              pad == before[HEADER_SIZE + 4 + |m.username|..HEADER_SIZE + 4 + |m.username| + |pad|]
    ensures pos == ComputedSize(m) - OptSize(AddsIntegrity(m), 20) - OptSize(true, 4)
    ensures Holds(buffer[..], header, Attributes(m, pad, []), pos, before)
  {
    hide Holds, ErrorBytes, XorAddress, Opt, Attributes, PadLength, AddsIntegrity, AddsErrorCode,
      AddsXorMappedAddress, OptSize, RequestSize, RequestAttributes;
    pos, pad := PutRequestAttributes(m, buffer, header, before);
    AttributesAre(m, pad);
    ghost var list := RequestAttributes(m, pad);
    pos := PutAligned(buffer, pos, AddsXorMappedAddress(m), XOR_MAPPED_ADDRESS, XorValue(m), header, list, before);
    list := list + Opt(AddsXorMappedAddress(m), XOR_MAPPED_ADDRESS, XorValue(m), []);
    pos := PutAligned(buffer, pos, AddsErrorCode(m), ERROR_CODE, ErrorBytes(m.errorCode), header, list, before);
  }

  function XorValue(m: Message): (r: seq<byte>)
    requires m.xorMappedAddress.Some? ==> IsAddress(m.xorMappedAddress.value)
    ensures |r| == if m.xorMappedAddress.Some? && m.xorMappedAddress.value.V4? then 8 else 20
  {
    if m.xorMappedAddress.Some? then XorAddress(m.xorMappedAddress.value, m.transactionId) else seq(20, i => 0)
  }

  /** The attributes in the order in which they are written. */
  lemma AttributesAre(m: Message, pad: seq<byte>)
    requires Serializable(m, pad)
    ensures Attributes(m, pad, []) ==
            RequestAttributes(m, pad)
            + Opt(AddsXorMappedAddress(m), XOR_MAPPED_ADDRESS, XorValue(m), [])
            + Opt(AddsErrorCode(m), ERROR_CODE, ErrorBytes(m.errorCode), [])
  {
    hide Put4, Put8, ErrorBytes, XorAddress, Opt, PadLength, XorValue, WithXorMappedAddress, AddsErrorCode,
      AddsXorMappedAddress;
    var o1 := Opt(m.username != [], USERNAME, m.username, pad);
    var o2 := Opt(m.priority != 0, PRIORITY, Put4(m.priority), []);
    var o3 := Opt(m.iceControlling != 0, ICE_CONTROLLING, Put8(m.iceControlling), []);
    var o4 := Opt(m.iceControlled != 0, ICE_CONTROLLED, Put8(m.iceControlled), []);
    var o5 := Opt(m.hasUseCandidate, USE_CANDIDATE, [], []);
    var o6 := Opt(AddsXorMappedAddress(m), XOR_MAPPED_ADDRESS, XorValue(m), []);
    var o7 := Opt(AddsErrorCode(m), ERROR_CODE, ErrorBytes(m.errorCode), []);
    XorIsOpt(m, WithErrorCode(m, []));
    Flatten(o1, o2, o3, o4, o5, o6, o7);
  }

  lemma XorIsOpt(m: Message, tail: seq<Attribute>)
    requires m.xorMappedAddress.Some? ==> IsAddress(m.xorMappedAddress.value)
    ensures WithXorMappedAddress(m, tail) == Opt(AddsXorMappedAddress(m), XOR_MAPPED_ADDRESS, XorValue(m), []) + tail
  {
    hide XorAddress;
  }

  lemma Flatten<T>(o1: seq<T>, o2: seq<T>, o3: seq<T>, o4: seq<T>, o5: seq<T>, o6: seq<T>, o7: seq<T>)
    ensures [] + o1 + o2 + o3 + o4 + o5 + o6 + o7 == o1 + (o2 + (o3 + (o4 + (o5 + (o6 + (o7 + []))))))
  {
    Associative(o6, o7, []);
    Associative(o5, o6, o7);
    Associative(o4, o5, o6 + o7);
    Associative(o3, o4, o5 + (o6 + o7));
    Associative(o2, o3, o4 + (o5 + (o6 + o7)));
    Associative(o1, o2, o3 + (o4 + (o5 + (o6 + o7))));
    Associative(o1 + o2, o3, o4 + (o5 + (o6 + o7)));
    Associative(o1 + o2 + o3, o4, o5 + (o6 + o7));
    Associative(o1 + o2 + o3 + o4, o5, o6 + o7);
    Associative(o1 + o2 + o3 + o4 + o5, o6, o7);
  }

  lemma HeaderWritten(before: seq<byte>, header: seq<byte>)
    requires |header| == HEADER_SIZE <= |before|
    ensures Holds(Splice(before, 0, header), header, [], HEADER_SIZE, before)
  {
    var r := Splice(before, 0, header);
    assert r[..HEADER_SIZE] == header && header + [] == header;
  }

  lemma PositionIsBody(m: Message, pad: seq<byte>, bytes: seq<byte>, header: seq<byte>, pos: nat, before: seq<byte>)
    requires Serializable(m, pad) && |header| == HEADER_SIZE
    requires Holds(bytes, header, Attributes(m, pad, []), pos, before)
    requires pos == ComputedSize(m) - OptSize(AddsIntegrity(m), 20) - OptSize(true, 4)
    ensures pos == HEADER_SIZE + |Body(m, pad)| && Size(m, pad) == ComputedSize(m)
  {
    hide Attributes, Concat, ComputedSize, AddsIntegrity;
  }

  lemma TextWritten(m: Message, pad: seq<byte>, bytes: seq<byte>, pos: nat, before: seq<byte>)
    requires Serializable(m, pad)
    requires Holds(bytes, Header(m, Size(m, pad) - HEADER_SIZE - 8), Attributes(m, pad, []), pos, before)
    ensures pos <= |bytes| && bytes[..pos] == Text(m, pad)
  {
    hide Attributes, Concat, Header, Size;
    BodySize(m, pad);
    TextIs(m, pad);
  }

  lemma UnsignedWritten(m: Message, pad: seq<byte>, crypto: Crypto, bytes: seq<byte>, pos: nat, before: seq<byte>)
    requires Serializable(m, pad)
    requires Holds(bytes, Header(m, Size(m, pad) - HEADER_SIZE),
                   Attributes(m, pad, []) + Integrity(m, Text(m, pad), crypto), pos, before)
    ensures pos <= |bytes| && bytes[..pos] == Unsigned(m, pad, crypto)
  {
    hide Attributes, Concat, Header, Size, Integrity, Text;
    ConcatAppend(Attributes(m, pad, []), Integrity(m, Text(m, pad), crypto));
    Associative(Header(m, Size(m, pad) - HEADER_SIZE), Body(m, pad), Concat(Integrity(m, Text(m, pad), crypto)));
  }

  lemma SerializedWritten(m: Message, pad: seq<byte>, crypto: Crypto, bytes: seq<byte>, pos: nat, before: seq<byte>)
    requires Serializable(m, pad)
    requires Holds(bytes, Header(m, Size(m, pad) - HEADER_SIZE),
                   Attributes(m, pad, []) + Integrity(m, Text(m, pad), crypto)
                   + Opt(true, FINGERPRINT, Put4(crypto.fingerprint(Unsigned(m, pad, crypto))), []), pos, before)
    ensures pos == Size(m, pad) <= |bytes| == |before|
    ensures bytes[..pos] == Serialize(m, pad, crypto) && bytes[pos..] == before[pos..]
  {
    hide Attributes, Concat, Header, Size, Integrity, Text, Put4, Serialize, Unsigned;
    var f := Opt(true, FINGERPRINT, Put4(crypto.fingerprint(Unsigned(m, pad, crypto))), []);
    assert f == [FingerprintOf(m, pad, crypto)];
    Associative(Attributes(m, pad, []), Integrity(m, Text(m, pad), crypto), f);
    SerializedBytes(m, pad, crypto);
    SizeIsLength(m, pad, crypto);
  }

  /** StunPacket::Serialize; `pad` are the bytes of the buffer behind the username. */
  method SerializePacket(m: Message, buffer: array<byte>, crypto: Crypto) returns (size: nat, ghost pad: seq<byte>)
    requires |m.username| <= 0xFF00 && (m.xorMappedAddress.Some? ==> IsAddress(m.xorMappedAddress.value))
    requires ComputedSize(m) <= buffer.Length && ComputedSize(m) <= 0xFFFF
    modifies buffer
    ensures Serializable(m, pad)
    ensures m.username != [] ==>
              && HEADER_SIZE + 4 + |m.username| + |pad| <= buffer.Length
              && pad == old(buffer[HEADER_SIZE + 4 + |m.username|..HEADER_SIZE + 4 + |m.username| + |pad|])
    ensures size == Size(m, pad) == ComputedSize(m)
    ensures buffer[..size] == Serialize(m, pad, crypto) && buffer[size..] == old(buffer[size..])
  {
    hide Holds, Attributes, Header, Size, Serialize, Unsigned, AddsIntegrity, Concat, RequestSize, Splice, Put2, Opt;
    ghost var before := buffer[..];
    size := ComputedSize(m);
    ghost var header := Header(m, size - HEADER_SIZE);
    Copy(buffer, 0, Header(m, size - HEADER_SIZE));
    HeaderWritten(before, header);
    var pos;
    pos, pad := PutAttributes(m, buffer, header, before);
    ghost var list := Attributes(m, pad, []);
    PositionIsBody(m, pad, buffer[..], header, pos, before);
    if AddsIntegrity(m) {
      PatchedHeader(buffer[..], m, size - HEADER_SIZE, size - HEADER_SIZE - 8, list, pos, before);
      Set2(buffer, 2, size - HEADER_SIZE - 8);
      TextWritten(m, pad, buffer[..], pos, before);
      var digest := crypto.hmac(m.password, buffer[..pos]);
      pos := PutAligned(buffer, pos, true, MESSAGE_INTEGRITY, digest, Header(m, size - HEADER_SIZE - 8), list, before);
      list := list + Opt(true, MESSAGE_INTEGRITY, digest, []);
      PatchedHeader(buffer[..], m, size - HEADER_SIZE - 8, size - HEADER_SIZE, list, pos, before);
      Set2(buffer, 2, size - HEADER_SIZE);
    }
    NotSet(Attributes(m, pad, []), MESSAGE_INTEGRITY, crypto.hmac(m.password, Text(m, pad)), []);
    assert list == Attributes(m, pad, []) + Integrity(m, Text(m, pad), crypto);
    UnsignedWritten(m, pad, crypto, buffer[..], pos, before);
    var fingerprint := crypto.fingerprint(buffer[..pos]);
    pos := PutAligned(buffer, pos, true, FINGERPRINT, Put4(fingerprint), header, list, before);
    SerializedWritten(m, pad, crypto, buffer[..], pos, before);
    assert pos == size;
  }
}
