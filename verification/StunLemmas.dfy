/** Round trip and authentication of STUN messages. */
module StunLemmas {
  import opened Seq16
  import opened Bytes
  import opened Arithmetic
  import opened Stun
  import opened StunSerialize

  /** MESSAGE-INTEGRITY, if any, and FINGERPRINT. */
  function Signature(m: Message, pad: seq<byte>, crypto: Crypto): seq<Attribute>
    requires Serializable(m, pad)
  {
    Integrity(m, Text(m, pad), crypto) + [FingerprintOf(m, pad, crypto)]
  }

  /** The packet that Parse reads from a serialized message. */
  function Received(m: Message, pad: seq<byte>): Packet
    requires Serializable(m, pad)
  {
    Packet(m.klass, m.method_, m.transactionId, m.username, m.priority, m.iceControlling, m.iceControlled,
           m.hasUseCandidate,
           if AddsIntegrity(m) then Some(HEADER_SIZE + |Body(m, pad)| + 4) else None,
           true,
           if AddsErrorCode(m) then ErrorValue(m.errorCode) else 0)
  }

  lemma HeaderParts(m: Message, length: u16, rest: seq<byte>)
    requires m.method_ < 128
    ensures var data := Header(m, length) + rest;
            && IsStun(data)
            && Get2(data, 0) == TypeField(m.klass, m.method_)
            && Get2(data, 2) == length
            && data[8..20] == m.transactionId
  {
    hide TypeField;
    SmallType(m.klass, m.method_);
    var t, l := Put2(TypeField(m.klass, m.method_)), Put2(Wrap(length));
    var data := Header(m, length) + rest;
    assert Header(m, length) == t + l + MAGIC_COOKIE + m.transactionId;
    assert data[0] == t[0] && data[1] == t[1] && data[2] == l[0] && data[3] == l[1];
    assert Get2(data, 0) == Get2(t, 0) && Get2(data, 2) == Get2(l, 0);
    assert data[4..8] == MAGIC_COOKIE;
  }

  lemma SizeIsLength(m: Message, pad: seq<byte>, crypto: Crypto)
    requires Serializable(m, pad)
    ensures |Serialize(m, pad, crypto)| == Size(m, pad)
    ensures |Unsigned(m, pad, crypto)| == Size(m, pad) - 8
    ensures Size(m, pad) % 4 == 0
    ensures |Concat(Integrity(m, Text(m, pad), crypto))| == if AddsIntegrity(m) then 24 else 0
  {
    hide Attributes, Text, Header, Concat, Integrity, AttributeBytes;
    ConcatIsAligned(Attributes(m, pad, []));
    IntegrityLength(m, Text(m, pad), crypto);
  }

  lemma IntegrityLength(m: Message, text: seq<byte>, crypto: Crypto)
    ensures |Concat(Integrity(m, text, crypto))| == if AddsIntegrity(m) then 24 else 0
  {
    hide AttributeBytes;
    var list := Integrity(m, text, crypto);
    if AddsIntegrity(m) {
      assert list[1..] == [];
    }
  }

  lemma ConcatSignature(m: Message, pad: seq<byte>, crypto: Crypto)
    requires Serializable(m, pad)
    ensures Concat(Signature(m, pad, crypto)) ==
            Concat(Integrity(m, Text(m, pad), crypto)) + AttributeBytes(FingerprintOf(m, pad, crypto))
  {
    hide Text, Integrity, FingerprintOf, AttributeBytes;
    var f := FingerprintOf(m, pad, crypto);
    ConcatAppend(Integrity(m, Text(m, pad), crypto), [f]);
    assert [f][1..] == [];
    assert Concat([f]) == AttributeBytes(f) + [];
  }

  /** The bytes are the header with all attributes. */
  lemma SerializedBytes(m: Message, pad: seq<byte>, crypto: Crypto)
    requires Serializable(m, pad)
    ensures Serialize(m, pad, crypto) ==
            Header(m, Size(m, pad) - HEADER_SIZE) + Concat(Attributes(m, pad, []) + Signature(m, pad, crypto))
  {
    hide Attributes, Text, Header, AttributeBytes, Concat, Integrity, FingerprintOf, Signature, Size;
    ConcatAppend(Attributes(m, pad, []), Signature(m, pad, crypto));
    ConcatSignature(m, pad, crypto);
  }

  /** What the loop makes of these two, placed from `pos` on, with fingerprint `fp`. */
  function Signed(m: Message, fp: u32, pos: nat, p: Packet): Progress
  {
    Progress(p.(messageIntegrity := if AddsIntegrity(m) then Some(pos + 4) else None, hasFingerprint := true),
             Some((pos + if AddsIntegrity(m) then 24 else 0, fp)))
  }

  lemma FoldSignature(m: Message, pad: seq<byte>, crypto: Crypto, pos: nat, p: Packet)
    requires Serializable(m, pad) && p.messageIntegrity.None? && !p.hasFingerprint
    ensures Fold(Signature(m, pad, crypto), pos, Progress(p, None)) ==
            Some(Signed(m, crypto.fingerprint(Unsigned(m, pad, crypto)), pos, p))
  {
    hide Attributes, Text, Header, Unsigned, Get4, Put4, Fold, Opt;
    var f := FingerprintOf(m, pad, crypto);
    FoldOpt(AddsIntegrity(m), MESSAGE_INTEGRITY, crypto.hmac(m.password, Text(m, pad)), [], [f], pos, Progress(p, None));
    var q := p.(messageIntegrity := if AddsIntegrity(m) then Some(pos + 4) else None);
    var next := if AddsIntegrity(m) then pos + 24 else pos;
    FoldOne(f, next, Progress(q, None));
  }

  lemma FoldOne(a: Attribute, pos: nat, p: Progress)
    ensures Fold([a], pos, p) == TakeAttribute(p, a.attrType, a.value, pos)
  {
    hide TakeAttribute;
    assert [a][1..] == [];
  }

  /** The position of the fingerprint. */
  function FingerprintPlace(m: Message, pad: seq<byte>): nat
    requires Serializable(m, pad)
  {
    HEADER_SIZE + |Body(m, pad)| + if AddsIntegrity(m) then 24 else 0
  }

  /** The loop over the attributes of a serialized message. */
  lemma AttributesOfSerialize(m: Message, pad: seq<byte>, crypto: Crypto, header: seq<byte>, empty: Packet)
    requires Serializable(m, pad) && Fresh(empty) && |header| == HEADER_SIZE
    requires |header| + |Concat(Attributes(m, pad, []) + Signature(m, pad, crypto))| <= 0xFFFC
    ensures TakeAttributes(header + Concat(Attributes(m, pad, []) + Signature(m, pad, crypto)), HEADER_SIZE,
                           Progress(empty, None)) ==
            Some(Progress(Taken(m, empty).(
                            messageIntegrity :=
                              if AddsIntegrity(m) then Some(HEADER_SIZE + |Body(m, pad)| + 4) else None,
                            hasFingerprint := true),
                          Some((FingerprintPlace(m, pad), crypto.fingerprint(Unsigned(m, pad, crypto))))))
  {
    hide Attributes, Unsigned, Signature, Fold, TakeAttributes, ErrorValue, Concat;
    var list, signature := Attributes(m, pad, []), Signature(m, pad, crypto);
    LoopIsFold(header, list + signature, Progress(empty, None));
    FoldAppend(list, signature, HEADER_SIZE, Progress(empty, None));
    FoldAttributes(m, pad, HEADER_SIZE, empty);
    FoldSignature(m, pad, crypto, HEADER_SIZE + |Concat(list)|, Taken(m, empty));
  }

  lemma ReceivedIs(m: Message, pad: seq<byte>, empty: Packet)
    requires Serializable(m, pad) && Fresh(empty)
    requires empty.klass == m.klass && empty.method_ == m.method_ && empty.transactionId == m.transactionId
    ensures Received(m, pad) ==
            Taken(m, empty).(
              messageIntegrity := if AddsIntegrity(m) then Some(HEADER_SIZE + |Body(m, pad)| + 4) else None,
              hasFingerprint := true)
  {
    hide Body, ErrorValue;
  }

  /** What Parse needs to accept a message. */
  lemma ParseIs(data: seq<byte>, crypto: Crypto, p: Packet, place: nat)
    requires HEADER_SIZE <= |data| <= 0xFFFF && IsStun(data)
    requires Get2(data, 2) == |data| - HEADER_SIZE && |data| % 4 == 0
    requires place <= |data|
    requires TakeAttributes(data, HEADER_SIZE, Progress(EmptyPacket(data), None)) ==
             Some(Progress(p, Some((place, crypto.fingerprint(data[..place])))))
    ensures Parse(data, crypto) == Some(p)
  {
    hide TakeAttributes, IsStun, EmptyPacket, Get2;
  }

  lemma EmptyPacketIs(data: seq<byte>, m: Message)
    requires |data| >= HEADER_SIZE && Get2(data, 0) == TypeField(m.klass, m.method_) && data[8..20] == m.transactionId
    requires MethodOfType(Get2(data, 0)) == m.method_ && ClassOfType(Get2(data, 0)) == m.klass
    ensures var p := EmptyPacket(data);
            Fresh(p) && p.klass == m.klass && p.method_ == m.method_ && p.transactionId == m.transactionId
  {
    hide Get2, TypeField, MethodOfType, ClassOfType;
  }

  /** The header of a serialized message, as the parser reads it. */
  lemma HeaderOfSerialize(m: Message, pad: seq<byte>, crypto: Crypto)
    requires Serializable(m, pad) && m.method_ < 128 && Size(m, pad) <= 0xFFFF
    ensures var data := Serialize(m, pad, crypto);
            && |data| == Size(m, pad) && |data| % 4 == 0
            && IsStun(data)
            && Get2(data, 2) == |data| - HEADER_SIZE
            && Fresh(EmptyPacket(data))
            && EmptyPacket(data).klass == m.klass
            && EmptyPacket(data).method_ == m.method_
            && EmptyPacket(data).transactionId == m.transactionId
  {
    SizeIsLength(m, pad, crypto);
    SerializedBytes(m, pad, crypto);
    hide Attributes, Header, Serialize, Signature, TypeField, MethodOfType, ClassOfType, Size, IsStun, Concat, Get2,
      EmptyPacket, Fresh;
    HeaderParts(m, Size(m, pad) - HEADER_SIZE, Concat(Attributes(m, pad, []) + Signature(m, pad, crypto)));
    TypeRoundTrip(m.klass, m.method_);
    EmptyPacketIs(Serialize(m, pad, crypto), m);
  }

  /** Round trip (sections 6 and 15 of RFC 5389): for any method below 128, in particular for BINDING, the serialized
      message parses, with class, method, transaction id, and every attribute that the parser reads. */
  lemma ParseOfSerialize(m: Message, pad: seq<byte>, crypto: Crypto)
    requires Serializable(m, pad) && m.method_ < 128 && Size(m, pad) <= 0xFFFF
    ensures |Serialize(m, pad, crypto)| == Size(m, pad)
    ensures Parse(Serialize(m, pad, crypto), crypto) == Some(Received(m, pad))
  {
    hide Attributes, Header, Unsigned, Serialize, Signature, Size, TakeAttributes, IsStun, Received, Taken, Concat, Body,
      EmptyPacket, Parse, Get2, Fresh, FingerprintPlace;
    HeaderOfSerialize(m, pad, crypto);
    SerializedBytes(m, pad, crypto);
    UnsignedPrefix(m, pad, crypto);
    var data := Serialize(m, pad, crypto);
    var header := Header(m, Size(m, pad) - HEADER_SIZE);
    AttributesOfSerialize(m, pad, crypto, header, EmptyPacket(data));
    ReceivedIs(m, pad, EmptyPacket(data));
    ParseIs(data, crypto, Received(m, pad), FingerprintPlace(m, pad));
  }

  lemma UnsignedPrefix(m: Message, pad: seq<byte>, crypto: Crypto)
    requires Serializable(m, pad)
    ensures |Serialize(m, pad, crypto)| == Size(m, pad)
    ensures FingerprintPlace(m, pad) == Size(m, pad) - 8
    ensures Serialize(m, pad, crypto)[..Size(m, pad) - 8] == Unsigned(m, pad, crypto)
  {
    SizeIsLength(m, pad, crypto);
    hide Body, Unsigned, AttributeBytes;
  }

  lemma BodySize(m: Message, pad: seq<byte>)
    requires Serializable(m, pad)
    ensures Body(m, pad) == Concat(Attributes(m, pad, []))
    ensures Size(m, pad) - 8 == HEADER_SIZE + |Body(m, pad)| + if AddsIntegrity(m) then 24 else 0
  {
  }

  // ----- Error codes

  /** An error code survives the round trip exactly when it is below 25600; in general its remainder does. */
  lemma ErrorCodeRoundTripIff(errorCode: u16)
    ensures ErrorValue(errorCode) == errorCode <==> errorCode < 25600
    ensures ErrorValue(errorCode) == errorCode % 25600
  {
    hide ErrorBytes;
    var q := errorCode / 100;
    QuotientBounds(errorCode, 100);
    var r := errorCode - q * 100;
    var k := q / 256;
    QuotientBounds(q, 256);
    var c := q - 256 * k;
    QuotientIs(q, 256, k, c);
    QuotientIs(errorCode, 25600, k, c * 100 + r);
    ErrorNumber(errorCode, c, r, k);
    ErrorBytesAre(errorCode, c, r);
  }

  lemma ErrorBytesAre(errorCode: u16, c: nat, r: nat)
    requires c < 256 && r < 256 && errorCode / 100 % 256 == c && (errorCode % 256 - c * 100) % 256 == r
    ensures ErrorBytes(errorCode) == [0, 0, c, r]
  {
  }

  lemma ErrorNumber(errorCode: u16, c: nat, r: nat, k: nat)
    requires r < 100 && c < 256 && errorCode == (c + 256 * k) * 100 + r
    ensures (errorCode % 256 - c * 100) % 256 == r
  {
    var j := errorCode / 256;
    assert errorCode % 256 == errorCode - 256 * j;
    ModOfShift(r, 100 * k - j);
  }

  lemma ModOfShift(r: nat, k: int)
    requires r < 256
    ensures (r + 256 * k) % 256 == r
  {
  }

  // ----- Which attributes a message gets

  /** What a receiver reads from a serialized message. Only error responses carry their error code, and all other messages
      with a password a MESSAGE-INTEGRITY, right before the FINGERPRINT. */
  lemma SerializedSays(m: Message, pad: seq<byte>, crypto: Crypto)
    requires Serializable(m, pad) && m.method_ < 128 && Size(m, pad) <= 0xFFFF
    ensures |Serialize(m, pad, crypto)| == Size(m, pad)
    ensures var data := Serialize(m, pad, crypto);
            Parse(data, crypto) == Some(ReceivedAs(m, |data|))
  {
    hide Parse, Serialize, Received, ReceivedAs, Size;
    ParseOfSerialize(m, pad, crypto);
    ReceivedIsAs(m, pad);
  }

  function ReceivedAs(m: Message, size: nat): Packet
    requires size >= 28
  {
    Packet(m.klass, m.method_, m.transactionId, m.username, m.priority, m.iceControlling, m.iceControlled,
           m.hasUseCandidate,
           if m.klass.ErrorResponse? || m.password == [] then None else Some(size - 28),
           true,
           if m.klass.ErrorResponse? then m.errorCode % 25600 else 0)
  }

  lemma ReceivedIsAs(m: Message, pad: seq<byte>)
    requires Serializable(m, pad)
    ensures Received(m, pad) == ReceivedAs(m, Size(m, pad))
  {
    hide Body, ErrorValue;
    if m.klass.ErrorResponse? {
      ErrorCodeRoundTripIff(m.errorCode);
    }
  }

  lemma OptHas(set_: bool, attrType: u16, value: seq<byte>, pad: seq<byte>, a: Attribute)
    requires |value| < 0x1_0000 && |pad| == PadLength(|value|)
    ensures a in Opt(set_, attrType, value, pad) ==> a.attrType == attrType
  {
  }

  /** A serialized message holds the XOR-MAPPED-ADDRESS that it was given if and only if it is a success response of BINDING,
      and never another one. */
  lemma XorMappedIff(m: Message, pad: seq<byte>, crypto: Crypto) returns (list: seq<Attribute>)
    requires Serializable(m, pad)
    ensures |Serialize(m, pad, crypto)| >= HEADER_SIZE && Serialize(m, pad, crypto)[HEADER_SIZE..] == Concat(list)
    ensures (exists a :: a in list && a.attrType == 0x0020) <==>
            m.xorMappedAddress.Some? && m.method_ == 1 && m.klass.SuccessResponse?
    ensures forall a :: a in list && a.attrType == 0x0020 ==>
              m.xorMappedAddress.Some? && a.value == XorAddress(m.xorMappedAddress.value, m.transactionId)
  {
    hide Opt, XorAddress, Put4, Put8, ErrorBytes, Unsigned, Text, Header, Concat, Serialize, Size;
    SerializedBytes(m, pad, crypto);
    list := Attributes(m, pad, []) + Signature(m, pad, crypto);
    if AddsXorMappedAddress(m) {
      var a: Attribute := Attribute(XOR_MAPPED_ADDRESS, XorAddress(m.xorMappedAddress.value, m.transactionId), []);
      assert a in WithXorMappedAddress(m, WithErrorCode(m, []));
      assert a in Attributes(m, pad, []);
    }
    forall a | a in list && a.attrType == 0x0020
      ensures AddsXorMappedAddress(m) && a.value == XorAddress(m.xorMappedAddress.value, m.transactionId)
    {
      OptHas(m.username != [], USERNAME, m.username, pad, a);
      OptHas(m.priority != 0, PRIORITY, Put4(m.priority), [], a);
      OptHas(m.iceControlling != 0, ICE_CONTROLLING, Put8(m.iceControlling), [], a);
      OptHas(m.iceControlled != 0, ICE_CONTROLLED, Put8(m.iceControlled), [], a);
      OptHas(m.hasUseCandidate, USE_CANDIDATE, [], [], a);
      OptHas(AddsErrorCode(m), ERROR_CODE, ErrorBytes(m.errorCode), [], a);
      OptHas(AddsIntegrity(m), MESSAGE_INTEGRITY, crypto.hmac(m.password, Text(m, pad)), [], a);
    }
  }

  // ----- Authentication

  datatype Authentication = OK | Unauthorized | BadRequest

  const SEPARATOR: byte := 58

  /** The username begins with the local one and a colon. */
  predicate UsernameMatches(username: seq<byte>, localUsername: seq<byte>)
  {
    |username| > |localUsername| && username[|localUsername|] == SEPARATOR && username[..|localUsername|] == localUsername
  }

  function WithLength(data: seq<byte>, length: nat): (r: seq<byte>)
    requires |data| >= HEADER_SIZE
    ensures |r| == |data|
  {
    data[..2] + Put2(Wrap(length)) + data[4..]
  }

  /** The FINGERPRINT and MESSAGE-INTEGRITY that the packet says it has lie in the bytes. */
  predicate HasRoom(p: Packet, data: seq<byte>)
  {
    && (p.hasFingerprint ==> HEADER_SIZE + 8 <= |data|)
    && (p.messageIntegrity.Some? ==> 4 <= p.messageIntegrity.value <= |data| - 20)
  }

  lemma {:induction false} TakenHaveRoom(data: seq<byte>, pos: nat, p: Progress)
    requires |data| <= 0xFFFC && HEADER_SIZE <= pos <= |data|
    requires p.fingerprint.Some? ==> p.fingerprint.value.0 <= |data|
    requires HasRoom(p.packet, data)
    ensures TakeAttributes(data, pos, p).Some? ==> HasRoom(TakeAttributes(data, pos, p).value.packet, data)
    decreases |data| - pos
  {
    hide Get2, Get4, Get8, PadTo4;
    if pos + 4 <= |data| {
      var n := Get2(data, pos + 2);
      if pos + 4 + n <= |data| {
        var q := TakeAttribute(p, Get2(data, pos), data[pos + 4..pos + 4 + n], pos);
        var next := PadTo4(pos + 4 + n);
        if q.Some? && next <= |data| {
          TakenHaveRoom(data, next, q.value);
        }
      }
    }
  }

  lemma AlignedFits(n: nat)
    requires HEADER_SIZE <= n <= 0xFFFF && (n - HEADER_SIZE) % 4 == 0
    ensures n <= 0xFFFC
  {
  }

  lemma EmptyHasRoom(data: seq<byte>)
    requires |data| >= HEADER_SIZE
    ensures HasRoom(EmptyPacket(data), data)
  {
    hide Get2, MethodOfType, ClassOfType;
  }

  /** So it is for every packet that was parsed from them. */
  lemma ParsedHasRoom(data: seq<byte>, crypto: Crypto)
    requires |data| <= 0xFFFF && Parse(data, crypto).Some?
    ensures HEADER_SIZE <= |data| && Get2(data, 2) == |data| - HEADER_SIZE
    ensures HasRoom(Parse(data, crypto).value, data)
  {
    hide TakeAttributes, Get2, HasRoom, EmptyPacket;
    AlignedFits(|data|);
    EmptyHasRoom(data);
    TakenHaveRoom(data, HEADER_SIZE, Progress(EmptyPacket(data), None));
  }

  /** CheckAuthentication on the bytes of the packet. */
  function CheckAuthentication(p: Packet, data: seq<byte>, localUsername: seq<byte>, localPassword: seq<byte>,
                               crypto: Crypto): Authentication
    requires |data| >= HEADER_SIZE && HasRoom(p, data)
  {
    if !p.klass.Request? && !p.klass.Indication? then BadRequest
    else if p.messageIntegrity.None? || p.username == [] then BadRequest
    else if !UsernameMatches(p.username, localUsername) then Unauthorized
    else
      var i := p.messageIntegrity.value;
      var text := if p.hasFingerprint then WithLength(data, |data| - HEADER_SIZE - 8) else data;
      if data[i..i + 20] == crypto.hmac(localPassword, text[..i - 4]) then OK else Unauthorized
  }

  lemma SlicesOf(h: seq<byte>, b: seq<byte>, four: seq<byte>, d: seq<byte>, rest: seq<byte>)
    requires |four| == 4
    ensures var data := h + b + (four + d) + rest;
            var i := |h| + |b| + 4;
            i + |d| <= |data| && data[i..i + |d|] == d
  {
  }

  lemma WithLengthOf(h: seq<byte>, b: seq<byte>, rest: seq<byte>, length: nat)
    requires |h| == HEADER_SIZE
    ensures WithLength(h + b + rest, length)[..HEADER_SIZE + |b|] == h[..2] + Put2(Wrap(length)) + h[4..] + b
  {
    var data := h + b + rest;
    assert data[..2] == h[..2];
    assert data[4..] == h[4..] + b + rest;
  }

  lemma HeaderWithLength(m: Message, length: nat, other: nat)
    ensures var h := Header(m, length); h[..2] + Put2(Wrap(other)) + h[4..] == Header(m, other)
  {
    hide TypeField, Wrap, Put2;
    var h := Header(m, length);
    assert h[..2] == Put2(TypeField(m.klass, m.method_));
    assert h[4..] == MAGIC_COOKIE + m.transactionId;
  }

  /** The message, cut at its MESSAGE-INTEGRITY. */
  lemma SerializedParts(m: Message, pad: seq<byte>, crypto: Crypto)
    requires Serializable(m, pad) && AddsIntegrity(m)
    ensures var digest := crypto.hmac(m.password, Text(m, pad));
            var four := Put2(MESSAGE_INTEGRITY) + Put2(20);
            var front := Header(m, Size(m, pad) - HEADER_SIZE) + Body(m, pad);
            var last := AttributeBytes(FingerprintOf(m, pad, crypto));
            && Serialize(m, pad, crypto) == front + (four + digest) + last
            && Serialize(m, pad, crypto) == front + ((four + digest) + last)
  {
    hide Body, Concat, AttributeBytes, Header, Integrity, Put2, FingerprintOf;
    IntegrityAttribute(m, Text(m, pad), crypto);
    var digest := crypto.hmac(m.password, Text(m, pad));
    var four := Put2(MESSAGE_INTEGRITY) + Put2(20);
    var front := Header(m, Size(m, pad) - HEADER_SIZE) + Body(m, pad);
    Associative(front, four + digest, AttributeBytes(FingerprintOf(m, pad, crypto)));
  }

  lemma Associative(a: seq<byte>, b: seq<byte>, c: seq<byte>)
    ensures a + b + c == a + (b + c)
  {
  }

  lemma IntegrityBytes(m: Message, pad: seq<byte>, crypto: Crypto)
    requires Serializable(m, pad) && AddsIntegrity(m)
    ensures var data := Serialize(m, pad, crypto);
            var i := HEADER_SIZE + |Body(m, pad)| + 4;
            && |data| == Size(m, pad) == i + 28
            && data[i..i + 20] == crypto.hmac(m.password, Text(m, pad))
            && WithLength(data, |data| - HEADER_SIZE - 8)[..i - 4] == Text(m, pad)
  {
    SizeIsLength(m, pad, crypto);
    SerializedParts(m, pad, crypto);
    BodySize(m, pad);
    TextIs(m, pad);
    hide Serialize, Body, Text, Size, Concat, AttributeBytes, Header, Integrity, WithLength, Put2, FingerprintOf;
    var digest := crypto.hmac(m.password, Text(m, pad));
    var header := Header(m, Size(m, pad) - HEADER_SIZE);
    var four := Put2(MESSAGE_INTEGRITY) + Put2(20);
    var last := AttributeBytes(FingerprintOf(m, pad, crypto));
    SlicesOf(header, Body(m, pad), four, digest, last);
    WithLengthOf(header, Body(m, pad), four + digest + last, Size(m, pad) - HEADER_SIZE - 8);
    HeaderWithLength(m, Size(m, pad) - HEADER_SIZE, Size(m, pad) - HEADER_SIZE - 8);
  }

  lemma TextIs(m: Message, pad: seq<byte>)
    requires Serializable(m, pad)
    ensures Text(m, pad) == Header(m, Size(m, pad) - HEADER_SIZE - 8) + Body(m, pad)
  {
    hide Header, Body, Size;
  }

  lemma IntegrityAttribute(m: Message, text: seq<byte>, crypto: Crypto)
    requires AddsIntegrity(m)
    ensures Concat(Integrity(m, text, crypto)) == Put2(MESSAGE_INTEGRITY) + Put2(20) + crypto.hmac(m.password, text)
  {
    hide Put2;
    var list := Integrity(m, text, crypto);
    assert list[1..] == [];
    assert Concat(list) == AttributeBytes(list[0]) + [];
  }

  /** A serialized request or indication with a matching username and a password is authentic under that password. */
  lemma SerializedIsAuthentic(m: Message, pad: seq<byte>, localUsername: seq<byte>, crypto: Crypto)
    requires Serializable(m, pad) && m.method_ < 128 && Size(m, pad) <= 0xFFFF
    requires m.klass.Request? || m.klass.Indication?
    requires UsernameMatches(m.username, localUsername) && m.password != []
    ensures var data := Serialize(m, pad, crypto);
            && |data| == Size(m, pad)
            && Parse(data, crypto) == Some(Received(m, pad))
            && CheckAuthentication(Received(m, pad), data, localUsername, m.password, crypto) == OK
  {
    hide Serialize, Text, Body, WithLength, Parse, Size;
    ParseOfSerialize(m, pad, crypto);
    IntegrityBytes(m, pad, crypto);
  }

  /** It is authentic under another password exactly when that password has the same digest of the text. */
  lemma AuthenticIff(m: Message, pad: seq<byte>, localUsername: seq<byte>, localPassword: seq<byte>, crypto: Crypto)
    requires Serializable(m, pad) && Size(m, pad) <= 0xFFFF
    requires m.klass.Request? || m.klass.Indication?
    requires UsernameMatches(m.username, localUsername) && m.password != []
    ensures var data := Serialize(m, pad, crypto);
            && |data| == Size(m, pad)
            && (CheckAuthentication(Received(m, pad), data, localUsername, localPassword, crypto) == OK <==>
                crypto.hmac(localPassword, Text(m, pad)) == crypto.hmac(m.password, Text(m, pad)))
  {
    hide Serialize, Text, Body, WithLength, Size;
    IntegrityBytes(m, pad, crypto);
  }

  /** The username is the local one, a colon and anything. */
  lemma UsernameParts(username: seq<byte>, localUsername: seq<byte>)
    ensures UsernameMatches(username, localUsername) <==>
            exists rest: seq<byte> :: username == localUsername + [58] + rest
  {
    var n := |localUsername|;
    if UsernameMatches(username, localUsername) {
      assert username == localUsername + [58] + username[n + 1..];
    }
    if rest: seq<byte> :| username == localUsername + [58] + rest {
      assert username[n] == 58 && username[..n] == localUsername;
    }
  }

  /** The bytes that the HMAC is computed from: those of the message, with the length field less the 8 bytes of the
      FINGERPRINT if there is one. */
  predicate IsSigned(p: Packet, data: seq<byte>, text: seq<byte>)
    requires |data| >= 4
  {
    && |text| == |data| && text[..2] == data[..2] && text[4..] == data[4..]
    && Get2(text, 2) == Get2(data, 2) - if p.hasFingerprint then 8 else 0
  }

  lemma SignedIs(p: Packet, data: seq<byte>, text: seq<byte>)
    requires |data| >= HEADER_SIZE && Get2(data, 2) == |data| - HEADER_SIZE && HasRoom(p, data) && IsSigned(p, data, text)
    ensures text == if p.hasFingerprint then WithLength(data, |data| - HEADER_SIZE - 8) else data
  {
    var length := Get2(text, 2);
    SameTwo(text, Put2(length));
    assert text == text[..2] + text[2..4] + text[4..];
    assert data == data[..2] + data[2..4] + data[4..];
    SameTwo(data, Put2(Get2(data, 2)));
  }

  /** Two bytes are determined by their number. */
  lemma SameTwo(data: seq<byte>, two: seq<byte>)
    requires |data| >= 4 && |two| == 2 && Get2(two, 0) == Get2(data, 2)
    ensures data[2..4] == two
  {
  }

  /** The answer is OK if and only if it is a request or indication whose username begins with the local one and a colon,
      and whose MESSAGE-INTEGRITY is the HMAC of the text before it under the local password. It is BAD_REQUEST if and only
      if it is a response, or has no username or no MESSAGE-INTEGRITY. */
  lemma AuthenticatedIff(p: Packet, data: seq<byte>, text: seq<byte>, localUsername: seq<byte>, localPassword: seq<byte>,
                         crypto: Crypto)
    requires |data| <= 0xFFFF && Parse(data, crypto) == Some(p)
    requires HEADER_SIZE <= |data| && IsSigned(p, data, text)
    ensures HasRoom(p, data)
    ensures CheckAuthentication(p, data, localUsername, localPassword, crypto) == OK <==>
            && (p.klass.Request? || p.klass.Indication?)
            && p.messageIntegrity.Some?
            && (exists rest: seq<byte> :: p.username == localUsername + [58] + rest)
            && var i := p.messageIntegrity.value;
               data[i..i + 20] == crypto.hmac(localPassword, text[..i - 4])
    ensures CheckAuthentication(p, data, localUsername, localPassword, crypto) == BadRequest <==>
            p.klass.SuccessResponse? || p.klass.ErrorResponse? || p.username == [] || p.messageIntegrity.None?
  {
    hide Parse, UsernameMatches, WithLength, Get2;
    ParsedHasRoom(data, crypto);
    SignedIs(p, data, text);
    UsernameParts(p.username, localUsername);
  }

  // ----- XOR-MAPPED-ADDRESS

  lemma {:induction false} XorBitsTwice(a: nat, b: nat, n: nat)
    requires a < Pow2(n)
    ensures XorBits(XorBits(a, b, n), b, n) == a
    decreases n
  {
    if n > 0 {
      XorBitsTwice(a / 2, b / 2, n - 1);
      var x := XorBits(a / 2, b / 2, n - 1);
      QuotientIs(2 * x, 2, x, 0);
      QuotientIs(2 * x + 1, 2, x, 1);
    }
  }

  /** Xor is its own inverse. */
  lemma XorTwice(a: byte, b: byte)
    ensures Xor(Xor(a, b), b) == a
  {
    assert Pow2(4) == 16 && Pow2(8) == 256;
    XorBitsTwice(a, b, 8);
  }

  /** A receiver recovers port and address from the attribute's value (section 15.2 of RFC 5389). */
  lemma XorAddressDecodes(a: Address, transactionId: TransactionId)
    requires IsAddress(a)
    ensures var v := XorAddress(a, transactionId);
            && v[0] == 0 && v[1] == (if a.V4? then 1 else 2)
            && XorAll(v[2..4], MAGIC_COOKIE) == a.port
            && XorAll(v[4..], MAGIC_COOKIE + transactionId) == a.ip
  {
    hide Xor;
    var key := MAGIC_COOKIE + transactionId;
    var v := XorAddress(a, transactionId);
    assert v[2..4] == XorAll(a.port, MAGIC_COOKIE) && v[4..] == XorAll(a.ip, key);
    forall i | 0 <= i < 2 ensures XorAll(v[2..4], MAGIC_COOKIE)[i] == a.port[i] {
      XorTwice(a.port[i], MAGIC_COOKIE[i]);
    }
    forall i | 0 <= i < |a.ip| ensures XorAll(v[4..], key)[i] == a.ip[i] {
      XorTwice(a.ip[i], key[i]);
    }
  }
}
