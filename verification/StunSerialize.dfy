/** Serializing STUN messages, and what parsing and authenticating them gives back. */
module StunSerialize {
  import opened Seq16
  import opened Bytes
  import opened Arithmetic
  import opened Stun

  // ----- Attributes on the wire

  datatype RawAttribute = Attribute(attrType: u16, value: seq<byte>, pad: seq<byte>)

  type Attribute = a: RawAttribute | WellPadded(a) witness Attribute(0, [], [])

  /** How many bytes bring `n` to a multiple of four. */
  function PadLength(n: nat): (r: nat)
    ensures r < 4 && (n + r) % 4 == 0
  {
    if n % 4 == 0 then 0 else 4 - n % 4
  }

  predicate WellPadded(a: RawAttribute)
  {
    |a.value| < 0x1_0000 && |a.pad| == PadLength(|a.value|)
  }

  function AttributeBytes(a: Attribute): (r: seq<byte>)
    ensures |r| == 4 + |a.value| + |a.pad|
  {
    Put2(a.attrType) + Put2(|a.value|) + a.value + a.pad
  }

  function Concat(list: seq<Attribute>): seq<byte>
  {
    if list == [] then [] else AttributeBytes(list[0]) + Concat(list[1..])
  }

  /** What the parser makes of a list of attributes that starts at `pos`. */
  function Fold(list: seq<Attribute>, pos: nat, p: Progress): Option<Progress>
    decreases |list|
  {
    if list == [] then Some(p)
    else
      var q := TakeAttribute(p, list[0].attrType, list[0].value, pos);
      if q.None? then None else Fold(list[1..], pos + |AttributeBytes(list[0])|, q.value)
  }

  lemma AttributeParts(prefix: seq<byte>, a: Attribute, rest: seq<byte>)
    ensures var data := prefix + (AttributeBytes(a) + rest);
            var pos := |prefix|;
            var n := |a.value|;
            && pos + 4 + n <= |data|
            && Get2(data, pos) == a.attrType
            && Get2(data, pos + 2) == n
            && data[pos + 4..pos + 4 + n] == a.value
  {
    var t, l := Put2(a.attrType), Put2(|a.value|);
    var data := prefix + (AttributeBytes(a) + rest);
    var pos := |prefix|;
    assert AttributeBytes(a) == t + l + a.value + a.pad;
    assert data[pos] == t[0] && data[pos + 1] == t[1] && data[pos + 2] == l[0] && data[pos + 3] == l[1];
    assert Get2(data, pos) == Get2(t, 0) && Get2(data, pos + 2) == Get2(l, 0);
  }

  lemma PadToNext(pos: nat, n: nat)
    requires pos % 4 == 0 && pos + 4 + n + PadLength(n) <= 0xFFFC
    ensures PadTo4(pos + 4 + n) == pos + 4 + n + PadLength(n)
  {
  }

  /** The parser's loop takes a concatenation of attributes one after the other. */
  lemma {:induction false} LoopIsFold(prefix: seq<byte>, list: seq<Attribute>, p: Progress)
    requires |prefix| % 4 == 0 && |prefix| + |Concat(list)| <= 0xFFFC
    requires p.fingerprint.Some? ==> p.fingerprint.value.0 <= |prefix|
    ensures TakeAttributes(prefix + Concat(list), |prefix|, p) == Fold(list, |prefix|, p)
    decreases |list|
  {
    hide TakeAttribute, PadTo4, AttributeBytes, PadLength;
    var data := prefix + Concat(list);
    if list != [] {
      var a, rest := list[0], list[1..];
      var pos, n := |prefix|, |a.value|;
      AttributeParts(prefix, a, Concat(rest));
      PadToNext(pos, n);
      var next := prefix + AttributeBytes(a);
      assert data == next + Concat(rest);
      var q := TakeAttribute(p, a.attrType, a.value, pos);
      if q.Some? {
        NextAligned(pos, n);
        LoopIsFold(next, rest, q.value);
      }
    }
  }

  lemma NextAligned(pos: nat, n: nat)
    requires pos % 4 == 0
    ensures (pos + 4 + n + PadLength(n)) % 4 == 0
  {
  }

  // ----- Serialize

  function Pow2(n: nat): (r: nat)
    ensures r > 0
  {
    if n == 0 then 1 else 2 * Pow2(n - 1)
  }

  /** The exclusive or of the lowest `n` bits. */
  function XorBits(a: nat, b: nat, n: nat): (r: nat)
    ensures r < Pow2(n)
    decreases n
  {
    if n == 0 then 0 else 2 * XorBits(a / 2, b / 2, n - 1) + if a % 2 == b % 2 then 0 else 1
  }

  /** A byte xor another one. */
  function Xor(a: byte, b: byte): byte
  {
    assert Pow2(4) == 16 && Pow2(8) == 256;
    XorBits(a, b, 8)
  }

  function XorAll(a: seq<byte>, b: seq<byte>): (r: seq<byte>)
    requires |a| <= |b|
    ensures |r| == |a|
  {
    seq(|a|, i requires 0 <= i < |a| => Xor(a[i], b[i]))
  }

  /** The value of XOR-MAPPED-ADDRESS (section 15.2 of RFC 5389). */
  function XorAddress(a: Address, transactionId: TransactionId): (r: seq<byte>)
    requires IsAddress(a)
    ensures |r| == if a.V4? then 8 else 20
  {
    [0, if a.V4? then 1 else 2] + XorAll(a.port, MAGIC_COOKIE) + XorAll(a.ip, MAGIC_COOKIE + transactionId)
  }

  /** The class and number of an error code; both are cut to a byte. */
  function ErrorBytes(errorCode: u16): (r: seq<byte>)
    ensures |r| == 4
  {
    var codeClass := errorCode / 100 % 256;
    [0, 0, codeClass, (errorCode % 256 - codeClass * 100) % 256]
  }

  function Opt(set_: bool, attrType: u16, value: seq<byte>, pad: seq<byte>): (r: seq<Attribute>)
    requires |value| < 0x1_0000 && |pad| == PadLength(|value|)
  {
    if set_ then [Attribute(attrType, value, pad)] else []
  }

  /** `pad` are the bytes behind the username, which Serialize leaves as they are in the buffer. */
  predicate Serializable(m: Message, pad: seq<byte>)
  {
    && |m.username| <= 0xFF00
    && |pad| == PadLength(|m.username|)
    && (m.xorMappedAddress.Some? ==> IsAddress(m.xorMappedAddress.value))
  }

  predicate AddsXorMappedAddress(m: Message)
  {
    m.xorMappedAddress.Some? && m.method_ == BINDING && m.klass.SuccessResponse?
  }

  predicate AddsErrorCode(m: Message)
  {
    m.errorCode != 0 && m.klass.ErrorResponse?
  }

  predicate AddsIntegrity(m: Message)
  {
    !m.klass.ErrorResponse? && m.password != []
  }

  // The attributes before MESSAGE-INTEGRITY, each put in front of the ones that follow it.

  function WithErrorCode(m: Message, tail: seq<Attribute>): seq<Attribute>
  {
    Opt(AddsErrorCode(m), ERROR_CODE, ErrorBytes(m.errorCode), []) + tail
  }

  function WithXorMappedAddress(m: Message, tail: seq<Attribute>): seq<Attribute>
    requires AddsXorMappedAddress(m) ==> IsAddress(m.xorMappedAddress.value)
  {
    if AddsXorMappedAddress(m)
    then [Attribute(XOR_MAPPED_ADDRESS, XorAddress(m.xorMappedAddress.value, m.transactionId), [])] + tail
    else tail
  }

  function WithUseCandidate(m: Message, tail: seq<Attribute>): seq<Attribute>
  {
    Opt(m.hasUseCandidate, USE_CANDIDATE, [], []) + tail
  }

  function WithIceControlled(m: Message, tail: seq<Attribute>): seq<Attribute>
  {
    Opt(m.iceControlled != 0, ICE_CONTROLLED, Put8(m.iceControlled), []) + tail
  }

  function WithIceControlling(m: Message, tail: seq<Attribute>): seq<Attribute>
  {
    Opt(m.iceControlling != 0, ICE_CONTROLLING, Put8(m.iceControlling), []) + tail
  }

  function WithPriority(m: Message, tail: seq<Attribute>): seq<Attribute>
  {
    Opt(m.priority != 0, PRIORITY, Put4(m.priority), []) + tail
  }

  function WithUsername(m: Message, pad: seq<byte>, tail: seq<Attribute>): seq<Attribute>
    requires Serializable(m, pad)
  {
    Opt(m.username != [], USERNAME, m.username, pad) + tail
  }

  function Attributes(m: Message, pad: seq<byte>, tail: seq<Attribute>): seq<Attribute>
    requires Serializable(m, pad)
  {
    WithUsername(m, pad, WithPriority(m, WithIceControlling(m, WithIceControlled(m, WithUseCandidate(m,
      WithXorMappedAddress(m, WithErrorCode(m, tail)))))))
  }

  function Header(m: Message, length: nat): (r: seq<byte>)
    ensures |r| == HEADER_SIZE
  {
    Put2(TypeField(m.klass, m.method_)) + Put2(Wrap(length)) + MAGIC_COOKIE + m.transactionId
  }

  function Body(m: Message, pad: seq<byte>): seq<byte>
    requires Serializable(m, pad)
  {
    Concat(Attributes(m, pad, []))
  }

  function Size(m: Message, pad: seq<byte>): (r: nat)
    requires Serializable(m, pad)
    ensures r >= HEADER_SIZE + 8
  {
    HEADER_SIZE + |Body(m, pad)| + (if AddsIntegrity(m) then 24 else 0) + 8
  }

  /** The MESSAGE-INTEGRITY attribute for the text before it. */
  function Integrity(m: Message, text: seq<byte>, crypto: Crypto): seq<Attribute>
  {
    Opt(AddsIntegrity(m), MESSAGE_INTEGRITY, crypto.hmac(m.password, text), [])
  }

  /** The HMAC is computed with the length that the message would have without the fingerprint. */
  function Text(m: Message, pad: seq<byte>): seq<byte>
    requires Serializable(m, pad)
  {
    Header(m, Size(m, pad) - HEADER_SIZE - 8) + Body(m, pad)
  }

  /** Everything before the fingerprint. */
  function Unsigned(m: Message, pad: seq<byte>, crypto: Crypto): seq<byte>
    requires Serializable(m, pad)
  {
    Header(m, Size(m, pad) - HEADER_SIZE) + Body(m, pad) + Concat(Integrity(m, Text(m, pad), crypto))
  }

  function FingerprintOf(m: Message, pad: seq<byte>, crypto: Crypto): (a: Attribute)
    requires Serializable(m, pad)
  {
    Attribute(FINGERPRINT, Put4(crypto.fingerprint(Unsigned(m, pad, crypto))), [])
  }

  function Serialize(m: Message, pad: seq<byte>, crypto: Crypto): seq<byte>
    requires Serializable(m, pad)
  {
    Unsigned(m, pad, crypto) + AttributeBytes(FingerprintOf(m, pad, crypto))
  }

  // ----- What the parser makes of the attributes

  /** Neither MESSAGE-INTEGRITY nor FINGERPRINT was seen. */
  predicate Open(p: Progress)
  {
    p.packet.messageIntegrity.None? && !p.packet.hasFingerprint
  }

  lemma FoldOpt(set_: bool, attrType: u16, value: seq<byte>, pad: seq<byte>, tail: seq<Attribute>, pos: nat, p: Progress)
    requires |value| < 0x1_0000 && |pad| == PadLength(|value|)
    ensures var next := pos + 4 + |value| + |pad|;
            var q := TakeAttribute(p, attrType, value, pos);
            Fold(Opt(set_, attrType, value, pad) + tail, pos, p) ==
            if !set_ then Fold(tail, pos, p) else if q.None? then None else Fold(tail, next, q.value)
  {
    hide TakeAttribute, PadLength;
    if set_ {
      var list := Opt(set_, attrType, value, pad) + tail;
      assert list[1..] == tail;
    } else {
      assert Opt(set_, attrType, value, pad) + tail == tail;
    }
  }

  /** What Parse reads from the error bytes. */
  function ErrorValue(errorCode: u16): u16
  {
    var b := ErrorBytes(errorCode);
    (b[2] as int) * 100 + b[3]
  }

  lemma FoldErrorCode(m: Message, tail: seq<Attribute>, pos: nat, p: Progress) returns (next: nat)
    requires Open(p) && p.packet.errorCode == 0
    ensures Fold(WithErrorCode(m, tail), pos, p) ==
            Fold(tail, next, p.(packet := p.packet.(errorCode := if AddsErrorCode(m) then ErrorValue(m.errorCode) else 0)))
  {
    hide ErrorBytes, Fold, Opt;
    FoldOpt(AddsErrorCode(m), ERROR_CODE, ErrorBytes(m.errorCode), [], tail, pos, p);
    next := if AddsErrorCode(m) then pos + 8 else pos;
  }

  lemma FoldXorMappedAddress(m: Message, tail: seq<Attribute>, pos: nat, p: Progress) returns (next: nat)
    requires AddsXorMappedAddress(m) ==> IsAddress(m.xorMappedAddress.value)
    requires Open(p)
    ensures Fold(WithXorMappedAddress(m, tail), pos, p) == Fold(tail, next, p)
  {
    hide XorAddress;
    next := pos;
    if AddsXorMappedAddress(m) {
      var value := XorAddress(m.xorMappedAddress.value, m.transactionId);
      next := pos + 4 + |value|;
      var list := WithXorMappedAddress(m, tail);
      assert list[1..] == tail;
    }
  }

  lemma FoldUseCandidate(m: Message, tail: seq<Attribute>, pos: nat, p: Progress) returns (next: nat)
    requires Open(p) && !p.packet.hasUseCandidate
    ensures Fold(WithUseCandidate(m, tail), pos, p) ==
            Fold(tail, next, p.(packet := p.packet.(hasUseCandidate := m.hasUseCandidate)))
  {
    hide Fold, Opt;
    FoldOpt(m.hasUseCandidate, USE_CANDIDATE, [], [], tail, pos, p);
    next := if m.hasUseCandidate then pos + 4 else pos;
  }

  lemma FoldIceControlled(m: Message, tail: seq<Attribute>, pos: nat, p: Progress) returns (next: nat)
    requires Open(p) && p.packet.iceControlled == 0
    ensures Fold(WithIceControlled(m, tail), pos, p) ==
            Fold(tail, next, p.(packet := p.packet.(iceControlled := m.iceControlled)))
  {
    hide Fold, Opt, Get8, Put8;
    FoldOpt(m.iceControlled != 0, ICE_CONTROLLED, Put8(m.iceControlled), [], tail, pos, p);
    next := if m.iceControlled != 0 then pos + 12 else pos;
  }

  lemma FoldIceControlling(m: Message, tail: seq<Attribute>, pos: nat, p: Progress) returns (next: nat)
    requires Open(p) && p.packet.iceControlling == 0
    ensures Fold(WithIceControlling(m, tail), pos, p) ==
            Fold(tail, next, p.(packet := p.packet.(iceControlling := m.iceControlling)))
  {
    hide Fold, Opt, Get8, Put8;
    FoldOpt(m.iceControlling != 0, ICE_CONTROLLING, Put8(m.iceControlling), [], tail, pos, p);
    next := if m.iceControlling != 0 then pos + 12 else pos;
  }

  lemma FoldPriority(m: Message, tail: seq<Attribute>, pos: nat, p: Progress) returns (next: nat)
    requires Open(p) && p.packet.priority == 0
    ensures Fold(WithPriority(m, tail), pos, p) == Fold(tail, next, p.(packet := p.packet.(priority := m.priority)))
  {
    hide Fold, Opt, Get4, Put4;
    FoldOpt(m.priority != 0, PRIORITY, Put4(m.priority), [], tail, pos, p);
    next := if m.priority != 0 then pos + 8 else pos;
  }

  lemma FoldUsername(m: Message, pad: seq<byte>, tail: seq<Attribute>, pos: nat, p: Progress) returns (next: nat)
    requires Serializable(m, pad) && Open(p) && p.packet.username == []
    ensures Fold(WithUsername(m, pad, tail), pos, p) == Fold(tail, next, p.(packet := p.packet.(username := m.username)))
  {
    hide Fold, Opt, PadLength;
    FoldOpt(m.username != [], USERNAME, m.username, pad, tail, pos, p);
    next := if m.username != [] then pos + 4 + |m.username| + |pad| else pos;
  }

  /** All attributes before MESSAGE-INTEGRITY. */
  function Taken(m: Message, p: Packet): Packet
  {
    p.(username := m.username,
       priority := m.priority,
       iceControlling := m.iceControlling,
       iceControlled := m.iceControlled,
       hasUseCandidate := m.hasUseCandidate,
       errorCode := if AddsErrorCode(m) then ErrorValue(m.errorCode) else 0)
  }

  predicate Fresh(p: Packet)
  {
    && p.username == [] && p.priority == 0 && p.iceControlling == 0 && p.iceControlled == 0 && !p.hasUseCandidate
    && p.errorCode == 0 && p.messageIntegrity.None? && !p.hasFingerprint
  }

  lemma FoldAttributes(m: Message, pad: seq<byte>, pos: nat, packet: Packet)
    requires Serializable(m, pad) && Fresh(packet)
    ensures Fold(Attributes(m, pad, []), pos, Progress(packet, None)) == Some(Progress(Taken(m, packet), None))
  {
    hide WithUsername, WithPriority, WithIceControlling, WithIceControlled, WithUseCandidate, WithXorMappedAddress,
      WithErrorCode, ErrorValue;
    var t7: seq<Attribute> := [];
    var t6 := WithErrorCode(m, t7);
    var t5 := WithXorMappedAddress(m, t6);
    var t4 := WithUseCandidate(m, t5);
    var t3 := WithIceControlled(m, t4);
    var t2 := WithIceControlling(m, t3);
    var t1 := WithPriority(m, t2);
    var p0 := Progress(packet, None);
    var n1 := FoldUsername(m, pad, t1, pos, p0);
    var p1 := p0.(packet := p0.packet.(username := m.username));
    var n2 := FoldPriority(m, t2, n1, p1);
    var p2 := p1.(packet := p1.packet.(priority := m.priority));
    var n3 := FoldIceControlling(m, t3, n2, p2);
    var p3 := p2.(packet := p2.packet.(iceControlling := m.iceControlling));
    var n4 := FoldIceControlled(m, t4, n3, p3);
    var p4 := p3.(packet := p3.packet.(iceControlled := m.iceControlled));
    var n5 := FoldUseCandidate(m, t5, n4, p4);
    var p5 := p4.(packet := p4.packet.(hasUseCandidate := m.hasUseCandidate));
    var n6 := FoldXorMappedAddress(m, t6, n5, p5);
    var n7 := FoldErrorCode(m, t7, n6, p5);
  }

  lemma {:induction false} FoldAppend(a: seq<Attribute>, b: seq<Attribute>, pos: nat, p: Progress)
    ensures Fold(a + b, pos, p) ==
            (var q := Fold(a, pos, p); if q.None? then None else Fold(b, pos + |Concat(a)|, q.value))
    decreases |a|
  {
    hide TakeAttribute;
    if a == [] {
      assert a + b == b;
    } else {
      assert (a + b)[1..] == a[1..] + b;
      var q := TakeAttribute(p, a[0].attrType, a[0].value, pos);
      if q.Some? {
        FoldAppend(a[1..], b, pos + |AttributeBytes(a[0])|, q.value);
      }
    }
  }

  lemma {:induction false} ConcatAppend(a: seq<Attribute>, b: seq<Attribute>)
    ensures Concat(a + b) == Concat(a) + Concat(b)
    decreases |a|
  {
    hide AttributeBytes;
    if a == [] {
      assert a + b == b;
    } else {
      assert (a + b)[1..] == a[1..] + b;
      ConcatAppend(a[1..], b);
    }
  }

  lemma {:induction false} ConcatIsAligned(list: seq<Attribute>)
    ensures |Concat(list)| % 4 == 0
    decreases |list|
  {
    hide AttributeBytes, PadLength;
    if list != [] {
      AttributeIsAligned(list[0]);
      ConcatIsAligned(list[1..]);
      SumIsAligned(|AttributeBytes(list[0])|, |Concat(list[1..])|);
    }
  }

  lemma AttributeIsAligned(a: Attribute)
    ensures |AttributeBytes(a)| % 4 == 0
  {
    hide AttributeBytes;
  }

  lemma SumIsAligned(x: nat, y: nat)
    requires x % 4 == 0 && y % 4 == 0
    ensures (x + y) % 4 == 0
  {
  }
}
