/** STUN messages as values (RFC 5389): the wire format, and authentication. */
module Stun {
  import opened Seq16
  import opened Bytes
  import opened Arithmetic

  type u12 = x: int | 0 <= x < 0x1000
  type u64 = x: int | 0 <= x < 0x1_0000_0000_0000_0000
  type TransactionId = s: seq<byte> | |s| == 12 witness [0, 0, 0, 0, 0, 0, 0, 0, 0, 0, 0, 0]
  type Digest = s: seq<byte> | |s| == 20
    witness [0, 0, 0, 0, 0, 0, 0, 0, 0, 0, 0, 0, 0, 0, 0, 0, 0, 0, 0, 0]

  datatype Class = Request | Indication | SuccessResponse | ErrorResponse

  const BINDING: u12 := 1
  const MAGIC_COOKIE: seq<byte> := [0x21, 0x12, 0xA4, 0x42]

  const USERNAME: u16 := 0x0006
  const MESSAGE_INTEGRITY: u16 := 0x0008
  const ERROR_CODE: u16 := 0x0009
  const XOR_MAPPED_ADDRESS: u16 := 0x0020
  const PRIORITY: u16 := 0x0024
  const USE_CANDIDATE: u16 := 0x0025
  const FINGERPRINT: u16 := 0x8028
  const ICE_CONTROLLED: u16 := 0x8029
  const ICE_CONTROLLING: u16 := 0x802A

  const HEADER_SIZE := 20

  /** The two functions of Utils::Crypto that stay uninterpreted: HMAC-SHA1 of a key and a text, and GetCRC32 of a text
      xor 0x5354554e. */
  datatype Crypto = Crypto(hmac: (seq<byte>, seq<byte>) -> Digest, fingerprint: seq<byte> -> u32)

  // ----- The message type

  function ClassBits(c: Class): (r: nat)
    ensures r < 4
  {
    match c
    case Request => 0
    case Indication => 1
    case SuccessResponse => 2
    case ErrorResponse => 3
  }

  function ClassOf(bits: nat): Class
    requires bits < 4
  {
    if bits == 0 then Request else if bits == 1 then Indication else if bits == 2 then SuccessResponse else ErrorResponse
  }

  /** Method bits M11-M7, C1, M6-M4, C0, M3-M0. */
  function TypeField(c: Class, method_: u12): u16
  {
    var k := ClassBits(c);
    Assemble(method_ / 128, k / 2, method_ / 16 % 8, k % 2, method_ % 16)
  }

  function Assemble(a: nat, e: nat, b: nat, f: nat, d: nat): (t: nat)
    ensures a < 32 && e < 2 && b < 8 && f < 2 && d < 16 ==> t < 0x1_0000
  {
    a * 512 + e * 256 + b * 32 + f * 16 + d
  }

  function MethodOfType(t: u16): u12
  {
    t / 512 % 32 * 128 + t / 32 % 8 * 16 + t % 16
  }

  function ClassOfType(t: u16): Class
  {
    ClassOf(t / 256 % 2 * 2 + t / 16 % 2)
  }

  lemma AssembledParts(a: nat, e: nat, b: nat, f: nat, d: nat)
    requires a < 32 && e < 2 && b < 8 && f < 2 && d < 16
    ensures var t := Assemble(a, e, b, f, d);
            MethodOfType(t) == a * 128 + b * 16 + d && ClassOfType(t) == ClassOf(e * 2 + f)
  {
    var t := Assemble(a, e, b, f, d);
    QuotientIs(t, 512, a, e * 256 + b * 32 + f * 16 + d);
    QuotientIs(t, 256, 2 * a + e, b * 32 + f * 16 + d);
    QuotientIs(t, 32, 16 * a + 8 * e + b, f * 16 + d);
    QuotientIs(t, 16, 32 * a + 16 * e + 2 * b + f, d);
    QuotientIs(a, 32, 0, a);
    QuotientIs(2 * a + e, 2, a, e);
    QuotientIs(16 * a + 8 * e + b, 8, 2 * a + e, b);
    QuotientIs(32 * a + 16 * e + 2 * b + f, 2, 16 * a + 8 * e + b, f);
  }

  lemma MethodParts(m: u12, a: nat, b: nat, d: nat)
    requires a == m / 128 && b == m / 16 % 8 && d == m % 16
    ensures a < 32 && b < 8 && d < 16 && m == a * 128 + b * 16 + d
  {
    var q := m / 16;
    QuotientIs(m, 16, q, m - 16 * q);
    QuotientIs(q, 8, q / 8, q - q / 8 * 8);
    QuotientIs(m, 128, q / 8, (q - q / 8 * 8) * 16 + (m - 16 * q));
  }

  lemma ClassParts(c: Class, e: nat, f: nat)
    requires e == ClassBits(c) / 2 && f == ClassBits(c) % 2
    ensures e < 2 && f < 2 && ClassOf(e * 2 + f) == c
  {
  }

  /** Class and method are recovered from the type field. */
  lemma TypeRoundTrip(c: Class, m: u12)
    ensures MethodOfType(TypeField(c, m)) == m && ClassOfType(TypeField(c, m)) == c
  {
    hide Assemble, MethodOfType, ClassOfType, ClassOf, ClassBits;
    var k := ClassBits(c);
    MethodParts(m, m / 128, m / 16 % 8, m % 16);
    ClassParts(c, k / 2, k % 2);
    AssembledParts(m / 128, k / 2, m / 16 % 8, k % 2, m % 16);
  }

  /** The first byte of the type of a small method is 0 or 1, as IsStun demands. */
  lemma SmallType(c: Class, m: u12)
    requires m < 128
    ensures TypeField(c, m) < 512
  {
  }

  // ----- Messages

  datatype Address = V4(ip: seq<byte>, port: seq<byte>) | V6(ip: seq<byte>, port: seq<byte>)

  predicate IsAddress(a: Address)
  {
    |a.port| == 2 && |a.ip| == if a.V4? then 4 else 16
  }

  /** What a StunPacket is asked to serialize. A field that is 0 or empty is not set. */
  datatype Message = Message(
    klass: Class,
    method_: u12,
    transactionId: TransactionId,
    username: seq<byte>,
    priority: u32,
    iceControlling: u64,
    iceControlled: u64,
    hasUseCandidate: bool,
    xorMappedAddress: Option<Address>,
    errorCode: u16,
    password: seq<byte>)

  /** What Parse makes of the bytes; messageIntegrity is the position of the attribute's value. */
  datatype Packet = Packet(
    klass: Class,
    method_: u12,
    transactionId: TransactionId,
    username: seq<byte>,
    priority: u32,
    iceControlling: u64,
    iceControlled: u64,
    hasUseCandidate: bool,
    messageIntegrity: Option<nat>,
    hasFingerprint: bool,
    errorCode: u16)

  function Get8(s: seq<byte>, i: nat): u64
    requires i + 8 <= |s|
  {
    (Get4(s, i) as int) * 0x1_0000_0000 + Get4(s, i + 4)
  }

  function Put8(v: u64): (r: seq<byte>)
    ensures |r| == 8
    ensures Get8(r, 0) == v
  {
    var hi, lo := Put4(v / 0x1_0000_0000), Put4(v % 0x1_0000_0000);
    assert Get4(hi + lo, 0) == Get4(hi, 0) by { GetOfConcat(hi, lo); }
    assert Get4(hi + lo, 4) == Get4(lo, 0) by { GetOfConcat(hi, lo); }
    hi + lo
  }

  lemma GetOfConcat(a: seq<byte>, b: seq<byte>)
    requires |a| >= 4 && |b| >= 4
    ensures Get4(a + b, 0) == Get4(a, 0)
    ensures Get4(a + b, |a|) == Get4(b, 0)
  {
  }

  // ----- Parse

  predicate IsStun(data: seq<byte>)
  {
    |data| >= HEADER_SIZE && data[0] < 3 && data[4..8] == MAGIC_COOKIE
  }

  /** Where the parser stands: the packet so far, and the fingerprint with the position of its attribute. */
  datatype Progress = Progress(packet: Packet, fingerprint: Option<(nat, u32)>)

  /** One attribute, found at `pos`. None discards the packet. */
  function TakeAttribute(p: Progress, attrType: u16, value: seq<byte>, pos: nat): (r: Option<Progress>)
    requires |value| < 0x1_0000
    ensures r.Some? ==> var f := r.value.fingerprint; f == p.fingerprint || (f.Some? && f.value.0 == pos)
  {
    var n := |value|;
    if p.packet.hasFingerprint then None
    else if p.packet.messageIntegrity.Some? && attrType != FINGERPRINT then None
    else if attrType == USERNAME then Some(p.(packet := p.packet.(username := value)))
    else if attrType == PRIORITY then
      if n != 4 then None else Some(p.(packet := p.packet.(priority := Get4(value, 0))))
    else if attrType == ICE_CONTROLLING then
      if n != 8 then None else Some(p.(packet := p.packet.(iceControlling := Get8(value, 0))))
    else if attrType == ICE_CONTROLLED then
      if n != 8 then None else Some(p.(packet := p.packet.(iceControlled := Get8(value, 0))))
    else if attrType == USE_CANDIDATE then
      if n != 0 then None else Some(p.(packet := p.packet.(hasUseCandidate := true)))
    else if attrType == MESSAGE_INTEGRITY then
      if n != 20 then None else Some(p.(packet := p.packet.(messageIntegrity := Some(pos + 4))))
    else if attrType == FINGERPRINT then
      if n != 4 then None
      else Some(Progress(p.packet.(hasFingerprint := true), Some((pos, Get4(value, 0)))))
    else if attrType == ERROR_CODE then
      if n < 4 then None
      else Some(p.(packet := p.packet.(errorCode := (value[2] as int) * 100 + value[3])))
    else Some(p)
  }

  /** The loop over the attributes; the next position is padded in 16 bits. */
  function TakeAttributes(data: seq<byte>, pos: nat, p: Progress): (r: Option<Progress>)
    requires |data| <= 0xFFFC && pos <= |data|
    requires p.fingerprint.Some? ==> p.fingerprint.value.0 <= |data|
    ensures r.Some? && r.value.fingerprint.Some? ==> r.value.fingerprint.value.0 <= |data|
    decreases |data| - pos
  {
    if pos + 4 > |data| then if pos == |data| then Some(p) else None
    else
      var n := Get2(data, pos + 2);
      if pos + 4 + n > |data| then None
      else
        var q := TakeAttribute(p, Get2(data, pos), data[pos + 4..pos + 4 + n], pos);
        var next := PadTo4(pos + 4 + n);
        if q.None? then None
        else if next > |data| then None
        else TakeAttributes(data, next, q.value)
  }

  function EmptyPacket(data: seq<byte>): Packet
    requires |data| >= HEADER_SIZE
  {
    var t := Get2(data, 0);
    Packet(ClassOfType(t), MethodOfType(t), data[8..20], [], 0, 0, 0, false, None, false, 0)
  }

  function Parse(data: seq<byte>, crypto: Crypto): Option<Packet>
    requires |data| <= 0xFFFF
  {
    if !IsStun(data) || Get2(data, 2) != |data| - HEADER_SIZE || Get2(data, 2) % 4 != 0 then None
    else
      var r := TakeAttributes(data, HEADER_SIZE, Progress(EmptyPacket(data), None));
      if r.None? then None
      else
        var f := r.value.fingerprint;
        if f.Some? && crypto.fingerprint(data[..f.value.0]) != f.value.1 then None
        else Some(r.value.packet)
  }
}
