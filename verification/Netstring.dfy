/** The netstring library (netstring.c) and the two directions it is used in. */
module Netstrings {
  import opened Bytes
  import opened Arithmetic

  const COLON: byte := 58
  const COMMA: byte := 44
  const ZERO: byte := 48

  predicate IsDigit(b: byte)
  {
    ZERO <= b <= ZERO + 9
  }

  // ----- Reading

  datatype Result =
    | Ok(payload: seq<byte>, size: nat)
    | TooLong
    | NoColon
    | TooShort
    | NoComma
    | LeadingZero
    | NoLength

  /** How many digits the string starts with. */
  function LeadingDigits(s: seq<byte>): (n: nat)
    ensures n <= |s|
    ensures forall k :: 0 <= k < n ==> IsDigit(s[k])
    ensures n < |s| ==> !IsDigit(s[n])
  {
    if s == [] || !IsDigit(s[0]) then 0 else 1 + LeadingDigits(s[1..])
  }

  function DecimalValue(s: seq<byte>): nat
    requires forall k :: 0 <= k < |s| ==> IsDigit(s[k])
  {
    if s == [] then 0
    else
      assert IsDigit(s[|s| - 1]);
      DecimalValue(s[..|s| - 1]) * 10 + (s[|s| - 1] - ZERO)
  }

  /** netstring_read. */
  function Read(s: seq<byte>): (r: Result)
    ensures r.Ok? ==> |r.payload| + 2 < r.size <= |s|
  {
    if |s| < 3 then TooShort
    else if s[0] == ZERO && IsDigit(s[1]) then LeadingZero
    else if !IsDigit(s[0]) then NoLength
    else
      var n := LeadingDigits(s);
      if n > 9 then TooLong else ReadAfter(s, n, DecimalValue(s[..n]))
  }

  /** The rest of it, once the length `len` was read from the first `n` bytes. */
  function ReadAfter(s: seq<byte>, n: nat, len: nat): (r: Result)
    requires n > 0
    ensures r.Ok? ==> |r.payload| + 2 < r.size <= |s|
  {
    if n + len + 1 >= |s| then TooShort
    else if s[n] != COLON then NoColon
    else if s[n + 1 + len] != COMMA then NoComma
    else Ok(s[n + 1..n + 1 + len], n + len + 2)
  }

  /** netstring_read on a part of a buffer. */
  method ReadBuffer(buffer: array<byte>, from: nat, to: nat) returns (r: Result)
    requires from <= to <= buffer.Length
    ensures r == Read(buffer[from..to])
  {
    hide LeadingDigits, DecimalValue;
    ghost var s := buffer[from..to];
    var length := to - from;
    if length < 3 {
      return TooShort;
    }
    if buffer[from] == ZERO && IsDigit(buffer[from + 1]) {
      return LeadingZero;
    }
    if !IsDigit(buffer[from]) {
      return NoLength;
    }
    var i, len := 0, 0;
    NoDigits();
    while i < length && IsDigit(buffer[from + i])
      invariant i <= LeadingDigits(s) && i <= 9
      invariant len == DecimalValue(s[..i])
    {
      if i >= 9 {
        return TooLong;
      }
      assert s[i] == buffer[from + i];
      NextDigit(s, i);
      len := len * 10 + (buffer[from + i] - ZERO);
      i := i + 1;
    }
    DigitsEnd(s, i);
    if i + len + 1 >= length {
      return TooShort;
    }
    if buffer[from + i] != COLON {
      return NoColon;
    }
    i := i + 1;
    if buffer[from + i + len] != COMMA {
      return NoComma;
    }
    SliceOfSlice(buffer[..], from, to, i, i + len);
    assert buffer[from + i..from + i + len] == s[i..i + len];
    return Ok(buffer[from + i..from + i + len], i + len + 1);
  }

  lemma NoDigits()
    ensures DecimalValue([]) == 0
  {
  }

  lemma DigitsEnd(s: seq<byte>, i: nat)
    requires i <= LeadingDigits(s) && (i == |s| || !IsDigit(s[i]))
    ensures i == LeadingDigits(s)
  {
  }

  lemma NextDigit(s: seq<byte>, i: nat)
    requires i <= LeadingDigits(s) && i < |s| && IsDigit(s[i])
    ensures i < LeadingDigits(s)
    ensures DecimalValue(s[..i + 1]) == DecimalValue(s[..i]) * 10 + (s[i] - ZERO)
  {
    hide LeadingDigits;
    assert s[..i + 1][..i] == s[..i];
  }

  // ----- Writing

  /** The decimal representation that sprintf writes. */
  function Decimal(n: nat): (r: seq<byte>)
    ensures |r| > 0 && forall k :: 0 <= k < |r| ==> IsDigit(r[k])
  {
    if n < 10 then [ZERO + n] else Decimal(n / 10) + [ZERO + n % 10]
  }

  /** The netstring of a payload. */
  function Encode(payload: seq<byte>): seq<byte>
  {
    Decimal(|payload|) + [COLON] + payload + [COMMA]
  }

  function Pow10(k: nat): (r: nat)
    ensures r > 0
  {
    if k == 0 then 1 else 10 * Pow10(k - 1)
  }

  /** ceil(log10(x)): the least k from `k` on with x <= 10^k. */
  function CeilLog10(x: nat, k: nat): nat
    decreases x - Pow10(k)
  {
    if x <= Pow10(k) then k else CeilLog10(x, k + 1)
  }

  lemma {:induction false} DecimalRange(n: nat)
    ensures n < Pow10(|Decimal(n)|)
    ensures n > 0 ==> Pow10(|Decimal(n)| - 1) <= n
  {
    if n >= 10 {
      DecimalRange(n / 10);
    }
  }

  lemma {:induction false} Pow10Mono(a: nat, b: nat)
    requires a <= b
    ensures Pow10(a) <= Pow10(b)
  {
    if a < b {
      Pow10Mono(a, b - 1);
    }
  }

  lemma {:induction false} CeilLog10Is(x: nat, k: nat, d: nat)
    requires k <= d && x <= Pow10(d) && (d > 0 ==> Pow10(d - 1) < x)
    ensures CeilLog10(x, k) == d
    decreases d - k
  {
    if k < d {
      Pow10Mono(k, d - 1);
      CeilLog10Is(x, k + 1, d);
    }
  }

  /** The length computed with a logarithm is the number of digits, so that the payload is put right behind the colon. */
  lemma NumberLength(n: nat)
    requires n > 0
    ensures CeilLog10(n + 1, 0) == |Decimal(n)|
  {
    DecimalRange(n);
    CeilLog10Is(n + 1, 0, |Decimal(n)|);
  }

  /** netstring_buffer_size. */
  function BufferSize(n: nat): nat
  {
    if n == 0 then 3 else CeilLog10(n + 1, 0) + n + 2
  }

  lemma BufferSizeIsExact(payload: seq<byte>)
    ensures BufferSize(|payload|) == |Encode(payload)|
  {
    if |payload| > 0 {
      NumberLength(|payload|);
    }
  }

  /** What Send, SendLog and SendBinary put into the write buffer (netstring_encode_new does the same). */
  method Write(buffer: array<byte>, payload: seq<byte>) returns (nsLen: nat)
    requires buffer.Length >= BufferSize(|payload|)
    modifies buffer
    ensures nsLen <= buffer.Length && buffer[..nsLen] == Encode(payload)
  {
    var n := |payload|;
    BufferSizeIsExact(payload);
    var nsNumLen;
    if n == 0 {
      nsNumLen := 1;
      buffer[0], buffer[1], buffer[2] := ZERO, COLON, COMMA;
      nsLen := nsNumLen + n + 2;
      assert buffer[..nsLen] == Encode(payload);
    } else {
      nsNumLen := CeilLog10(n + 1, 0);
      NumberLength(n);
      Copy(buffer, 0, Decimal(n) + [COLON]);
      ghost var head := buffer[..nsNumLen + 1];
      assert head == Decimal(n) + [COLON];
      Copy(buffer, nsNumLen + 1, payload);
      buffer[nsNumLen + n + 1] := COMMA;
      nsLen := nsNumLen + n + 2;
      assert buffer[..nsLen] == head + payload + [COMMA];
    }
  }

  // ----- Round trip

  lemma {:induction false} DigitsThen(d: seq<byte>, rest: seq<byte>)
    requires forall k :: 0 <= k < |d| ==> IsDigit(d[k])
    requires rest == [] || !IsDigit(rest[0])
    ensures LeadingDigits(d + rest) == |d|
  {
    var s := d + rest;
    assert forall k :: 0 <= k < |d| ==> s[k] == d[k];
    assert rest != [] ==> s[|d|] == rest[0];
    assert LeadingDigits(s) >= |d|;
  }

  lemma {:induction false} ValueOfDecimal(n: nat)
    ensures DecimalValue(Decimal(n)) == n
  {
    if n >= 10 {
      ValueOfDecimal(n / 10);
      var d := Decimal(n);
      assert d[..|d| - 1] == Decimal(n / 10);
    } else {
      assert Decimal(n)[..0] == [];
    }
  }

  lemma {:induction false} NoLeadingZero(n: nat)
    requires n > 0
    ensures Decimal(n)[0] != ZERO
  {
    if n >= 10 {
      NoLeadingZero(n / 10);
    }
  }

  lemma Pow10Nine()
    ensures Pow10(9) == 1_000_000_000
  {
    assert Pow10(3) == 1000;
    assert Pow10(6) == 1_000_000;
  }

  lemma ShortNumber(n: nat)
    requires n < 1_000_000_000
    ensures |Decimal(n)| <= 9
  {
    DecimalRange(n);
    Pow10Nine();
    if |Decimal(n)| > 9 {
      Pow10Mono(9, |Decimal(n)| - 1);
    }
  }

  lemma NumberIsRead(n: nat, rest: seq<byte>)
    requires rest == [] || rest[0] == COLON
    ensures var s := Decimal(n) + rest;
            && LeadingDigits(s) == |Decimal(n)|
            && DecimalValue(s[..|Decimal(n)|]) == n
            && IsDigit(s[0])
            && (|s| > 1 && s[0] == ZERO ==> n == 0 && s[1] == COLON)
  {
    var d := Decimal(n);
    var s := d + rest;
    DigitsThen(d, rest);
    ValueOfDecimal(n);
    assert s[..|d|] == d;
    if n > 0 {
      NoLeadingZero(n);
    }
  }

  /** Round trip: a netstring is read back as its payload, whatever comes after it. */
  lemma ReadOfEncode(payload: seq<byte>, rest: seq<byte>)
    requires |payload| < 1_000_000_000
    ensures Read(Encode(payload) + rest) == Ok(payload, |Encode(payload)|)
  {
    hide Decimal, LeadingDigits, DecimalValue;
    var n := |payload|;
    var tail := [COLON] + payload + [COMMA] + rest;
    var s := Encode(payload) + rest;
    assert s == Decimal(n) + tail;
    NumberIsRead(n, tail);
    ShortNumber(n);
    var d := |Decimal(n)|;
    assert s[d] == tail[0] && s[d + 1 + n] == tail[1 + n];
    assert s[d + 1..d + 1 + n] == tail[1..1 + n] == payload;
  }

  /** Every strict prefix of a netstring reads as too short. */
  lemma StrictPrefixIsTooShort(payload: seq<byte>, k: nat)
    requires |payload| < 1_000_000_000 && k < |Encode(payload)|
    ensures Read(Encode(payload)[..k]) == TooShort
  {
    hide Decimal, LeadingDigits, DecimalValue;
    var n := |payload|;
    var d := |Decimal(n)|;
    var s := Encode(payload)[..k];
    ShortNumber(n);
    if k >= 3 {
      if k <= d {
        PrefixOfNumber(n, k);
        assert s == Decimal(n)[..k];
      } else {
        var tail := ([COLON] + payload + [COMMA])[..k - d];
        assert s == Decimal(n) + tail;
        NumberIsRead(n, tail);
      }
    }
  }

  lemma PrefixOfNumber(n: nat, k: nat)
    requires 1 < k <= |Decimal(n)|
    ensures var s := Decimal(n)[..k]; LeadingDigits(s) == k && s[0] != ZERO && IsDigit(s[0])
  {
    var s := Decimal(n)[..k];
    DigitsThen(s, []);
    assert s + [] == s;
    NoLeadingZero(n);
  }
}
