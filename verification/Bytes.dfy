/** Bytes in network order (Utils::Byte). */
module Bytes {
  import opened Seq16

  type byte = x: int | 0 <= x < 0x100
  type u8 = byte
  type u7 = x: int | 0 <= x < 0x80
  type u32 = x: int | 0 <= x < 0x1_0000_0000

  datatype Option<+T> = None | Some(value: T)

  /** Byte::Get2Bytes. */
  function Get2(s: seq<byte>, i: nat): (r: u16)
    requires i + 2 <= |s|
  {
    (s[i] as int) * 0x100 + s[i + 1]
  }

  /** The two bytes Byte::Set2Bytes writes. */
  function Put2(v: u16): (r: seq<byte>)
    ensures |r| == 2
    ensures Get2(r, 0) == v
  {
    [v / 0x100, v % 0x100]
  }

  /** Byte::Get4Bytes. */
  function Get4(s: seq<byte>, i: nat): (r: u32)
    requires i + 4 <= |s|
  {
    (Get2(s, i) as int) * 0x1_0000 + Get2(s, i + 2)
  }

  /** The four bytes Byte::Set4Bytes writes. */
  function Put4(v: u32): (r: seq<byte>)
    ensures |r| == 4
    ensures Get4(r, 0) == v
  {
    var hi, lo := Put2(v / 0x1_0000), Put2(v % 0x1_0000);
    assert Get2(hi + lo, 0) == Get2(hi, 0) && Get2(hi + lo, 2) == Get2(lo, 0);
    hi + lo
  }

  /** Byte::PadTo4Bytes(uint16_t): the sum wraps in 16 bits. */
  function PadTo4(size: u16): (r: u16)
    ensures size <= 0xFFFC ==> size <= r < size + 4 && r % 4 == 0
  {
    if size % 4 != 0 then Wrap(size - size % 4 + 4) else size
  }

  lemma SliceOfSlice(s: seq<byte>, from: nat, to: nat, i: nat, j: nat)
    requires i <= j && from + j <= to <= |s|
    ensures s[from..to][i..j] == s[from + i..from + j]
  {
    var x, y := s[from..to][i..j], s[from + i..from + j];
    forall k | 0 <= k < j - i ensures x[k] == y[k] {
      assert x[k] == s[from..to][i + k] == s[from + (i + k)];
    }
  }

  lemma SliceJoins(s: seq<byte>, i: nat, j: nat, k: nat)
    requires i <= j <= k <= |s|
    ensures s[i..k] == s[i..j] + s[j..k]
  {
  }

  /** The bytes `x` put over `s` at a place. */
  function Splice(s: seq<byte>, at: nat, x: seq<byte>): (r: seq<byte>)
    requires at + |x| <= |s|
    ensures |r| == |s|
  {
    s[..at] + x + s[at + |x|..]
  }

  lemma SpliceTwice(s: seq<byte>, at: nat, x: seq<byte>, y: seq<byte>)
    requires at + |x| + |y| <= |s|
    ensures Splice(Splice(s, at, x), at + |x|, y) == Splice(s, at, x + y)
  {
  }

  lemma SpliceNothing(s: seq<byte>, at: nat)
    requires at <= |s|
    ensures Splice(s, at, []) == s
  {
  }

  lemma SpliceSame(s: seq<byte>, at: nat, x: seq<byte>)
    requires at + |x| <= |s| && s[at..at + |x|] == x
    ensures Splice(s, at, x) == s
  {
  }

  lemma SpliceHere(s: seq<byte>, at: nat, x: seq<byte>)
    requires at + |x| <= |s|
    ensures Splice(s, at, x)[at..at + |x|] == x
  {
  }

  lemma SpliceElsewhere(s: seq<byte>, at: nat, x: seq<byte>, i: nat, j: nat)
    requires at + |x| <= |s| && i <= j <= |s| && (j <= at || at + |x| <= i)
    ensures Splice(s, at, x)[i..j] == s[i..j]
  {
  }

  lemma SpliceParts(s: seq<byte>, at: nat, x: seq<byte>, next: nat)
    requires at + |x| <= next <= |s|
    ensures var r := Splice(s, at, x);
            && r[..at] == s[..at]
            && r[at..next] == x + s[at + |x|..next]
            && r[next..] == s[next..]
  {
  }

  /** memcpy. */
  method Copy(buffer: array<byte>, at: nat, data: seq<byte>)
    requires at + |data| <= buffer.Length
    modifies buffer
    ensures buffer[..] == Splice(old(buffer[..]), at, data)
  {
    ghost var before := buffer[..];
    var i := 0;
    while i < |data|
      invariant i <= |data|
      invariant forall k :: 0 <= k < buffer.Length ==> buffer[k] == if at <= k < at + i then data[k - at] else before[k]
    {
      buffer[at + i] := data[i];
      i := i + 1;
    }
    assert buffer[..] == Splice(before, at, data);
  }

  /** memmove. */
  method Move(buffer: array<byte>, to: nat, from: nat, len: nat)
    requires to + len <= buffer.Length && from + len <= buffer.Length
    modifies buffer
    ensures buffer[..] == Splice(old(buffer[..]), to, old(buffer[..])[from..from + len])
  {
    if to <= from {
      MoveDown(buffer, to, from, len);
    } else {
      MoveUp(buffer, to, from, len);
    }
  }

  method MoveDown(buffer: array<byte>, to: nat, from: nat, len: nat)
    requires to <= from && from + len <= buffer.Length
    modifies buffer
    ensures buffer[..] == Splice(old(buffer[..]), to, old(buffer[..])[from..from + len])
  {
    ghost var before := buffer[..];
    ghost var data := before[from..from + len];
    var i := 0;
    while i < len
      invariant i <= len
      invariant forall k :: to + i <= k < buffer.Length ==> buffer[k] == before[k]
      invariant forall k :: 0 <= k < to ==> buffer[k] == before[k]
      invariant forall k :: to <= k < to + i ==> buffer[k] == data[k - to]
    {
      buffer[to + i] := buffer[from + i];
      i := i + 1;
    }
    assert buffer[..] == Splice(before, to, data);
  }

  method MoveUp(buffer: array<byte>, to: nat, from: nat, len: nat)
    requires from < to && to + len <= buffer.Length
    modifies buffer
    ensures buffer[..] == Splice(old(buffer[..]), to, old(buffer[..])[from..from + len])
  {
    ghost var before := buffer[..];
    ghost var data := before[from..from + len];
    var i := len;
    while i > 0
      invariant 0 <= i <= len
      invariant forall k :: to + len <= k < buffer.Length ==> buffer[k] == before[k]
      invariant forall k :: 0 <= k < to + i ==> buffer[k] == before[k]
      invariant forall k :: to + i <= k < to + len ==> buffer[k] == data[k - to]
    {
      i := i - 1;
      buffer[to + i] := buffer[from + i];
    }
    assert buffer[..] == Splice(before, to, data);
  }
}
