/** 16-bit circular sequence numbers, as the RTP code compares and steps them
    (SeqManager.cpp, instantiated at uint16_t). */
module Seq16 {
  const MOD := 0x1_0000
  const MAX := 0xFFFF

  type u16 = x: int | 0 <= x < 0x1_0000

  /** The residue a uint16_t keeps of an integer. */
  function Wrap(x: int): (r: u16)
  {
    x % MOD
  }

  /** `static_cast<uint16_t>(a - b)`, written without `%`: how far `a` is ahead of `b` on the circle. */
  function Ahead(a: u16, b: u16): (r: u16)
  {
    if a >= b then a - b else a - b + MOD
  }

  lemma AheadIsDifference(a: u16, b: u16)
    ensures Ahead(a, b) == Wrap(a - b)
    ensures Wrap(b + Ahead(a, b)) == a
  {
  }

  /** `++x` on a uint16_t. */
  function Next(x: u16): (r: u16)
  {
    if x == MAX then 0 else x + 1
  }

  /** `n` increments. */
  function Plus(x: u16, n: nat): (r: u16)
    decreases n
  {
    if n == 0 then x else Plus(Next(x), n - 1)
  }

  lemma NextIsSum(x: u16)
    ensures Next(x) == Wrap(x + 1)
  {
  }

  lemma {:induction false} PlusIsSum(x: u16, n: nat)
    ensures Plus(x, n) == Wrap(x + n)
    decreases n
  {
    if n > 0 {
      PlusIsSum(Next(x), n - 1);
      NextIsSum(x);
      WrapAdd(x + 1, n - 1);
    }
  }

  /** `SeqLowerThan::operator()`. */
  predicate Lower(lhs: u16, rhs: u16)
  {
    || (rhs > lhs && rhs - lhs <= MAX / 2)
    || (lhs > rhs && lhs - rhs > MAX / 2)
  }

  /** `SeqHigherThan::operator()`. */
  predicate Higher(lhs: u16, rhs: u16)
  {
    || (lhs > rhs && lhs - rhs <= MAX / 2)
    || (rhs > lhs && rhs - lhs > MAX / 2)
  }

  /** In words: lower means 1..32767 behind, and of two antipodal numbers the larger one is lower. */
  lemma LowerIsAhead(a: u16, b: u16)
    ensures Lower(a, b) <==> 1 <= Ahead(b, a) <= 0x7FFF || (Ahead(b, a) == 0x8000 && a > b)
    ensures a != b ==> (Lower(a, b) <==> !Lower(b, a))
    ensures Higher(a, b) <==> Lower(b, a)
  {
  }

  /** Every element lies in the half circle of `MAX / 2` numbers that starts at `origin`. */
  predicate InWindow(x: u16, origin: u16)
  {
    Ahead(x, origin) <= MAX / 2
  }

  /** Inside such a window the comparator is the order of the distances from its origin, hence a strict total
      order there: irreflexive, transitive and total. */
  lemma LowerIsOrderInWindow(a: u16, b: u16, origin: u16)
    requires InWindow(a, origin) && InWindow(b, origin)
    ensures Lower(a, b) <==> Ahead(a, origin) < Ahead(b, origin)
    ensures a == b <==> Ahead(a, origin) == Ahead(b, origin)
  {
  }

  /** Outside any window it is not an order: three numbers a third of the circle apart form a cycle. */
  lemma LowerIsCyclicOnTheWholeCircle()
    ensures Lower(0, 21845) && Lower(21845, 43690) && Lower(43690, 0)
  {
  }

  /** Two residues of integers compare like the integers whenever these are less than half a circle apart. */
  lemma LowerOfUnwrapped(x: int, y: int)
    requires -0x7FFF <= x - y <= 0x7FFF
    ensures Lower(Wrap(x), Wrap(y)) <==> x < y
    ensures Higher(Wrap(x), Wrap(y)) <==> x > y
    ensures Wrap(x) == Wrap(y) <==> x == y
  {
  }

  /** The distance of two residues is the distance of the integers when that is less than a circle. */
  lemma AheadOfUnwrapped(x: int, y: int)
    requires 0 <= x - y < MOD
    ensures Ahead(Wrap(x), Wrap(y)) == x - y
  {
  }

  lemma AheadOfNext(x: u16, s: u16)
    ensures Ahead(x, Next(s)) == if x == s then MAX else Ahead(x, s) - 1
  {
  }

  lemma WrapAdd(x: int, d: int)
    ensures Wrap(Wrap(x) + d) == Wrap(x + d)
  {
  }

  // ----- std::set and std::map ordered by SeqLowerThan, listed in iteration order

  /** `lower_bound(key)`: the position of the first element that is not lower than `key`. */
  function LowerBound(keys: seq<u16>, key: u16): (r: nat)
    ensures r <= |keys|
    ensures forall i :: 0 <= i < r ==> Lower(keys[i], key)
    ensures r < |keys| ==> !Lower(keys[r], key)
  {
    if keys == [] || !Lower(keys[0], key) then 0 else 1 + LowerBound(keys[1..], key)
  }

  /** `insert(key)`. */
  function InsertKey(keys: seq<u16>, key: u16): seq<u16>
  {
    if key in keys then keys
    else
      var k := LowerBound(keys, key);
      keys[..k] + [key] + keys[k..]
  }
}
