/** Which drops a SeqManager still remembers. Input erases all that lower_bound puts before `input - MaxValue / 2`:
    the drops far behind the input, and also those that the input is late for. */
module SeqManagerForgetting {
  import opened Seq16
  import opened Bytes
  import opened SeqManagers

  const HALF := 0x7FFF

  /** An input at `pos` makes the manager forget a drop at `d`: when the drop is more than 32767 behind, or at least two
      ahead. One ahead it is the antipode of the bound, and the plain order of the two numbers decides. */
  predicate Forgets(pos: int, d: int)
  {
    pos - d > HALF || d - pos >= 2 || (d - pos == 1 && Wrap(d) > Wrap(pos - HALF))
  }

  /** The drop and the input are near enough for their numbers to tell where they lie. */
  predicate Near(pos: int, d: int)
  {
    -0x8000 <= pos - d <= 0xFFFE
  }

  lemma WrapOfDifference(x: int, d: int)
    ensures Wrap(Wrap(x) - d) == Wrap(x - d)
  {
  }

  lemma LowerOfBehind(x: int, y: int)
    requires 0x8000 < x - y < MOD
    ensures Lower(Wrap(x), Wrap(y))
  {
  }

  lemma LowerOfAntipode(x: int, y: int)
    requires x - y == 0x8000
    ensures Lower(Wrap(x), Wrap(y)) <==> Wrap(x) > Wrap(y)
  {
  }

  /** The drops that the comparator finds lower than the bound are those to be forgotten. */
  lemma LowerIsForgotten(pos: int, d: int)
    requires Near(pos, d)
    ensures Lower(Wrap(d), Ahead(Wrap(pos), MAX / 2)) <==> Forgets(pos, d)
  {
    hide Wrap;
    var bound := pos - HALF;
    AheadIsDifference(Wrap(pos), MAX / 2);
    WrapOfDifference(pos, MAX / 2);
    if d - pos >= 2 {
      LowerOfBehind(d, bound);
    } else if d - pos == 1 {
      LowerOfAntipode(d, bound);
    } else {
      LowerOfUnwrapped(d, bound);
    }
  }

  /** The keys are the numbers of these positions. */
  predicate Remembers(keys: seq<u16>, ds: seq<int>)
  {
    |keys| == |ds| && forall i :: 0 <= i < |ds| ==> keys[i] == Wrap(ds[i])
  }

  function Kept(ds: seq<int>, pos: int): (r: seq<int>)
    ensures forall d :: d in r <==> d in ds && !Forgets(pos, d)
  {
    if ds == [] then [] else (if Forgets(pos, ds[0]) then [] else [ds[0]]) + Kept(ds[1..], pos)
  }

  predicate AllNear(ds: seq<int>, pos: int)
  {
    forall i :: 0 <= i < |ds| ==> Near(pos, ds[i])
  }

  /** What lower_bound asks for: the keys that are lower come first. */
  predicate Partitioned(ds: seq<int>, pos: int)
  {
    forall i, j :: 0 <= i < j < |ds| && Forgets(pos, ds[j]) ==> Forgets(pos, ds[i])
  }

  lemma {:induction false} KeptAll(ds: seq<int>, pos: int)
    requires forall i :: 0 <= i < |ds| ==> !Forgets(pos, ds[i])
    ensures Kept(ds, pos) == ds
  {
    if ds != [] {
      KeptAll(ds[1..], pos);
      assert ds == [ds[0]] + ds[1..];
    }
  }

  lemma RestRemembers(keys: seq<u16>, ds: seq<int>, pos: int)
    requires Remembers(keys, ds) && AllNear(ds, pos) && Partitioned(ds, pos) && ds != []
    ensures Remembers(keys[1..], ds[1..]) && AllNear(ds[1..], pos) && Partitioned(ds[1..], pos)
  {
    hide Wrap, Forgets, Near;
    assert forall i :: 0 <= i < |ds| - 1 ==> ds[1..][i] == ds[1 + i];
  }

  lemma LowerBoundUnfolds(keys: seq<u16>, key: u16)
    requires keys != []
    ensures LowerBound(keys, key) == if Lower(keys[0], key) then 1 + LowerBound(keys[1..], key) else 0
    ensures var k := LowerBound(keys[1..], key); k <= |keys| - 1 && keys[1..][k..] == keys[1 + k..]
  {
  }

  lemma KeptUnfolds(ds: seq<int>, pos: int)
    requires ds != [] && Partitioned(ds, pos)
    ensures Kept(ds, pos) == if Forgets(pos, ds[0]) then Kept(ds[1..], pos) else ds
  {
    hide Forgets;
    if !Forgets(pos, ds[0]) {
      assert forall i :: 0 <= i < |ds| ==> !Forgets(pos, ds[i]);
      KeptAll(ds, pos);
    }
  }

  lemma FirstRemembered(keys: seq<u16>, ds: seq<int>, pos: int)
    requires Remembers(keys, ds) && AllNear(ds, pos) && ds != []
    ensures keys != [] && (Lower(keys[0], Ahead(Wrap(pos), MAX / 2)) <==> Forgets(pos, ds[0]))
  {
    hide Wrap, Forgets, Lower, Ahead;
    LowerIsForgotten(pos, ds[0]);
  }

  lemma {:induction false} SuffixIsKept(keys: seq<u16>, ds: seq<int>, pos: int)
    requires Remembers(keys, ds) && AllNear(ds, pos) && Partitioned(ds, pos)
    ensures Remembers(keys[LowerBound(keys, Ahead(Wrap(pos), MAX / 2))..], Kept(ds, pos))
  {
    hide Wrap, Forgets, Lower, Ahead, LowerBound, Kept, AllNear, Partitioned;
    if ds == [] {
      assert Kept([], pos) == [] by { KeptAll([], pos); }
    } else {
      FirstRemembered(keys, ds, pos);
      LowerBoundUnfolds(keys, Ahead(Wrap(pos), MAX / 2));
      KeptUnfolds(ds, pos);
      if Forgets(pos, ds[0]) {
        RestRemembers(keys, ds, pos);
        SuffixIsKept(keys[1..], ds[1..], pos);
      } else {
        assert keys[0..] == keys;
      }
    }
  }

  /** The drops that Input still remembers, whether it comes in order or late. */
  lemma RecentIsKept(m: State, ds: seq<int>, pos: int)
    requires Remembers(m.dropped, ds) && AllNear(ds, pos) && Partitioned(ds, pos)
    ensures Remembers(Recent(m, Wrap(pos)), Kept(ds, pos))
  {
    hide Wrap, Forgets;
    SuffixIsKept(m.dropped, ds, pos);
  }

  lemma NumberTells(ds: seq<int>, keys: seq<u16>, pos: int)
    requires Remembers(keys, ds) && AllNear(ds, pos)
    ensures Wrap(pos) in keys <==> pos in ds
  {
    forall i | 0 <= i < |ds| ensures keys[i] == Wrap(pos) <==> ds[i] == pos {
      SameNumber(ds[i], pos);
    }
  }

  lemma SameNumber(x: int, y: int)
    requires -MOD < x - y < MOD
    ensures Wrap(x) == Wrap(y) <==> x == y
  {
  }

  /** One Input: it refuses exactly a remembered number, and forgets exactly what Forgets says. */
  lemma InputForgets(m: State, ds: seq<int>, pos: int)
    requires Remembers(m.dropped, ds) && AllNear(ds, pos) && Partitioned(ds, pos)
    ensures Input(m, Wrap(pos)).1.None? <==> pos in ds
    ensures Remembers(Input(m, Wrap(pos)).0.dropped, Kept(ds, pos))
  {
    hide Wrap, CountBelow, Recent, LowerBound, Partitioned;
    RecentIsKept(m, ds, pos);
    forall i | 0 <= i < |Kept(ds, pos)| ensures Near(pos, Kept(ds, pos)[i]) {
      assert Kept(ds, pos)[i] in ds;
    }
    NumberTells(Kept(ds, pos), Recent(m, Wrap(pos)), pos);
    assert !Forgets(pos, pos);
  }

  // ----- Any number of inputs, in any order

  function Inputs(m: State, ps: seq<int>): State
    decreases |ps|
  {
    if ps == [] then m else Input(Inputs(m, ps[..|ps| - 1]), Wrap(ps[|ps| - 1])).0
  }

  /** What is left of the drops after these inputs. */
  function Remaining(ds: seq<int>, ps: seq<int>): (r: seq<int>)
    ensures forall d :: d in r <==> d in ds && forall i :: 0 <= i < |ps| ==> !Forgets(ps[i], d)
    decreases |ps|
  {
    if ps == [] then ds
    else
      var n := |ps| - 1;
      var before := Remaining(ds, ps[..n]);
      assert forall d :: (forall i :: 0 <= i < |ps| ==> !Forgets(ps[i], d)) <==>
                         (forall i :: 0 <= i < n ==> !Forgets(ps[..n][i], d)) && !Forgets(ps[n], d);
      Kept(before, ps[n])
  }

  /** Every input finds the set partitioned by its bound. */
  predicate Ordered(ds: seq<int>, ps: seq<int>)
  {
    forall n :: 0 <= n < |ps| ==> AllNear(Remaining(ds, ps[..n]), ps[n]) && Partitioned(Remaining(ds, ps[..n]), ps[n])
  }

  lemma {:induction false} InputsRemember(m: State, ds: seq<int>, ps: seq<int>)
    requires Remembers(m.dropped, ds) && Ordered(ds, ps)
    ensures Remembers(Inputs(m, ps).dropped, Remaining(ds, ps))
    decreases |ps|
  {
    hide Wrap, Input, Remembers, Partitioned, AllNear, Kept;
    if ps != [] {
      var n := |ps| - 1;
      assert forall k :: 0 <= k < n ==> ps[..n][..k] == ps[..k];
      InputsRemember(m, ds, ps[..n]);
      InputForgets(Inputs(m, ps[..n]), Remaining(ds, ps[..n]), ps[n]);
    }
  }

  /** A dropped number is refused afterwards exactly when no input in between made the manager forget it. */
  lemma RefusedIff(m: State, ds: seq<int>, ps: seq<int>, d: int)
    requires Remembers(m.dropped, ds) && Ordered(ds, ps + [d])
    ensures Input(Inputs(m, ps), Wrap(d)).1.None? <==> d in ds && forall i :: 0 <= i < |ps| ==> !Forgets(ps[i], d)
  {
    hide Wrap, Input, Remembers, Partitioned, AllNear, Kept, Forgets;
    var all := ps + [d];
    assert forall k :: 0 <= k <= |ps| ==> all[..k] == ps[..k];
    assert ps[..|ps|] == ps;
    assert Ordered(ds, ps);
    InputsRemember(m, ds, ps);
    assert all[|ps|] == d;
    InputForgets(Inputs(m, ps), Remaining(ds, ps), d);
  }

  /** A single drop, whatever inputs come: with one key every set is partitioned. */
  lemma SingleDropRefusedIff(m: State, d: int, ps: seq<int>)
    requires m.dropped == [] && Higher(Wrap(d), m.maxInput)
    requires forall i :: 0 <= i < |ps| ==> Near(ps[i], d)
    ensures Input(Inputs(Drop(m, Wrap(d)), ps), Wrap(d)).1.None? <==> forall i :: 0 <= i < |ps| ==> !Forgets(ps[i], d)
  {
    hide Wrap, Input, Forgets;
    var all := ps + [d];
    forall n | 0 <= n < |all|
      ensures AllNear(Remaining([d], all[..n]), all[n]) && Partitioned(Remaining([d], all[..n]), all[n])
    {
      AtMostOne(d, all[..n]);
      assert Near(all[n], d);
    }
    assert Drop(m, Wrap(d)).dropped == [Wrap(d)];
    RefusedIff(Drop(m, Wrap(d)), [d], ps, d);
  }

  lemma {:induction false} AtMostOne(d: int, ps: seq<int>)
    ensures Remaining([d], ps) == [] || Remaining([d], ps) == [d]
    decreases |ps|
  {
    hide Forgets;
    if ps != [] {
      AtMostOne(d, ps[..|ps| - 1]);
      assert [d][1..] == [] && Kept([], ps[|ps| - 1]) == [];
      assert Kept([d], ps[|ps| - 1]) == if Forgets(ps[|ps| - 1], d) then [] else [d];
    }
  }

  /** An input between two remembered drops finds the set in no order at all: the earlier drop is lower than the later
      one, the later one lower than the bound, but the earlier one is not. Which drops are then erased is up to the
      shape of the tree. */
  lemma InputBetweenDrops(pos: int, d1: int, d2: int)
    requires 0 <= pos - d1 && 2 <= d2 - pos && d2 - d1 <= HALF
    ensures var bound := Ahead(Wrap(pos), MAX / 2);
            Lower(Wrap(d1), Wrap(d2)) && Lower(Wrap(d2), bound) && !Lower(Wrap(d1), bound)
    ensures !Partitioned([d1, d2], pos)
  {
    hide Wrap;
    LowerOfUnwrapped(d1, d2);
    LowerIsForgotten(pos, d1);
    LowerIsForgotten(pos, d2);
    var ds := [d1, d2];
    assert Forgets(pos, ds[1]) && !Forgets(pos, ds[0]);
  }

  /** A drop half a circle or more after a remembered one is put before it, at exactly half a circle when its number is
      the larger one: the set is out of order from then on. */
  lemma DistantDropSortsFirst(d: int, x: int)
    requires 0x8000 <= x - d < MOD && (x - d == 0x8000 ==> Wrap(x) > Wrap(d))
    ensures Lower(Wrap(x), Wrap(d)) && InsertKey([Wrap(d)], Wrap(x)) == [Wrap(x), Wrap(d)]
  {
    hide Wrap;
    if x - d == 0x8000 {
      LowerOfAntipode(x, d);
    } else {
      LowerOfBehind(x, d);
    }
    SameNumber(x, d);
    InsertBefore(Wrap(d), Wrap(x));
  }

  /** An example, as far as the list that stands for the set goes: 1 is still remembered when 32769 is dropped, so 32770
      erases neither, although it is 32769 after the first. */
  lemma DisorderedSetForgetsNothing(base: u16)
    ensures var m := Drop(State(base, 0, 32768, [1]), 32769);
            && m.dropped == [32769, 1]
            && Recent(m, 32770) == [32769, 1]
            && Input(m, 32770).1 == Some(Wrap(32770 + Wrap(base - 2)))
  {
    var m := Drop(State(base, 0, 32768, [1]), 32769);
    InsertBefore(1, 32769);
    assert m.dropped == [32769, 1];
    assert LowerBound(m.dropped, Ahead(32770, MAX / 2)) == 0;
    assert m.dropped[0..] == m.dropped;
    assert m.dropped[1..] == [1] && m.dropped[1..][1..] == [];
    assert CountBelow([1], 32770) == 1 && CountBelow(m.dropped, 32770) == 2;
  }

  lemma InsertBefore(a: u16, b: u16)
    requires a != b && Lower(b, a)
    ensures InsertKey([a], b) == [b, a]
  {
    assert LowerBound([a], b) == 0;
  }

  lemma InsertAfter(a: u16, b: u16)
    requires a != b && Lower(a, b)
    ensures InsertKey([a], b) == [a, b]
  {
    assert [a][1..] == [];
    assert LowerBound([a], b) == 1;
  }
}
