/** The outputs of a SeqManager only grow while its inputs do. */
module SeqManagerOutputs {
  import opened Seq16
  import opened Bytes
  import opened SeqManagers
  import opened SeqManagerForgetting
  import opened SeqManagerLemmas

  /** How many of these drops Input subtracts at `pos`. */
  function Counted(ds: seq<int>, pos: int): nat
  {
    |ds| - Misjudged(ds, pos)
  }

  lemma {:induction false} MisjudgedStays(ds: seq<int>, last: int, pos: int)
    requires last <= pos && forall i :: 0 <= i < |ds| ==> ds[i] <= last && pos - ds[i] < MOD
    ensures Counted(ds, pos) <= Counted(ds, last)
  {
    hide Wrap;
    if ds != [] {
      MisjudgedStays(ds[1..], last, pos);
      WrapOnce(ds[0], last, pos);
    }
  }

  lemma WrapOnce(d: int, last: int, pos: int)
    requires d <= last <= pos < d + MOD
    ensures Wrap(d) > Wrap(last) ==> Wrap(d) > Wrap(pos)
  {
  }

  lemma {:induction false} KeptCountsLess(ds: seq<int>, pos: int, at: int)
    ensures Counted(Kept(ds, pos), at) <= Counted(ds, at)
  {
    hide Wrap, Forgets;
    if ds != [] {
      KeptCountsLess(ds[1..], pos, at);
      if Forgets(pos, ds[0]) {
        assert Kept(ds, pos) == Kept(ds[1..], pos);
      } else {
        assert Kept(ds, pos)[1..] == Kept(ds[1..], pos);
      }
    }
  }

  lemma {:induction false} OneMoreCounts(ds: seq<int>, x: int, pos: int)
    ensures Counted(ds + [x], pos) <= Counted(ds, pos) + 1
  {
    hide Wrap;
    if ds == [] {
      assert (ds + [x])[1..] == [];
    } else {
      OneMoreCounts(ds[1..], x, pos);
      assert (ds + [x])[1..] == ds[1..] + [x];
    }
  }

  /** The output position that the track has reached: what the next one must exceed. */
  function Room(t: Track): int
  {
    t.out + (t.last - t.start) - Counted(t.drops, t.last)
  }

  predicate IsNext(t: Track, pos: int)
  {
    Ascending(t.drops, t.start, t.last) && t.start <= t.last < pos <= t.start + MAX
  }

  lemma DropMakesRoom(t: Track, pos: int)
    requires IsNext(t, pos)
    ensures Room(Dropped(t, pos)) >= Room(t)
  {
    hide Wrap, Misjudged, Accepts;
    MisjudgedStays(t.drops, t.last, pos);
    OneMoreCounts(t.drops, pos, pos);
  }

  lemma PassMakesRoom(t: Track, pos: int)
    requires IsNext(t, pos)
    ensures Compacted(t, pos) > Room(t) && Room(Passed(t, pos)) == Compacted(t, pos)
  {
    hide Wrap, Misjudged, Kept;
    MisjudgedStays(t.drops, t.last, pos);
    KeptCountsLess(t.drops, pos, pos);
  }

  // ----- Late packets

  lemma {:induction false} CountedLater(ds: seq<int>, low: int, pos: int, last: int)
    requires Ascending(ds, low, pos + 1) && pos <= last <= low + MAX
    ensures Counted(ds, last) <= Counted(ds, pos) + if pos + 1 in ds then 1 else 0
  {
    hide Wrap;
    if ds != [] {
      CountedLater(ds[1..], ds[0], pos, last);
      if ds[0] <= pos {
        WrapOnce(ds[0], pos, last);
      } else {
        assert ds[1..] == [];
      }
    }
  }

  /** The drops that count at `pos` lie before it. */
  lemma {:induction false} CountedFits(ds: seq<int>, low: int, high: int, pos: int)
    requires Ascending(ds, low, high) && pos !in ds && low < pos
    requires forall d :: d in ds && d > pos ==> Wrap(d) > Wrap(pos)
    ensures Counted(ds, pos) <= pos - low - 1
  {
    hide Wrap;
    if ds != [] {
      if ds[0] < pos {
        CountedFits(ds[1..], ds[0], high, pos);
      } else {
        NoneCounted(ds, pos);
      }
    }
  }

  lemma {:induction false} NoneCounted(ds: seq<int>, pos: int)
    requires forall d :: d in ds ==> Wrap(d) > Wrap(pos)
    ensures Counted(ds, pos) == 0
  {
    hide Wrap;
    if ds != [] {
      NoneCounted(ds[1..], pos);
    }
  }

  lemma NextNumber(pos: int)
    requires Wrap(pos + 1) != 0
    ensures Wrap(pos + 1) > Wrap(pos)
  {
  }

  /** A late packet stays above what was sent before the synchronization and below what comes, unless the drop right
      after it has number 0. */
  lemma LateMakesRoom(t: Track, pos: int)
    requires Ascending(t.drops, t.start, t.last) && t.last <= t.start + MAX && LateFits(t, pos)
    requires pos + 1 in t.drops ==> Wrap(pos + 1) != 0
    ensures t.out < Compacted(t, pos) <= Room(Late(t, pos)) && Room(t) <= Room(Late(t, pos))
  {
    hide Wrap, Misjudged, Kept, Partitioned, Near;
    var kept := Kept(t.drops, pos);
    KeptIsAscending(t.drops, pos, t.start, t.last);
    KeptCountsLess(t.drops, pos, t.last);
    forall i | 0 <= i < |kept| ensures kept[i] <= pos + 1 && kept[i] in t.drops {
      assert kept[i] in kept;
    }
    if pos + 1 in t.drops {
      NextNumber(pos);
    }
    CountedLater(kept, t.start, pos, t.last);
    CountedFits(kept, t.start, t.last, pos);
  }

  // ----- The highest input and output

  /** maxInput and maxOutput follow what is up to 32766 ahead, and stay where they are for what is up to 32769 behind. */
  lemma TopsFollow(m: State, input: int, top: int, output: int, sent: int)
    requires m.maxInput == Wrap(top) && m.maxOutput == Wrap(sent)
    requires -32769 <= input - top <= 32766 && -32769 <= output - sent <= 32766
    requires Input(m, Wrap(input)).1 == Some(Wrap(output))
    ensures var r := Input(m, Wrap(input)).0;
            && r.maxInput == Wrap(if input > top then input else top)
            && r.maxOutput == Wrap(if output > sent then output else sent)
  {
    hide Wrap, Recent, CountBelow;
    AheadEitherWay(input, top);
    AheadEitherWay(output, sent);
  }

  lemma AheadEitherWay(x: int, y: int)
    requires -32769 <= x - y <= 32766
    ensures Ahead(Wrap(x), Wrap(y)) < 32767 <==> x >= y
    ensures x == y ==> Wrap(x) == Wrap(y)
  {
  }

  // ----- Offset

  /** The same manager, but for the base and what it has sent. */
  predicate ShiftedBy(m: State, d: State, offset: u16)
  {
    d.base == Wrap(m.base + offset) && d.maxInput == m.maxInput && d.dropped == m.dropped
  }

  lemma InputIsShifted(m: State, d: State, offset: u16, input: u16)
    requires ShiftedBy(m, d, offset)
    ensures ShiftedBy(Input(m, input).0, Input(d, input).0, offset)
    ensures Input(d, input).1 == match Input(m, input).1 case None => None case Some(x) => Some(Wrap(x + offset))
  {
    hide Wrap, LowerBound, CountBelow, Ahead;
    assert Recent(d, input) == Recent(m, input);
    SumShifts(m.base, offset, input);
    DifferenceShifts(m.base, CountBelow(Recent(m, input), input), offset, input);
  }

  lemma WrapOfSum(x: int, y: int)
    ensures Wrap(x + Wrap(y)) == Wrap(x + y)
  {
  }

  lemma SumShifts(base: u16, offset: u16, input: u16)
    ensures Wrap(input + Wrap(base + offset)) == Wrap(Wrap(input + base) + offset)
  {
    hide Wrap;
    WrapOfSum(input, base + offset);
    WrapOfSum(offset, input + base);
  }

  lemma DifferenceShifts(base: u16, k: nat, offset: u16, input: u16)
    ensures Wrap(input + Wrap(Wrap(base + offset) - k)) == Wrap(Wrap(input + Wrap(base - k)) + offset)
  {
    hide Wrap;
    WrapOfSum(input - k, base + offset);
    WrapOfSum(input, Wrap(base + offset) - k);
    WrapOfSum(input, base - k);
    WrapOfSum(offset, input + Wrap(base - k));
    WrapOfSum(offset, input + (base - k));
  }

  /** Until the next Sync, every output after Offset is what it would have been, `offset` higher; drops are dropped and
      refusals are refused as before. */
  lemma {:induction false} OffsetShiftsOutputs(m: State, offset: u16, start: int, dropped: seq<bool>)
    ensures var x, y := Feed(m, start, dropped), Feed(Offset(m, offset), start, dropped);
            && ShiftedBy(x.0, y.0, offset)
            && |y.1| == |x.1|
            && forall i :: 0 <= i < |x.1| ==> y.1[i] == Wrap(x.1[i] + offset)
    decreases |dropped|
  {
    hide Wrap, Input, InsertKey, Higher;
    if dropped != [] {
      var n := |dropped| - 1;
      OffsetShiftsOutputs(m, offset, start, dropped[..n]);
      InputIsShifted(Feed(m, start, dropped[..n]).0, Feed(Offset(m, offset), start, dropped[..n]).0, offset,
                     Wrap(start + 1 + n));
    }
  }
}
