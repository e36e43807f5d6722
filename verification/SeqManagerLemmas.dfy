/** What renumbering does to a stream with holes: between two synchronizations the numbers dropped on purpose are
    squeezed out, so that what is sent is numbered without gaps. */
module SeqManagerLemmas {
  import opened Seq16
  import opened Bytes
  import opened SeqManagers
  import opened SeqManagerForgetting

  /** The manager was synchronized at position `start`, to continue after output position `out`; it was told of the
      positions up to `last`, `drops` are those it remembers as dropped, and `top` is the one its maxInput stands for. */
  datatype Track = Track(start: int, out: int, drops: seq<int>, top: int, last: int)

  predicate Ascending(ds: seq<int>, low: int, high: int)
  {
    && (forall i :: 0 <= i < |ds| ==> low < ds[i] <= high)
    && (forall i, j :: 0 <= i < j < |ds| ==> ds[i] < ds[j])
  }

  /** On the drops in the set the comparator is an order. */
  predicate HalfCircle(ds: seq<int>)
  {
    ds != [] ==> ds[|ds| - 1] - ds[0] <= HALF
  }

  predicate Follows(m: State, t: Track)
  {
    && t.start <= t.top <= t.last <= t.start + MAX
    && Ascending(t.drops, t.start, t.last)
    && HalfCircle(t.drops)
    && m.maxInput == Wrap(t.top)
    && m.base == Wrap(t.out - t.start)
    && Remembers(m.dropped, t.drops)
  }

  lemma SyncFollows(m: State, start: int, out: int)
    requires m.maxOutput == Wrap(out)
    ensures Follows(Sync(m, Wrap(start)), Track(start, out, [], start, start))
  {
    AheadIsDifference(m.maxOutput, Wrap(start));
  }

  // ----- Drop

  /** Drop looks ahead by half a circle: a drop further ahead of maxInput is refused. */
  predicate Accepts(t: Track, pos: int)
  {
    0 < pos - t.top <= HALF || (pos - t.top == HALF + 1 && Wrap(pos) < Wrap(t.top))
  }

  lemma HigherIsAccepted(t: Track, pos: int)
    requires 0 <= pos - t.top < MOD
    ensures Higher(Wrap(pos), Wrap(t.top)) <==> Accepts(t, pos)
  {
    hide Wrap;
    if pos - t.top <= HALF {
      LowerOfUnwrapped(pos, t.top);
    } else if pos - t.top == HALF + 1 {
      HigherOfAntipode(pos, t.top);
    } else {
      NotHigherBeyond(pos, t.top);
    }
  }

  lemma HigherOfAntipode(x: int, y: int)
    requires x - y == HALF + 1
    ensures Higher(Wrap(x), Wrap(y)) <==> Wrap(x) < Wrap(y)
  {
  }

  lemma NotHigherBeyond(x: int, y: int)
    requires HALF + 1 < x - y < MOD
    ensures !Higher(Wrap(x), Wrap(y))
  {
  }

  function Dropped(t: Track, pos: int): Track
  {
    if Accepts(t, pos) && pos !in t.drops then t.(drops := t.drops + [pos], last := pos) else t.(last := pos)
  }

  lemma DropFollows(m: State, t: Track, pos: int)
    requires Follows(m, t) && t.last <= pos <= t.start + MAX
    requires Accepts(t, pos) && t.drops != [] ==> pos - t.drops[0] <= HALF
    ensures Follows(Drop(m, Wrap(pos)), Dropped(t, pos))
  {
    hide Wrap, Lower, Higher, InsertKey;
    HigherIsAccepted(t, pos);
    if Accepts(t, pos) {
      InsertedLast(m.dropped, t.drops, pos);
      if pos !in t.drops {
        assert forall i :: 0 <= i < |t.drops| ==> t.drops[i] in t.drops && t.drops[i] < pos;
      }
    }
  }

  /** A drop at or behind the last one goes to the end of the set. */
  lemma InsertedLast(keys: seq<u16>, ds: seq<int>, pos: int)
    requires Remembers(keys, ds) && (ds != [] ==> pos - ds[0] <= HALF)
    requires forall i, j :: 0 <= i < j < |ds| ==> ds[i] < ds[j]
    requires forall i :: 0 <= i < |ds| ==> ds[i] <= pos
    ensures InsertKey(keys, Wrap(pos)) == if pos in ds then keys else keys + [Wrap(pos)]
  {
    hide Wrap, Lower;
    forall i | 0 <= i < |ds|
      ensures Lower(keys[i], Wrap(pos)) <==> ds[i] < pos
      ensures keys[i] == Wrap(pos) <==> ds[i] == pos
    {
      assert ds[0] <= ds[i];
      LowerOfUnwrapped(ds[i], pos);
    }
    if pos !in ds {
      assert LowerBound(keys, Wrap(pos)) == |keys|;
    }
  }

  // ----- Input

  /** The drops whose number the plain comparison takes for later ones: those on the other side of the wrap. */
  function Misjudged(drops: seq<int>, pos: int): (r: nat)
    ensures r <= |drops|
  {
    if drops == [] then 0 else (if Wrap(drops[0]) > Wrap(pos) then 1 else 0) + Misjudged(drops[1..], pos)
  }

  lemma {:induction false} CountSplits(keys: seq<u16>, drops: seq<int>, pos: int)
    requires |keys| == |drops| && forall i :: 0 <= i < |drops| ==> keys[i] == Wrap(drops[i]) != Wrap(pos)
    ensures CountBelow(keys, Wrap(pos)) + Misjudged(drops, pos) == |drops|
  {
    hide Wrap;
    if keys != [] {
      CountSplits(keys[1..], drops[1..], pos);
    }
  }

  /** In ascending calls only drops more than 32767 behind are forgotten. */
  lemma ForgetsBehind(t: Track, pos: int)
    requires Ascending(t.drops, t.start, t.last) && t.last <= pos <= t.start + MAX
    ensures AllNear(t.drops, pos) && Partitioned(t.drops, pos)
    ensures forall d :: d in t.drops ==> (Forgets(pos, d) <==> pos - d > HALF)
  {
    hide Wrap;
    forall i | 0 <= i < |t.drops| ensures Forgets(pos, t.drops[i]) <==> pos - t.drops[i] > HALF {
    }
  }

  lemma {:induction false} KeptIsAscending(ds: seq<int>, pos: int, low: int, high: int)
    requires Ascending(ds, low, high)
    ensures Ascending(Kept(ds, pos), low, high)
  {
    hide Forgets;
    if ds != [] {
      KeptIsAscending(ds[1..], pos, ds[0], high);
    }
  }

  lemma KeptInHalfCircle(ds: seq<int>, pos: int, low: int, high: int)
    requires Ascending(ds, low, high) && HalfCircle(ds)
    ensures HalfCircle(Kept(ds, pos))
  {
    hide Forgets, Kept;
    var kept := Kept(ds, pos);
    if kept != [] {
      var x, y := kept[0], kept[|kept| - 1];
      assert x in kept && y in kept;
      assert ds[0] <= x && y <= ds[|ds| - 1];
    }
  }

  /** The number given to a position that was not dropped: only the drops still remembered are subtracted, and of them
      not those across the wrap of the 16-bit counter. */
  function Compacted(t: Track, pos: int): int
  {
    t.out + (pos - t.start) - |Kept(t.drops, pos)| + Misjudged(Kept(t.drops, pos), pos)
  }

  function Passed(t: Track, pos: int): Track
  {
    Track(t.start, t.out, Kept(t.drops, pos), if pos !in t.drops && pos - t.top < HALF then pos else t.top, pos)
  }

  lemma OutputIsCompacted(m: State, t: Track, pos: int)
    requires Follows(m, t) && AllNear(t.drops, pos) && Partitioned(t.drops, pos) && pos !in t.drops
    ensures var recent := Recent(m, Wrap(pos));
            var base := if m.dropped == [] then m.base else Wrap(m.base - CountBelow(recent, Wrap(pos)));
            Wrap(Wrap(pos) + base) == Wrap(Compacted(t, pos))
  {
    hide Wrap, Recent, Forgets, Partitioned, Kept;
    RecentIsKept(m, t.drops, pos);
    var recent, kept := Recent(m, Wrap(pos)), Kept(t.drops, pos);
    forall i | 0 <= i < |kept| ensures recent[i] == Wrap(kept[i]) != Wrap(pos) {
      assert kept[i] in t.drops;
      SameNumber(kept[i], pos);
    }
    CountSplits(recent, kept, pos);
    var count := CountBelow(recent, Wrap(pos));
    if m.dropped == [] {
      NothingKept(t.drops, pos);
      WrapOfSum(pos, t.out - t.start);
    } else {
      WrapOfDifference(t.out - t.start, count);
      WrapOfSum(pos, t.out - t.start - count);
    }
    assert Compacted(t, pos) == pos + (t.out - t.start - count);
  }

  lemma NothingKept(ds: seq<int>, pos: int)
    requires ds == []
    ensures Kept(ds, pos) == [] && Misjudged([], pos) == 0
  {
  }

  /** Input, after ascending calls over less than a circle: it refuses exactly the drops it remembers, forgets those
      more than 32767 behind, and gives any other number its distance from the synchronized one minus the number of
      remembered drops before it. Only drops across the wrap of the 16-bit counter are not subtracted. */
  lemma InputIsCompacted(m: State, t: Track, pos: int)
    requires Follows(m, t) && t.last <= pos <= t.start + MAX
    ensures Input(m, Wrap(pos)).1 == if pos in t.drops then None else Some(Wrap(Compacted(t, pos)))
    ensures Follows(Input(m, Wrap(pos)).0, Passed(t, pos))
    ensures forall d :: d in Passed(t, pos).drops <==> d in t.drops && pos - d <= HALF
  {
    hide Wrap, Compacted, CountBelow, Recent, Forgets, Partitioned, Kept;
    ForgetsBehind(t, pos);
    InputForgets(m, t.drops, pos);
    KeptIsAscending(t.drops, pos, t.start, t.last);
    KeptInHalfCircle(t.drops, pos, t.start, t.last);
    AheadOfUnwrapped(pos, t.top);
    if pos !in t.drops {
      OutputIsCompacted(m, t, pos);
    }
  }

  lemma WrapOfSum(x: int, y: int)
    ensures Wrap(Wrap(x) + Wrap(y)) == Wrap(x + y)
  {
  }

  /** After a late packet: the drops that it is late for are forgotten too. */
  function Late(t: Track, pos: int): Track
  {
    t.(drops := Kept(t.drops, pos), top := if 0 < pos - t.top < HALF then pos else t.top)
  }

  /** A late packet is no remembered drop, and finds the set partitioned by its bound. */
  predicate LateFits(t: Track, pos: int)
  {
    && t.start < pos <= t.last && t.top - pos <= HALF
    && pos !in t.drops && AllNear(t.drops, pos) && Partitioned(t.drops, pos)
  }

  /** A late number is compacted by the drops still remembered after it, and leaves maxInput alone. */
  lemma LateIsCompacted(m: State, t: Track, pos: int)
    requires Follows(m, t) && LateFits(t, pos)
    ensures Input(m, Wrap(pos)).1 == Some(Wrap(Compacted(t, pos)))
    ensures Follows(Input(m, Wrap(pos)).0, Late(t, pos))
  {
    hide Wrap, Compacted, CountBelow, Recent, Forgets, Partitioned, Kept;
    InputForgets(m, t.drops, pos);
    KeptIsAscending(t.drops, pos, t.start, t.last);
    KeptInHalfCircle(t.drops, pos, t.start, t.last);
    OutputIsCompacted(m, t, pos);
    if pos >= t.top {
      AheadOfUnwrapped(pos, t.top);
    } else {
      AheadOfLate(pos, t.top);
    }
  }

  lemma AheadOfLate(pos: int, top: int)
    requires 0 < top - pos <= HALF
    ensures Ahead(Wrap(pos), Wrap(top)) > HALF
  {
  }

  // ----- A stream without losses, of which some packets are dropped on purpose

  /** One call per number after `start`: Drop where `dropped` says so, Input elsewhere. Returns the outputs. */
  function Feed(m: State, start: int, dropped: seq<bool>): (State, seq<u16>)
    decreases |dropped|
  {
    if dropped == [] then (m, [])
    else
      var n := |dropped| - 1;
      var (m1, outputs) := Feed(m, start, dropped[..n]);
      if dropped[n] then (Drop(m1, Wrap(start + 1 + n)), outputs)
      else
        var (m2, r) := Input(m1, Wrap(start + 1 + n));
        (m2, if r.Some? then outputs + [r.value] else outputs)
  }

  function TrackOf(start: int, out: int, dropped: seq<bool>): (t: Track)
    ensures t.start == start && t.out == out && t.last == start + |dropped|
    decreases |dropped|
  {
    if dropped == [] then Track(start, out, [], start, start)
    else
      var n := |dropped| - 1;
      var t := TrackOf(start, out, dropped[..n]);
      if dropped[n] then Dropped(t, start + 1 + n) else Passed(t, start + 1 + n)
  }

  /** All that were dropped. */
  function Drops(start: int, dropped: seq<bool>): (r: seq<int>)
    ensures |r| <= |dropped|
    ensures Ascending(r, start, start + |dropped|)
    ensures forall i :: 0 <= i < |dropped| ==> (dropped[i] <==> start + 1 + i in r)
    decreases |dropped|
  {
    if dropped == [] then []
    else
      var n := |dropped| - 1;
      var before := Drops(start, dropped[..n]);
      assert forall i :: 0 <= i < n ==> dropped[..n][i] == dropped[i];
      if dropped[n] then before + [start + 1 + n] else before
  }

  /** Nothing is dropped while a drop more than 32767 earlier is still remembered: a packet sent in between has made the
      manager forget it. Streams of up to 32768 numbers are always like that; without it the comparator of the set is no
      order on its keys. */
  predicate Orderly(dropped: seq<bool>)
  {
    forall i, j :: 0 <= j < i < |dropped| && dropped[i] && dropped[j] && i - j > HALF ==> Overtaken(dropped, j, i)
  }

  /** Between the two a packet more than 32767 after the first one was sent. */
  predicate Overtaken(dropped: seq<bool>, j: nat, i: nat)
    requires i < |dropped|
  {
    exists k :: j < k < i && !dropped[k] && k - j > HALF
  }

  lemma OrderlyPrefix(dropped: seq<bool>, n: nat)
    requires Orderly(dropped) && n <= |dropped|
    ensures Orderly(dropped[..n])
  {
    var before := dropped[..n];
    assert forall i :: 0 <= i < n ==> before[i] == dropped[i];
    forall i, j | 0 <= j < i < n && before[i] && before[j] && i - j > HALF ensures Overtaken(before, j, i) {
      assert dropped[i] && dropped[j];
      assert Overtaken(dropped, j, i);
      var k :| j < k < i && !dropped[k] && k - j > HALF;
      assert !before[k];
    }
  }

  /** Some drop is 32767 or more behind, so that the next packet makes the manager forget it, or has done so already. */
  predicate Stale(dropped: seq<bool>)
  {
    exists w :: 0 <= w && w + HALF + 1 <= |dropped| && dropped[w]
  }

  /** What the manager remembers of a stream: only drops, and none that a sent packet has made it forget. */
  predicate OnlyRecent(t: Track, dropped: seq<bool>)
    requires t.last == t.start + |dropped|
  {
    forall d :: d in t.drops ==>
      t.start < d <= t.last && dropped[d - t.start - 1] && NotOvertaken(dropped, d - t.start - 1)
  }

  predicate NotOvertaken(dropped: seq<bool>, j: int)
  {
    forall k :: 0 <= k < |dropped| && !dropped[k] ==> k - j <= HALF
  }

  /** It remembers all of them, as long as none is stale. */
  predicate AllRecent(t: Track, dropped: seq<bool>)
  {
    Stale(dropped) || forall i :: 0 <= i < |dropped| && dropped[i] ==> t.start + 1 + i in t.drops
  }

  /** Its maxInput lags behind the last number only while the next one was dropped. */
  predicate LagsBehindDrop(t: Track, dropped: seq<bool>)
    requires t.last == t.start + |dropped|
  {
    t.start <= t.top <= t.last && (t.top < t.last ==> dropped[t.top - t.start])
  }

  predicate Remembered(t: Track, dropped: seq<bool>)
    requires t.last == t.start + |dropped|
  {
    OnlyRecent(t, dropped) && AllRecent(t, dropped) && LagsBehindDrop(t, dropped)
  }

  lemma StaleGrows(dropped: seq<bool>)
    requires dropped != [] && Stale(dropped[..|dropped| - 1])
    ensures Stale(dropped)
  {
    var w :| 0 <= w && w + HALF + 1 <= |dropped| - 1 && dropped[..|dropped| - 1][w];
    assert dropped[w];
  }

  lemma IsStale(dropped: seq<bool>, w: nat)
    requires w + HALF + 1 <= |dropped| && dropped[w]
    ensures Stale(dropped)
  {
  }

  lemma OneMore(dropped: seq<bool>, x: bool, j: int)
    requires NotOvertaken(dropped, j) && (!x ==> |dropped| - j <= HALF)
    ensures NotOvertaken(dropped + [x], j)
  {
  }

  lemma DropIsRemembered(t: Track, before: seq<bool>)
    requires t.last == t.start + |before| && Remembered(t, before)
    ensures Remembered(Dropped(t, t.last + 1), before + [true])
  {
    hide Wrap, Stale, NotOvertaken, Accepts;
    var r, dropped := Dropped(t, t.last + 1), before + [true];
    assert dropped[..|before|] == before;
    forall d | d in r.drops ensures t.start < d <= r.last && dropped[d - t.start - 1] && NotOvertaken(dropped, d - t.start - 1) {
      if d in t.drops {
        OneMore(before, true, d - t.start - 1);
      } else {
        NewIsNotOvertaken(dropped);
      }
    }
    DropKeepsAll(t, before);
  }

  lemma NewIsNotOvertaken(dropped: seq<bool>)
    ensures NotOvertaken(dropped, |dropped| - 1)
  {
  }

  lemma DropKeepsAll(t: Track, before: seq<bool>)
    requires t.last == t.start + |before| && AllRecent(t, before) && LagsBehindDrop(t, before)
    ensures AllRecent(Dropped(t, t.last + 1), before + [true])
  {
    hide Wrap, Stale;
    var r, dropped := Dropped(t, t.last + 1), before + [true];
    assert dropped[..|before|] == before;
    if Stale(before) {
      StaleGrows(dropped);
    } else if !Accepts(t, t.last + 1) {
      IsStale(dropped, t.top - t.start);
    } else {
      forall i | 0 <= i < |dropped| && dropped[i] ensures t.start + 1 + i in r.drops {
        if i < |before| {
          assert before[i];
        } else {
          assert t.last + 1 in r.drops;
        }
      }
    }
  }

  lemma PassIsRemembered(t: Track, before: seq<bool>)
    requires t.last == t.start + |before| && Remembered(t, before)
    ensures Remembered(Passed(t, t.last + 1), before + [false])
  {
    hide Wrap, Stale, NotOvertaken;
    var r, dropped := Passed(t, t.last + 1), before + [false];
    assert dropped[..|before|] == before;
    forall d | d in r.drops ensures t.start < d <= r.last && dropped[d - t.start - 1] && NotOvertaken(dropped, d - t.start - 1) {
      assert d in t.drops && !Forgets(t.last + 1, d);
      OneMore(before, false, d - t.start - 1);
    }
    PassKeepsAll(t, before);
    assert LagsBehindDrop(r, dropped) by {
      assert t.top < t.last ==> dropped[t.top - t.start] == before[t.top - t.start];
    }
  }

  lemma PassKeepsAll(t: Track, before: seq<bool>)
    requires t.last == t.start + |before| && AllRecent(t, before)
    ensures AllRecent(Passed(t, t.last + 1), before + [false])
  {
    hide Wrap, Stale;
    var r, dropped := Passed(t, t.last + 1), before + [false];
    assert dropped[..|before|] == before;
    if Stale(before) {
      StaleGrows(dropped);
    } else if !Stale(dropped) {
      forall i | 0 <= i < |dropped| && dropped[i] ensures t.start + 1 + i in r.drops {
        assert before[i] && t.start + 1 + i in t.drops;
        if i + HALF + 1 <= |dropped| {
          IsStale(dropped, i);
        }
      }
    }
  }

  lemma {:induction false} TrackIsRemembered(start: int, out: int, dropped: seq<bool>)
    ensures Remembered(TrackOf(start, out, dropped), dropped)
    decreases |dropped|
  {
    hide Remembered, Dropped, Passed;
    if dropped == [] {
      NothingDropped(start, out);
    } else {
      var n := |dropped| - 1;
      var t := TrackOf(start, out, dropped[..n]);
      assert dropped == dropped[..n] + [dropped[n]];
      TrackIsRemembered(start, out, dropped[..n]);
      if dropped[n] {
        DropIsRemembered(t, dropped[..n]);
      } else {
        PassIsRemembered(t, dropped[..n]);
      }
    }
  }

  lemma NothingDropped(start: int, out: int)
    ensures Remembered(Track(start, out, [], start, start), [])
  {
  }

  /** In an orderly stream the next drop stays within half a circle of those remembered. */
  lemma DropStaysOrdered(t: Track, dropped: seq<bool>)
    requires dropped != [] && dropped[|dropped| - 1] && Orderly(dropped)
    requires t.last == t.start + |dropped| - 1 && OnlyRecent(t, dropped[..|dropped| - 1])
    ensures forall d :: d in t.drops ==> t.last + 1 - d <= HALF
  {
    hide NotOvertaken, Overtaken;
    var n := |dropped| - 1;
    var before := dropped[..n];
    forall d | d in t.drops ensures t.last + 1 - d <= HALF {
      var j := d - t.start - 1;
      assert dropped[j] == before[j];
      NotBoth(dropped, j, n);
    }
  }

  lemma NotBoth(dropped: seq<bool>, j: nat, n: nat)
    requires n <= |dropped| && NotOvertaken(dropped[..n], j)
    ensures n < |dropped| ==> !Overtaken(dropped, j, n)
  {
    assert forall k :: 0 <= k < n ==> dropped[..n][k] == dropped[k];
  }

  lemma {:induction false} FeedFollows(m: State, start: int, out: int, dropped: seq<bool>)
    requires m.maxOutput == Wrap(out) && |dropped| <= MAX && Orderly(dropped)
    ensures var (r, outputs) := Feed(Sync(m, Wrap(start)), start, dropped);
            && Follows(r, TrackOf(start, out, dropped))
            && |outputs| + |Drops(start, dropped)| == |dropped|
    decreases |dropped|
  {
    hide Wrap, Drop, Input, Sync, Follows, Orderly, Remembered, OnlyRecent, Accepts, Dropped, Passed;
    if dropped == [] {
      SyncFollows(m, start, out);
    } else {
      var n := |dropped| - 1;
      var before := dropped[..n];
      OrderlyPrefix(dropped, n);
      FeedFollows(m, start, out, before);
      TrackIsRemembered(start, out, before);
      var m1, t := Feed(Sync(m, Wrap(start)), start, before).0, TrackOf(start, out, before);
      if dropped[n] {
        RecentOnly(t, before);
        DropStaysOrdered(t, dropped);
        assert t.drops != [] ==> t.drops[0] in t.drops;
        DropFollows(m1, t, start + 1 + n);
      } else {
        NextIsNew(m1, t);
        InputIsCompacted(m1, t, start + 1 + n);
      }
    }
  }

  lemma RecentOnly(t: Track, dropped: seq<bool>)
    requires t.last == t.start + |dropped| && Remembered(t, dropped)
    ensures OnlyRecent(t, dropped)
  {
  }

  lemma NextIsNew(m: State, t: Track)
    requires Follows(m, t)
    ensures t.last + 1 !in t.drops
  {
  }

  lemma FeedLast(m: State, start: int, out: int, dropped: seq<bool>)
    requires m.maxOutput == Wrap(out) && 0 < |dropped| <= MAX && Orderly(dropped)
    ensures var n := |dropped| - 1;
            var outputs := Feed(Sync(m, Wrap(start)), start, dropped[..n]).1;
            Feed(Sync(m, Wrap(start)), start, dropped).1 ==
              if dropped[n] then outputs
              else outputs + [Wrap(Compacted(TrackOf(start, out, dropped[..n]), start + 1 + n))]
  {
    hide Wrap, Drop, Input, Sync, Follows, Compacted, TrackOf, Orderly, Drops, Passed;
    var n := |dropped| - 1;
    OrderlyPrefix(dropped, n);
    FeedFollows(m, start, out, dropped[..n]);
    if !dropped[n] {
      var m1, t := Feed(Sync(m, Wrap(start)), start, dropped[..n]).0, TrackOf(start, out, dropped[..n]);
      NextIsNew(m1, t);
      InputIsCompacted(m1, t, start + 1 + n);
    }
  }

  lemma DropsFit(start: int, dropped: seq<bool>)
    ensures |Drops(start, dropped)| <= |dropped|
  {
  }

  /** The n-th number leaves as the next output after those sent before it, shifted by the drops that were forgotten or
      misjudged. */
  lemma {:induction false} FeedOutputs(m: State, start: int, out: int, dropped: seq<bool>, n: nat)
    requires m.maxOutput == Wrap(out) && n < |dropped| <= MAX && !dropped[n] && Orderly(dropped)
    ensures var outputs := Feed(Sync(m, Wrap(start)), start, dropped).1;
            var k := n - |Drops(start, dropped[..n])|;
            && 0 <= k < |outputs|
            && outputs[k] == Wrap(Compacted(TrackOf(start, out, dropped[..n]), start + 1 + n))
    decreases |dropped|
  {
    hide Wrap, Sync, Follows, Feed, TrackOf, Compacted, Orderly, Drops;
    var last := |dropped| - 1;
    DropsFit(start, dropped[..n]);
    FeedLast(m, start, out, dropped);
    OrderlyPrefix(dropped, last);
    if n == last {
      FeedFollows(m, start, out, dropped[..n]);
    } else {
      FeedOutputs(m, start, out, dropped[..last], n);
      assert dropped[..last][..n] == dropped[..n];
    }
  }

  // ----- When there is no gap

  lemma {:induction false} MisjudgedNone(drops: seq<int>, pos: int)
    ensures Misjudged(drops, pos) == 0 <==> forall d :: d in drops ==> Wrap(d) <= Wrap(pos)
  {
    hide Wrap;
    if drops != [] {
      MisjudgedNone(drops[1..], pos);
      assert drops == [drops[0]] + drops[1..];
    }
  }

  /** An ascending list inside another one is not longer, and as long only when it is the same. */
  lemma {:induction false} SublistLength(a: seq<int>, b: seq<int>, low: int, high: int)
    requires Ascending(a, low, high) && Ascending(b, low, high) && forall x :: x in a ==> x in b
    ensures |a| <= |b| && (|a| == |b| ==> a == b)
    decreases |b|
  {
    hide Ascending;
    if a != [] {
      assert a[|a| - 1] in a;
      var x, y := a[|a| - 1], b[|b| - 1];
      var a', b' := a[..|a| - 1], b[..|b| - 1];
      InitOf(a, a', x, low, high);
      InitOf(b, b', y, low, high);
      if x == y {
        forall z | z in a' ensures z in b' {
          assert z in a && z != x;
        }
        SublistLength(a', b', low, high);
      } else {
        assert x in a && x in b;
        forall z | z in a ensures z in b' {
          assert z in b && (z in a' || z == x);
          assert x in b' && x < y;
        }
        SublistLength(a, b', low, high);
      }
    }
  }

  lemma InitOf(a: seq<int>, init: seq<int>, last: int, low: int, high: int)
    requires Ascending(a, low, high) && a != [] && init == a[..|a| - 1] && last == a[|a| - 1]
    ensures Ascending(init, low, high) && a == init + [last]
    ensures forall x :: x in a ==> x in init || x == last
    ensures forall x :: x in init ==> x in a
    ensures forall x :: x in init ==> x < last
  {
  }

  /** Every drop before the n-th number is at most 32767 behind it, and has a smaller 16-bit number. */
  predicate CountsAll(start: int, dropped: seq<bool>, n: nat)
    requires n < |dropped|
  {
    forall i :: 0 <= i < n && dropped[i] ==> n - i <= HALF && Wrap(start + 1 + i) <= Wrap(start + 1 + n)
  }

  /** So it is for every number that is sent. */
  predicate CountsAllThroughout(start: int, dropped: seq<bool>)
  {
    forall n :: 0 <= n < |dropped| && !dropped[n] ==> CountsAll(start, dropped, n)
  }

  /** The outputs are the numbers right after `out`, one by one. */
  predicate Gapless(outputs: seq<u16>, out: int)
  {
    forall k :: 0 <= k < |outputs| ==> outputs[k] == Wrap(out + k + 1)
  }

  lemma DropsStep(start: int, dropped: seq<bool>)
    requires dropped != []
    ensures var n := |dropped| - 1;
            |Drops(start, dropped)| == |Drops(start, dropped[..n])| + if dropped[n] then 1 else 0
  {
  }

  lemma SentAt(start: int, dropped: seq<bool>, k: nat) returns (n: nat)
    requires k + |Drops(start, dropped)| < |dropped|
    ensures n < |dropped| && !dropped[n] && n - |Drops(start, dropped[..n])| == k
    decreases |dropped|
  {
    hide Drops;
    DropsStep(start, dropped);
    var last := |dropped| - 1;
    if !dropped[last] && k == last - |Drops(start, dropped[..last])| {
      n := last;
    } else {
      n := SentAt(start, dropped[..last], k);
      assert dropped[..last][..n] == dropped[..n];
    }
  }

  lemma DropsBefore(start: int, dropped: seq<bool>, n: nat)
    requires n < |dropped|
    ensures forall d :: d in Drops(start, dropped[..n]) <==> start < d <= start + n && dropped[d - start - 1]
  {
    var before := dropped[..n];
    assert forall i :: 0 <= i < n ==> before[i] == dropped[i];
    forall d | start < d <= start + n
      ensures d in Drops(start, before) <==> dropped[d - start - 1]
    {
      assert d == start + 1 + (d - start - 1);
    }
  }

  lemma WrapShift(x: int, shift: nat)
    requires shift < MOD
    ensures Wrap(x + shift) == Wrap(x) <==> shift == 0
  {
  }

  /** The remembered drops before the n-th number that count are all the drops exactly when CountsAll says so. */
  lemma CountedIff(t: Track, dropped: seq<bool>, n: nat)
    requires n < |dropped| && t.last == t.start + n <= t.start + MAX - 1 && Remembered(t, dropped[..n])
    requires Ascending(t.drops, t.start, t.last)
    ensures var kept, all := Kept(t.drops, t.last + 1), Drops(t.start, dropped[..n]);
            && |kept| <= |all|
            && (|kept| - Misjudged(kept, t.last + 1) == |all| <==> CountsAll(t.start, dropped, n))
  {
    hide Wrap, Misjudged, Remembered, Forgets, Ascending, CountsAll;
    var pos := t.last + 1;
    var kept, all := Kept(t.drops, pos), Drops(t.start, dropped[..n]);
    KeptIsAscending(t.drops, pos, t.start, t.last);
    KeptAreDrops(t, dropped, n);
    SublistLength(kept, all, t.start, t.last);
    MisjudgedNone(kept, pos);
    if CountsAll(t.start, dropped, n) {
      AllAreKept(t, dropped, n);
      SublistLength(all, kept, t.start, t.last);
    }
    if kept == all && forall d :: d in kept ==> Wrap(d) <= Wrap(pos) {
      KeptAreNear(t, dropped, n);
    }
  }

  lemma KeptAreDrops(t: Track, dropped: seq<bool>, n: nat)
    requires n < |dropped| && t.last == t.start + n && Remembered(t, dropped[..n])
    ensures forall d :: d in Kept(t.drops, t.last + 1) ==> d in Drops(t.start, dropped[..n])
  {
    hide NotOvertaken, AllRecent, LagsBehindDrop, Kept, Drops, Forgets;
    DropsBefore(t.start, dropped, n);
    assert forall d :: d in t.drops ==> dropped[..n][d - t.start - 1] == dropped[d - t.start - 1];
  }

  /** When every drop is near enough none is stale, so the manager remembers them all. */
  lemma AllAreKept(t: Track, dropped: seq<bool>, n: nat)
    requires n < |dropped| && t.last == t.start + n && Remembered(t, dropped[..n])
    requires CountsAll(t.start, dropped, n)
    ensures forall d :: d in Drops(t.start, dropped[..n]) ==> d in Kept(t.drops, t.last + 1) && Wrap(d) <= Wrap(t.last + 1)
  {
    hide Wrap, Kept, Drops, Stale, Remembered, Forgets, CountsAll;
    DropsBefore(t.start, dropped, n);
    NoneStale(t.start, dropped, n);
    forall d | d in Drops(t.start, dropped[..n])
      ensures d in Kept(t.drops, t.last + 1) && Wrap(d) <= Wrap(t.last + 1)
    {
      DropIsKept(t, dropped, n, d - t.start - 1);
    }
  }

  lemma DropIsKept(t: Track, dropped: seq<bool>, n: nat, i: nat)
    requires n < |dropped| && t.last == t.start + n && Remembered(t, dropped[..n]) && !Stale(dropped[..n])
    requires CountsAll(t.start, dropped, n) && i < n && dropped[i]
    ensures t.start + 1 + i in Kept(t.drops, t.last + 1) && Wrap(t.start + 1 + i) <= Wrap(t.last + 1)
  {
    hide Wrap, Kept, Stale, OnlyRecent, LagsBehindDrop;
    assert dropped[..n][i] == dropped[i];
  }

  lemma NoneStale(start: int, dropped: seq<bool>, n: nat)
    requires n < |dropped| && CountsAll(start, dropped, n)
    ensures !Stale(dropped[..n])
  {
    hide Wrap;
    assert forall i :: 0 <= i < n ==> dropped[..n][i] == dropped[i];
  }

  lemma KeptAreNear(t: Track, dropped: seq<bool>, n: nat)
    requires n < |dropped| && t.last == t.start + n && Kept(t.drops, t.last + 1) == Drops(t.start, dropped[..n])
    requires forall d :: d in Kept(t.drops, t.last + 1) ==> Wrap(d) <= Wrap(t.last + 1)
    ensures CountsAll(t.start, dropped, n)
  {
    hide Wrap, Kept, Drops;
    DropsBefore(t.start, dropped, n);
    forall i | 0 <= i < n && dropped[i] ensures n - i <= HALF && Wrap(t.start + 1 + i) <= Wrap(t.start + 1 + n) {
      assert t.start + 1 + i in Kept(t.drops, t.last + 1);
    }
  }

  lemma GaplessAt(m: State, start: int, out: int, dropped: seq<bool>, n: nat)
    requires m.maxOutput == Wrap(out) && n < |dropped| <= MAX && !dropped[n] && Orderly(dropped)
    ensures var outputs := Feed(Sync(m, Wrap(start)), start, dropped).1;
            var k := n - |Drops(start, dropped[..n])|;
            0 <= k < |outputs| && (outputs[k] == Wrap(out + k + 1) <==> CountsAll(start, dropped, n))
  {
    hide Wrap, Sync, Feed, Misjudged, Orderly, Remembered, TrackOf, CountsAll, Kept;
    var t, all := TrackOf(start, out, dropped[..n]), Drops(start, dropped[..n]);
    FeedOutputs(m, start, out, dropped, n);
    TrackIsRemembered(start, out, dropped[..n]);
    OrderlyPrefix(dropped, n);
    FeedFollows(m, start, out, dropped[..n]);
    CountedIff(t, dropped, n);
    var kept := Kept(t.drops, start + 1 + n);
    WrapShift(out + (n - |all|) + 1, |all| - (|kept| - Misjudged(kept, start + 1 + n)));
  }

  /** After a synchronization, dropping packets of an orderly stream leaves no gap in what is sent exactly when every
      drop is at most 32767 before each packet sent after it, and not on the other side of the wrap. */
  lemma GaplessIff(m: State, start: int, out: int, dropped: seq<bool>)
    requires m.maxOutput == Wrap(out) && |dropped| <= MAX && Orderly(dropped)
    ensures Gapless(Feed(Sync(m, Wrap(start)), start, dropped).1, out) <==> CountsAllThroughout(start, dropped)
  {
    hide Wrap, Sync, Feed, Orderly, CountsAllThroughout, Gapless;
    if CountsAllThroughout(start, dropped) {
      CountedIsGapless(m, start, out, dropped);
    }
    if Gapless(Feed(Sync(m, Wrap(start)), start, dropped).1, out) {
      GaplessIsCounted(m, start, out, dropped);
    }
  }

  lemma CountedIsGapless(m: State, start: int, out: int, dropped: seq<bool>)
    requires m.maxOutput == Wrap(out) && |dropped| <= MAX && Orderly(dropped) && CountsAllThroughout(start, dropped)
    ensures Gapless(Feed(Sync(m, Wrap(start)), start, dropped).1, out)
  {
    hide Wrap, Sync, Follows, Feed, CountsAll, Orderly, TrackOf, Drops;
    var outputs := Feed(Sync(m, Wrap(start)), start, dropped).1;
    FeedFollows(m, start, out, dropped);
    forall k | 0 <= k < |outputs|
      ensures outputs[k] == Wrap(out + k + 1)
    {
      var n := SentAt(start, dropped, k);
      GaplessAt(m, start, out, dropped, n);
    }
  }

  lemma GaplessIsCounted(m: State, start: int, out: int, dropped: seq<bool>)
    requires m.maxOutput == Wrap(out) && |dropped| <= MAX && Orderly(dropped)
    requires Gapless(Feed(Sync(m, Wrap(start)), start, dropped).1, out)
    ensures CountsAllThroughout(start, dropped)
  {
    hide Wrap, Sync, Feed, CountsAll, Orderly, Drops;
    forall n | 0 <= n < |dropped| && !dropped[n]
      ensures CountsAll(start, dropped, n)
    {
      GaplessAt(m, start, out, dropped, n);
    }
  }

  /** The gap appears: 65535 is dropped, and the next packet, numbered 0, is still renumbered as if it were not. */
  lemma DropAtTheWrapLeavesAGap()
    ensures Feed(Sync(INITIAL, 65533), 65533, [false, true, false]).1 == [1, 3]
  {
    var m := Sync(INITIAL, 65533);
    var dropped := [false, true, false];
    assert dropped[..2] == [false, true] && dropped[..2][..1] == [false] && dropped[..2][..1][..0] == [];
    assert Feed(m, 65533, [false]).1 == [1];
    assert Feed(m, 65533, [false, true]).0.dropped == [65535];
  }

  /** An old drop is erased without being folded into the base: 20000 left as 19999, but 40000 leaves as 40000. */
  lemma ErasedDropComesBack()
    ensures var m0 := Drop(Sync(INITIAL, 0), 1);
            var (m1, r1) := Input(m0, 20000);
            r1 == Some(19999) && Input(m1, 40000).1 == Some(40000)
  {
    var m0 := Drop(Sync(INITIAL, 0), 1);
    assert m0 == State(0, 0, 0, [1]);
    assert LowerBound([1], Ahead(20000, MAX / 2)) == 0 && [1][0..] == [1] && CountBelow([1], 20000) == 1;
    var m1 := State(0, 19999, 20000, [1]);
    assert Input(m0, 20000) == (m1, Some(19999));
    assert LowerBound([1], Ahead(40000, MAX / 2)) == 1 && [1][1..] == [];
  }

  /** Two late packets: 3 was dropped, so 5 left as 4; then 1 makes the manager forget the drop, and 4 leaves as 4 again. */
  lemma LateInputsCollide()
    ensures var (m1, r1) := Input(Drop(Sync(INITIAL, 0), 3), 5);
            var (m2, r2) := Input(m1, 1);
            r1 == Some(4) && r2 == Some(1) && Input(m2, 4).1 == Some(4)
  {
    var m0 := Drop(Sync(INITIAL, 0), 3);
    assert m0 == State(0, 0, 0, [3]);
    assert LowerBound([3], Ahead(5, MAX / 2)) == 0 && [3][0..] == [3] && CountBelow([3], 5) == 1;
    assert Input(m0, 5) == (State(0, 4, 5, [3]), Some(4));
    assert LowerBound([3], Ahead(1, MAX / 2)) == 1 && [3][1..] == [];
  }

  /** A late packet right before a drop numbered 0: 65534 and 0 were dropped, and 65535 leaves as 7, which was sent before
      the synchronization. */
  lemma LateBeforeTheWrapRepeats()
    ensures var m := Drop(Drop(Sync(State(0, 7, 0, []), 65533), 65534), 0);
            var (n, r) := Input(m, 1);
            m.maxOutput == 7 && r == Some(10) && Input(n, 65535).1 == Some(7)
  {
    hide Drop, Sync, Input;
    DropsAroundTheWrap();
    InputAfterTheWrap();
    InputBeforeTheWrap();
  }

  lemma DropsAroundTheWrap()
    ensures Drop(Drop(Sync(State(0, 7, 0, []), 65533), 65534), 0) == State(10, 7, 65533, [65534, 0])
  {
    InsertAfter(65534, 0);
    assert Drop(Sync(State(0, 7, 0, []), 65533), 65534) == State(10, 7, 65533, [65534]);
  }

  lemma InputAfterTheWrap()
    ensures Input(State(10, 7, 65533, [65534, 0]), 1) == (State(10, 10, 1, [65534, 0]), Some(10))
  {
    var ds := [65534, 0];
    assert ds[1..] == [0] && ds[0..] == ds;
    assert LowerBound(ds, Ahead(1, MAX / 2)) == 0 && CountBelow([0], 1) == 1 && CountBelow(ds, 1) == 1;
  }

  lemma InputBeforeTheWrap()
    ensures Input(State(10, 10, 1, [65534, 0]), 65535).1 == Some(7)
  {
    var ds := [65534, 0];
    assert ds[1..] == [0] && ds[0..] == ds;
    assert LowerBound(ds, Ahead(65535, MAX / 2)) == 0 && CountBelow([0], 65535) == 1 && CountBelow(ds, 65535) == 2;
  }

  /** A late packet makes the manager forget a drop ahead of it: number 3 was dropped, and is let through. */
  lemma LateInputForgetsDrop()
    ensures var m := Input(Drop(Sync(INITIAL, 0), 3), 1).0;
            m.dropped == [] && Input(m, 3).1 == Some(3)
  {
  }
}
