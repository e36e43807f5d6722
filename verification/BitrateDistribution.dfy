/** How WebRtcTransport shares the available outgoing bitrate among its consumers. */
module BitrateDistribution {
  import opened Seq16
  import opened Bytes
  import opened Layers
  import opened Arithmetic
  import S = Simulcasts
  import V = SvcConsumers

  const MOD32 := 0x1_0000_0000

  /** A consumer as a value. Plain stands for the types that do not choose layers, whose priority is 0. */
  datatype Value = SimulcastValue(simulcast: S.Simulcast) | SvcValue(svc: V.Svc) | PlainValue

  predicate WellFormed(v: Value)
  {
    match v
    case SimulcastValue(c) => S.WellFormed(c)
    case SvcValue(c) => V.WellFormed(c)
    case PlainValue => true
  }

  function Priority(v: Value): nat
  {
    match v
    case SimulcastValue(c) => S.BitratePriority(c)
    case SvcValue(c) => V.BitratePriority(c)
    case PlainValue => 0
  }

  function UseAvailableBitrate(v: Value, bitrate: nat): (Value, nat)
    requires WellFormed(v)
  {
    match v
    case SimulcastValue(c) => var (d, used) := S.UseAvailableBitrate(c, bitrate); (SimulcastValue(d), used)
    case SvcValue(c) => var (d, used) := V.UseAvailableBitrate(c, bitrate); (SvcValue(d), used)
    case PlainValue => (v, 0)
  }

  function IncreaseLayer(v: Value, bitrate: nat): (Value, nat)
    requires WellFormed(v)
  {
    match v
    case SimulcastValue(c) => var (d, used) := S.IncreaseLayer(c, bitrate); (SimulcastValue(d), used)
    case SvcValue(c) => var (d, used) := V.IncreaseLayer(c, bitrate); (SvcValue(d), used)
    case PlainValue => (v, 0)
  }

  function ApplyLayers(v: Value): Value
  {
    match v
    case SimulcastValue(c) => SimulcastValue(S.ApplyLayers(c))
    case SvcValue(c) => SvcValue(V.ApplyLayers(c))
    case PlainValue => v
  }

  function SpatialLayer(v: Value): int
  {
    match v
    case SimulcastValue(c) => c.provisionalTargetSpatialLayer
    case SvcValue(c) => c.provisionalTargetSpatialLayer
    case PlainValue => -1
  }

  function TemporalLayer(v: Value): int
  {
    match v
    case SimulcastValue(c) => c.provisionalTargetTemporalLayer
    case SvcValue(c) => c.provisionalTargetTemporalLayer
    case PlainValue => -1
  }

  /** The second value's layers are above the first one's. */
  predicate Higher(v: Value, w: Value)
  {
    Below(SpatialLayer(v), TemporalLayer(v), SpatialLayer(w), TemporalLayer(w))
  }

  // ----- One call never uses more than it is given

  lemma UseIsBounded(v: Value, bitrate: nat)
    requires WellFormed(v)
    ensures var (w, used) := UseAvailableBitrate(v, bitrate); used <= bitrate && WellFormed(w)
  {
    hide Use, Ladder;
    match v
    case SimulcastValue(c) => UseIsFair(S.GridOf(c), c.fractionLost, bitrate);
    case SvcValue(c) => UseIsFair(V.GridOf(c), c.fractionLost, bitrate);
    case PlainValue =>
  }

  lemma IncreaseIsBounded(v: Value, bitrate: nat)
    requires WellFormed(v)
    ensures var (w, used) := IncreaseLayer(v, bitrate);
            && used <= bitrate
            && WellFormed(w)
            && (if used > 0 then Higher(v, w) else w == v)
  {
    hide Increase, NextRung, S.CanSwitch;
    match v
    case SimulcastValue(c) =>
      IncreaseClimbs(S.GridOf(c), c.provisionalTargetSpatialLayer, c.provisionalTargetTemporalLayer, c.fractionLost,
                     bitrate);
    case SvcValue(c) =>
      IncreaseClimbs(V.GridOf(c), c.provisionalTargetSpatialLayer, c.provisionalTargetTemporalLayer, c.fractionLost,
                     bitrate);
    case PlainValue =>
  }

  // ----- Who takes part

  /** A consumer's priority, and its place in mapConsumers. */
  datatype Entry = Entry(priority: nat, place: nat)

  /** multimap::emplace: after all entries whose priority is not greater. */
  function Emplace(m: seq<Entry>, e: Entry): (r: seq<Entry>)
    ensures |r| == |m| + 1
  {
    if m == [] || m[|m| - 1].priority <= e.priority then m + [e]
    else Emplace(m[..|m| - 1], e) + [m[|m| - 1]]
  }

  lemma {:induction false} EmplaceAdds(m: seq<Entry>, e: Entry)
    ensures multiset(Emplace(m, e)) == multiset(m) + multiset{e}
  {
    if m == [] || m[|m| - 1].priority <= e.priority {
    } else {
      EmplaceAdds(m[..|m| - 1], e);
      assert m == m[..|m| - 1] + [m[|m| - 1]];
    }
  }

  lemma {:induction false} EmplaceIsAscending(m: seq<Entry>, e: Entry)
    requires Ascending(m)
    ensures Ascending(Emplace(m, e))
    ensures forall i :: 0 <= i <= |m| ==> Emplace(m, e)[i].priority <= e.priority || (m != [] && Emplace(m, e)[i].priority <= m[|m| - 1].priority)
  {
    if m == [] || m[|m| - 1].priority <= e.priority {
    } else {
      EmplaceIsAscending(m[..|m| - 1], e);
    }
  }

  predicate Ascending(m: seq<Entry>)
  {
    forall i, j :: 0 <= i < j < |m| ==> m[i].priority <= m[j].priority
  }

  /** The multimap of the first `n` consumers, without those of priority 0. */
  function Multimap(priorities: seq<nat>, n: nat): seq<Entry>
    requires n <= |priorities|
  {
    if n == 0 then []
    else if priorities[n - 1] > 0 then Emplace(Multimap(priorities, n - 1), Entry(priorities[n - 1], n - 1))
    else Multimap(priorities, n - 1)
  }

  lemma {:induction false} MultimapIsSorted(priorities: seq<nat>, n: nat)
    requires n <= |priorities|
    ensures Ascending(Multimap(priorities, n))
  {
    hide Emplace, Ascending;
    EmptyIsAscending();
    if n > 0 {
      MultimapIsSorted(priorities, n - 1);
      EmplaceIsAscending(Multimap(priorities, n - 1), Entry(priorities[n - 1], n - 1));
    }
  }

  /** The multimap holds every consumer with a positive priority exactly once. */
  lemma {:induction false} MultimapHolds(priorities: seq<nat>, n: nat, e: Entry)
    requires n <= |priorities|
    ensures multiset(Multimap(priorities, n))[e] ==
            if e.place < n && e.priority == priorities[e.place] > 0 then 1 else 0
  {
    hide Emplace, Ascending;
    if n > 0 {
      MultimapHolds(priorities, n - 1, e);
      EmplaceAdds(Multimap(priorities, n - 1), Entry(priorities[n - 1], n - 1));
    }
  }

  lemma EmptyIsAscending()
    ensures Ascending([])
  {
  }

  function SumPriorities(m: seq<Entry>): nat
  {
    if m == [] then 0 else SumPriorities(m[..|m| - 1]) + m[|m| - 1].priority
  }

  /** totalPriorities, a uint16_t. */
  function TotalPriorities(priorities: seq<nat>, n: nat): u16
    requires n <= |priorities|
  {
    if n == 0 then 0
    else if priorities[n - 1] > 0 then Wrap(TotalPriorities(priorities, n - 1) + priorities[n - 1])
    else TotalPriorities(priorities, n - 1)
  }

  lemma {:induction false} SumOfEmplace(m: seq<Entry>, e: Entry)
    ensures SumPriorities(Emplace(m, e)) == SumPriorities(m) + e.priority
  {
    if m == [] || m[|m| - 1].priority <= e.priority {
      assert (m + [e])[..|m|] == m;
    } else {
      SumOfEmplace(m[..|m| - 1], e);
      var r := Emplace(m[..|m| - 1], e);
      assert (r + [m[|m| - 1]])[..|r|] == r;
    }
  }

  lemma WrapOfZero()
    ensures Wrap(0) == 0 && SumPriorities([]) == 0
  {
  }

  /** The total is the sum of the priorities modulo 65536. */
  lemma {:induction false} TotalIsWrappedSum(priorities: seq<nat>, n: nat)
    requires n <= |priorities|
    ensures TotalPriorities(priorities, n) == Wrap(SumPriorities(Multimap(priorities, n)))
  {
    hide Emplace, Wrap, SumPriorities;
    if n == 0 {
      assert Wrap(0) == 0 && SumPriorities([]) == 0 by {
        WrapOfZero();
      }
    } else {
      TotalIsWrappedSum(priorities, n - 1);
      if priorities[n - 1] > 0 {
        var m := Multimap(priorities, n - 1);
        SumOfEmplace(m, Entry(priorities[n - 1], n - 1));
        WrapAdd(SumPriorities(m), priorities[n - 1]);
      }
    }
  }

  // ----- The shares of the first round

  /** A consumer's part of the available bitrate; the product is a uint32_t. */
  function Share(available: nat, priority: nat, total: nat): nat
    requires total > 0
  {
    available * priority % MOD32 / total
  }

  function Shares(m: seq<Entry>, available: nat, total: nat): nat
    requires total > 0
  {
    if m == [] then 0 else Shares(m[..|m| - 1], available, total) + Share(available, m[|m| - 1].priority, total)
  }

  lemma ShareIsFair(available: nat, priority: nat, total: nat)
    requires total > 0
    ensures Share(available, priority, total) * total <= available * priority
  {
    ModIsAtMost(available * priority, MOD32);
    QuotientBounds(available * priority % MOD32, total);
  }

  /** The share is the exact proportion as long as the product fits 32 bits, and smaller from there on. */
  lemma ShareIsExactIff(available: nat, priority: nat, total: nat)
    requires 0 < total < 0x1_0000
    ensures Share(available, priority, total) <= available * priority / total
    ensures Share(available, priority, total) == available * priority / total <==> available * priority < MOD32
  {
    var x := available * priority;
    ModIsAtMost(x, MOD32);
    if x >= MOD32 {
      WholeTurns(x);
      QuotientGrows(x % MOD32, x, total);
    }
  }

  lemma WholeTurns(x: nat)
    requires x >= MOD32
    ensures x % MOD32 + MOD32 <= x
  {
  }

  lemma {:induction false} SharesAreFair(m: seq<Entry>, available: nat, total: nat)
    requires total > 0
    ensures Shares(m, available, total) * total <= available * SumPriorities(m)
  {
    hide Share;
    if m != [] {
      var rest, p := m[..|m| - 1], m[|m| - 1].priority;
      SharesAreFair(rest, available, total);
      ShareIsFair(available, p, total);
      var a, b := Shares(rest, available, total), Share(available, p, total);
      AddFair(a, b, total, available, SumPriorities(rest), p);
    }
  }

  lemma AddFair(a: nat, b: nat, total: nat, available: nat, sum: nat, p: nat)
    requires a * total <= available * sum && b * total <= available * p
    ensures (a + b) * total <= available * (sum + p)
  {
    assert (a + b) * total == a * total + b * total;
    assert available * (sum + p) == available * sum + available * p;
  }

  lemma SharesFit(m: seq<Entry>, available: nat)
    requires SumPriorities(m) > 0
    ensures Shares(m, available, SumPriorities(m)) <= available
  {
    var t := SumPriorities(m);
    SharesAreFair(m, available, t);
    CancelMul(Shares(m, available, t), available, t);
  }

  lemma {:induction false} SharesOfTotal(m: seq<Entry>, total: nat)
    requires 0 < total < 0x1_0000
    requires forall i :: 0 <= i < |m| ==> m[i].priority < 0x1_0000
    ensures Shares(m, total, total) == SumPriorities(m)
  {
    if m != [] {
      var rest, p := m[..|m| - 1], m[|m| - 1].priority;
      SharesOfTotal(rest, total);
      FullShare(total, p);
    }
  }

  lemma FullShare(total: nat, p: nat)
    requires 0 < total < 0x1_0000 && p < 0x1_0000
    ensures Share(total, p, total) == p
  {
    MulMono(total, 0xFFFF, p);
    MulMono(p, 0xFFFF, 0xFFFF);
    ModIsAtMost(total * p, MOD32);
    ExactQuotient(total, p);
  }

  /** The shares fit into every available bitrate exactly when the priorities add up to less than 65536: otherwise the
      total has wrapped, and it is itself a bitrate that is shared out several times over. */
  lemma SharesFitIff(priorities: seq<nat>)
    requires forall i :: 0 <= i < |priorities| ==> priorities[i] < 0x1_0000
    requires TotalPriorities(priorities, |priorities|) > 0
    ensures var m, total := Multimap(priorities, |priorities|), TotalPriorities(priorities, |priorities|);
            (forall available: nat :: Shares(m, available, total) <= available) <==> SumPriorities(m) < 0x1_0000
  {
    hide Multimap, TotalPriorities, SumPriorities, Shares, Ascending, Wrap;
    var m, total := Multimap(priorities, |priorities|), TotalPriorities(priorities, |priorities|);
    TotalIsWrappedSum(priorities, |priorities|);
    WrapOfSum(SumPriorities(m));
    if SumPriorities(m) < 0x1_0000 {
      forall available: nat ensures Shares(m, available, total) <= available {
        SharesFit(m, available);
      }
    } else {
      forall i | 0 <= i < |m| ensures m[i].priority < 0x1_0000 {
        assert m[i] in multiset(m);
        MultimapHolds(priorities, |priorities|, m[i]);
      }
      SharesOfTotal(m, total);
      assert Shares(m, total, total) > total;
    }
  }

  lemma WrapOfSum(x: nat)
    ensures if x < 0x1_0000 then Wrap(x) == x else Wrap(x) < x
  {
  }

  // ----- The rounds

  /** Where a distribution stands: the consumers as mapConsumers lists them, and the bitrate that remains. `used` is
      the account of what each consumer was charged. */
  datatype Pot = Pot(values: seq<Value>, used: seq<nat>, remaining: nat)

  predicate Sound(p: Pot)
  {
    |p.values| == |p.used| && forall i :: 0 <= i < |p.values| ==> WellFormed(p.values[i])
  }

  /** The entries name consumers. */
  predicate Names(m: seq<Entry>, p: Pot)
  {
    forall i :: 0 <= i < |m| ==> m[i].place < |p.values|
  }

  function Sum(xs: seq<nat>): nat
  {
    if xs == [] then 0 else Sum(xs[..|xs| - 1]) + xs[|xs| - 1]
  }

  lemma {:induction false} SumOfUpdate(xs: seq<nat>, i: nat, x: nat)
    requires i < |xs|
    ensures Sum(xs[i := x]) == Sum(xs) - xs[i] + x
  {
    var ys := xs[i := x];
    if i == |xs| - 1 {
      assert ys[..|ys| - 1] == xs[..|xs| - 1];
    } else {
      assert ys[..|ys| - 1] == xs[..|xs| - 1][i := x];
      SumOfUpdate(xs[..|xs| - 1], i, x);
    }
  }

  /** One consumer is charged; when the code finds that too much it clamps the remaining bitrate to 0. */
  function Charged(p: Pot, place: nat, v: Value, used: nat): Pot
    requires place < |p.values| == |p.used|
  {
    Pot(p.values[place := v], p.used[place := p.used[place] + used],
        if used <= p.remaining then p.remaining - used else 0)
  }

  lemma ChargedIsSound(p: Pot, place: nat, v: Value, used: nat)
    requires Sound(p) && place < |p.values| && WellFormed(v)
    ensures Sound(Charged(p, place, v, used))
    ensures used <= p.remaining ==>
              var q := Charged(p, place, v, used); Sum(q.used) + q.remaining == Sum(p.used) + p.remaining
  {
    SumOfUpdate(p.used, place, p.used[place] + used);
  }

  /** UseAvailableBitrate on one consumer. */
  function UseOne(p: Pot, e: Entry, share: nat): (q: Pot)
    requires Sound(p) && e.place < |p.values|
    ensures Sound(q) && |q.values| == |p.values|
  {
    var (v, used) := UseAvailableBitrate(p.values[e.place], share);
    UseIsBounded(p.values[e.place], share);
    ChargedIsSound(p, e.place, v, used);
    Charged(p, e.place, v, used)
  }

  /** The first round, over the multimap from its end. */
  function MainRound(p: Pot, m: seq<Entry>, available: nat, total: nat): (q: Pot)
    requires Sound(p) && Names(m, p) && total > 0
    ensures Sound(q) && |q.values| == |p.values|
    decreases |m|
  {
    if m == [] then p
    else
      var e := m[|m| - 1];
      MainRound(UseOne(p, e, Share(available, e.priority, total)), m[..|m| - 1], available, total)
  }

  /** IncreaseLayer on one consumer. */
  function IncreaseOne(p: Pot, e: Entry): (q: Pot)
    requires Sound(p) && e.place < |p.values|
    ensures Sound(q) && |q.values| == |p.values| && q.remaining <= p.remaining
  {
    var (v, used) := IncreaseLayer(p.values[e.place], p.remaining);
    IncreaseIsBounded(p.values[e.place], p.remaining);
    ChargedIsSound(p, e.place, v, used);
    Charged(p, e.place, v, used)
  }

  const ENOUGH := 2000

  /** One pass of the layer-by-layer round, which ends early when too little remains. */
  function LayerPass(p: Pot, m: seq<Entry>): (q: Pot)
    requires Sound(p) && Names(m, p)
    ensures Sound(q) && |q.values| == |p.values| && q.remaining <= p.remaining
    decreases |m|
  {
    if m == [] then p
    else
      var q := IncreaseOne(p, m[|m| - 1]);
      if q.remaining < ENOUGH then q else LayerPass(q, m[..|m| - 1])
  }

  /** Passes are repeated until too little remains or nobody takes anything. */
  function LayerRound(p: Pot, m: seq<Entry>): (q: Pot)
    requires Sound(p) && Names(m, p)
    ensures Sound(q) && |q.values| == |p.values| && q.remaining <= p.remaining
    decreases p.remaining
  {
    if p.remaining < ENOUGH then p
    else
      var q := LayerPass(p, m);
      if q.remaining == p.remaining then q else LayerRound(q, m)
  }

  /** ApplyLayers on everyone who took part. */
  function ApplyRound(values: seq<Value>, m: seq<Entry>): (r: seq<Value>)
    requires forall i :: 0 <= i < |m| ==> m[i].place < |values|
    ensures |r| == |values|
    decreases |m|
  {
    if m == [] then values
    else
      var i := m[|m| - 1].place;
      ApplyRound(values[i := ApplyLayers(values[i])], m[..|m| - 1])
  }

  // ----- Conservation

  /** As long as the shares fit into what remains, nothing is clamped: what was charged and what remains add up. */
  lemma {:induction false} MainRoundConserves(p: Pot, m: seq<Entry>, available: nat, total: nat)
    requires Sound(p) && Names(m, p) && total > 0
    requires Shares(m, available, total) <= p.remaining
    ensures var q := MainRound(p, m, available, total);
            Sum(q.used) + q.remaining == Sum(p.used) + p.remaining
    decreases |m|
  {
    hide Sound, Sum, Share, UseOne;
    if m != [] {
      var e := m[|m| - 1];
      UseOneConserves(p, e, Share(available, e.priority, total));
      MainRoundConserves(UseOne(p, e, Share(available, e.priority, total)), m[..|m| - 1], available, total);
    }
  }

  /** Somewhere in the first round a consumer uses more than remains, and the remaining bitrate is clamped to 0. */
  predicate Clamps(p: Pot, m: seq<Entry>, available: nat, total: nat)
    requires Sound(p) && Names(m, p) && total > 0
    decreases |m|
  {
    m != [] &&
    var e := m[|m| - 1];
    var share := Share(available, e.priority, total);
    || UseAvailableBitrate(p.values[e.place], share).1 > p.remaining
    || Clamps(UseOne(p, e, share), m[..|m| - 1], available, total)
  }

  lemma UseOneIsCharged(p: Pot, e: Entry, share: nat)
    requires Sound(p) && e.place < |p.values|
    ensures var q, used := UseOne(p, e, share), UseAvailableBitrate(p.values[e.place], share).1;
            Sum(q.used) + q.remaining ==
              Sum(p.used) + p.remaining + if used <= p.remaining then 0 else used - p.remaining
  {
    hide UseAvailableBitrate, Sum;
    var (v, used) := UseAvailableBitrate(p.values[e.place], share);
    UseIsBounded(p.values[e.place], share);
    SumOfUpdate(p.used, e.place, p.used[e.place] + used);
  }

  /** What was charged and what remains add up exactly when the clamp never fires; otherwise more was charged than there
      was. */
  lemma {:induction false} MainRoundConservesIff(p: Pot, m: seq<Entry>, available: nat, total: nat)
    requires Sound(p) && Names(m, p) && total > 0
    ensures var q := MainRound(p, m, available, total);
            && Sum(q.used) + q.remaining >= Sum(p.used) + p.remaining
            && (Sum(q.used) + q.remaining == Sum(p.used) + p.remaining <==> !Clamps(p, m, available, total))
    decreases |m|
  {
    hide Sound, Sum, Share, UseOne, UseAvailableBitrate;
    if m != [] {
      var e := m[|m| - 1];
      var share := Share(available, e.priority, total);
      UseOneIsCharged(p, e, share);
      MainRoundConservesIff(UseOne(p, e, share), m[..|m| - 1], available, total);
    }
  }

  lemma UseOneConserves(p: Pot, e: Entry, share: nat)
    requires Sound(p) && e.place < |p.values| && share <= p.remaining
    ensures var q := UseOne(p, e, share);
            && Sum(q.used) + q.remaining == Sum(p.used) + p.remaining
            && q.remaining >= p.remaining - share
  {
    hide UseAvailableBitrate, Sum;
    UseIsBounded(p.values[e.place], share);
    var (v, used) := UseAvailableBitrate(p.values[e.place], share);
    ChargedIsSound(p, e.place, v, used);
  }

  lemma IncreaseOneConserves(p: Pot, e: Entry)
    requires Sound(p) && e.place < |p.values|
    ensures var q := IncreaseOne(p, e);
            && Sum(q.used) + q.remaining == Sum(p.used) + p.remaining
            && Climbed(p, q)
  {
    hide IncreaseLayer, Sum, Higher;
    IncreaseIsBounded(p.values[e.place], p.remaining);
    var (v, used) := IncreaseLayer(p.values[e.place], p.remaining);
    ChargedIsSound(p, e.place, v, used);
  }

  /** Nobody goes down, and whenever bitrate was taken somebody went up. */
  ghost predicate Climbed(p: Pot, q: Pot)
  {
    && |q.values| == |p.values|
    && (forall i :: 0 <= i < |p.values| ==> q.values[i] == p.values[i] || Higher(p.values[i], q.values[i]))
    && (q.remaining != p.remaining ==> exists i :: 0 <= i < |p.values| && Higher(p.values[i], q.values[i]))
  }

  lemma ClimbedIsTransitive(p: Pot, q: Pot, r: Pot)
    requires Climbed(p, q) && Climbed(q, r)
    ensures Climbed(p, r)
  {
    if r.remaining != p.remaining {
      if q.remaining != p.remaining {
        var i :| 0 <= i < |p.values| && Higher(p.values[i], q.values[i]);
        assert Higher(p.values[i], r.values[i]);
      } else {
        var i :| 0 <= i < |q.values| && Higher(q.values[i], r.values[i]);
        assert Higher(p.values[i], r.values[i]);
      }
    }
  }

  lemma {:induction false} LayerPassConserves(p: Pot, m: seq<Entry>)
    requires Sound(p) && Names(m, p)
    ensures var q := LayerPass(p, m);
            Sum(q.used) + q.remaining == Sum(p.used) + p.remaining && Climbed(p, q)
    decreases |m|
  {
    hide Sum, Sound, IncreaseOne, Higher, Climbed;
    if m == [] {
      ClimbedIsReflexive(p);
    } else {
      var q := IncreaseOne(p, m[|m| - 1]);
      IncreaseOneConserves(p, m[|m| - 1]);
      if q.remaining >= ENOUGH {
        LayerPassConserves(q, m[..|m| - 1]);
        ClimbedIsTransitive(p, q, LayerPass(q, m[..|m| - 1]));
      }
    }
  }

  lemma ClimbedIsReflexive(p: Pot)
    ensures Climbed(p, p)
  {
  }

  lemma {:induction false} LayerRoundConserves(p: Pot, m: seq<Entry>)
    requires Sound(p) && Names(m, p)
    ensures var q := LayerRound(p, m);
            Sum(q.used) + q.remaining == Sum(p.used) + p.remaining && Climbed(p, q)
    decreases p.remaining
  {
    hide Sum, Sound, LayerPass, Climbed;
    ClimbedIsReflexive(p);
    if p.remaining >= ENOUGH {
      var q := LayerPass(p, m);
      LayerPassConserves(p, m);
      if q.remaining != p.remaining {
        LayerRoundConserves(q, m);
        ClimbedIsTransitive(p, q, LayerRound(q, m));
      }
    }
  }

  // ----- When it ends

  /** Nobody who takes part can climb any further with what remains. */
  ghost predicate Exhausted(p: Pot, m: seq<Entry>)
    requires Sound(p) && Names(m, p)
  {
    forall i :: 0 <= i < |m| ==> IncreaseLayer(p.values[m[i].place], p.remaining).1 == 0
  }

  lemma {:induction false} IdlePass(p: Pot, m: seq<Entry>)
    requires Sound(p) && Names(m, p)
    requires p.remaining >= ENOUGH && LayerPass(p, m).remaining == p.remaining
    ensures LayerPass(p, m) == p && Exhausted(p, m)
    decreases |m|
  {
    hide IncreaseLayer, Sum, WellFormed;
    if m != [] {
      var e := m[|m| - 1];
      var (v, used) := IncreaseLayer(p.values[e.place], p.remaining);
      IncreaseIsBounded(p.values[e.place], p.remaining);
      assert used == 0 && v == p.values[e.place];
      assert p.values[e.place := v] == p.values && p.used[e.place := p.used[e.place] + used] == p.used;
      IdlePass(p, m[..|m| - 1]);
      assert forall i :: 0 <= i < |m| - 1 ==> m[..|m| - 1][i] == m[i];
    }
  }

  /** The layer-by-layer round ends with less than 2000 bits per second, or with nobody able to climb any further. */
  lemma {:induction false} LayerRoundEnds(p: Pot, m: seq<Entry>)
    requires Sound(p) && Names(m, p)
    ensures var q := LayerRound(p, m); q.remaining < ENOUGH || Exhausted(q, m)
    decreases p.remaining
  {
    hide LayerPass, Exhausted, WellFormed;
    if p.remaining >= ENOUGH {
      var q := LayerPass(p, m);
      if q.remaining == p.remaining {
        IdlePass(p, m);
      } else {
        LayerRoundEnds(q, m);
      }
    }
  }

  // ----- The whole distribution

  function Priorities(values: seq<Value>): (r: seq<nat>)
    ensures |r| == |values|
    ensures forall i :: 0 <= i < |r| ==> r[i] == Priority(values[i])
  {
    seq(|values|, i requires 0 <= i < |values| => Priority(values[i]))
  }

  function Start(values: seq<Value>, available: nat): Pot
  {
    Pot(values, seq(|values|, i => 0), available)
  }

  lemma MultimapNames(values: seq<Value>, available: nat)
    ensures Names(Multimap(Priorities(values), |values|), Start(values, available))
  {
    hide Multimap, Priorities;
    var m := Multimap(Priorities(values), |values|);
    forall i | 0 <= i < |m| ensures m[i].place < |values| {
      assert m[i] in multiset(m);
      MultimapHolds(Priorities(values), |values|, m[i]);
    }
  }

  /** Both rounds, before the layers are applied. */
  function Rounds(values: seq<Value>, available: nat): (q: Pot)
    requires forall i :: 0 <= i < |values| ==> WellFormed(values[i])
    requires TotalPriorities(Priorities(values), |values|) > 0
    ensures Sound(q) && |q.values| == |values|
  {
    var m := Multimap(Priorities(values), |values|);
    MultimapNames(values, available);
    LayerRound(MainRound(Start(values, available), m, available, TotalPriorities(Priorities(values), |values|)), m)
  }

  /** DistributeAvailableOutgoingBitrate. Nobody wants bitrate when the total is 0. */
  function Distribute(values: seq<Value>, available: nat): (r: seq<Value>)
    requires forall i :: 0 <= i < |values| ==> WellFormed(values[i])
    ensures |r| == |values|
  {
    if TotalPriorities(Priorities(values), |values|) == 0 then values
    else
      MultimapNames(values, available);
      ApplyRound(Rounds(values, available).values, Multimap(Priorities(values), |values|))
  }

  lemma {:induction false} SumOfZeros(n: nat)
    ensures Sum(seq(n, i => 0)) == 0
  {
    if n > 0 {
      assert seq(n, i => 0)[..n - 1] == seq(n - 1, i => 0);
      SumOfZeros(n - 1);
    }
  }

  /** A distribution hands out exactly the available bitrate, what the consumers are charged and what remains, if and
      only if the clamp of the first round never fires; otherwise it is overdrawn. It never fires when the priorities add
      up to less than 65536. In any case the second round lets consumers climb only, and ends when less than 2000 bits per
      second remain or nobody can climb any further. */
  lemma DistributionConserves(values: seq<Value>, available: nat)
    requires forall i :: 0 <= i < |values| ==> WellFormed(values[i])
    requires TotalPriorities(Priorities(values), |values|) > 0
    ensures var prios := Priorities(values);
            var m, total := Multimap(prios, |values|), TotalPriorities(prios, |values|);
            var q := Rounds(values, available);
            && Names(m, q)
            && Names(m, Start(values, available))
            && Sum(q.used) + q.remaining >= available
            && (Sum(q.used) + q.remaining == available <==> !Clamps(Start(values, available), m, available, total))
            && (SumPriorities(m) < 0x1_0000 ==> !Clamps(Start(values, available), m, available, total))
            && (q.remaining < ENOUGH || Exhausted(q, m))
  {
    hide LayerRound, MainRound, Priorities, Multimap, SumPriorities, TotalPriorities, Shares, Sum, WellFormed, Exhausted,
      Wrap, Clamps;
    var prios := Priorities(values);
    var m, total := Multimap(prios, |values|), TotalPriorities(prios, |values|);
    var start := Start(values, available);
    TotalIsWrappedSum(prios, |values|);
    WrapOfSum(SumPriorities(m));
    SumOfZeros(|values|);
    MultimapNames(values, available);
    MainRoundConservesIff(start, m, available, total);
    if SumPriorities(m) < 0x1_0000 {
      SharesFit(m, available);
      MainRoundConserves(start, m, available, total);
    }
    var p := MainRound(start, m, available, total);
    LayerRoundConserves(p, m);
    LayerRoundEnds(p, m);
  }
}
