/** The vocabulary of the bandwidth allocator: what a consumer may spend, and the ladder of layers it climbs. */
module Layers {
  import opened Bytes
  import opened Arithmetic

  /** The virtual bitrate of UseAvailableBitrate and IncreaseLayer. With f = fractionLost, the loss percentage is
      f * 100 / 256, and the factors are 1.08 below 2 percent and 1 - 0.5 * (percentage / 100) = 1 - f / 512 above
      10 percent. */
  function VirtualBitrate(fractionLost: u8, bitrate: nat): (r: nat)
  {
    if fractionLost * 100 < 2 * 256 then 27 * bitrate / 25
    else if fractionLost * 100 > 10 * 256 then (512 - fractionLost) * bitrate / 512
    else bitrate
  }

  /** A layer pair and the bitrate it costs to reach it. */
  datatype Rung = Rung(spatial: int, temporal: int, bitrate: nat)

  /** The lexicographic order of the layer pairs. */
  predicate Below(s1: int, t1: int, s2: int, t2: int)
  {
    s1 < s2 || (s1 == s2 && t1 < t2)
  }

  /** Climbs from `reached` as long as the next rung is affordable. */
  function Climb(reached: Option<Rung>, ladder: seq<Rung>, budget: nat): Option<Rung>
    decreases |ladder|
  {
    if ladder == [] || ladder[0].bitrate > budget then reached else Climb(Some(ladder[0]), ladder[1..], budget)
  }

  /** How many rungs that takes. */
  function Height(ladder: seq<Rung>, budget: nat): (r: nat)
    ensures r <= |ladder|
    ensures forall i :: 0 <= i < r ==> ladder[i].bitrate <= budget
    ensures r < |ladder| ==> ladder[r].bitrate > budget
  {
    if ladder == [] || ladder[0].bitrate > budget then 0 else 1 + Height(ladder[1..], budget)
  }

  /** The climb ends on the last rung of the longest affordable prefix. */
  lemma {:induction false} ClimbEnds(reached: Option<Rung>, ladder: seq<Rung>, budget: nat)
    ensures Climb(reached, ladder, budget) ==
            (var n := Height(ladder, budget); if n == 0 then reached else Some(ladder[n - 1]))
    decreases |ladder|
  {
    if ladder != [] && ladder[0].bitrate <= budget {
      ClimbEnds(Some(ladder[0]), ladder[1..], budget);
    }
  }

  /** What the consumer is charged for a layer of the given cost: never more than it was offered. */
  function Charge(cost: nat, bitrate: nat, budget: nat): (r: nat)
    ensures cost <= budget ==> r <= bitrate && r <= cost
    ensures cost <= budget && bitrate > 0 && cost > 0 ==> r > 0
  {
    if cost <= bitrate then cost
    else if cost <= budget then bitrate
    else cost
  }

  // ----- The layers a consumer can choose from

  /** One spatial layer: whether the first pass may use it, whether the layer-by-layer pass may, whether its score is
      good, the cost of all its temporal layers up to t, and that of temporal layer t alone. */
  datatype Row = Row(usable: bool, climbable: bool, good: bool, costs: seq<nat>, stepCosts: seq<nat>)

  datatype Grid = Grid(rows: seq<Row>, preferredSpatial: int, preferredTemporal: int)

  predicate Preferred(g: Grid, s: int, t: int)
  {
    s == g.preferredSpatial && t == g.preferredTemporal
  }

  /** The rungs that UseAvailableBitrate tries from spatial layer `s` on. */
  function Ladder(g: Grid, s: nat): seq<Rung>
    decreases |g.rows| - s, 2, 0
  {
    if s >= |g.rows| then []
    else if g.rows[s].usable then LadderFrom(g, s, 0)
    else Ladder(g, s + 1)
  }

  function LadderFrom(g: Grid, s: nat, t: nat): seq<Rung>
    requires s < |g.rows|
    decreases |g.rows| - s, 1, |g.rows[s].costs| - t
  {
    if t >= |g.rows[s].costs| || g.rows[s].costs[t] == 0 then LadderAfter(g, s)
    else
      [Rung(s, t, g.rows[s].costs[t])] +
      if Preferred(g, s, t) && g.rows[s].good then [] else LadderFrom(g, s, t + 1)
  }

  function LadderAfter(g: Grid, s: nat): seq<Rung>
    requires s < |g.rows|
    decreases |g.rows| - s, 0, 0
  {
    if s >= g.preferredSpatial && g.rows[s].good then [] else Ladder(g, s + 1)
  }

  /** The layer that IncreaseLayer considers above (ps, pt), from spatial layer `s` on. */
  function NextRung(g: Grid, ps: int, pt: int, s: nat): Option<Rung>
    decreases |g.rows| - s, 2, 0
  {
    if s >= |g.rows| then None
    else if s < ps || !g.rows[s].climbable then NextRung(g, ps, pt, s + 1)
    else NextRungFrom(g, ps, pt, s, 0)
  }

  function NextRungFrom(g: Grid, ps: int, pt: int, s: nat, t: nat): Option<Rung>
    requires s < |g.rows|
    decreases |g.rows| - s, 1, |g.rows[s].stepCosts| - t
  {
    if t >= |g.rows[s].stepCosts| then NextRungAfter(g, ps, pt, s)
    else if Preferred(g, s, t) then None
    else if s == ps && t <= pt then NextRungFrom(g, ps, pt, s, t + 1)
    else if g.rows[s].stepCosts[t] != 0 then Some(Rung(s, t, g.rows[s].stepCosts[t]))
    else NextRungAfter(g, ps, pt, s)
  }

  function NextRungAfter(g: Grid, ps: int, pt: int, s: nat): Option<Rung>
    requires s < |g.rows|
    decreases |g.rows| - s, 0, 0
  {
    if s >= g.preferredSpatial then None else NextRung(g, ps, pt, s + 1)
  }

  /** The layer chosen by UseAvailableBitrate and what it uses. */
  function Use(g: Grid, fractionLost: u8, bitrate: nat): (Option<Rung>, nat)
  {
    var budget := VirtualBitrate(fractionLost, bitrate);
    var r := Climb(None, Ladder(g, 0), budget);
    (r, Charge(if r.Some? then r.value.bitrate else 0, bitrate, budget))
  }

  /** The layer IncreaseLayer moves to, None when it stays, and what it uses. */
  function Increase(g: Grid, ps: int, pt: int, fractionLost: u8, bitrate: nat): (Option<Rung>, nat)
  {
    var budget := VirtualBitrate(fractionLost, bitrate);
    if Preferred(g, ps, pt) then (None, 0)
    else
      var r := NextRung(g, ps, pt, 0);
      if r.None? || r.value.bitrate > budget then (None, 0)
      else (r, Charge(r.value.bitrate, bitrate, budget))
  }

  // ----- What the first pass promises

  /** A rung of a usable layer, at its true and positive cost. */
  predicate GoodRung(g: Grid, r: Rung)
  {
    && 0 <= r.spatial < |g.rows|
    && g.rows[r.spatial].usable
    && 0 <= r.temporal < |g.rows[r.spatial].costs|
    && r.bitrate == g.rows[r.spatial].costs[r.temporal] > 0
  }

  /** All rungs are good, none lies below (s, t), and they go strictly up. */
  predicate GoodLadder(g: Grid, ladder: seq<Rung>, s: int, t: int)
  {
    && (forall i :: 0 <= i < |ladder| ==> GoodRung(g, ladder[i]) && !Below(ladder[i].spatial, ladder[i].temporal, s, t))
    && (forall i, j :: 0 <= i < j < |ladder| ==>
          Below(ladder[i].spatial, ladder[i].temporal, ladder[j].spatial, ladder[j].temporal))
  }

  lemma ConsLadder(g: Grid, r: Rung, rest: seq<Rung>)
    requires GoodRung(g, r) && GoodLadder(g, rest, r.spatial, r.temporal + 1)
    ensures GoodLadder(g, [r] + rest, r.spatial, r.temporal)
  {
    var all := [r] + rest;
    forall i | 0 <= i < |all|
      ensures GoodRung(g, all[i]) && !Below(all[i].spatial, all[i].temporal, r.spatial, r.temporal)
    {
      assert i > 0 ==> all[i] == rest[i - 1];
    }
  }

  lemma LowerBoundLadder(g: Grid, ladder: seq<Rung>, s: int, t: int, s': int, t': int)
    requires GoodLadder(g, ladder, s, t) && !Below(s, t, s', t')
    ensures GoodLadder(g, ladder, s', t')
  {
  }

  lemma EmptyLadder(g: Grid, s: int, t: int)
    ensures GoodLadder(g, [], s, t)
  {
  }

  lemma {:induction false} LadderIsGood(g: Grid, s: nat)
    ensures GoodLadder(g, Ladder(g, s), s, 0)
    decreases |g.rows| - s, 2, 0
  {
    hide GoodLadder;
    if s >= |g.rows| {
      EmptyLadder(g, s, 0);
    } else if g.rows[s].usable {
      LadderFromIsGood(g, s, 0);
    } else {
      LadderIsGood(g, s + 1);
      LowerBoundLadder(g, Ladder(g, s + 1), s + 1, 0, s, 0);
    }
  }

  lemma {:induction false} LadderFromIsGood(g: Grid, s: nat, t: nat)
    requires s < |g.rows| && g.rows[s].usable
    ensures GoodLadder(g, LadderFrom(g, s, t), s, t)
    decreases |g.rows| - s, 1, |g.rows[s].costs| - t
  {
    hide GoodLadder;
    if t >= |g.rows[s].costs| || g.rows[s].costs[t] == 0 {
      LadderAfterIsGood(g, s, t);
    } else {
      var r := Rung(s, t, g.rows[s].costs[t]);
      if Preferred(g, s, t) && g.rows[s].good {
        EmptyLadder(g, s, t + 1);
        ConsLadder(g, r, []);
      } else {
        LadderFromIsGood(g, s, t + 1);
        ConsLadder(g, r, LadderFrom(g, s, t + 1));
      }
    }
  }

  lemma {:induction false} LadderAfterIsGood(g: Grid, s: nat, t: nat)
    requires s < |g.rows|
    ensures GoodLadder(g, LadderAfter(g, s), s, t)
    decreases |g.rows| - s, 0, 0
  {
    hide GoodLadder;
    if s >= g.preferredSpatial && g.rows[s].good {
      EmptyLadder(g, s, t);
    } else {
      LadderIsGood(g, s + 1);
      LowerBoundLadder(g, Ladder(g, s + 1), s + 1, 0, s, t);
    }
  }

  /** UseAvailableBitrate never uses more than it is given. It ends on the highest rung below which everything is
      affordable, or on no layer when the first rung is too expensive already. */
  lemma UseIsFair(g: Grid, fractionLost: u8, bitrate: nat)
    ensures var (r, used) := Use(g, fractionLost, bitrate);
            var ladder := Ladder(g, 0);
            var n := Height(ladder, VirtualBitrate(fractionLost, bitrate));
            && used <= bitrate
            && r == (if n == 0 then None else Some(ladder[n - 1]))
            && used == (if n == 0 then 0 else if ladder[n - 1].bitrate <= bitrate then ladder[n - 1].bitrate else bitrate)
            && GoodLadder(g, ladder, 0, 0)
  {
    hide Ladder, VirtualBitrate, Climb, GoodLadder;
    LadderIsGood(g, 0);
    ClimbEnds(None, Ladder(g, 0), VirtualBitrate(fractionLost, bitrate));
  }

  // ----- Which layers are on the ladder

  /** With a good layer from the preferred one on, the climb ends. */
  predicate Last(g: Grid, s: nat)
    requires s < |g.rows|
  {
    s >= g.preferredSpatial && g.rows[s].good
  }

  /** The layer pair is usable, every temporal layer up to it has a cost, and neither the preferred pair nor a last layer
      comes before it. */
  predicate OnLadder(g: Grid, from: nat, s: nat, t: nat)
  {
    && from <= s < |g.rows| && g.rows[s].usable && t < |g.rows[s].costs|
    && (forall i :: 0 <= i <= t ==> g.rows[s].costs[i] != 0)
    && (forall i :: 0 <= i < t ==> !(Preferred(g, s, i) && g.rows[s].good))
    && (forall k :: from <= k < s ==> !(g.rows[k].usable && Last(g, k)))
  }

  predicate Holds(ladder: seq<Rung>, s: nat, t: nat)
  {
    exists i :: 0 <= i < |ladder| && ladder[i].spatial == s && ladder[i].temporal == t
  }

  lemma HoldsCons(r: Rung, rest: seq<Rung>, s: nat, t: nat)
    ensures Holds([r] + rest, s, t) <==> (r.spatial == s && r.temporal == t) || Holds(rest, s, t)
  {
    var all := [r] + rest;
    if Holds(rest, s, t) {
      var i :| 0 <= i < |rest| && rest[i].spatial == s && rest[i].temporal == t;
      assert all[i + 1] == rest[i];
    }
    if r.spatial == s && r.temporal == t {
      assert all[0] == r;
    }
  }

  /** The ladder leaves out none of these, and has no others. */
  lemma {:induction false} LadderHolds(g: Grid, from: nat, s: nat, t: nat)
    ensures Holds(Ladder(g, from), s, t) <==> OnLadder(g, from, s, t)
    decreases |g.rows| - from, 2, 0
  {
    if from >= |g.rows| {
    } else if g.rows[from].usable {
      LadderFromHolds(g, from, 0, s, t);
    } else {
      LadderHolds(g, from + 1, s, t);
    }
  }

  lemma {:induction false} LadderFromHolds(g: Grid, from: nat, low: nat, s: nat, t: nat)
    requires from < |g.rows| && g.rows[from].usable
    ensures Holds(LadderFrom(g, from, low), s, t) <==>
            if s == from then
              && low <= t < |g.rows[s].costs|
              && (forall i :: low <= i <= t ==> g.rows[s].costs[i] != 0)
              && (forall i :: low <= i < t ==> !(Preferred(g, s, i) && g.rows[s].good))
            else !Last(g, from) && OnLadder(g, from + 1, s, t)
    decreases |g.rows| - from, 1, |g.rows[from].costs| - low
  {
    hide Holds;
    if low >= |g.rows[from].costs| || g.rows[from].costs[low] == 0 {
      LadderAfterHolds(g, from, s, t);
    } else {
      var r := Rung(from, low, g.rows[from].costs[low]);
      if Preferred(g, from, low) && g.rows[from].good {
        HoldsCons(r, [], s, t);
        NothingHeld(s, t);
      } else {
        LadderFromHolds(g, from, low + 1, s, t);
        HoldsCons(r, LadderFrom(g, from, low + 1), s, t);
      }
    }
  }

  lemma {:induction false} LadderAfterHolds(g: Grid, from: nat, s: nat, t: nat)
    requires from < |g.rows|
    ensures Holds(LadderAfter(g, from), s, t) <==> !Last(g, from) && OnLadder(g, from + 1, s, t)
    decreases |g.rows| - from, 0, 0
  {
    hide Holds;
    NothingHeld(s, t);
    if !Last(g, from) {
      LadderHolds(g, from + 1, s, t);
    }
  }

  lemma NothingHeld(s: nat, t: nat)
    ensures !Holds([], s, t)
  {
  }

  // ----- Which layer is the next one

  /** The temporal layer at which the search in spatial layer `s` looks. */
  function NextTemporal(ps: int, pt: int, s: nat): nat
  {
    if s == ps && pt >= 0 then pt + 1 else 0
  }

  /** The preferred pair comes up at or before that. */
  predicate MeetsPreferred(g: Grid, ps: int, pt: int, s: nat)
    requires s < |g.rows|
  {
    exists i :: 0 <= i <= NextTemporal(ps, pt, s) && i < |g.rows[s].stepCosts| && Preferred(g, s, i)
  }

  predicate HasCost(g: Grid, ps: int, pt: int, s: nat)
    requires s < |g.rows|
  {
    var t := NextTemporal(ps, pt, s);
    t < |g.rows[s].stepCosts| && g.rows[s].stepCosts[t] != 0
  }

  /** The search goes past spatial layer `s`. */
  predicate GoesPast(g: Grid, ps: int, pt: int, s: nat)
    requires s < |g.rows|
  {
    || s < ps || !g.rows[s].climbable
    || (!MeetsPreferred(g, ps, pt, s) && !HasCost(g, ps, pt, s) && s < g.preferredSpatial)
  }

  predicate IsNext(g: Grid, ps: int, pt: int, from: nat, s: nat)
  {
    && from <= s < |g.rows| && s >= ps && g.rows[s].climbable
    && !MeetsPreferred(g, ps, pt, s) && HasCost(g, ps, pt, s)
    && forall k :: from <= k < s ==> GoesPast(g, ps, pt, k)
  }

  /** IncreaseLayer considers the first layer pair that has a cost, in the first climbable spatial layer that has one, up
      to the preferred pair. */
  lemma {:induction false} NextRungIff(g: Grid, ps: int, pt: int, from: nat, s: nat)
    ensures var r := NextRung(g, ps, pt, from);
            (r.Some? && r.value.spatial == s) <==> IsNext(g, ps, pt, from, s)
    ensures IsNext(g, ps, pt, from, s) ==>
              var t := NextTemporal(ps, pt, s); NextRung(g, ps, pt, from) == Some(Rung(s, t, g.rows[s].stepCosts[t]))
    decreases |g.rows| - from
  {
    hide NextRungFrom, MeetsPreferred, HasCost;
    if from < |g.rows| {
      if from < ps || !g.rows[from].climbable {
        assert GoesPast(g, ps, pt, from);
        NextRungIff(g, ps, pt, from + 1, s);
      } else {
        NextInRow(g, ps, pt, from, 0);
        assert GoesPast(g, ps, pt, from) <==>
               !MeetsPreferred(g, ps, pt, from) && !HasCost(g, ps, pt, from) && from < g.preferredSpatial;
        if from < g.preferredSpatial {
          NextRungIff(g, ps, pt, from + 1, s);
        }
      }
    }
  }

  /** The search in one spatial layer. */
  lemma {:induction false} NextInRow(g: Grid, ps: int, pt: int, s: nat, low: nat)
    requires s < |g.rows| && s >= ps && low <= NextTemporal(ps, pt, s)
    requires forall i :: 0 <= i < low && i < |g.rows[s].stepCosts| ==> !Preferred(g, s, i)
    ensures NextRungFrom(g, ps, pt, s, low) ==
            if MeetsPreferred(g, ps, pt, s) then None
            else if HasCost(g, ps, pt, s) then
              var t := NextTemporal(ps, pt, s); Some(Rung(s, t, g.rows[s].stepCosts[t]))
            else NextRungAfter(g, ps, pt, s)
    decreases |g.rows[s].stepCosts| - low
  {
    hide NextRung;
    if low < |g.rows[s].stepCosts| && !Preferred(g, s, low) && s == ps && low <= pt {
      NextInRow(g, ps, pt, s, low + 1);
    }
  }

  // ----- What a consumer can afford, in numbers

  /** A layer is within reach of a bitrate: up to 27/25 of it below 2 percent loss (a fractionLost of at most 5), the
      bitrate less half the lost fraction above 10 percent (at least 26), and the bitrate itself in between. */
  predicate Affords(fractionLost: u8, bitrate: nat, cost: nat)
  {
    if fractionLost <= 5 then 25 * cost <= 27 * bitrate
    else if fractionLost >= 26 then 512 * cost + fractionLost * bitrate <= 512 * bitrate
    else cost <= bitrate
  }

  lemma AffordsIff(fractionLost: u8, bitrate: nat, cost: nat)
    ensures cost <= VirtualBitrate(fractionLost, bitrate) <==> Affords(fractionLost, bitrate, cost)
  {
    if fractionLost >= 26 {
      assert (512 - fractionLost) * bitrate == 512 * bitrate - fractionLost * bitrate;
      AtMostQuotient(cost, (512 - fractionLost) * bitrate, 512);
    } else if fractionLost <= 5 {
      AtMostQuotient(cost, 27 * bitrate, 25);
    }
  }

  lemma AtMostQuotient(x: nat, y: nat, t: nat)
    requires t > 0
    ensures x <= y / t <==> t * x <= y
  {
    QuotientBounds(y, t);
    if x <= y / t {
      MulMono(x, y / t, t);
    } else {
      MulMono(y / t + 1, x, t);
    }
  }

  /** How far up the ladder UseAvailableBitrate gets: everything up to there is affordable, the next rung is not. */
  lemma UseInNumbers(g: Grid, fractionLost: u8, bitrate: nat) returns (n: nat)
    ensures var (r, used), ladder := Use(g, fractionLost, bitrate), Ladder(g, 0);
            && n <= |ladder|
            && (forall i :: 0 <= i < n ==> Affords(fractionLost, bitrate, ladder[i].bitrate))
            && (n < |ladder| ==> !Affords(fractionLost, bitrate, ladder[n].bitrate))
            && r == (if n == 0 then None else Some(ladder[n - 1]))
            && (r.Some? ==> used == if r.value.bitrate <= bitrate then r.value.bitrate else bitrate)
            && (r.None? ==> used == 0)
  {
    hide Ladder, VirtualBitrate, Affords;
    var ladder, budget := Ladder(g, 0), VirtualBitrate(fractionLost, bitrate);
    n := Height(ladder, budget);
    ClimbEnds(None, ladder, budget);
    forall i | 0 <= i < |ladder|
      ensures ladder[i].bitrate <= budget <==> Affords(fractionLost, bitrate, ladder[i].bitrate)
    {
      AffordsIff(fractionLost, bitrate, ladder[i].bitrate);
    }
  }

  /** More bitrate or less loss affords more. */
  lemma AffordsMore(fractionLost: u8, bitrate: nat, lower: u8, higher: nat, cost: nat)
    requires lower <= fractionLost && bitrate <= higher && Affords(fractionLost, bitrate, cost)
    ensures Affords(lower, higher, cost)
  {
    if fractionLost >= 26 {
      MulMono(bitrate, higher, 512 - fractionLost);
      assert bitrate * (512 - fractionLost) == 512 * bitrate - fractionLost * bitrate;
      assert higher * (512 - fractionLost) == 512 * higher - fractionLost * higher;
      MulMono(lower, fractionLost, higher);
    }
  }

  /** With less loss or more bitrate UseAvailableBitrate never ends on a lower rung. */
  lemma UseIsMonotone(g: Grid, fractionLost: u8, bitrate: nat, lower: u8, higher: nat)
    requires lower <= fractionLost && bitrate <= higher
    ensures var r, q := Use(g, fractionLost, bitrate).0, Use(g, lower, higher).0;
            r.Some? ==> q.Some? && !Below(q.value.spatial, q.value.temporal, r.value.spatial, r.value.temporal)
  {
    hide Ladder, Use, Affords;
    var n := UseInNumbers(g, fractionLost, bitrate);
    var k := UseInNumbers(g, lower, higher);
    var ladder := Ladder(g, 0);
    if k < n {
      AffordsMore(fractionLost, bitrate, lower, higher, ladder[k].bitrate);
    }
    LadderIsGood(g, 0);
  }

  /** IncreaseLayer moves to the next rung if and only if there is one and it is affordable. */
  lemma IncreaseInNumbers(g: Grid, ps: int, pt: int, fractionLost: u8, bitrate: nat)
    ensures var r, next := Increase(g, ps, pt, fractionLost, bitrate).0, NextRung(g, ps, pt, 0);
            r == if !Preferred(g, ps, pt) && next.Some? && Affords(fractionLost, bitrate, next.value.bitrate) then next
                 else None
  {
    hide NextRung, VirtualBitrate, Affords;
    var next := NextRung(g, ps, pt, 0);
    if next.Some? {
      AffordsIff(fractionLost, bitrate, next.value.bitrate);
    }
  }

  // ----- What the layer-by-layer pass promises

  /** What IncreaseLayer may move to: a climbable layer strictly above (ps, pt), at its true and positive cost, and
      never the preferred pair, at which the search stops. */
  predicate GoodStep(g: Grid, ps: int, pt: int, r: Rung)
  {
    && 0 <= r.spatial < |g.rows|
    && g.rows[r.spatial].climbable
    && 0 <= r.temporal < |g.rows[r.spatial].stepCosts|
    && r.bitrate == g.rows[r.spatial].stepCosts[r.temporal] > 0
    && Below(ps, pt, r.spatial, r.temporal)
    && !Preferred(g, r.spatial, r.temporal)
  }

  lemma {:induction false} NextRungIsGood(g: Grid, ps: int, pt: int, s: nat)
    ensures NextRung(g, ps, pt, s).Some? ==> GoodStep(g, ps, pt, NextRung(g, ps, pt, s).value)
    decreases |g.rows| - s, 2, 0
  {
    hide GoodStep;
    if s < |g.rows| {
      if s < ps || !g.rows[s].climbable {
        NextRungIsGood(g, ps, pt, s + 1);
      } else {
        NextRungFromIsGood(g, ps, pt, s, 0);
      }
    }
  }

  lemma {:induction false} NextRungFromIsGood(g: Grid, ps: int, pt: int, s: nat, t: nat)
    requires s < |g.rows| && g.rows[s].climbable && s >= ps
    ensures NextRungFrom(g, ps, pt, s, t).Some? ==> GoodStep(g, ps, pt, NextRungFrom(g, ps, pt, s, t).value)
    decreases |g.rows| - s, 1, |g.rows[s].stepCosts| - t
  {
    if t >= |g.rows[s].stepCosts| {
      NextRungAfterIsGood(g, ps, pt, s);
    } else if Preferred(g, s, t) {
    } else if s == ps && t <= pt {
      NextRungFromIsGood(g, ps, pt, s, t + 1);
    } else if g.rows[s].stepCosts[t] == 0 {
      NextRungAfterIsGood(g, ps, pt, s);
    }
  }

  lemma {:induction false} NextRungAfterIsGood(g: Grid, ps: int, pt: int, s: nat)
    requires s < |g.rows|
    ensures NextRungAfter(g, ps, pt, s).Some? ==> GoodStep(g, ps, pt, NextRungAfter(g, ps, pt, s).value)
    decreases |g.rows| - s, 0, 0
  {
    hide GoodStep;
    if s < g.preferredSpatial {
      NextRungIsGood(g, ps, pt, s + 1);
    }
  }

  /** IncreaseLayer never uses more than it is given, and uses something exactly when it moves; then it moves strictly
      up, to a layer it can afford, but never to the preferred pair. */
  lemma IncreaseClimbs(g: Grid, ps: int, pt: int, fractionLost: u8, bitrate: nat)
    ensures var (r, used) := Increase(g, ps, pt, fractionLost, bitrate);
            && used <= bitrate
            && (used > 0 <==> r.Some?)
            && (r.Some? ==> GoodStep(g, ps, pt, r.value) && r.value.bitrate <= VirtualBitrate(fractionLost, bitrate))
  {
    hide NextRung;
    NextRungIsGood(g, ps, pt, 0);
  }

  // ----- The priority of a consumer

  /** The loop of GetBitratePriority from spatial layer `s` on; `live` says which layers have media. */
  function PriorityLayer(live: seq<bool>, preferred: int, s: nat, best: int): (r: int)
    ensures r == best || 0 <= r < |live|
    decreases |live| - s
  {
    if s >= |live| || (s > preferred && best != -1) then best
    else PriorityLayer(live, preferred, s + 1, if live[s] then s else best)
  }

  /** The layer that stands for the consumer's wish: the highest live one up to the preferred one, or else the lowest
      live one above it; -1 when no layer is live. */
  predicate IsWish(live: seq<bool>, preferred: int, r: int)
  {
    if r == -1 then forall i :: 0 <= i < |live| ==> !live[i]
    else
      && 0 <= r < |live|
      && live[r]
      && (r <= preferred ==> forall i :: r < i < |live| && i <= preferred ==> !live[i])
      && (r > preferred ==> forall i :: 0 <= i < r ==> !live[i])
  }

  lemma {:induction false} PriorityLayerIsWish(live: seq<bool>, preferred: int, s: nat, best: int)
    requires s <= |live|
    requires best == -1 ==> forall i :: 0 <= i < s ==> !live[i]
    requires best != -1 ==>
               && 0 <= best < s
               && live[best]
               && (best <= preferred ==> forall i :: best < i < s && i <= preferred ==> !live[i])
               && (best > preferred ==> forall i :: 0 <= i < best ==> !live[i])
    ensures IsWish(live, preferred, PriorityLayer(live, preferred, s, best))
    decreases |live| - s
  {
    if s < |live| && !(s > preferred && best != -1) {
      PriorityLayerIsWish(live, preferred, s + 1, if live[s] then s else best);
    }
  }

  lemma WishIsUnique(live: seq<bool>, preferred: int, x: int, y: int)
    requires IsWish(live, preferred, x) && IsWish(live, preferred, y)
    ensures x == y
  {
    if x != -1 && y != -1 {
      assert live[x] && live[y];
    }
  }

  // ----- One step of the climb at a time

  lemma LadderStep(g: Grid, s: nat)
    requires s < |g.rows|
    ensures Ladder(g, s) == if g.rows[s].usable then LadderFrom(g, s, 0) else Ladder(g, s + 1)
  {
  }

  lemma LadderEnd(g: Grid, s: nat)
    requires s >= |g.rows|
    ensures Ladder(g, s) == []
  {
  }

  lemma LadderFromStep(g: Grid, s: nat, t: nat, reached: Option<Rung>, budget: nat)
    requires s < |g.rows| && t < |g.rows[s].costs| && g.rows[s].costs[t] != 0
    ensures var r := Rung(s, t, g.rows[s].costs[t]);
            Climb(reached, LadderFrom(g, s, t), budget) ==
            if r.bitrate > budget then reached
            else if Preferred(g, s, t) && g.rows[s].good then Some(r)
            else Climb(Some(r), LadderFrom(g, s, t + 1), budget)
  {
    var r := Rung(s, t, g.rows[s].costs[t]);
    var rest := if Preferred(g, s, t) && g.rows[s].good then [] else LadderFrom(g, s, t + 1);
    assert ([r] + rest)[1..] == rest;
  }

  lemma LadderFromEnd(g: Grid, s: nat, t: nat)
    requires s < |g.rows|
    requires t < |g.rows[s].costs| ==> g.rows[s].costs[t] == 0
    ensures LadderFrom(g, s, t) == LadderAfter(g, s)
  {
  }

  lemma LadderAfterStep(g: Grid, s: nat)
    requires s < |g.rows|
    ensures LadderAfter(g, s) == if s >= g.preferredSpatial && g.rows[s].good then [] else Ladder(g, s + 1)
  {
  }

  lemma ClimbNone(reached: Option<Rung>, budget: nat)
    ensures Climb(reached, [], budget) == reached
  {
  }

  // ----- One step of the search at a time

  lemma NextRungStep(g: Grid, ps: int, pt: int, s: nat)
    requires s < |g.rows|
    ensures NextRung(g, ps, pt, s) ==
            if s < ps || !g.rows[s].climbable then NextRung(g, ps, pt, s + 1) else NextRungFrom(g, ps, pt, s, 0)
  {
  }

  lemma NextRungFromStep(g: Grid, ps: int, pt: int, s: nat, t: nat)
    requires s < |g.rows| && t < |g.rows[s].stepCosts|
    ensures NextRungFrom(g, ps, pt, s, t) ==
            if Preferred(g, s, t) then None
            else if s == ps && t <= pt then NextRungFrom(g, ps, pt, s, t + 1)
            else if g.rows[s].stepCosts[t] != 0 then Some(Rung(s, t, g.rows[s].stepCosts[t]))
            else NextRungAfter(g, ps, pt, s)
  {
  }

  lemma NextRungEnd(g: Grid, ps: int, pt: int, s: nat, t: nat)
    requires s < |g.rows| && t >= |g.rows[s].stepCosts|
    ensures NextRungFrom(g, ps, pt, s, t) == NextRungAfter(g, ps, pt, s)
  {
  }

  lemma NextRungAfterStep(g: Grid, ps: int, pt: int, s: nat)
    requires s < |g.rows|
    ensures NextRungAfter(g, ps, pt, s) == if s >= g.preferredSpatial then None else NextRung(g, ps, pt, s + 1)
  {
  }

  lemma NextRungNone(g: Grid, ps: int, pt: int, s: nat)
    requires s >= |g.rows|
    ensures NextRung(g, ps, pt, s) == None
  {
  }
}
