/** Which layers an SvcConsumer chooses, told from the costs of its stream. */
module SvcChoices {
  import opened Bytes
  import opened Layers
  import opened SvcConsumers

  predicate Active(c: Svc)
  {
    c.transportConnected && !c.paused && !c.producerPaused
  }

  // ----- Targets

  /** The target is the chosen spatial layer with the preferred temporal layer if it is the preferred one, with the highest
      below it and the lowest above it; a dead stream has none. */
  lemma TargetIs(c: Svc, live: seq<bool>) returns (s: int, t: int)
    requires c.stream.Some? ==> |live| == |c.stream.value.spatialBitrates|
    requires c.stream.Some? ==> forall i :: 0 <= i < |live| ==> live[i] == (c.stream.value.spatialBitrates[i] != 0)
    ensures TargetLayers(c) == (s, t)
    ensures c.stream.Some? && c.stream.value.score != 0 ==> IsChoice(live, c.preferredSpatialLayer, s)
    ensures c.stream.None? || c.stream.value.score == 0 ==> s == -1
    ensures s == -1 ==> t == -1
    ensures s != -1 && s == c.preferredSpatialLayer ==> t == c.preferredTemporalLayer
    ensures s != -1 && s < c.preferredSpatialLayer ==> t == c.temporalLayers - 1
    ensures s != -1 && s > c.preferredSpatialLayer ==> t == 0
  {
    s, t := TargetLayers(c).0, TargetLayers(c).1;
    if Alive(c) {
      assert live == LiveLayers(c.stream.value);
      ChooseSpatialIsChoice(live, c.preferredSpatialLayer, 0, -1);
    }
  }

  /** ApplyLayers: an active consumer has its provisional layers as target, and every consumer forgets them. */
  lemma ApplyIs(c: Svc)
    requires c.provisionalTargetSpatialLayer == -1 ==> c.provisionalTargetTemporalLayer == -1
    ensures ApplyLayers(c) ==
            c.(targetSpatialLayer := if Active(c) then c.provisionalTargetSpatialLayer else c.targetSpatialLayer,
               targetTemporalLayer := if Active(c) then c.provisionalTargetTemporalLayer else c.targetTemporalLayer,
               provisionalTargetSpatialLayer := -1,
               provisionalTargetTemporalLayer := -1)
  {
  }

  /** GetBitratePriority: one more than the layer that the consumer wishes for, at least 1; 0 when it is not active or its
      stream is dead. */
  lemma PriorityIs(c: Svc, live: seq<bool>, wish: int)
    requires c.stream.Some? ==> |live| == |c.stream.value.spatialBitrates|
    requires c.stream.Some? ==> forall i :: 0 <= i < |live| ==> live[i] == (c.stream.value.spatialBitrates[i] != 0)
    requires IsWish(live, c.preferredSpatialLayer, wish)
    ensures BitratePriority(c) ==
            if !Active(c) || c.stream.None? || c.stream.value.score == 0 then 0 else if wish == -1 then 1 else wish + 1
  {
    if Alive(c) {
      assert live == LiveLayers(c.stream.value);
      PriorityLayerIsWish(live, c.preferredSpatialLayer, 0, -1);
      WishIsUnique(live, c.preferredSpatialLayer, wish, PriorityLayer(live, c.preferredSpatialLayer, 0, -1));
    }
  }

  // ----- Bitrates

  /** The layer pair can be reached by UseAvailableBitrate, whatever it costs: the stream is alive, its temporal layers up
      to there have a cost, the preferred pair does not come before it, and it is not above the preferred spatial layer. */
  predicate Reachable(c: Svc, s: nat, t: nat)
  {
    && c.stream.Some? && c.stream.value.score != 0
    && s < |c.stream.value.bitrates| && t < |c.stream.value.bitrates[s]|
    && (forall i :: 0 <= i <= t ==> c.stream.value.bitrates[s][i] != 0)
    && !(s == c.preferredSpatialLayer && 0 <= c.preferredTemporalLayer < t)
    && (s <= c.preferredSpatialLayer || s == 0)
  }

  /** The rungs are the reachable layer pairs, in ascending order and at their cost. */
  ghost predicate IsLadder(c: Svc, ladder: seq<Rung>)
  {
    && (forall s: nat, t: nat :: Holds(ladder, s, t) <==> Reachable(c, s, t))
    && (forall i :: 0 <= i < |ladder| ==> HasCostOf(c, ladder[i]))
    && (forall i, j :: 0 <= i < j < |ladder| ==>
          Below(ladder[i].spatial, ladder[i].temporal, ladder[j].spatial, ladder[j].temporal))
  }

  predicate HasCostOf(c: Svc, r: Rung)
  {
    && c.stream.Some?
    && 0 <= r.spatial < |c.stream.value.bitrates|
    && 0 <= r.temporal < |c.stream.value.bitrates[r.spatial]|
    && r.bitrate == c.stream.value.bitrates[r.spatial][r.temporal]
  }

  lemma ReachableIff(c: Svc, s: nat, t: nat)
    requires WellFormed(c)
    ensures OnLadder(GridOf(c), 0, s, t) <==> Reachable(c, s, t)
  {
    var g, p := GridOf(c), c.preferredTemporalLayer;
    if 0 <= p < t {
      assert Preferred(g, s, p) <==> s == g.preferredSpatial;
    }
    if 0 < s <= |g.rows| {
      assert g.rows[s - 1].usable && Last(g, s - 1) <==> s - 1 >= c.preferredSpatialLayer;
    }
  }

  lemma LadderIs(c: Svc)
    requires WellFormed(c)
    ensures IsLadder(c, Ladder(GridOf(c), 0))
  {
    hide Reachable, Holds;
    var ladder := Ladder(GridOf(c), 0);
    LadderIsGood(GridOf(c), 0);
    forall s: nat, t: nat ensures Holds(ladder, s, t) <==> Reachable(c, s, t) {
      LadderHolds(GridOf(c), 0, s, t);
      ReachableIff(c, s, t);
    }
  }

  /** UseAvailableBitrate of an active consumer: the provisional layers are the last of the reachable ones up to which it
      affords everything, and it uses what they cost, up to what it was offered. */
  lemma UseIs(c: Svc, bitrate: nat) returns (ladder: seq<Rung>, n: nat)
    requires WellFormed(c) && Active(c)
    ensures IsLadder(c, ladder) && n <= |ladder|
    ensures forall i :: 0 <= i < n ==> Affords(c.fractionLost, bitrate, ladder[i].bitrate)
    ensures n < |ladder| ==> !Affords(c.fractionLost, bitrate, ladder[n].bitrate)
    ensures var (d, used) := UseAvailableBitrate(c, bitrate);
            if n == 0 then
              used == 0 && d == c.(provisionalTargetSpatialLayer := -1, provisionalTargetTemporalLayer := -1)
            else
              && used == (if ladder[n - 1].bitrate <= bitrate then ladder[n - 1].bitrate else bitrate)
              && d == c.(provisionalTargetSpatialLayer := ladder[n - 1].spatial,
                         provisionalTargetTemporalLayer := ladder[n - 1].temporal)
  {
    hide GridOf, Ladder, Use, Affords, IsLadder;
    LadderIs(c);
    n := UseInNumbers(GridOf(c), c.fractionLost, bitrate);
    ladder := Ladder(GridOf(c), 0);
  }

  /** The preferred pair comes up in spatial layer `s` at or before the temporal layer that the search looks at. */
  predicate StopsIn(c: Svc, s: nat)
    requires c.stream.Some? && s < |c.stream.value.layerBitrates|
  {
    && s == c.preferredSpatialLayer
    && 0 <= c.preferredTemporalLayer < |c.stream.value.layerBitrates[s]|
    && c.preferredTemporalLayer <= NextTemporal(c.provisionalTargetSpatialLayer, c.provisionalTargetTemporalLayer, s)
  }

  predicate OffersIn(c: Svc, s: nat)
    requires c.stream.Some? && s < |c.stream.value.layerBitrates|
  {
    var t := NextTemporal(c.provisionalTargetSpatialLayer, c.provisionalTargetTemporalLayer, s);
    t < |c.stream.value.layerBitrates[s]| && c.stream.value.layerBitrates[s][t] != 0
  }

  predicate LooksFurther(c: Svc, s: nat)
    requires c.stream.Some? && s < |c.stream.value.layerBitrates|
  {
    !StopsIn(c, s) && !OffersIn(c, s) && s < c.preferredSpatialLayer
  }

  /** The first spatial layer, from the provisional one on, whose next temporal layer has a cost. The search does not get
      past the preferred pair, nor past the preferred spatial layer. */
  predicate IsNextLayer(c: Svc, s: nat)
  {
    && c.stream.Some? && c.stream.value.score != 0 && s < |c.stream.value.layerBitrates|
    && s >= c.provisionalTargetSpatialLayer && !StopsIn(c, s) && OffersIn(c, s)
    && forall k :: 0 <= k < s && k >= c.provisionalTargetSpatialLayer ==> LooksFurther(c, k)
  }

  lemma SearchIs(c: Svc, s: nat)
    requires WellFormed(c) && Alive(c) && s < |c.stream.value.layerBitrates|
    ensures var g, ps, pt := GridOf(c), c.provisionalTargetSpatialLayer, c.provisionalTargetTemporalLayer;
            && s < |g.rows| && g.rows[s].climbable && g.rows[s].stepCosts == c.stream.value.layerBitrates[s]
            && (MeetsPreferred(g, ps, pt, s) <==> StopsIn(c, s))
            && (HasCost(g, ps, pt, s) <==> OffersIn(c, s))
  {
    hide NextTemporal;
    if StopsIn(c, s) {
      assert Preferred(GridOf(c), s, c.preferredTemporalLayer);
    }
  }

  lemma RowsAre(c: Svc)
    requires WellFormed(c)
    ensures var g := GridOf(c);
            && |g.rows| == (if Alive(c) then |c.stream.value.layerBitrates| else 0)
            && g.preferredSpatial == c.preferredSpatialLayer
  {
  }

  lemma NextIs(c: Svc, s: nat)
    requires WellFormed(c)
    ensures IsNext(GridOf(c), c.provisionalTargetSpatialLayer, c.provisionalTargetTemporalLayer, 0, s) <==> IsNextLayer(c, s)
  {
    hide GridOf, NextTemporal, MeetsPreferred, HasCost, StopsIn, OffersIn;
    RowsAre(c);
    if Alive(c) && s < |c.stream.value.layerBitrates| {
      SearchIs(c, s);
      var g, ps, pt := GridOf(c), c.provisionalTargetSpatialLayer, c.provisionalTargetTemporalLayer;
      if IsNext(g, ps, pt, 0, s) {
        forall k | 0 <= k < s && k >= ps ensures LooksFurther(c, k) {
          SearchIs(c, k);
          assert GoesPast(g, ps, pt, k);
        }
      }
      if IsNextLayer(c, s) {
        forall k | 0 <= k < s ensures GoesPast(g, ps, pt, k) {
          SearchIs(c, k);
          assert k >= ps ==> LooksFurther(c, k);
        }
      }
    }
  }

  /** IncreaseLayer of an active consumer moves its provisional layers to the next ones if and only if they are not the
      preferred pair and it affords the next ones; it uses what they cost, up to what it was offered. */
  lemma IncreaseIs(c: Svc, bitrate: nat, s: nat)
    requires WellFormed(c) && Active(c) && IsNextLayer(c, s)
    ensures var t := NextTemporal(c.provisionalTargetSpatialLayer, c.provisionalTargetTemporalLayer, s);
            var cost := c.stream.value.layerBitrates[s][t];
            IncreaseLayer(c, bitrate) ==
            if (c.provisionalTargetSpatialLayer == c.preferredSpatialLayer &&
                c.provisionalTargetTemporalLayer == c.preferredTemporalLayer) || !Affords(c.fractionLost, bitrate, cost) then
              (c, 0)
            else
              (c.(provisionalTargetSpatialLayer := s, provisionalTargetTemporalLayer := t),
               if cost <= bitrate then cost else bitrate)
  {
    hide NextTemporal, IsNext, Affords, VirtualBitrate, NextRung, MeetsPreferred, HasCost, StopsIn;
    var g, ps, pt := GridOf(c), c.provisionalTargetSpatialLayer, c.provisionalTargetTemporalLayer;
    var t := NextTemporal(ps, pt, s);
    NextIs(c, s);
    SearchIs(c, s);
    NextRungIff(g, ps, pt, 0, s);
    AffordsIff(c.fractionLost, bitrate, g.rows[s].stepCosts[t]);
  }

  /** Without next layers it stays. */
  lemma NothingToIncrease(c: Svc, bitrate: nat)
    requires WellFormed(c) && Active(c) && c.stream.Some?
    requires forall s: nat :: s < |c.stream.value.layerBitrates| ==> !IsNextLayer(c, s)
    ensures IncreaseLayer(c, bitrate) == (c, 0)
  {
    hide IsNext, VirtualBitrate, NextRung, IsNextLayer;
    var g, ps, pt := GridOf(c), c.provisionalTargetSpatialLayer, c.provisionalTargetTemporalLayer;
    NextRungIsGood(g, ps, pt, 0);
    var r := NextRung(g, ps, pt, 0);
    if r.Some? {
      NextIs(c, r.value.spatial);
      NextRungIff(g, ps, pt, 0, r.value.spatial);
    }
  }
}
