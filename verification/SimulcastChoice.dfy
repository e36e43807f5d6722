/** Which layers a SimulcastConsumer chooses, told from the scores, the reports and the costs of its streams. */
module SimulcastChoices {
  import opened Bytes
  import opened Layers
  import opened Simulcasts
  import opened SimulcastSwitching
  import opened SimulcastLemmas
  import opened SimulcastRuns

  /** Both layers have a Sender Report, so that timestamps can be carried over. */
  predicate HaveReports(c: Simulcast, r: int, s: int)
  {
    && HasStream(c, r) && c.producerStreams[r].value.senderReportNtpMs != 0
    && HasStream(c, s) && c.producerStreams[s].value.senderReportNtpMs != 0
  }

  /** A layer with a live stream, to which the consumer can switch. */
  predicate Candidate(c: Simulcast, s: int)
  {
    && HasStream(c, s) && c.producerStreams[s].value.score != 0
    && (c.tsReferenceSpatialLayer == -1 || s == c.tsReferenceSpatialLayer || HaveReports(c, c.tsReferenceSpatialLayer, s))
  }

  predicate GoodCandidate(c: Simulcast, s: int)
  {
    Candidate(c, s) && c.producerStreams[s].value.score >= 7
  }

  lemma CandidateIs(c: Simulcast, s: nat)
    requires s < |c.producerStreams|
    ensures Candidate(c, s) <==> Score(c, s) != 0 && CanSwitch(c, s)
    ensures Candidate(c, s) ==> Score(c, s) == c.producerStreams[s].value.score
  {
  }

  // ----- RecalculateTargetLayers

  /** Among the layers below `n`: the lowest candidate of a good score from the preferred layer on; without any, the
      highest candidate of a good score; without that, the highest of those with the best score. */
  predicate IsChosen(c: Simulcast, n: nat, r: int)
    requires n <= |c.producerStreams|
  {
    if r == -1 then forall s :: 0 <= s < n ==> !Candidate(c, s)
    else
      && 0 <= r < n && Candidate(c, r)
      && if exists s :: 0 <= s < n && s >= c.preferredSpatialLayer && GoodCandidate(c, s) then
           && GoodCandidate(c, r) && r >= c.preferredSpatialLayer
           && forall s :: 0 <= s < r && s >= c.preferredSpatialLayer ==> !GoodCandidate(c, s)
         else if exists s :: 0 <= s < n && GoodCandidate(c, s) then
           GoodCandidate(c, r) && forall s :: r < s < n ==> !GoodCandidate(c, s)
         else
           forall s :: 0 <= s < n && Candidate(c, s) ==>
             Score(c, s) < Score(c, r) || (Score(c, s) == Score(c, r) && s <= r)
  }

  /** The scan has not met its end so far. */
  predicate Scanned(c: Simulcast, n: nat, best: int, maxScore: u8)
    requires n <= |c.producerStreams|
  {
    && IsChosen(c, n, best)
    && maxScore == (if best == -1 then 0 else Score(c, best))
    && forall s :: 0 <= s < n && s >= c.preferredSpatialLayer ==> !GoodCandidate(c, s)
  }

  lemma ScanSkips(c: Simulcast, n: nat, best: int, maxScore: u8)
    requires n < |c.producerStreams| && Scanned(c, n, best, maxScore)
    requires Score(c, n) == 0 || !CanSwitch(c, n) || (Score(c, n) < maxScore && Score(c, n) < 7)
    ensures Scanned(c, n + 1, best, maxScore)
  {
    hide CanSwitch, Candidate;
    CandidateIs(c, n);
  }

  lemma ScanTakes(c: Simulcast, n: nat, best: int, maxScore: u8)
    requires n < |c.producerStreams| && Scanned(c, n, best, maxScore)
    requires !(Score(c, n) == 0 || !CanSwitch(c, n) || (Score(c, n) < maxScore && Score(c, n) < 7))
    ensures IsChosen(c, n + 1, n)
    ensures !(n >= c.preferredSpatialLayer && Score(c, n) >= 7) ==> Scanned(c, n + 1, n, Score(c, n))
  {
    hide CanSwitch, Candidate;
    CandidateIs(c, n);
    if Score(c, n) >= 7 {
      assert GoodCandidate(c, n);
    } else {
      if best != -1 {
        CandidateIs(c, best);
      }
      assert forall s :: 0 <= s < n ==> !GoodCandidate(c, s);
      assert !GoodCandidate(c, n);
      assert forall s :: 0 <= s < n && Candidate(c, s) ==> Score(c, s) <= Score(c, n);
    }
  }

  /** Where the scan ends early, what comes after does not matter. */
  lemma EarlyEnd(c: Simulcast, n: nat, r: nat)
    requires n <= |c.producerStreams| && IsChosen(c, n, r) && r >= c.preferredSpatialLayer && GoodCandidate(c, r)
    ensures IsChosen(c, |c.producerStreams|, r)
  {
    hide Candidate;
  }

  lemma {:induction false} ChooseSpatialIsChosen(c: Simulcast, n: nat, best: int, maxScore: u8)
    requires n <= |c.producerStreams| && Scanned(c, n, best, maxScore)
    ensures IsChosen(c, |c.producerStreams|, ChooseSpatial(c, n, best, maxScore))
    decreases |c.producerStreams| - n
  {
    hide CanSwitch, Scanned, IsChosen;
    ScannedIsChosen(c, n, best, maxScore);
    if n < |c.producerStreams| {
      if Score(c, n) == 0 || !CanSwitch(c, n) || (Score(c, n) < maxScore && Score(c, n) < 7) {
        ScanSkips(c, n, best, maxScore);
        ChooseSpatialIsChosen(c, n + 1, best, maxScore);
      } else {
        ScanTakes(c, n, best, maxScore);
        if n >= c.preferredSpatialLayer && Score(c, n) >= 7 {
          CandidateIs(c, n);
          EarlyEnd(c, n + 1, n);
        } else {
          ChooseSpatialIsChosen(c, n + 1, n, Score(c, n));
        }
      }
    }
  }

  lemma ScannedIsChosen(c: Simulcast, n: nat, best: int, maxScore: u8)
    requires n <= |c.producerStreams| && Scanned(c, n, best, maxScore)
    ensures IsChosen(c, n, best)
  {
  }

  /** MayChangeLayers: the target becomes the chosen spatial layer with the preferred temporal layer if it is the preferred
      one, with the highest below it and the lowest above it. With an externally managed bitrate nothing changes, and the
      transport is asked when the spatial layer differs, or anything does and the caller insists. */
  lemma ChangeIsChosen(c: Simulcast, force: bool) returns (s: int, t: int)
    requires AlmostSafe(c)
    ensures IsChosen(c, |c.producerStreams|, s)
    ensures s == -1 ==> t == -1
    ensures s != -1 && s == c.preferredSpatialLayer ==> t == c.preferredTemporalLayer
    ensures s != -1 && s < c.preferredSpatialLayer ==> t == c.temporalLayers - 1
    ensures s > c.preferredSpatialLayer && s != -1 ==> t == 0
    ensures var (d, ask) := MayChangeLayers(c, force);
            && (c.externallyManagedBitrate ==>
                  d == c && (ask <==> s != c.targetSpatialLayer || (force && t != c.targetTemporalLayer)))
            && (!c.externallyManagedBitrate ==> !ask && Targets(c, d, s, t))
  {
    hide ChooseSpatial, IsChosen, CanSwitch;
    ScanStarts(c);
    ChooseSpatialIsChosen(c, 0, -1, 0);
    s := ChooseSpatial(c, 0, -1, 0);
    ChosenIsLayer(c, s);
    t := TemporalFor(c, s);
  }

  lemma ScanStarts(c: Simulcast)
    ensures Scanned(c, 0, -1, 0)
  {
  }

  lemma ChosenIsLayer(c: Simulcast, s: int)
    requires IsChosen(c, |c.producerStreams|, s)
    ensures -1 <= s < |c.producerStreams|
  {
    hide Candidate;
  }

  /** The consumer has this target. With none it gives up the current layer, and the first one ever is the reference layer.
      Nothing else differs, up to the provisional layers. */
  predicate Targets(c: Simulcast, d: Simulcast, s: int, t: int)
  {
    d == c.(targetSpatialLayer := s,
            targetTemporalLayer := t,
            currentSpatialLayer := if s == -1 then -1 else c.currentSpatialLayer,
            tsReferenceSpatialLayer :=
              if c.tsReferenceSpatialLayer == -1 then s else c.tsReferenceSpatialLayer,
            provisionalTargetSpatialLayer := d.provisionalTargetSpatialLayer,
            provisionalTargetTemporalLayer := d.provisionalTargetTemporalLayer)
  }

  // ----- The events that make the consumer choose again

  /** Connected and paused on neither side. */
  predicate Active(c: Simulcast)
  {
    c.transportConnected && !c.paused && !c.producerPaused
  }

  /** A new consumer has no layers of any kind, no loss and nothing sent. */
  lemma NewHasNoLayers(n: nat, paused: bool, producerPaused: bool, preferredSpatialLayer: int, preferredTemporalLayer: int,
                       temporalLayers: nat, clockRate: u32)
    ensures var c := Initial(n, paused, producerPaused, preferredSpatialLayer, preferredTemporalLayer, temporalLayers,
                             clockRate);
            && Targets(c, c, -1, -1) && c.provisionalTargetSpatialLayer == -1 && c.provisionalTargetTemporalLayer == -1
            && c.fractionLost == 0 && !c.transportConnected && !c.externallyManagedBitrate
            && forall s :: !HasStream(c, s)
  {
  }

  /** The preferred layers are those asked for, or the highest ones there are. A consumer that is not active, or whose
      preferred layers stay the same, does nothing else. */
  lemma PreferredAre(c: Simulcast, s: nat, t: nat, shares: Shares)
    requires Safe(c)
    ensures var d := OnPreferredLayers(c, s, t, shares);
            && d.preferredSpatialLayer == (if s < |c.producerStreams| then s else |c.producerStreams| - 1)
            && d.preferredTemporalLayer == (if t < c.temporalLayers then t else c.temporalLayers - 1)
            && (!IsActive(c) ==>
                  d == c.(preferredSpatialLayer := d.preferredSpatialLayer, preferredTemporalLayer := d.preferredTemporalLayer))
    ensures var d := OnPreferredLayers(c, s, t, shares);
            d.preferredSpatialLayer == c.preferredSpatialLayer && d.preferredTemporalLayer == c.preferredTemporalLayer ==> d == c
  {
    hide ChangeLayers, Safe, IsActive;
    var spatial := if s < |c.producerStreams| then s else |c.producerStreams| - 1;
    var temporal := if t < c.temporalLayers then t else c.temporalLayers - 1;
    var d := c.(preferredSpatialLayer := spatial, preferredTemporalLayer := temporal);
    OthersAreSafe(c, d);
    SameActivity(c, d);
    ChangeIfActiveIsSafe(d, true, shares);
  }

  lemma SameActivity(c: Simulcast, d: Simulcast)
    requires d.producerStreams == c.producerStreams && d.transportConnected == c.transportConnected
    requires d.paused == c.paused && d.producerPaused == c.producerPaused
    ensures IsActive(c) == IsActive(d)
  {
    assert forall s :: Score(c, s) == Score(d, s);
  }

  /** A score makes a consumer that is connected and not paused choose again, unless its bitrate is managed by the transport
      and the stream was alive and still is. */
  lemma ScoreMakesChoose(c: Simulcast, layer: nat, score: u8, shares: Shares)
    requires Safe(c) && HasStream(c, layer)
    ensures var was := c.producerStreams[layer].value.score;
            var d := WithStream(c, layer, c.producerStreams[layer].value.(score := score));
            OnScore(c, layer, score, shares) ==
            if Active(c) && !(c.externallyManagedBitrate && was != 0 && score != 0) then ChangeLayers(d, false, shares) else d
  {
    hide ChangeLayers;
  }

  /** The first Sender Report of a stream makes an active consumer choose again, if its current layer has one by then. */
  lemma ReportMakesChoose(c: Simulcast, layer: nat, ntpMs: nat, ts: u32, shares: Shares)
    requires Safe(c) && HasStream(c, layer)
    ensures var was := c.producerStreams[layer].value.senderReportNtpMs;
            var d := WithStream(c, layer, c.producerStreams[layer].value.(senderReportNtpMs := ntpMs, senderReportTs := ts));
            OnSenderReport(c, layer, ntpMs, ts, shares) ==
            if was == 0 && HasStream(d, d.currentSpatialLayer) &&
               d.producerStreams[d.currentSpatialLayer].value.senderReportNtpMs != 0 && IsActive(c)
            then ChangeLayers(d, false, shares) else d
  {
    hide ChangeLayers, IsActive, Switchable;
    SameScores(c, layer, ntpMs, ts);
  }

  lemma SameScores(c: Simulcast, layer: nat, ntpMs: nat, ts: u32)
    requires HasStream(c, layer)
    ensures IsActive(WithStream(c, layer, c.producerStreams[layer].value.(senderReportNtpMs := ntpMs, senderReportTs := ts)))
            == IsActive(c)
  {
    var d := WithStream(c, layer, c.producerStreams[layer].value.(senderReportNtpMs := ntpMs, senderReportTs := ts));
    assert forall s :: Score(c, s) == Score(d, s);
  }

  // ----- The bandwidth allocator's interface

  /** ApplyLayers: an active consumer has its provisional layers as target, and every consumer forgets them. */
  lemma ApplyIs(c: Simulcast)
    requires AlmostSafe(c) && (c.provisionalTargetSpatialLayer == -1 ==> c.provisionalTargetTemporalLayer == -1)
    ensures var d := ApplyLayers(c);
            && d.provisionalTargetSpatialLayer == -1 && d.provisionalTargetTemporalLayer == -1
            && Targets(c, d, if Active(c) then c.provisionalTargetSpatialLayer else c.targetSpatialLayer,
                             if Active(c) then c.provisionalTargetTemporalLayer else c.targetTemporalLayer)
  {
    hide CanSwitch;
  }

  /** GetBitratePriority: one more than the layer that the consumer wishes for, at least 1; 0 when it is not active. */
  lemma PriorityIs(c: Simulcast, live: seq<bool>, wish: int)
    requires |live| == |c.producerStreams|
    requires forall s :: 0 <= s < |live| ==> live[s] == (HasStream(c, s) && c.producerStreams[s].value.score != 0)
    requires IsWish(live, c.preferredSpatialLayer, wish)
    ensures BitratePriority(c) == if !Active(c) then 0 else if wish == -1 then 1 else wish + 1
  {
    assert live == LiveLayers(c);
    PriorityLayerIsWish(live, c.preferredSpatialLayer, 0, -1);
    WishIsUnique(live, c.preferredSpatialLayer, wish, PriorityLayer(live, c.preferredSpatialLayer, 0, -1));
  }

  /** The layer pair can be reached by UseAvailableBitrate, whatever it costs: its temporal layers up to there have a cost,
      and neither the preferred pair, of a good score, nor a good layer from the preferred one on comes before it. */
  predicate Reachable(c: Simulcast, s: nat, t: nat)
  {
    && Candidate(c, s) && t < |c.producerStreams[s].value.bitrates|
    && (forall i :: 0 <= i <= t ==> c.producerStreams[s].value.bitrates[i] != 0)
    && !(s == c.preferredSpatialLayer && 0 <= c.preferredTemporalLayer < t && GoodCandidate(c, s))
    && (forall k :: 0 <= k < s ==> !(k >= c.preferredSpatialLayer && GoodCandidate(c, k)))
  }

  lemma RowIs(c: Simulcast, s: nat)
    requires WellFormed(c) && s < |c.producerStreams|
    ensures var row := GridOf(c).rows[s];
            && (row.usable <==> Candidate(c, s))
            && (row.climbable <==> GoodCandidate(c, s))
            && (row.usable && row.good <==> GoodCandidate(c, s))
            && (HasStream(c, s) ==>
                  row.costs == c.producerStreams[s].value.bitrates && row.stepCosts == c.producerStreams[s].value.layerBitrates)
            && (!HasStream(c, s) ==> row.costs == [])
  {
    CandidateIs(c, s);
  }

  lemma ReachableIff(c: Simulcast, s: nat, t: nat)
    requires WellFormed(c)
    ensures OnLadder(GridOf(c), 0, s, t) <==> Reachable(c, s, t)
  {
    hide GridOf, HaveReports;
    if s < |c.producerStreams| {
      RowIs(c, s);
      var p := c.preferredTemporalLayer;
      if 0 <= p < t {
        assert Preferred(GridOf(c), s, p) <==> s == GridOf(c).preferredSpatial && p == GridOf(c).preferredTemporal;
      }
      forall k | 0 <= k < s
        ensures GridOf(c).rows[k].usable && Last(GridOf(c), k) <==> k >= c.preferredSpatialLayer && GoodCandidate(c, k)
      {
        RowIs(c, k);
        PreferredIs(c);
      }
      PreferredIs(c);
    } else {
      NoCandidate(c, s);
    }
  }

  lemma PreferredIs(c: Simulcast)
    requires WellFormed(c)
    ensures GridOf(c).preferredSpatial == c.preferredSpatialLayer && GridOf(c).preferredTemporal == c.preferredTemporalLayer
    ensures |GridOf(c).rows| == |c.producerStreams|
  {
  }

  lemma NoCandidate(c: Simulcast, s: nat)
    requires s >= |c.producerStreams|
    ensures !Candidate(c, s)
  {
  }

  /** The rungs are the reachable layer pairs, in ascending order and at their cost. */
  ghost predicate IsLadder(c: Simulcast, ladder: seq<Rung>)
  {
    && (forall s: nat, t: nat :: Holds(ladder, s, t) <==> Reachable(c, s, t))
    && (forall i :: 0 <= i < |ladder| ==> HasCostOf(c, ladder[i]))
    && (forall i, j :: 0 <= i < j < |ladder| ==>
          Below(ladder[i].spatial, ladder[i].temporal, ladder[j].spatial, ladder[j].temporal))
  }

  predicate HasCostOf(c: Simulcast, r: Rung)
  {
    && HasStream(c, r.spatial)
    && 0 <= r.temporal < |c.producerStreams[r.spatial].value.bitrates|
    && r.bitrate == c.producerStreams[r.spatial].value.bitrates[r.temporal]
  }

  lemma LadderIs(c: Simulcast)
    requires WellFormed(c)
    ensures IsLadder(c, Ladder(GridOf(c), 0))
  {
    hide GridOf, Reachable, Holds;
    var ladder := Ladder(GridOf(c), 0);
    LadderIsGood(GridOf(c), 0);
    PreferredIs(c);
    forall s: nat, t: nat ensures Holds(ladder, s, t) <==> Reachable(c, s, t) {
      LadderHolds(GridOf(c), 0, s, t);
      ReachableIff(c, s, t);
    }
    forall i | 0 <= i < |ladder| ensures HasCostOf(c, ladder[i]) {
      RowIs(c, ladder[i].spatial);
    }
  }

  /** UseAvailableBitrate of an active consumer: the provisional layers are the last of the reachable ones up to which it
      affords everything, and it uses what they cost, up to what it was offered. */
  lemma UseIs(c: Simulcast, bitrate: nat) returns (ladder: seq<Rung>, n: nat)
    requires WellFormed(c) && Active(c)
    ensures IsLadder(c, ladder) && n <= |ladder|
    ensures forall i :: 0 <= i < n ==> Affords(c.fractionLost, bitrate, ladder[i].bitrate)
    ensures n < |ladder| ==> !Affords(c.fractionLost, bitrate, ladder[n].bitrate)
    ensures var (d, used) := UseAvailableBitrate(c, bitrate);
            if n == 0 then
              used == 0 && d == c.(provisionalTargetSpatialLayer := -1, provisionalTargetTemporalLayer := -1)
            else
              && used == (if ladder[n - 1].bitrate <= bitrate then ladder[n - 1].bitrate else bitrate)
              && d == c.(provisionalTargetSpatialLayer := ladder[n - 1].spatial,
                         provisionalTargetTemporalLayer := ladder[n - 1].temporal)
  {
    hide GridOf, Ladder, Use, Affords, IsLadder;
    LadderIs(c);
    n := UseInNumbers(GridOf(c), c.fractionLost, bitrate);
    ladder := Ladder(GridOf(c), 0);
  }

  /** The preferred pair comes up in spatial layer `s` at or before the temporal layer that the search looks at. */
  predicate StopsIn(c: Simulcast, s: nat)
    requires HasStream(c, s)
  {
    && s == c.preferredSpatialLayer
    && 0 <= c.preferredTemporalLayer < |c.producerStreams[s].value.layerBitrates|
    && c.preferredTemporalLayer <= NextTemporal(c.provisionalTargetSpatialLayer, c.provisionalTargetTemporalLayer, s)
  }

  predicate OffersIn(c: Simulcast, s: nat)
    requires HasStream(c, s)
  {
    var t := NextTemporal(c.provisionalTargetSpatialLayer, c.provisionalTargetTemporalLayer, s);
    t < |c.producerStreams[s].value.layerBitrates| && c.producerStreams[s].value.layerBitrates[t] != 0
  }

  predicate LooksFurther(c: Simulcast, s: nat)
    requires HasStream(c, s)
  {
    !StopsIn(c, s) && !OffersIn(c, s) && s < c.preferredSpatialLayer
  }

  /** The first good candidate, from the provisional layer on, whose next temporal layer has a cost. The search does not
      get past the preferred pair, nor past the preferred spatial layer. */
  predicate IsNextLayer(c: Simulcast, s: nat)
  {
    && s >= c.provisionalTargetSpatialLayer && GoodCandidate(c, s) && !StopsIn(c, s) && OffersIn(c, s)
    && forall k :: 0 <= k < s && k >= c.provisionalTargetSpatialLayer && GoodCandidate(c, k) ==> LooksFurther(c, k)
  }

  lemma NextIs(c: Simulcast, s: nat)
    requires WellFormed(c)
    ensures IsNext(GridOf(c), c.provisionalTargetSpatialLayer, c.provisionalTargetTemporalLayer, 0, s) <==> IsNextLayer(c, s)
  {
    hide GridOf, HaveReports, NextTemporal, MeetsPreferred, HasCost, StopsIn, OffersIn;
    PreferredIs(c);
    if s < |c.producerStreams| {
      SearchIs(c, s);
      forall k | 0 <= k < s
        ensures GoesPast(GridOf(c), c.provisionalTargetSpatialLayer, c.provisionalTargetTemporalLayer, k) <==>
                (k >= c.provisionalTargetSpatialLayer && GoodCandidate(c, k) ==> LooksFurther(c, k))
      {
        SearchIs(c, k);
      }
    } else {
      NoCandidate(c, s);
    }
  }

  lemma SearchIs(c: Simulcast, s: nat)
    requires WellFormed(c) && s < |c.producerStreams|
    ensures GridOf(c).rows[s].climbable <==> GoodCandidate(c, s)
    ensures GoodCandidate(c, s) ==>
              var g, ps, pt := GridOf(c), c.provisionalTargetSpatialLayer, c.provisionalTargetTemporalLayer;
              && (MeetsPreferred(g, ps, pt, s) <==> StopsIn(c, s))
              && (HasCost(g, ps, pt, s) <==> OffersIn(c, s))
              && g.rows[s].stepCosts == c.producerStreams[s].value.layerBitrates
  {
    hide GridOf, NextTemporal;
    PreferredIs(c);
    RowIs(c, s);
    if GoodCandidate(c, s) && StopsIn(c, s) {
      assert Preferred(GridOf(c), s, c.preferredTemporalLayer);
    }
  }

  /** IncreaseLayer of an active consumer moves its provisional layers to the next ones if and only if they are not the
      preferred pair and it affords the next ones; it uses what they cost, up to what it was offered. */
  lemma IncreaseIs(c: Simulcast, bitrate: nat, s: nat)
    requires WellFormed(c) && Active(c) && IsNextLayer(c, s)
    ensures var t := NextTemporal(c.provisionalTargetSpatialLayer, c.provisionalTargetTemporalLayer, s);
            var cost := c.producerStreams[s].value.layerBitrates[t];
            IncreaseLayer(c, bitrate) ==
            if (c.provisionalTargetSpatialLayer == c.preferredSpatialLayer &&
                c.provisionalTargetTemporalLayer == c.preferredTemporalLayer) || !Affords(c.fractionLost, bitrate, cost) then
              (c, 0)
            else
              (c.(provisionalTargetSpatialLayer := s, provisionalTargetTemporalLayer := t),
               if cost <= bitrate then cost else bitrate)
  {
    hide GridOf, NextTemporal, IsNext, Affords, VirtualBitrate, NextRung, MeetsPreferred, HasCost, StopsIn;
    var g, ps, pt := GridOf(c), c.provisionalTargetSpatialLayer, c.provisionalTargetTemporalLayer;
    var t := NextTemporal(ps, pt, s);
    PreferredIs(c);
    NextIs(c, s);
    SearchIs(c, s);
    NextRungIff(g, ps, pt, 0, s);
    AffordsIff(c.fractionLost, bitrate, g.rows[s].stepCosts[t]);
  }

  /** Without next layers it stays. */
  lemma NothingToIncrease(c: Simulcast, bitrate: nat)
    requires WellFormed(c) && Active(c) && forall s: nat :: s < |c.producerStreams| ==> !IsNextLayer(c, s)
    ensures IncreaseLayer(c, bitrate) == (c, 0)
  {
    hide GridOf, IsNext, VirtualBitrate, NextRung, IsNextLayer;
    var g, ps, pt := GridOf(c), c.provisionalTargetSpatialLayer, c.provisionalTargetTemporalLayer;
    PreferredIs(c);
    NextRungIsGood(g, ps, pt, 0);
    var r := NextRung(g, ps, pt, 0);
    if r.Some? {
      NextIs(c, r.value.spatial);
      NextRungIff(g, ps, pt, 0, r.value.spatial);
    }
  }
}
