/** Safety of the layer switching over whole runs. */
module SimulcastLemmas {
  import opened Seq16
  import opened Bytes
  import opened Layers
  import opened Simulcasts
  import opened SimulcastSwitching
  import SeqManagers
  import RtpStreams

  // ----- The invariant

  /** No layer, or one that has a stream and to which the timestamps of the reference layer can be carried over. */
  predicate Switchable(c: Simulcast, s: int)
  {
    s == -1 || (HasStream(c, s) && c.tsReferenceSpatialLayer != -1 && CanSwitch(c, s))
  }

  /** A live layer that CanSwitchToSpatialLayer allows, or none. */
  predicate Choice(c: Simulcast, s: int)
  {
    s == -1 || (HasStream(c, s) && Score(c, s) != 0 && CanSwitch(c, s))
  }

  /** Safe, except that the target layer may have died just now. */
  predicate AlmostSafe(c: Simulcast)
  {
    && WellFormed(c)
    && (c.tsReferenceSpatialLayer == -1 || HasStream(c, c.tsReferenceSpatialLayer))
    && (!BaseActive(c) ==> c.targetSpatialLayer == -1)
    && (c.targetSpatialLayer == -1 ==> c.currentSpatialLayer == -1)
    && Switchable(c, c.targetSpatialLayer)
    && Switchable(c, c.currentSpatialLayer)
  }

  /** What every event keeps. A target layer is alive; an inactive consumer has none, and without a target there is no
      current layer. Neither the target nor the current layer can make a Sender Report assertion fail. */
  predicate Safe(c: Simulcast)
  {
    AlmostSafe(c) && (c.targetSpatialLayer == -1 || Score(c, c.targetSpatialLayer) != 0)
  }

  /** Streams are never replaced, and no Sender Report bears the NTP time 0. */
  predicate Regular(c: Simulcast, e: Event)
  {
    match e
    case ExistingStream(layer, _) => !HasStream(c, layer)
    case NewStream(layer, _, _) => !HasStream(c, layer)
    case SenderReport(_, ntpMs, _, _) => ntpMs != 0
    case _ => true
  }

  /** The fields that UpdateTargetLayers and the distribution may change. */
  predicate SameButLayers(c: Simulcast, d: Simulcast)
  {
    d == c.(provisionalTargetSpatialLayer := d.provisionalTargetSpatialLayer,
            provisionalTargetTemporalLayer := d.provisionalTargetTemporalLayer,
            targetSpatialLayer := d.targetSpatialLayer,
            targetTemporalLayer := d.targetTemporalLayer,
            currentSpatialLayer := d.currentSpatialLayer,
            tsReferenceSpatialLayer := d.tsReferenceSpatialLayer)
  }

  /** They never change the reference layer once it is set, and of the current layer they can only take leave. */
  predicate Changed(c: Simulcast, d: Simulcast)
  {
    && SameButLayers(c, d)
    && (c.tsReferenceSpatialLayer != -1 ==> d.tsReferenceSpatialLayer == c.tsReferenceSpatialLayer)
    && (d.currentSpatialLayer == c.currentSpatialLayer || d.currentSpatialLayer == -1)
  }

  lemma {:induction false} ChooseSpatialIsChoice(c: Simulcast, s: nat, best: int, maxScore: u8)
    requires Choice(c, best)
    ensures Choice(c, ChooseSpatial(c, s, best, maxScore))
    decreases |c.producerStreams| - s
  {
    hide CanSwitch;
    if s < |c.producerStreams| {
      if Score(c, s) == 0 || !CanSwitch(c, s) || (Score(c, s) < maxScore && Score(c, s) < 7) {
        ChooseSpatialIsChoice(c, s + 1, best, maxScore);
      } else if s >= c.preferredSpatialLayer && Score(c, s) >= 7 {
      } else {
        ChooseSpatialIsChoice(c, s + 1, s, Score(c, s));
      }
    }
  }

  lemma UpdateIsSafe(c: Simulcast, s: int, t: int)
    requires AlmostSafe(c) && Choice(c, s) && (s != -1 ==> BaseActive(c))
    ensures Safe(UpdateTargetLayers(c, s, t)) && Changed(c, UpdateTargetLayers(c, s, t))
  {
  }

  // ----- The distribution

  /** Only the provisional layers differ, and they are a choice. */
  predicate Provisional(c: Simulcast, d: Simulcast)
  {
    && d == c.(provisionalTargetSpatialLayer := d.provisionalTargetSpatialLayer,
               provisionalTargetTemporalLayer := d.provisionalTargetTemporalLayer)
    && Choice(c, d.provisionalTargetSpatialLayer)
  }

  lemma LastRungIsGood(g: Grid, fractionLost: u8, bitrate: nat)
    ensures var r := Use(g, fractionLost, bitrate).0; r.Some? ==> GoodRung(g, r.value)
  {
    hide Use, Ladder, GoodRung;
    UseIsFair(g, fractionLost, bitrate);
  }

  lemma UseIsChoice(c: Simulcast, bitrate: nat)
    requires WellFormed(c) && BaseActive(c)
    ensures Provisional(c, UseAvailableBitrate(c, bitrate).0)
  {
    hide Use, CanSwitch;
    LastRungIsGood(GridOf(c), c.fractionLost, bitrate);
  }

  lemma IncreaseIsChoice(c: Simulcast, d: Simulcast, bitrate: nat)
    requires WellFormed(c) && Provisional(c, d)
    ensures Provisional(c, IncreaseLayer(d, bitrate).0)
  {
    hide Increase, CanSwitch;
    SameStreams(c, d);
    if BaseActive(d) {
      IncreaseClimbs(GridOf(d), d.provisionalTargetSpatialLayer, d.provisionalTargetTemporalLayer, d.fractionLost,
                     bitrate);
    }
  }

  lemma {:induction false} IncreasesAreChoices(c: Simulcast, d: Simulcast, increases: seq<nat>)
    requires WellFormed(c) && Provisional(c, d)
    ensures Provisional(c, IncreaseLayers(d, increases))
    decreases |increases|
  {
    hide IncreaseLayer, Choice;
    if increases != [] {
      IncreaseIsChoice(c, d, increases[0]);
      IncreasesAreChoices(c, IncreaseLayer(d, increases[0]).0, increases[1..]);
    }
  }

  lemma ApplyIsSafe(c: Simulcast, d: Simulcast)
    requires AlmostSafe(c) && BaseActive(c) && Provisional(c, d)
    ensures Safe(ApplyLayers(d)) && Changed(c, ApplyLayers(d))
  {
    hide CanSwitch;
    var e := WithProvisional(d, None);
    var s, t := d.provisionalTargetSpatialLayer, d.provisionalTargetTemporalLayer;
    SameStreams(c, e);
    if s != d.targetSpatialLayer || t != d.targetTemporalLayer {
      UpdateIsSafe(e, s, t);
    }
  }

  /** CanSwitchToSpatialLayer depends on the streams and the reference layer only. */
  lemma SameStreams(c: Simulcast, d: Simulcast)
    requires c.producerStreams == d.producerStreams && c.tsReferenceSpatialLayer == d.tsReferenceSpatialLayer
    ensures forall s :: CanSwitch(c, s) == CanSwitch(d, s)
  {
  }

  /** A distribution leaves a consumer safe even when its target layer has just died. */
  lemma DistributeIsSafe(c: Simulcast, shares: Shares)
    requires AlmostSafe(c)
    ensures Safe(Distribute(c, shares)) && Changed(c, Distribute(c, shares))
  {
    hide UseAvailableBitrate, IncreaseLayers, ApplyLayers, Choice, CanSwitch;
    if BaseActive(c) {
      UseIsChoice(c, shares.bitrate);
      var d := UseAvailableBitrate(c, shares.bitrate).0;
      IncreasesAreChoices(c, d, shares.increases);
      ApplyIsSafe(c, IncreaseLayers(d, shares.increases));
    }
  }

  lemma ChangeIsSafe(c: Simulcast, force: bool, shares: Shares)
    requires AlmostSafe(c) && BaseActive(c)
    ensures Safe(ChangeLayers(c, force, shares)) && Changed(c, ChangeLayers(c, force, shares))
  {
    hide Distribute, UpdateTargetLayers, ChooseSpatial, CanSwitch;
    ChooseSpatialIsChoice(c, 0, -1, 0);
    var s := ChooseSpatial(c, 0, -1, 0);
    UpdateIsSafe(c, s, TemporalFor(c, s));
    DistributeIsSafe(c, shares);
  }
}
