/** What a SimulcastConsumer forwards: all that belongs to its current layer, until a key frame of the target comes. */
module SimulcastForwarding {
  import opened Seq16
  import opened Bytes
  import opened Simulcasts
  import opened SimulcastSwitching
  import opened SimulcastLemmas
  import opened SimulcastRuns
  import opened SimulcastNumbers

  // ----- One packet

  /** Handed on, or dropped if the payload descriptor says so. */
  predicate Forwarded(c: Simulcast, e: Event)
    requires e.Packet?
  {
    var outcome := SendRtpPacket(c, e).1;
    if e.processed then outcome.Handed? else outcome.Dropped?
  }

  /** Connected, paused on neither side, and with a live stream. */
  predicate Active(c: Simulcast)
  {
    c.transportConnected && !c.paused && !c.producerPaused &&
    exists s :: 0 <= s < |c.producerStreams| && c.producerStreams[s].Some? && c.producerStreams[s].value.score != 0
  }

  lemma ActiveIff(c: Simulcast)
    ensures Active(c) <==> IsActive(c)
  {
    if Active(c) {
      var s :| 0 <= s < |c.producerStreams| && c.producerStreams[s].Some? && c.producerStreams[s].value.score != 0;
      assert Score(c, s) > 0;
    }
    if IsActive(c) {
      var s :| 0 <= s < |c.producerStreams| && Score(c, s) > 0;
      assert c.producerStreams[s].Some? && c.producerStreams[s].value.score != 0;
    }
  }

  lemma PassesIff(c: Simulcast, e: Event)
    requires e.Packet?
    ensures Passes(c, e) <==>
            && IsActive(c) && c.targetTemporalLayer != -1 && e.supported
            && ((e.layer == c.currentSpatialLayer && (c.syncRequired ==> e.isKeyFrame)) ||
                (e.layer == c.targetSpatialLayer && e.isKeyFrame))
  {
    hide IsActive;
  }

  /** An active consumer with a temporal target forwards a supported packet if and only if it belongs to the current layer,
      and is a key frame where a synchronization is pending, or is a key frame of the target layer. Every other packet is
      ignored. */
  lemma ForwardedIff(c: Simulcast, e: Event)
    requires e.Packet? && Safe(c)
    ensures var wanted :=
              && Active(c) && c.targetTemporalLayer != -1 && e.supported
              && ((e.layer == c.currentSpatialLayer && (c.syncRequired ==> e.isKeyFrame)) ||
                  (e.layer == c.targetSpatialLayer && e.isKeyFrame));
            && (wanted ==> Forwarded(c, e))
            && (!wanted ==> SendRtpPacket(c, e) == (c, Ignored))
  {
    hide Safe, Passes, SendRtpPacket, IsActive, Active;
    ActiveIff(c);
    PassesIff(c, e);
    SendNumbers(c, e);
  }

  /** A forwarded packet leaves the consumer at its layer and synchronized. */
  lemma ForwardedStays(c: Simulcast, e: Event)
    requires e.Packet? && Safe(c) && Forwarded(c, e)
    ensures var d := SendRtpPacket(c, e).0; d.currentSpatialLayer == e.layer && !d.syncRequired
  {
    hide Safe, Passes, SendRtpPacket, IsActive;
    SendNumbers(c, e);
  }

  // ----- Whole runs

  /** It forwards layer `layer` now. */
  predicate IsOn(c: Simulcast, layer: nat)
  {
    c.currentSpatialLayer == layer && !c.syncRequired
  }

  predicate HasTarget(c: Simulcast)
  {
    c.targetSpatialLayer != -1 && c.targetTemporalLayer != -1
  }

  /** A key frame on which the consumer leaves `layer`. */
  predicate Leaves(c: Simulcast, e: Event, layer: nat)
  {
    e.Packet? && e.layer != layer && e.layer == c.targetSpatialLayer && e.isKeyFrame && e.supported
  }

  /** Throughout the run the consumer has a target, and there is neither a restart nor a key frame of another target. */
  predicate Undisturbed(c: Simulcast, es: seq<Event>, layer: nat)
    requires Safe(c) && Possible(c, es)
    decreases |es|
  {
    HasTarget(c) &&
    (es == [] ||
     (!Restarts(c, es[0]) && !Leaves(c, es[0], layer) &&
      (StepIsSafe(c, es[0]); Undisturbed(Step(c, es[0]), es[1..], layer))))
  }

  /** Every supported packet of the layer is forwarded. */
  predicate AllForwarded(c: Simulcast, es: seq<Event>, layer: nat)
    requires Safe(c) && Possible(c, es)
    decreases |es|
  {
    es == [] ||
    ((es[0].Packet? && es[0].layer == layer && es[0].supported ==> Forwarded(c, es[0])) &&
     (StepIsSafe(c, es[0]); AllForwarded(Step(c, es[0]), es[1..], layer)))
  }

  lemma TargetActive(c: Simulcast)
    requires Safe(c) && c.targetSpatialLayer != -1
    ensures Active(c)
  {
    assert Score(c, c.targetSpatialLayer) > 0;
  }

  /** No synchronization is asked for, and the current layer is given up only together with the target. */
  predicate Stays(c: Simulcast, d: Simulcast)
  {
    d.syncRequired == c.syncRequired && (d.currentSpatialLayer == c.currentSpatialLayer || d.targetSpatialLayer == -1)
  }

  lemma UpdateStays(c: Simulcast, s: int, t: int)
    ensures Stays(c, UpdateTargetLayers(c, s, t))
  {
  }

  lemma DistributeStays(c: Simulcast, shares: Shares)
    requires WellFormed(c)
    ensures Stays(c, Distribute(c, shares))
  {
    hide UseAvailableBitrate, IncreaseLayers, UpdateTargetLayers, Choice, CanSwitch;
    if BaseActive(c) {
      UseIsChoice(c, shares.bitrate);
      var d := UseAvailableBitrate(c, shares.bitrate).0;
      IncreasesAreChoices(c, d, shares.increases);
      var e := IncreaseLayers(d, shares.increases);
      UpdateStays(WithProvisional(e, None), e.provisionalTargetSpatialLayer, e.provisionalTargetTemporalLayer);
    }
  }

  lemma ChangeStays(c: Simulcast, force: bool, shares: Shares)
    requires WellFormed(c)
    ensures Stays(c, ChangeLayers(c, force, shares))
  {
    hide Distribute, UpdateTargetLayers, ChooseSpatial;
    var s := ChooseSpatial(c, 0, -1, 0);
    UpdateStays(c, s, TemporalFor(c, s));
    DistributeStays(c, shares);
  }

  lemma ChangeIfActiveStays(c: Simulcast, force: bool, shares: Shares)
    requires WellFormed(c)
    ensures Stays(c, ChangeIfActive(c, force, shares))
  {
    hide ChangeLayers, Active;
    ChangeStays(c, force, shares);
  }

  /** So it is for every event but a restart. */
  lemma EventStays(c: Simulcast, e: Event)
    requires WellFormed(c) && Applies(c, e) && !e.Packet? && !Restarts(c, e)
    ensures Stays(c, Step(c, e))
  {
    hide Applies, Step, WellFormed;
    if e.TransportDisconnected? || e.Pause? || e.ProducerPaused? || e.Resume? || e.ProducerResumed? {
      PauseStays(c, e);
    } else if e.FractionLost? || e.ExternallyManaged? || e.Distribution? || e.SetPreferredLayers? {
      OtherStays(c, e);
    } else {
      StreamStays(c, e);
    }
  }

  lemma PauseStays(c: Simulcast, e: Event)
    requires WellFormed(c) && Applies(c, e) && !Restarts(c, e)
    requires e.TransportDisconnected? || e.Pause? || e.ProducerPaused? || e.Resume? || e.ProducerResumed?
    ensures Stays(c, Step(c, e))
  {
    hide Active, OnResumed;
  }

  lemma OtherStays(c: Simulcast, e: Event)
    requires WellFormed(c) && (e.FractionLost? || e.ExternallyManaged? || e.Distribution? || e.SetPreferredLayers?)
    ensures Stays(c, Step(c, e))
  {
    hide OnPreferredLayers, Distribute;
    if e.Distribution? {
      DistributeStays(c, e.shares);
    } else if e.SetPreferredLayers? {
      PreferredStays(c, e.spatialLayer, e.temporalLayer, e.shares);
    }
  }

  lemma PreferredStays(c: Simulcast, s: nat, t: nat, shares: Shares)
    requires WellFormed(c)
    ensures Stays(c, OnPreferredLayers(c, s, t, shares))
  {
    hide ChangeIfActive;
    var spatial := if s > |c.producerStreams| - 1 then |c.producerStreams| - 1 else s;
    var temporal := if t > c.temporalLayers - 1 then c.temporalLayers - 1 else t;
    ChangeIfActiveStays(c.(preferredSpatialLayer := spatial, preferredTemporalLayer := temporal), true, shares);
  }

  lemma StreamStays(c: Simulcast, e: Event)
    requires WellFormed(c) && Applies(c, e)
    requires e.ExistingStream? || e.NewStream? || e.StreamScore? || e.SenderReport? || e.Bitrates?
    ensures Stays(c, Step(c, e))
  {
    hide ChangeIfActive, ChangeLayers, Active;
    match e
    case ExistingStream(_, _) =>
    case NewStream(layer, stream, shares) => ChangeIfActiveStays(WithStream(c, layer, stream), false, shares);
    case StreamScore(layer, score, shares) =>
      ChangeStays(WithStream(c, layer, c.producerStreams[layer].value.(score := score)), false, shares);
    case SenderReport(layer, ntpMs, ts, shares) =>
      ChangeIfActiveStays(
        WithStream(c, layer, c.producerStreams[layer].value.(senderReportNtpMs := ntpMs, senderReportTs := ts)), false, shares);
    case Bitrates(_, _, _) =>
  }

  /** A step that leaves the consumer with a target leaves it on its layer. */
  lemma StepStaysOn(c: Simulcast, e: Event, layer: nat)
    requires Safe(c) && Applies(c, e) && Regular(c, e) && IsOn(c, layer) && HasTarget(c)
    requires !Restarts(c, e) && !Leaves(c, e, layer) && HasTarget(Step(c, e))
    ensures IsOn(Step(c, e), layer)
  {
    hide Safe, Applies, Regular, SendRtpPacket, Restarts, Active;
    if e.Packet? {
      ForwardedIff(c, e);
      if e.layer == layer {
        PacketStaysOn(c, e);
      }
    } else {
      SafeIsWellFormed(c);
      EventStays(c, e);
    }
  }

  lemma SafeIsWellFormed(c: Simulcast)
    requires Safe(c)
    ensures WellFormed(c)
  {
  }

  lemma PacketStaysOn(c: Simulcast, e: Event)
    requires e.Packet? && Safe(c) && IsOn(c, e.layer)
    ensures IsOn(SendRtpPacket(c, e).0, e.layer)
  {
    hide Safe, Passes, SendRtpPacket, Active;
    ForwardedIff(c, e);
    SendNumbers(c, e);
  }

  /** A consumer that is on a layer forwards every supported packet of it for as long as it has a target, up to the next
      restart or key frame of another target: the layer goes on while a switch is pending. */
  lemma {:induction false} LayerGoesOn(c: Simulcast, es: seq<Event>, layer: nat)
    requires Safe(c) && Possible(c, es) && IsOn(c, layer) && Undisturbed(c, es, layer)
    ensures AllForwarded(c, es, layer)
    decreases |es|
  {
    hide Safe, Applies, Regular, KeepsSyncFrames, Step, Restarts, Leaves, Active, Forwarded;
    if es != [] {
      var e := es[0];
      SafeIsWellFormed(c);
      TargetActive(c);
      if e.Packet? {
        ForwardedIff(c, e);
      }
      StepIsSafe(c, e);
      TargetNow(Step(c, e), es[1..], layer);
      StepStaysOn(c, e, layer);
      LayerGoesOn(Step(c, e), es[1..], layer);
    }
  }

  lemma TargetNow(c: Simulcast, es: seq<Event>, layer: nat)
    requires Safe(c) && Possible(c, es) && Undisturbed(c, es, layer)
    ensures HasTarget(c)
  {
    hide Safe, Possible;
  }

  /** So it is from every forwarded packet on. */
  lemma ForwardingGoesOn(c: Simulcast, e: Event, es: seq<Event>)
    requires e.Packet? && Safe(c) && Forwarded(c, e)
    requires Safe(SendRtpPacket(c, e).0) && Possible(SendRtpPacket(c, e).0, es)
    requires Undisturbed(SendRtpPacket(c, e).0, es, e.layer)
    ensures AllForwarded(SendRtpPacket(c, e).0, es, e.layer)
  {
    hide Safe, SendRtpPacket, Forwarded, Possible, Undisturbed, AllForwarded;
    ForwardedStays(c, e);
    LayerGoesOn(SendRtpPacket(c, e).0, es, e.layer);
  }
}
