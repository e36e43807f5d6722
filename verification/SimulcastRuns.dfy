/** The switching of a SimulcastConsumer over whole runs. */
module SimulcastRuns {
  import opened Seq16
  import opened Bytes
  import opened Layers
  import opened Simulcasts
  import opened SimulcastSwitching
  import opened SimulcastLemmas
  import SeqManagers
  import RtpStreams

  // ----- Packets

  /** A forwarded packet belongs to the current layer, and no Sender Report assertion fails. */
  lemma SendIsSafe(c: Simulcast, e: Event)
    requires e.Packet? && Safe(c)
    ensures var (d, outcome) := SendRtpPacket(c, e);
            && Safe(d)
            && d.tsReferenceSpatialLayer == c.tsReferenceSpatialLayer
            && !outcome.Failed?
            && (outcome.Handed? ==> e.layer == d.currentSpatialLayer && IsActive(c))
  {
    hide Hand, Synchronize, HasReports, IsActive, Safe;
    if Passes(c, e) {
      var d := Switch(c, e.layer);
      SwitchIsSafe(c, e.layer);
      if d.syncRequired {
        SynchronizeIsSafe(d, e.seqNum, e.timestamp);
        HandIsSafe(Synchronize(d, e.seqNum, e.timestamp), e);
      } else {
        HandIsSafe(d, e);
      }
    }
  }

  lemma HandIsSafe(c: Simulcast, e: Event)
    requires e.Packet? && Safe(c)
    ensures var (d, outcome) := Hand(c, e);
            && Safe(d) && SameButSending(c, d) && !outcome.Failed?
  {
    hide Hand, CanSwitch;
    HandKeeps(c, e);
    SameStreams(c, Hand(c, e).0);
  }

  lemma SynchronizeIsSafe(c: Simulcast, seqNum: u16, timestamp: u32)
    requires Safe(c) && (c.currentSpatialLayer != c.tsReferenceSpatialLayer ==> HasReports(c))
    ensures var d := Synchronize(c, seqNum, timestamp);
            && Safe(d)
            && d.currentSpatialLayer == c.currentSpatialLayer && d.tsReferenceSpatialLayer == c.tsReferenceSpatialLayer
  {
    hide CanSwitch, HasReports, TsOffset, Wrap32, SeqManagers.Sync;
    SameStreams(c, Synchronize(c, seqNum, timestamp));
  }

  lemma SwitchIsSafe(c: Simulcast, layer: nat)
    requires Safe(c)
    ensures Safe(Switch(c, layer))
    ensures var d := Switch(c, layer);
            d.currentSpatialLayer == layer && d.currentSpatialLayer != d.tsReferenceSpatialLayer ==> HasReports(d)
  {
  }

  /** Handing a packet on concerns the sending side only. */
  predicate SameButSending(c: Simulcast, d: Simulcast)
  {
    d == c.(rtpSeqManager := d.rtpSeqManager, rtpStream := d.rtpStream,
            tsExtraOffsets := d.tsExtraOffsets, tsExtraOffsetPacketCount := d.tsExtraOffsetPacketCount)
  }

  lemma HandKeeps(c: Simulcast, e: Event)
    requires e.Packet?
    ensures SameButSending(c, Hand(c, e).0)
    ensures Hand(c, e).1.Handed? <==> e.processed
    ensures Hand(c, e).1.Dropped? <==> !e.processed
  {
    hide SeqManagers.Input, SeqManagers.Drop, RtpStreams.ReceivePacket, ExtraOffset;
  }

  // ----- Every event

  lemma ChangeIfActiveIsSafe(c: Simulcast, force: bool, shares: Shares)
    requires Safe(c)
    ensures Safe(ChangeIfActive(c, force, shares)) && Changed(c, ChangeIfActive(c, force, shares))
  {
    hide ChangeLayers;
    if IsActive(c) {
      ChangeIsSafe(c, force, shares);
    }
  }

  lemma SenderReportIsSafe(c: Simulcast, layer: nat, ntpMs: nat, ts: u32, shares: Shares)
    requires Safe(c) && HasStream(c, layer) && ntpMs != 0
    ensures Safe(OnSenderReport(c, layer, ntpMs, ts, shares))
    ensures Kept(c, OnSenderReport(c, layer, ntpMs, ts, shares))
  {
    hide ChangeIfActive;
    var d := WithStream(c, layer, c.producerStreams[layer].value.(senderReportNtpMs := ntpMs, senderReportTs := ts));
    assert Safe(d);
    ChangeIfActiveIsSafe(d, false, shares);
  }

  lemma ScoreIsSafe(c: Simulcast, layer: nat, score: u8, shares: Shares)
    requires Safe(c) && HasStream(c, layer)
    ensures Safe(OnScore(c, layer, score, shares))
    ensures Kept(c, OnScore(c, layer, score, shares))
  {
    hide ChangeLayers;
    var d := WithStream(c, layer, c.producerStreams[layer].value.(score := score));
    assert AlmostSafe(d);
    if BaseActive(d) {
      ChangeIsSafe(d, false, shares);
    }
  }

  lemma NewStreamIsSafe(c: Simulcast, layer: nat, stream: ProducerStream)
    requires Safe(c) && layer < |c.producerStreams| && !HasStream(c, layer)
    requires |stream.bitrates| == |stream.layerBitrates|
    ensures Safe(WithStream(c, layer, stream))
  {
  }

  lemma BitratesAreSafe(c: Simulcast, layer: nat, bitrates: seq<nat>, layerBitrates: seq<nat>)
    requires Safe(c) && HasStream(c, layer) && |bitrates| == |layerBitrates|
    ensures Safe(WithStream(c, layer, c.producerStreams[layer].value.(bitrates := bitrates, layerBitrates := layerBitrates)))
  {
  }

  lemma PausedIsSafe(c: Simulcast, d: Simulcast, wasActive: bool)
    requires Safe(c) && (wasActive || !IsActive(c))
    requires d == c.(paused := d.paused, producerPaused := d.producerPaused, transportConnected := d.transportConnected)
    requires !BaseActive(d)
    ensures Safe(OnPaused(d, wasActive)) && Kept(c, OnPaused(d, wasActive))
    ensures OnPaused(d, wasActive).currentSpatialLayer == -1
  {
    SameStreams(c, OnPaused(d, wasActive));
    hide CanSwitch;
    assert !IsActive(c) ==> c.targetSpatialLayer == -1;
  }

  lemma ResumedIsSafe(c: Simulcast, d: Simulcast, shares: Shares)
    requires Safe(c) && !BaseActive(c)
    requires d == c.(paused := d.paused, producerPaused := d.producerPaused)
    ensures Safe(OnResumed(d, shares)) && Kept(c, OnResumed(d, shares))
    ensures OnResumed(d, shares).currentSpatialLayer == -1
  {
    hide ChangeLayers, CanSwitch;
    var s := d.(syncRequired := true);
    SameStreams(c, d);
    SameStreams(c, s);
    if IsActive(d) {
      ChangeIsSafe(s, false, shares);
    }
  }

  /** What no event but a packet changes about the layers: the reference layer is set at most once, and of the current
      layer they can only take leave. */
  predicate Kept(c: Simulcast, d: Simulcast)
  {
    && (c.tsReferenceSpatialLayer != -1 ==> d.tsReferenceSpatialLayer == c.tsReferenceSpatialLayer)
    && (d.currentSpatialLayer == c.currentSpatialLayer || d.currentSpatialLayer == -1)
    && (c.syncRequired ==> d.syncRequired)
  }

  /** Fields that the invariant does not mention. */
  lemma OthersAreSafe(c: Simulcast, d: Simulcast)
    requires Safe(c)
    requires d == c.(preferredSpatialLayer := d.preferredSpatialLayer, preferredTemporalLayer := d.preferredTemporalLayer,
                     fractionLost := d.fractionLost, externallyManagedBitrate := d.externallyManagedBitrate)
    ensures Safe(d) && Kept(c, d)
  {
    SameStreams(c, d);
    hide CanSwitch;
  }

  lemma ConnectedIsSafe(c: Simulcast, shares: Shares)
    requires Safe(c)
    ensures Safe(Step(c, TransportConnected(shares))) && Kept(c, Step(c, TransportConnected(shares)))
    ensures Step(c, TransportConnected(shares)).syncRequired
  {
    var d := c.(transportConnected := true, syncRequired := true);
    SameStreams(c, d);
    hide CanSwitch, ChangeIfActive;
    ChangeIfActiveIsSafe(d, false, shares);
  }

  lemma PreferredIsSafe(c: Simulcast, s: nat, t: nat, shares: Shares)
    requires Safe(c)
    ensures Safe(OnPreferredLayers(c, s, t, shares)) && Kept(c, OnPreferredLayers(c, s, t, shares))
  {
    hide ChangeIfActive, Safe;
    var spatial := if s > |c.producerStreams| - 1 then |c.producerStreams| - 1 else s;
    var temporal := if t > c.temporalLayers - 1 then c.temporalLayers - 1 else t;
    var d := c.(preferredSpatialLayer := spatial, preferredTemporalLayer := temporal);
    OthersAreSafe(c, d);
    ChangeIfActiveIsSafe(d, true, shares);
  }

  lemma StreamEventIsSafe(c: Simulcast, e: Event)
    requires Safe(c) && Applies(c, e) && Regular(c, e)
    requires e.ExistingStream? || e.NewStream? || e.StreamScore? || e.SenderReport? || e.Bitrates?
    ensures Safe(Step(c, e)) && Kept(c, Step(c, e))
  {
    hide ChangeIfActive, OnSenderReport, OnScore, Safe;
    match e
    case ExistingStream(layer, stream) => NewStreamIsSafe(c, layer, stream);
    case NewStream(layer, stream, shares) =>
      NewStreamIsSafe(c, layer, stream);
      ChangeIfActiveIsSafe(WithStream(c, layer, stream), false, shares);
    case StreamScore(layer, score, shares) => ScoreIsSafe(c, layer, score, shares);
    case SenderReport(layer, ntpMs, ts, shares) => SenderReportIsSafe(c, layer, ntpMs, ts, shares);
    case Bitrates(layer, bitrates, layerBitrates) => BitratesAreSafe(c, layer, bitrates, layerBitrates);
  }

  lemma PauseEventIsSafe(c: Simulcast, e: Event)
    requires Safe(c)
    requires e.TransportDisconnected? || e.Pause? || e.ProducerPaused?
    ensures Safe(Step(c, e)) && Kept(c, Step(c, e))
  {
    hide OnPaused, Safe, IsActive;
    match e
    case TransportDisconnected => PausedIsSafe(c, c.(transportConnected := false), true);
    case Pause => if !c.paused { PausedIsSafe(c, c.(paused := true), IsActive(c)); }
    case ProducerPaused => if !c.producerPaused { PausedIsSafe(c, c.(producerPaused := true), IsActive(c)); }
  }

  /** Resuming leaves the consumer without a current layer, so that it must wait for a key frame. */
  lemma ResumeEventIsSafe(c: Simulcast, e: Event)
    requires Safe(c) && (e.Resume? || e.ProducerResumed?)
    ensures Safe(Step(c, e)) && Kept(c, Step(c, e))
    ensures Restarts(c, e) ==> Step(c, e).currentSpatialLayer == -1
  {
    hide OnResumed, Safe;
    match e
    case Resume(shares) => if c.paused { ResumedIsSafe(c, c.(paused := false), shares); }
    case ProducerResumed(shares) => if c.producerPaused { ResumedIsSafe(c, c.(producerPaused := false), shares); }
  }

  /** The events after which forwarding must start anew with a key frame. */
  predicate Restarts(c: Simulcast, e: Event)
  {
    (e.Resume? && c.paused) || (e.ProducerResumed? && c.producerPaused) || e.TransportConnected?
  }

  lemma EventIsSafe(c: Simulcast, e: Event)
    requires Safe(c) && Applies(c, e) && Regular(c, e) && !e.Packet?
    ensures Safe(Step(c, e)) && Kept(c, Step(c, e))
    ensures Restarts(c, e) ==> var d := Step(c, e); d.currentSpatialLayer == -1 || d.syncRequired
  {
    var d := Step(c, e);
    hide OnPreferredLayers, Distribute, Safe;
    if e.TransportConnected? {
      ConnectedIsSafe(c, e.shares);
    } else if e.TransportDisconnected? || e.Pause? || e.ProducerPaused? {
      PauseEventIsSafe(c, e);
    } else if e.Resume? || e.ProducerResumed? {
      ResumeEventIsSafe(c, e);
    } else if e.SetPreferredLayers? {
      PreferredIsSafe(c, e.spatialLayer, e.temporalLayer, e.shares);
    } else if e.FractionLost? || e.ExternallyManaged? {
      OthersAreSafe(c, d);
    } else if e.Distribution? {
      DistributeSafe(c, e.shares);
    } else {
      StreamEventIsSafe(c, e);
    }
  }

  lemma DistributeSafe(c: Simulcast, shares: Shares)
    requires Safe(c)
    ensures Safe(Distribute(c, shares)) && Kept(c, Distribute(c, shares))
  {
    hide Distribute;
    DistributeIsSafe(c, shares);
  }

  // ----- Runs

  /** What a run shows of itself. Aborted is a failed assertion. */
  datatype Mark =
    | Restart
    | Sent(layer: nat, isKeyFrame: bool)
    | Aborted

  function Marks(c: Simulcast, e: Event): seq<Mark>
  {
    if e.Packet? then
      var outcome := SendRtpPacket(c, e).1;
      if outcome.Handed? then [Sent(e.layer, e.isKeyFrame)] else if outcome.Failed? then [Aborted] else []
    else if Restarts(c, e) then [Restart]
    else []
  }

  /** The payload descriptor does not drop the key frame on which the consumer synchronizes. */
  predicate KeepsSyncFrames(c: Simulcast, e: Event)
  {
    e.Packet? && Passes(c, e) && Switch(c, e.layer).syncRequired ==> e.processed
  }

  lemma StepIsSafe(c: Simulcast, e: Event)
    requires Safe(c) && Applies(c, e) && Regular(c, e)
    ensures Safe(Step(c, e))
    ensures c.tsReferenceSpatialLayer != -1 ==> Step(c, e).tsReferenceSpatialLayer == c.tsReferenceSpatialLayer
  {
    hide Applies, Regular, SendRtpPacket, OnScore, OnSenderReport, OnPreferredLayers, ChangeIfActive, Distribute, OnPaused,
      OnResumed, WithStream;
    if e.Packet? {
      SendIsSafe(c, e);
    } else {
      EventIsSafe(c, e);
    }
  }

  predicate Possible(c: Simulcast, es: seq<Event>)
    requires Safe(c)
    decreases |es|
  {
    es == [] ||
    (Applies(c, es[0]) && Regular(c, es[0]) && KeepsSyncFrames(c, es[0]) &&
     (StepIsSafe(c, es[0]); Possible(Step(c, es[0]), es[1..])))
  }

  function Run(c: Simulcast, es: seq<Event>): (Simulcast, seq<Mark>)
    requires Safe(c) && Possible(c, es)
    decreases |es|
  {
    if es == [] then (c, [])
    else
      StepIsSafe(c, es[0]);
      var (d, marks) := Run(Step(c, es[0]), es[1..]);
      (d, Marks(c, es[0]) + marks)
  }

  /** Forwarding goes on without a key frame only right after a packet of the same layer. */
  predicate Continues(previous: Mark, mark: Mark)
  {
    mark.Sent? && !mark.isKeyFrame ==> previous.Sent? && previous.layer == mark.layer
  }

  predicate Good(marks: seq<Mark>)
  {
    && Aborted !in marks
    && (forall i :: 0 < i < |marks| ==> Continues(marks[i - 1], marks[i]))
  }

  /** When the consumer may go on with any frame of the current layer, that layer was the last one forwarded. */
  predicate Follows(c: Simulcast, last: Mark)
  {
    c.currentSpatialLayer != -1 && !c.syncRequired ==> last.Sent? && last.layer == c.currentSpatialLayer
  }

  /** What the packet leaves of the synchronization. */
  lemma SendFollows(c: Simulcast, e: Event, last: Mark)
    requires e.Packet? && Safe(c) && KeepsSyncFrames(c, e) && Follows(c, last)
    ensures var (d, outcome) := SendRtpPacket(c, e);
            && !outcome.Failed?
            && Follows(d, if outcome.Handed? then Sent(e.layer, e.isKeyFrame) else last)
            && (outcome.Handed? ==> Continues(last, Sent(e.layer, e.isKeyFrame)))
  {
    SendIsSafe(c, e);
    hide Synchronize, Safe, Hand, IsActive;
    if Passes(c, e) {
      var d := Switch(c, e.layer);
      if d.syncRequired {
        if d.currentSpatialLayer == d.tsReferenceSpatialLayer || HasReports(d) {
          SynchronizeKeeps(d, e.seqNum, e.timestamp);
          HandKeeps(Synchronize(d, e.seqNum, e.timestamp), e);
        }
      } else {
        HandKeeps(d, e);
      }
    }
  }

  lemma SynchronizeKeeps(c: Simulcast, seqNum: u16, timestamp: u32)
    requires c.currentSpatialLayer != c.tsReferenceSpatialLayer ==> HasReports(c)
    ensures var d := Synchronize(c, seqNum, timestamp);
            d.currentSpatialLayer == c.currentSpatialLayer && !d.syncRequired
  {
  }

  lemma EventFollows(c: Simulcast, e: Event, last: Mark)
    requires Safe(c) && Applies(c, e) && Regular(c, e) && !e.Packet? && Follows(c, last)
    ensures Follows(Step(c, e), if Restarts(c, e) then Restart else last)
  {
    EventIsSafe(c, e);
    hide Step, Safe, Restarts;
  }

  lemma StepFollows(c: Simulcast, e: Event, last: Mark)
    requires Safe(c) && Applies(c, e) && Regular(c, e) && KeepsSyncFrames(c, e) && Follows(c, last)
    ensures var marks := Marks(c, e);
            && (marks == [] || (|marks| == 1 && marks[0] != Aborted && Continues(last, marks[0])))
            && Follows(Step(c, e), if marks == [] then last else marks[0])
  {
    hide SendRtpPacket, Safe, Applies, Regular, KeepsSyncFrames, Follows, OnScore, OnSenderReport, OnPreferredLayers,
      ChangeIfActive, Distribute, OnPaused, OnResumed, WithStream, Restarts;
    if e.Packet? {
      SendFollows(c, e, last);
    } else {
      EventFollows(c, e, last);
    }
  }

  lemma ConsIsGood(last: Mark, marks: seq<Mark>, rest: seq<Mark>)
    requires last != Aborted
    requires marks == [] || (|marks| == 1 && marks[0] != Aborted && Continues(last, marks[0]))
    requires Good([if marks == [] then last else marks[0]] + rest)
    ensures Good([last] + (marks + rest))
  {
    var all := [last] + (marks + rest);
    if marks == [] {
      assert all == [last] + rest;
    } else {
      var tail := [marks[0]] + rest;
      assert all == [last] + tail;
      forall i | 0 < i < |all| ensures Continues(all[i - 1], all[i]) {
        assert i > 1 ==> all[i] == tail[i - 1] && all[i - 1] == tail[i - 2];
      }
    }
  }

  /** Safety over whole runs. From any safe state, no Sender Report assertion ever fails, the reference layer is set at
      most once, and every packet forwarded without being a key frame comes right after one of the same layer: the first
      packet after a layer change, a resume or a connection is a key frame. */
  lemma {:induction false} RunIsGood(c: Simulcast, es: seq<Event>, last: Mark)
    requires Safe(c) && Possible(c, es) && Follows(c, last) && last != Aborted
    ensures var (d, marks) := Run(c, es);
            && Safe(d)
            && Good([last] + marks)
            && (c.tsReferenceSpatialLayer != -1 ==> d.tsReferenceSpatialLayer == c.tsReferenceSpatialLayer)
    decreases |es|
  {
    hide Switchable, BaseActive, Follows, Step, Marks, Applies, Regular, KeepsSyncFrames, Good;
    if es == [] {
      SingleIsGood(last);
    } else {
      StepIsSafe(c, es[0]);
      StepFollows(c, es[0], last);
      var marks := Marks(c, es[0]);
      var d := Step(c, es[0]);
      RunIsGood(d, es[1..], if marks == [] then last else marks[0]);
      ConsIsGood(last, marks, Run(d, es[1..]).1);
    }
  }

  lemma SingleIsGood(last: Mark)
    requires last != Aborted
    ensures Good([last] + [])
  {
  }

  /** A new consumer is safe, and its first packet must be a key frame. */
  lemma InitialIsSafe(n: nat, paused: bool, producerPaused: bool, preferredSpatialLayer: int,
                      preferredTemporalLayer: int, temporalLayers: nat, clockRate: u32)
    ensures var c := Initial(n, paused, producerPaused, preferredSpatialLayer, preferredTemporalLayer, temporalLayers,
                             clockRate);
            Safe(c) && Follows(c, Restart)
  {
  }
}
