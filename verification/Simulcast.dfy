/** SimulcastConsumer as a value: which spatial layer it targets, which one it forwards, and what it may spend. */
module Simulcasts {
  import opened Seq16
  import opened Bytes
  import opened Layers
  import SeqManagers
  import RtpStreams

  /** A stream of the producer, one per spatial layer. The bitrates are indexed by temporal layer: `bitrates` is
      GetBitrate(now, 0, t), the cost of all layers up to t, and `layerBitrates` GetLayerBitrate(now, 0, t), that of
      layer t alone. A sender report time of 0 means that there was no report. */
  datatype ProducerStream = ProducerStream(
    score: u8,
    senderReportNtpMs: nat,
    senderReportTs: u32,
    bitrates: seq<nat>,
    layerBitrates: seq<nat>)

  datatype Simulcast = Simulcast(
    producerStreams: seq<Option<ProducerStream>>,
    transportConnected: bool,
    paused: bool,
    producerPaused: bool,
    externallyManagedBitrate: bool,
    syncRequired: bool,
    preferredSpatialLayer: int,
    preferredTemporalLayer: int,
    provisionalTargetSpatialLayer: int,
    provisionalTargetTemporalLayer: int,
    targetSpatialLayer: int,
    targetTemporalLayer: int,
    currentSpatialLayer: int,
    tsReferenceSpatialLayer: int,
    tsOffset: u32,
    tsExtraOffsets: map<u32, u32>,
    tsExtraOffsetPacketCount: u16,
    rtpSeqManager: SeqManagers.State,
    rtpStream: RtpStreams.Stream,
    temporalLayers: nat,
    clockRate: u32,
    fractionLost: u8)

  /** The streams, with as many costs of either kind. */
  predicate WellFormed(c: Simulcast)
  {
    forall s :: 0 <= s < |c.producerStreams| && c.producerStreams[s].Some? ==>
      |c.producerStreams[s].value.bitrates| == |c.producerStreams[s].value.layerBitrates|
  }

  // ----- Activity

  /** Consumer::IsActive, of the parent class. */
  predicate BaseActive(c: Simulcast)
  {
    c.transportConnected && !c.paused && !c.producerPaused
  }

  /** SimulcastConsumer::IsActive. */
  predicate IsActive(c: Simulcast)
  {
    BaseActive(c) && exists s :: 0 <= s < |c.producerStreams| && Score(c, s) > 0
  }

  /** The score of a layer, 0 when it has no stream. */
  function Score(c: Simulcast, s: int): u8
  {
    if 0 <= s < |c.producerStreams| && c.producerStreams[s].Some? then c.producerStreams[s].value.score else 0
  }

  function SenderReport(c: Simulcast, s: int): nat
  {
    if 0 <= s < |c.producerStreams| && c.producerStreams[s].Some? then c.producerStreams[s].value.senderReportNtpMs
    else 0
  }

  /** CanSwitchToSpatialLayer, for a layer that has a stream. */
  predicate CanSwitch(c: Simulcast, s: int)
  {
    || c.tsReferenceSpatialLayer == -1
    || s == c.tsReferenceSpatialLayer
    || (SenderReport(c, c.tsReferenceSpatialLayer) != 0 && SenderReport(c, s) != 0)
  }

  // ----- The bandwidth allocator's interface

  /** GetBitratePriority: at least 1 for an active consumer, so that it takes part in the distribution. */
  function BitratePriority(c: Simulcast): nat
  {
    if !BaseActive(c) then 0
    else
      var s := PriorityLayer(LiveLayers(c), c.preferredSpatialLayer, 0, -1);
      if s == -1 then 1 else s + 1
  }

  function LiveLayers(c: Simulcast): (r: seq<bool>)
    ensures |r| == |c.producerStreams|
    ensures forall s :: 0 <= s < |r| ==> r[s] == (Score(c, s) != 0)
  {
    seq(|c.producerStreams|, s requires 0 <= s < |c.producerStreams| => Score(c, s) != 0)
  }

  /** The layers as the two calls see them. The first pass takes any live layer it may switch to (its third check
      compares the score with a maximum that is never updated, so it never skips one); the second only layers with a
      good score. */
  function GridOf(c: Simulcast): (g: Grid)
    requires WellFormed(c)
    ensures |g.rows| == |c.producerStreams|
    ensures forall s :: 0 <= s < |g.rows| ==> |g.rows[s].costs| == |g.rows[s].stepCosts|
  {
    Grid(seq(|c.producerStreams|, s requires 0 <= s < |c.producerStreams| =>
               Row(Score(c, s) != 0 && CanSwitch(c, s),
                   Score(c, s) >= 7 && CanSwitch(c, s),
                   Score(c, s) >= 7,
                   if c.producerStreams[s].Some? then c.producerStreams[s].value.bitrates else [],
                   if c.producerStreams[s].Some? then c.producerStreams[s].value.layerBitrates else [])),
         c.preferredSpatialLayer, c.preferredTemporalLayer)
  }

  function WithProvisional(c: Simulcast, r: Option<Rung>): Simulcast
  {
    c.(provisionalTargetSpatialLayer := if r.Some? then r.value.spatial else -1,
       provisionalTargetTemporalLayer := if r.Some? then r.value.temporal else -1)
  }

  function UseAvailableBitrate(c: Simulcast, bitrate: nat): (Simulcast, nat)
    requires WellFormed(c)
  {
    if !BaseActive(c) then (WithProvisional(c, None), 0)
    else
      var (r, used) := Use(GridOf(c), c.fractionLost, bitrate);
      (WithProvisional(c, r), used)
  }

  function IncreaseLayer(c: Simulcast, bitrate: nat): (Simulcast, nat)
    requires WellFormed(c)
  {
    if !BaseActive(c) then (c, 0)
    else
      var (r, used) := Increase(GridOf(c), c.provisionalTargetSpatialLayer, c.provisionalTargetTemporalLayer,
                                c.fractionLost, bitrate);
      (if r.Some? then WithProvisional(c, r) else c, used)
  }

  // ----- ApplyLayers, UpdateTargetLayers, RecalculateTargetLayers

  function UpdateTargetLayers(c: Simulcast, s: int, t: int): Simulcast
  {
    if s == -1 then c.(targetSpatialLayer := -1, targetTemporalLayer := -1, currentSpatialLayer := -1)
    else
      c.(tsReferenceSpatialLayer := if c.tsReferenceSpatialLayer == -1 then s else c.tsReferenceSpatialLayer,
         targetSpatialLayer := s,
         targetTemporalLayer := t)
  }

  function ApplyLayers(c: Simulcast): Simulcast
  {
    var s, t := c.provisionalTargetSpatialLayer, c.provisionalTargetTemporalLayer;
    var d := WithProvisional(c, None);
    if BaseActive(c) && (s != c.targetSpatialLayer || t != c.targetTemporalLayer) then UpdateTargetLayers(d, s, t)
    else d
  }

  /** The spatial layer chosen by RecalculateTargetLayers, given the best so far and its score. */
  function ChooseSpatial(c: Simulcast, s: nat, best: int, maxScore: u8): int
    decreases |c.producerStreams| - s
  {
    if s >= |c.producerStreams| then best
    else if Score(c, s) == 0 || !CanSwitch(c, s) || (Score(c, s) < maxScore && Score(c, s) < 7) then
      ChooseSpatial(c, s + 1, best, maxScore)
    else if s >= c.preferredSpatialLayer && Score(c, s) >= 7 then s
    else ChooseSpatial(c, s + 1, s, Score(c, s))
  }

  function TemporalFor(c: Simulcast, s: int): int
  {
    if s == -1 then -1
    else if s == c.preferredSpatialLayer then c.preferredTemporalLayer
    else if s < c.preferredSpatialLayer then c.temporalLayers - 1
    else 0
  }

  /** MayChangeLayers. With an externally managed bitrate it does not change anything itself; the flag says that it
      asks the transport to distribute the bitrate again. */
  function MayChangeLayers(c: Simulcast, force: bool): (Simulcast, bool)
  {
    var s := ChooseSpatial(c, 0, -1, 0);
    var t := TemporalFor(c, s);
    if s == c.targetSpatialLayer && t == c.targetTemporalLayer then (c, false)
    else if c.externallyManagedBitrate then (c, s != c.targetSpatialLayer || force)
    else (UpdateTargetLayers(c, s, t), false)
  }

  // ----- A distribution, as one consumer sees it

  /** What the transport gives a consumer: a share in the first round, and what remains in later ones. */
  datatype Shares = Shares(bitrate: nat, increases: seq<nat>)

  function IncreaseLayers(c: Simulcast, increases: seq<nat>): Simulcast
    requires WellFormed(c)
    decreases |increases|
  {
    if increases == [] then c
    else
      var d := IncreaseLayer(c, increases[0]).0;
      IncreaseLayers(d, increases[1..])
  }

  /** Only consumers with a positive priority take part, and an active one has. */
  function Distribute(c: Simulcast, shares: Shares): Simulcast
    requires WellFormed(c)
  {
    if !BaseActive(c) then c
    else
      var d := UseAvailableBitrate(c, shares.bitrate).0;
      ApplyLayers(IncreaseLayers(d, shares.increases))
  }

  /** MayChangeLayers, together with the distribution that the transport then does on the spot. */
  function ChangeLayers(c: Simulcast, force: bool, shares: Shares): Simulcast
    requires WellFormed(c)
  {
    var (d, ask) := MayChangeLayers(c, force);
    if ask then Distribute(d, shares) else d
  }
}
