/** SimulcastConsumer at work: which packets it forwards, renumbered and retimed, while layers come and go. */
module SimulcastSwitching {
  import opened Seq16
  import opened Bytes
  import opened Simulcasts
  import SeqManagers
  import RtpStreams

  const MOD32 := RtpStreams.MOD32

  /** What a uint32_t keeps of an integer. */
  function Wrap32(x: int): (r: u32)
  {
    x % MOD32
  }

  /** Integer division that truncates toward zero. */
  function Truncate(a: int, b: nat): int
    requires b > 0
  {
    if a >= 0 then a / b else -(-a / b)
  }

  /** What happens to a packet: ignored, dropped by the payload descriptor, or handed to the sending stream, which
      accepts it or not. Failed is one of the two Sender Report assertions. A packet is handed on with the number None
      when SeqManager refused to give it one: then it carries what an uninitialized variable holds. */
  datatype Outcome =
    | Ignored
    | Failed
    | Dropped
    | Handed(number: Option<u16>, timestamp: u32, accepted: bool)

  /** `processed` is the payload descriptor's verdict, and `unset` what the local variable of SendRtpPacket for the new
      sequence number happens to hold before it is set. */
  datatype Event =
    | Packet(layer: nat, seqNum: u16, timestamp: u32, isKeyFrame: bool, supported: bool, processed: bool, unset: u16)
    | ExistingStream(layer: nat, stream: ProducerStream)
    | NewStream(layer: nat, stream: ProducerStream, shares: Shares)
    | StreamScore(layer: nat, score: u8, shares: Shares)
    | SenderReport(layer: nat, ntpMs: nat, ts: u32, shares: Shares)
    | Bitrates(layer: nat, bitrates: seq<nat>, layerBitrates: seq<nat>)
    | FractionLost(fractionLost: u8)
    | TransportConnected(shares: Shares)
    | TransportDisconnected
    | Pause
    | Resume(shares: Shares)
    | ProducerPaused
    | ProducerResumed(shares: Shares)
    | SetPreferredLayers(spatialLayer: nat, temporalLayer: nat, shares: Shares)
    | ExternallyManaged
    | Distribution(shares: Shares)

  // ----- Timestamps

  /** The two Sender Reports that a switch away from the reference layer needs. */
  predicate HasReports(c: Simulcast)
  {
    Simulcasts.SenderReport(c, c.tsReferenceSpatialLayer) != 0 && Simulcasts.SenderReport(c, c.currentSpatialLayer) != 0
  }

  /** The timestamp offset between the reference stream and the current one, from their Sender Reports. */
  function NtpOffset(ntpMs1: nat, ts1: u32, ntpMs2: nat, ts2: u32, clockRate: u32): u32
  {
    var diffTs := Truncate((ntpMs2 - ntpMs1) * clockRate, 1000);
    Wrap32(Wrap32(ts2 - diffTs) - ts1)
  }

  function TsOffset(c: Simulcast): u32
    requires c.currentSpatialLayer != c.tsReferenceSpatialLayer ==> HasReports(c)
  {
    if c.currentSpatialLayer == c.tsReferenceSpatialLayer then 0
    else
      var stream1 := c.producerStreams[c.tsReferenceSpatialLayer].value;
      var stream2 := c.producerStreams[c.currentSpatialLayer].value;
      NtpOffset(stream1.senderReportNtpMs, stream1.senderReportTs, stream2.senderReportNtpMs, stream2.senderReportTs,
                c.clockRate)
  }

  /** The synchronization on the first packet after a switch or a resume. */
  function Synchronize(c: Simulcast, seqNum: u16, timestamp: u32): Simulcast
    requires c.currentSpatialLayer != c.tsReferenceSpatialLayer ==> HasReports(c)
  {
    SynchronizeAt(c, TsOffset(c), seqNum, timestamp)
  }

  function SynchronizeAt(c: Simulcast, offset: u32, seqNum: u16, timestamp: u32): Simulcast
  {
    var top := c.rtpStream.maxPacketTs;
    c.(rtpSeqManager := SeqManagers.Sync(c.rtpSeqManager, Ahead(seqNum, 1)),
       tsOffset := offset,
       tsExtraOffsets :=
         if Wrap32(timestamp - offset) <= top then map[timestamp := Wrap32(top - timestamp + offset + 1)] else map[],
       tsExtraOffsetPacketCount := 0,
       syncRequired := false)
  }

  /** The extra offset of a packet whose timestamp after tsOffset is `shifted`. */
  function ExtraOffset(c: Simulcast, timestamp: u32, shifted: u32): u32
  {
    if timestamp in c.tsExtraOffsets then c.tsExtraOffsets[timestamp]
    else if c.tsExtraOffsets != map[] && shifted < c.rtpStream.maxPacketTs then
      Wrap32(c.rtpStream.maxPacketTs - shifted + 1)
    else 0
  }

  /** The outgoing timestamp, and the bookkeeping of the extra offsets. */
  function Retime(c: Simulcast, timestamp: u32): (Simulcast, u32)
  {
    var shifted := Wrap32(timestamp - c.tsOffset);
    if c.tsExtraOffsets == map[] then (c, shifted)
    else
      var extra := ExtraOffset(c, timestamp, shifted);
      var offsets :=
        if timestamp !in c.tsExtraOffsets && shifted < c.rtpStream.maxPacketTs
        then c.tsExtraOffsets[timestamp := extra] else c.tsExtraOffsets;
      var count := if extra != 0 then Next(c.tsExtraOffsetPacketCount) else c.tsExtraOffsetPacketCount;
      var reset := (extra != 0 && count > 200) || count > 500;
      (c.(tsExtraOffsets := if reset then map[] else offsets,
          tsExtraOffsetPacketCount := if reset then 0 else count),
       Wrap32(shifted + extra))
  }

  // ----- SendRtpPacket

  /** Moves to the target layer on a key frame of it. */
  function Switch(c: Simulcast, layer: nat): Simulcast
  {
    if c.currentSpatialLayer != c.targetSpatialLayer && layer == c.targetSpatialLayer
    then c.(currentSpatialLayer := layer, syncRequired := true)
    else c
  }

  /** Whether the packet gets past the checks before the synchronization. */
  predicate Passes(c: Simulcast, e: Event)
    requires e.Packet?
  {
    && IsActive(c)
    && c.targetTemporalLayer != -1
    && e.supported
    && (c.currentSpatialLayer != c.targetSpatialLayer && e.layer == c.targetSpatialLayer ==> e.isKeyFrame)
    && e.layer == Switch(c, e.layer).currentSpatialLayer
    && (Switch(c, e.layer).syncRequired ==> e.isKeyFrame)
  }

  /** The payload descriptor may drop the packet; otherwise it is rewritten and handed to the sending stream. */
  function Hand(c: Simulcast, e: Event): (Simulcast, Outcome)
    requires e.Packet?
  {
    if !e.processed then (c.(rtpSeqManager := SeqManagers.Drop(c.rtpSeqManager, e.seqNum)), Dropped)
    else
      var (d, timestamp) := Retime(c, e.timestamp);
      var (m, number) := SeqManagers.Input(d.rtpSeqManager, e.seqNum);
      // The code does not look at the result.
      var seqNum := if number.Some? then number.value else e.unset;
      var (s, accepted) := RtpStreams.ReceivePacket(d.rtpStream, seqNum, timestamp);
      (d.(rtpSeqManager := m, rtpStream := s), Handed(number, timestamp, accepted))
  }

  function SendRtpPacket(c: Simulcast, e: Event): (Simulcast, Outcome)
    requires e.Packet?
  {
    if !Passes(c, e) then (c, Ignored)
    else
      var d := Switch(c, e.layer);
      if !d.syncRequired then Hand(d, e)
      else if d.currentSpatialLayer != d.tsReferenceSpatialLayer && !HasReports(d) then (d, Failed)
      else Hand(Synchronize(d, e.seqNum, e.timestamp), e)
  }

  // ----- All events

  predicate HasStream(c: Simulcast, layer: int)
  {
    0 <= layer < |c.producerStreams| && c.producerStreams[layer].Some?
  }

  function WithStream(c: Simulcast, layer: nat, stream: ProducerStream): Simulcast
    requires layer < |c.producerStreams|
  {
    c.(producerStreams := c.producerStreams[layer := Some(stream)])
  }

  /** UserOnPaused and UserOnTransportDisconnected. */
  function OnPaused(c: Simulcast, wasActive: bool): Simulcast
  {
    if wasActive then UpdateTargetLayers(c, -1, -1) else c
  }

  function ChangeIfActive(c: Simulcast, force: bool, shares: Shares): Simulcast
    requires WellFormed(c)
  {
    if IsActive(c) then ChangeLayers(c, force, shares) else c
  }

  /** UserOnResumed. */
  function OnResumed(c: Simulcast, shares: Shares): Simulcast
    requires WellFormed(c)
  {
    if IsActive(c) then ChangeLayers(c.(syncRequired := true), false, shares) else c
  }

  function OnSenderReport(c: Simulcast, layer: nat, ntpMs: nat, ts: u32, shares: Shares): Simulcast
    requires WellFormed(c) && HasStream(c, layer)
  {
    var first := Simulcasts.SenderReport(c, layer) == 0;
    var d := WithStream(c, layer, c.producerStreams[layer].value.(senderReportNtpMs := ntpMs, senderReportTs := ts));
    if first && d.currentSpatialLayer != -1 && Simulcasts.SenderReport(d, d.currentSpatialLayer) != 0
    then ChangeIfActive(d, false, shares)
    else d
  }

  function OnScore(c: Simulcast, layer: nat, score: u8, shares: Shares): Simulcast
    requires WellFormed(c) && HasStream(c, layer)
  {
    var previous := Score(c, layer);
    var d := WithStream(c, layer, c.producerStreams[layer].value.(score := score));
    if BaseActive(d) && (!d.externallyManagedBitrate || score == 0 || previous == 0)
    then ChangeLayers(d, false, shares)
    else d
  }

  function OnPreferredLayers(c: Simulcast, spatialLayer: nat, temporalLayer: nat, shares: Shares): Simulcast
    requires WellFormed(c)
  {
    var spatial := if spatialLayer > |c.producerStreams| - 1 then |c.producerStreams| - 1 else spatialLayer;
    var temporal := if temporalLayer > c.temporalLayers - 1 then c.temporalLayers - 1 else temporalLayer;
    var d := c.(preferredSpatialLayer := spatial, preferredTemporalLayer := temporal);
    if spatial != c.preferredSpatialLayer || temporal != c.preferredTemporalLayer
    then ChangeIfActive(d, true, shares)
    else d
  }

  /** Streams have as many bitrates of either kind, and events concern known layers and existing streams. */
  predicate Applies(c: Simulcast, e: Event)
  {
    match e
    case ExistingStream(layer, stream) => layer < |c.producerStreams| && |stream.bitrates| == |stream.layerBitrates|
    case NewStream(layer, stream, _) => layer < |c.producerStreams| && |stream.bitrates| == |stream.layerBitrates|
    case StreamScore(layer, _, _) => HasStream(c, layer)
    case SenderReport(layer, _, _, _) => HasStream(c, layer)
    case Bitrates(layer, bitrates, layerBitrates) => HasStream(c, layer) && |bitrates| == |layerBitrates|
    case Packet(layer, _, _, _, _, _, _) => layer < |c.producerStreams|
    case _ => true
  }

  function Step(c: Simulcast, e: Event): Simulcast
    requires WellFormed(c) && Applies(c, e)
  {
    match e
    case Packet(_, _, _, _, _, _, _) => SendRtpPacket(c, e).0
    case ExistingStream(layer, stream) => WithStream(c, layer, stream)
    case NewStream(layer, stream, shares) => ChangeIfActive(WithStream(c, layer, stream), false, shares)
    case StreamScore(layer, score, shares) => OnScore(c, layer, score, shares)
    case SenderReport(layer, ntpMs, ts, shares) => OnSenderReport(c, layer, ntpMs, ts, shares)
    case Bitrates(layer, bitrates, layerBitrates) =>
      WithStream(c, layer, c.producerStreams[layer].value.(bitrates := bitrates, layerBitrates := layerBitrates))
    case FractionLost(fractionLost) => c.(fractionLost := fractionLost)
    case TransportConnected(shares) =>
      ChangeIfActive(c.(transportConnected := true, syncRequired := true), false, shares)
    case TransportDisconnected => OnPaused(c.(transportConnected := false), true)
    case Pause => if c.paused then c else OnPaused(c.(paused := true), IsActive(c))
    case Resume(shares) => if !c.paused then c else OnResumed(c.(paused := false), shares)
    case ProducerPaused => if c.producerPaused then c else OnPaused(c.(producerPaused := true), IsActive(c))
    case ProducerResumed(shares) => if !c.producerPaused then c else OnResumed(c.(producerPaused := false), shares)
    case SetPreferredLayers(s, t, shares) => OnPreferredLayers(c, s, t, shares)
    case ExternallyManaged => c.(externallyManagedBitrate := true)
    case Distribution(shares) => Distribute(c, shares)
  }

  /** A consumer of `n` layers, without streams and not connected. */
  function Initial(n: nat, paused: bool, producerPaused: bool, preferredSpatialLayer: int, preferredTemporalLayer: int,
                   temporalLayers: nat, clockRate: u32): Simulcast
  {
    Simulcast(seq(n, i => None), false, paused, producerPaused, false, false,
              preferredSpatialLayer, preferredTemporalLayer, -1, -1, -1, -1, -1, -1, 0, map[], 0,
              SeqManagers.INITIAL, RtpStreams.IDLE, temporalLayers, clockRate, 0)
  }
}
