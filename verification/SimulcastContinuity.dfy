/** Continuity of the sequence numbers that a SimulcastConsumer sends, over whole runs. */
module SimulcastContinuity {
  import opened Seq16
  import opened Bytes
  import opened Simulcasts
  import opened SimulcastSwitching
  import opened SimulcastLemmas
  import opened SimulcastRuns
  import opened SimulcastNumbers
  import opened SeqManagerOutputs
  import F = SeqManagerForgetting
  import L = SeqManagerLemmas
  import M = SeqManagers
  import R = RtpStreams

  // ----- Runs

  /** One packet handed on: its segment, that is, the number of the synchronization before it; its input and output
      positions, whether it came later than a higher one, how many drops were subtracted; the number it carries and
      whether the sending stream accepted it. */
  datatype Forwarded = Forwarded(segment: nat, position: int, late: bool, counted: int, output: int, number: Option<u16>,
                                 accepted: bool)

  /** `track` follows the sequence number manager, and `sent` is the highest output position. */
  datatype Trace = Trace(consumer: Simulcast, segment: nat, track: L.Track, sent: int, log: seq<Forwarded>)

  function Start(c: Simulcast): Trace
  {
    Trace(c, 0, L.Track(0, 0, [], 0, 0), 0, [])
  }

  /** The track as the packet finds it, after a synchronization if there is one. */
  function TrackFor(r: Trace, layer: nat, pos: int): L.Track
  {
    if Switch(r.consumer, layer).syncRequired then L.Track(pos - 1, r.sent, [], pos - 1, pos - 1) else r.track
  }

  function SegmentFor(r: Trace, layer: nat): nat
  {
    if Switch(r.consumer, layer).syncRequired then r.segment + 1 else r.segment
  }

  function DroppedTo(t: L.Track, pos: int): L.Track
  {
    if pos > t.last then L.Dropped(t, pos) else t
  }

  function PassedTo(t: L.Track, pos: int): L.Track
  {
    if pos > t.last then L.Passed(t, pos) else L.Late(t, pos)
  }

  function Highest(sent: int, output: int): int
  {
    if output > sent then output else sent
  }

  /** An event, with the unwrapped number of the packet if it is one. */
  function Extend(r: Trace, e: Event, pos: int): Trace
    requires WellFormed(r.consumer) && Applies(r.consumer, e)
  {
    if !e.Packet? || !Passes(r.consumer, e) then r.(consumer := Step(r.consumer, e))
    else
      var (d, outcome) := SendRtpPacket(r.consumer, e);
      var t, segment := TrackFor(r, e.layer, pos), SegmentFor(r, e.layer);
      if !outcome.Handed? then Trace(d, segment, DroppedTo(t, pos), r.sent, r.log)
      else
        Trace(d, segment, PassedTo(t, pos), Highest(r.sent, L.Compacted(t, pos)), r.log + [Entry(r, e, pos, outcome)])
  }

  function Entry(r: Trace, e: Event, pos: int, outcome: Outcome): Forwarded
    requires e.Packet? && outcome.Handed?
  {
    var t := TrackFor(r, e.layer, pos);
    Forwarded(SegmentFor(r, e.layer), pos, pos <= t.last, Counted(F.Kept(t.drops, pos), pos), L.Compacted(t, pos),
              outcome.number, outcome.accepted)
  }

  /** A segment extends over less than a circle. In order, a drop lies within half a circle of those remembered. A late
      packet finds the drops partitioned, and the one right after it, if it is remembered, is not numbered 0; a late drop
      is behind maxInput. The output is less than 3000 above the highest one, and less than 1500 below. */
  predicate InSegment(r: Trace, e: Event, pos: int)
    requires e.Packet?
  {
    var t := TrackFor(r, e.layer, pos);
    && e.seqNum == Wrap(pos)
    && t.start < pos <= t.start + MAX
    && (if pos > t.last then !e.processed && L.Accepts(t, pos) && t.drops != [] ==> pos - t.drops[0] <= F.HALF
        else if e.processed then L.LateFits(t, pos) && (pos + 1 in t.drops ==> Wrap(pos + 1) != 0)
        else 0 <= t.top - pos <= F.HALF)
    && (e.processed ==> -R.MAX_MISORDER < L.Compacted(t, pos) - r.sent < R.MAX_DROPOUT)
  }

  predicate RegularNumber(r: Trace, e: Event, pos: int)
  {
    e.Packet? && Passes(r.consumer, e) ==> InSegment(r, e, pos)
  }

  /** The manager follows the track, the sending stream the outputs. */
  predicate FollowsTrace(r: Trace)
  {
    var m := r.consumer.rtpSeqManager;
    && m.maxOutput == Wrap(r.sent)
    && 0 <= r.sent && 0 <= r.track.out
    && (r.segment == 0 ==> r.consumer.currentSpatialLayer == -1 || r.consumer.syncRequired)
    && (r.segment > 0 ==> L.Follows(m, r.track) && r.sent <= Room(r.track) && r.track.out <= r.sent)
    && (if r.log == [] then r.consumer.rtpStream == R.IDLE && r.sent == 0 else R.Extends(r.consumer.rtpStream, r.sent))
  }

  /** Every packet handed on carries its output position, and was accepted. Within the current segment the outputs keep
      the distances of the inputs, less the drops. */
  predicate Recorded(r: Trace)
  {
    forall i :: 0 <= i < |r.log| ==>
      var x := r.log[i];
      && x.number == Some(Wrap(x.output)) && x.accepted
      && 1 <= x.segment <= r.segment
      && 0 < x.output <= r.sent
      && (x.segment == r.segment ==>
            x.output == r.track.out + (x.position - r.track.start) - x.counted && x.output > r.track.out)
      && (x.segment < r.segment ==> x.output <= r.track.out)
  }

  /** A packet that comes in order has an output above all before; a late one is still above all earlier segments. Within
      a segment outputs are as far apart as the inputs, less the drops subtracted from one and not the other. */
  predicate InOrder(x: Forwarded, y: Forwarded)
  {
    && x.segment <= y.segment
    && (x.segment < y.segment || !y.late ==> x.output < y.output)
    && (x.segment == y.segment ==> y.output - x.output == (y.position - x.position) - (y.counted - x.counted))
  }

  predicate Continuous(log: seq<Forwarded>)
  {
    forall i, j {:trigger InOrder(log[i], log[j])} :: 0 <= i < j < |log| ==> InOrder(log[i], log[j])
  }

  predicate RunOk(r: Trace)
  {
    Safe(r.consumer) && FollowsTrace(r) && Recorded(r) && Continuous(r.log)
  }

  // ----- Events that are no packets

  predicate SameNumbers(c: Simulcast, d: Simulcast)
  {
    d.rtpSeqManager == c.rtpSeqManager && d.rtpStream == c.rtpStream
  }

  /** They leave the numbers alone. */
  lemma EventKeepsNumbers(c: Simulcast, e: Event)
    requires Safe(c) && Applies(c, e) && Regular(c, e) && !e.Packet?
    ensures Step(c, e).rtpSeqManager == c.rtpSeqManager && Step(c, e).rtpStream == c.rtpStream
  {
    hide Step, Safe, Applies, Regular;
    SafeIsWellFormed(c);
    if e.TransportConnected? {
      ConnectedKeepsNumbers(c, e.shares);
    } else if e.TransportDisconnected? || e.Pause? || e.ProducerPaused? {
      PauseEventKeepsNumbers(c, e);
    } else if e.Resume? || e.ProducerResumed? {
      ResumeEventKeepsNumbers(c, e);
    } else if e.FractionLost? || e.ExternallyManaged? || e.Distribution? || e.SetPreferredLayers? {
      OtherEventKeepsNumbers(c, e);
    } else {
      StreamEventKeepsNumbers(c, e);
    }
  }

  lemma PauseEventKeepsNumbers(c: Simulcast, e: Event)
    requires WellFormed(c) && (e.TransportDisconnected? || e.Pause? || e.ProducerPaused?)
    ensures SameNumbers(c, Step(c, e))
  {
    hide IsActive;
  }

  lemma ResumeEventKeepsNumbers(c: Simulcast, e: Event)
    requires Safe(c) && WellFormed(c) && (e.Resume? || e.ProducerResumed?)
    ensures SameNumbers(c, Step(c, e))
  {
    hide OnResumed, Safe;
    match e
    case Resume(shares) => if c.paused { ResumeKeepsNumbers(c, c.(paused := false), shares); }
    case ProducerResumed(shares) => if c.producerPaused { ResumeKeepsNumbers(c, c.(producerPaused := false), shares); }
  }

  lemma OtherEventKeepsNumbers(c: Simulcast, e: Event)
    requires Safe(c) && WellFormed(c)
    requires e.FractionLost? || e.ExternallyManaged? || e.Distribution? || e.SetPreferredLayers?
    ensures SameNumbers(c, Step(c, e))
  {
    hide OnPreferredLayers, Distribute, Safe;
    if e.Distribution? {
      DistributeKeepsNumbers(c, e.shares);
    } else if e.SetPreferredLayers? {
      PreferredKeepsNumbers(c, e.spatialLayer, e.temporalLayer, e.shares);
    }
  }

  lemma DistributeKeepsNumbers(c: Simulcast, shares: Shares)
    requires Safe(c)
    ensures SameNumbers(c, Distribute(c, shares))
  {
    hide Distribute, Safe;
    SafeIsAlmostSafe(c);
    DistributeIsSafe(c, shares);
  }

  lemma SafeIsAlmostSafe(c: Simulcast)
    requires Safe(c)
    ensures AlmostSafe(c)
  {
  }

  lemma StreamEventKeepsNumbers(c: Simulcast, e: Event)
    requires Safe(c) && WellFormed(c) && Applies(c, e) && Regular(c, e)
    requires e.ExistingStream? || e.NewStream? || e.StreamScore? || e.SenderReport? || e.Bitrates?
    ensures SameNumbers(c, Step(c, e))
  {
    hide ChangeIfActive, OnSenderReport, OnScore, Safe;
    match e
    case ExistingStream(_, _) =>
    case NewStream(layer, stream, shares) =>
      NewStreamIsSafe(c, layer, stream);
      ChangeIfActiveIsSafe(WithStream(c, layer, stream), false, shares);
    case StreamScore(layer, score, shares) => ScoreKeepsNumbers(c, layer, score, shares);
    case SenderReport(layer, ntpMs, ts, shares) => ReportKeepsNumbers(c, layer, ntpMs, ts, shares);
    case Bitrates(_, _, _) =>
  }

  lemma ScoreKeepsNumbers(c: Simulcast, layer: nat, score: u8, shares: Shares)
    requires Safe(c) && HasStream(c, layer)
    ensures SameNumbers(c, OnScore(c, layer, score, shares))
  {
    hide ChangeLayers;
    var d := WithStream(c, layer, c.producerStreams[layer].value.(score := score));
    assert AlmostSafe(d);
    if BaseActive(d) {
      ChangeIsSafe(d, false, shares);
    }
  }

  lemma ReportKeepsNumbers(c: Simulcast, layer: nat, ntpMs: nat, ts: u32, shares: Shares)
    requires Safe(c) && HasStream(c, layer) && ntpMs != 0
    ensures SameNumbers(c, OnSenderReport(c, layer, ntpMs, ts, shares))
  {
    hide ChangeIfActive;
    var d := WithStream(c, layer, c.producerStreams[layer].value.(senderReportNtpMs := ntpMs, senderReportTs := ts));
    assert Safe(d);
    ChangeIfActiveIsSafe(d, false, shares);
  }

  lemma ConnectedKeepsNumbers(c: Simulcast, shares: Shares)
    requires Safe(c)
    ensures SameNumbers(c, Step(c, TransportConnected(shares)))
  {
    var d := c.(transportConnected := true, syncRequired := true);
    SameStreams(c, d);
    hide CanSwitch, ChangeIfActive;
    ChangeIfActiveIsSafe(d, false, shares);
  }

  lemma ResumeKeepsNumbers(c: Simulcast, d: Simulcast, shares: Shares)
    requires Safe(c) && !BaseActive(c) && d == c.(paused := d.paused, producerPaused := d.producerPaused)
    ensures SameNumbers(c, OnResumed(d, shares))
  {
    hide ChangeLayers, CanSwitch;
    var s := d.(syncRequired := true);
    SameStreams(c, d);
    SameStreams(c, s);
    if IsActive(d) {
      ChangeIsSafe(s, false, shares);
    }
  }

  lemma PreferredKeepsNumbers(c: Simulcast, s: nat, t: nat, shares: Shares)
    requires Safe(c)
    ensures SameNumbers(c, OnPreferredLayers(c, s, t, shares))
  {
    hide ChangeIfActive, Safe;
    var spatial := if s > |c.producerStreams| - 1 then |c.producerStreams| - 1 else s;
    var temporal := if t > c.temporalLayers - 1 then c.temporalLayers - 1 else t;
    var d := c.(preferredSpatialLayer := spatial, preferredTemporalLayer := temporal);
    OthersAreSafe(c, d);
    ChangeIfActiveIsSafe(d, true, shares);
  }

  lemma EventIsOk(r: Trace, e: Event)
    requires RunOk(r) && Applies(r.consumer, e) && Regular(r.consumer, e) && !e.Packet?
    ensures RunOk(Extend(r, e, 0))
  {
    hide Step, Safe, Applies, Regular, L.Follows, R.Extends, Room, Wrap;
    EventIsSafe(r.consumer, e);
    EventKeepsNumbers(r.consumer, e);
  }

  // ----- Packets

  /** The manager as the packet finds it follows the track as the packet finds it. */
  lemma TrackIsFollowed(r: Trace, e: Event, pos: int)
    requires FollowsTrace(r) && e.Packet? && Passes(r.consumer, e) && InSegment(r, e, pos)
    ensures var m, t := ManagerFor(r.consumer, e), TrackFor(r, e.layer, pos);
            && L.Follows(m, t) && m.maxOutput == Wrap(r.sent)
            && L.Ascending(t.drops, t.start, t.last) && t.start <= t.last <= t.start + MAX
            && r.sent <= Room(t) && 0 <= t.out <= r.sent
            && SegmentFor(r, e.layer) > 0
  {
    hide Wrap, IsActive, M.Sync, L.Follows, L.Compacted, Room, L.Accepts;
    if Switch(r.consumer, e.layer).syncRequired {
      PreviousNumber(pos);
      L.SyncFollows(r.consumer.rtpSeqManager, pos - 1, r.sent);
      SyncKeepsTop(r.consumer.rtpSeqManager, Ahead(e.seqNum, 1));
      FreshRoom(pos - 1, r.sent);
    } else {
      FollowsAscends(r.consumer.rtpSeqManager, r.track);
    }
  }

  lemma PreviousNumber(x: int)
    ensures Ahead(Wrap(x), 1) == Wrap(x - 1)
  {
  }

  lemma SyncKeepsTop(m: M.State, input: u16)
    ensures M.Sync(m, input).maxOutput == m.maxOutput
  {
  }

  lemma FreshRoom(start: int, out: int)
    ensures Room(L.Track(start, out, [], start, start)) == out
    ensures L.Ascending([], start, start)
  {
  }

  lemma FollowsAscends(m: M.State, t: L.Track)
    requires L.Follows(m, t)
    ensures L.Ascending(t.drops, t.start, t.last) && t.start <= t.last <= t.start + MAX
  {
  }

  /** The manager after a drop, which makes room at most. */
  lemma DropIsFollowed(m: M.State, t: L.Track, pos: int)
    requires L.Follows(m, t) && L.Ascending(t.drops, t.start, t.last) && t.start <= t.last && t.start < pos <= t.start + MAX
    requires if pos > t.last then L.Accepts(t, pos) && t.drops != [] ==> pos - t.drops[0] <= F.HALF
             else 0 <= t.top - pos <= F.HALF
    ensures var d := DroppedTo(t, pos);
            && L.Follows(M.Drop(m, Wrap(pos)), d) && Room(d) >= Room(t) && d.out == t.out && d.start == t.start
  {
    hide Wrap, M.Drop, L.Follows, L.Dropped, Room, L.Accepts;
    if pos > t.last {
      L.DropFollows(m, t, pos);
      DropMakesRoom(t, pos);
      DroppedKeeps(t, pos);
    } else {
      LateDropIsRefused(m, t, pos);
    }
  }

  lemma LateDropIsRefused(m: M.State, t: L.Track, pos: int)
    requires L.Follows(m, t) && 0 <= t.top - pos <= F.HALF
    ensures M.Drop(m, Wrap(pos)) == m
  {
    hide Wrap;
    if pos == t.top {
    } else {
      LowerOfUnwrapped(pos, t.top);
      LowerOfUnwrapped(t.top, pos);
    }
  }

  /** A dropped packet leaves the log alone. */
  lemma DropIsOk(r: Trace, e: Event, pos: int)
    requires RunOk(r) && Applies(r.consumer, e) && e.Packet? && Passes(r.consumer, e) && InSegment(r, e, pos) && !e.processed
    ensures RunOk(Extend(r, e, pos))
  {
    hide Wrap, Safe, Passes, SendRtpPacket, M.Drop, L.Follows, DroppedTo, Room, L.Compacted, R.Extends, L.Accepts,
      L.LateFits, Continuous, Applies;
    SafeIsWellFormed(r.consumer);
    var m, t := ManagerFor(r.consumer, e), TrackFor(r, e.layer, pos);
    TrackIsFollowed(r, e, pos);
    SendNumbers(r.consumer, e);
    SendIsSafe(r.consumer, e);
    DropIsFollowed(m, t, pos);
    DropKeepsTop(m, e.seqNum);
    StillRecorded(r, Extend(r, e, pos));
  }

  lemma DropKeepsTop(m: M.State, input: u16)
    ensures M.Drop(m, input).maxOutput == m.maxOutput
  {
  }

  lemma DroppedKeeps(t: L.Track, pos: int)
    ensures L.Dropped(t, pos).out == t.out && L.Dropped(t, pos).start == t.start
  {
  }

  /** The log stays as it is, and a new segment may begin after it. */
  lemma StillRecorded(r: Trace, q: Trace)
    requires Recorded(r) && q.log == r.log && r.sent <= q.sent
    requires if q.segment == r.segment then q.track.out == r.track.out && q.track.start == r.track.start
             else q.segment > r.segment && q.track.out == r.sent && (r.segment > 0 ==> r.track.out <= r.sent)
    ensures Recorded(q)
  {
    hide Wrap;
    forall i | 0 <= i < |q.log|
      ensures var x := q.log[i];
              && x.number == Some(Wrap(x.output)) && x.accepted
              && 1 <= x.segment <= q.segment
              && 0 < x.output <= q.sent
              && (x.segment == q.segment ==>
                    x.output == q.track.out + (x.position - q.track.start) - x.counted && x.output > q.track.out)
              && (x.segment < q.segment ==> x.output <= q.track.out)
    {
      var x := r.log[i];
      assert x == q.log[i];
    }
  }

  lemma SafeIsWellFormed(c: Simulcast)
    requires Safe(c)
    ensures WellFormed(c)
  {
  }

  /** The manager after a packet: it gives out the output position, which is above what was sent before the
      synchronization, and above all that was sent when the packet comes in order. */
  lemma PassIsFollowed(m: M.State, t: L.Track, pos: int, sent: int)
    requires L.Follows(m, t) && L.Ascending(t.drops, t.start, t.last) && t.start <= t.last <= t.start + MAX
    requires t.out <= sent <= Room(t) && t.start < pos <= t.start + MAX && m.maxOutput == Wrap(sent)
    requires pos <= t.last ==> L.LateFits(t, pos) && (pos + 1 in t.drops ==> Wrap(pos + 1) != 0)
    requires -R.MAX_MISORDER < L.Compacted(t, pos) - sent < R.MAX_DROPOUT
    ensures var output, d, (r, number) := L.Compacted(t, pos), PassedTo(t, pos), M.Input(m, Wrap(pos));
            && number == Some(Wrap(output)) && L.Follows(r, d) && r.maxOutput == Wrap(Highest(sent, output))
            && t.out < output && Highest(sent, output) <= Room(d) && d.out == t.out && d.start == t.start
            && (pos > t.last ==> sent < output)
  {
    hide Wrap, M.Input, L.Follows, L.Passed, L.Late, L.LateFits, Room, L.Compacted;
    if pos > t.last {
      NotDropped(m, t, pos);
      L.InputIsCompacted(m, t, pos);
      PassMakesRoom(t, pos);
    } else {
      L.LateIsCompacted(m, t, pos);
      LateMakesRoom(t, pos);
    }
    PassedKeeps(t, pos);
    TopIsHighest(m, t, pos, sent);
  }

  lemma NotDropped(m: M.State, t: L.Track, pos: int)
    requires L.Follows(m, t) && t.last < pos
    ensures pos !in t.drops
  {
  }

  lemma PassedKeeps(t: L.Track, pos: int)
    ensures L.Passed(t, pos).out == t.out && L.Passed(t, pos).start == t.start
    ensures L.Late(t, pos).out == t.out && L.Late(t, pos).start == t.start
  {
  }

  /** maxOutput is the highest output. */
  lemma TopIsHighest(m: M.State, t: L.Track, pos: int, sent: int)
    requires m.maxOutput == Wrap(sent) && -R.MAX_MISORDER < L.Compacted(t, pos) - sent < R.MAX_DROPOUT
    requires M.Input(m, Wrap(pos)).1 == Some(Wrap(L.Compacted(t, pos)))
    ensures M.Input(m, Wrap(pos)).0.maxOutput == Wrap(Highest(sent, L.Compacted(t, pos)))
  {
    hide Wrap, M.Recent, M.CountBelow, L.Compacted;
    var output := L.Compacted(t, pos);
    if output >= sent {
      AheadOfUnwrapped(output, sent);
    } else {
      R.AheadOfEarlier(sent, output);
    }
  }

  /** What a packet handed on carries: the number of its output position, which is in reach of the highest one. */
  lemma PassAdvances(r: Trace, e: Event, pos: int)
    requires RunOk(r) && Applies(r.consumer, e) && e.Packet? && Passes(r.consumer, e) && InSegment(r, e, pos) && e.processed
    ensures var t, (d, outcome) := TrackFor(r, e.layer, pos), SendRtpPacket(r.consumer, e);
            var output := L.Compacted(t, pos);
            && SegmentFor(r, e.layer) > 0
            && L.Follows(d.rtpSeqManager, PassedTo(t, pos)) && d.rtpSeqManager.maxOutput == Wrap(Highest(r.sent, output))
            && 0 <= t.out < output && Highest(r.sent, output) <= Room(PassedTo(t, pos))
            && PassedTo(t, pos).out == t.out && PassedTo(t, pos).start == t.start
            && (pos > t.last ==> r.sent < output)
            && t.out <= r.sent
            && outcome.Handed? && outcome.number == Some(Wrap(output))
            && (d.rtpStream, outcome.accepted) == R.ReceivePacket(r.consumer.rtpStream, Wrap(output), outcome.timestamp)
            && -R.MAX_MISORDER < output - r.sent < R.MAX_DROPOUT
  {
    hide Wrap, Safe, Passes, SendRtpPacket, M.Input, L.Follows, PassedTo, Room, L.Compacted, R.Extends, R.ReceivePacket,
      L.LateFits, L.Accepts, Continuous, Recorded, Applies;
    TrackIsFollowed(r, e, pos);
    SendNumbers(r.consumer, e);
    PassIsFollowed(ManagerFor(r.consumer, e), TrackFor(r, e.layer, pos), pos, r.sent);
  }

  /** A packet handed on carries its output position, which the sending stream accepts. */
  lemma PassIsOk(r: Trace, e: Event, pos: int)
    requires RunOk(r) && Applies(r.consumer, e) && e.Packet? && Passes(r.consumer, e) && InSegment(r, e, pos) && e.processed
    ensures RunOk(Extend(r, e, pos))
  {
    hide Wrap, Safe, Passes, SendRtpPacket, L.Follows, PassedTo, Room, L.Compacted, R.Extends, R.ReceivePacket,
      F.Kept, Continuous, Recorded, Applies, InSegment, Entry;
    SafeIsWellFormed(r.consumer);
    SendNumbers(r.consumer, e);
    SendIsSafe(r.consumer, e);
    PassAdvances(r, e, pos);
    PassIsAccepted(r, e, pos);
    PassIsRecorded(r, e, pos);
  }

  lemma PassIsAccepted(r: Trace, e: Event, pos: int)
    requires RunOk(r) && Applies(r.consumer, e) && e.Packet? && Passes(r.consumer, e) && InSegment(r, e, pos) && e.processed
    ensures var (d, outcome) := SendRtpPacket(r.consumer, e);
            && outcome.Handed? && outcome.accepted
            && R.Extends(d.rtpStream, Highest(r.sent, L.Compacted(TrackFor(r, e.layer, pos), pos)))
  {
    hide Wrap, Safe, Passes, SendRtpPacket, L.Follows, PassedTo, Room, L.Compacted, R.Extends, R.ReceivePacket,
      TrackFor, Continuous, Recorded, Applies, InSegment;
    PassAdvances(r, e, pos);
    var output, outcome := L.Compacted(TrackFor(r, e.layer, pos), pos), SendRtpPacket(r.consumer, e).1;
    if r.log == [] {
      FirstOutput(output, outcome.timestamp);
    } else {
      R.AcceptsInRange(r.consumer.rtpStream, r.sent, output, outcome.timestamp);
    }
  }

  lemma FirstOutput(output: int, timestamp: u32)
    requires 0 < output < R.MAX_DROPOUT
    ensures var (s, accepted) := R.ReceivePacket(R.IDLE, Wrap(output), timestamp); accepted && R.Extends(s, output)
  {
    R.FirstPacket(Wrap(output), timestamp);
  }

  lemma PassIsRecorded(r: Trace, e: Event, pos: int)
    requires RunOk(r) && Applies(r.consumer, e) && WellFormed(r.consumer) && e.Packet? && Passes(r.consumer, e)
    requires var t, output := TrackFor(r, e.layer, pos), L.Compacted(TrackFor(r, e.layer, pos), pos);
             && SegmentFor(r, e.layer) > 0
             && SendRtpPacket(r.consumer, e).1.Handed?
             && SendRtpPacket(r.consumer, e).1.number == Some(Wrap(output))
             && SendRtpPacket(r.consumer, e).1.accepted
             && 0 <= t.out < output && t.out <= r.sent && (pos > t.last ==> r.sent < output)
             && PassedTo(t, pos).out == t.out && PassedTo(t, pos).start == t.start
    ensures Recorded(Extend(r, e, pos)) && Continuous(Extend(r, e, pos).log)
  {
    hide Wrap, Safe, Passes, SendRtpPacket, L.Follows, Room, R.Extends, F.Kept, Applies, Recorded, Continuous, PassedTo;
    LogGrows(r, Extend(r, e, pos), Entry(r, e, pos, SendRtpPacket(r.consumer, e).1));
  }

  lemma LogGrows(r: Trace, q: Trace, x: Forwarded)
    requires Recorded(r) && Continuous(r.log) && 0 <= r.sent && q.sent == Highest(r.sent, x.output)
    requires 0 <= q.track.out && (!x.late ==> r.sent < x.output)
    requires q.log == r.log + [x] && x.number == Some(Wrap(x.output)) && x.accepted && x.segment == q.segment > 0
    requires x.output == q.track.out + (x.position - q.track.start) - x.counted && x.output > q.track.out
    requires if q.segment == r.segment then q.track.out == r.track.out && q.track.start == r.track.start
             else q.segment > r.segment && q.track.out == r.sent && (r.segment > 0 ==> r.track.out <= r.sent)
    ensures Recorded(q) && Continuous(q.log)
  {
    hide Wrap;
    StillRecorded(r, q.(log := r.log));
    forall i | 0 <= i < |r.log|
      ensures InOrder(q.log[i], x)
    {
      assert q.log[i] == r.log[i] == q.(log := r.log).log[i];
    }
    forall i, j | 0 <= i < j < |q.log|
      ensures InOrder(q.log[i], q.log[j])
    {
      if j < |r.log| {
        assert InOrder(r.log[i], r.log[j]);
      }
    }
    assert forall i :: 0 <= i < |r.log| ==> q.log[i] == q.(log := r.log).log[i];
  }

  // ----- Whole runs

  /** Every event is regular where it comes. */
  predicate AllRegular(c: Simulcast, es: seq<(Event, int)>)
    decreases |es|, 0
  {
    es == [] ||
    var n := |es| - 1;
    && AllRegular(c, es[..n])
    && var r := Run(c, es[..n]);
       && WellFormed(r.consumer)
       && Applies(r.consumer, es[n].0) && Regular(r.consumer, es[n].0) && RegularNumber(r, es[n].0, es[n].1)
  }

  function Run(c: Simulcast, es: seq<(Event, int)>): Trace
    requires AllRegular(c, es)
    decreases |es|, 1
  {
    if es == [] then Start(c)
    else
      var n := |es| - 1;
      Extend(Run(c, es[..n]), es[n].0, es[n].1)
  }

  lemma StepIsOk(r: Trace, e: Event, pos: int)
    requires RunOk(r) && Applies(r.consumer, e) && Regular(r.consumer, e) && RegularNumber(r, e, pos)
    ensures WellFormed(r.consumer) && RunOk(Extend(r, e, pos))
  {
    hide RunOk, Safe, Passes, Applies, Regular, InSegment, Extend;
    OkIsSafe(r);
    if !e.Packet? {
      EventIsOk(r, e);
      EventHasNoPosition(r, e, pos);
    } else if !Passes(r.consumer, e) {
      IgnoredIsOk(r, e, pos);
    } else if e.processed {
      PassIsOk(r, e, pos);
    } else {
      DropIsOk(r, e, pos);
    }
  }

  lemma OkIsSafe(r: Trace)
    requires RunOk(r)
    ensures Safe(r.consumer) && WellFormed(r.consumer)
  {
  }

  lemma EventHasNoPosition(r: Trace, e: Event, pos: int)
    requires WellFormed(r.consumer) && Applies(r.consumer, e) && !e.Packet?
    ensures Extend(r, e, pos) == Extend(r, e, 0)
  {
    hide Step;
  }

  lemma IgnoredIsOk(r: Trace, e: Event, pos: int)
    requires RunOk(r) && Applies(r.consumer, e) && WellFormed(r.consumer) && e.Packet? && !Passes(r.consumer, e)
    ensures RunOk(Extend(r, e, pos))
  {
    hide RunOk, Passes;
    assert Extend(r, e, pos) == r;
  }

  /** From a new consumer, over any regular run of layer switches, pauses, losses, late and dropped packets, every packet
      handed on carries a defined number and is accepted. A packet in order gets an output above all before it, a late one
      above all earlier segments; within a segment outputs are as far apart as the inputs, less the drops. */
  lemma {:induction false} RunIsContinuous(c: Simulcast, es: seq<(Event, int)>)
    requires RunOk(Start(c)) && AllRegular(c, es)
    ensures RunOk(Run(c, es))
    decreases |es|
  {
    hide Safe, RunOk, Applies, Regular, RegularNumber, Extend;
    if es != [] {
      var n := |es| - 1;
      RunIsContinuous(c, es[..n]);
      StepIsOk(Run(c, es[..n]), es[n].0, es[n].1);
    }
  }

  lemma NewIsOk(n: nat, paused: bool, producerPaused: bool, preferredSpatialLayer: int, preferredTemporalLayer: int,
                temporalLayers: nat, clockRate: u32)
    ensures RunOk(Start(Initial(n, paused, producerPaused, preferredSpatialLayer, preferredTemporalLayer, temporalLayers,
                                clockRate)))
  {
  }

  /** The packet of a synchronization has the number right after the highest one sent before, the very first has 1. */
  lemma SegmentsJoin(r: Trace, e: Event, pos: int)
    requires RunOk(r) && Applies(r.consumer, e) && RegularNumber(r, e, pos)
    requires e.Packet? && Passes(r.consumer, e) && Switch(r.consumer, e.layer).syncRequired && e.processed
    ensures SendRtpPacket(r.consumer, e).1.Handed?
    ensures SendRtpPacket(r.consumer, e).1.number == Some(Wrap(r.sent + 1))
    ensures r.log == [] ==> r.sent == 0
    ensures forall i :: 0 <= i < |r.log| ==> r.log[i].output <= r.sent
  {
    hide Wrap, Safe, Passes, SendRtpPacket, M.Input, L.Follows, R.Extends, R.ReceivePacket, Continuous, Applies;
    var m, t := ManagerFor(r.consumer, e), TrackFor(r, e.layer, pos);
    TrackIsFollowed(r, e, pos);
    SendNumbers(r.consumer, e);
    L.InputIsCompacted(m, t, pos);
  }
}
