/** Continuity of what a SimpleConsumer sends, over any number of pauses and reconnections. */
module SimpleConsumerLemmas {
  import opened Seq16
  import opened Bytes
  import opened SeqManagers
  import opened SimpleConsumers
  import opened RtpStreams

  /** A segment is what is sent between two synchronizations. `first` and `top` are the first and the highest input
      position of the current one, `sent` the highest output position so far; `number` counts the segments. */
  datatype Track = Track(number: nat, first: int, top: int, sent: int)

  const START := Track(0, 0, 0, 0)

  /** A packet belongs to the current segment: it does not lie before its first one, and is less than 3000 ahead of
      the highest one and less than 1500 behind it. */
  predicate InSegment(t: Track, position: int)
  {
    t.first <= position && -MAX_MISORDER < position - t.top < MAX_DROPOUT
  }

  /** The output position of a packet, and the track after it. */
  function OutputOf(c: Consumer, t: Track, position: int): int
  {
    if c.syncRequired then t.sent + 1 else t.sent + (position - t.top)
  }

  function Follow(c: Consumer, t: Track, position: int): Track
  {
    if c.syncRequired then Track(t.number + 1, position, position, t.sent + 1)
    else if position > t.top then t.(top := position, sent := t.sent + (position - t.top))
    else t
  }

  predicate Follows(c: Consumer, t: Track)
  {
    && 0 <= t.sent
    && c.rtpSeqManager.dropped == []
    && c.rtpSeqManager.maxOutput == Wrap(t.sent)
    && (if t.number == 0 then c.rtpStream == IDLE && t.sent == 0 && (c.syncRequired || !c.transportConnected)
        else Extends(c.rtpStream, t.sent))
    && (t.number > 0 && !c.syncRequired ==>
          && t.first <= t.top
          && c.rtpSeqManager.maxInput == Wrap(t.top)
          && c.rtpSeqManager.base == Wrap(t.sent - t.top))
  }

  lemma WrapOfSum(x: int, y: int)
    ensures Wrap(Wrap(x) + Wrap(y)) == Wrap(x + y)
  {
  }

  lemma WrapOfPrevious(x: int)
    ensures Ahead(Wrap(x), 1) == Wrap(x - 1)
  {
  }

  lemma SyncOutput(m: State, sent: int, position: int)
    requires m.maxOutput == Wrap(sent)
    ensures var (r, o) := Input(Sync(m, Ahead(Wrap(position), 1)), Wrap(position));
            && o == Some(Wrap(sent + 1))
            && r == State(Wrap(sent + 1 - position), Wrap(sent + 1), Wrap(position), [])
  {
    hide Wrap;
    WrapOfPrevious(position);
    AheadIsDifference(Wrap(sent), Wrap(position - 1));
    SyncBase(sent, position);
    WrapOfSum(position, sent + 1 - position);
    AheadOfUnwrapped(sent + 1, sent);
    AheadOfUnwrapped(position, position - 1);
  }

  lemma SyncBase(sent: int, position: int)
    ensures Wrap(Wrap(sent) - Wrap(position - 1)) == Wrap(sent + 1 - position)
  {
  }

  lemma InputOutput(m: State, top: int, sent: int, position: int)
    requires m.dropped == [] && m.maxOutput == Wrap(sent) && m.maxInput == Wrap(top) && m.base == Wrap(sent - top)
    requires -MAX_MISORDER < position - top < MAX_DROPOUT
    ensures var (r, o) := Input(m, Wrap(position));
            && o == Some(Wrap(sent + (position - top)))
            && r == (if position > top then m.(maxInput := Wrap(position), maxOutput := Wrap(sent + (position - top))) else m)
  {
    hide Wrap;
    WrapOfSum(position, sent - top);
    if position >= top {
      AheadOfUnwrapped(position, top);
      AheadOfUnwrapped(sent + (position - top), sent);
    } else {
      AheadOfEarlier(top, position);
      AheadOfEarlier(sent, sent + (position - top));
    }
  }

  /** Every packet that passes is accepted by the sending stream under its output position. */
  lemma SendFollows(c: Consumer, t: Track, position: int, timestamp: u32, unset: u16)
    requires Follows(c, t) && IsActive(c) && (c.syncRequired || InSegment(t, position))
    ensures var (d, output, accepted) := SendRtpPacket(c, Wrap(position), timestamp, unset);
            && accepted
            && output == Wrap(OutputOf(c, t, position))
            && Follows(d, Follow(c, t, position))
            && Extends(d.rtpStream, Follow(c, t, position).sent)
  {
    hide Wrap, Input, Sync, ReceivePacket, Extends;
    if c.syncRequired {
      SyncOutput(c.rtpSeqManager, t.sent, position);
      if t.number == 0 {
        FirstIsOne(timestamp);
      } else {
        AcceptsInRange(c.rtpStream, t.sent, t.sent + 1, timestamp);
      }
      assert t.sent + 1 - position == (t.sent + 1) - position;
    } else {
      InputOutput(c.rtpSeqManager, t.top, t.sent, position);
      AcceptsInRange(c.rtpStream, t.sent, t.sent + (position - t.top), timestamp);
      assert t.sent + (position - t.top) - position == t.sent - t.top;
    }
  }

  lemma FirstIsOne(timestamp: u32)
    ensures ReceivePacket(IDLE, Wrap(1), timestamp).1 && Extends(ReceivePacket(IDLE, Wrap(1), timestamp).0, 1)
  {
  }

  // ----- Runs

  /** One packet that got past the checks: the segment it belongs to, its input and output positions, the number it
      carries and whether the sending stream accepted it. */
  datatype Sent = Sent(segment: nat, position: int, output: int, seqNum: u16, accepted: bool)

  datatype Trace = Trace(consumer: Consumer, track: Track, sent: seq<Sent>)

  function Extend(r: Trace, e: Event): Trace
  {
    if !Passes(r.consumer, e) then r.(consumer := Step(r.consumer, e))
    else
      var (d, seqNum, accepted) := SendRtpPacket(r.consumer, Wrap(e.position), e.timestamp, e.unset);
      var t := Follow(r.consumer, r.track, e.position);
      Trace(d, t, r.sent + [Sent(t.number, e.position, OutputOf(r.consumer, r.track, e.position), seqNum, accepted)])
  }

  function Run(keyFrameSupported: bool, events: seq<Event>): Trace
    decreases |events|
  {
    if events == [] then Trace(Initial(keyFrameSupported), START, [])
    else Extend(Run(keyFrameSupported, events[..|events| - 1]), events[|events| - 1])
  }

  predicate Regular(r: Trace, e: Event)
  {
    Passes(r.consumer, e) && !r.consumer.syncRequired ==> InSegment(r.track, e.position)
  }

  /** The producer's packets advance by less than 3000 and are late by less than 1500 within every segment. */
  predicate AllRegular(keyFrameSupported: bool, events: seq<Event>)
  {
    forall n :: 0 <= n < |events| ==> Regular(Run(keyFrameSupported, events[..n]), events[n])
  }

  /** Every packet was accepted under its output position; no output lies above `top`; in the current segment the
      outputs keep the distances of the inputs, and all earlier outputs lie below its first one. */
  predicate Recorded(sent: seq<Sent>, t: Track)
  {
    && t.first <= t.top
    && (forall i :: 0 <= i < |sent| ==>
          && sent[i].accepted && sent[i].seqNum == Wrap(sent[i].output)
          && 1 <= sent[i].segment <= t.number
          && sent[i].output <= t.sent
          && (sent[i].segment == t.number ==>
                sent[i].output - sent[i].position == t.sent - t.top && t.first <= sent[i].position)
          && (sent[i].segment < t.number ==> sent[i].output < t.sent - (t.top - t.first)))
  }

  predicate InOrder(x: Sent, y: Sent)
  {
    && x.segment <= y.segment
    && (x.segment == y.segment ==> y.output - x.output == y.position - x.position)
    && (x.segment < y.segment ==> x.output < y.output)
  }

  /** Within a segment outputs keep the distances of the inputs; across segments they only grow. */
  predicate Continuous(sent: seq<Sent>)
  {
    forall i, j {:trigger InOrder(sent[i], sent[j])} :: 0 <= i < j < |sent| ==> InOrder(sent[i], sent[j])
  }

  predicate RunOk(r: Trace)
  {
    && Follows(r.consumer, r.track)
    && Recorded(r.sent, r.track)
    && Continuous(r.sent)
    && (r.track.number > 0 ==> Reached(r.sent, r.track.sent))
    && (!r.consumer.hasStream ==> r.track.number == 0)
  }

  /** Some packet was sent at output position `top`. */
  predicate Reached(sent: seq<Sent>, top: int)
  {
    exists i :: 0 <= i < |sent| && sent[i].output == top
  }

  lemma RecordedGrows(c: Consumer, t: Track, sent: seq<Sent>, x: Sent)
    requires Recorded(sent, t) && Continuous(sent) && (c.syncRequired || (InSegment(t, x.position) && t.number > 0))
    requires x.accepted && x.seqNum == Wrap(x.output)
    requires x.segment == Follow(c, t, x.position).number && x.output == OutputOf(c, t, x.position)
    ensures Recorded(sent + [x], Follow(c, t, x.position)) && Continuous(sent + [x])
  {
    hide Wrap;
    var all := sent + [x];
    forall i | 0 <= i < |sent|
      ensures InOrder(all[i], x)
    {
      assert all[i] == sent[i];
    }
    forall i, j | 0 <= i < j < |all|
      ensures InOrder(all[i], all[j])
    {
      if j < |sent| {
        assert InOrder(sent[i], sent[j]);
      }
    }
  }

  lemma ExtendIsOk(r: Trace, e: Event)
    requires RunOk(r) && Regular(r, e)
    ensures RunOk(Extend(r, e))
  {
    hide SendRtpPacket, Recorded, Continuous, Reached;
    if Passes(r.consumer, e) {
      SendFollows(r.consumer, r.track, e.position, e.timestamp, e.unset);
      var (d, seqNum, accepted) := SendRtpPacket(r.consumer, Wrap(e.position), e.timestamp, e.unset);
      SendKeepsStream(r.consumer, Wrap(e.position), e.timestamp, e.unset);
      var t := Follow(r.consumer, r.track, e.position);
      var x := Sent(t.number, e.position, OutputOf(r.consumer, r.track, e.position), seqNum, accepted);
      RecordedGrows(r.consumer, r.track, r.sent, x);
      ReachedGrows(r.sent, x, r.track.sent);
    }
  }

  lemma ReachedGrows(sent: seq<Sent>, x: Sent, top: int)
    ensures Reached(sent + [x], x.output)
    ensures Reached(sent, top) ==> Reached(sent + [x], top)
  {
    assert (sent + [x])[|sent|] == x;
    if Reached(sent, top) {
      var i :| 0 <= i < |sent| && sent[i].output == top;
      assert (sent + [x])[i].output == top;
    }
  }

  lemma SendKeepsStream(c: Consumer, seqNum: u16, timestamp: u32, unset: u16)
    ensures SendRtpPacket(c, seqNum, timestamp, unset).0.hasStream == c.hasStream
  {
  }

  /** Over any run of packets, pauses, resumptions and reconnections, the consumer sends one continuous stream. */
  lemma {:induction false} RunIsContinuous(keyFrameSupported: bool, events: seq<Event>)
    requires AllRegular(keyFrameSupported, events)
    ensures RunOk(Run(keyFrameSupported, events))
    decreases |events|
  {
    hide Extend, Regular;
    if events == [] {
      StartIsOk(keyFrameSupported);
    } else {
      var before := events[..|events| - 1];
      assert forall n :: 0 <= n < |before| ==> before[..n] == events[..n];
      RunIsContinuous(keyFrameSupported, before);
      ExtendIsOk(Run(keyFrameSupported, before), events[|events| - 1]);
    }
  }

  lemma StartIsOk(keyFrameSupported: bool)
    ensures RunOk(Trace(Initial(keyFrameSupported), START, []))
  {
  }

  /** The first packet ever sent has number 1, and the packet that opens a later segment has the number after the
      highest one sent before. */
  lemma SegmentsJoin(r: Trace, e: Event)
    requires RunOk(r) && Passes(r.consumer, e) && r.consumer.syncRequired
    ensures var x := Extend(r, e).sent[|r.sent|];
            && x.seqNum == Wrap(r.track.sent + 1)
            && (r.track.number == 0 ==> x.seqNum == 1)
            && (r.track.number > 0 ==> Reached(r.sent, r.track.sent))
            && (forall i :: 0 <= i < |r.sent| ==> r.sent[i].output <= r.track.sent)
  {
    SendFollows(r.consumer, r.track, e.position, e.timestamp, e.unset);
  }

  /** Whenever the consumer becomes active, it waits for a packet to synchronize on, so that what the producer sent
      meanwhile leaves no hole. */
  lemma ActivationSynchronizes(r: Trace, e: Event)
    requires RunOk(r) && !IsActive(r.consumer) && IsActive(Step(r.consumer, e))
    ensures Step(r.consumer, e).syncRequired
  {
  }

  /** After a run, `cycles + maxSeq` of the sending stream is the highest output position, modulo 2^32. */
  lemma ExtendedOutput(r: Trace)
    requires RunOk(r) && r.track.number > 0
    ensures (r.consumer.rtpStream.cycles + r.consumer.rtpStream.maxSeq) % MOD32 == r.track.sent % MOD32
  {
    ExtendedNumber(r.consumer.rtpStream, r.track.sent);
  }
}
