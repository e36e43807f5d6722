/** What a SimpleConsumer forwards, told from the events alone. */
module SimpleConsumerForwarding {
  import opened Seq16
  import opened Bytes
  import opened SimpleConsumers
  import opened SimpleConsumerLemmas
  import opened RtpStreams

  // ----- What the last event of a kind says

  predicate Connected(events: seq<Event>)
  {
    events != [] &&
    match events[|events| - 1]
    case TransportConnected => true
    case TransportDisconnected => false
    case _ => Connected(events[..|events| - 1])
  }

  predicate Paused(events: seq<Event>)
  {
    events != [] &&
    match events[|events| - 1]
    case Pause => true
    case Resume => false
    case _ => Paused(events[..|events| - 1])
  }

  predicate ProducerIsPaused(events: seq<Event>)
  {
    events != [] &&
    match events[|events| - 1]
    case ProducerPaused => true
    case ProducerResumed => false
    case _ => ProducerIsPaused(events[..|events| - 1])
  }

  /** Connected, with a stream, and paused on neither side. */
  predicate Active(events: seq<Event>)
  {
    Connected(events) && !Paused(events) && !ProducerIsPaused(events) && ProducerRtpStream in events
  }

  /** The packet is wanted: after an interruption the first one must be a key frame, if there are key frames. */
  predicate Wanted(keyFrameSupported: bool, events: seq<Event>, e: Event)
    requires e.Packet?
    decreases |events|, 1
  {
    Active(events) && e.supported && (e.isKeyFrame || !keyFrameSupported || Open(keyFrameSupported, events))
  }

  /** A packet was wanted since the consumer was last inactive or connected. */
  predicate Open(keyFrameSupported: bool, events: seq<Event>)
    decreases |events|, 0
  {
    events != [] && Active(events) && !events[|events| - 1].TransportConnected? &&
    var before, e := events[..|events| - 1], events[|events| - 1];
    Open(keyFrameSupported, before) || (e.Packet? && Wanted(keyFrameSupported, before, e))
  }

  // ----- The consumer does as it is told

  /** The flags of the consumer are those of the events, and it waits to synchronize while nothing is open. */
  predicate Knows(keyFrameSupported: bool, events: seq<Event>, c: Consumer)
  {
    && c.keyFrameSupported == keyFrameSupported
    && c.transportConnected == Connected(events)
    && c.paused == Paused(events)
    && c.producerPaused == ProducerIsPaused(events)
    && (c.hasStream <==> ProducerRtpStream in events)
    && (Active(events) ==> (c.syncRequired <==> !Open(keyFrameSupported, events)))
  }

  lemma PassesIff(keyFrameSupported: bool, events: seq<Event>, c: Consumer, e: Event)
    requires Knows(keyFrameSupported, events, c) && e.Packet?
    ensures Passes(c, e) <==> Wanted(keyFrameSupported, events, e)
  {
    hide Open, Connected, Paused, ProducerIsPaused;
  }

  lemma SendKeepsFlags(c: Consumer, seqNum: u16, timestamp: u32, unset: u16)
    ensures var d := SendRtpPacket(c, seqNum, timestamp, unset).0;
            d == c.(syncRequired := false, rtpSeqManager := d.rtpSeqManager, rtpStream := d.rtpStream)
  {
  }

  lemma StepKnows(keyFrameSupported: bool, events: seq<Event>, r: Trace, e: Event)
    requires RunOk(r) && Knows(keyFrameSupported, events, r.consumer)
    ensures Knows(keyFrameSupported, events + [e], Extend(r, e).consumer)
  {
    hide SendRtpPacket, Recorded, Continuous, Reached;
    var all, d := events + [e], Extend(r, e).consumer;
    assert all[..|events|] == events && all[|events|] == e;
    assert ProducerRtpStream in all <==> ProducerRtpStream in events || e.ProducerRtpStream?;
    assert Open(keyFrameSupported, all) <==>
           Active(all) && !e.TransportConnected? &&
           (Open(keyFrameSupported, events) || (e.Packet? && Wanted(keyFrameSupported, events, e)));
    if e.Packet? {
      PassesIff(keyFrameSupported, events, r.consumer, e);
      SendKeepsFlags(r.consumer, Wrap(e.position), e.timestamp, e.unset);
    }
  }

  lemma {:induction false} RunKnows(keyFrameSupported: bool, events: seq<Event>)
    requires AllRegular(keyFrameSupported, events)
    ensures Knows(keyFrameSupported, events, Run(keyFrameSupported, events).consumer)
    decreases |events|
  {
    hide Extend, Regular, Knows, RunOk;
    if events == [] {
      InitialKnows(keyFrameSupported);
    } else {
      var before := events[..|events| - 1];
      assert forall n :: 0 <= n < |before| ==> before[..n] == events[..n];
      RunKnows(keyFrameSupported, before);
      RunIsContinuous(keyFrameSupported, before);
      StepKnows(keyFrameSupported, before, Run(keyFrameSupported, before), events[|events| - 1]);
      assert before + [events[|events| - 1]] == events;
    }
  }

  lemma InitialKnows(keyFrameSupported: bool)
    ensures Knows(keyFrameSupported, [], Initial(keyFrameSupported))
  {
  }

  /** After any run, a packet is forwarded, and accepted by the sending stream, if and only if it is wanted. */
  lemma ForwardedIff(keyFrameSupported: bool, events: seq<Event>, e: Event)
    requires AllRegular(keyFrameSupported, events) && e.Packet? && Regular(Run(keyFrameSupported, events), e)
    ensures var r := Run(keyFrameSupported, events);
            var sent := Extend(r, e).sent;
            if Wanted(keyFrameSupported, events, e) then
              |sent| == |r.sent| + 1 && sent[..|r.sent|] == r.sent && sent[|r.sent|].accepted
              && sent[|r.sent|].position == e.position
            else sent == r.sent
  {
    hide Run, Wanted, Knows, Recorded, Continuous, SendRtpPacket, Passes;
    var r := Run(keyFrameSupported, events);
    RunKnows(keyFrameSupported, events);
    RunIsContinuous(keyFrameSupported, events);
    PassesIff(keyFrameSupported, events, r.consumer, e);
    ExtendIsOk(r, e);
    LastIsAccepted(Extend(r, e));
  }

  lemma LastIsAccepted(r: Trace)
    requires RunOk(r)
    ensures r.sent != [] ==> r.sent[|r.sent| - 1].accepted
  {
  }
}
