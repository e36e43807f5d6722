/** The sequence numbers that a SimulcastConsumer sends, over any number of layer switches, pauses and dropped packets. */
module SimulcastNumbers {
  import opened Seq16
  import opened Bytes
  import opened Simulcasts
  import opened SimulcastSwitching
  import opened SimulcastLemmas
  import opened SimulcastRuns
  import M = SeqManagers
  import F = SeqManagerForgetting
  import L = SeqManagerLemmas
  import R = RtpStreams

  // ----- One packet

  /** The sequence number manager as the packet finds it, after a synchronization if there is one. */
  function ManagerFor(c: Simulcast, e: Event): M.State
    requires e.Packet?
  {
    if Switch(c, e.layer).syncRequired then M.Sync(c.rtpSeqManager, Ahead(e.seqNum, 1)) else c.rtpSeqManager
  }

  /** What a packet does to the numbers. */
  lemma SendNumbers(c: Simulcast, e: Event)
    requires e.Packet? && Safe(c)
    ensures var (d, outcome) := SendRtpPacket(c, e);
            var m := ManagerFor(c, e);
            if !Passes(c, e) then d == c && outcome.Ignored?
            else if !e.processed then
              outcome.Dropped? && d.rtpSeqManager == M.Drop(m, e.seqNum) && d.rtpStream == c.rtpStream
            else
              && outcome.Handed?
              && (d.rtpSeqManager, outcome.number) == M.Input(m, e.seqNum)
              && (d.rtpStream, outcome.accepted) ==
                 R.ReceivePacket(c.rtpStream, if outcome.number.Some? then outcome.number.value else e.unset,
                                 outcome.timestamp)
    ensures Passes(c, e) ==> !SendRtpPacket(c, e).0.syncRequired && SendRtpPacket(c, e).0.currentSpatialLayer == e.layer
  {
    SwitchIsSafe(c, e.layer);
    hide Safe, IsActive, TsOffset, HasReports, Wrap32, M.Input, M.Drop, M.Sync, R.ReceivePacket, Hand;
    if Passes(c, e) {
      var d := Switch(c, e.layer);
      HandNumbers(if d.syncRequired then Synchronize(d, e.seqNum, e.timestamp) else d, e);
    }
  }

  lemma HandNumbers(c: Simulcast, e: Event)
    requires e.Packet?
    ensures var (d, outcome) := Hand(c, e);
            && d.syncRequired == c.syncRequired && d.currentSpatialLayer == c.currentSpatialLayer
            && if !e.processed then
                 outcome.Dropped? && d.rtpSeqManager == M.Drop(c.rtpSeqManager, e.seqNum) && d.rtpStream == c.rtpStream
               else
                 && outcome.Handed?
                 && (d.rtpSeqManager, outcome.number) == M.Input(c.rtpSeqManager, e.seqNum)
                 && (d.rtpStream, outcome.accepted) ==
                    R.ReceivePacket(c.rtpStream, if outcome.number.Some? then outcome.number.value else e.unset,
                                    outcome.timestamp)
  {
    hide Retime, M.Input, M.Drop, R.ReceivePacket;
    RetimeKeeps(c, e.timestamp);
  }

  lemma RetimeKeeps(c: Simulcast, timestamp: u32)
    ensures var d := Retime(c, timestamp).0;
            && d.rtpSeqManager == c.rtpSeqManager && d.rtpStream == c.rtpStream
            && d.syncRequired == c.syncRequired && d.currentSpatialLayer == c.currentSpatialLayer
  {
    hide Wrap32, ExtraOffset;
  }

  /** A packet leaves with an undefined number exactly when the consumer is not synchronizing and the manager still
      remembers having dropped that number. */
  lemma UndefinedIff(c: Simulcast, e: Event)
    requires e.Packet? && Safe(c) && Passes(c, e) && e.processed
    ensures var outcome := SendRtpPacket(c, e).1;
            && outcome.Handed?
            && (outcome.number.None? <==>
                  !Switch(c, e.layer).syncRequired && e.seqNum in M.Recent(c.rtpSeqManager, e.seqNum))
  {
    hide Safe, Passes, SendRtpPacket;
    SendNumbers(c, e);
  }

  /** In positions: the number was dropped since the last synchronization, and no packet since has made the manager
      forget it. */
  lemma UndefinedIffDropped(c: Simulcast, e: Event, drops: seq<int>, position: int)
    requires e.Packet? && Safe(c) && Passes(c, e) && e.processed && e.seqNum == Wrap(position)
    requires F.Remembers(c.rtpSeqManager.dropped, drops) && F.AllNear(drops, position) && F.Partitioned(drops, position)
    ensures SendRtpPacket(c, e).1.Handed?
    ensures SendRtpPacket(c, e).1.number.None? <==> !Switch(c, e.layer).syncRequired && position in drops
  {
    hide Safe, Passes, SendRtpPacket, M.Input, M.Sync, F.Partitioned, F.AllNear, F.Remembers, Wrap;
    SendNumbers(c, e);
    F.InputForgets(c.rtpSeqManager, drops, position);
    if Switch(c, e.layer).syncRequired {
      SyncIsDefined(c.rtpSeqManager, e.seqNum);
    }
  }

  lemma SyncIsDefined(m: M.State, seqNum: u16)
    ensures M.Input(M.Sync(m, Ahead(seqNum, 1)), seqNum).1.Some?
  {
  }

  /** It happens whenever the descriptor drops a new packet and then lets the same one pass, as it may once the wanted
      temporal layer went up. */
  lemma AgainIsUndefined(c: Simulcast, e: Event)
    requires e.Packet? && Safe(c) && Passes(c, e) && !Switch(c, e.layer).syncRequired && !e.processed
    requires c.rtpSeqManager.dropped == [] && Higher(e.seqNum, c.rtpSeqManager.maxInput)
    ensures var again := SendRtpPacket(Step(c, e), e.(processed := true)).1; again.Handed? && again.number.None?
  {
    hide Safe, SendRtpPacket, M.Input, M.Drop, Applies;
    SendNumbers(c, e);
    SendIsSafe(c, e);
    StillPasses(c, e);
    var d := SendRtpPacket(c, e).0;
    SendNumbers(d, e.(processed := true));
    DropIsRefused(c.rtpSeqManager, e.seqNum);
  }

  lemma DropIsRefused(m: M.State, seqNum: u16)
    requires m.dropped == [] && Higher(seqNum, m.maxInput)
    ensures M.Input(M.Drop(m, seqNum), seqNum).1.None?
  {
    var d := M.Drop(m, seqNum);
    assert d.dropped == [seqNum];
    assert LowerBound(d.dropped, Ahead(seqNum, MAX / 2)) == 0;
  }

  /** A dropped packet leaves the consumer as it was, as far as the next one is concerned. */
  lemma StillPasses(c: Simulcast, e: Event)
    requires e.Packet? && Safe(c) && Passes(c, e) && !Switch(c, e.layer).syncRequired && !e.processed
    ensures var d := SendRtpPacket(c, e).0;
            Passes(d, e.(processed := true)) && !Switch(d, e.layer).syncRequired
  {
    hide Safe, M.Drop;
    var d := SendRtpPacket(c, e).0;
    assert d == c.(rtpSeqManager := M.Drop(c.rtpSeqManager, e.seqNum));
    SameActivity(c, d);
  }

  lemma SameActivity(c: Simulcast, d: Simulcast)
    requires d == c.(rtpSeqManager := d.rtpSeqManager)
    ensures IsActive(c) == IsActive(d)
  {
    assert forall s :: Score(c, s) == Score(d, s);
  }

  const EXAMPLE := ProducerStream(10, 0, 0, [1], [1])

  /** A consumer that gets one stream, is connected, and sends the key frame numbered 100. */
  function ExampleRun(unset: u16): (c: Simulcast)
  {
    var c0 := Step(Initial(1, false, false, 0, 0, 1, 90000), ExistingStream(0, EXAMPLE));
    var c1 := Step(c0, TransportConnected(Shares(0, [])));
    SendRtpPacket(c1, Packet(0, 100, 5000, true, true, true, unset)).0
  }

  /** A reachable input: packet 101 comes, is dropped, comes again, and leaves with whatever the variable holds. */
  lemma UndefinedIsReachable(unset: u16)
    ensures var dropped := SendRtpPacket(ExampleRun(unset), Packet(0, 101, 8000, false, true, false, unset)).0;
            var again := SendRtpPacket(dropped, Packet(0, 101, 8000, false, true, true, unset)).1;
            again.Handed? && again.number.None?
  {
    hide SendRtpPacket, ExampleRun, Safe, Passes, Switch;
    ExampleIsRunning(unset);
    AgainIsUndefined(ExampleRun(unset), Packet(0, 101, 8000, false, true, false, unset));
  }

  lemma ExampleIsConnected()
    ensures var c := Initial(1, false, false, 0, 0, 1, 90000).(producerStreams := [Some(EXAMPLE)], transportConnected := true,
                                                               syncRequired := true);
            IsActive(c) && ChooseSpatial(c, 0, -1, 0) == 0
  {
    var c := Initial(1, false, false, 0, 0, 1, 90000).(producerStreams := [Some(EXAMPLE)], transportConnected := true,
                                                       syncRequired := true);
    assert Score(c, 0) == 10;
  }

  lemma ExampleIsRunning(unset: u16)
    ensures var c := ExampleRun(unset);
            && Safe(c) && Passes(c, Packet(0, 101, 8000, false, true, false, unset)) && !Switch(c, 0).syncRequired
            && c.rtpSeqManager.dropped == [] && Higher(101, c.rtpSeqManager.maxInput)
  {
    hide R.ReceivePacket, Wrap32, ExtraOffset;
    var c0 := Initial(1, false, false, 0, 0, 1, 90000).(producerStreams := [Some(EXAMPLE)]);
    assert c0 == Step(Initial(1, false, false, 0, 0, 1, 90000), ExistingStream(0, EXAMPLE));
    var c := c0.(transportConnected := true, syncRequired := true);
    ExampleIsConnected();
    var c1 := ChangeIfActive(c, false, Shares(0, []));
    assert c1 == c.(targetSpatialLayer := 0, targetTemporalLayer := 0, tsReferenceSpatialLayer := 0);
    assert Score(c1, 0) == 10;
    assert Safe(c1);
    var e := Packet(0, 100, 5000, true, true, true, unset);
    assert Passes(c1, e);
    SendNumbers(c1, e);
    SendIsSafe(c1, e);
    var c2 := SendRtpPacket(c1, e).0;
    assert Score(c2, 0) == 10;
  }
}
