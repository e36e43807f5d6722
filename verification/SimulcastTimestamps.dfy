/** The timestamps that a SimulcastConsumer sends, over whole runs. */
module SimulcastTimestamps {
  import opened Seq16
  import opened Bytes
  import opened Simulcasts
  import opened SimulcastSwitching
  import opened SimulcastLemmas
  import opened SimulcastRuns
  import opened SimulcastNumbers
  import opened SimulcastTiming
  import opened C = SimulcastContinuity
  import L = SeqManagerLemmas
  import M = SeqManagers
  import R = RtpStreams

  // ----- One packet

  /** Not behind the highest one, as the sending stream compares timestamps. */
  predicate NotBehind(timestamp: u32, top: u32)
  {
    timestamp == top || R.Higher32(timestamp, top)
  }

  /** The assertions on the Sender Reports hold where they are met. */
  predicate CanSynchronize(c: Simulcast, e: Event)
    requires e.Packet?
  {
    var d := Switch(c, e.layer);
    d.syncRequired && d.currentSpatialLayer != d.tsReferenceSpatialLayer ==> HasReports(d)
  }

  /** The timestamp after tsOffset, before any extra offset. */
  function Shifted(c: Simulcast, e: Event): u32
    requires e.Packet? && CanSynchronize(c, e)
  {
    var d := Switch(c, e.layer);
    Wrap32(e.timestamp - if d.syncRequired then TsOffset(d) else d.tsOffset)
  }

  /** The packet synchronizes, or its frame has no extra offset so far. */
  predicate Opens(c: Simulcast, e: Event)
    requires e.Packet?
  {
    Switch(c, e.layer).syncRequired || e.timestamp !in c.tsExtraOffsets
  }

  /** Its shifted timestamp is not behind, or is lifted: at a synchronization, and while extra offsets are in use, what is
      plainly lower than the highest timestamp is. */
  predicate GoesOn(c: Simulcast, e: Event)
    requires e.Packet? && CanSynchronize(c, e)
  {
    var shifted, top := Shifted(c, e), c.rtpStream.maxPacketTs;
    NotBehind(shifted, top) || (shifted < top && (Switch(c, e.layer).syncRequired || c.tsExtraOffsets != map[]))
  }

  lemma AboveTop(top: u32)
    ensures R.Higher32(Wrap32(top + 1), top) && Wrap32(top + 1) != top
  {
  }

  lemma SyncIsPossible(c: Simulcast, e: Event)
    requires e.Packet? && Safe(c) && Passes(c, e)
    ensures CanSynchronize(c, e)
  {
    SwitchIsSafe(c, e.layer);
    hide Safe, HasReports, IsActive;
  }

  /** A packet that does not synchronize is handed on by the consumer as it is. */
  lemma OtherPacketIsHanded(c: Simulcast, e: Event)
    requires e.Packet? && Passes(c, e) && !Switch(c, e.layer).syncRequired
    ensures Switch(c, e.layer) == c && SendRtpPacket(c, e) == Hand(c, e)
  {
    hide Hand, IsActive;
  }

  lemma ShiftedIs(c: Simulcast, e: Event)
    requires e.Packet? && CanSynchronize(c, e)
    ensures var d := Switch(c, e.layer);
            && (d.syncRequired && d.currentSpatialLayer != d.tsReferenceSpatialLayer ==> HasReports(d))
            && Shifted(c, e) == Wrap32(e.timestamp - if d.syncRequired then TsOffset(d) else d.tsOffset)
  {
    hide Switch, TsOffset, HasReports, Wrap32;
  }

  lemma FrameRetimed(c: Simulcast, timestamp: u32)
    requires timestamp !in c.tsExtraOffsets
    ensures var shifted, top := Wrap32(timestamp - c.tsOffset), c.rtpStream.maxPacketTs;
            Retime(c, timestamp).1 == if c.tsExtraOffsets != map[] && shifted < top then Wrap32(top + 1) else shifted
  {
    hide Wrap32;
    if c.tsExtraOffsets != map[] {
      NewFramesDoNotGoBack(c, timestamp);
    }
  }

  lemma SyncOpens(c: Simulcast, e: Event)
    requires e.Packet? && Safe(c) && Passes(c, e) && e.processed && Switch(c, e.layer).syncRequired
    ensures CanSynchronize(c, e)
    ensures var outcome, top, shifted := SendRtpPacket(c, e).1, c.rtpStream.maxPacketTs, Shifted(c, e);
            outcome.Handed? && outcome.timestamp == if shifted <= top then Wrap32(top + 1) else shifted
  {
    hide Safe, Passes, Switch, SendRtpPacket, Hand, Synchronize, Retime, TsOffset, HasReports, Wrap32, Shifted,
      CanSynchronize;
    SyncIsPossible(c, e);
    ShiftedIs(c, e);
    SyncPacketIsHanded(c, e);
    var d := Switch(c, e.layer);
    HandedAs(Synchronize(d, e.seqNum, e.timestamp), e);
    SyncTimestamp(d, e.seqNum, e.timestamp);
  }

  lemma FrameOpens(c: Simulcast, e: Event)
    requires e.Packet? && Safe(c) && Passes(c, e) && e.processed && !Switch(c, e.layer).syncRequired
    requires e.timestamp !in c.tsExtraOffsets
    ensures CanSynchronize(c, e)
    ensures var outcome, top, shifted := SendRtpPacket(c, e).1, c.rtpStream.maxPacketTs, Shifted(c, e);
            outcome.Handed? &&
            outcome.timestamp == if c.tsExtraOffsets != map[] && shifted < top then Wrap32(top + 1) else shifted
  {
    hide Safe, Passes, Switch, SendRtpPacket, Hand, Wrap32, Retime, TsOffset, HasReports, Shifted, CanSynchronize;
    SyncIsPossible(c, e);
    ShiftedIs(c, e);
    OtherPacketIsHanded(c, e);
    HandedAs(c, e);
    FrameRetimed(c, e.timestamp);
  }

  /** It does not go back exactly when GoesOn says so, and then a synchronization packet goes ahead. */
  lemma TimestampGoesOnIff(c: Simulcast, e: Event)
    requires e.Packet? && Safe(c) && Passes(c, e) && e.processed && Opens(c, e)
    ensures CanSynchronize(c, e) && SendRtpPacket(c, e).1.Handed?
    ensures var timestamp, top := SendRtpPacket(c, e).1.timestamp, c.rtpStream.maxPacketTs;
            && (NotBehind(timestamp, top) <==> GoesOn(c, e))
            && (Switch(c, e.layer).syncRequired ==> timestamp != top)
  {
    hide Safe, Passes, Switch, SendRtpPacket, Shifted, CanSynchronize, Wrap32;
    AboveTop(c.rtpStream.maxPacketTs);
    if Switch(c, e.layer).syncRequired {
      SyncOpens(c, e);
    } else {
      FrameOpens(c, e);
    }
  }

  /** Where it does go back: the highest timestamp is 10, after a wrap, and the stream switched to is still 26 behind it,
      before the wrap. The plain comparison takes its timestamp for higher. */
  lemma SyncAcrossTheWrapGoesBack(c: Simulcast, e: Event)
    requires e.Packet? && Safe(c) && Passes(c, e) && e.processed && Switch(c, e.layer).syncRequired
    requires CanSynchronize(c, e) && c.rtpStream.maxPacketTs == 10 && Shifted(c, e) == 0xFFFF_FFF0
    ensures SendRtpPacket(c, e).1.Handed? && SendRtpPacket(c, e).1.timestamp == 0xFFFF_FFF0
    ensures !NotBehind(0xFFFF_FFF0, 10)
  {
    hide Safe, Passes, Switch, SendRtpPacket, Shifted, CanSynchronize, Wrap32;
    SyncOpens(c, e);
  }

  /** The lift ends with the reset of the extra offsets: the packet with which the counter passes 200 is still lifted, and
      the next frame leaves with its shifted timestamp, however low. */
  lemma ResetEndsTheLift(c: Simulcast, timestamp: u32, next: u32)
    requires c.tsExtraOffsets != map[] && timestamp !in c.tsExtraOffsets && c.tsExtraOffsetPacketCount == 200
    requires 0 < Wrap32(timestamp - c.tsOffset) < c.rtpStream.maxPacketTs
    ensures var (d, lifted) := Retime(c, timestamp);
            && lifted == Wrap32(c.rtpStream.maxPacketTs + 1)
            && d.tsExtraOffsets == map[]
            && Retime(d, next).1 == Wrap32(next - c.tsOffset)
  {
    hide Wrap32;
    NewFramesDoNotGoBack(c, timestamp);
    ExtraIsPositive(c.rtpStream.maxPacketTs, Wrap32(timestamp - c.tsOffset));
  }

  lemma ExtraIsPositive(top: u32, shifted: u32)
    requires 0 < shifted < top
    ensures Wrap32(top - shifted + 1) != 0
  {
  }

  // ----- Where the shifted timestamp comes from

  /** At the reference layer timestamps stay as they are. At another one, at any time, what its last Sender Report gives as
      its timestamp is shifted to what the reference layer's gives. */
  lemma SyncShifts(c: Simulcast, e: Event, timeMs: int)
    requires e.Packet? && CanSynchronize(c, e) && Switch(c, e.layer).syncRequired
    requires e.layer == Switch(c, e.layer).currentSpatialLayer && c.clockRate % 1000 == 0
    ensures e.layer == c.tsReferenceSpatialLayer ==> Shifted(c, e) == e.timestamp
    ensures e.layer != c.tsReferenceSpatialLayer ==>
              && HasStream(c, e.layer) && HasStream(c, c.tsReferenceSpatialLayer)
              && var x, y := c.producerStreams[e.layer].value, c.producerStreams[c.tsReferenceSpatialLayer].value;
                 e.timestamp == Wrap32(TimestampAt(x.senderReportNtpMs, x.senderReportTs, timeMs, c.clockRate)) ==>
                   Shifted(c, e) == Wrap32(TimestampAt(y.senderReportNtpMs, y.senderReportTs, timeMs, c.clockRate))
  {
    hide Wrap32, NtpOffset, TimestampAt;
    Wrap32OfSmall(e.timestamp);
    if e.layer != c.tsReferenceSpatialLayer {
      var x, y := c.producerStreams[e.layer].value, c.producerStreams[c.tsReferenceSpatialLayer].value;
      NtpOffsetAligns(y.senderReportNtpMs, y.senderReportTs, x.senderReportNtpMs, x.senderReportTs, c.clockRate, timeMs);
      var offset := NtpOffset(y.senderReportNtpMs, y.senderReportTs, x.senderReportNtpMs, x.senderReportTs, c.clockRate);
      Wrap32OfSum(TimestampAt(x.senderReportNtpMs, x.senderReportTs, timeMs, c.clockRate), 0 - offset as int);
    }
  }

  // ----- How long extra offsets are in use

  /** The counter counts lifted packets: it is 0 while no extra offsets are in use, and never above 200. */
  predicate CountOk(c: Simulcast)
  {
    c.tsExtraOffsetPacketCount <= 200 && (c.tsExtraOffsets == map[] ==> c.tsExtraOffsetPacketCount == 0)
  }

  lemma SyncCounts(c: Simulcast, seqNum: u16, timestamp: u32)
    requires c.currentSpatialLayer != c.tsReferenceSpatialLayer ==> HasReports(c)
    ensures CountOk(Synchronize(c, seqNum, timestamp))
  {
    hide Wrap32, TsOffset, M.Sync;
  }

  /** A packet whose timestamp is lifted counts one, until the 201st one clears the extra offsets and the counter; every
      other packet leaves both alone. The second limit of the source, 500, is never met. */
  lemma RetimeCounts(c: Simulcast, timestamp: u32)
    requires CountOk(c)
    ensures var (d, out) := Retime(c, timestamp);
            var lifted := out != Wrap32(timestamp - c.tsOffset);
            && CountOk(d)
            && (!lifted ==> d.tsExtraOffsetPacketCount == c.tsExtraOffsetPacketCount)
            && (lifted && c.tsExtraOffsetPacketCount < 200 ==>
                  d.tsExtraOffsetPacketCount == c.tsExtraOffsetPacketCount + 1 && d.tsExtraOffsets != map[])
            && (lifted && c.tsExtraOffsetPacketCount == 200 ==> d.tsExtraOffsets == map[] && d.tsExtraOffsetPacketCount == 0)
  {
    hide Wrap32;
    if c.tsExtraOffsets != map[] {
      var shifted := Wrap32(timestamp - c.tsOffset);
      LiftedIff(shifted, ExtraOffset(c, timestamp, shifted));
    }
  }

  /** Only a lifted frame is remembered (and one whose lift comes to 0, at the very end of the circle), and while it is its
      further packets leave with the same timestamp, whatever was sent in between. */
  lemma RetimeRemembers(c: Simulcast, timestamp: u32, between: R.Stream)
    requires CountOk(c)
    ensures var (d, out) := Retime(c, timestamp);
            var lifted := out != Wrap32(timestamp - c.tsOffset);
            && (!lifted && !(out == 0 && c.rtpStream.maxPacketTs == MOD32 - 1) ==> d.tsExtraOffsets == c.tsExtraOffsets)
            && (lifted && c.tsExtraOffsetPacketCount < 200 ==>
                  && d.tsExtraOffsets.Keys == c.tsExtraOffsets.Keys + {timestamp}
                  && (forall t :: t in c.tsExtraOffsets ==> d.tsExtraOffsets[t] == c.tsExtraOffsets[t])
                  && Retime(d.(rtpStream := between), timestamp).1 == out)
  {
    hide Wrap32;
    if c.tsExtraOffsets != map[] {
      var shifted := Wrap32(timestamp - c.tsOffset);
      LiftedIff(shifted, ExtraOffset(c, timestamp, shifted));
      if timestamp !in c.tsExtraOffsets && shifted < c.rtpStream.maxPacketTs {
        ExtraIsZeroIff(c.rtpStream.maxPacketTs, shifted);
      }
    }
  }

  lemma ExtraIsZeroIff(top: u32, shifted: u32)
    requires shifted < top
    ensures Wrap32(top - shifted + 1) == 0 <==> shifted == 0 && top == MOD32 - 1
  {
  }

  lemma LiftedIff(shifted: u32, extra: u32)
    ensures Wrap32(shifted as int + extra) != shifted <==> extra != 0
  {
  }

  /** So it is after every packet. */
  lemma SendCounts(c: Simulcast, e: Event)
    requires e.Packet? && Safe(c) && CountOk(c)
    ensures CountOk(SendRtpPacket(c, e).0)
  {
    hide Safe, Passes, Switch, SendRtpPacket, Hand, Synchronize, HasReports, CountOk;
    SendNumbers(c, e);
    if Passes(c, e) {
      if Switch(c, e.layer).syncRequired {
        SyncPacketIsHanded(c, e);
        var d := Switch(c, e.layer);
        SyncCounts(d, e.seqNum, e.timestamp);
        HandCounts(Synchronize(d, e.seqNum, e.timestamp), e);
      } else {
        OtherPacketIsHanded(c, e);
        HandCounts(c, e);
      }
    }
  }

  lemma HandCounts(c: Simulcast, e: Event)
    requires e.Packet? && CountOk(c)
    ensures CountOk(Hand(c, e).0)
  {
    hide Retime, M.Drop, M.Input, R.ReceivePacket;
    RetimeCounts(c, e.timestamp);
  }

  // ----- Runs

  /** One packet handed on: its timestamp, and that timestamp unwrapped; whether it opens a frame or synchronizes, and
      whether GoesOn holds of it. */
  datatype Stamp = Stamp(timestamp: u32, place: int, opens: bool, sync: bool, goesOn: bool)

  /** `top` is the highest place. */
  datatype Stamps = Stamps(top: int, log: seq<Stamp>)

  /** The place of a timestamp, next to the highest one. */
  function Place(top: int, timestamp: u32): int
  {
    if NotBehind(timestamp, Wrap32(top)) then top + Wrap32(timestamp - top) else top - Wrap32(top - timestamp)
  }

  lemma PlaceTells(top: int, timestamp: u32)
    ensures Wrap32(Place(top, timestamp)) == timestamp
    ensures Place(top, timestamp) >= top <==> NotBehind(timestamp, Wrap32(top))
    ensures Place(top, timestamp) == top <==> timestamp == Wrap32(top)
  {
    hide R.Higher32;
    PlaceAhead(top, timestamp);
    PlaceBehind(top, timestamp);
  }

  lemma PlaceAhead(top: int, timestamp: u32)
    ensures Wrap32(top + Wrap32(timestamp - top)) == timestamp
    ensures Wrap32(timestamp - top) == 0 <==> timestamp == Wrap32(top)
  {
    hide Wrap32;
    Wrap32OfSum(timestamp - top, top);
    Wrap32OfSmall(timestamp);
    Wrap32OfSum(timestamp - top, top);
    if Wrap32(timestamp - top) == 0 {
      Wrap32OfSum(timestamp - top, top);
      assert Wrap32(0 + top) == Wrap32(timestamp - top + top);
    }
    if timestamp == Wrap32(top) {
      Wrap32OfSum(top, -top);
      Wrap32OfSmall(0);
    }
  }

  lemma PlaceBehind(top: int, timestamp: u32)
    ensures Wrap32(top - Wrap32(top - timestamp)) == timestamp
    ensures Wrap32(top - timestamp) == 0 <==> timestamp == Wrap32(top)
  {
    hide Wrap32;
    Wrap32OfDifference(top, top - timestamp);
    Wrap32OfSmall(timestamp);
    if Wrap32(top - timestamp) == 0 {
      Wrap32OfSum(top - timestamp, timestamp);
      assert Wrap32(0 + timestamp) == Wrap32(top - timestamp + timestamp);
    }
    if timestamp == Wrap32(top) {
      Wrap32OfSum(top, 0 - timestamp as int);
      assert Wrap32(timestamp + (0 - timestamp as int)) == Wrap32(top - timestamp);
      Wrap32OfSmall(0);
    }
  }

  lemma Wrap32OfSmall(x: u32)
    ensures Wrap32(x) == x
  {
  }

  /** The stream keeps the highest timestamp. */
  lemma TopIsKept(s: R.Stream, sent: int, output: int, timestamp: u32)
    requires R.Extends(s, sent) && -R.MAX_MISORDER < output - sent < R.MAX_DROPOUT
    ensures R.ReceivePacket(s, Wrap(output), timestamp).0.maxPacketTs ==
            if R.Higher32(timestamp, s.maxPacketTs) then timestamp else s.maxPacketTs
  {
    hide Wrap, R.Higher32;
    if output >= sent {
      AheadOfUnwrapped(output, sent);
    } else {
      R.AheadOfEarlier(sent, output);
    }
  }

  lemma FirstTop(output: u16, timestamp: u32)
    ensures R.ReceivePacket(R.IDLE, output, timestamp).0.maxPacketTs == timestamp
  {
  }

  /** The packets that are handed on. */
  predicate HandsOn(c: Simulcast, e: Event)
  {
    e.Packet? && Passes(c, e) && e.processed
  }

  /** An event that finds the run at `r`. */
  function Stamped(r: Trace, s: Stamps, e: Event): Stamps
    requires Safe(r.consumer)
  {
    if !HandsOn(r.consumer, e) || !SendRtpPacket(r.consumer, e).1.Handed? then s
    else
      SyncIsPossible(r.consumer, e);
      var timestamp := SendRtpPacket(r.consumer, e).1.timestamp;
      var place := if s.log == [] then timestamp as int else Place(s.top, timestamp);
      Stamps(if s.log == [] then place else Highest(s.top, place),
             s.log + [Stamp(timestamp, place, Opens(r.consumer, e), Switch(r.consumer, e.layer).syncRequired,
                            GoesOn(r.consumer, e))])
  }

  /** Among the packets so far: it opens a frame, and then it is not below any before if and only if GoesOn holds of it;
      a synchronization packet is then above them all. */
  predicate InPlace(log: seq<Stamp>, i: nat)
    requires i < |log|
  {
    var x := log[i];
    && Wrap32(x.place) == x.timestamp
    && (x.opens && i > 0 ==> (x.goesOn <==> forall j :: 0 <= j < i ==> log[j].place <= x.place))
    && (x.sync && x.goesOn ==> forall j :: 0 <= j < i ==> log[j].place < x.place)
  }

  /** The stream's highest timestamp is that of the highest place. */
  ghost predicate TopOk(r: Trace, s: Stamps)
  {
    && |s.log| == |r.log|
    && (s.log != [] ==> r.consumer.rtpStream.maxPacketTs == Wrap32(s.top) && exists j :: 0 <= j < |s.log| && s.log[j].place == s.top)
    && forall j :: 0 <= j < |s.log| ==> s.log[j].place <= s.top && InPlace(s.log, j)
  }

  lemma StampIsInPlace(s: Stamps, x: Stamp, top: u32)
    requires s.log != [] && top == Wrap32(s.top)
    requires exists j :: 0 <= j < |s.log| && s.log[j].place == s.top
    requires forall j :: 0 <= j < |s.log| ==> s.log[j].place <= s.top
    requires x.place == Place(s.top, x.timestamp)
    requires x.opens ==> (x.goesOn <==> NotBehind(x.timestamp, top)) && (x.sync ==> x.timestamp != top)
    requires x.sync ==> x.opens
    ensures InPlace(s.log + [x], |s.log|)
  {
    hide Place, NotBehind, Wrap32;
    PlaceTells(s.top, x.timestamp);
    var log := s.log + [x];
    var j :| 0 <= j < |s.log| && s.log[j].place == s.top;
    assert log[j].place == s.top;
  }

  lemma EarlierInPlace(log: seq<Stamp>, x: Stamp, i: nat)
    requires i < |log| && InPlace(log, i)
    ensures InPlace(log + [x], i)
  {
    hide Wrap32;
    assert forall j :: 0 <= j <= i ==> (log + [x])[j] == log[j];
  }

  /** A packet handed on, as the run shows it. */
  lemma HandedInRun(r: Trace, e: Event, pos: int)
    requires RunOk(r) && Applies(r.consumer, e) && HandsOn(r.consumer, e) && InSegment(r, e, pos)
    ensures WellFormed(r.consumer) && SendRtpPacket(r.consumer, e).1.Handed?
    ensures var q, timestamp := Extend(r, e, pos), SendRtpPacket(r.consumer, e).1.timestamp;
            var top, newTop := r.consumer.rtpStream.maxPacketTs, q.consumer.rtpStream.maxPacketTs;
            && |q.log| == |r.log| + 1
            && newTop == if r.log == [] || R.Higher32(timestamp, top) then timestamp else top
  {
    hide Wrap, Safe, Passes, SendRtpPacket, InSegment, PassedTo, Entry, R.Extends, R.ReceivePacket, R.Higher32, L.Follows,
      L.Compacted, Applies, Continuous, Recorded;
    OkIsSafe(r);
    PassAdvances(r, e, pos);
    var output, outcome := L.Compacted(TrackFor(r, e.layer, pos), pos), SendRtpPacket(r.consumer, e).1;
    if r.log == [] {
      FirstTop(Wrap(output), outcome.timestamp);
    } else {
      TopIsKept(r.consumer.rtpStream, r.sent, output, outcome.timestamp);
    }
  }

  /** Every other event leaves the log and the stream alone. */
  lemma OthersKeepTop(r: Trace, e: Event, pos: int)
    requires RunOk(r) && Applies(r.consumer, e) && Regular(r.consumer, e) && !HandsOn(r.consumer, e)
    ensures WellFormed(r.consumer)
    ensures Extend(r, e, pos).log == r.log && Extend(r, e, pos).consumer.rtpStream == r.consumer.rtpStream
  {
    hide Wrap, Safe, Passes, SendRtpPacket, Step, Applies, Regular, L.Follows, R.Extends, Continuous, Recorded, FollowsTrace;
    OkIsSafe(r);
    if e.Packet? {
      SendNumbers(r.consumer, e);
      PacketStep(r.consumer, e);
    } else {
      EventKeepsNumbers(r.consumer, e);
    }
  }

  lemma PacketStep(c: Simulcast, e: Event)
    requires e.Packet? && WellFormed(c) && Applies(c, e)
    ensures Step(c, e) == SendRtpPacket(c, e).0
  {
    hide SendRtpPacket;
  }

  lemma StampedInPlace(r: Trace, s: Stamps, e: Event, pos: int)
    requires RunOk(r) && Safe(r.consumer) && TopOk(r, s) && Applies(r.consumer, e) && HandsOn(r.consumer, e)
    requires InSegment(r, e, pos)
    ensures WellFormed(r.consumer) && TopOk(Extend(r, e, pos), Stamped(r, s, e))
  {
    hide Wrap, Wrap32, Safe, Passes, SendRtpPacket, InSegment, Extend, Applies, Place, NotBehind, GoesOn, Opens, InPlace,
      RunOk, CanSynchronize, Switch, R.Higher32;
    HandedInRun(r, e, pos);
    SyncIsPossible(r.consumer, e);
    OpensWhenSync(r.consumer, e);
    if Opens(r.consumer, e) {
      TimestampGoesOnIff(r.consumer, e);
    }
    var q := Stamped(r, s, e);
    var x := q.log[|s.log|];
    assert q.log == s.log + [x];
    if s.log == [] {
      FirstInPlace(x);
      Wrap32OfSmall(x.timestamp);
      assert q.log == [x];
    } else {
      StampIsInPlace(s, x, r.consumer.rtpStream.maxPacketTs);
      HigherIsAbove(s.top, x.timestamp);
    }
    forall i | 0 <= i < |s.log|
      ensures InPlace(q.log, i)
    {
      EarlierInPlace(s.log, x, i);
    }
    HighestIsHeld(s, q, x);
  }

  lemma OpensWhenSync(c: Simulcast, e: Event)
    requires e.Packet?
    ensures Switch(c, e.layer).syncRequired ==> Opens(c, e)
  {
    hide Switch;
  }

  lemma FirstInPlace(x: Stamp)
    requires x.place == x.timestamp
    ensures InPlace([x], 0)
  {
    hide Wrap32;
    Wrap32OfSmall(x.timestamp);
  }

  /** The place is above the highest one exactly when the stream takes the timestamp for a higher one. */
  lemma HigherIsAbove(top: int, timestamp: u32)
    ensures Place(top, timestamp) > top <==> R.Higher32(timestamp, Wrap32(top))
    ensures Wrap32(Place(top, timestamp)) == timestamp
  {
    hide Place, Wrap32;
    PlaceTells(top, timestamp);
  }

  lemma HighestIsHeld(s: Stamps, q: Stamps, x: Stamp)
    requires q.log == s.log + [x] && q.top == if s.log == [] then x.place else Highest(s.top, x.place)
    requires s.log != [] ==> exists j :: 0 <= j < |s.log| && s.log[j].place == s.top
    requires forall j :: 0 <= j < |s.log| ==> s.log[j].place <= s.top
    ensures exists j :: 0 <= j < |q.log| && q.log[j].place == q.top
    ensures forall j :: 0 <= j < |q.log| ==> q.log[j].place <= q.top
  {
    assert q.log[|s.log|] == x;
    if q.top != x.place {
      var j :| 0 <= j < |s.log| && s.log[j].place == s.top;
      assert q.log[j].place == q.top;
    }
  }

  function StampsOf(c: Simulcast, es: seq<(Event, int)>): Stamps
    requires RunOk(Start(c)) && AllRegular(c, es)
    decreases |es|
  {
    if es == [] then Stamps(0, [])
    else
      var n := |es| - 1;
      RunIsContinuous(c, es[..n]);
      OkIsSafe(C.Run(c, es[..n]));
      Stamped(C.Run(c, es[..n]), StampsOf(c, es[..n]), es[n].0)
  }

  lemma StepInPlace(r: Trace, s: Stamps, e: Event, pos: int)
    requires RunOk(r) && Safe(r.consumer) && TopOk(r, s)
    requires Applies(r.consumer, e) && Regular(r.consumer, e) && RegularNumber(r, e, pos)
    ensures WellFormed(r.consumer) && TopOk(Extend(r, e, pos), Stamped(r, s, e))
  {
    hide RunOk, Safe, Passes, Applies, Regular, InSegment, Extend, SendRtpPacket, InPlace, Wrap32;
    if HandsOn(r.consumer, e) {
      StampedInPlace(r, s, e, pos);
    } else {
      OthersKeepTop(r, e, pos);
    }
  }

  /** Over any regular run, a packet that opens a frame has a timestamp not below any before it exactly when GoesOn held of
      it, and a synchronization packet then has one above them all. */
  lemma {:induction false} RunIsInPlace(c: Simulcast, es: seq<(Event, int)>)
    requires RunOk(Start(c)) && AllRegular(c, es)
    ensures TopOk(C.Run(c, es), StampsOf(c, es))
    decreases |es|
  {
    hide RunOk, Safe, Applies, Regular, RegularNumber, Extend, Stamped, InPlace, Wrap32;
    if es != [] {
      var n := |es| - 1;
      RunIsContinuous(c, es[..n]);
      OkIsSafe(C.Run(c, es[..n]));
      RunIsInPlace(c, es[..n]);
      StepInPlace(C.Run(c, es[..n]), StampsOf(c, es[..n]), es[n].0, es[n].1);
    }
  }
}
