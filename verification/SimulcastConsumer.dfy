/** SimulcastConsumer with its fields and loops, refining the value of the same name. */
module SimulcastConsumers {
  import opened Seq16
  import opened Bytes
  import opened Layers
  import opened Simulcasts
  import opened SimulcastSwitching
  import SeqManagers
  import RtpStreams

  class SimulcastConsumer {
    var producerStreams: seq<Option<ProducerStream>>
    var transportConnected: bool
    var paused: bool
    var producerPaused: bool
    var externallyManagedBitrate: bool
    var syncRequired: bool
    var preferredSpatialLayer: int
    var preferredTemporalLayer: int
    var provisionalTargetSpatialLayer: int
    var provisionalTargetTemporalLayer: int
    var targetSpatialLayer: int
    var targetTemporalLayer: int
    var currentSpatialLayer: int
    var tsReferenceSpatialLayer: int
    var tsOffset: u32
    var tsExtraOffsets: map<u32, u32>
    var tsExtraOffsetPacketCount: u16
    const rtpSeqManager: SeqManagers.SeqManager
    const rtpStream: RtpStreams.RtpStream
    const temporalLayers: nat
    const clockRate: u32
    var fractionLost: u8

    ghost function Value(): (c: Simulcast)
      reads this, rtpSeqManager, rtpStream
    {
      Simulcast(producerStreams, transportConnected, paused, producerPaused, externallyManagedBitrate, syncRequired,
                preferredSpatialLayer, preferredTemporalLayer,
                provisionalTargetSpatialLayer, provisionalTargetTemporalLayer,
                targetSpatialLayer, targetTemporalLayer, currentSpatialLayer, tsReferenceSpatialLayer,
                tsOffset, tsExtraOffsets, tsExtraOffsetPacketCount,
                rtpSeqManager.Value(), rtpStream.Value(), temporalLayers, clockRate, fractionLost)
    }

    constructor (n: nat, paused: bool, producerPaused: bool, preferredSpatialLayer: int, preferredTemporalLayer: int,
                 temporalLayers: nat, clockRate: u32)
      ensures Value() == Initial(n, paused, producerPaused, preferredSpatialLayer, preferredTemporalLayer,
                                 temporalLayers, clockRate)
      ensures fresh(rtpSeqManager) && fresh(rtpStream)
    {
      producerStreams := seq(n, i => None);
      transportConnected, externallyManagedBitrate, syncRequired := false, false, false;
      this.paused, this.producerPaused := paused, producerPaused;
      this.preferredSpatialLayer, this.preferredTemporalLayer := preferredSpatialLayer, preferredTemporalLayer;
      provisionalTargetSpatialLayer, provisionalTargetTemporalLayer := -1, -1;
      targetSpatialLayer, targetTemporalLayer, currentSpatialLayer, tsReferenceSpatialLayer := -1, -1, -1, -1;
      tsOffset, tsExtraOffsets, tsExtraOffsetPacketCount := 0, map[], 0;
      rtpSeqManager := new SeqManagers.SeqManager();
      rtpStream := new RtpStreams.RtpStream();
      this.temporalLayers, this.clockRate, fractionLost := temporalLayers, clockRate, 0;
    }

    /** Consumer::IsActive. */
    predicate ParentIsActive()
      reads this
    {
      transportConnected && !paused && !producerPaused
    }

    function StreamScore(s: nat): (r: u8)
      requires s < |producerStreams|
      reads `producerStreams
    {
      if producerStreams[s].Some? then producerStreams[s].value.score else 0
    }

    predicate HasReport(s: int)
      reads `producerStreams
    {
      && 0 <= s < |producerStreams|
      && producerStreams[s].Some?
      && producerStreams[s].value.senderReportNtpMs != 0
    }

    predicate CanSwitchToSpatialLayer(s: nat)
      requires s < |producerStreams|
      reads `producerStreams, `tsReferenceSpatialLayer
    {
      || tsReferenceSpatialLayer == -1
      || s == tsReferenceSpatialLayer
      || (HasReport(tsReferenceSpatialLayer) && HasReport(s))
    }

    /** The grid is the one that the streams make. */
    ghost predicate Describes(g: Grid)
      reads `producerStreams, `tsReferenceSpatialLayer, `preferredSpatialLayer, `preferredTemporalLayer
    {
      && |g.rows| == |producerStreams|
      && g.preferredSpatial == preferredSpatialLayer
      && g.preferredTemporal == preferredTemporalLayer
      && forall s :: 0 <= s < |g.rows| ==> DescribesRow(s, g.rows[s])
    }

    ghost predicate DescribesRow(s: nat, row: Row)
      requires s < |producerStreams|
      reads `producerStreams, `tsReferenceSpatialLayer
    {
      && row.usable == (StreamScore(s) != 0 && CanSwitchToSpatialLayer(s))
      && row.climbable == (StreamScore(s) >= 7 && CanSwitchToSpatialLayer(s))
      && row.good == (StreamScore(s) >= 7)
      && (if producerStreams[s].Some? then
            row.costs == producerStreams[s].value.bitrates && row.stepCosts == producerStreams[s].value.layerBitrates
          else row.costs == row.stepCosts == [])
    }

    lemma GridIsDescribed()
      requires WellFormed(Value())
      ensures Describes(GridOf(Value()))
    {
    }

    lemma CanSwitchIsDescribed(s: nat)
      requires s < |producerStreams|
      ensures CanSwitchToSpatialLayer(s) == CanSwitch(Value(), s)
    {
    }

    method GetBitratePriority() returns (priority: nat)
      ensures priority == BitratePriority(Value())
    {
      hide CanSwitch;
      if !ParentIsActive() {
        return 0;
      }
      ghost var live := LiveLayers(Value());
      var best := -1;
      var s := 0;
      while s < |producerStreams|
        invariant s <= |producerStreams| && -1 <= best < |producerStreams|
        invariant PriorityLayer(live, preferredSpatialLayer, s, best) ==
                  PriorityLayer(live, preferredSpatialLayer, 0, -1)
      {
        if s > preferredSpatialLayer && best != -1 {
          break;
        }
        if StreamScore(s) != 0 {
          best := s;
        }
        s := s + 1;
      }
      if best == -1 {
        return 1;
      }
      return best + 1;
    }

    // ----- UseAvailableBitrate

    method UseBitrate(bitrate: nat) returns (used: nat)
      requires WellFormed(Value()) && externallyManagedBitrate
      modifies this`provisionalTargetSpatialLayer, this`provisionalTargetTemporalLayer
      ensures (Value(), used) == UseAvailableBitrate(old(Value()), bitrate)
    {
      hide CanSwitch, Ladder, Climb, VirtualBitrate, Charge, Describes;
      ghost var g := GridOf(Value());
      GridIsDescribed();
      provisionalTargetSpatialLayer, provisionalTargetTemporalLayer := -1, -1;
      if !ParentIsActive() {
        return 0;
      }
      var budget := VirtualBitrate(fractionLost, bitrate);
      used := ClimbLayers(g, budget);
      used := Charge(used, bitrate, budget);
    }

    /** The layers chosen so far, at the bitrate they require. */
    ghost function Chosen(usedBitrate: nat): Option<Rung>
      reads this`provisionalTargetSpatialLayer, this`provisionalTargetTemporalLayer
    {
      if provisionalTargetSpatialLayer == -1 then None
      else Some(Rung(provisionalTargetSpatialLayer, provisionalTargetTemporalLayer, usedBitrate))
    }

    /** The two nested loops of UseAvailableBitrate. */
    method ClimbLayers(ghost g: Grid, budget: nat) returns (usedBitrate: nat)
      requires Describes(g)
      requires provisionalTargetSpatialLayer == provisionalTargetTemporalLayer == -1
      modifies this`provisionalTargetSpatialLayer, this`provisionalTargetTemporalLayer
      ensures Chosen(usedBitrate) == Climb(None, Ladder(g, 0), budget)
      ensures provisionalTargetSpatialLayer == -1 ==> usedBitrate == 0 && provisionalTargetTemporalLayer == -1
    {
      hide Ladder, LadderFrom, LadderAfter, Climb, CanSwitchToSpatialLayer;
      usedBitrate := 0;
      var maxProducerScore := 0;
      ghost var goal := Climb(None, Ladder(g, 0), budget);
      var s := 0;
      label done: while s < |producerStreams|
        invariant s <= |producerStreams|
        invariant Climb(Chosen(usedBitrate), Ladder(g, s), budget) == goal
        invariant provisionalTargetSpatialLayer == -1 ==> usedBitrate == 0 && provisionalTargetTemporalLayer == -1
      {
        LadderStep(g, s);
        assert DescribesRow(s, g.rows[s]);
        var score := StreamScore(s);
        if score == 0 || !CanSwitchToSpatialLayer(s) || (score < maxProducerScore && score < 7) {
          s := s + 1;
          continue;
        }
        var stream := producerStreams[s].value;
        var t := 0;
        while t < |stream.bitrates|
          invariant t <= |stream.bitrates|
          invariant Climb(Chosen(usedBitrate), LadderFrom(g, s, t), budget) == goal
          invariant provisionalTargetSpatialLayer == -1 ==> usedBitrate == 0 && provisionalTargetTemporalLayer == -1
        {
          var requiredBitrate := stream.bitrates[t];
          if requiredBitrate == 0 {
            break;
          }
          LadderFromStep(g, s, t, Chosen(usedBitrate), budget);
          if requiredBitrate > budget {
            ClimbNone(Chosen(usedBitrate), budget);
            break done;
          }
          provisionalTargetSpatialLayer, provisionalTargetTemporalLayer := s, t;
          usedBitrate := requiredBitrate;
          if s == preferredSpatialLayer && t == preferredTemporalLayer && score >= 7 {
            ClimbNone(Chosen(usedBitrate), budget);
            break done;
          }
          t := t + 1;
        }
        LadderFromEnd(g, s, t);
        LadderAfterStep(g, s);
        if s >= preferredSpatialLayer && score >= 7 {
          break;
        }
        s := s + 1;
      }
      ClimbNone(Chosen(usedBitrate), budget);
      LadderEnd(g, |producerStreams|);
    }

    // ----- IncreaseLayer

    method IncreaseOneLayer(bitrate: nat) returns (used: nat)
      requires WellFormed(Value()) && externallyManagedBitrate
      modifies this`provisionalTargetSpatialLayer, this`provisionalTargetTemporalLayer
      ensures (Value(), used) == IncreaseLayer(old(Value()), bitrate)
    {
      hide CanSwitch, NextRung, VirtualBitrate, Charge, Describes;
      if !ParentIsActive() {
        return 0;
      }
      if provisionalTargetSpatialLayer == preferredSpatialLayer &&
         provisionalTargetTemporalLayer == preferredTemporalLayer {
        return 0;
      }
      GridIsDescribed();
      var budget := VirtualBitrate(fractionLost, bitrate);
      var s, t, requiredBitrate := FindNextLayer(GridOf(Value()));
      if requiredBitrate == 0 || requiredBitrate > budget {
        return 0;
      }
      provisionalTargetSpatialLayer, provisionalTargetTemporalLayer := s, t;
      used := Charge(requiredBitrate, bitrate, budget);
    }

    /** The two nested loops of IncreaseLayer. */
    method FindNextLayer(ghost g: Grid) returns (s: nat, t: nat, requiredBitrate: nat)
      requires Describes(g)
      ensures NextRung(g, provisionalTargetSpatialLayer, provisionalTargetTemporalLayer, 0) ==
              if requiredBitrate == 0 then None else Some(Rung(s, t, requiredBitrate))
    {
      hide NextRung, NextRungFrom, NextRungAfter, CanSwitchToSpatialLayer;
      requiredBitrate := 0;
      s, t := 0, 0;
      ghost var ps, pt := provisionalTargetSpatialLayer, provisionalTargetTemporalLayer;
      ghost var goal := NextRung(g, ps, pt, 0);
      label done: while s < |producerStreams|
        invariant s <= |producerStreams| && requiredBitrate == 0
        invariant NextRung(g, ps, pt, s) == goal
      {
        assert DescribesRow(s, g.rows[s]);
        NextRungStep(g, ps, pt, s);
        if s < provisionalTargetSpatialLayer || StreamScore(s) < 7 || !CanSwitchToSpatialLayer(s) {
          s := s + 1;
          continue;
        }
        var stream := producerStreams[s].value;
        t := 0;
        while t < |stream.layerBitrates|
          invariant t <= |stream.layerBitrates| && requiredBitrate == 0
          invariant NextRungFrom(g, ps, pt, s, t) == goal
        {
          NextRungFromStep(g, ps, pt, s, t);
          if s == preferredSpatialLayer && t == preferredTemporalLayer {
            break done;
          }
          if s == provisionalTargetSpatialLayer && t <= provisionalTargetTemporalLayer {
            t := t + 1;
            continue;
          }
          requiredBitrate := stream.layerBitrates[t];
          if requiredBitrate != 0 {
            break done;
          }
          break;
        }
        if t == |stream.layerBitrates| {
          NextRungEnd(g, ps, pt, s, t);
        }
        NextRungAfterStep(g, ps, pt, s);
        if s >= preferredSpatialLayer {
          break;
        }
        s := s + 1;
      }
      NextRungNone(g, ps, pt, |producerStreams|);
    }

    // ----- Target layers

    method DoUpdateTargetLayers(newTargetSpatialLayer: int, newTargetTemporalLayer: int)
      modifies this`tsReferenceSpatialLayer, this`targetSpatialLayer, this`targetTemporalLayer, this`currentSpatialLayer
      ensures Value() == UpdateTargetLayers(old(Value()), newTargetSpatialLayer, newTargetTemporalLayer)
    {
      if newTargetSpatialLayer != -1 && tsReferenceSpatialLayer == -1 {
        tsReferenceSpatialLayer := newTargetSpatialLayer;
      }
      if newTargetSpatialLayer == -1 {
        targetSpatialLayer, targetTemporalLayer, currentSpatialLayer := -1, -1, -1;
        return;
      }
      targetSpatialLayer, targetTemporalLayer := newTargetSpatialLayer, newTargetTemporalLayer;
    }

    method DoApplyLayers()
      requires externallyManagedBitrate
      modifies this`provisionalTargetSpatialLayer, this`provisionalTargetTemporalLayer,
               this`tsReferenceSpatialLayer, this`targetSpatialLayer, this`targetTemporalLayer, this`currentSpatialLayer
      ensures Value() == ApplyLayers(old(Value()))
    {
      hide UpdateTargetLayers;
      var s, t := provisionalTargetSpatialLayer, provisionalTargetTemporalLayer;
      provisionalTargetSpatialLayer, provisionalTargetTemporalLayer := -1, -1;
      if !ParentIsActive() {
        return;
      }
      if s != targetSpatialLayer || t != targetTemporalLayer {
        DoUpdateTargetLayers(s, t);
      }
    }

    method RecalculateTargetLayers() returns (changed: bool, s: int, t: int)
      ensures s == ChooseSpatial(Value(), 0, -1, 0) && t == TemporalFor(Value(), s)
      ensures changed == (s != targetSpatialLayer || t != targetTemporalLayer)
    {
      hide CanSwitch, CanSwitchToSpatialLayer;
      s, t := -1, -1;
      var maxProducerScore: u8 := 0;
      var i := 0;
      ghost var c := Value();
      while i < |producerStreams|
        invariant i <= |producerStreams|
        invariant ChooseSpatial(c, i, s, maxProducerScore) == ChooseSpatial(c, 0, -1, 0)
      {
        CanSwitchIsDescribed(i);
        var score := StreamScore(i);
        assert score == Score(c, i);
        if score == 0 || !CanSwitchToSpatialLayer(i) || (score < maxProducerScore && score < 7) {
          i := i + 1;
          continue;
        }
        s, maxProducerScore := i, score;
        if i >= preferredSpatialLayer && score >= 7 {
          break;
        }
        i := i + 1;
      }
      if s != -1 {
        if s == preferredSpatialLayer {
          t := preferredTemporalLayer;
        } else if s < preferredSpatialLayer {
          t := temporalLayers - 1;
        } else {
          t := 0;
        }
      }
      changed := s != targetSpatialLayer || t != targetTemporalLayer;
    }

    /** `ask` says that the transport is asked to distribute the bitrate again. */
    method DoMayChangeLayers(force: bool) returns (ask: bool)
      modifies this`tsReferenceSpatialLayer, this`targetSpatialLayer, this`targetTemporalLayer, this`currentSpatialLayer
      ensures (Value(), ask) == MayChangeLayers(old(Value()), force)
    {
      hide UpdateTargetLayers, ChooseSpatial;
      var changed, s, t := RecalculateTargetLayers();
      ask := false;
      if changed {
        if externallyManagedBitrate {
          ask := s != targetSpatialLayer || force;
        } else {
          DoUpdateTargetLayers(s, t);
        }
      }
    }

    // ----- Packets

    predicate AnyAlive()
      reads `producerStreams
    {
      exists s :: 0 <= s < |producerStreams| && StreamScore(s) > 0
    }

    lemma ActivityIsDescribed()
      ensures (ParentIsActive() && AnyAlive()) == IsActive(Value())
    {
      if ParentIsActive() && AnyAlive() {
        var s :| 0 <= s < |producerStreams| && StreamScore(s) > 0;
        assert Score(Value(), s) > 0;
      }
      if IsActive(Value()) {
        var s :| 0 <= s < |producerStreams| && Score(Value(), s) > 0;
        assert StreamScore(s) > 0;
      }
    }

    /** `ok` is false when one of the two Sender Report assertions fails. */
    method ComputeTsOffset() returns (ok: bool, offset: u32)
      ensures ok == (currentSpatialLayer == tsReferenceSpatialLayer || HasReports(Value()))
      ensures ok ==> offset == TsOffset(Value())
    {
      hide NtpOffset;
      if currentSpatialLayer == tsReferenceSpatialLayer {
        return true, 0;
      }
      if !HasReport(tsReferenceSpatialLayer) || !HasReport(currentSpatialLayer) {
        return false, 0;
      }
      var stream1 := producerStreams[tsReferenceSpatialLayer].value;
      var stream2 := producerStreams[currentSpatialLayer].value;
      return true, NtpOffset(stream1.senderReportNtpMs, stream1.senderReportTs,
                             stream2.senderReportNtpMs, stream2.senderReportTs, clockRate);
    }

    method DoSynchronize(seqNum: u16, timestamp: u32) returns (ok: bool)
      modifies this`tsOffset, this`tsExtraOffsets, this`tsExtraOffsetPacketCount, this`syncRequired, rtpSeqManager
      ensures var c := old(Value());
              ok == (c.currentSpatialLayer == c.tsReferenceSpatialLayer || HasReports(c))
      ensures Value() == if ok then Synchronize(old(Value()), seqNum, timestamp) else old(Value())
    {
      hide SynchronizeAt, TsOffset, HasReports;
      var offset;
      ok, offset := ComputeTsOffset();
      if ok {
        StartSegment(offset, seqNum, timestamp);
      }
    }

    /** The rest of the synchronization, with the timestamp offset at hand. */
    method StartSegment(offset: u32, seqNum: u16, timestamp: u32)
      modifies this`tsOffset, this`tsExtraOffsets, this`tsExtraOffsetPacketCount, this`syncRequired, rtpSeqManager
      ensures Value() == SynchronizeAt(old(Value()), offset, seqNum, timestamp)
    {
      hide SeqManagers.Sync, Wrap32, Ahead;
      rtpSeqManager.DoSync(Ahead(seqNum, 1));
      tsOffset, tsExtraOffsets, tsExtraOffsetPacketCount, syncRequired := offset, map[], 0, false;
      if Wrap32(timestamp - offset) <= rtpStream.maxPacketTs {
        tsExtraOffsets := tsExtraOffsets[timestamp := Wrap32(rtpStream.maxPacketTs - timestamp + offset + 1)];
      }
    }

    method DoRetime(timestamp: u32) returns (result: u32)
      modifies this`tsExtraOffsets, this`tsExtraOffsetPacketCount
      ensures (Value(), result) == Retime(old(Value()), timestamp)
    {
      hide Wrap32;
      result := Wrap32(timestamp - tsOffset);
      if tsExtraOffsets == map[] {
        return;
      }
      var extra: u32 := 0;
      if timestamp in tsExtraOffsets {
        extra := tsExtraOffsets[timestamp];
      } else if result < rtpStream.maxPacketTs {
        extra := Wrap32(rtpStream.maxPacketTs as int - result + 1);
        tsExtraOffsets := tsExtraOffsets[timestamp := extra];
      }
      result := Wrap32(result + extra);
      if extra != 0 {
        tsExtraOffsetPacketCount := Next(tsExtraOffsetPacketCount);
      }
      if (extra != 0 && tsExtraOffsetPacketCount > 200) || tsExtraOffsetPacketCount > 500 {
        tsExtraOffsets := map[];
        tsExtraOffsetPacketCount := 0;
      }
    }

    /** The rest of SendRtpPacket, after the synchronization. */
    method DoHand(ghost e: Event, seqNum: u16, timestamp: u32, processed: bool, unset: u16) returns (outcome: Outcome)
      requires e.Packet? && e.seqNum == seqNum && e.timestamp == timestamp && e.processed == processed && e.unset == unset
      modifies this`tsExtraOffsets, this`tsExtraOffsetPacketCount, rtpSeqManager, rtpStream
      ensures (Value(), outcome) == Hand(old(Value()), e)
    {
      hide Wrap32, ExtraOffset, SeqManagers.Input, SeqManagers.Drop, RtpStreams.ReceivePacket, Retime;
      if !processed {
        rtpSeqManager.DoDrop(seqNum);
        return Dropped;
      }
      var outTimestamp := DoRetime(timestamp);
      var ok, outSeqNum := rtpSeqManager.DoInput(seqNum, unset);
      var accepted := rtpStream.Receive(outSeqNum, outTimestamp);
      return Handed(if ok then Some(outSeqNum) else None, outTimestamp, accepted);
    }

    method Send(layer: nat, seqNum: u16, timestamp: u32, isKeyFrame: bool, supported: bool, processed: bool,
                unset: u16)
      returns (outcome: Outcome)
      modifies this`currentSpatialLayer, this`syncRequired, this`tsOffset, this`tsExtraOffsets,
               this`tsExtraOffsetPacketCount, rtpSeqManager, rtpStream
      ensures (Value(), outcome) ==
              SendRtpPacket(old(Value()), Packet(layer, seqNum, timestamp, isKeyFrame, supported, processed, unset))
    {
      hide Hand, Synchronize, HasReports, IsActive, AnyAlive;
      ghost var e := Packet(layer, seqNum, timestamp, isKeyFrame, supported, processed, unset);
      ActivityIsDescribed();
      if !(ParentIsActive() && AnyAlive()) || targetTemporalLayer == -1 || !supported {
        return Ignored;
      }
      if currentSpatialLayer != targetSpatialLayer && layer == targetSpatialLayer {
        if !isKeyFrame {
          return Ignored;
        }
        currentSpatialLayer := targetSpatialLayer;
        syncRequired := true;
      }
      if layer != currentSpatialLayer || (syncRequired && !isKeyFrame) {
        return Ignored;
      }
      assert Passes(old(Value()), e) && Value() == Switch(old(Value()), layer);
      if syncRequired {
        var ok := DoSynchronize(seqNum, timestamp);
        if !ok {
          return Failed;
        }
      }
      outcome := DoHand(e, seqNum, timestamp, processed, unset);
    }
  }
}
