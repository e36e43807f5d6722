/** What a SimulcastConsumer does to sequence numbers and timestamps when it synchronizes. */
module SimulcastTiming {
  import opened Seq16
  import opened Bytes
  import opened Simulcasts
  import opened SimulcastSwitching
  import opened SimulcastLemmas
  import opened SimulcastRuns
  import SeqManagers
  import RtpStreams

  lemma Wrap32OfSum(x: int, y: int)
    ensures Wrap32(Wrap32(x) + y) == Wrap32(x + y)
  {
  }

  // ----- The synchronization packet

  /** The first number after a synchronization is the successor of the highest number sent. */
  lemma SyncNumber(m: SeqManagers.State, seqNum: u16)
    ensures SeqManagers.Input(SeqManagers.Sync(m, Ahead(seqNum, 1)), seqNum).1 == Some(Next(m.maxOutput))
  {
    var previous := Ahead(seqNum, 1);
    AheadIsDifference(m.maxOutput, previous);
    assert Wrap(seqNum + Ahead(m.maxOutput, previous)) == Next(m.maxOutput);
  }

  /** The offset that lifts a timestamp to one above the highest timestamp sent. */
  lemma LiftedTimestamp(timestamp: u32, offset: u32, top: u32)
    ensures Wrap32(Wrap32(timestamp - offset) + Wrap32(top - timestamp + offset + 1)) == Wrap32(top + 1)
  {
    hide Wrap32;
    Wrap32OfSum(timestamp - offset, Wrap32(top - timestamp + offset + 1));
    Wrap32OfSum(top - timestamp + offset + 1, timestamp - offset);
  }

  lemma SyncTimestamp(c: Simulcast, seqNum: u16, timestamp: u32)
    requires c.currentSpatialLayer != c.tsReferenceSpatialLayer ==> HasReports(c)
    ensures var shifted := Wrap32(timestamp - TsOffset(c));
            var top := c.rtpStream.maxPacketTs;
            Retime(Synchronize(c, seqNum, timestamp), timestamp).1 == if shifted > top then shifted else Wrap32(top + 1)
  {
    hide Wrap32, TsOffset;
    LiftedTimestamp(timestamp, TsOffset(c), c.rtpStream.maxPacketTs);
    var d := Synchronize(c, seqNum, timestamp);
    assert Wrap32(timestamp - d.tsOffset) <= c.rtpStream.maxPacketTs ==> timestamp in d.tsExtraOffsets;
  }

  /** Past the checks, the packet is handed on after the synchronization. */
  lemma SyncPacketIsHanded(c: Simulcast, e: Event)
    requires e.Packet? && Safe(c) && Passes(c, e) && Switch(c, e.layer).syncRequired
    ensures var d := Switch(c, e.layer);
            && (d.currentSpatialLayer != d.tsReferenceSpatialLayer ==> HasReports(d))
            && d.rtpSeqManager == c.rtpSeqManager && d.rtpStream == c.rtpStream
            && SendRtpPacket(c, e) == Hand(Synchronize(d, e.seqNum, e.timestamp), e)
  {
    SwitchIsSafe(c, e.layer);
    hide Hand, HasReports, Synchronize, Safe, IsActive;
  }

  lemma HandedAs(c: Simulcast, e: Event)
    requires e.Packet? && e.processed
    ensures var outcome := Hand(c, e).1;
            && outcome.Handed?
            && outcome.number == SeqManagers.Input(c.rtpSeqManager, e.seqNum).1
            && outcome.timestamp == Retime(c, e.timestamp).1
  {
    hide RtpStreams.ReceivePacket, SeqManagers.Input, ExtraOffset, Wrap32;
  }

  /** The packet on which the consumer synchronizes goes on where the outgoing stream stopped: its number is the next
      one, and its timestamp is above the highest one sent (or 0 when that was the last 32-bit number). */
  lemma SyncPacketContinues(c: Simulcast, e: Event)
    requires e.Packet? && Safe(c) && Passes(c, e) && Switch(c, e.layer).syncRequired && e.processed
    ensures var outcome := SendRtpPacket(c, e).1;
            && outcome.Handed?
            && outcome.number == Some(Next(c.rtpSeqManager.maxOutput))
            && (outcome.timestamp > c.rtpStream.maxPacketTs ||
                (outcome.timestamp == 0 && c.rtpStream.maxPacketTs == MOD32 - 1))
  {
    hide TsOffset, HasReports, Safe, Passes, Switch, SendRtpPacket, Hand, Retime, SeqManagers.Input, SeqManagers.Sync;
    SyncPacketIsHanded(c, e);
    var d := Switch(c, e.layer);
    HandedAs(Synchronize(d, e.seqNum, e.timestamp), e);
    SyncTimestamp(d, e.seqNum, e.timestamp);
    SyncNumber(d.rtpSeqManager, e.seqNum);
  }

  /** While extra offsets are in use, a packet of a new frame never gets a timestamp below the highest one sent. */
  lemma NewFramesDoNotGoBack(c: Simulcast, timestamp: u32)
    requires c.tsExtraOffsets != map[] && timestamp !in c.tsExtraOffsets
    ensures var shifted := Wrap32(timestamp - c.tsOffset);
            var top := c.rtpStream.maxPacketTs;
            Retime(c, timestamp).1 == if shifted >= top then shifted else Wrap32(top + 1)
  {
    hide Wrap32;
    var shifted: int := Wrap32(timestamp - c.tsOffset);
    var top: int := c.rtpStream.maxPacketTs;
    if shifted < top {
      Wrap32OfSum(top - shifted + 1, shifted);
    } else {
      Wrap32OfSum(timestamp - c.tsOffset, 0);
    }
  }

  // ----- The Sender Reports

  /** The timestamp that a stream reports for a time: its Sender Report says that time `ntpMs` is timestamp `ts`. */
  function TimestampAt(ntpMs: nat, ts: u32, timeMs: int, clockRate: u32): int
    requires clockRate % 1000 == 0
  {
    ts + (timeMs - ntpMs) * (clockRate / 1000)
  }

  /** The offset aligns the streams: at any time, the current stream's timestamp minus the offset is the timestamp of
      the reference stream. */
  lemma NtpOffsetAligns(ntpMs1: nat, ts1: u32, ntpMs2: nat, ts2: u32, clockRate: u32, timeMs: int)
    requires clockRate % 1000 == 0
    ensures Wrap32(TimestampAt(ntpMs2, ts2, timeMs, clockRate) - NtpOffset(ntpMs1, ts1, ntpMs2, ts2, clockRate)) ==
            Wrap32(TimestampAt(ntpMs1, ts1, timeMs, clockRate))
  {
    var k := clockRate / 1000;
    var diff := ntpMs2 - ntpMs1;
    TruncateExact(diff, k);
    assert diff * clockRate == diff * k * 1000;
    Wrap32OfSum(ts2 - diff * k, 0 - ts1);
    var offset := NtpOffset(ntpMs1, ts1, ntpMs2, ts2, clockRate);
    assert offset == Wrap32(ts2 - diff * k - ts1);
    Wrap32OfDifference(TimestampAt(ntpMs2, ts2, timeMs, clockRate), ts2 - diff * k - ts1);
    Distribute(timeMs, ntpMs1, ntpMs2, k);
  }

  lemma TruncateExact(diff: int, k: nat)
    ensures Truncate(diff * k * 1000, 1000) == diff * k
  {
    var x := diff * k;
    assert Truncate(x * 1000, 1000) == x;
  }

  lemma Wrap32OfDifference(x: int, y: int)
    ensures Wrap32(x - Wrap32(y)) == Wrap32(x - y)
  {
  }

  lemma Distribute(timeMs: int, ntpMs1: int, ntpMs2: int, k: int)
    ensures (timeMs - ntpMs2) * k + (ntpMs2 - ntpMs1) * k == (timeMs - ntpMs1) * k
  {
  }

  /** The assertions rely on Sender Reports with a time. While the consumer waits for a key frame of a target that is
      not its reference layer, a further Sender Report of either layer makes that key frame fail the assertions exactly
      when it bears the NTP time 0. */
  lemma ReportTimeDecides(c: Simulcast, layer: nat, ntpMs: nat, ts: u32, shares: Shares, e: Event)
    requires Safe(c) && c.targetSpatialLayer != -1 && c.targetTemporalLayer != -1
    requires c.currentSpatialLayer != c.targetSpatialLayer && c.targetSpatialLayer != c.tsReferenceSpatialLayer
    requires layer == c.targetSpatialLayer || layer == c.tsReferenceSpatialLayer
    requires e.Packet? && e.layer == c.targetSpatialLayer && e.isKeyFrame && e.supported
    ensures Applies(c, SenderReport(layer, ntpMs, ts, shares))
    ensures SendRtpPacket(Step(c, SenderReport(layer, ntpMs, ts, shares)), e).1.Failed? <==> ntpMs == 0
  {
    hide ChangeIfActive, RtpStreams.ReceivePacket, NtpOffset, SeqManagers.Input, SeqManagers.Sync, Retime;
    assert HasStream(c, layer);
    var d := Step(c, SenderReport(layer, ntpMs, ts, shares));
    assert d == WithStream(c, layer, c.producerStreams[layer].value.(senderReportNtpMs := ntpMs, senderReportTs := ts));
    assert Score(d, d.targetSpatialLayer) > 0;
    assert Passes(d, e);
  }
}
