/** The sequence number bookkeeping of RtpStream (appendix A.1 of RFC 3550). */
module RtpStreams {
  import opened Seq16
  import opened Bytes

  const MAX_DROPOUT := 3000
  const MAX_MISORDER := 1500
  const MOD32 := 0x1_0000_0000

  datatype Stream = Stream(
    started: bool,
    maxSeq: u16,
    cycles: u32,
    baseSeq: u16,
    badSeq: int,
    packetsDiscarded: nat,
    maxPacketTs: u32)

  const IDLE := Stream(false, 0, 0, 0, 0, 0, 0)

  /** SeqManager<uint32_t>::IsSeqHigherThan. */
  predicate Higher32(lhs: u32, rhs: u32)
  {
    || (lhs > rhs && lhs - rhs <= 0x7FFF_FFFF)
    || (rhs > lhs && rhs - lhs > 0x7FFF_FFFF)
  }

  function InitSeq(s: Stream, seqNum: u16): Stream
  {
    s.(baseSeq := seqNum, maxSeq := seqNum, badSeq := MOD + 1)
  }

  /** The new stream, and whether the packet is accepted. `cycles` is not touched by InitSeq. */
  function UpdateSeq(s: Stream, seqNum: u16, timestamp: u32): (Stream, bool)
  {
    var udelta := Ahead(seqNum, s.maxSeq);
    if udelta < MAX_DROPOUT then
      (s.(cycles := if seqNum < s.maxSeq then AddCycle(s.cycles) else s.cycles, maxSeq := seqNum), true)
    else if udelta <= MOD - MAX_MISORDER then
      if seqNum == s.badSeq then (InitSeq(s, seqNum).(maxPacketTs := timestamp), true)
      else (s.(badSeq := Next(seqNum), packetsDiscarded := s.packetsDiscarded + 1), false)
    else (s, true)
  }

  /** `cycles += RtpSeqMod` on a uint32_t. */
  function AddCycle(cycles: u32): u32
  {
    if cycles + MOD < MOD32 then cycles + MOD else cycles + MOD - MOD32
  }

  function ReceivePacket(s: Stream, seqNum: u16, timestamp: u32): (Stream, bool)
  {
    var started :=
      if s.started then s
      else InitSeq(s, seqNum).(started := true, maxSeq := Ahead(seqNum, 1), maxPacketTs := timestamp);
    var (updated, accepted) := UpdateSeq(started, seqNum, timestamp);
    if accepted && Higher32(timestamp, updated.maxPacketTs) then (updated.(maxPacketTs := timestamp), true)
    else (updated, accepted)
  }

  class RtpStream {
    var started: bool
    var maxSeq: u16
    var cycles: u32
    var baseSeq: u16
    var badSeq: int
    var packetsDiscarded: nat
    var maxPacketTs: u32

    ghost function Value(): Stream
      reads this
    {
      Stream(started, maxSeq, cycles, baseSeq, badSeq, packetsDiscarded, maxPacketTs)
    }

    constructor ()
      ensures Value() == IDLE
    {
      started, maxSeq, cycles, baseSeq, badSeq, packetsDiscarded, maxPacketTs := false, 0, 0, 0, 0, 0, 0;
    }

    method DoInitSeq(seqNum: u16)
      modifies this
      ensures Value() == InitSeq(old(Value()), seqNum)
    {
      baseSeq, maxSeq, badSeq := seqNum, seqNum, MOD + 1;
    }

    method DoUpdateSeq(seqNum: u16, timestamp: u32) returns (accepted: bool)
      modifies this
      ensures (Value(), accepted) == UpdateSeq(old(Value()), seqNum, timestamp)
    {
      var udelta := Ahead(seqNum, maxSeq);
      if udelta < MAX_DROPOUT {
        if seqNum < maxSeq {
          cycles := AddCycle(cycles);
        }
        maxSeq := seqNum;
      } else if udelta <= MOD - MAX_MISORDER {
        if seqNum == badSeq {
          DoInitSeq(seqNum);
          maxPacketTs := timestamp;
        } else {
          badSeq := Next(seqNum);
          packetsDiscarded := packetsDiscarded + 1;
          return false;
        }
      }
      return true;
    }

    method Receive(seqNum: u16, timestamp: u32) returns (accepted: bool)
      modifies this
      ensures (Value(), accepted) == ReceivePacket(old(Value()), seqNum, timestamp)
    {
      if !started {
        DoInitSeq(seqNum);
        started := true;
        maxSeq := Ahead(seqNum, 1);
        maxPacketTs := timestamp;
      }
      accepted := DoUpdateSeq(seqNum, timestamp);
      if !accepted {
        return;
      }
      if Higher32(timestamp, maxPacketTs) {
        maxPacketTs := timestamp;
      }
    }
  }

  // ----- The extended sequence number

  /** `cycles` counts the 64K cycles of the unwrapped position `top` of the highest packet, modulo 2^32. */
  predicate Extends(s: Stream, top: int)
  {
    && s.started
    && s.maxSeq == Wrap(top)
    && s.cycles == (top - Wrap(top)) % MOD32
  }

  /** Hence `cycles + maxSeq` is the unwrapped position modulo 2^32. */
  lemma ExtendedNumber(s: Stream, top: int)
    requires Extends(s, top)
    ensures (s.cycles + s.maxSeq) % MOD32 == top % MOD32
  {
    ModAdd(top - Wrap(top), Wrap(top));
  }

  lemma ModAdd(x: int, d: int)
    ensures (x % MOD32 + d) % MOD32 == (x + d) % MOD32
  {
  }

  lemma NextCycle(x: int)
    requires x % MOD == 0
    ensures AddCycle(x % MOD32) == (x + MOD) % MOD32
  {
    ModAdd(x, MOD);
  }

  lemma WrapIsMultiple(top: int)
    ensures (top - Wrap(top)) % MOD == 0
  {
  }

  lemma StepUp(top: int, pos: int)
    requires 0 <= pos - top < MOD
    ensures pos - Wrap(pos) == if Wrap(pos) < Wrap(top) then top - Wrap(top) + MOD else top - Wrap(top)
  {
  }

  lemma AheadOfEarlier(top: int, pos: int)
    requires 0 < top - pos < MOD
    ensures Ahead(Wrap(pos), Wrap(top)) == MOD - (top - pos)
  {
  }

  /** A packet less than 3000 ahead of the highest or less than 1500 behind it is accepted, and the extended number
      follows the highest position. */
  lemma AcceptsInRange(s: Stream, top: int, pos: int, timestamp: u32)
    requires Extends(s, top) && -MAX_MISORDER < pos - top < MAX_DROPOUT
    ensures var (r, accepted) := ReceivePacket(s, Wrap(pos), timestamp);
            accepted && Extends(r, if pos > top then pos else top)
  {
    hide Wrap;
    if pos >= top {
      AheadOfUnwrapped(pos, top);
      StepUp(top, pos);
      WrapIsMultiple(top);
      NextCycle(top - Wrap(top));
    } else {
      AheadOfEarlier(top, pos);
    }
  }

  /** The first packet starts the count at its own number, except that number 0 is counted as a cycle. */
  lemma FirstPacket(seqNum: u16, timestamp: u32)
    ensures var (r, accepted) := ReceivePacket(IDLE, seqNum, timestamp);
            accepted && (Extends(r, seqNum) <==> seqNum != 0) && (seqNum == 0 ==> Extends(r, MOD))
  {
  }

  /** Far jumps are refused once, and the packet right after a refused one restarts the stream without resetting
      the cycles. */
  lemma RestartAfterJump(s: Stream, top: int, seqNum: u16, t1: u32, t2: u32)
    requires Extends(s, top)
    requires MAX_DROPOUT <= Ahead(seqNum, s.maxSeq) <= MOD - MAX_MISORDER && seqNum != s.badSeq
    ensures var (r1, accepted1) := ReceivePacket(s, seqNum, t1);
            var (r2, accepted2) := ReceivePacket(r1, Next(seqNum), t2);
            && !accepted1 && r1.maxSeq == s.maxSeq && r1.packetsDiscarded == s.packetsDiscarded + 1
            && (Ahead(Next(seqNum), s.maxSeq) <= MOD - MAX_MISORDER ==>
                  accepted2 && r2.maxSeq == r2.baseSeq == Next(seqNum) && r2.cycles == s.cycles)
  {
  }

  /** A stream that was just started or restarted knows of no jump: any far one is refused. */
  lemma FreshJumpIsRefused(seqNum: u16, t1: u32, jump: u16, t2: u32)
    requires MAX_DROPOUT <= Ahead(jump, seqNum) <= MOD - MAX_MISORDER
    ensures var r := ReceivePacket(IDLE, seqNum, t1).0; !ReceivePacket(r, jump, t2).1
    ensures forall s: Stream :: s.started && s.badSeq == seqNum && MAX_DROPOUT <= Ahead(seqNum, s.maxSeq) <= MOD - MAX_MISORDER ==>
              var (r, accepted) := ReceivePacket(s, seqNum, t1); accepted && !ReceivePacket(r, jump, t2).1
  {
  }

  // ----- Timestamps

  /** Less than half a circle apart, timestamps compare like the unwrapped ones. At exactly half a circle the smaller number
      counts as the higher one. */
  lemma HigherOfUnwrapped32(x: int, y: int)
    requires -0x8000_0000 < x - y < 0x8000_0000
    ensures Higher32(x % MOD32, y % MOD32) <==> x > y
  {
  }

  lemma HigherOfAntipode32(x: u32, y: u32)
    requires x - y == 0x8000_0000
    ensures Higher32(y, x) && !Higher32(x, y)
  {
  }
}
