/** The retransmission buffer of RtpStreamSend as a value: an index of 65536 sequence-number slots over a pool of
    storage items, and the functions that the methods of class RtpStreamSend compute. */
module SendBuffers {
  import opened Seq16
  import opened Bytes
  import opened Arithmetic
  import opened RtpPackets
  import opened NackPacking

  /** An empty index slot (nullptr in the source); any other entry is a position in the pool. */
  const NONE := -1
  const MAX_RETRANSMISSION_DELAY := 2000

  datatype StorageItem = StorageItem(packet: Option<Packet>, resentAtTime: nat, sentTimes: u8, rtxEncoded: bool)

  const EMPTY_ITEM := StorageItem(None, 0, 0, false)

  datatype SendBuffer = SendBuffer(
    index: seq<int>,
    storage: seq<StorageItem>,
    startIdx: u16,
    size: nat,
    rtxSeq: u16)

  /** The parameters of the stream that the buffer needs; rtxSsrc 0 means no RTX. */
  datatype Params = Params(rtxSsrc: u32, rtxPayloadType: u8, clockRate: u32)

  /** What a retransmission reads from its surroundings: the clock, the RTT and the highest timestamp sent. */
  datatype Moment = Moment(now: nat, rtt: u16, maxPacketTs: u32)

  /** The sequence number a stored packet was sent with: RTX encoding moved it into the payload. */
  function OriginalSeq(item: StorageItem): u16
    requires item.packet.Some?
    requires item.rtxEncoded ==> |item.packet.value.payload| >= 2
  {
    if item.rtxEncoded then Get2(item.packet.value.payload, 0) else item.packet.value.sequenceNumber
  }

  predicate Stored(item: StorageItem)
  {
    && item.packet.Some?
    && (item.rtxEncoded ==> |item.packet.value.payload| >= 2)
    && Size(item.packet.value) <= MTU_SIZE + (if item.rtxEncoded then 2 else 0)
  }

  predicate Shape(b: SendBuffer)
  {
    && |b.index| == MOD
    && b.size <= |b.storage|
    && (forall s :: 0 <= s < MOD ==> b.index[s] == NONE || 0 <= b.index[s] < b.size)
    && (forall k :: 0 <= k < b.size ==> Stored(b.storage[k]))
  }

  /** Index and pool are each other's inverse: every slot points to the packet that was sent with that number,
      and every pool item in use is pointed to by the slot of its number. */
  predicate Inverse(b: SendBuffer)
    requires Shape(b)
  {
    && (forall s :: 0 <= s < MOD && b.index[s] != NONE ==> OriginalSeq(b.storage[b.index[s]]) == s)
    && (forall k :: 0 <= k < b.size ==> b.index[OriginalSeq(b.storage[k])] == k)
  }

  /** The invariant of the buffer. */
  predicate Valid(b: SendBuffer)
  {
    && Shape(b)
    && Inverse(b)
    && (forall k :: b.size <= k < |b.storage| ==> b.storage[k] == EMPTY_ITEM)
    && (b.size > 0 ==> b.index[b.startIdx] != NONE)
  }

  type Buffer = b: SendBuffer | Valid(b) witness Empty(0, 0)

  lemma SlotIsInPool(b: Buffer, s: u16)
    requires b.index[s] != NONE
    ensures 0 <= b.index[s] < |b.storage| && b.storage[b.index[s]].packet.Some?
  {
  }

  /** What StorePacket reads lies in the pool. */
  lemma PoolFacts(b: Buffer, s: u16)
    ensures Shape(b) && b.size <= |b.storage|
    ensures b.index[s] != NONE ==> 0 <= b.index[s] < |b.storage| && b.storage[b.index[s]].packet.Some?
    ensures b.size > 0 ==> 0 <= b.index[b.startIdx] < |b.storage|
  {
  }

  // ----- UpdateBufferStartIdx

  /** The first occupied slot among the `left` ones from `s` on, or `start` when there is none. */
  function NextOccupied(index: seq<int>, s: u16, left: nat, start: u16): u16
    requires |index| == MOD
    decreases left
  {
    if left == 0 then start
    else if index[s] != NONE then s
    else NextOccupied(index, Next(s), left - 1, start)
  }

  function UpdateStart(index: seq<int>, start: u16): u16
    requires |index| == MOD
  {
    NextOccupied(index, Next(start), MOD, start)
  }

  lemma {:induction false} NextOccupiedIsFirst(index: seq<int>, s: u16, left: nat, start: u16, t: u16)
    requires |index| == MOD && left <= MOD
    requires index[t] != NONE && Ahead(t, s) < left
    ensures var r := NextOccupied(index, s, left, start);
            index[r] != NONE && Ahead(r, s) <= Ahead(t, s)
    decreases left
  {
    if index[s] == NONE {
      NextOccupiedIsFirst(index, Next(s), left - 1, start, t);
    }
  }

  /** When any slot is occupied, the scan lands on an occupied one, and on the first of them after `start`. */
  lemma UpdateStartIsFirst(index: seq<int>, start: u16, t: u16)
    requires |index| == MOD && index[t] != NONE
    ensures var r := UpdateStart(index, start);
            index[r] != NONE && (index[start] == NONE ==> 0 < Ahead(r, start) <= Ahead(t, start))
  {
    NextOccupiedIsFirst(index, Next(start), MOD, start, t);
    AheadOfNext(t, start);
    AheadOfNext(UpdateStart(index, start), start);
  }

  // ----- StorePacket

  /** The assertion of ResetStorageItem: only the branch for a full buffer can meet an empty start slot. */
  predicate CanStore(b: SendBuffer, p: Packet)
    requires Shape(b)
  {
    (Size(p) <= MTU_SIZE && b.index[p.sequenceNumber] == NONE && 0 < b.size == |b.storage|) ==>
      b.index[b.startIdx] != NONE
  }

  function Store(b: SendBuffer, p: Packet): SendBuffer
    requires Shape(b) && |b.storage| > 0 && CanStore(b, p)
  {
    var s := p.sequenceNumber;
    var k := b.index[s];
    if Size(p) > MTU_SIZE then b
    else if b.size == 0 then
      b.(index := b.index[s := 0], size := 1, startIdx := s, storage := b.storage[0 := b.storage[0].(packet := Some(p))])
    else if k != NONE then
      if p.timestamp == b.storage[k].packet.value.timestamp then b
      else
        b.(startIdx := if b.startIdx == s then UpdateStart(b.index, s) else b.startIdx,
           storage := b.storage[k := EMPTY_ITEM.(packet := Some(p))])
    else if b.size < |b.storage| then
      b.(index := b.index[s := b.size],
         storage := b.storage[b.size := b.storage[b.size].(packet := Some(p))],
         size := b.size + 1)
    else
      var first := b.index[b.startIdx];
      var index := b.index[b.startIdx := NONE];
      b.(index := index[s := first],
         startIdx := UpdateStart(index, b.startIdx),
         storage := b.storage[first := EMPTY_ITEM.(packet := Some(p))])
  }

  lemma ReplaceKeepsValid(b: Buffer, p: Packet)
    requires Size(p) <= MTU_SIZE && b.index[p.sequenceNumber] != NONE
    ensures Valid(b.(storage := b.storage[b.index[p.sequenceNumber] := EMPTY_ITEM.(packet := Some(p))]))
  {
  }

  lemma AddKeepsValid(b: Buffer, p: Packet)
    requires Size(p) <= MTU_SIZE && b.index[p.sequenceNumber] == NONE && b.size < |b.storage|
    ensures Valid(b.(index := b.index[p.sequenceNumber := b.size],
                     storage := b.storage[b.size := b.storage[b.size].(packet := Some(p))],
                     size := b.size + 1,
                     startIdx := if b.size == 0 then p.sequenceNumber else b.startIdx))
  {
  }

  lemma EvictKeepsValid(b: Buffer, p: Packet, start: u16)
    requires Size(p) <= MTU_SIZE && b.index[p.sequenceNumber] == NONE && b.size > 0
    requires start != b.startIdx && b.index[start] != NONE
    ensures var first := b.index[b.startIdx];
            Valid(b.(index := b.index[b.startIdx := NONE][p.sequenceNumber := first],
                     startIdx := start,
                     storage := b.storage[first := EMPTY_ITEM.(packet := Some(p))]))
  {
  }

  lemma StoreKeepsValid(b: Buffer, p: Packet)
    requires |b.storage| >= 2
    ensures Valid(Store(b, p)) && |Store(b, p).storage| == |b.storage|
  {
    var s := p.sequenceNumber;
    var k := b.index[s];
    if Size(p) > MTU_SIZE {
    } else if b.size == 0 {
      AddKeepsValid(b, p);
    } else if k != NONE {
      ReplaceKeepsValid(b, p);
      UpdateStartIsFirst(b.index, s, s);
    } else if b.size < |b.storage| {
      AddKeepsValid(b, p);
    } else {
      // Another slot stays occupied once the start slot is freed, because the pool has a second item.
      var index := b.index[b.startIdx := NONE];
      var other := if b.index[b.startIdx] == 0 then 1 else 0;
      var t := OriginalSeq(b.storage[other]);
      assert b.index[t] == other;
      UpdateStartIsFirst(index, b.startIdx, t);
      EvictKeepsValid(b, p, UpdateStart(index, b.startIdx));
    }
  }

  // ----- ClearBuffer

  function Empty(capacity: nat, rtxSeq: u16): (b: SendBuffer)
    ensures Valid(b) && |b.storage| == capacity
  {
    SendBuffer(seq(MOD, i => NONE), seq(capacity, i => EMPTY_ITEM), 0, 0, rtxSeq)
  }

  // ----- Retransmission

  function HasRtx(params: Params): bool
  {
    params.rtxSsrc != 0
  }

  /** How far the timestamp of a packet is behind the highest one sent. */
  function AgeTicks(m: Moment, p: Packet): u32
  {
    (m.maxPacketTs - p.timestamp) % 0x1_0000_0000
  }

  /** The age of a packet in milliseconds, computed in 32 bits. */
  function AgeMs(params: Params, m: Moment, p: Packet): int
    requires params.clockRate > 0
  {
    AgeTicks(m, p) * 1000 % 0x1_0000_0000 / params.clockRate
  }

  /** The age is exact if and only if the product fits 32 bits, and too small otherwise: no packet that is young enough
      is refused. */
  lemma AgeIsExactIff(params: Params, m: Moment, p: Packet)
    requires params.clockRate > 0
    ensures AgeMs(params, m, p) == AgeTicks(m, p) * 1000 / params.clockRate <==> AgeTicks(m, p) * 1000 < 0x1_0000_0000
    ensures AgeMs(params, m, p) <= AgeTicks(m, p) * 1000 / params.clockRate
  {
    hide AgeTicks;
    var x := AgeTicks(m, p) * 1000;
    ModIsAtMost(x, 0x1_0000_0000);
    QuotientIsMonotone(x % 0x1_0000_0000, x, params.clockRate);
    if x >= 0x1_0000_0000 {
      ModIsLess(x, 0x1_0000_0000);
      QuotientGrows(x % 0x1_0000_0000, x, params.clockRate);
    }
  }

  /** Whether a requested packet is sent again: it must be stored, not too old, and not resent within an RTT. */
  predicate Resendable(b: Buffer, params: Params, m: Moment, s: u16)
    requires params.clockRate > 0
  {
    && b.index[s] != NONE
    && var item := b.storage[b.index[s]];
       && AgeMs(params, m, item.packet.value) <= MAX_RETRANSMISSION_DELAY
       && !(item.resentAtTime != 0 && 0 <= m.now - item.resentAtTime <= m.rtt)
  }

  /** At a clock rate of 90000, a packet that is 47.7 seconds old gets the age 0, and is resent. */
  lemma OldPacketIsResent(b: Buffer, s: u16, now: nat, rtt: u16)
    requires b.index[s] != NONE
    requires b.storage[b.index[s]].packet.value.timestamp == 0 && b.storage[b.index[s]].resentAtTime == 0
    ensures var params, m := Params(0, 0, 90000), Moment(now, rtt, 4294968);
            && AgeTicks(m, b.storage[b.index[s]].packet.value) * 1000 / params.clockRate == 47721
            && Resendable(b, params, m, s)
  {
  }

  /** Gives a stored packet the next RTX sequence number, encoding it unless an earlier resend already did. */
  function Encoded(item: StorageItem, params: Params, rtxSeq: u16): StorageItem
    requires item.packet.Some?
  {
    var p := item.packet.value;
    item.(packet := Some(if item.rtxEncoded then p.(sequenceNumber := rtxSeq)
                         else RtxEncode(p, params.rtxPayloadType, params.rtxSsrc, rtxSeq)),
          rtxEncoded := true)
  }

  /** The RTX part that SendProbationRtpPacket and FillRetransmissionContainer share. */
  function EncodeSlot(b: Buffer, params: Params, s: u16): SendBuffer
    requires b.index[s] != NONE
  {
    var k := b.index[s];
    if HasRtx(params) then
      var rtxSeq := Next(b.rtxSeq);
      b.(rtxSeq := rtxSeq, storage := b.storage[k := Encoded(b.storage[k], params, rtxSeq)])
    else b
  }

  function Probation(b: Buffer, params: Params, s: u16): SendBuffer
  {
    if |b.storage| == 0 || b.index[s] == NONE then b else EncodeSlot(b, params, s)
  }

  function MarkSent(item: StorageItem, now: nat): StorageItem
  {
    item.(resentAtTime := now, sentTimes := (item.sentTimes + 1) % 0x100)
  }

  function Resend(b: Buffer, params: Params, m: Moment, s: u16): SendBuffer
    requires b.index[s] != NONE
  {
    var k := b.index[s];
    var e := EncodeSlot(b, params, s);
    e.(storage := e.storage[k := MarkSent(e.storage[k], m.now)])
  }

  lemma EncodeSlotKeepsValid(b: Buffer, params: Params, s: u16)
    requires b.index[s] != NONE
    ensures Valid(EncodeSlot(b, params, s))
  {
    if HasRtx(params) {
      var item := b.storage[b.index[s]];
      var e := Encoded(item, params, Next(b.rtxSeq));
      if !item.rtxEncoded {
        assert Get2(e.packet.value.payload, 0) == Get2(Put2(item.packet.value.sequenceNumber), 0);
      }
      assert Stored(e) && OriginalSeq(e) == OriginalSeq(item) == s;
    }
  }

  lemma ResendKeepsValid(b: Buffer, params: Params, m: Moment, s: u16)
    requires b.index[s] != NONE
    ensures Valid(Resend(b, params, m, s))
    ensures Resend(b, params, m, s).index == b.index
  {
    EncodeSlotKeepsValid(b, params, s);
    var e := EncodeSlot(b, params, s);
    var k := b.index[s];
    assert OriginalSeq(MarkSent(e.storage[k], m.now)) == OriginalSeq(e.storage[k]);
  }

  /** FillRetransmissionContainer: looks up the numbers in turn; `resent` are those it puts in the container. */
  function Fill(b: Buffer, params: Params, m: Moment, numbers: seq<u16>): (r: (Buffer, seq<u16>))
    requires params.clockRate > 0
    ensures r.0.index == b.index && r.0.size == b.size && |r.0.storage| == |b.storage|
    ensures |r.1| <= |numbers|
    ensures forall s :: s in r.1 ==> s in numbers && b.index[s] != NONE
    decreases |numbers|
  {
    if numbers == [] then (b, [])
    else if Resendable(b, params, m, numbers[0]) then
      ResendKeepsValid(b, params, m, numbers[0]);
      var r := Fill(Resend(b, params, m, numbers[0]), params, m, numbers[1..]);
      (r.0, [numbers[0]] + r.1)
    else Fill(b, params, m, numbers[1..])
  }

  /** One step of the walk, as the loops that compute it use it. */
  lemma FillStep(b: Buffer, params: Params, m: Moment, done: seq<u16>, left: seq<u16>)
    requires params.clockRate > 0 && left != []
    ensures var s, rest := left[0], left[1..];
            if Resendable(b, params, m, s) then
              && Valid(Resend(b, params, m, s))
              && Fill(b, params, m, left).0 == Fill(Resend(b, params, m, s), params, m, rest).0
              && done + Fill(b, params, m, left).1 == done + [s] + Fill(Resend(b, params, m, s), params, m, rest).1
            else
              Fill(b, params, m, left) == Fill(b, params, m, rest)
  {
    var s, rest := left[0], left[1..];
    if Resendable(b, params, m, s) {
      ResendKeepsValid(b, params, m, s);
      var r := Fill(Resend(b, params, m, s), params, m, rest);
      assert done + ([s] + r.1) == done + [s] + r.1;
    }
  }

  lemma FillNothing(b: Buffer, params: Params, m: Moment, done: seq<u16>)
    requires params.clockRate > 0
    ensures (Fill(b, params, m, []).0, done + Fill(b, params, m, []).1) == (b, done)
  {
    assert done + [] == done;
  }
}
