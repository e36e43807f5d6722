/** How far apart the resends of a stored packet are, over whole runs. The history is what an observer of the
    retransmissions writes down; the pool items themselves keep only a counter and the last time. */
module SendBufferHistory {
  import opened Seq16
  import opened Bytes
  import opened RtpPackets
  import opened NackPacking
  import opened SendBuffers
  import opened SendBufferLemmas
  import opened SendBufferRuns

  /** One resend: when, and the RTT at that time. */
  datatype Resent = Resent(time: nat, rtt: nat)

  /** For each held number, the resends that NACKs have made of the packet stored under it. */
  type History = map<u16, seq<Resent>>

  // ----- What the observer writes down

  /** The packet takes a place in the pool, a new one or that of another packet with its number. */
  predicate Takes(b: Buffer, p: Packet)
  {
    && Size(p) <= MTU_SIZE
    && (b.index[p.sequenceNumber] == NONE || p.timestamp != b.storage[b.index[p.sequenceNumber]].packet.value.timestamp)
  }

  /** A packet that takes a place was never resent; packets that are no longer held are forgotten. */
  function WithStored(h: History, b: Buffer, p: Packet): History
    requires |b.storage| >= 2
  {
    StoreKeepsValid(b, p);
    var kept := map s: u16 | s in h && Store(b, p).index[s] != NONE :: h[s];
    if Takes(b, p) then kept[p.sequenceNumber := []] else kept
  }

  function WithResent(h: History, resent: seq<u16>, m: Moment): History
    decreases |resent|
  {
    if resent == [] then h
    else
      var s := resent[0];
      WithResent(if s in h then h[s := h[s] + [Resent(m.now, m.rtt)]] else h, resent[1..], m)
  }

  /** The containers of a NACK, one item after the other. */
  function WithNack(h: History, b: Buffer, params: Params, m: Moment, items: seq<Item>): History
    requires params.clockRate > 0
    decreases |items|
  {
    if items == [] then h
    else
      var (c, resent) := Fill(b, params, m, Requested(items[0]));
      WithNack(WithResent(h, resent, m), c, params, m, items[1..])
  }

  function Observe(h: History, b: Buffer, params: Params, e: Event): History
    requires |b.storage| >= 2 && params.clockRate > 0
  {
    match e
    case Send(p, _) => WithStored(h, b, p)
    case Nack(items, m) => WithNack(h, b, params, m, items)
    case Probe(_) => h
    case Pause => map[]
  }

  function HistoryOf(b: Buffer, params: Params, events: seq<Event>): History
    requires |b.storage| >= 2 && params.clockRate > 0
    decreases |events|
  {
    if events == [] then map[]
    else
      var before := events[..|events| - 1];
      Observe(HistoryOf(b, params, before), Run(b, params, before), params, events[|events| - 1])
  }

  // ----- What holds of it

  /** Each resend comes more than an RTT, as it is by then, after the one before. */
  predicate Apart(times: seq<Resent>)
  {
    forall i :: 0 < i < |times| ==> times[i - 1].time + times[i].rtt < times[i].time
  }

  /** The counter and the last time of the item agree with the history; the clock never showed 0. */
  predicate ItemOk(item: StorageItem, times: seq<Resent>, clock: nat)
  {
    && Apart(times)
    && item.sentTimes == |times| % 0x100
    && item.resentAtTime == (if times == [] then 0 else times[|times| - 1].time)
    && forall i :: 0 <= i < |times| ==> 0 < times[i].time <= clock
  }

  /** The history knows exactly the held numbers, and every item agrees with it. */
  ghost predicate Recorded(b: Buffer, h: History, clock: nat)
  {
    forall s: u16 :: Agrees(b, h, s, clock)
  }

  predicate Agrees(b: Buffer, h: History, s: u16, clock: nat)
  {
    if b.index[s] == NONE then s !in h else s in h && ItemOk(b.storage[b.index[s]], h[s], clock)
  }

  lemma ClockGoesOn(b: Buffer, h: History, clock: nat, later: nat)
    requires Recorded(b, h, clock) && clock <= later
    ensures Recorded(b, h, later)
  {
    forall s: u16 ensures Agrees(b, h, s, later) {
      assert Agrees(b, h, s, clock);
    }
  }

  // ----- Resends

  lemma ItemResent(item: StorageItem, times: seq<Resent>, clock: nat, m: Moment)
    requires ItemOk(item, times, clock) && clock <= m.now && 0 < m.now
    requires !(item.resentAtTime != 0 && 0 <= m.now - item.resentAtTime <= m.rtt)
    ensures ItemOk(MarkSent(item, m.now), times + [Resent(m.now, m.rtt)], m.now)
  {
  }

  /** A resend marks its item and changes no other. */
  lemma ResendMarks(b: Buffer, params: Params, m: Moment, s: u16, t: u16)
    requires b.index[s] != NONE && b.index[t] != NONE
    ensures var c := Resend(b, params, m, s);
            && Valid(c) && c.index == b.index
            && var x, y := b.storage[b.index[t]], c.storage[c.index[t]];
               if t == s then
                 y.sentTimes == MarkSent(x, m.now).sentTimes && y.resentAtTime == m.now
               else y == x
  {
    ResendSlot(b, params, m, s, t);
  }

  lemma SameCounters(x: StorageItem, y: StorageItem, times: seq<Resent>, clock: nat)
    requires ItemOk(x, times, clock) && y.sentTimes == x.sentTimes && y.resentAtTime == x.resentAtTime
    ensures ItemOk(y, times, clock)
  {
  }

  lemma ResendIsRecorded(b: Buffer, h: History, params: Params, m: Moment, s: u16, clock: nat)
    requires Recorded(b, h, clock) && clock <= m.now && 0 < m.now && params.clockRate > 0 && Resendable(b, params, m, s)
    ensures s in h && Valid(Resend(b, params, m, s))
    ensures Recorded(Resend(b, params, m, s), h[s := h[s] + [Resent(m.now, m.rtt)]], m.now)
  {
    hide Resend, AgeMs, ItemOk;
    ResendMarks(b, params, m, s, s);
    assert Agrees(b, h, s, clock);
    var c, g := Resend(b, params, m, s), h[s := h[s] + [Resent(m.now, m.rtt)]];
    ClockGoesOn(b, h, clock, m.now);
    forall t: u16
      ensures Agrees(c, g, t, m.now)
    {
      assert Agrees(b, h, t, m.now);
      if t == s {
        var item := b.storage[b.index[s]];
        ItemResent(item, h[s], clock, m);
        SameCounters(MarkSent(item, m.now), c.storage[c.index[s]], g[s], m.now);
      } else if b.index[t] != NONE {
        ResendMarks(b, params, m, s, t);
      }
    }
  }

  lemma {:induction false} FillIsRecorded(b: Buffer, h: History, params: Params, m: Moment, numbers: seq<u16>, clock: nat)
    requires Recorded(b, h, clock) && clock <= m.now && 0 < m.now && params.clockRate > 0
    ensures var (c, resent) := Fill(b, params, m, numbers); Recorded(c, WithResent(h, resent, m), m.now)
    decreases |numbers|
  {
    hide Fill, Resend, Resendable, Recorded;
    FillUnfolds(b, params, m, numbers);
    if numbers == [] {
      ClockGoesOn(b, h, clock, m.now);
    } else if Resendable(b, params, m, numbers[0]) {
      var s := numbers[0];
      ResendIsRecorded(b, h, params, m, s, clock);
      FillIsRecorded(Resend(b, params, m, s), h[s := h[s] + [Resent(m.now, m.rtt)]], params, m, numbers[1..], m.now);
      var resent := Fill(Resend(b, params, m, s), params, m, numbers[1..]).1;
      assert ([s] + resent)[1..] == resent;
    } else {
      FillIsRecorded(b, h, params, m, numbers[1..], clock);
    }
  }

  lemma {:induction false} NackIsRecorded(b: Buffer, h: History, params: Params, m: Moment, items: seq<Item>, clock: nat)
    requires Recorded(b, h, clock) && clock <= m.now && 0 < m.now && params.clockRate > 0
    ensures Recorded(ReceiveNack(b, params, m, items).0, WithNack(h, b, params, m, items), m.now)
    decreases |items|
  {
    hide Fill, Recorded, Answers;
    if items == [] {
      ClockGoesOn(b, h, clock, m.now);
    } else {
      var (c, resent) := Fill(b, params, m, Requested(items[0]));
      FillIsRecorded(b, h, params, m, Requested(items[0]), clock);
      NackIsRecorded(c, WithResent(h, resent, m), params, m, items[1..], m.now);
    }
  }

  // ----- Stores and probation

  /** A store puts a fresh item under the packet's number if it takes a place, and leaves the items of all numbers that
      are still held. */
  lemma StoreKeepsItems(b: Buffer, p: Packet, s: u16)
    requires |b.storage| >= 2
    ensures var c := Store(b, p);
            && Valid(c)
            && (s == p.sequenceNumber && Takes(b, p) ==>
                  c.index[s] != NONE && c.storage[c.index[s]] == EMPTY_ITEM.(packet := Some(p)))
            && (c.index[s] != NONE && !(s == p.sequenceNumber && Takes(b, p)) ==>
                  b.index[s] != NONE && c.storage[c.index[s]] == b.storage[b.index[s]])
  {
    StoreKeepsValid(b, p);
  }

  lemma StoreIsRecorded(b: Buffer, h: History, p: Packet, clock: nat)
    requires Recorded(b, h, clock) && |b.storage| >= 2
    ensures Valid(Store(b, p)) && Recorded(Store(b, p), WithStored(h, b, p), clock)
  {
    hide Store, Takes;
    StoreKeepsItems(b, p, p.sequenceNumber);
    forall s: u16
      ensures Agrees(Store(b, p), WithStored(h, b, p), s, clock)
    {
      assert Agrees(b, h, s, clock);
      StoreKeepsItems(b, p, s);
    }
  }

  lemma ProbeIsRecorded(b: Buffer, h: History, params: Params, s: u16, clock: nat)
    requires Recorded(b, h, clock)
    ensures Valid(Probation(b, params, s)) && Recorded(Probation(b, params, s), h, clock)
  {
    if b.index[s] != NONE {
      EncodeSlotKeepsValid(b, params, s);
    }
    forall t: u16
      ensures Agrees(Probation(b, params, s), h, t, clock)
    {
      assert Agrees(b, h, t, clock);
      if t != s && b.index[s] != NONE {
        OtherItem(b, s, t);
      }
    }
  }

  // ----- Whole runs

  /** What the clock showed last. */
  function Clock(events: seq<Event>): nat
    decreases |events|
  {
    if events == [] then 0
    else
      match events[|events| - 1]
      case Nack(_, m) => m.now
      case _ => Clock(events[..|events| - 1])
  }

  /** The clock does not go back, and never shows 0. */
  predicate ClockAscends(events: seq<Event>)
    decreases |events|
  {
    events == [] ||
    var before := events[..|events| - 1];
    ClockAscends(before) && Clock(before) <= Clock(events) && (events[|events| - 1].Nack? ==> 0 < Clock(events))
  }

  /** Over any run, two resends of the same stored packet are more than an RTT apart. */
  lemma {:induction false} ResendsAreApart(capacity: nat, rtxSeq: u16, params: Params, events: seq<Event>)
    requires capacity >= 2 && params.clockRate > 0 && ClockAscends(events)
    ensures var b := Empty(capacity, rtxSeq);
            Recorded(Run(b, params, events), HistoryOf(b, params, events), Clock(events))
    decreases |events|
  {
    hide Recorded, Store, Probation, WithStored, ReceiveNack, WithNack, Empty;
    var b := Empty(capacity, rtxSeq);
    if events == [] {
      EmptyIsRecorded(capacity, rtxSeq);
    } else {
      var before, e := events[..|events| - 1], events[|events| - 1];
      ResendsAreApart(capacity, rtxSeq, params, before);
      var c, h := Run(b, params, before), HistoryOf(b, params, before);
      match e
      case Send(p, _) => StoreIsRecorded(c, h, p, Clock(before));
      case Nack(items, m) => NackIsRecorded(c, h, params, m, items, Clock(before));
      case Probe(s) => ProbeIsRecorded(c, h, params, s, Clock(before));
      case Pause => EmptyIsRecorded(|c.storage|, c.rtxSeq);
    }
  }

  lemma EmptyIsRecorded(capacity: nat, rtxSeq: u16)
    ensures forall clock: nat :: Recorded(Empty(capacity, rtxSeq), map[], clock)
  {
  }

  // ----- What a NACK gets

  const MOD32 := 0x1_0000_0000

  lemma {:induction false} SelectIff(b: Buffer, params: Params, m: Moment, numbers: seq<u16>, s: u16)
    requires params.clockRate > 0
    ensures s in Select(b, params, m, numbers) <==> s in numbers && Resendable(b, params, m, s)
  {
    hide Resendable, Valid;
    if numbers != [] {
      SelectIff(b, params, m, numbers[1..], s);
    }
  }

  /** Unwrapped timestamps less than 2^32 / 1000 apart give the age. */
  lemma AgeOfUnwrapped(params: Params, m: Moment, p: Packet, sent: int, highest: int)
    requires params.clockRate > 0 && p.timestamp == sent % MOD32 && m.maxPacketTs == highest % MOD32
    requires 0 <= highest - sent && (highest - sent) * 1000 < MOD32
    ensures AgeMs(params, m, p) == (highest - sent) * 1000 / params.clockRate
  {
    DifferenceOfUnwrapped(sent, highest);
    assert ((highest - sent) * 1000) % MOD32 == (highest - sent) * 1000;
  }

  lemma DifferenceOfUnwrapped(x: int, y: int)
    requires 0 <= y - x < MOD32
    ensures (y % MOD32 - x % MOD32) % MOD32 == y - x
  {
  }

  /** A requested number is resent if and only if it is held, its packet is at most 2000 ms older than the highest
      timestamp, and NACKs have not made it leave in the last RTT. The timestamps are unwrapped. */
  lemma ResentIff(b: Buffer, h: History, clock: nat, params: Params, m: Moment, item: Item, s: u16, sent: int, highest: int)
    requires Recorded(b, h, clock) && params.clockRate > 0 && 0 < m.now && clock <= m.now && s in Requested(item)
    requires b.index[s] != NONE ==> b.storage[b.index[s]].packet.value.timestamp == sent % MOD32
    requires m.maxPacketTs == highest % MOD32 && 0 <= highest - sent && (highest - sent) * 1000 < MOD32
    ensures s in Fill(b, params, m, Requested(item)).1 <==>
            && s in h
            && (highest - sent) * 1000 / params.clockRate <= 2000
            && (h[s] != [] ==> h[s][|h[s]| - 1].time + m.rtt < m.now)
  {
    hide AgeMs, Requested, Select, Fill;
    RequestedAllDifferent(item);
    FillResends(b, params, m, Requested(item), s);
    SelectIff(b, params, m, Requested(item), s);
    assert Agrees(b, h, s, clock);
    if b.index[s] != NONE {
      AgeOfUnwrapped(params, m, b.storage[b.index[s]].packet.value, sent, highest);
    }
  }

  /** The packet numbered `s` among the last `n` has the timestamp that unwraps to `sent`. */
  predicate WasSentAt(ps: seq<Packet>, n: nat, s: u16, sent: int)
  {
    forall j :: 0 <= j < |ps| && |ps| - n <= j && ps[j].sequenceNumber == s ==> ps[j].timestamp == sent % MOD32
  }

  lemma HeldTimestamp(b: Buffer, params: Params, ps: seq<Packet>, s: u16, sent: int)
    requires Window(b, params, ps) && b.index[s] != NONE
    requires WasSentAt(ps, |b.storage|, s, sent)
    ensures b.storage[b.index[s]].packet.value.timestamp == sent % MOD32
  {
    var j :| |ps| - b.size <= j < |ps| && 0 <= j && ps[j].sequenceNumber == s;
    assert HoldsPacket(b, params, ps[j]);
  }

  lemma HeldIffSent(b: Buffer, params: Params, ps: seq<Packet>, s: u16)
    requires Window(b, params, ps)
    ensures b.index[s] != NONE <==> InLast(ps, |b.storage|, s)
  {
    hide Valid;
    if j :| |ps| - |b.storage| <= j < |ps| && 0 <= j && ps[j].sequenceNumber == s {
      assert HoldsPacket(b, params, ps[j]);
    }
  }

  /** After any run, a NACK item gets exactly the requested packets that are among the last `capacity` ones sent since the
      last pause, at most 2000 ms old, and not resent in the last RTT. */
  lemma NackAnswerIff(capacity: nat, rtxSeq: u16, params: Params, events: seq<Event>, m: Moment, item: Item, s: u16,
                      sent: int, highest: int)
    requires capacity >= 2 && params.clockRate > 0 && SpacedThroughout(events, capacity) && ClockAscends(events)
    requires 0 < m.now && Clock(events) <= m.now && s in Requested(item)
    requires WasSentAt(SentSincePause(events), capacity, s, sent)
    requires m.maxPacketTs == highest % MOD32 && 0 <= highest - sent && (highest - sent) * 1000 < MOD32
    ensures var b := Empty(capacity, rtxSeq);
            var h := HistoryOf(b, params, events);
            s in Fill(Run(b, params, events), params, m, Requested(item)).1 <==>
            && InLast(SentSincePause(events), capacity, s)
            && (highest - sent) * 1000 / params.clockRate <= 2000
            && (s in h && h[s] != [] ==> h[s][|h[s]| - 1].time + m.rtt < m.now)
  {
    hide Run, HistoryOf, Empty, Fill, Window, Recorded, Clock, ClockAscends, SpacedThroughout, InLast, WasSentAt;
    CapacityOf(capacity, rtxSeq);
    var b, ps := Empty(capacity, rtxSeq), SentSincePause(events);
    var c, h := Run(b, params, events), HistoryOf(b, params, events);
    SlidingWindow(capacity, rtxSeq, params, events);
    ResendsAreApart(capacity, rtxSeq, params, events);
    HeldIffSent(c, params, ps, s);
    HistoryKnows(c, h, Clock(events), s);
    if c.index[s] != NONE {
      HeldTimestamp(c, params, ps, s, sent);
    }
    ResentIff(c, h, Clock(events), params, m, item, s, sent, highest);
  }

  lemma CapacityOf(capacity: nat, rtxSeq: u16)
    ensures |Empty(capacity, rtxSeq).storage| == capacity
  {
  }

  lemma HistoryKnows(b: Buffer, h: History, clock: nat, s: u16)
    requires Recorded(b, h, clock)
    ensures s in h <==> b.index[s] != NONE
  {
    assert Agrees(b, h, s, clock);
  }
}
