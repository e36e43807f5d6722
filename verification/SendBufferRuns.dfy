/** Runs of the retransmission buffer: packets sent, NACKs, probation requests and pauses in any order. */
module SendBufferRuns {
  import opened Seq16
  import opened Bytes
  import opened RtpPackets
  import opened NackPacking
  import opened SendBuffers
  import opened SendBufferLemmas

  /** `position` is the unwrapped sequence number of the packet. */
  datatype Event =
    | Send(packet: Packet, position: int)
    | Nack(items: seq<Item>, moment: Moment)
    | Probe(seqNum: u16)
    | Pause

  /** The packets sent for the numbers in the container. */
  function Answers(c: Buffer, resent: seq<u16>): (r: seq<Packet>)
    requires forall s :: s in resent ==> c.index[s] != NONE
    ensures |r| == |resent|
  {
    seq(|resent|, i requires 0 <= i < |resent| => SentFor(c, resent[i]))
  }

  lemma AnswersGrow(c: Buffer, resent: seq<u16>)
    requires forall s :: s in resent ==> c.index[s] != NONE
    ensures Answers(c, resent[..0]) == [] && resent[..|resent|] == resent
    ensures forall i :: 0 <= i < |resent| ==>
      Answers(c, resent[..i + 1]) == Answers(c, resent[..i]) + [SentFor(c, resent[i])]
  {
    forall i | 0 <= i < |resent|
      ensures Answers(c, resent[..i + 1]) == Answers(c, resent[..i]) + [SentFor(c, resent[i])]
    {
      assert resent[..i + 1] == resent[..i] + [resent[i]];
    }
  }

  /** ReceiveNack: fills the container for each item, then sends what it holds. */
  function ReceiveNack(b: Buffer, params: Params, m: Moment, items: seq<Item>): (r: (Buffer, seq<Packet>))
    requires params.clockRate > 0
    ensures |r.0.storage| == |b.storage|
    decreases |items|
  {
    if items == [] then (b, [])
    else
      var (c, resent) := Fill(b, params, m, Requested(items[0]));
      var r := ReceiveNack(c, params, m, items[1..]);
      (r.0, Answers(c, resent) + r.1)
  }

  lemma NackStep(b: Buffer, params: Params, m: Moment, done: seq<Packet>, items: seq<Item>)
    requires params.clockRate > 0 && items != []
    ensures var (c, resent) := Fill(b, params, m, Requested(items[0]));
            && ReceiveNack(b, params, m, items).0 == ReceiveNack(c, params, m, items[1..]).0
            && done + ReceiveNack(b, params, m, items).1
               == done + Answers(c, resent) + ReceiveNack(c, params, m, items[1..]).1
  {
    hide Valid, Fill, Answers;
    var (c, resent) := Fill(b, params, m, Requested(items[0]));
    var r := ReceiveNack(c, params, m, items[1..]);
    assert done + (Answers(c, resent) + r.1) == done + Answers(c, resent) + r.1;
  }

  lemma NackNothing(b: Buffer, params: Params, m: Moment, done: seq<Packet>)
    requires params.clockRate > 0
    ensures (ReceiveNack(b, params, m, []).0, done + ReceiveNack(b, params, m, []).1) == (b, done)
  {
    assert done + [] == done;
  }

  lemma ProbationKeepsValid(b: Buffer, params: Params, s: u16)
    ensures Valid(Probation(b, params, s)) && |Probation(b, params, s).storage| == |b.storage|
  {
    if b.index[s] != NONE {
      EncodeSlotKeepsValid(b, params, s);
    }
  }

  function Step(b: Buffer, params: Params, e: Event): (r: Buffer)
    requires |b.storage| >= 2 && params.clockRate > 0
    ensures |r.storage| == |b.storage|
  {
    match e
    case Send(p, _) => StoreKeepsValid(b, p); Store(b, p)
    case Nack(items, m) => ReceiveNack(b, params, m, items).0
    case Probe(s) => ProbationKeepsValid(b, params, s); Probation(b, params, s)
    case Pause => Empty(|b.storage|, b.rtxSeq)
  }

  function Run(b: Buffer, params: Params, events: seq<Event>): (r: Buffer)
    requires |b.storage| >= 2 && params.clockRate > 0
    ensures |r.storage| == |b.storage|
    decreases |events|
  {
    if events == [] then b
    else Step(Run(b, params, events[..|events| - 1]), params, events[|events| - 1])
  }

  /** The packets within the MTU that were sent since the last pause. */
  function SentSincePause(events: seq<Event>): seq<Packet>
    decreases |events|
  {
    if events == [] then []
    else
      var before := SentSincePause(events[..|events| - 1]);
      match events[|events| - 1]
      case Send(p, _) => if Size(p) <= MTU_SIZE then before + [p] else before
      case Nack(_, _) => before
      case Probe(_) => before
      case Pause => []
  }

  function PositionsSincePause(events: seq<Event>): seq<int>
    decreases |events|
  {
    if events == [] then []
    else
      var before := PositionsSincePause(events[..|events| - 1]);
      match events[|events| - 1]
      case Send(p, u) => if Size(p) <= MTU_SIZE then before + [u] else before
      case Nack(_, _) => before
      case Probe(_) => before
      case Pause => []
  }

  /** A step that only touches pool items, each of which goes on standing for its packet, keeps the window. */
  lemma WindowKept(b: Buffer, c: Buffer, params: Params, ps: seq<Packet>)
    requires Window(b, params, ps)
    requires c.index == b.index && c.size == b.size && c.startIdx == b.startIdx && |c.storage| == |b.storage|
    requires forall p :: HoldsPacket(b, params, p) ==> HoldsPacket(c, params, p)
    ensures Window(c, params, ps)
  {
  }

  lemma RequestedAllDifferent(item: Item)
    ensures AllDifferent(Requested(item))
  {
    RequestedIsSmallAndDistinct(item);
  }

  lemma {:induction false} NackKeepsWindow(b: Buffer, params: Params, m: Moment, items: seq<Item>, ps: seq<Packet>)
    requires params.clockRate > 0 && Window(b, params, ps)
    ensures Window(ReceiveNack(b, params, m, items).0, params, ps)
    decreases |items|
  {
    if items != [] {
      var numbers := Requested(items[0]);
      var c := Fill(b, params, m, numbers).0;
      RequestedAllDifferent(items[0]);
      FillResends(b, params, m, numbers, 0);
      forall p | HoldsPacket(b, params, p)
        ensures HoldsPacket(c, params, p)
      {
        FillKeepsPacket(b, params, m, numbers, p);
      }
      WindowKept(b, c, params, ps);
      NackKeepsWindow(c, params, m, items[1..], ps);
    }
  }

  lemma ProbeKeepsWindow(b: Buffer, params: Params, s: u16, ps: seq<Packet>)
    requires b.index[s] != NONE && Window(b, params, ps)
    ensures Valid(Probation(b, params, s)) && Window(Probation(b, params, s), params, ps)
  {
    EncodeSlotKeepsValid(b, params, s);
    var c := Probation(b, params, s);
    forall p | HoldsPacket(b, params, p)
      ensures HoldsPacket(c, params, p)
    {
      if p.sequenceNumber == s {
        if HasRtx(params) {
          EncodedRepresents(params, b.storage[b.index[s]], p, c.rtxSeq);
        }
      } else {
        OtherItem(b, s, p.sequenceNumber);
      }
    }
    WindowKept(b, c, params, ps);
  }

  lemma SendKeepsWindow(b: Buffer, params: Params, ps: seq<Packet>, p: Packet)
    requires |b.storage| >= 2 && Size(p) <= MTU_SIZE
    requires Window(b, params, ps) && InOrder(ps + [p], |b.storage|) && Distinct(ps + [p], |b.storage|)
    ensures CanStore(b, p) && Valid(Store(b, p)) && Window(Store(b, p), params, ps + [p])
  {
    if b.size < |b.storage| {
      WindowGrows(b, params, ps, p);
    } else {
      WindowSlides(b, params, ps, p);
    }
  }

  lemma EmptyWindow(capacity: nat, rtxSeq: u16, params: Params)
    ensures Window(Empty(capacity, rtxSeq), params, [])
  {
  }

  predicate SpacedThroughout(events: seq<Event>, capacity: nat)
  {
    forall n :: 0 <= n <= |events| ==>
      Spaced(SentSincePause(events[..n]), PositionsSincePause(events[..n]), capacity)
  }

  /** After any run the buffer holds exactly the last min(n, capacity) of the n packets sent since the last pause,
      each as stored or RTX encoded, with the start index on the oldest of them. */
  lemma {:induction false} SlidingWindow(capacity: nat, rtxSeq: u16, params: Params, events: seq<Event>)
    requires capacity >= 2 && params.clockRate > 0 && SpacedThroughout(events, capacity)
    ensures Window(Run(Empty(capacity, rtxSeq), params, events), params, SentSincePause(events))
    decreases |events|
  {
    EmptyWindow(capacity, rtxSeq, params);
    if events != [] {
      var before, e := events[..|events| - 1], events[|events| - 1];
      assert forall n :: 0 <= n <= |before| ==> before[..n] == events[..n];
      assert events[..|events|] == events;
      SlidingWindow(capacity, rtxSeq, params, before);
      var b := Run(Empty(capacity, rtxSeq), params, before);
      var ps := SentSincePause(before);
      match e
      case Send(p, _) =>
        if Size(p) <= MTU_SIZE {
          SpacedIsInOrder(ps + [p], PositionsSincePause(events), capacity);
          SendKeepsWindow(b, params, ps, p);
        }
      case Nack(items, m) => NackKeepsWindow(b, params, m, items, ps);
      case Probe(s) =>
        if b.index[s] != NONE {
          ProbeKeepsWindow(b, params, s, ps);
        }
      case Pause => EmptyWindow(capacity, b.rtxSeq, params);
    }
  }

  /** What a NACK item gets out of a buffer that holds the last packets of `ps`: the requested numbers that are
      held, young enough and not just resent, in order; each answer carries the packet sent under that number, and
      with RTX the answers are numbered consecutively. */
  lemma NackAnswer(b: Buffer, params: Params, m: Moment, item: Item, ps: seq<Packet>, i: nat)
    requires params.clockRate > 0 && Window(b, params, ps)
    requires i < |Fill(b, params, m, Requested(item)).1|
    ensures var (c, resent) := Fill(b, params, m, Requested(item));
            && |resent| <= 17
            && resent == Select(b, params, m, Requested(item))
            && (exists j :: 0 <= j < |ps| && |ps| - b.size <= j && ps[j].sequenceNumber == resent[i] &&
                  Carries(params, SentFor(c, resent[i]), ps[j]))
            && (HasRtx(params) ==> SentFor(c, resent[i]).sequenceNumber == Plus(b.rtxSeq, i + 1))
  {
    var numbers := Requested(item);
    RequestedIsSmallAndDistinct(item);
    RequestedAllDifferent(item);
    FillResends(b, params, m, numbers, 0);
    var s := Fill(b, params, m, numbers).1[i];
    assert InLast(ps, b.size, s);
    var j :| |ps| - b.size <= j < |ps| && 0 <= j && ps[j].sequenceNumber == s;
    FillKeepsPacket(b, params, m, numbers, ps[j]);
    if HasRtx(params) {
      FillNumbersRtx(b, params, m, numbers, i);
    }
  }

  /** What leaves for a held packet: without RTX the packet as it was sent; with RTX (section 4 of RFC 4588) its original
      number in front of its payload, under the SSRC, payload type and numbers of the RTX stream, without padding. */
  predicate LeavesAs(params: Params, p: Packet, sent: Packet, rtxSeq: u16)
  {
    if params.rtxSsrc == 0 then sent == p
    else
      sent == Packet(p.marker, params.rtxPayloadType % 128, rtxSeq, p.timestamp, params.rtxSsrc, p.csrcs, p.extension,
                     [p.sequenceNumber / 256, p.sequenceNumber % 256] + p.payload, 0)
  }

  lemma CarriedIs(params: Params, item: StorageItem, p: Packet)
    requires Represents(params, item, p) && (HasRtx(params) ==> item.rtxEncoded)
    ensures LeavesAs(params, p, item.packet.value, item.packet.value.sequenceNumber)
  {
  }

  lemma {:induction false} FillEncodes(b: Buffer, params: Params, m: Moment, numbers: seq<u16>, s: u16)
    requires params.clockRate > 0 && HasRtx(params) && b.index[s] != NONE
    requires b.storage[b.index[s]].rtxEncoded || s in Fill(b, params, m, numbers).1
    ensures var c := Fill(b, params, m, numbers).0; c.storage[c.index[s]].rtxEncoded
    decreases |numbers|
  {
    hide Fill, Resendable, Resend;
    FillUnfolds(b, params, m, numbers);
    if numbers != [] {
      var t := numbers[0];
      if Resendable(b, params, m, t) {
        OccupiedIfResendable(b, params, m, t);
        ResendSlot(b, params, m, t, s);
        ResendEncodes(b, params, m, t);
        FillEncodes(Resend(b, params, m, t), params, m, numbers[1..], s);
      } else {
        FillEncodes(b, params, m, numbers[1..], s);
      }
    }
  }

  lemma ResendEncodes(b: Buffer, params: Params, m: Moment, s: u16)
    requires HasRtx(params) && b.index[s] != NONE
    ensures var c := Resend(b, params, m, s); c.storage[b.index[s]].rtxEncoded
  {
  }

  /** Each answer to a NACK item is the packet sent under its number, the i-th one under the i-th number after the last RTX
      number. */
  lemma AnswerIs(b: Buffer, params: Params, m: Moment, item: Item, ps: seq<Packet>, i: nat) returns (j: nat)
    requires params.clockRate > 0 && Window(b, params, ps)
    requires i < |Fill(b, params, m, Requested(item)).1|
    ensures var (c, resent) := Fill(b, params, m, Requested(item));
            && |ps| - b.size <= j < |ps| && ps[j].sequenceNumber == resent[i]
            && LeavesAs(params, ps[j], SentFor(c, resent[i]), Wrap(b.rtxSeq + i + 1))
  {
    hide Fill, Requested, Represents, Wrap, LeavesAs;
    var numbers := Requested(item);
    RequestedAllDifferent(item);
    FillResends(b, params, m, numbers, 0);
    var (c, resent) := Fill(b, params, m, numbers);
    var s := resent[i];
    assert InLast(ps, b.size, s);
    var k :| |ps| - b.size <= k < |ps| && 0 <= k && ps[k].sequenceNumber == s;
    j := k;
    assert HoldsPacket(b, params, ps[j]);
    FillKeepsPacket(b, params, m, numbers, ps[j]);
    if HasRtx(params) {
      FillEncodes(b, params, m, numbers, s);
      FillNumbersRtx(b, params, m, numbers, i);
      PlusIsSum(b.rtxSeq, i + 1);
    }
    CarriedIs(params, c.storage[c.index[s]], ps[j]);
    WithoutRtx(params, ps[j], SentFor(c, s), Wrap(b.rtxSeq + i + 1));
  }

  lemma WithoutRtx(params: Params, p: Packet, sent: Packet, rtxSeq: u16)
    requires LeavesAs(params, p, sent, sent.sequenceNumber) && (HasRtx(params) ==> sent.sequenceNumber == rtxSeq)
    ensures LeavesAs(params, p, sent, rtxSeq)
  {
  }

  /** A probation packet is the held packet too, under the next RTX number. */
  lemma ProbeIs(b: Buffer, params: Params, s: u16, ps: seq<Packet>) returns (j: nat)
    requires Window(b, params, ps) && b.index[s] != NONE
    ensures var c := Probation(b, params, s);
            && Valid(c) && c.index == b.index
            && |ps| - b.size <= j < |ps| && ps[j].sequenceNumber == s
            && LeavesAs(params, ps[j], SentFor(c, s), Next(b.rtxSeq))
  {
    EncodeSlotKeepsValid(b, params, s);
    var k :| |ps| - b.size <= k < |ps| && 0 <= k && ps[k].sequenceNumber == s;
    j := k;
    assert HoldsPacket(b, params, ps[j]);
    var c := Probation(b, params, s);
    if HasRtx(params) {
      EncodedRepresents(params, b.storage[b.index[s]], ps[j], c.rtxSeq);
    }
    CarriedIs(params, c.storage[c.index[s]], ps[j]);
  }

  /** A packet whose number is taken is ignored if it has the timestamp of the one that is held, and otherwise replaces it;
      if that was the oldest, the start moves on to the next one. */
  lemma StoreReplaces(b: Buffer, p: Packet, t: u16)
    requires |b.storage| >= 2 && Size(p) <= MTU_SIZE && b.index[p.sequenceNumber] != NONE
    ensures var k := b.index[p.sequenceNumber];
            var c := Store(b, p);
            if b.storage[k].packet.value.timestamp == p.timestamp then c == b
            else
              && c == b.(storage := b.storage[k := StorageItem(Some(p), 0, 0, false)], startIdx := c.startIdx)
              && (p.sequenceNumber != b.startIdx ==> c.startIdx == b.startIdx)
              && (p.sequenceNumber == b.startIdx ==> b.index[c.startIdx] != NONE)
              && (p.sequenceNumber == b.startIdx && b.index[t] != NONE && t != b.startIdx ==>
                    c.startIdx != b.startIdx && Ahead(c.startIdx, b.startIdx) <= Ahead(t, b.startIdx))
  {
    hide UpdateStart;
    UpdateStartIsFirst(b.index, b.startIdx, b.startIdx);
    if b.index[t] != NONE && t != b.startIdx {
      StartMovesOn(b.index, b.startIdx, t);
    }
  }

  /** With another occupied slot the scan does not come back to where it began. */
  lemma StartMovesOn(index: seq<int>, start: u16, t: u16)
    requires |index| == MOD && index[t] != NONE && t != start
    ensures var r := UpdateStart(index, start); r != start && Ahead(r, start) <= Ahead(t, start)
  {
    NextOccupiedIsFirst(index, Next(start), MOD, start, t);
    AheadOfNext(t, start);
    AheadOfNext(UpdateStart(index, start), start);
  }

  // ----- The smallest capacity that works

  /** No store of the list meets the assertion of ResetStorageItem. */
  predicate StoresSucceed(b: SendBuffer, ps: seq<Packet>)
    requires Shape(b) && |b.storage| > 0
    decreases |ps|
  {
    ps == [] ||
    (CanStore(b, ps[0]) &&
     var c := Store(b, ps[0]);
     Shape(c) && |c.storage| == |b.storage| && StoresSucceed(c, ps[1..]))
  }

  lemma {:induction false} ValidStoresSucceed(b: Buffer, ps: seq<Packet>)
    requires |b.storage| >= 2
    ensures StoresSucceed(b, ps)
    decreases |ps|
  {
    if ps != [] {
      StoreKeepsValid(b, ps[0]);
      ValidStoresSucceed(Store(b, ps[0]), ps[1..]);
    }
  }

  function Plain(s: u16): Packet
  {
    Packet(false, 0, s, 0, 0, [], None, [], 0)
  }

  lemma FirstSucceeds(b: SendBuffer, p: Packet, rest: seq<Packet>)
    requires Shape(b) && |b.storage| > 0
    ensures StoresSucceed(b, [p] + rest) ==>
              CanStore(b, p) && Shape(Store(b, p)) && |Store(b, p).storage| > 0 && StoresSucceed(Store(b, p), rest)
  {
    assert ([p] + rest)[1..] == rest;
  }

  /** A full pool of one item: its start index stays on the slot that a store frees. */
  lemma StartGoesStale(b: SendBuffer, p: Packet)
    requires Shape(b) && |b.storage| == 1 && Size(p) <= MTU_SIZE && p.sequenceNumber != b.startIdx && b.size == 1
    requires forall s :: 0 <= s < MOD ==> (b.index[s] != NONE <==> s == b.startIdx)
    ensures CanStore(b, p)
    ensures var c := Store(b, p);
            && c.startIdx == b.startIdx && c.size == 1 && |c.storage| == 1
            && |c.index| == MOD && forall s :: 0 <= s < MOD ==> (c.index[s] != NONE <==> s == p.sequenceNumber)
  {
    var index := b.index[b.startIdx := NONE];
    NoneOccupied(index, Next(b.startIdx), MOD, b.startIdx);
  }

  lemma StoresOne()
    ensures var b := Store(Empty(1, 0), Plain(1));
            && Shape(b) && |b.storage| == 1 && b.size == 1 && b.startIdx == 1
            && forall s :: 0 <= s < MOD ==> (b.index[s] != NONE <==> s == 1)
  {
  }

  lemma OneItemPoolFails()
    ensures !StoresSucceed(Empty(1, 0), [Plain(1), Plain(2), Plain(3)])
  {
    hide StoresSucceed, Store, Shape, Empty, Inverse;
    if StoresSucceed(Empty(1, 0), [Plain(1), Plain(2), Plain(3)]) {
      assert [Plain(1)] + [Plain(2), Plain(3)] == [Plain(1), Plain(2), Plain(3)];
      assert [Plain(2)] + [Plain(3)] == [Plain(2), Plain(3)] && [Plain(3)] + [] == [Plain(3)];
      StoresOne();
      FirstSucceeds(Empty(1, 0), Plain(1), [Plain(2), Plain(3)]);
      var b1 := Store(Empty(1, 0), Plain(1));
      StartGoesStale(b1, Plain(2));
      FirstSucceeds(b1, Plain(2), [Plain(3)]);
      FirstSucceeds(Store(b1, Plain(2)), Plain(3), []);
      assert false;
    }
  }

  lemma {:induction false} NoneOccupied(index: seq<int>, s: u16, left: nat, start: u16)
    requires |index| == MOD && forall t :: 0 <= t < MOD ==> index[t] == NONE
    ensures NextOccupied(index, s, left, start) == start
    decreases left
  {
    if left > 0 {
      NoneOccupied(index, Next(s), left - 1, start);
    }
  }

  /** A pool of one item is not enough: its start index goes stale. Any larger pool never fails. */
  lemma PoolNeedsTwoItems(capacity: nat)
    requires capacity > 0
    ensures (forall ps: seq<Packet> :: StoresSucceed(Empty(capacity, 0), ps)) <==> capacity >= 2
  {
    hide StoresSucceed, Empty;
    if capacity >= 2 {
      forall ps: seq<Packet>
        ensures StoresSucceed(Empty(capacity, 0), ps)
      {
        ValidStoresSucceed(Empty(capacity, 0), ps);
      }
    } else {
      OneItemPoolFails();
      assert !StoresSucceed(Empty(capacity, 0), [Plain(1), Plain(2), Plain(3)]);
    }
  }
}
