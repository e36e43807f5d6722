/** What the retransmission buffer guarantees over whole runs. */
module SendBufferLemmas {
  import opened Seq16
  import opened Bytes
  import opened RtpPackets
  import opened NackPacking
  import opened SendBuffers

  // ----- What an item stands for

  /** The item holds packet `p`, as it was stored or as RTX encodes it under some RTX sequence number. */
  predicate Represents(params: Params, item: StorageItem, p: Packet)
  {
    && item.packet.Some?
    && (item.rtxEncoded ==> HasRtx(params))
    && item.packet.value ==
       if item.rtxEncoded then RtxEncode(p, params.rtxPayloadType, params.rtxSsrc, item.packet.value.sequenceNumber)
       else p
  }

  /** The packet that an answer to a NACK for `p` may carry. */
  predicate Carries(params: Params, sent: Packet, p: Packet)
  {
    if HasRtx(params) then
      && sent.payloadType == params.rtxPayloadType % 128 && sent.ssrc == params.rtxSsrc
      && RtxDecode(sent, p.payloadType, p.ssrc) == Some(WithoutPadding(p))
    else sent == p
  }

  lemma EncodedRepresents(params: Params, item: StorageItem, p: Packet, rtxSeq: u16)
    requires Represents(params, item, p) && HasRtx(params)
    ensures var e := Encoded(item, params, rtxSeq);
            && Represents(params, e, p) && e.packet.value.sequenceNumber == rtxSeq
            && RtxDecode(e.packet.value, p.payloadType, p.ssrc) == Some(WithoutPadding(p))
  {
    RtxRoundTrip(p, params.rtxPayloadType, params.rtxSsrc, item.packet.value.sequenceNumber, rtxSeq);
  }

  // ----- The sliding window

  /** The packets have strictly increasing unwrapped sequence numbers `us`, and any capacity + 1 consecutive ones
      span less than a cycle. */
  predicate Spaced(ps: seq<Packet>, us: seq<int>, capacity: nat)
  {
    && |ps| == |us|
    && (forall i :: 0 <= i < |ps| ==> ps[i].sequenceNumber == Wrap(us[i]))
    && (forall i, j :: 0 <= i < j < |us| ==> us[i] < us[j] && (j - i <= capacity ==> us[j] - us[i] < MOD))
  }

  /** The same in circular terms: neighbours within the capacity are ahead of each other in list order. */
  predicate InOrder(ps: seq<Packet>, capacity: nat)
  {
    forall i, j, k {:trigger Nearer(ps[i], ps[j], ps[k])} ::
      0 <= i < j < k < |ps| && k - i <= capacity ==> Nearer(ps[i], ps[j], ps[k])
  }

  /** Going round from `from`, `p` comes strictly before `q`. */
  predicate Nearer(from: Packet, p: Packet, q: Packet)
  {
    Ahead(p.sequenceNumber, from.sequenceNumber) < Ahead(q.sequenceNumber, from.sequenceNumber)
  }

  predicate Distinct(ps: seq<Packet>, capacity: nat)
  {
    forall i, j :: 0 <= i < j < |ps| && j - i <= capacity ==> ps[i].sequenceNumber != ps[j].sequenceNumber
  }

  lemma SpacedIsInOrder(ps: seq<Packet>, us: seq<int>, capacity: nat)
    requires Spaced(ps, us, capacity)
    ensures InOrder(ps, capacity) && Distinct(ps, capacity)
  {
    forall i, j | 0 <= i < j < |ps| && j - i <= capacity
      ensures Ahead(ps[j].sequenceNumber, ps[i].sequenceNumber) == us[j] - us[i] > 0
      ensures ps[i].sequenceNumber != ps[j].sequenceNumber
    {
      AheadOfUnwrapped(us[j], us[i]);
    }
    forall i, j, k | 0 <= i < j < k < |ps| && k - i <= capacity
      ensures Nearer(ps[i], ps[j], ps[k])
    {
      assert us[j] - us[i] < us[k] - us[i];
    }
  }

  /** The buffer holds exactly the last `size` packets of `ps`. */
  ghost predicate Window(b: Buffer, params: Params, ps: seq<Packet>)
  {
    && b.size == (if |ps| < |b.storage| then |ps| else |b.storage|)
    && (forall i :: |ps| - b.size <= i < |ps| ==> HoldsPacket(b, params, ps[i]))
    && (forall s :: 0 <= s < MOD && b.index[s] != NONE ==> InLast(ps, b.size, s))
    && (b.size > 0 ==> b.startIdx == ps[|ps| - b.size].sequenceNumber)
  }

  predicate HoldsPacket(b: Buffer, params: Params, p: Packet)
  {
    b.index[p.sequenceNumber] != NONE && Represents(params, b.storage[b.index[p.sequenceNumber]], p)
  }

  ghost predicate InLast(ps: seq<Packet>, n: nat, s: u16)
  {
    exists i :: |ps| - n <= i < |ps| && 0 <= i && ps[i].sequenceNumber == s
  }

  /** A new packet never falls on an occupied slot. */
  lemma NewSlotIsFree(b: Buffer, params: Params, ps: seq<Packet>, p: Packet)
    requires Window(b, params, ps) && Distinct(ps + [p], |b.storage|)
    ensures b.index[p.sequenceNumber] == NONE
  {
    var all := ps + [p];
    assert all[|ps|] == p;
    assert forall i :: 0 <= i < |ps| ==> all[i] == ps[i];
  }

  /** Freeing the oldest slot of a full buffer, the circular scan lands on the next oldest. */
  lemma NextOldest(b: Buffer, params: Params, ps: seq<Packet>)
    requires Window(b, params, ps) && InOrder(ps, |b.storage|) && Distinct(ps, |b.storage|)
    requires 2 <= b.size == |b.storage|
    ensures UpdateStart(b.index[b.startIdx := NONE], b.startIdx) == ps[|ps| - b.size + 1].sequenceNumber
  {
    hide Represents, UpdateStart;
    var lo := |ps| - b.size;
    var index := b.index[b.startIdx := NONE];
    var second := ps[lo + 1].sequenceNumber;
    assert HoldsPacket(b, params, ps[lo + 1]);
    assert ps[lo].sequenceNumber != second;
    var r := UpdateStart(index, b.startIdx);
    UpdateStartIsFirst(index, b.startIdx, second);
    assert b.index[r] != NONE;
    var i :| lo <= i < |ps| && 0 <= i && ps[i].sequenceNumber == r;
    assert i > lo + 1 ==> Nearer(ps[lo], ps[lo + 1], ps[i]);
  }

  lemma WindowGrows(b: Buffer, params: Params, ps: seq<Packet>, p: Packet)
    requires Window(b, params, ps) && Distinct(ps + [p], |b.storage|)
    requires Size(p) <= MTU_SIZE && b.size < |b.storage|
    ensures Valid(Store(b, p)) && Window(Store(b, p), params, ps + [p])
  {
    NewSlotIsFree(b, params, ps, p);
    AddKeepsValid(b, p);
    var c := Store(b, p);
    var all := ps + [p];
    assert HoldsPacket(c, params, p);
    forall i | 0 <= i < |ps|
      ensures HoldsPacket(c, params, all[i])
    {
      assert all[i] == ps[i] && HoldsPacket(b, params, ps[i]);
    }
    forall s | 0 <= s < MOD && c.index[s] != NONE
      ensures InLast(all, c.size, s)
    {
      if s == p.sequenceNumber {
        assert all[|ps|].sequenceNumber == s;
      } else {
        var i :| |ps| - b.size <= i < |ps| && 0 <= i && ps[i].sequenceNumber == s;
        assert all[i].sequenceNumber == s;
      }
    }
  }

  /** A store into a full buffer takes the item of the start slot, and leaves the others alone. */
  lemma FullStore(b: Buffer, p: Packet)
    requires Size(p) <= MTU_SIZE && 2 <= b.size == |b.storage| && b.index[p.sequenceNumber] == NONE
    ensures CanStore(b, p)
    ensures var c, s := Store(b, p), p.sequenceNumber;
            && Valid(c) && c.size == b.size && |c.storage| == |b.storage|
            && c.startIdx == UpdateStart(b.index[b.startIdx := NONE], b.startIdx)
            && c.index == b.index[b.startIdx := NONE][s := b.index[b.startIdx]]
            && c.index[s] != NONE
            && c.storage == b.storage[b.index[b.startIdx] := EMPTY_ITEM.(packet := Some(p))]
  {
    StoreKeepsValid(b, p);
  }

  lemma FreshHolds(b: Buffer, params: Params, p: Packet)
    requires b.index[p.sequenceNumber] != NONE
    requires b.storage[b.index[p.sequenceNumber]] == EMPTY_ITEM.(packet := Some(p))
    ensures HoldsPacket(b, params, p)
  {
  }

  lemma WindowSlides(b: Buffer, params: Params, ps: seq<Packet>, p: Packet)
    requires Window(b, params, ps) && InOrder(ps + [p], |b.storage|) && Distinct(ps + [p], |b.storage|)
    requires Size(p) <= MTU_SIZE && 2 <= b.size == |b.storage|
    ensures CanStore(b, p) && Valid(Store(b, p)) && Window(Store(b, p), params, ps + [p])
  {
    hide Store, Represents, UpdateStart, CanStore;
    var all := ps + [p];
    var lo := |ps| - b.size;
    InOrderPrefix(ps, p, |b.storage|);
    NewSlotIsFree(b, params, ps, p);
    NextOldest(b, params, ps);
    FullStore(b, p);
    var c := Store(b, p);
    FreshHolds(c, params, p);
    forall i | lo + 1 <= i < |ps|
      ensures HoldsPacket(c, params, all[i])
    {
      assert all[i] == ps[i] && all[lo] == ps[lo] && HoldsPacket(b, params, ps[i]);
      assert ps[i].sequenceNumber != ps[lo].sequenceNumber;
      OtherItem(b, ps[i].sequenceNumber, b.startIdx);
    }
    forall s | 0 <= s < MOD && c.index[s] != NONE
      ensures InLast(all, c.size, s)
    {
      if s == p.sequenceNumber {
        assert all[|ps|].sequenceNumber == s;
      } else {
        var i :| lo <= i < |ps| && 0 <= i && ps[i].sequenceNumber == s;
        assert all[i].sequenceNumber == s && i != lo;
      }
    }
  }

  lemma InOrderPrefix(ps: seq<Packet>, p: Packet, capacity: nat)
    requires InOrder(ps + [p], capacity) && Distinct(ps + [p], capacity)
    ensures InOrder(ps, capacity) && Distinct(ps, capacity)
  {
    var all := ps + [p];
    assert forall i :: 0 <= i < |ps| ==> all[i] == ps[i];
    forall i, j, k | 0 <= i < j < k < |ps| && k - i <= capacity
      ensures Nearer(ps[i], ps[j], ps[k])
    {
      assert Nearer(all[i], all[j], all[k]);
    }
  }

  lemma OtherItem(b: Buffer, s: u16, t: u16)
    requires s != t && b.index[s] != NONE
    ensures b.index[s] != b.index[t]
  {
  }

  // ----- Retransmissions

  /** What goes out for number `s`, read from the pool after the container was filled. */
  function SentFor(b: Buffer, s: u16): Packet
    requires Shape(b) && b.index[s] != NONE
  {
    b.storage[b.index[s]].packet.value
  }

  lemma ResendSlot(b: Buffer, params: Params, m: Moment, s: u16, t: u16)
    requires b.index[s] != NONE
    ensures var c := Resend(b, params, m, s);
            && Valid(c) && c.index == b.index && c.size == b.size && c.startIdx == b.startIdx
            && |c.storage| == |b.storage|
            && c.rtxSeq == (if HasRtx(params) then Next(b.rtxSeq) else b.rtxSeq)
            && (t != s && b.index[t] != NONE ==> c.storage[b.index[t]] == b.storage[b.index[t]])
            && (HasRtx(params) ==> SentFor(c, s).sequenceNumber == c.rtxSeq)
  {
    ResendKeepsValid(b, params, m, s);
    if t != s {
      OtherItem(b, s, t);
    }
  }

  lemma ResendKeepsPacket(b: Buffer, params: Params, m: Moment, s: u16, p: Packet)
    requires b.index[s] != NONE && HoldsPacket(b, params, p)
    ensures var c := Resend(b, params, m, s);
            Valid(c) && HoldsPacket(c, params, p) && (p.sequenceNumber == s ==> Carries(params, SentFor(c, s), p))
  {
    ResendSlot(b, params, m, s, p.sequenceNumber);
    if p.sequenceNumber == s && HasRtx(params) {
      EncodedRepresents(params, b.storage[b.index[s]], p, Next(b.rtxSeq));
    }
  }

  /** The numbers a NACK item makes the sender resend: those resendable when it arrives. */
  function Select(b: Buffer, params: Params, m: Moment, numbers: seq<u16>): seq<u16>
    requires Shape(b) && params.clockRate > 0
  {
    if numbers == [] then []
    else (if Resendable(b, params, m, numbers[0]) then [numbers[0]] else []) + Select(b, params, m, numbers[1..])
  }

  predicate AllDifferent(numbers: seq<u16>)
  {
    forall i, j :: 0 <= i < j < |numbers| ==> numbers[i] != numbers[j]
  }

  lemma {:induction false} SelectIgnoresOtherSlot(b: Buffer, params: Params, m: Moment, s: u16, numbers: seq<u16>)
    requires params.clockRate > 0 && b.index[s] != NONE && s !in numbers
    ensures Valid(Resend(b, params, m, s))
    ensures Select(Resend(b, params, m, s), params, m, numbers) == Select(b, params, m, numbers)
  {
    ResendKeepsValid(b, params, m, s);
    if numbers != [] {
      ResendSlot(b, params, m, s, numbers[0]);
      SelectIgnoresOtherSlot(b, params, m, s, numbers[1..]);
    }
  }

  /** Fill, one number at a time. */
  lemma FillUnfolds(b: Buffer, params: Params, m: Moment, numbers: seq<u16>)
    requires params.clockRate > 0
    ensures numbers == [] ==> Fill(b, params, m, numbers) == (b, [])
    ensures numbers != [] && !Resendable(b, params, m, numbers[0]) ==>
              Fill(b, params, m, numbers) == Fill(b, params, m, numbers[1..])
    ensures numbers != [] && Resendable(b, params, m, numbers[0]) ==>
              && Valid(Resend(b, params, m, numbers[0]))
              && var (c, resent) := Fill(Resend(b, params, m, numbers[0]), params, m, numbers[1..]);
                 Fill(b, params, m, numbers) == (c, [numbers[0]] + resent)
  {
    if numbers != [] && Resendable(b, params, m, numbers[0]) {
      ResendKeepsValid(b, params, m, numbers[0]);
    }
  }

  lemma OccupiedIfResendable(b: Buffer, params: Params, m: Moment, s: u16)
    requires params.clockRate > 0 && Resendable(b, params, m, s)
    ensures b.index[s] != NONE
  {
  }

  /** Filling the container for different numbers resends exactly the selected ones, in order, and leaves all
      other slots alone. */
  lemma {:induction false} FillResends(b: Buffer, params: Params, m: Moment, numbers: seq<u16>, t: u16)
    requires params.clockRate > 0 && AllDifferent(numbers)
    ensures var (c, resent) := Fill(b, params, m, numbers);
            && resent == Select(b, params, m, numbers)
            && c.startIdx == b.startIdx
            && (t !in numbers && b.index[t] != NONE ==> c.storage[b.index[t]] == b.storage[b.index[t]])
    decreases |numbers|
  {
    if numbers != [] {
      var s, rest := numbers[0], numbers[1..];
      if Resendable(b, params, m, s) {
        ResendSlot(b, params, m, s, t);
        SelectIgnoresOtherSlot(b, params, m, s, rest);
        FillResends(Resend(b, params, m, s), params, m, rest, t);
      } else {
        FillResends(b, params, m, rest, t);
      }
    }
  }

  lemma {:induction false} FillCountsRtx(b: Buffer, params: Params, m: Moment, numbers: seq<u16>)
    requires params.clockRate > 0 && HasRtx(params)
    ensures var (c, resent) := Fill(b, params, m, numbers); c.rtxSeq == Plus(b.rtxSeq, |resent|)
    decreases |numbers|
  {
    if numbers != [] {
      var s, rest := numbers[0], numbers[1..];
      if Resendable(b, params, m, s) {
        var d := Resend(b, params, m, s);
        ResendSlot(b, params, m, s, s);
        FillCountsRtx(d, params, m, rest);
      } else {
        FillCountsRtx(b, params, m, rest);
      }
    }
  }

  lemma FillFirst(b: Buffer, params: Params, m: Moment, numbers: seq<u16>)
    requires params.clockRate > 0 && AllDifferent(numbers) && HasRtx(params)
    requires numbers != [] && Resendable(b, params, m, numbers[0])
    ensures var (c, resent) := Fill(b, params, m, numbers);
            resent != [] && resent[0] == numbers[0] && SentFor(c, resent[0]).sequenceNumber == Next(b.rtxSeq)
  {
    ResendSlot(b, params, m, numbers[0], numbers[0]);
    FillResends(Resend(b, params, m, numbers[0]), params, m, numbers[1..], numbers[0]);
  }

  /** The RTX sequence number the i-th resent packet leaves under. */
  function RtxNumberOf(b: Buffer, params: Params, m: Moment, numbers: seq<u16>, i: nat): u16
    requires params.clockRate > 0
    requires i < |Fill(b, params, m, numbers).1|
  {
    var (c, resent) := Fill(b, params, m, numbers);
    SentFor(c, resent[i]).sequenceNumber
  }

  /** The resent packets leave under consecutive RTX sequence numbers. */
  lemma {:induction false} FillNumbersRtx(b: Buffer, params: Params, m: Moment, numbers: seq<u16>, i: nat)
    requires params.clockRate > 0 && AllDifferent(numbers) && HasRtx(params)
    requires i < |Fill(b, params, m, numbers).1|
    ensures RtxNumberOf(b, params, m, numbers, i) == Plus(b.rtxSeq, i + 1)
    decreases |numbers|
  {
    hide Fill, Resend, Resendable;
    FillUnfolds(b, params, m, numbers);
    if !Resendable(b, params, m, numbers[0]) {
      FillNumbersRtx(b, params, m, numbers[1..], i);
    } else if i == 0 {
      FillFirst(b, params, m, numbers);
    } else {
      var d := Resend(b, params, m, numbers[0]);
      OccupiedIfResendable(b, params, m, numbers[0]);
      ResendSlot(b, params, m, numbers[0], numbers[0]);
      FillNumbersRtx(d, params, m, numbers[1..], i - 1);
    }
  }

  /** A packet the buffer holds stays held, and if its number is resent, an encoding of it is what goes out. */
  lemma {:induction false} FillKeepsPacket(b: Buffer, params: Params, m: Moment, numbers: seq<u16>, p: Packet)
    requires params.clockRate > 0 && AllDifferent(numbers) && HoldsPacket(b, params, p)
    ensures var (c, resent) := Fill(b, params, m, numbers);
            && HoldsPacket(c, params, p)
            && (p.sequenceNumber in resent ==> Carries(params, SentFor(c, p.sequenceNumber), p))
    decreases |numbers|
  {
    hide Fill, Resend, Resendable, Carries, HoldsPacket;
    FillUnfolds(b, params, m, numbers);
    if numbers != [] {
      var s, rest := numbers[0], numbers[1..];
      if Resendable(b, params, m, s) {
        OccupiedIfResendable(b, params, m, s);
        var d := Resend(b, params, m, s);
        ResendKeepsPacket(b, params, m, s, p);
        FillKeepsPacket(d, params, m, rest, p);
        FillResends(d, params, m, rest, s);
      } else {
        FillKeepsPacket(b, params, m, rest, p);
      }
    }
  }
}
