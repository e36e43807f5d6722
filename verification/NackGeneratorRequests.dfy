/** Which missing numbers are asked for: a gap at once, and again by the timer for as long as it takes. */
module NackListRequests {
  import opened Seq16
  import opened NackLists
  import opened NackListLemmas
  import opened NackListRuns
  import opened NackListHistory

  // ----- One batch

  /** A batch asks for the entries that the filter picks and that have a try left. */
  lemma {:induction false} BatchIff(list: seq<NackInfo>, filter: Filter, lastSeq: u16, rtt: nat, now: nat, k: u16)
    ensures k in GetNackBatch(list, filter, lastSeq, rtt, now).1 <==>
            exists x :: x in list && x.seqNum == k && Picks(filter, x, lastSeq, rtt, now) && x.retries + 1 < MAX_NACK_RETRIES
  {
    hide Picks;
    if list != [] {
      BatchIff(list[1..], filter, lastSeq, rtt, now, k);
      assert forall x :: x in list <==> x == list[0] || x in list[1..];
    }
  }

  predicate AllSent(list: seq<NackInfo>)
  {
    forall x :: x in list ==> x.sentAtTime > 0
  }

  /** New entries: not sent yet, and waiting for a number below `end`. */
  predicate AllNew(list: seq<NackInfo>, end: u16)
  {
    forall x :: x in list ==> x.sentAtTime == 0 && x.retries == 0 && Higher(end, x.sendAtSeq)
  }

  /** By sequence number exactly the new entries are asked for, and all of them. */
  lemma {:induction false} BySeqAsksForNew(old_: seq<NackInfo>, added: seq<NackInfo>, lastSeq: u16, rtt: nat, now: nat)
    requires AllSent(old_) && AllNew(added, lastSeq) && now > 0
    ensures var (left, batch, _) := GetNackBatch(old_ + added, BySeq, lastSeq, rtt, now);
            batch == Keys(added) && AllSent(left)
    decreases |old_| + |added|
  {
    hide Higher;
    var list := old_ + added;
    if old_ != [] {
      assert old_[0] in old_ && list[1..] == old_[1..] + added;
      BySeqAsksForNew(old_[1..], added, lastSeq, rtt, now);
    } else if added != [] {
      assert list == added && added[0] in added && list[1..] == [] + added[1..];
      BySeqAsksForNew([], added[1..], lastSeq, rtt, now);
      KeysConcat([added[0]], added[1..]);
      assert added == [added[0]] + added[1..] && Keys([added[0]]) == [added[0].seqNum];
    }
  }

  lemma {:induction false} TimerKeepsSent(list: seq<NackInfo>, lastSeq: u16, rtt: nat, now: nat)
    requires AllSent(list) && now > 0
    ensures AllSent(GetNackBatch(list, ByTime, lastSeq, rtt, now).0)
  {
    hide Picks;
    if list != [] {
      assert list[0] in list;
      TimerKeepsSent(list[1..], lastSeq, rtt, now);
    }
  }

  // ----- The gap

  lemma {:induction false} RangeIs(from: u16, end: u16)
    ensures |Range(from, end)| == Ahead(end, from)
    ensures forall i :: 0 <= i < |Range(from, end)| ==> Range(from, end)[i] == Wrap(from + i)
    decreases Ahead(end, from)
  {
    hide Wrap;
    if from == end {
    } else {
      RangeIs(Next(from), end);
      WrapOfSmall(from);
      forall i | 0 < i < |Range(from, end)| ensures Range(from, end)[i] == Wrap(from + i) {
        NextIsSum(from);
        WrapAdd(from + 1, i - 1);
      }
    }
  }

  lemma WrapOfSmall(x: u16)
    ensures Wrap(x) == x
  {
  }

  lemma {:induction false} AddedIsNew(list: seq<NackInfo>, start: u16, seqNum: u16) returns (added: seq<NackInfo>)
    requires Sorted(list, seqNum) && Ahead(seqNum, start) <= MAX_NACK_PACKETS
    requires forall i :: 0 <= i < |list| ==> Ahead(seqNum, list[i].seqNum) > Ahead(seqNum, start)
    ensures AddPackets(list, start, seqNum) == list + added && Keys(added) == Range(start, seqNum)
    ensures AllNew(added, seqNum)
    decreases Ahead(seqNum, start)
  {
    hide Emplace;
    added := [];
    if start != seqNum {
      var info := NackInfo(start, start, 0, 0);
      EmplaceAppends(list, info, seqNum);
      var rest := AddedIsNew(list + [info], Next(start), seqNum);
      KeysConcat([info], rest);
      assert list + [info] + rest == list + ([info] + rest);
      added := [info] + rest;
    }
  }

  lemma PruneKeepsSent(g: Generator, seqNum: u16, isKeyFrame: bool)
    requires AllSent(g.nackList)
    ensures AllSent(Prune(g, seqNum, isKeyFrame).nackList)
  {
    hide Prune;
    var n := PruneIsSuffix(g, seqNum, isKeyFrame);
  }

  /** A newer packet: unless the list overflows, what is asked for are the numbers in between, in order. */
  lemma NewerAsks(g: Generator, seqNum: u16, isKeyFrame: bool, now: nat, resets: bool)
    requires Valid(g) && AllSent(g.nackList) && g.started && now > 0
    requires seqNum != g.lastSeq && !Lower(seqNum, g.lastSeq)
    ensures var (h, e) := ReceiveNewer(g, seqNum, isKeyFrame, now, resets);
            && AllSent(h.nackList)
            && e.batch == e.inserted
            && e.batch == if e.keyFrameRequired then [] else Range(Next(g.lastSeq), seqNum)
  {
    hide Prune, Sorted, GetNackBatch, AddPackets, EntriesOk, Lower, Higher, AllSent, AllNew;
    NewerIsAhead(seqNum, g.lastSeq);
    PruneKeepsSent(g, seqNum, isKeyFrame);
    var pruned := Prune(g, seqNum, isKeyFrame);
    NoneIsSent();
    if seqNum as int == g.lastSeq + 1 {
      EmptyRange(seqNum);
    } else if |pruned.nackList| + Ahead(seqNum, Next(g.lastSeq)) <= MAX_NACK_PACKETS {
      PrunedIsValid(g, seqNum, isKeyFrame);
      AheadOfNext(seqNum, g.lastSeq);
      var added := AddedIsNew(pruned.nackList, Next(g.lastSeq), seqNum);
      BySeqAsksForNew(pruned.nackList, added, seqNum, g.rtt, now);
    }
  }

  lemma NoneIsSent()
    ensures AllSent([])
  {
  }

  lemma EmptyRange(x: u16)
    ensures Range(x, x) == []
  {
  }

  // ----- Every step

  lemma StepAsks(g: Generator, e: Event)
    requires Valid(g) && AllSent(g.nackList) && ClockRuns(e)
    ensures AllSent(Step(g, e).0.nackList)
    ensures e.Packet? ==> Step(g, e).1.batch == Step(g, e).1.inserted
  {
    hide ReceiveNewer, GetNackBatch, Valid, Lower;
    match e
    case Packet(seqNum, isKeyFrame, now, resets) =>
      if g.started && seqNum != g.lastSeq && !Lower(seqNum, g.lastSeq) {
        NewerAsks(g, seqNum, isKeyFrame, now, resets);
      }
    case Timer(now) => TimerKeepsSent(g.nackList, g.lastSeq, g.rtt, now);
    case ResetCall =>
  }

  // ----- Whole runs

  /** Whatever is listed was asked for when it was inserted. */
  lemma {:induction false} RunIsSent(events: seq<Event>)
    requires ClockRunsThroughout(events)
    ensures AllSent(Run(events).nackList)
    decreases |events|
  {
    hide Step, Valid;
    if events != [] {
      RunIsSent(events[..|events| - 1]);
      RunIsValid(events[..|events| - 1]);
      StepAsks(Run(events[..|events| - 1]), events[|events| - 1]);
    }
  }

  /** In every reachable state a packet makes the generator ask for exactly the numbers that it inserts, at once. */
  lemma GapIsAskedFor(events: seq<Event>, e: Event)
    requires ClockRunsThroughout(events) && ClockRuns(e) && e.Packet?
    ensures Step(Run(events), e).1.batch == Step(Run(events), e).1.inserted
  {
    hide Step, Run, Valid;
    RunIsSent(events);
    RunIsValid(events);
    StepAsks(Run(events), e);
  }

  /** These are the numbers between the highest one so far and the packet, unless the list overflows. */
  lemma GapIsBetween(events: seq<Event>, e: Event)
    requires ClockRunsThroughout(events) && ClockRuns(e) && e.Packet? && Run(events).started
    requires var d := Ahead(e.seqNum, Run(events).lastSeq); 1 <= d <= MAX / 2
    ensures var effect, lastSeq := Step(Run(events), e).1, Run(events).lastSeq;
            !effect.keyFrameRequired ==>
              && |effect.batch| == Ahead(e.seqNum, lastSeq) - 1
              && forall i :: 0 <= i < |effect.batch| ==> effect.batch[i] == Wrap(lastSeq + 1 + i)
  {
    hide Run, Valid, ReceiveNewer, Wrap, Range;
    RunIsSent(events);
    RunIsValid(events);
    var g := Run(events);
    AheadIsNewer(e.seqNum, g.lastSeq);
    NewerAsks(g, e.seqNum, e.isKeyFrame, e.now, e.resets);
    RangeIs(Next(g.lastSeq), e.seqNum);
    AheadOfNext(e.seqNum, g.lastSeq);
    NextIsSum(g.lastSeq);
    var batch := Range(Next(g.lastSeq), e.seqNum);
    forall i | 0 <= i < |batch| ensures batch[i] == Wrap(g.lastSeq + 1 + i) {
      WrapAdd(g.lastSeq + 1, i);
    }
  }

  lemma AheadIsNewer(seqNum: u16, lastSeq: u16)
    requires 1 <= Ahead(seqNum, lastSeq) <= MAX / 2
    ensures seqNum != lastSeq && !Lower(seqNum, lastSeq)
  {
  }

  /** Every number that is listed was asked for. */
  lemma ListedIsAskedFor(events: seq<Event>, k: u16)
    requires ClockRunsThroughout(events) && k in Keys(Run(events).nackList)
    ensures k in HistoryOf(events) && |HistoryOf(events)[k]| >= 1
  {
    hide Run, HistoryOf;
    RunIsValid(events);
    RunIsRecorded(events);
    RunIsSent(events);
    KeysAt(Run(events).nackList, k);
  }

  /** The RTT is that of the constructor until a reset, and 0 from then on. */
  lemma {:induction false} RttIs(events: seq<Event>)
    ensures Run(events).rtt == 100 || Run(events).rtt == 0
    ensures (forall e :: e in events ==> !e.ResetCall? && (e.Packet? ==> !e.resets)) ==> Run(events).rtt == 100
    decreases |events|
  {
    hide Prune, GetNackBatch, AddPackets, Range, Lower, Find;
    if events != [] {
      RttIs(events[..|events| - 1]);
      assert events[|events| - 1] in events;
    }
  }

  /** The timer asks for a listed number if and only if it was asked for more than an RTT ago, and less than seven times. */
  lemma TimerAsksIff(events: seq<Event>, now: nat, k: u16)
    requires ClockRunsThroughout(events) && k in Keys(Run(events).nackList)
    ensures k in HistoryOf(events) && HistoryOf(events)[k] != []
    ensures var times := HistoryOf(events)[k];
            k in Step(Run(events), Timer(now)).1.batch <==>
              times[|times| - 1] + Run(events).rtt < now && |times| < 7
  {
    hide Run, HistoryOf, GetNackBatch;
    ListedIsAskedFor(events, k);
    RunIsRecorded(events);
    var g := Run(events);
    BatchIff(g.nackList, ByTime, g.lastSeq, g.rtt, now, k);
    KeysAt(g.nackList, k);
  }

  // ----- When a key frame is asked for instead

  /** What stays listed and the gap come to more than 1000 numbers. All of it leaves the list. */
  lemma OverflowIsReal(g: Generator, seqNum: u16, isKeyFrame: bool, now: nat, resets: bool) returns (left: nat)
    requires Valid(g) && g.started && seqNum != g.lastSeq && !Lower(seqNum, g.lastSeq)
    requires ReceiveNewer(g, seqNum, isKeyFrame, now, resets).1.keyFrameRequired
    ensures var (h, e) := ReceiveNewer(g, seqNum, isKeyFrame, now, resets);
            && h.nackList == [] && left <= |e.exits| == |g.nackList|
            && (forall i :: 0 <= i < left ==> e.exits[i].reason != Overflow)
            && (forall i :: left <= i < |e.exits| ==> e.exits[i].reason == Overflow)
            && |g.nackList| - left + (Ahead(seqNum, g.lastSeq) - 1) > 1000
  {
    hide Sorted, EntriesOk, GetNackBatch, AddPackets, Lower, Prune;
    NewerIsAhead(seqNum, g.lastSeq);
    var pruned := Prune(g, seqNum, isKeyFrame);
    var n := PruneIsSuffix(g, seqNum, isKeyFrame);
    PruneReasons(g, seqNum, isKeyFrame);
    left := |pruned.exits|;
    assert |ExitKeys(pruned.exits)| == |Keys(g.nackList[..n])|;
    forall i | 0 <= i < left ensures pruned.exits[i].reason != Overflow {
      assert pruned.exits[i] in pruned.exits;
    }
  }

  // ----- What stays listed

  /** The key frame that counts: the one remembered, if it is at most 5000 behind. */
  predicate IsRecent(keyFrames: seq<u16>, seqNum: u16)
  {
    keyFrames != [] && Ahead(seqNum, keyFrames[0]) <= 5000
  }

  /** A key frame is remembered instead of the one before; other packets keep that for 5000 numbers. */
  lemma KeyFrameIsRemembered(g: Generator, seqNum: u16, isKeyFrame: bool)
    requires Valid(g) && 1 <= Ahead(seqNum, g.lastSeq) <= MAX_NACK_PACKETS + 1
    ensures Prune(g, seqNum, isKeyFrame).keyFrameList ==
            if isKeyFrame then [seqNum] else if IsRecent(g.keyFrameList, seqNum) then g.keyFrameList else []
  {
    hide Sorted, EntriesOk, ExitsFor;
    var oldest := Ahead(seqNum, MAX_PACKET_AGE);
    if g.keyFrameList != [] {
      LowerBehind(seqNum, g.keyFrameList[0], oldest);
      assert g.keyFrameList[1..] == [];
    }
  }

  /** In a sorted list lower_bound finds the first entry that is at most as far behind as the key. */
  lemma BoundIs(list: seq<NackInfo>, seqNum: u16, key: u16, i: nat)
    requires Sorted(list, seqNum) && Ahead(seqNum, key) <= MAX_PACKET_AGE && i < |list|
    ensures i < LowerBound(Keys(list), key) <==> Ahead(seqNum, list[i].seqNum) > Ahead(seqNum, key)
  {
    var k := LowerBound(Keys(list), key);
    assert Keys(list)[i] == list[i].seqNum;
    LowerBehind(seqNum, list[i].seqNum, key);
    if k < |list| {
      assert Keys(list)[k] == list[k].seqNum;
      LowerBehind(seqNum, list[k].seqNum, key);
    }
  }

  /** The listed numbers that stay: at most 5000 behind the packet, and when that is a key frame not before the last one
      that was remembered. */
  predicate Stays(g: Generator, seqNum: u16, isKeyFrame: bool, x: u16)
  {
    && Ahead(seqNum, x) <= 5000
    && (isKeyFrame && IsRecent(g.keyFrameList, seqNum) ==> Ahead(seqNum, x) <= Ahead(seqNum, g.keyFrameList[0]))
  }

  /** Where the list is cut: at the number 5000 behind, and then at the key frame to clear up to. */
  lemma PruneCuts(g: Generator, seqNum: u16, isKeyFrame: bool)
    requires Valid(g) && 1 <= Ahead(seqNum, g.lastSeq) <= MAX_NACK_PACKETS + 1
    ensures var young := g.nackList[LowerBound(Keys(g.nackList), Ahead(seqNum, MAX_PACKET_AGE))..];
            Prune(g, seqNum, isKeyFrame).nackList ==
            if isKeyFrame && IsRecent(g.keyFrameList, seqNum) then young[LowerBound(Keys(young), g.keyFrameList[0])..]
            else young
  {
    hide EntriesOk, ExitsFor, Sorted, Keys, Ahead, Lower;
    if g.keyFrameList != [] {
      AgeOfBound(seqNum);
      KeyFrameAge(g.lastSeq, seqNum, g.keyFrameList[0]);
      LowerBehind(seqNum, g.keyFrameList[0], Ahead(seqNum, MAX_PACKET_AGE));
      assert g.keyFrameList[1..] == [];
    }
  }

  lemma PruneKeeps(g: Generator, seqNum: u16, isKeyFrame: bool, i: nat) returns (n: nat)
    requires Valid(g) && 1 <= Ahead(seqNum, g.lastSeq) <= MAX_NACK_PACKETS + 1 && i < |g.nackList|
    ensures n <= |g.nackList| && Prune(g, seqNum, isKeyFrame).nackList == g.nackList[n..]
    ensures n <= i <==> Stays(g, seqNum, isKeyFrame, g.nackList[i].seqNum)
  {
    hide EntriesOk, Sorted, Ahead, Keys, Prune;
    PruneCuts(g, seqNum, isKeyFrame);
    n := LowerBound(Keys(g.nackList), Ahead(seqNum, MAX_PACKET_AGE));
    CleanKeepsYoung(g.nackList, g.lastSeq, seqNum);
    var k, young := n, g.nackList[n..];
    YoungIff(young, seqNum);
    if isKeyFrame && IsRecent(g.keyFrameList, seqNum) {
      n := k + LowerBound(Keys(young), g.keyFrameList[0]);
      if i >= k {
        BoundIs(young, seqNum, g.keyFrameList[0], i - k);
      }
    }
  }

  lemma AgeOfBound(seqNum: u16)
    ensures Ahead(seqNum, Ahead(seqNum, MAX_PACKET_AGE)) == MAX_PACKET_AGE
  {
  }

  lemma KeyFrameAge(lastSeq: u16, seqNum: u16, keyFrame: u16)
    requires Ahead(lastSeq, keyFrame) <= MAX_PACKET_AGE && 1 <= Ahead(seqNum, lastSeq) <= MAX_NACK_PACKETS + 1
    ensures Ahead(seqNum, keyFrame) <= 0x7FFF
  {
  }

  lemma YoungIff(list: seq<NackInfo>, seqNum: u16)
    requires Sorted(list, seqNum)
    ensures forall i :: 0 <= i < |list| ==> Ahead(seqNum, list[i].seqNum) <= 5000
  {
  }

  lemma {:induction false} RangeIsAhead(from: u16, end: u16, x: u16)
    requires x in Range(from, end)
    ensures Ahead(end, x) <= Ahead(end, from)
    decreases Ahead(end, from)
  {
    if x != from {
      RangeIsAhead(Next(from), end, x);
    }
  }

  lemma {:induction false} BySeqKeepsKeys(list: seq<NackInfo>, lastSeq: u16, rtt: nat, now: nat)
    requires EntriesOk(list)
    ensures Keys(GetNackBatch(list, BySeq, lastSeq, rtt, now).0) == Keys(list)
  {
    if list != [] {
      BySeqKeepsKeys(list[1..], lastSeq, rtt, now);
      BySeqDropsNothing(list, lastSeq, rtt, now);
      var left := GetNackBatch(list, BySeq, lastSeq, rtt, now).0;
      assert |left| == |list|;
      assert Keys(list) == [list[0].seqNum] + Keys(list[1..]);
      assert left[1..] == GetNackBatch(list[1..], BySeq, lastSeq, rtt, now).0;
      assert Keys(left) == [left[0].seqNum] + Keys(left[1..]);
    }
  }

  /** After a newer packet that does not overflow the list, what was listed is listed if and only if it stays, and the key
      frame to remember is. */
  lemma StaysListedIff(g: Generator, seqNum: u16, isKeyFrame: bool, now: nat, resets: bool, i: nat)
    requires Valid(g) && g.started && now > 0 && i < |g.nackList|
    requires seqNum != g.lastSeq && !Lower(seqNum, g.lastSeq)
    requires !ReceiveNewer(g, seqNum, isKeyFrame, now, resets).1.keyFrameRequired
    ensures var h, x := ReceiveNewer(g, seqNum, isKeyFrame, now, resets).0, g.nackList[i].seqNum;
            && (x in Keys(h.nackList) <==> Stays(g, seqNum, isKeyFrame, x))
            && h.keyFrameList == if isKeyFrame then [seqNum] else if IsRecent(g.keyFrameList, seqNum) then g.keyFrameList else []
  {
    hide Prune, Sorted, GetNackBatch, AddPackets, EntriesOk, Lower, Range, Stays, IsRecent, Keys;
    NewerIsAhead(seqNum, g.lastSeq);
    AheadOfNext(seqNum, g.lastSeq);
    var pruned, x := Prune(g, seqNum, isKeyFrame), g.nackList[i].seqNum;
    var n := PruneKeeps(g, seqNum, isKeyFrame, i);
    KeyFrameIsRemembered(g, seqNum, isKeyFrame);
    InSuffixIff(g.nackList, g.lastSeq, n, i);
    if seqNum as int != g.lastSeq + 1 {
      PrunedIsValid(g, seqNum, isKeyFrame);
      AddPacketsAppends(pruned.nackList, Next(g.lastSeq), seqNum);
      var added := AddPackets(pruned.nackList, Next(g.lastSeq), seqNum);
      BySeqKeepsKeys(added, seqNum, g.rtt, now);
      ListedIsBehind(g, seqNum, i);
      if x in Range(Next(g.lastSeq), seqNum) {
        RangeIsAhead(Next(g.lastSeq), seqNum, x);
      }
    }
  }

  lemma ListedIsBehind(g: Generator, seqNum: u16, i: nat)
    requires Valid(g) && i < |g.nackList| && 1 <= Ahead(seqNum, g.lastSeq) <= MAX_NACK_PACKETS + 1
    ensures Ahead(seqNum, g.nackList[i].seqNum) > Ahead(seqNum, g.lastSeq)
  {
    hide EntriesOk;
  }

  lemma InSuffixIff(list: seq<NackInfo>, lastSeq: u16, n: nat, i: nat)
    requires Sorted(list, lastSeq) && n <= |list| && i < |list|
    ensures list[i].seqNum in Keys(list[n..]) <==> n <= i
  {
    if n <= i {
      assert Keys(list[n..])[i - n] == list[i].seqNum;
    }
    if list[i].seqNum in Keys(list[n..]) {
      KeysAt(list[n..], list[i].seqNum);
    }
  }

  /** The first packet is remembered if it is a key frame, and nothing is missing yet. */
  lemma FirstPacketIsRemembered(e: Event)
    requires e.Packet?
    ensures var (h, effect) := Step(Initial(), e);
            && h.started && h.lastSeq == e.seqNum && h.nackList == [] && effect == NOTHING
            && h.keyFrameList == if e.isKeyFrame then [e.seqNum] else []
  {
  }
}
