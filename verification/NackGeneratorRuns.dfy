/** The life of the numbers in the NACK list over whole runs of a generator. */
module NackListRuns {
  import opened Seq16
  import opened NackLists
  import opened NackListLemmas

  datatype Event =
    | Packet(seqNum: u16, isKeyFrame: bool, now: nat, resets: bool)
    | Timer(now: nat)
    | ResetCall

  function ResetStep(g: Generator): (Generator, Effect)
  {
    (Reset(g), NOTHING.(exits := ExitsFor(g.nackList, Resetting)))
  }

  function Step(g: Generator, e: Event): (Generator, Effect)
  {
    match e
    case Packet(seqNum, isKeyFrame, now, resets) => ReceivePacket(g, seqNum, isKeyFrame, now, resets)
    case Timer(now) => OnTimer(g, now)
    case ResetCall => ResetStep(g)
  }

  /** The clock never shows 0, which marks entries that were not sent. */
  predicate ClockRuns(e: Event)
  {
    e.ResetCall? || e.now > 0
  }

  lemma StepKeepsValid(g: Generator, e: Event)
    requires Valid(g) && ClockRuns(e)
    ensures Valid(Step(g, e).0)
  {
    hide Sorted, ReceivePacket, OnTimer;
    match e
    case Packet(seqNum, isKeyFrame, now, resets) => ReceivePacketKeepsValid(g, seqNum, isKeyFrame, now, resets);
    case Timer(now) => OnTimerKeepsValid(g, now);
    case ResetCall => SortedNone(0);
  }

  // ----- Accounting

  function ExitKeys(exits: seq<Exit>): (r: seq<u16>)
    ensures |r| == |exits|
  {
    seq(|exits|, i requires 0 <= i < |exits| => exits[i].seqNum)
  }

  /** Nothing enters or leaves the list unnoticed: what was listed or inserted is either still listed or left, once
      and for one reason. */
  predicate Balanced(before: seq<NackInfo>, e: Effect, after: seq<NackInfo>)
  {
    multiset(Keys(before)) + multiset(e.inserted) == multiset(Keys(after)) + multiset(ExitKeys(e.exits))
  }

  lemma Rebalance(a: multiset<u16>, p: multiset<u16>, e: multiset<u16>, r: multiset<u16>, l: multiset<u16>, d: multiset<u16>)
    requires a == p + e && p + r == l + d
    ensures a + r == l + (e + d)
  {
    forall x
      ensures (a + r)[x] == (l + (e + d))[x]
    {
      assert (p + r)[x] == (l + d)[x];
    }
  }

  lemma MultisetConcat(a: seq<u16>, b: seq<u16>)
    ensures multiset(a + b) == multiset(a) + multiset(b)
  {
  }

  lemma ExitsForKeys(list: seq<NackInfo>, reason: Reason)
    ensures ExitKeys(ExitsFor(list, reason)) == Keys(list)
  {
  }

  lemma KeysConcat(a: seq<NackInfo>, b: seq<NackInfo>)
    ensures Keys(a + b) == Keys(a) + Keys(b)
  {
  }

  lemma ExitKeysConcat(a: seq<Exit>, b: seq<Exit>)
    ensures ExitKeys(a + b) == ExitKeys(a) + ExitKeys(b)
  {
  }

  lemma KeysSplit(list: seq<NackInfo>, k: nat)
    requires k <= |list|
    ensures Keys(list) == Keys(list[..k]) + Keys(list[k..])
  {
    assert list == list[..k] + list[k..];
  }

  lemma PruneBalances(g: Generator, seqNum: u16, isKeyFrame: bool)
    ensures var r := Prune(g, seqNum, isKeyFrame);
            multiset(Keys(g.nackList)) == multiset(Keys(r.nackList)) + multiset(ExitKeys(r.exits))
  {
    hide RememberKeyFrame;
    var oldest := Ahead(seqNum, MAX_PACKET_AGE);
    var tooOld := LowerBound(Keys(g.nackList), oldest);
    var young := g.nackList[tooOld..];
    KeysSplit(g.nackList, tooOld);
    ExitsForKeys(g.nackList[..tooOld], TooOld);
    if isKeyFrame {
      var keyFrames := g.keyFrameList[LowerBound(g.keyFrameList, oldest)..];
      var gone := RememberKeyFrame(young, keyFrames, seqNum).2;
      KeysSplit(young, gone);
      ExitsForKeys(young[..gone], BeforeKeyFrame);
      ExitKeysConcat(ExitsFor(g.nackList[..tooOld], TooOld), ExitsFor(young[..gone], BeforeKeyFrame));
    }
  }

  lemma KeysCons(info: NackInfo, rest: seq<NackInfo>)
    ensures multiset(Keys([info] + rest)) == multiset{info.seqNum} + multiset(Keys(rest))
  {
    KeysConcat([info], rest);
    assert Keys([info]) == [info.seqNum];
  }

  lemma ExitKeysCons(exit: Exit, rest: seq<Exit>)
    ensures multiset(ExitKeys([exit] + rest)) == multiset{exit.seqNum} + multiset(ExitKeys(rest))
  {
    ExitKeysConcat([exit], rest);
    assert ExitKeys([exit]) == [exit.seqNum];
  }

  lemma {:induction false} BatchBalances(list: seq<NackInfo>, filter: Filter, lastSeq: u16, rtt: nat, now: nat)
    ensures var (left, batch, exits) := GetNackBatch(list, filter, lastSeq, rtt, now);
            multiset(Keys(list)) == multiset(Keys(left)) + multiset(ExitKeys(exits))
  {
    hide Picks, Keys, ExitKeys;
    if list != [] {
      var info := list[0];
      BatchBalances(list[1..], filter, lastSeq, rtt, now);
      var (rest, batch, exits) := GetNackBatch(list[1..], filter, lastSeq, rtt, now);
      assert list == [info] + list[1..];
      KeysCons(info, list[1..]);
      KeysCons(info, rest);
      KeysCons(Sent(info, now), rest);
      ExitKeysCons(Exit(info.seqNum, MaxRetries), exits);
    } else {
      NoKeys();
    }
  }

  lemma NoKeys()
    ensures Keys([]) == [] && ExitKeys([]) == []
  {
  }

  lemma AddedBalances(g: Generator, pruned: Pruned, seqNum: u16, now: nat)
    requires Sorted(pruned.nackList, seqNum) && EntriesOk(pruned.nackList)
    requires Ahead(seqNum, Next(g.lastSeq)) <= MAX_NACK_PACKETS
    requires forall i :: 0 <= i < |pruned.nackList| ==>
               Ahead(seqNum, pruned.nackList[i].seqNum) > Ahead(seqNum, Next(g.lastSeq))
    ensures var (left, batch, dropped) :=
              GetNackBatch(AddPackets(pruned.nackList, Next(g.lastSeq), seqNum), BySeq, seqNum, g.rtt, now);
            multiset(Keys(pruned.nackList)) + multiset(Range(Next(g.lastSeq), seqNum))
            == multiset(Keys(left)) + multiset(ExitKeys(dropped))
  {
    hide Sorted, EntriesOk, AddPackets, GetNackBatch, Range;
    AddPacketsAppends(pruned.nackList, Next(g.lastSeq), seqNum);
    var added := AddPackets(pruned.nackList, Next(g.lastSeq), seqNum);
    MultisetConcat(Keys(pruned.nackList), Range(Next(g.lastSeq), seqNum));
    BatchBalances(added, BySeq, seqNum, g.rtt, now);
  }

  lemma ReceiveNewerBalances(g: Generator, seqNum: u16, isKeyFrame: bool, now: nat, resets: bool)
    requires Valid(g) && g.started && now > 0
    requires seqNum != g.lastSeq && !Lower(seqNum, g.lastSeq)
    ensures var (h, e) := ReceiveNewer(g, seqNum, isKeyFrame, now, resets); Balanced(g.nackList, e, h.nackList)
  {
    hide Sorted, EntriesOk, Prune, AddPackets, GetNackBatch, Range;
    NewerIsAhead(seqNum, g.lastSeq);
    PruneBalances(g, seqNum, isKeyFrame);
    var pruned := Prune(g, seqNum, isKeyFrame);
    if seqNum as int == g.lastSeq + 1 {
    } else if |pruned.nackList| + Ahead(seqNum, Next(g.lastSeq)) > MAX_NACK_PACKETS {
      ExitsForKeys(pruned.nackList, Overflow);
      ExitKeysConcat(pruned.exits, ExitsFor(pruned.nackList, Overflow));
      MultisetConcat(ExitKeys(pruned.exits), Keys(pruned.nackList));
    } else {
      PrunedIsValid(g, seqNum, isKeyFrame);
      AddedBalances(g, pruned, seqNum, now);
      var (left, batch, dropped) :=
        GetNackBatch(AddPackets(pruned.nackList, Next(g.lastSeq), seqNum), BySeq, seqNum, g.rtt, now);
      ExitKeysConcat(pruned.exits, dropped);
      MultisetConcat(ExitKeys(pruned.exits), ExitKeys(dropped));
      Rebalance(multiset(Keys(g.nackList)), multiset(Keys(pruned.nackList)), multiset(ExitKeys(pruned.exits)),
                multiset(Range(Next(g.lastSeq), seqNum)), multiset(Keys(left)), multiset(ExitKeys(dropped)));
    }
  }

  lemma FoundBalances(list: seq<NackInfo>, k: nat)
    requires k < |list|
    ensures multiset(Keys(list)) == multiset(Keys(list[..k] + list[k + 1..])) + multiset{list[k].seqNum}
  {
    KeysConcat(list[..k], list[k + 1..]);
    var a, b := Keys(list[..k]), Keys(list[k + 1..]);
    assert Keys(list) == a + [list[k].seqNum] + b;
    MultisetConcat(a + [list[k].seqNum], b);
    MultisetConcat(a, [list[k].seqNum]);
    MultisetConcat(a, b);
  }

  lemma NothingBalances(list: seq<NackInfo>)
    ensures Balanced(list, NOTHING, list)
  {
  }

  lemma FindBalances(g: Generator, seqNum: u16)
    requires Find(g.nackList, seqNum) < |g.nackList|
    ensures var k := Find(g.nackList, seqNum);
            Balanced(g.nackList, NOTHING.(found := true, exits := [Exit(seqNum, Received)]),
                     g.nackList[..k] + g.nackList[k + 1..])
  {
    FoundBalances(g.nackList, Find(g.nackList, seqNum));
    assert ExitKeys([Exit(seqNum, Received)]) == [seqNum];
  }

  lemma TimerBalances(g: Generator, now: nat)
    ensures Balanced(g.nackList, OnTimer(g, now).1, OnTimer(g, now).0.nackList)
  {
    hide GetNackBatch;
    BatchBalances(g.nackList, ByTime, g.lastSeq, g.rtt, now);
  }

  lemma ResetBalances(g: Generator)
    ensures Balanced(g.nackList, ResetStep(g).1, ResetStep(g).0.nackList)
  {
    ExitsForKeys(g.nackList, Resetting);
  }

  lemma StepBalances(g: Generator, e: Event)
    requires Valid(g) && ClockRuns(e)
    ensures Balanced(g.nackList, Step(g, e).1, Step(g, e).0.nackList)
  {
    hide ReceiveNewer, Valid, Lower, InsertKey, Find, Balanced, OnTimer, ResetStep;
    NothingBalances(g.nackList);
    match e
    case Packet(seqNum, isKeyFrame, now, resets) =>
      if g.started && seqNum != g.lastSeq {
        if !Lower(seqNum, g.lastSeq) {
          ReceiveNewerBalances(g, seqNum, isKeyFrame, now, resets);
        } else if Find(g.nackList, seqNum) < |g.nackList| {
          FindBalances(g, seqNum);
        }
      }
    case Timer(now) => TimerBalances(g, now);
    case ResetCall => ResetBalances(g);
  }

  // ----- Exits say why

  /** The reason of an exit is the true one, and only a packet that is found makes ReceivePacket return true. */
  predicate Justified(g: Generator, e: Event, exit: Exit)
  {
    match exit.reason
    case Received => e.Packet? && exit.seqNum == e.seqNum
    case TooOld => e.Packet? && Lower(exit.seqNum, Ahead(e.seqNum, MAX_PACKET_AGE))
    case BeforeKeyFrame =>
      e.Packet? && e.isKeyFrame && g.keyFrameList != [] && Lower(exit.seqNum, g.keyFrameList[0])
    case MaxRetries => e.Timer? && WasSentSevenTimes(g, exit.seqNum)
    case Overflow => e.Packet? && Step(g, e).1.keyFrameRequired
    case Resetting => e.ResetCall?
  }

  predicate WasSentSevenTimes(g: Generator, seqNum: u16)
  {
    exists info :: info in g.nackList && info.seqNum == seqNum && info.retries == MAX_NACK_RETRIES - 1
  }

  lemma PruneReasons(g: Generator, seqNum: u16, isKeyFrame: bool)
    requires |g.keyFrameList| <= 1
    ensures forall x :: x in Prune(g, seqNum, isKeyFrame).exits ==>
      || (x.reason == TooOld && Lower(x.seqNum, Ahead(seqNum, MAX_PACKET_AGE)))
      || (x.reason == BeforeKeyFrame && isKeyFrame && g.keyFrameList != [] && Lower(x.seqNum, g.keyFrameList[0]))
  {
    var oldest := Ahead(seqNum, MAX_PACKET_AGE);
    var tooOld := LowerBound(Keys(g.nackList), oldest);
    var young := g.nackList[tooOld..];
    var keyFrames := g.keyFrameList[LowerBound(g.keyFrameList, oldest)..];
    forall i | 0 <= i < tooOld
      ensures Lower(g.nackList[i].seqNum, oldest)
    {
      assert Keys(g.nackList)[i] == g.nackList[i].seqNum;
    }
    if isKeyFrame && keyFrames != [] {
      var gone := RememberKeyFrame(young, keyFrames, seqNum).2;
      forall i | 0 <= i < gone
        ensures Lower(young[i].seqNum, g.keyFrameList[0])
      {
        assert Keys(young)[i] == young[i].seqNum;
      }
    }
  }

  lemma {:induction false} BatchReasons(list: seq<NackInfo>, filter: Filter, lastSeq: u16, rtt: nat, now: nat, x: Exit)
    requires EntriesOk(list) && x in GetNackBatch(list, filter, lastSeq, rtt, now).2
    ensures x.reason == MaxRetries
    ensures exists info :: info in list && info.seqNum == x.seqNum && info.retries == MAX_NACK_RETRIES - 1
  {
    hide Picks;
    var (rest, batch, exits) := GetNackBatch(list[1..], filter, lastSeq, rtt, now);
    if x in exits {
      BatchReasons(list[1..], filter, lastSeq, rtt, now, x);
    } else {
      assert list[0] in list;
    }
  }

  /** Entries not sent before are at their first try, so a batch by sequence number drops nothing. */
  lemma {:induction false} BySeqDropsNothing(list: seq<NackInfo>, lastSeq: u16, rtt: nat, now: nat)
    requires EntriesOk(list)
    ensures GetNackBatch(list, BySeq, lastSeq, rtt, now).2 == []
  {
    if list != [] {
      BySeqDropsNothing(list[1..], lastSeq, rtt, now);
    }
  }

  lemma NewerReasons(g: Generator, e: Event, x: Exit)
    requires Valid(g) && e.Packet? && e.now > 0 && g.started
    requires e.seqNum != g.lastSeq && !Lower(e.seqNum, g.lastSeq)
    requires x in ReceiveNewer(g, e.seqNum, e.isKeyFrame, e.now, e.resets).1.exits
    ensures Justified(g, e, x) && x.reason != Received
    ensures !ReceiveNewer(g, e.seqNum, e.isKeyFrame, e.now, e.resets).1.found
  {
    hide Prune, GetNackBatch, AddPackets, Range, Sorted, Lower;
    var pruned := Prune(g, e.seqNum, e.isKeyFrame);
    PruneReasons(g, e.seqNum, e.isKeyFrame);
    NewerIsAhead(e.seqNum, g.lastSeq);
    if e.seqNum as int != g.lastSeq + 1 &&
       |pruned.nackList| + Ahead(e.seqNum, Next(g.lastSeq)) <= MAX_NACK_PACKETS {
      PrunedIsValid(g, e.seqNum, e.isKeyFrame);
      AddPacketsAppends(pruned.nackList, Next(g.lastSeq), e.seqNum);
      BySeqDropsNothing(AddPackets(pruned.nackList, Next(g.lastSeq), e.seqNum), e.seqNum, g.rtt, e.now);
    }
  }

  /** Every exit is justified. */
  lemma ExitsAreJustified(g: Generator, e: Event, x: Exit)
    requires Valid(g) && ClockRuns(e) && x in Step(g, e).1.exits
    ensures Justified(g, e, x)
  {
    hide ReceiveNewer, GetNackBatch, Sorted, Lower;
    match e
    case Packet(seqNum, isKeyFrame, now, resets) =>
      if g.started && seqNum != g.lastSeq && !Lower(seqNum, g.lastSeq) {
        NewerReasons(g, e, x);
      }
    case Timer(now) => BatchReasons(g.nackList, ByTime, g.lastSeq, g.rtt, now, x);
    case ResetCall =>
  }

  /** ReceivePacket answers true exactly when the packet's number was listed, and then that number leaves. */
  lemma FoundIffReceived(g: Generator, e: Event)
    requires Valid(g) && e.Packet? && e.now > 0
    ensures Step(g, e).1.found <==> e.seqNum in Keys(g.nackList)
    ensures Step(g, e).1.found <==> Exit(e.seqNum, Received) in Step(g, e).1.exits
    ensures Step(g, e).1.found ==> e.seqNum !in Keys(Step(g, e).0.nackList)
  {
    hide ReceiveNewer;
    if e.seqNum in Keys(g.nackList) {
      KeysAt(g.nackList, e.seqNum);
      assert Lower(e.seqNum, g.lastSeq);
    }
    if g.started && e.seqNum != g.lastSeq && !Lower(e.seqNum, g.lastSeq) {
      NewerIsNotFound(g, e);
      forall x | x in Step(g, e).1.exits
        ensures x.reason != Received
      {
        NewerReasons(g, e, x);
      }
    } else {
      FindIsFirst(g, e.seqNum);
    }
  }

  lemma NewerIsNotFound(g: Generator, e: Event)
    requires e.Packet?
    ensures !ReceiveNewer(g, e.seqNum, e.isKeyFrame, e.now, e.resets).1.found
  {
  }

  lemma FindIsFirst(g: Generator, seqNum: u16)
    requires Valid(g)
    ensures var k := Find(g.nackList, seqNum);
            && (k < |g.nackList| <==> seqNum in Keys(g.nackList))
            && (k < |g.nackList| ==> seqNum !in Keys(g.nackList[..k] + g.nackList[k + 1..]))
  {
    var k := Find(g.nackList, seqNum);
    if seqNum in Keys(g.nackList) {
      KeysAt(g.nackList, seqNum);
    }
    if k < |g.nackList| {
      assert Keys(g.nackList)[k] == seqNum;
      KeysConcat(g.nackList[..k], g.nackList[k + 1..]);
    }
  }

  // ----- Runs

  function Run(events: seq<Event>): (r: Generator)
    decreases |events|
  {
    if events == [] then Initial()
    else Step(Run(events[..|events| - 1]), events[|events| - 1]).0
  }

  function EffectOf(events: seq<Event>): Effect
    requires events != []
  {
    Step(Run(events[..|events| - 1]), events[|events| - 1]).1
  }

  function AllInserted(events: seq<Event>): seq<u16>
    decreases |events|
  {
    if events == [] then [] else AllInserted(events[..|events| - 1]) + EffectOf(events).inserted
  }

  function AllExits(events: seq<Event>): seq<Exit>
    decreases |events|
  {
    if events == [] then [] else AllExits(events[..|events| - 1]) + EffectOf(events).exits
  }

  predicate ClockRunsThroughout(events: seq<Event>)
  {
    forall i :: 0 <= i < |events| ==> ClockRuns(events[i])
  }

  lemma {:induction false} RunIsValid(events: seq<Event>)
    requires ClockRunsThroughout(events)
    ensures Valid(Run(events))
    decreases |events|
  {
    if events == [] {
      SortedNone(0);
    } else {
      RunIsValid(events[..|events| - 1]);
      StepKeepsValid(Run(events[..|events| - 1]), events[|events| - 1]);
    }
  }

  /** Over any run, what was ever inserted is what is listed now plus what left, with multiplicity: no number
      leaves twice for one insertion, none gets lost. */
  lemma {:induction false} RunBalances(events: seq<Event>)
    requires ClockRunsThroughout(events)
    ensures multiset(AllInserted(events)) == multiset(Keys(Run(events).nackList)) + multiset(ExitKeys(AllExits(events)))
    decreases |events|
  {
    hide Step, Keys, ExitKeys, Valid;
    NoKeys();
    if events != [] {
      var before := events[..|events| - 1];
      RunBalances(before);
      RunIsValid(before);
      StepBalances(Run(before), events[|events| - 1]);
      var e := EffectOf(events);
      MultisetConcat(AllInserted(before), e.inserted);
      ExitKeysConcat(AllExits(before), e.exits);
      MultisetConcat(ExitKeys(AllExits(before)), ExitKeys(e.exits));
      Rebalance(multiset(AllInserted(before)), multiset(Keys(Run(before).nackList)),
                multiset(ExitKeys(AllExits(before))), multiset(e.inserted),
                multiset(Keys(Run(events).nackList)), multiset(ExitKeys(e.exits)));
    }
  }
}
