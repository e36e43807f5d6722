/** How often, and how far apart, a missing number is asked for while it stays listed. The history is what an
    observer of the listener calls writes down; the generator itself keeps only a counter and the last time. */
module NackListHistory {
  import opened Seq16
  import opened NackLists
  import opened NackListLemmas
  import opened NackListRuns

  /** For each listed number, the times of the batches it was in since it was inserted. */
  type History = map<u16, seq<nat>>

  function WithoutExits(h: History, exits: seq<Exit>): History
  {
    map k | k in h && k !in ExitKeys(exits) :: h[k]
  }

  function WithInserted(h: History, inserted: seq<u16>): History
  {
    h + map k | k in inserted :: []
  }

  function WithBatch(h: History, batch: seq<u16>, now: nat): History
  {
    map k | k in h :: if k in batch then h[k] + [now] else h[k]
  }

  function Observe(h: History, e: Effect, now: nat): History
  {
    WithBatch(WithInserted(WithoutExits(h, e.exits), e.inserted), e.batch, now)
  }

  lemma Unchanged(h: History, now: nat)
    ensures WithoutExits(h, []) == WithInserted(h, []) == WithBatch(h, [], now) == h
  {
    NoKeys();
  }

  /** Consecutive times are more than `rtt` apart. */
  predicate Spaced(times: seq<nat>, rtt: nat)
  {
    forall i :: 0 < i < |times| ==> times[i - 1] + rtt < times[i]
  }

  predicate TimesOk(info: NackInfo, times: seq<nat>, rtt: nat)
  {
    && |times| == info.retries
    && (times != [] ==> times[|times| - 1] == info.sentAtTime)
    && Spaced(times, rtt)
  }

  /** The history knows exactly the listed numbers, and every entry's counter and time agree with it. */
  ghost predicate Recorded(list: seq<NackInfo>, h: History, rtt: nat)
  {
    && (forall k :: k in h <==> k in Keys(list))
    && (forall x :: x in list ==> x.seqNum in h && TimesOk(x, h[x.seqNum], rtt))
  }

  lemma InKeys(list: seq<NackInfo>, x: NackInfo)
    requires x in list
    ensures x.seqNum in Keys(list)
  {
    var i :| 0 <= i < |list| && list[i] == x;
    assert Keys(list)[i] == x.seqNum;
  }

  // ----- Removing and inserting

  /** Dropping part of a sorted list, whose keys the exits name. */
  lemma RecordedAfterExits(list: seq<NackInfo>, left: seq<NackInfo>, h: History, rtt: nat, exits: seq<Exit>)
    requires Recorded(list, h, rtt)
    requires forall x :: x in left ==> x in list
    requires forall k :: k in Keys(list) <==> k in Keys(left) || k in ExitKeys(exits)
    requires forall k :: k in Keys(left) ==> k !in ExitKeys(exits)
    ensures Recorded(left, WithoutExits(h, exits), rtt)
  {
    forall x | x in left
      ensures x.seqNum in h && x.seqNum !in ExitKeys(exits)
    {
      InKeys(left, x);
    }
  }

  lemma RecordedAfterInsertion(list: seq<NackInfo>, added: seq<NackInfo>, h: History, rtt: nat)
    requires Recorded(list, h, rtt)
    requires forall x :: x in added ==> x.retries == 0 && x.seqNum !in Keys(list)
    ensures Recorded(list + added, WithInserted(h, Keys(added)), rtt)
  {
    KeysConcat(list, added);
    forall x | x in list + added
      ensures var all := WithInserted(h, Keys(added));
              x.seqNum in all && TimesOk(x, all[x.seqNum], rtt)
    {
      if x in added {
        InKeys(added, x);
      } else {
        InKeys(list, x);
        if x.seqNum in Keys(added) {
          KeysAt(added, x.seqNum);
        }
      }
    }
  }

  // ----- Batches

  /** Entries of a batch are the picked ones, marked as sent; all others are untouched. */
  ghost predicate Marked(list: seq<NackInfo>, x: NackInfo, batch: seq<u16>, filter: Filter, lastSeq: u16, rtt: nat, now: nat)
  {
    if x.seqNum in batch then
      exists y :: y in list && y.seqNum == x.seqNum && Picks(filter, y, lastSeq, rtt, now) && x == Sent(y, now)
    else x in list
  }

  lemma {:induction false} BatchMarks(list: seq<NackInfo>, filter: Filter, lastSeq: u16, rtt: nat, now: nat)
    requires Sorted(list, lastSeq) && EntriesOk(list)
    ensures var (left, batch, exits) := GetNackBatch(list, filter, lastSeq, rtt, now);
            && (forall x :: x in left ==> Marked(list, x, batch, filter, lastSeq, rtt, now))
            && (forall k :: k in batch ==> k in Keys(left))
            && (forall k :: k in Keys(list) <==> k in Keys(left) || k in ExitKeys(exits))
            && (forall k :: k in Keys(left) ==> k !in ExitKeys(exits))
  {
    hide Picks, Sorted;
    if list != [] {
      var info, tail := list[0], list[1..];
      SortedTail(list, lastSeq);
      BatchMarks(tail, filter, lastSeq, rtt, now);
      var (rest, batch, exits) := GetNackBatch(tail, filter, lastSeq, rtt, now);
      HeadIsNew(info, tail, lastSeq);
      var (left, batch', exits') := GetNackBatch(list, filter, lastSeq, rtt, now);
      forall x | x in left
        ensures Marked(list, x, batch', filter, lastSeq, rtt, now)
      {
        if x in rest {
          InKeys(rest, x);
          assert x.seqNum != info.seqNum;
          assert Marked(tail, x, batch, filter, lastSeq, rtt, now);
        } else {
          assert info in list;
        }
      }
      KeysConcat([info], rest);
      KeysConcat([Sent(info, now)], rest);
      ExitKeysConcat([Exit(info.seqNum, MaxRetries)], exits);
      assert Keys([info]) == Keys([Sent(info, now)]) == ExitKeys([Exit(info.seqNum, MaxRetries)]) == [info.seqNum];
    } else {
      NoKeys();
    }
  }

  lemma HeadIsNew(info: NackInfo, tail: seq<NackInfo>, lastSeq: u16)
    requires OldestFirst(info, tail, lastSeq)
    ensures info.seqNum !in Keys(tail)
  {
  }

  /** A picked entry was never sent, or was last sent more than an RTT ago. */
  lemma SentTimes(y: NackInfo, times: seq<nat>, filter: Filter, lastSeq: u16, rtt: nat, now: nat)
    requires TimesOk(y, times, rtt) && (y.retries == 0 <==> y.sentAtTime == 0)
    requires Picks(filter, y, lastSeq, rtt, now)
    ensures TimesOk(Sent(y, now), times + [now], rtt)
  {
  }

  lemma RecordedAfterBatch(list: seq<NackInfo>, h: History, filter: Filter, lastSeq: u16, rtt: nat, now: nat)
    requires Recorded(list, h, rtt) && Sorted(list, lastSeq) && EntriesOk(list)
    ensures var (left, batch, exits) := GetNackBatch(list, filter, lastSeq, rtt, now);
            Recorded(left, WithBatch(WithoutExits(h, exits), batch, now), rtt)
  {
    hide Sorted, GetNackBatch, TimesOk, Picks, EntriesOk;
    var (left, batch, exits) := GetNackBatch(list, filter, lastSeq, rtt, now);
    BatchMarks(list, filter, lastSeq, rtt, now);
    var h' := WithBatch(WithoutExits(h, exits), batch, now);
    forall x | x in left
      ensures x.seqNum in h' && TimesOk(x, h'[x.seqNum], rtt)
    {
      InKeys(left, x);
      assert Marked(list, x, batch, filter, lastSeq, rtt, now);
      if x.seqNum in batch {
        var y :| y in list && y.seqNum == x.seqNum && Picks(filter, y, lastSeq, rtt, now) && x == Sent(y, now);
        EntryOk(list, y);
        SentTimes(y, h[y.seqNum], filter, lastSeq, rtt, now);
      }
    }
  }

  lemma EntryOk(list: seq<NackInfo>, x: NackInfo)
    requires EntriesOk(list) && x in list
    ensures x.retries < MAX_NACK_RETRIES && (x.retries == 0 <==> x.sentAtTime == 0)
  {
  }

  // ----- Steps

  /** Pruning cuts off a prefix of the list; the exits are its keys. */
  lemma PruneIsSuffix(g: Generator, seqNum: u16, isKeyFrame: bool) returns (n: nat)
    ensures var r := Prune(g, seqNum, isKeyFrame);
            n <= |g.nackList| && r.nackList == g.nackList[n..] && ExitKeys(r.exits) == Keys(g.nackList[..n])
  {
    hide RememberKeyFrame;
    var oldest := Ahead(seqNum, MAX_PACKET_AGE);
    n := LowerBound(Keys(g.nackList), oldest);
    var cleaned, young := g.nackList[..n], g.nackList[n..];
    ExitsForKeys(cleaned, TooOld);
    if isKeyFrame {
      var keyFrames := g.keyFrameList[LowerBound(g.keyFrameList, oldest)..];
      var gone := RememberKeyFrame(young, keyFrames, seqNum).2;
      ExitsForKeys(young[..gone], BeforeKeyFrame);
      ExitKeysConcat(ExitsFor(cleaned, TooOld), ExitsFor(young[..gone], BeforeKeyFrame));
      KeysConcat(cleaned, young[..gone]);
      assert g.nackList[..n + gone] == cleaned + young[..gone];
      n := n + gone;
    }
  }

  lemma SuffixKeys(list: seq<NackInfo>, lastSeq: u16, n: nat)
    requires Sorted(list, lastSeq) && n <= |list|
    ensures forall k :: k in Keys(list) <==> k in Keys(list[n..]) || k in Keys(list[..n])
    ensures forall k :: k in Keys(list[n..]) ==> k !in Keys(list[..n])
    ensures forall x :: x in list[n..] ==> x in list
  {
    KeysSplit(list, n);
  }

  lemma RecordedAfterPrune(g: Generator, h: History, seqNum: u16, isKeyFrame: bool)
    requires Valid(g) && Recorded(g.nackList, h, g.rtt)
    ensures var r := Prune(g, seqNum, isKeyFrame); Recorded(r.nackList, WithoutExits(h, r.exits), g.rtt)
  {
    hide Prune, Sorted;
    var n := PruneIsSuffix(g, seqNum, isKeyFrame);
    var r := Prune(g, seqNum, isKeyFrame);
    SuffixKeys(g.nackList, g.lastSeq, n);
    RecordedAfterExits(g.nackList, r.nackList, h, g.rtt, r.exits);
  }

  lemma {:induction false} AddPacketsIsTail(list: seq<NackInfo>, start: u16, seqNum: u16) returns (added: seq<NackInfo>)
    requires Sorted(list, seqNum) && Ahead(seqNum, start) <= MAX_NACK_PACKETS
    requires forall i :: 0 <= i < |list| ==> Ahead(seqNum, list[i].seqNum) > Ahead(seqNum, start)
    ensures AddPackets(list, start, seqNum) == list + added && Keys(added) == Range(start, seqNum)
    ensures forall x :: x in added ==> x.retries == 0 && x.seqNum !in Keys(list)
    decreases Ahead(seqNum, start)
  {
    hide Emplace;
    added := [];
    if start != seqNum {
      var info := NackInfo(start, start, 0, 0);
      EmplaceAppends(list, info, seqNum);
      var rest := AddPacketsIsTail(list + [info], Next(start), seqNum);
      KeysConcat([info], rest);
      KeysConcat(list, [info]);
      assert list + [info] + rest == list + ([info] + rest);
      added := [info] + rest;
    }
  }

  // ----- The history follows every step

  lemma NewerRecords(g: Generator, h: History, seqNum: u16, isKeyFrame: bool, now: nat)
    requires Valid(g) && Recorded(g.nackList, h, g.rtt)
    requires 1 <= Ahead(seqNum, g.lastSeq) <= MAX_NACK_PACKETS + 1
    ensures var pruned := Prune(g, seqNum, isKeyFrame);
            var (left, batch, dropped) :=
              GetNackBatch(AddPackets(pruned.nackList, Next(g.lastSeq), seqNum), BySeq, seqNum, g.rtt, now);
            && dropped == []
            && Recorded(left, WithBatch(WithInserted(WithoutExits(h, pruned.exits), Range(Next(g.lastSeq), seqNum)), batch, now),
                        g.rtt)
  {
    hide Prune, Sorted, GetNackBatch, EntriesOk, Recorded;
    var pruned := Prune(g, seqNum, isKeyFrame);
    PrunedIsValid(g, seqNum, isKeyFrame);
    RecordedAfterPrune(g, h, seqNum, isKeyFrame);
    AheadOfNext(seqNum, g.lastSeq);
    var added := AddPacketsIsTail(pruned.nackList, Next(g.lastSeq), seqNum);
    AddPacketsAppends(pruned.nackList, Next(g.lastSeq), seqNum);
    var h1 := WithoutExits(h, pruned.exits);
    RecordedAfterInsertion(pruned.nackList, added, h1, g.rtt);
    var list := AddPackets(pruned.nackList, Next(g.lastSeq), seqNum);
    var h2 := WithInserted(h1, Keys(added));
    BySeqDropsNothing(list, seqNum, g.rtt, now);
    RecordedAfterBatch(list, h2, BySeq, seqNum, g.rtt, now);
    Unchanged(h2, now);
  }

  lemma OverflowRecords(g: Generator, h: History, seqNum: u16, isKeyFrame: bool, rtt: nat)
    requires Valid(g) && Recorded(g.nackList, h, g.rtt)
    ensures var r := Prune(g, seqNum, isKeyFrame);
            Recorded([], WithoutExits(h, r.exits + ExitsFor(r.nackList, Overflow)), rtt)
  {
    hide Prune;
    var n := PruneIsSuffix(g, seqNum, isKeyFrame);
    var r := Prune(g, seqNum, isKeyFrame);
    ExitsForKeys(r.nackList, Overflow);
    ExitKeysConcat(r.exits, ExitsFor(r.nackList, Overflow));
    KeysSplit(g.nackList, n);
  }

  lemma FoundRecords(g: Generator, h: History, seqNum: u16)
    requires Valid(g) && Recorded(g.nackList, h, g.rtt)
    ensures var k := Find(g.nackList, seqNum);
            k < |g.nackList| ==>
              Recorded(g.nackList[..k] + g.nackList[k + 1..], WithoutExits(h, [Exit(seqNum, Received)]), g.rtt)
  {
    hide Sorted, EntriesOk;
    FindIsFirst(g, seqNum);
    var k := Find(g.nackList, seqNum);
    if k < |g.nackList| {
      var left := g.nackList[..k] + g.nackList[k + 1..];
      assert ExitKeys([Exit(seqNum, Received)]) == [seqNum];
      KeysSplit(g.nackList, k);
      KeysSplit(g.nackList[k..], 1);
      KeysConcat(g.nackList[..k], g.nackList[k + 1..]);
      assert g.nackList[k..][1..] == g.nackList[k + 1..] && Keys(g.nackList[k..][..1]) == [seqNum];
      RecordedAfterExits(g.nackList, left, h, g.rtt, [Exit(seqNum, Received)]);
    }
  }

  lemma ResetRecords(g: Generator, h: History, rtt: nat)
    requires Recorded(g.nackList, h, g.rtt)
    ensures Recorded([], WithoutExits(h, ExitsFor(g.nackList, Resetting)), rtt)
  {
    ExitsForKeys(g.nackList, Resetting);
    NoKeys();
  }

  lemma StepRecords(g: Generator, h: History, e: Event)
    requires Valid(g) && ClockRuns(e) && Recorded(g.nackList, h, g.rtt)
    ensures var (g', effect) := Step(g, e);
            Recorded(g'.nackList, Observe(h, effect, if e.ResetCall? then 0 else e.now), g'.rtt)
  {
    hide Prune, Sorted, GetNackBatch, EntriesOk, Lower, AddPackets, Range, Recorded, WithoutExits, WithInserted, WithBatch;
    var (g', effect) := Step(g, e);
    var now := if e.ResetCall? then 0 else e.now;
    Unchanged(h, now);
    Unchanged(WithoutExits(h, effect.exits), now);
    match e
    case Packet(seqNum, isKeyFrame, now, resets) =>
      if g.started && seqNum != g.lastSeq {
        if Lower(seqNum, g.lastSeq) {
          FoundRecords(g, h, seqNum);
        } else {
          NewerIsAhead(seqNum, g.lastSeq);
          var pruned := Prune(g, seqNum, isKeyFrame);
          if seqNum as int == g.lastSeq + 1 {
            RecordedAfterPrune(g, h, seqNum, isKeyFrame);
          } else if |pruned.nackList| + Ahead(seqNum, Next(g.lastSeq)) > MAX_NACK_PACKETS {
            OverflowRecords(g, h, seqNum, isKeyFrame, g'.rtt);
          } else {
            NewerRecords(g, h, seqNum, isKeyFrame, now);
            assert pruned.exits + [] == pruned.exits;
          }
        }
      }
    case Timer(now) => RecordedAfterBatch(g.nackList, h, ByTime, g.lastSeq, g.rtt, now);
    case ResetCall => ResetRecords(g, h, g'.rtt);
  }

  /** What the observer has written down after a run. */
  function HistoryOf(events: seq<Event>): History
    decreases |events|
  {
    if events == [] then map[]
    else
      var e := events[|events| - 1];
      Observe(HistoryOf(events[..|events| - 1]), EffectOf(events), if e.ResetCall? then 0 else e.now)
  }

  lemma {:induction false} RunIsRecorded(events: seq<Event>)
    requires ClockRunsThroughout(events)
    ensures Recorded(Run(events).nackList, HistoryOf(events), Run(events).rtt)
    decreases |events|
  {
    hide Step, Observe;
    if events == [] {
      NoKeys();
    } else {
      var before := events[..|events| - 1];
      RunIsValid(before);
      RunIsRecorded(before);
      StepRecords(Run(before), HistoryOf(before), events[|events| - 1]);
    }
  }

  /** A number that is listed was asked for at most seven times since it was inserted, at times more than an RTT
      apart. */
  lemma AtMostSevenBatches(events: seq<Event>, k: u16)
    requires ClockRunsThroughout(events) && k in Keys(Run(events).nackList)
    ensures k in HistoryOf(events)
    ensures |HistoryOf(events)[k]| < MAX_NACK_RETRIES && Spaced(HistoryOf(events)[k], Run(events).rtt)
  {
    hide Run, HistoryOf;
    RunIsValid(events);
    RunIsRecorded(events);
    var list := Run(events).nackList;
    KeysAt(list, k);
    var i :| 0 <= i < |list| && list[i].seqNum == k;
    assert list[i] in list;
  }
}
