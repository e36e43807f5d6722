/** Safety and accounting of the NACK list. */
module NackListLemmas {
  import opened Seq16
  import opened NackLists

  // ----- The invariant

  /** Every entry is 1..5000 behind `lastSeq`, and the entries come oldest first: on them the circular comparator is
      the order of a list. */
  predicate Sorted(list: seq<NackInfo>, lastSeq: u16)
  {
    && (forall i :: 0 <= i < |list| ==> 1 <= Ahead(lastSeq, list[i].seqNum) <= MAX_PACKET_AGE)
    && (forall i, j :: 0 <= i < j < |list| ==>
          Ahead(lastSeq, list[i].seqNum) > Ahead(lastSeq, list[j].seqNum))
  }

  predicate EntriesOk(list: seq<NackInfo>)
  {
    forall i :: 0 <= i < |list| ==>
      && list[i].sendAtSeq == list[i].seqNum
      && list[i].retries < MAX_NACK_RETRIES
      && (list[i].retries == 0 <==> list[i].sentAtTime == 0)
  }

  predicate Valid(g: Generator)
  {
    && Sorted(g.nackList, g.lastSeq)
    && EntriesOk(g.nackList)
    && |g.nackList| <= MAX_NACK_PACKETS
    && |g.keyFrameList| <= 1
    && (g.keyFrameList != [] ==> Ahead(g.lastSeq, g.keyFrameList[0]) <= MAX_PACKET_AGE)
    && (!g.started ==> g.nackList == [] && g.keyFrameList == [])
    && (g.nackList != [] ==> g.timerActive)
  }

  /** On the keys held between calls the comparator of the containers is a strict total order. */
  lemma ComparatorIsOrder(g: Generator, a: u16, b: u16, c: u16)
    requires Valid(g)
    requires a in Keys(g.nackList) && b in Keys(g.nackList) && c in Keys(g.nackList)
    ensures !Lower(a, a)
    ensures a != b ==> (Lower(a, b) <==> !Lower(b, a))
    ensures Lower(a, b) && Lower(b, c) ==> Lower(a, c)
  {
    assert forall k :: k in Keys(g.nackList) ==> 1 <= Ahead(g.lastSeq, k) <= MAX_PACKET_AGE;
  }

  lemma KeysAt(list: seq<NackInfo>, k: u16)
    requires k in Keys(list)
    ensures exists i :: 0 <= i < |list| && list[i].seqNum == k
  {
  }

  lemma LowerBehind(from: u16, a: u16, b: u16)
    requires Ahead(from, a) <= 0x7FFF && Ahead(from, b) <= 0x7FFF
    ensures Lower(a, b) <==> Ahead(from, a) > Ahead(from, b)
  {
  }

  // ----- Cleaning

  /** For steps too small to overflow the list, cleaning keeps exactly the entries at most 5000 behind. */
  lemma CleanKeepsYoung(list: seq<NackInfo>, lastSeq: u16, seqNum: u16)
    requires Sorted(list, lastSeq) && 1 <= Ahead(seqNum, lastSeq) <= MAX_NACK_PACKETS + 1
    ensures var k := LowerBound(Keys(list), Ahead(seqNum, MAX_PACKET_AGE));
            && Sorted(list[k..], seqNum)
            && (forall i :: 0 <= i < k ==> Ahead(seqNum, list[i].seqNum) > MAX_PACKET_AGE)
            && (forall i :: k <= i < |list| ==> Ahead(seqNum, list[i].seqNum) > Ahead(seqNum, lastSeq))
  {
    var oldest := Ahead(seqNum, MAX_PACKET_AGE);
    assert Ahead(seqNum, oldest) == MAX_PACKET_AGE;
    var k := LowerBound(Keys(list), oldest);
    forall i | 0 <= i < |list|
      ensures Ahead(seqNum, list[i].seqNum) == Ahead(seqNum, lastSeq) + Ahead(lastSeq, list[i].seqNum)
      ensures Lower(list[i].seqNum, oldest) <==> Ahead(seqNum, list[i].seqNum) > MAX_PACKET_AGE
    {
      LowerBehind(seqNum, list[i].seqNum, oldest);
    }
    assert forall i :: 0 <= i < k ==> Keys(list)[i] == list[i].seqNum;
    if k < |list| {
      assert Keys(list)[k] == list[k].seqNum;
    }
  }

  lemma CleanKeyFrames(keyFrames: seq<u16>, lastSeq: u16, seqNum: u16)
    requires |keyFrames| <= 1 && (keyFrames != [] ==> Ahead(lastSeq, keyFrames[0]) <= MAX_PACKET_AGE)
    requires 1 <= Ahead(seqNum, lastSeq) <= MAX_NACK_PACKETS + 1
    ensures var r := keyFrames[LowerBound(keyFrames, Ahead(seqNum, MAX_PACKET_AGE))..];
            |r| <= 1 && (r != [] ==> Ahead(seqNum, r[0]) <= MAX_PACKET_AGE)
  {
    var oldest := Ahead(seqNum, MAX_PACKET_AGE);
    if keyFrames != [] {
      LowerBehind(seqNum, keyFrames[0], oldest);
    }
  }

  lemma SortedSuffix(list: seq<NackInfo>, lastSeq: u16, k: nat)
    requires Sorted(list, lastSeq) && EntriesOk(list) && k <= |list|
    ensures Sorted(list[k..], lastSeq) && EntriesOk(list[k..])
  {
  }

  // ----- Adding

  lemma EmplaceAppends(list: seq<NackInfo>, info: NackInfo, seqNum: u16)
    requires Sorted(list, seqNum) && 1 <= Ahead(seqNum, info.seqNum) <= MAX_PACKET_AGE
    requires forall i :: 0 <= i < |list| ==> Ahead(seqNum, list[i].seqNum) > Ahead(seqNum, info.seqNum)
    ensures Emplace(list, info) == list + [info] && info.seqNum !in Keys(list)
    ensures Sorted(list + [info], seqNum)
  {
    var k := LowerBound(Keys(list), info.seqNum);
    if k < |list| {
      assert Keys(list)[k] == list[k].seqNum;
      LowerBehind(seqNum, list[k].seqNum, info.seqNum);
    }
  }

  lemma AheadIsZero(x: u16, y: u16)
    ensures Ahead(x, y) == 0 <==> x == y
  {
  }

  lemma KeysGrow(list: seq<NackInfo>, info: NackInfo)
    ensures Keys(list + [info]) == Keys(list) + [info.seqNum]
  {
  }

  lemma GapShrinks(list: seq<NackInfo>, info: NackInfo, seqNum: u16)
    requires Sorted(list, seqNum) && EntriesOk(list) && 1 <= Ahead(seqNum, info.seqNum)
    requires info.sendAtSeq == info.seqNum && info.retries == 0 && info.sentAtTime == 0
    requires forall i :: 0 <= i < |list| ==> Ahead(seqNum, list[i].seqNum) > Ahead(seqNum, info.seqNum)
    ensures Ahead(seqNum, Next(info.seqNum)) == Ahead(seqNum, info.seqNum) - 1
    ensures EntriesOk(list + [info])
    ensures forall i :: 0 <= i < |list + [info]| ==>
              Ahead(seqNum, (list + [info])[i].seqNum) > Ahead(seqNum, Next(info.seqNum))
  {
    AheadOfNext(seqNum, info.seqNum);
  }

  lemma AddUnfolds(list: seq<NackInfo>, start: u16, seqNum: u16)
    ensures start == seqNum ==> AddPackets(list, start, seqNum) == list && Range(start, seqNum) == []
    ensures start != seqNum ==>
              && AddPackets(list, start, seqNum) ==
                 AddPackets(Emplace(list, NackInfo(start, start, 0, 0)), Next(start), seqNum)
              && Keys(list) + [start] + Range(Next(start), seqNum) == Keys(list) + Range(start, seqNum)
  {
    if start != seqNum {
      assert Keys(list) + [start] + Range(Next(start), seqNum) == Keys(list) + ([start] + Range(Next(start), seqNum));
    }
  }

  lemma {:induction false} AddPacketsAppends(list: seq<NackInfo>, start: u16, seqNum: u16)
    requires Sorted(list, seqNum) && EntriesOk(list) && Ahead(seqNum, start) <= MAX_NACK_PACKETS
    requires forall i :: 0 <= i < |list| ==> Ahead(seqNum, list[i].seqNum) > Ahead(seqNum, start)
    ensures var r := AddPackets(list, start, seqNum);
            && Sorted(r, seqNum) && EntriesOk(r)
            && Keys(r) == Keys(list) + Range(start, seqNum)
            && |r| == |list| + Ahead(seqNum, start)
    decreases Ahead(seqNum, start)
  {
    hide Emplace, Ahead, Next, Sorted, EntriesOk, Keys, AddPackets, Range;
    AheadIsZero(seqNum, start);
    AddUnfolds(list, start, seqNum);
    if start != seqNum {
      var info := NackInfo(start, start, 0, 0);
      EmplaceAppends(list, info, seqNum);
      GapShrinks(list, info, seqNum);
      KeysGrow(list, info);
      AddPacketsAppends(list + [info], Next(start), seqNum);
    }
  }

  // ----- Batches

  predicate OldestFirst(info: NackInfo, rest: seq<NackInfo>, lastSeq: u16)
  {
    forall i :: 0 <= i < |rest| ==> Ahead(lastSeq, rest[i].seqNum) < Ahead(lastSeq, info.seqNum)
  }

  lemma SortedCons(info: NackInfo, rest: seq<NackInfo>, lastSeq: u16)
    requires Sorted(rest, lastSeq) && OldestFirst(info, rest, lastSeq)
    requires 1 <= Ahead(lastSeq, info.seqNum) <= MAX_PACKET_AGE
    ensures Sorted([info] + rest, lastSeq)
  {
  }

  lemma SortedTail(list: seq<NackInfo>, lastSeq: u16)
    requires Sorted(list, lastSeq) && EntriesOk(list) && list != []
    ensures Sorted(list[1..], lastSeq) && EntriesOk(list[1..]) && OldestFirst(list[0], list[1..], lastSeq)
    ensures 1 <= Ahead(lastSeq, list[0].seqNum) <= MAX_PACKET_AGE
    ensures Keys(list) == [list[0].seqNum] + Keys(list[1..])
  {
  }

  /** GetNackBatch keeps the order, and only ever alters entries it puts into the batch. */
  lemma {:induction false} BatchKeepsOrder(list: seq<NackInfo>, filter: Filter, lastSeq: u16, rtt: nat, now: nat)
    requires Sorted(list, lastSeq) && EntriesOk(list) && now > 0
    ensures var r := GetNackBatch(list, filter, lastSeq, rtt, now).0;
            && Sorted(r, lastSeq) && EntriesOk(r)
            && (forall i :: 0 <= i < |r| ==> r[i].seqNum in Keys(list))
  {
    hide Picks, Sorted;
    if list != [] {
      var info, tail := list[0], list[1..];
      SortedTail(list, lastSeq);
      BatchKeepsOrder(tail, filter, lastSeq, rtt, now);
      var rest := GetNackBatch(tail, filter, lastSeq, rtt, now).0;
      assert OldestFirst(info, rest, lastSeq) by {
        forall i | 0 <= i < |rest|
          ensures Ahead(lastSeq, rest[i].seqNum) < Ahead(lastSeq, info.seqNum)
        {
          KeysAt(tail, rest[i].seqNum);
        }
      }
      SortedCons(info, rest, lastSeq);
      SortedCons(Sent(info, now), rest, lastSeq);
    } else {
      SortedNone(lastSeq);
    }
  }

  lemma SortedNone(lastSeq: u16)
    ensures Sorted([], lastSeq) && EntriesOk([])
  {
  }

  // ----- One step keeps the invariant

  lemma NewerIsAhead(seqNum: u16, lastSeq: u16)
    requires seqNum != lastSeq && !Lower(seqNum, lastSeq)
    ensures 1 <= Ahead(seqNum, lastSeq) <= 0x8000
    ensures Ahead(seqNum, Next(lastSeq)) == Ahead(seqNum, lastSeq) - 1
    ensures seqNum as int == lastSeq + 1 ==> Ahead(seqNum, lastSeq) == 1
  {
  }

  /** What cleaning and the key frame leave of the lists, when the step does not overflow them. */
  lemma PrunedIsValid(g: Generator, seqNum: u16, isKeyFrame: bool)
    requires Valid(g) && 1 <= Ahead(seqNum, g.lastSeq) <= MAX_NACK_PACKETS + 1
    ensures var r := Prune(g, seqNum, isKeyFrame);
            && Sorted(r.nackList, seqNum) && EntriesOk(r.nackList) && |r.nackList| <= |g.nackList|
            && (forall i :: 0 <= i < |r.nackList| ==>
                  Ahead(seqNum, r.nackList[i].seqNum) > Ahead(seqNum, g.lastSeq))
            && |r.keyFrameList| <= 1
            && (r.keyFrameList != [] ==> Ahead(seqNum, r.keyFrameList[0]) <= MAX_PACKET_AGE)
  {
    hide EntriesOk, Ahead, ExitsFor, Sorted, RememberKeyFrame;
    var k := LowerBound(Keys(g.nackList), Ahead(seqNum, MAX_PACKET_AGE));
    CleanKeepsYoung(g.nackList, g.lastSeq, seqNum);
    CleanKeyFrames(g.keyFrameList, g.lastSeq, seqNum);
    SortedSuffix(g.nackList, g.lastSeq, k);
    var young := g.nackList[k..];
    if isKeyFrame {
      var keyFrames := g.keyFrameList[LowerBound(g.keyFrameList, Ahead(seqNum, MAX_PACKET_AGE))..];
      var r := RememberKeyFrame(young, keyFrames, seqNum);
      SortedSuffix(young, seqNum, r.2);
      OneKeyFrame(young, keyFrames, seqNum);
    }
  }

  lemma OneKeyFrame(list: seq<NackInfo>, keyFrames: seq<u16>, seqNum: u16)
    requires |keyFrames| <= 1
    ensures var r := RememberKeyFrame(list, keyFrames, seqNum).1; |r| <= 1 && (r != [] ==> Ahead(seqNum, r[0]) <= MAX_PACKET_AGE)
  {
  }

  lemma ReceiveNewerKeepsValid(g: Generator, seqNum: u16, isKeyFrame: bool, now: nat, resets: bool)
    requires Valid(g) && g.started && now > 0
    requires seqNum != g.lastSeq && !Lower(seqNum, g.lastSeq)
    ensures Valid(ReceiveNewer(g, seqNum, isKeyFrame, now, resets).0)
  {
    hide Sorted, EntriesOk, Prune, Picks, AddPackets, GetNackBatch;
    NewerIsAhead(seqNum, g.lastSeq);
    SortedNone(seqNum);
    SortedNone(0);
    var list := Prune(g, seqNum, isKeyFrame).nackList;
    if Ahead(seqNum, g.lastSeq) <= MAX_NACK_PACKETS + 1 {
      PrunedIsValid(g, seqNum, isKeyFrame);
      if |list| + Ahead(seqNum, Next(g.lastSeq)) <= MAX_NACK_PACKETS {
        AddPacketsAppends(list, Next(g.lastSeq), seqNum);
        BatchKeepsOrder(AddPackets(list, Next(g.lastSeq), seqNum), BySeq, seqNum, g.rtt, now);
      }
    }
  }

  lemma RemovedIsSorted(list: seq<NackInfo>, lastSeq: u16, k: nat)
    requires Sorted(list, lastSeq) && EntriesOk(list) && k < |list|
    ensures Sorted(list[..k] + list[k + 1..], lastSeq) && EntriesOk(list[..k] + list[k + 1..])
  {
  }

  lemma ReceivePacketKeepsValid(g: Generator, seqNum: u16, isKeyFrame: bool, now: nat, resets: bool)
    requires Valid(g) && now > 0
    ensures Valid(ReceivePacket(g, seqNum, isKeyFrame, now, resets).0)
  {
    hide ReceiveNewer;
    if g.started && seqNum != g.lastSeq {
      if Lower(seqNum, g.lastSeq) {
        var k := Find(g.nackList, seqNum);
        if k < |g.nackList| {
          RemovedIsSorted(g.nackList, g.lastSeq, k);
        }
      } else {
        ReceiveNewerKeepsValid(g, seqNum, isKeyFrame, now, resets);
      }
    }
  }

  lemma OnTimerKeepsValid(g: Generator, now: nat)
    requires Valid(g) && now > 0
    ensures Valid(OnTimer(g, now).0)
  {
    hide Sorted;
    BatchKeepsOrder(g.nackList, ByTime, g.lastSeq, g.rtt, now);
    SortedNone(g.lastSeq);
  }
}
