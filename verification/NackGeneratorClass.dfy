/** NackGenerator with its fields. Each method computes the function of module NackLists that carries its name. */
module NackGenerators {
  import opened Seq16
  import opened NackLists
  import opened NackListLemmas
  import opened NackListRuns

  lemma BatchStep(left: seq<NackInfo>, sent: seq<u16>, info: NackInfo, tail: seq<NackInfo>,
                  filter: Filter, lastSeq: u16, rtt: nat, now: nat)
    ensures var all := GetNackBatch([info] + tail, filter, lastSeq, rtt, now);
            var rest := GetNackBatch(tail, filter, lastSeq, rtt, now);
            if !Picks(filter, info, lastSeq, rtt, now) then
              left + all.0 == left + [info] + rest.0 && all.1 == rest.1
            else if info.retries + 1 >= MAX_NACK_RETRIES then
              all.0 == rest.0 && all.1 == rest.1
            else
              left + all.0 == left + [Sent(info, now)] + rest.0 && sent + all.1 == sent + [info.seqNum] + rest.1
  {
    hide Picks;
    assert ([info] + tail)[1..] == tail;
    var rest := GetNackBatch(tail, filter, lastSeq, rtt, now);
    assert left + ([info] + rest.0) == left + [info] + rest.0;
    assert left + ([Sent(info, now)] + rest.0) == left + [Sent(info, now)] + rest.0;
    assert sent + ([info.seqNum] + rest.1) == sent + [info.seqNum] + rest.1;
  }

  lemma BatchEnd(left: seq<NackInfo>, sent: seq<u16>, filter: Filter, lastSeq: u16, rtt: nat, now: nat)
    ensures var r := GetNackBatch([], filter, lastSeq, rtt, now);
            r.0 == [] && r.1 == [] && left + r.0 == left && sent + r.1 == sent
  {
  }

  class NackGenerator {
    var started: bool
    var lastSeq: u16
    var nackList: seq<NackInfo>
    var keyFrameList: seq<u16>
    var rtt: nat
    var timerActive: bool

    ghost function Value(): Generator
      reads this
    {
      Generator(started, lastSeq, nackList, keyFrameList, rtt, timerActive)
    }

    constructor ()
      ensures Value() == Initial() && Valid(Value())
    {
      started, lastSeq, nackList, keyFrameList, rtt, timerActive := false, 0, [], [], DEFAULT_RTT, false;
    }

    method ResetAll()
      modifies this
      ensures Value() == Reset(old(Value()))
    {
      started, lastSeq, rtt := false, 0, 0;
      nackList, keyFrameList := [], [];
      timerActive := false;
    }

    method MayRunTimer()
      modifies this`timerActive
      ensures timerActive == (old(timerActive) || nackList != [])
    {
      if nackList != [] {
        timerActive := true;
      }
    }

    method CleanOldNackItems(seqNum: u16)
      modifies this`nackList, this`keyFrameList
      ensures nackList == Prune(old(Value()), seqNum, false).nackList
      ensures keyFrameList == Prune(old(Value()), seqNum, false).keyFrameList
    {
      var oldest := Ahead(seqNum, MAX_PACKET_AGE);
      nackList := nackList[LowerBound(Keys(nackList), oldest)..];
      keyFrameList := keyFrameList[LowerBound(keyFrameList, oldest)..];
    }

    method RemoveNackItemsUntilKeyFrame()
      modifies this`nackList, this`keyFrameList
      ensures nackList ==
        if old(keyFrameList) == [] then old(nackList)
        else old(nackList)[LowerBound(Keys(old(nackList)), old(keyFrameList)[0])..]
      ensures keyFrameList == if old(keyFrameList) == [] then [] else old(keyFrameList)[1..]
    {
      if keyFrameList == [] {
        return;
      }
      nackList := nackList[LowerBound(Keys(nackList), keyFrameList[0])..];
      keyFrameList := keyFrameList[1..];
    }

    method PruneLists(seqNum: u16, isKeyFrame: bool)
      modifies this`nackList, this`keyFrameList
      ensures var r := Prune(old(Value()), seqNum, isKeyFrame);
              nackList == r.nackList && keyFrameList == r.keyFrameList
    {
      CleanOldNackItems(seqNum);
      if isKeyFrame {
        RemoveNackItemsUntilKeyFrame();
        keyFrameList := InsertKey(keyFrameList, seqNum);
      }
    }

    /** `resets` is the listener's decision; returns whether a key frame was required. The assertion in the loop is
        the one of the source. */
    method AddPacketsToNackList(seqStart: u16, seqEnd: u16, resets: bool) returns (keyFrameRequired: bool)
      requires Ahead(seqEnd, seqStart) <= MAX_NACK_PACKETS ==>
        && Sorted(nackList, seqEnd)
        && forall i :: 0 <= i < |nackList| ==> Ahead(seqEnd, nackList[i].seqNum) > Ahead(seqEnd, seqStart)
      modifies this
      ensures keyFrameRequired <==> |old(nackList)| + Ahead(seqEnd, seqStart) > MAX_NACK_PACKETS
      ensures Value() ==
        if !keyFrameRequired then old(Value()).(nackList := AddPackets(old(nackList), seqStart, seqEnd))
        else if resets then Reset(old(Value()))
        else old(Value()).(nackList := [], keyFrameList := [])
    {
      if |nackList| + Ahead(seqEnd, seqStart) > MAX_NACK_PACKETS {
        nackList, keyFrameList := [], [];
        if resets {
          ResetAll();
        }
        return true;
      }
      var s := seqStart;
      while s != seqEnd
        invariant Value() == old(Value()).(nackList := nackList)
        invariant AddPackets(nackList, s, seqEnd) == AddPackets(old(nackList), seqStart, seqEnd)
        invariant Ahead(seqEnd, s) <= MAX_NACK_PACKETS && Sorted(nackList, seqEnd)
        invariant forall i :: 0 <= i < |nackList| ==> Ahead(seqEnd, nackList[i].seqNum) > Ahead(seqEnd, s)
        decreases Ahead(seqEnd, s)
      {
        EmplaceAppends(nackList, NackInfo(s, s, 0, 0), seqEnd);
        assert s !in Keys(nackList);
        nackList := Emplace(nackList, NackInfo(s, s, 0, 0));
        s := Next(s);
      }
      return false;
    }

    method GetBatch(filter: Filter, now: nat) returns (nackBatch: seq<u16>)
      modifies this`nackList
      ensures (nackList, nackBatch) ==
        (var r := GetNackBatch(old(nackList), filter, lastSeq, rtt, now); (r.0, r.1))
    {
      hide GetNackBatch, Picks;
      nackBatch := [];
      var it := 0;
      ghost var r := GetNackBatch(nackList, filter, lastSeq, rtt, now);
      assert nackList[..0] == [] && nackList[0..] == nackList && [] + r.0 == r.0 && [] + r.1 == r.1;
      while it < |nackList|
        invariant it <= |nackList|
        invariant var rest := GetNackBatch(nackList[it..], filter, lastSeq, rtt, now);
                  r.0 == nackList[..it] + rest.0 && r.1 == nackBatch + rest.1
        decreases |nackList| - it
      {
        var info := nackList[it];
        ghost var before, tail := nackList[..it], nackList[it + 1..];
        assert nackList[it..] == [info] + tail;
        BatchStep(before, nackBatch, info, tail, filter, lastSeq, rtt, now);
        if Picks(filter, info, lastSeq, rtt, now) {
          info := info.(retries := info.retries + 1, sentAtTime := now);
          if info.retries >= MAX_NACK_RETRIES {
            nackList := nackList[..it] + nackList[it + 1..];
            assert nackList[..it] == before && nackList[it..] == tail;
          } else {
            nackBatch := nackBatch + [info.seqNum];
            nackList := nackList[it := info];
            it := it + 1;
            assert nackList[..it] == before + [info] && nackList[it..] == tail;
          }
        } else {
          it := it + 1;
          assert nackList[..it] == before + [info] && nackList[it..] == tail;
        }
      }
      assert nackList[it..] == [] && nackList[..it] == nackList;
      BatchEnd(nackList, nackBatch, filter, lastSeq, rtt, now);
    }

    /** The part of ReceivePacket for a packet newer than any before. */
    method ReceiveLatest(seqNum: u16, isKeyFrame: bool, now: nat, resets: bool)
      returns (nackBatch: seq<u16>, keyFrameRequired: bool)
      requires Valid(Value()) && now > 0 && started
      requires seqNum != lastSeq && !Lower(seqNum, lastSeq)
      modifies this
      ensures var (g, e) := ReceiveNewer(old(Value()), seqNum, isKeyFrame, now, resets);
              Value() == g && nackBatch == e.batch && keyFrameRequired == e.keyFrameRequired
    {
      hide Sorted, EntriesOk, AddPackets, GetNackBatch, Prune;
      ghost var was := Value();
      NewerIsAhead(seqNum, lastSeq);
      if Ahead(seqNum, lastSeq) <= MAX_NACK_PACKETS + 1 {
        PrunedIsValid(was, seqNum, isKeyFrame);
      }
      nackBatch, keyFrameRequired := [], false;
      PruneLists(seqNum, isKeyFrame);
      if seqNum as int == lastSeq + 1 {
        lastSeq := lastSeq + 1;
        return;
      }
      keyFrameRequired := AddPacketsToNackList(Next(lastSeq), seqNum, resets);
      if !started {
        return;
      }
      lastSeq := seqNum;
      if keyFrameRequired {
        BatchEnd([], [], BySeq, lastSeq, rtt, now);
      }
      nackBatch := GetBatch(BySeq, now);
      MayRunTimer();
    }

    /** `resets` is what the listener does when it is asked for a key frame. */
    method Receive(seqNum: u16, isKeyFrame: bool, now: nat, resets: bool)
      returns (found: bool, nackBatch: seq<u16>, keyFrameRequired: bool)
      requires Valid(Value()) && now > 0
      modifies this
      ensures Valid(Value())
      ensures var (g, e) := ReceivePacket(old(Value()), seqNum, isKeyFrame, now, resets);
              Value() == g && found == e.found && nackBatch == e.batch && keyFrameRequired == e.keyFrameRequired
    {
      ReceivePacketKeepsValid(Value(), seqNum, isKeyFrame, now, resets);
      if started && seqNum != lastSeq && !Lower(seqNum, lastSeq) {
        NewerIsNotFound(Value(), Packet(seqNum, isKeyFrame, now, resets));
      }
      hide ReceiveNewer, Valid, Lower;
      found, nackBatch, keyFrameRequired := false, [], false;
      if !started {
        lastSeq, started := seqNum, true;
        if isKeyFrame {
          keyFrameList := InsertKey(keyFrameList, seqNum);
        }
        return;
      }
      if seqNum == lastSeq {
        return;
      }
      if Lower(seqNum, lastSeq) {
        var it := Find(nackList, seqNum);
        if it < |nackList| {
          nackList := nackList[..it] + nackList[it + 1..];
          found := true;
        }
        return;
      }
      nackBatch, keyFrameRequired := ReceiveLatest(seqNum, isKeyFrame, now, resets);
    }

    method Fire(now: nat) returns (nackBatch: seq<u16>)
      requires Valid(Value()) && now > 0
      modifies this
      ensures Valid(Value())
      ensures var (g, e) := OnTimer(old(Value()), now); Value() == g && nackBatch == e.batch
    {
      OnTimerKeepsValid(Value(), now);
      timerActive := false;
      nackBatch := GetBatch(ByTime, now);
      MayRunTimer();
    }
  }
}
