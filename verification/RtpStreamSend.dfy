/** The retransmission part of RtpStreamSend, on arrays. Each method computes the function of module SendBuffers
    that carries its name; the guarantees are proved about those functions. */
module RtpStreamSends {
  import opened Seq16
  import opened Bytes
  import opened RtpPackets
  import opened NackPacking
  import opened SendBuffers
  import SendBufferLemmas
  import SendBufferRuns

  /** The container of the source has room for the initial number, the 16 of the bitmask and a terminator. */
  const MAX_REQUESTED_PACKETS := 17

  class RtpStreamSend {
    const params: Params
    const useNack: bool
    const buffer: array<int>
    const storage: array<StorageItem>
    const container: array<int>
    var bufferStartIdx: u16
    var bufferSize: nat
    var rtxSeq: u16

    ghost function Value(): SendBuffer
      reads this, buffer, storage
    {
      if storage.Length == 0 then Empty(0, rtxSeq)
      else SendBuffer(buffer[..], storage[..], bufferStartIdx, bufferSize, rtxSeq)
    }

    /** With NACK there is a buffer; consumers ask for one of 600 packets. */
    ghost predicate Ok()
      reads this, buffer, storage
    {
      && buffer.Length == (if storage.Length == 0 then 0 else MOD)
      && container.Length == MAX_REQUESTED_PACKETS + 1
      && container != buffer && container as object != storage
      && (useNack ==> storage.Length > 0)
      && params.clockRate > 0
      && Valid(Value())
    }

    constructor (params: Params, useNack: bool, capacity: nat, rtxSeq: u16)
      requires params.clockRate > 0 && (useNack ==> capacity > 0)
      ensures Ok() && fresh(buffer) && fresh(storage) && fresh(container)
      ensures this.params == params && this.useNack == useNack
      ensures Value() == Empty(capacity, rtxSeq)
    {
      this.params, this.useNack := params, useNack;
      buffer := new int[if capacity == 0 then 0 else MOD](i => NONE);
      storage := new StorageItem[capacity](i => EMPTY_ITEM);
      container := new int[MAX_REQUESTED_PACKETS + 1];
      bufferStartIdx, bufferSize := 0, 0;
      this.rtxSeq := rtxSeq;
      new;
      if capacity > 0 {
        assert buffer[..] == seq(MOD, i => NONE);
        assert storage[..] == seq(capacity, i => EMPTY_ITEM);
      }
    }

    method UpdateBufferStartIdx()
      requires buffer.Length == MOD
      modifies this`bufferStartIdx
      ensures bufferStartIdx == UpdateStart(buffer[..], old(bufferStartIdx))
    {
      var s := Next(bufferStartIdx);
      var idx := 0;
      while idx < buffer.Length
        invariant idx <= MOD && bufferStartIdx == old(bufferStartIdx)
        invariant UpdateStart(buffer[..], bufferStartIdx) == NextOccupied(buffer[..], s, MOD - idx, bufferStartIdx)
      {
        if buffer[s] != NONE {
          bufferStartIdx := s;
          break;
        }
        idx, s := idx + 1, Next(s);
      }
    }

    method ResetStorageItem(k: nat)
      requires k < storage.Length
      modifies storage
      ensures storage[..] == old(storage[..])[k := EMPTY_ITEM]
    {
      storage[k] := storage[k].(packet := None, resentAtTime := 0, sentTimes := 0, rtxEncoded := false);
    }

    /** A pool of one item would fail the assertion of ResetStorageItem, as PoolNeedsTwoItems says. */
    method StorePacket(p: Packet)
      requires Ok() && storage.Length >= 2
      modifies this, buffer, storage
      ensures Ok()
      ensures CanStore(old(Value()), p) && Value() == Store(old(Value()), p)
    {
      hide Valid, Shape, Inverse, UpdateStart;
      ghost var was := Value();
      StoreKeepsValid(was, p);
      PoolFacts(was, p.sequenceNumber);
      if Size(p) > MTU_SIZE {
        return;
      }
      var s := p.sequenceNumber;
      var k := buffer[s];
      if bufferSize == 0 {
        k := 0;
        buffer[s] := k;
        bufferSize := bufferSize + 1;
        bufferStartIdx := s;
      } else if k != NONE {
        if p.timestamp == storage[k].packet.value.timestamp {
          return;
        }
        ResetStorageItem(k);
        if bufferStartIdx == s {
          UpdateBufferStartIdx();
        }
      } else if bufferSize < storage.Length {
        k := bufferSize;
        buffer[s] := k;
        bufferSize := bufferSize + 1;
      } else {
        k := buffer[bufferStartIdx];
        ResetStorageItem(k);
        buffer[bufferStartIdx] := NONE;
        assert buffer[..] == was.index[was.startIdx := NONE];
        UpdateBufferStartIdx();
        buffer[s] := k;
      }
      storage[k] := storage[k].(packet := Some(p));
      assert buffer[..] == Store(was, p).index;
      assert storage[..] == Store(was, p).storage;
    }

    method ClearBuffer()
      requires Ok()
      modifies this, buffer, storage
      ensures Ok()
      ensures Value() == Empty(storage.Length, old(rtxSeq))
    {
      if storage.Length == 0 {
        return;
      }
      ghost var was := Value();
      var idx := 0;
      while idx < buffer.Length
        invariant idx <= MOD
        invariant forall s :: 0 <= s < MOD ==> buffer[s] == if s < idx then NONE else was.index[s]
        invariant forall k :: 0 <= k < storage.Length ==>
          storage[k] == EMPTY_ITEM || (storage[k] == was.storage[k] && k < was.size && OriginalSeq(storage[k]) >= idx)
        invariant rtxSeq == old(rtxSeq)
      {
        var k := buffer[idx];
        if k != NONE {
          ResetStorageItem(k);
          buffer[idx] := NONE;
        }
        idx := idx + 1;
      }
      bufferStartIdx, bufferSize := 0, 0;
      assert buffer[..] == Empty(storage.Length, rtxSeq).index;
      assert storage[..] == Empty(storage.Length, rtxSeq).storage;
    }

    /** The RTX block shared by the two methods below: encodes the stored packet, or renumbers it. */
    method EncodeStored(s: u16)
      requires Ok() && Value().index[s] != NONE
      modifies this`rtxSeq, storage
      ensures Ok()
      ensures Value() == EncodeSlot(old(Value()), params, s)
    {
      ghost var was := Value();
      EncodeSlotKeepsValid(was, params, s);
      if HasRtx(params) {
        var k := buffer[s];
        rtxSeq := Next(rtxSeq);
        var p := storage[k].packet.value;
        if !storage[k].rtxEncoded {
          storage[k] := storage[k].(packet := Some(RtxEncode(p, params.rtxPayloadType, params.rtxSsrc, rtxSeq)),
                                    rtxEncoded := true);
        } else {
          storage[k] := storage[k].(packet := Some(p.(sequenceNumber := rtxSeq)));
        }
      }
      assert storage[..] == EncodeSlot(was, params, s).storage;
    }

    /** Returns the packet handed to the listener, if any. */
    method SendProbationRtpPacket(s: u16) returns (sent: Option<Packet>)
      requires Ok()
      modifies this`rtxSeq, storage
      ensures Ok()
      ensures Value() == Probation(old(Value()), params, s)
      ensures sent == if Value().index[s] == NONE then None else Value().storage[Value().index[s]].packet
    {
      if storage.Length == 0 || buffer[s] == NONE {
        return None;
      }
      EncodeStored(s);
      sent := storage[buffer[s]].packet;
    }

    /** The body of the walk for one requested number: resends the packet unless it is missing, too old or was
        resent within the last RTT. Returns its pool position, or NONE. */
    method Request(s: u16, m: Moment) returns (k: int)
      requires Ok() && storage.Length > 0
      modifies this`rtxSeq, storage
      ensures Ok()
      ensures if Resendable(old(Value()), params, m, s)
              then k == old(Value()).index[s] && Value() == Resend(old(Value()), params, m, s)
              else k == NONE && Value() == old(Value())
    {
      ghost var was := Value();
      k := buffer[s];
      if k == NONE {
        return;
      }
      if AgeMs(params, m, storage[k].packet.value) > MAX_RETRANSMISSION_DELAY {
        return NONE;
      }
      if storage[k].resentAtTime != 0 && 0 <= m.now - storage[k].resentAtTime <= m.rtt {
        return NONE;
      }
      ResendKeepsValid(was, params, m, s);
      EncodeStored(s);
      storage[k] := MarkSent(storage[k], m.now);
      assert storage[..] == Resend(was, params, m, s).storage;
    }

    /** Fills `container` with pool positions, ended by NONE. */
    method FillRetransmissionContainer(item: Item, m: Moment) returns (ghost resent: seq<u16>)
      requires Ok()
      modifies this`rtxSeq, storage, container
      ensures Ok()
      ensures (Value(), resent) ==
        if useNack then Fill(old(Value()), params, m, Requested(item)) else (old(Value()), [])
      ensures |resent| <= MAX_REQUESTED_PACKETS && container[|resent|] == NONE
      ensures forall i :: 0 <= i < |resent| ==>
        Value().index[resent[i]] != NONE && container[i] == Value().index[resent[i]]
    {
      hide Valid, Fill, Resend, Resendable, EncodeSlot;
      resent := [];
      container[0] := NONE;
      if !useNack {
        return;
      }
      ghost var was := Value();
      ghost var total := Fill(was, params, m, Requested(item));
      RequestedIsSmallAndDistinct(item);
      var requested, seqNum, bitmask, containerIdx := true, item.pid, item.bitmask, 0;
      ghost var left := Requested(item);
      assert Value() == was && [] + total.1 == total.1;
      while requested || bitmask != 0
        invariant Ok() && storage.Length > 0
        invariant left == (if requested then [seqNum] else []) + Numbers(Next(seqNum), bitmask)
        invariant Value().index == was.index
        invariant total == (Fill(Value(), params, m, left).0, resent + Fill(Value(), params, m, left).1)
        invariant containerIdx == |resent| && |resent| + |left| <= MAX_REQUESTED_PACKETS
        invariant forall i :: 0 <= i < |resent| ==> was.index[resent[i]] != NONE && container[i] == was.index[resent[i]]
        decreases bitmask, requested
      {
        if requested {
          FillStep(Value(), params, m, resent, left);
          assert left[0] == seqNum && left[1..] == Numbers(Next(seqNum), bitmask);
          var k := Request(seqNum, m);
          if k != NONE {
            container[containerIdx] := k;
            containerIdx := containerIdx + 1;
            resent := resent + [seqNum];
          }
          left := left[1..];
        }
        requested := bitmask % 2 == 1;
        bitmask := bitmask / 2;
        seqNum := Next(seqNum);
      }
      FillNothing(Value(), params, m, resent);
      container[containerIdx] := NONE;
    }

    /** Returns what it hands to the listener, in order. */
    method ReceiveNack(items: seq<Item>, m: Moment) returns (sent: seq<Packet>)
      requires Ok()
      modifies this`rtxSeq, storage, container
      ensures Ok()
      ensures (Value(), sent) ==
        if useNack then SendBufferRuns.ReceiveNack(old(Value()), params, m, items) else (old(Value()), [])
    {
      hide Valid, Fill, SendBufferRuns.ReceiveNack, SendBufferRuns.Answers;
      sent := [];
      ghost var was := Value();
      ghost var total := SendBufferRuns.ReceiveNack(was, params, m, items);
      assert items[0..] == items && [] + total.1 == total.1;
      var it := 0;
      while it < |items|
        invariant it <= |items| && Ok()
        invariant useNack ==>
          var r := SendBufferRuns.ReceiveNack(Value(), params, m, items[it..]); total == (r.0, sent + r.1)
        invariant !useNack ==> Value() == was && sent == []
      {
        assert items[it..][0] == items[it] && items[it..][1..] == items[it + 1..];
        if useNack {
          SendBufferRuns.NackStep(Value(), params, m, sent, items[it..]);
        }
        ghost var resent := FillRetransmissionContainer(items[it], m);
        forall i | 0 <= i < |resent|
          ensures 0 <= container[i] < storage.Length && storage[container[i]].packet.Some?
        {
          SlotIsInPool(Value(), resent[i]);
        }
        ghost var sentBefore := sent;
        SendBufferRuns.AnswersGrow(Value(), resent);
        var i := 0;
        while container[i] != NONE
          invariant i <= |resent| && sent == sentBefore + SendBufferRuns.Answers(Value(), resent[..i])
          decreases |resent| - i
        {
          sent := sent + [storage[container[i]].packet.value];
          i := i + 1;
        }
        it := it + 1;
      }
      if useNack {
        assert items[|items|..] == [];
        SendBufferRuns.NackNothing(Value(), params, m, sent);
      }
    }
  }
}
