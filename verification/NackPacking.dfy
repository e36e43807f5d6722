/** The RTCP generic NACK items (section 6.2.1 of RFC 4585): packing a batch of lost sequence numbers into
    (pid, bitmask) pairs, and the walk that turns a pair back into the sequence numbers it requests. */
module NackPacking {
  import opened Seq16

  /** FeedbackRtpNackItem. */
  datatype Item = Item(pid: u16, bitmask: u16)

  // ----- 16-bit masks, bit 0 first

  predicate Bit(mask: nat, i: nat)
  {
    if i == 0 then mask % 2 == 1 else Bit(mask / 2, i - 1)
  }

  /** `mask | (1 << i)`. */
  function SetBit(mask: nat, i: nat): (r: nat)
  {
    if i == 0 then (if mask % 2 == 1 then mask else mask + 1) else mask % 2 + 2 * SetBit(mask / 2, i - 1)
  }

  function Pow2(n: nat): (r: nat)
    ensures r >= 1
  {
    if n == 0 then 1 else 2 * Pow2(n - 1)
  }

  lemma {:induction false} SetBitSets(mask: nat, i: nat, j: nat)
    ensures Bit(SetBit(mask, i), j) <==> Bit(mask, j) || j == i
  {
    if i > 0 && j > 0 {
      SetBitSets(mask / 2, i - 1, j - 1);
      assert SetBit(mask, i) / 2 == SetBit(mask / 2, i - 1);
    }
  }

  lemma {:induction false} SetBitFits(mask: nat, i: nat, n: nat)
    requires mask < Pow2(n) && i < n
    ensures SetBit(mask, i) < Pow2(n)
  {
    var half := mask / 2;
    assert mask == 2 * half + mask % 2;
    if i > 0 {
      assert half < Pow2(n - 1);
      SetBitFits(half, i - 1, n - 1);
    }
  }

  lemma Pow2Of16()
    ensures Pow2(16) == MOD
  {
    assert Pow2(8) == 256;
    assert Pow2(12) == 4096;
  }

  lemma NoBitInZero(i: nat)
    ensures !Bit(0, i)
  {
  }

  // ----- The walk over one item

  /** The numbers the bits of `mask` ask for, when its bit 0 stands for `seqNum`. */
  function Numbers(seqNum: u16, mask: nat): (r: seq<u16>)
    decreases mask
  {
    if mask == 0 then []
    else (if mask % 2 == 1 then [seqNum] else []) + Numbers(Next(seqNum), mask / 2)
  }

  /** What an item requests, in the order the sender looks the packets up: the pid, then the bits upwards. */
  function Requested(item: Item): (r: seq<u16>)
  {
    [item.pid] + Numbers(Next(item.pid), item.bitmask)
  }

  function RequestedAll(items: seq<Item>): (r: seq<u16>)
  {
    if items == [] then [] else Requested(items[0]) + RequestedAll(items[1..])
  }

  lemma NumbersUnfold(seqNum: u16, mask: nat, x: u16)
    ensures x in Numbers(seqNum, mask) <==>
              mask != 0 && ((mask % 2 == 1 && x == seqNum) || x in Numbers(Next(seqNum), mask / 2))
  {
  }

  lemma BitUnfolds(mask: nat, i: nat)
    ensures Bit(mask, i) <==> if i == 0 then mask % 2 == 1 else Bit(mask / 2, i - 1)
  {
  }

  lemma HalfFits(mask: nat, n: nat)
    requires 0 < mask < Pow2(n)
    ensures n > 0 && mask / 2 < Pow2(n - 1)
  {
  }

  lemma {:induction false} NumbersAreBits(seqNum: u16, mask: nat, n: nat, x: u16)
    requires mask < Pow2(n) && n <= 16
    ensures x in Numbers(seqNum, mask) <==> Bit(mask, Ahead(x, seqNum))
    decreases n
  {
    hide Numbers, Bit, Pow2, Next, Ahead;
    NumbersUnfold(seqNum, mask, x);
    if mask == 0 {
      NoBitInZero(Ahead(x, seqNum));
    } else {
      HalfFits(mask, n);
      AheadOfNext(x, seqNum);
      BitUnfolds(mask, Ahead(x, seqNum));
      AheadIsZeroIff(x, seqNum);
      NumbersAreBits(Next(seqNum), mask / 2, n - 1, x);
      NumbersBound(Next(seqNum), mask / 2, n - 1);
    }
  }

  lemma AheadIsZeroIff(x: u16, y: u16)
    ensures Ahead(x, y) == 0 <==> x == y
  {
  }

  /** Every number lies less than `n` ahead of the first, and they come in strictly ascending distance. */
  lemma {:induction false} NumbersBound(seqNum: u16, mask: nat, n: nat)
    requires mask < Pow2(n) && n <= 16
    ensures var r := Numbers(seqNum, mask);
            && |r| <= n
            && (forall k :: 0 <= k < |r| ==> Ahead(r[k], seqNum) < n)
            && (forall k, l :: 0 <= k < l < |r| ==> Ahead(r[k], seqNum) < Ahead(r[l], seqNum))
    decreases n
  {
    if mask != 0 {
      var next := Next(seqNum);
      var rest := Numbers(next, mask / 2);
      NumbersBound(next, mask / 2, n - 1);
      var r := Numbers(seqNum, mask);
      var off := |r| - |rest|;
      forall k | off <= k < |r|
        ensures r[k] == rest[k - off] && Ahead(r[k], seqNum) == Ahead(rest[k - off], next) + 1
      {
        AheadOfNext(r[k], seqNum);
      }
    }
  }

  /** An item requests between 1 and 17 numbers, all different, and as many as CountRequestedPackets() says. */
  lemma RequestedIsSmallAndDistinct(item: Item)
    ensures var r := Requested(item);
            && 1 <= |r| <= 17
            && |r| == CountRequestedPackets(item)
            && (forall k :: 0 <= k < |r| ==> Ahead(r[k], item.pid) <= 16)
            && (forall k, l :: 0 <= k < l < |r| ==> Ahead(r[k], item.pid) < Ahead(r[l], item.pid))
  {
    Pow2Of16();
    var first := Next(item.pid);
    var rest := Numbers(first, item.bitmask);
    NumbersBound(first, item.bitmask, 16);
    NumbersCount(first, item.bitmask);
    var r := Requested(item);
    forall k | 1 <= k < |r|
      ensures r[k] == rest[k - 1] && Ahead(r[k], item.pid) == Ahead(rest[k - 1], first) + 1
    {
      AheadOfNext(r[k], item.pid);
    }
  }

  // ----- Counting

  /** `Utils::Bits::CountSetBits`. */
  function CountSetBits(mask: nat): (r: nat)
  {
    if mask == 0 then 0 else mask % 2 + CountSetBits(mask / 2)
  }

  /** FeedbackRtpNackItem::CountRequestedPackets. */
  function CountRequestedPackets(item: Item): (r: nat)
  {
    CountSetBits(item.bitmask) + 1
  }

  lemma {:induction false} NumbersCount(seqNum: u16, mask: nat)
    ensures |Numbers(seqNum, mask)| == CountSetBits(mask)
    decreases mask
  {
    if mask != 0 {
      NumbersCount(Next(seqNum), mask / 2);
    }
  }

  // ----- Packing a batch

  /** Each number is 1..32767 ahead of the one before it: the order in which a NACK batch is listed. */
  predicate Ascending(list: seq<u16>)
  {
    forall i :: 0 < i < |list| ==> 1 <= Ahead(list[i], list[i - 1]) <= MAX / 2
  }

  lemma {:induction false} RequestedAllAppend(items: seq<Item>, item: Item)
    ensures RequestedAll(items + [item]) == RequestedAll(items) + Requested(item)
  {
    if items == [] {
      assert RequestedAll([item]) == Requested(item) + RequestedAll([]);
    } else {
      RequestedAllAppend(items[1..], item);
      assert (items + [item])[1..] == items[1..] + [item];
    }
  }

  /** Adding bit `i` to a mask adds exactly the number it stands for. */
  lemma RequestedWithBit(item: Item, i: nat, x: u16)
    requires i <= 15
    ensures SetBit(item.bitmask, i) < MOD
    ensures x in Requested(item.(bitmask := SetBit(item.bitmask, i)))
       <==> x in Requested(item) || Ahead(x, Next(item.pid)) == i
  {
    Pow2Of16();
    var first := Next(item.pid);
    SetBitFits(item.bitmask, i, 16);
    SetBitSets(item.bitmask, i, Ahead(x, first));
    NumbersAreBits(first, item.bitmask, 16, x);
    NumbersAreBits(first, SetBit(item.bitmask, i), 16, x);
  }

  lemma SetBitHalves(mask: nat, i: nat)
    requires i > 0
    ensures SetBit(mask, i) / 2 == SetBit(mask / 2, i - 1) && SetBit(mask, i) % 2 == mask % 2
    ensures SetBit(mask, i) > 0
  {
    SetBitSets(mask, i, i);
    NoBitInZero(i);
  }

  /** A bit above all the others comes last in the walk. */
  lemma {:induction false} NumbersWithTopBit(seqNum: u16, mask: nat, i: nat, x: u16)
    requires mask < Pow2(i) && Ahead(x, seqNum) == i
    ensures Numbers(seqNum, SetBit(mask, i)) == Numbers(seqNum, mask) + [x]
    decreases i
  {
    hide SetBit;
    if i > 0 {
      var half := mask / 2;
      assert half < Pow2(i - 1);
      AheadOfNext(x, seqNum);
      NumbersWithTopBit(Next(seqNum), half, i - 1, x);
      SetBitHalves(mask, i);
      assert Numbers(Next(seqNum), 0) == [];
    } else {
      SetFirstBit();
      assert Numbers(Next(seqNum), 0) == [];
    }
  }

  lemma SetFirstBit()
    ensures SetBit(0, 0) == 1
  {
  }

  lemma {:induction false} SetTopBitFits(mask: nat, i: nat)
    requires mask < Pow2(i)
    ensures SetBit(mask, i) < Pow2(i + 1)
  {
    SetBitFits(mask, i, i + 1);
  }

  lemma {:induction false} Pow2Grows(i: nat, j: nat)
    requires i <= j
    ensures Pow2(i) <= Pow2(j)
    decreases j
  {
    if i < j {
      Pow2Grows(i, j - 1);
    }
  }

  ghost predicate SameNumbers(a: seq<u16>, b: seq<u16>)
  {
    forall x :: x in a <==> x in b
  }

  /** `item` holds exactly the numbers of `part`, and in its order if that ascends. */
  ghost predicate Holds(item: Item, part: seq<u16>)
  {
    && part != [] && item.pid == part[0]
    && SameNumbers(Requested(item), part)
    && (Ascending(part) ==>
          && Requested(item) == part
          && Ahead(part[|part| - 1], item.pid) <= 16
          && item.bitmask < Pow2(Ahead(part[|part| - 1], item.pid)))
  }

  lemma HoldsOne(x: u16)
    ensures Holds(Item(x, 0), [x])
  {
    assert Requested(Item(x, 0)) == [x];
  }

  lemma AscendingPrefix(part: seq<u16>, x: u16)
    requires part != [] && Ascending(part + [x])
    ensures Ascending(part) && 1 <= Ahead(x, part[|part| - 1]) <= MAX / 2
  {
    var whole := part + [x];
    assert whole[|part|] == x && whole[|part| - 1] == part[|part| - 1];
    forall i | 0 < i < |part|
      ensures 1 <= Ahead(part[i], part[i - 1]) <= MAX / 2
    {
      assert whole[i] == part[i] && whole[i - 1] == part[i - 1];
    }
  }

  lemma HoldsOneMoreNumber(item: Item, part: seq<u16>, x: u16, shift: nat)
    requires Holds(item, part)
    requires shift == Ahead(x, Next(item.pid)) <= 15
    ensures SetBit(item.bitmask, shift) < MOD
    ensures SameNumbers(Requested(item.(bitmask := SetBit(item.bitmask, shift))), part + [x])
  {
    RequestedWithBit(item, shift, x);
    var more := item.(bitmask := SetBit(item.bitmask, shift));
    forall y
      ensures y in Requested(more) <==> y in part + [x]
    {
      RequestedWithBit(item, shift, y);
      assert y in part + [x] <==> y in part || y == x;
    }
  }

  lemma HoldsOneMoreInOrder(item: Item, part: seq<u16>, x: u16, shift: nat)
    requires Holds(item, part) && Ascending(part + [x])
    requires shift == Ahead(x, Next(item.pid)) <= 15
    requires SetBit(item.bitmask, shift) < MOD
    ensures Requested(item.(bitmask := SetBit(item.bitmask, shift))) == part + [x]
    ensures SetBit(item.bitmask, shift) < Pow2(shift + 1)
  {
    AscendingPrefix(part, x);
    var top := Ahead(part[|part| - 1], item.pid);
    AheadOfNext(x, item.pid);
    assert top <= shift;
    Pow2Grows(top, shift);
    NumbersWithTopBit(Next(item.pid), item.bitmask, shift, x);
    SetTopBitFits(item.bitmask, shift);
  }

  lemma HoldsOneMore(item: Item, part: seq<u16>, x: u16, shift: nat)
    requires Holds(item, part)
    requires shift == Ahead(x, Next(item.pid)) <= 15
    ensures SetBit(item.bitmask, shift) < MOD
    ensures Holds(item.(bitmask := SetBit(item.bitmask, shift)), part + [x])
  {
    AheadOfNext(x, item.pid);
    HoldsOneMoreNumber(item, part, x, shift);
    if Ascending(part + [x]) {
      HoldsOneMoreInOrder(item, part, x, shift);
    }
  }

  /** The items packed so far hold exactly the numbers of `done`. */
  ghost predicate HoldAll(items: seq<Item>, done: seq<u16>)
  {
    && SameNumbers(RequestedAll(items), done)
    && (Ascending(done) ==> RequestedAll(items) == done)
  }

  lemma HoldAllAppend(items: seq<Item>, done: seq<u16>, item: Item, part: seq<u16>)
    requires HoldAll(items, done) && Holds(item, part)
    ensures HoldAll(items + [item], done + part)
    ensures RequestedAll(items + [item]) == RequestedAll(items) + Requested(item)
  {
    RequestedAllAppend(items, item);
    if Ascending(done + part) {
      var whole := done + part;
      forall i | 0 < i < |done|
        ensures 1 <= Ahead(done[i], done[i - 1]) <= MAX / 2
      {
        assert whole[i] == done[i] && whole[i - 1] == done[i - 1];
      }
      forall i | 0 < i < |part|
        ensures 1 <= Ahead(part[i], part[i - 1]) <= MAX / 2
      {
        assert whole[|done| + i] == part[i] && whole[|done| + i - 1] == part[i - 1];
      }
    }
  }

  /** RtpStreamRecv::OnNackGeneratorNackRequired, up to the serialization of the items. Walked again by the
      sender, the items ask for exactly the batch, and in its own order when the batch ascends. */
  method Pack(list: seq<u16>) returns (items: seq<Item>, numPacketsRequested: nat)
    ensures forall x :: x in RequestedAll(items) <==> x in list
    ensures Ascending(list) ==> RequestedAll(items) == list
    ensures numPacketsRequested == |RequestedAll(items)|
    ensures |items| <= |list|
  {
    hide Holds, SetBit, Ascending, Requested;
    items, numPacketsRequested := [], 0;
    var it := 0;
    while it < |list|
      invariant it <= |list|
      invariant HoldAll(items, list[..it])
      invariant numPacketsRequested == |RequestedAll(items)|
      invariant |items| <= it
    {
      ghost var start := it;
      var item := Item(list[it], 0);
      it := it + 1;
      HoldsOne(list[start]);
      assert list[start..it] == [list[start]];
      while it < |list|
        invariant start < it <= |list|
        invariant Holds(item, list[start..it])
      {
        // uint16_t shift = *it - seq - 1
        var shift := Ahead(list[it], Next(item.pid));
        if shift > 15 {
          break;
        }
        HoldsOneMore(item, list[start..it], list[it], shift);
        item := item.(bitmask := SetBit(item.bitmask, shift));
        assert list[start..it + 1] == list[start..it] + [list[it]];
        it := it + 1;
      }
      HoldAllAppend(items, list[..start], item, list[start..it]);
      RequestedIsSmallAndDistinct(item);
      assert list[..it] == list[..start] + list[start..it];
      items := items + [item];
      numPacketsRequested := numPacketsRequested + CountRequestedPackets(item);
    }
    assert list[..|list|] == list;
  }
}
