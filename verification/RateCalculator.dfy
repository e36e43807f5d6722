/** RateCalculator: how many bytes passed in the last `windowSize` milliseconds, kept in a ring of counters. */
module RateCalculators {
  const MOD64 := 0x1_0000_0000_0000_0000

  type u64 = x: int | 0 <= x < MOD64

  function Sub64(a: u64, b: u64): u64
  {
    if a >= b then a - b else a - b + MOD64
  }

  function Add64(a: u64, b: u64): u64
  {
    if a + b < MOD64 then a + b else a + b - MOD64
  }

  type WindowSize = w: u64 | 0 < w < 0x8000_0000 witness 1

  datatype Rate = Rate(
    windowSize: WindowSize,
    scale: nat,
    buffer: seq<nat>,
    oldestTime: u64,
    oldestIndex: nat,
    totalCount: int,
    bytes: nat,
    lastRate: int,
    lastTime: u64)

  predicate WellFormed(r: Rate)
  {
    |r.buffer| == r.windowSize && r.oldestIndex < r.windowSize
  }

  function Zeros(n: nat): (s: seq<nat>)
    ensures |s| == n
    ensures forall i :: 0 <= i < n ==> s[i] == 0
  {
    seq(n, i => 0)
  }

  function Initial(windowSize: WindowSize, scale: nat, now: u64): (r: Rate)
    ensures WellFormed(r)
  {
    Rate(windowSize, scale, Zeros(windowSize), Sub64(now, windowSize), 0, 0, 0, 0, 0)
  }

  /** Reset(now). */
  function Reset(r: Rate, now: u64): (s: Rate)
    ensures WellFormed(s)
  {
    r.(buffer := Zeros(r.windowSize), oldestTime := Sub64(now, r.windowSize), oldestIndex := 0, totalCount := 0,
       lastRate := 0, lastTime := 0)
  }

  /** The oldest millisecond leaves the window. */
  function Pop(r: Rate): (s: Rate)
    requires WellFormed(r) && r.oldestTime < MOD64 - 1
    ensures WellFormed(s)
  {
    r.(totalCount := r.totalCount - r.buffer[r.oldestIndex],
       buffer := r.buffer[r.oldestIndex := 0],
       oldestIndex := if r.oldestIndex + 1 >= r.windowSize then 0 else r.oldestIndex + 1,
       oldestTime := r.oldestTime + 1)
  }

  function PopTo(r: Rate, newOldestTime: u64): (s: Rate)
    requires WellFormed(r)
    ensures WellFormed(s) && s.windowSize == r.windowSize && s.scale == r.scale && s.bytes == r.bytes
    decreases newOldestTime - r.oldestTime
  {
    if r.oldestTime >= newOldestTime then r else PopTo(Pop(r), newOldestTime)
  }

  function RemoveOldData(r: Rate, now: u64): (s: Rate)
    requires WellFormed(r)
    ensures WellFormed(s) && s.windowSize == r.windowSize && s.scale == r.scale && s.bytes == r.bytes
  {
    var newOldestTime := Sub64(now, r.windowSize);
    if newOldestTime <= r.oldestTime then r
    else if newOldestTime > Add64(r.oldestTime, r.windowSize) then Reset(r, now)
    else PopTo(r, newOldestTime)
  }

  /** The slot of the newest millisecond. */
  function NewestIndex(r: Rate): (i: nat)
    requires WellFormed(r)
    ensures i < r.windowSize
  {
    if r.oldestIndex == 0 then r.windowSize - 1 else r.oldestIndex - 1
  }

  function Update(r: Rate, size: nat, now: u64): (s: Rate)
    requires WellFormed(r)
    ensures WellFormed(s)
  {
    if now < r.oldestTime then r
    else
      var q := RemoveOldData(r.(bytes := r.bytes + size), now);
      var i := NewestIndex(q);
      q.(buffer := q.buffer[i := q.buffer[i] + size], totalCount := q.totalCount + size, lastRate := 0, lastTime := 0)
  }

  /** totalCount * (scale / windowSize), rounded, over the rationals. */
  function RateOf(totalCount: int, scale: nat, windowSize: WindowSize): int
  {
    (2 * totalCount * scale + windowSize) / (2 * windowSize)
  }

  function GetRate(r: Rate, now: u64): (Rate, int)
    requires WellFormed(r)
  {
    if now == r.lastTime then (r, r.lastRate)
    else
      var q := RemoveOldData(r, now);
      var rate := RateOf(q.totalCount, q.scale, q.windowSize);
      (q.(lastTime := now, lastRate := rate), rate)
  }

  // ----- The counters with their array

  class RateCalculator {
    const windowSize: WindowSize
    const scale: nat
    var buffer: array<nat>
    var oldestTime: u64
    var oldestIndex: nat
    var totalCount: int
    var bytes: nat
    var lastRate: int
    var lastTime: u64

    ghost function Value(): Rate
      reads this, buffer
    {
      Rate(windowSize, scale, buffer[..], oldestTime, oldestIndex, totalCount, bytes, lastRate, lastTime)
    }

    constructor (windowSize: WindowSize, scale: nat, now: u64)
      ensures Value() == Initial(windowSize, scale, now) && fresh(buffer)
    {
      this.windowSize, this.scale := windowSize, scale;
      buffer := new nat[windowSize](i => 0);
      oldestTime, oldestIndex, totalCount, bytes, lastRate, lastTime := Sub64(now, windowSize), 0, 0, 0, 0, 0;
      new;
      assert buffer[..] == Zeros(windowSize);
    }

    method DoReset(now: u64)
      modifies this
      ensures Value() == Reset(old(Value()), now) && fresh(buffer)
    {
      buffer := new nat[windowSize](i => 0);
      oldestTime, oldestIndex, totalCount, lastRate, lastTime := Sub64(now, windowSize), 0, 0, 0, 0;
      assert buffer[..] == Zeros(windowSize);
    }

    method DoRemoveOldData(now: u64)
      requires WellFormed(Value())
      modifies this, buffer
      ensures Value() == RemoveOldData(old(Value()), now)
      ensures buffer == old(buffer) || fresh(buffer)
    {
      hide PopTo, Reset;
      var newOldestTime := Sub64(now, windowSize);
      if newOldestTime < oldestTime {
        return;
      }
      if newOldestTime == oldestTime {
        return;
      }
      if newOldestTime > Add64(oldestTime, windowSize) {
        DoReset(now);
        return;
      }
      ghost var goal := PopTo(Value(), newOldestTime);
      while oldestTime < newOldestTime
        invariant WellFormed(Value()) && buffer == old(buffer)
        invariant oldestTime <= newOldestTime
        invariant PopTo(Value(), newOldestTime) == goal
      {
        PopToStep(Value(), newOldestTime);
        totalCount := totalCount - buffer[oldestIndex];
        buffer[oldestIndex] := 0;
        oldestIndex := oldestIndex + 1;
        if oldestIndex >= windowSize {
          oldestIndex := 0;
        }
        oldestTime := oldestTime + 1;
      }
      PopToEnd(Value(), newOldestTime);
    }

    method DoUpdate(size: nat, now: u64)
      requires WellFormed(Value())
      modifies this, buffer
      ensures Value() == Update(old(Value()), size, now)
      ensures buffer == old(buffer) || fresh(buffer)
    {
      hide RemoveOldData;
      if now < oldestTime {
        return;
      }
      bytes := bytes + size;
      DoRemoveOldData(now);
      var index := oldestIndex + (windowSize - 1);
      if index >= windowSize {
        index := index - windowSize;
      }
      buffer[index] := buffer[index] + size;
      totalCount := totalCount + size;
      lastRate := 0;
      lastTime := 0;
    }

    method DoGetRate(now: u64) returns (rate: int)
      requires WellFormed(Value())
      modifies this, buffer
      ensures (Value(), rate) == GetRate(old(Value()), now)
      ensures buffer == old(buffer) || fresh(buffer)
    {
      hide RemoveOldData, RateOf;
      if now == lastTime {
        return lastRate;
      }
      DoRemoveOldData(now);
      rate := RateOf(totalCount, scale, windowSize);
      lastTime := now;
      lastRate := rate;
    }
  }

  lemma PopToStep(r: Rate, newOldestTime: u64)
    requires WellFormed(r) && r.oldestTime < newOldestTime
    ensures PopTo(r, newOldestTime) == PopTo(Pop(r), newOldestTime)
  {
  }

  lemma PopToEnd(r: Rate, newOldestTime: u64)
    requires WellFormed(r) && r.oldestTime >= newOldestTime
    ensures PopTo(r, newOldestTime) == r
  {
  }
}
