/** The counters agree with the log of all updates. */
module RateCalculatorLemmas {
  import opened Arithmetic
  import opened RateCalculators

  datatype Entry = Entry(time: int, size: nat)

  /** What was logged in the window (from, to]. */
  function WindowSum(log: seq<Entry>, from: int, to: int): nat
  {
    if log == [] then 0
    else
      var e := log[|log| - 1];
      WindowSum(log[..|log| - 1], from, to) + if from < e.time <= to then e.size else 0
  }

  function Sum(xs: seq<nat>): nat
  {
    if xs == [] then 0 else Sum(xs[..|xs| - 1]) + xs[|xs| - 1]
  }

  /** The ring, from the oldest millisecond to the newest. */
  function Rotated(r: Rate): (xs: seq<nat>)
    requires WellFormed(r)
    ensures |xs| == r.windowSize
  {
    r.buffer[r.oldestIndex..] + r.buffer[..r.oldestIndex]
  }

  /** Each counter holds what was logged in its millisecond. */
  ghost predicate Holds(xs: seq<nat>, log: seq<Entry>, oldestTime: int)
  {
    forall k {:trigger xs[k]} :: 0 <= k < |xs| ==> xs[k] == WindowSum(log, oldestTime + k, oldestTime + k + 1)
  }

  predicate Before(log: seq<Entry>, time: int)
  {
    forall i :: 0 <= i < |log| ==> log[i].time <= time
  }

  /** The state at time `clock`, and the cached rate is either void or right. */
  ghost predicate Tracks(r: Rate, log: seq<Entry>, clock: u64)
  {
    && WellFormed(r)
    && r.windowSize <= clock
    && r.oldestTime == clock - r.windowSize
    && Before(log, clock)
    && Holds(Rotated(r), log, r.oldestTime)
    && r.totalCount == Sum(r.buffer)
    && (r.lastTime == 0 || (r.lastTime == clock && r.lastRate == RateOf(r.totalCount, r.scale, r.windowSize)))
  }

  // ----- Sums

  lemma {:induction false} SumOfConcat(xs: seq<nat>, ys: seq<nat>)
    ensures Sum(xs + ys) == Sum(xs) + Sum(ys)
  {
    if ys == [] {
      assert xs + ys == xs;
    } else {
      assert (xs + ys)[..|xs + ys| - 1] == xs + ys[..|ys| - 1];
      SumOfConcat(xs, ys[..|ys| - 1]);
    }
  }

  lemma {:induction false} SumOfUpdate(xs: seq<nat>, i: nat, x: nat)
    requires i < |xs|
    ensures Sum(xs[i := x]) == Sum(xs) - xs[i] + x
  {
    var ys := xs[i := x];
    if i == |xs| - 1 {
      assert ys[..|ys| - 1] == xs[..|xs| - 1];
    } else {
      assert ys[..|ys| - 1] == xs[..|xs| - 1][i := x];
      SumOfUpdate(xs[..|xs| - 1], i, x);
    }
  }

  lemma {:induction false} SumOfZeros(n: nat)
    ensures Sum(Zeros(n)) == 0
  {
    if n > 0 {
      assert Zeros(n)[..n - 1] == Zeros(n - 1);
      SumOfZeros(n - 1);
    }
  }

  lemma SumOfRotated(r: Rate)
    requires WellFormed(r)
    ensures Sum(Rotated(r)) == Sum(r.buffer)
  {
    SumOfConcat(r.buffer[r.oldestIndex..], r.buffer[..r.oldestIndex]);
    SumOfConcat(r.buffer[..r.oldestIndex], r.buffer[r.oldestIndex..]);
    assert r.buffer == r.buffer[..r.oldestIndex] + r.buffer[r.oldestIndex..];
  }

  lemma {:induction false} WindowGrows(log: seq<Entry>, from: int, to: int)
    requires from <= to
    ensures WindowSum(log, from, to + 1) == WindowSum(log, from, to) + WindowSum(log, to, to + 1)
  {
    if log != [] {
      WindowGrows(log[..|log| - 1], from, to);
    }
  }

  lemma {:induction false} NothingAfter(log: seq<Entry>, from: int, to: int)
    requires Before(log, from)
    ensures WindowSum(log, from, to) == 0
  {
    if log != [] {
      NothingAfter(log[..|log| - 1], from, to);
    }
  }

  lemma {:induction false} EmptyWindow(log: seq<Entry>, from: int)
    ensures WindowSum(log, from, from) == 0
  {
    if log != [] {
      EmptyWindow(log[..|log| - 1], from);
    }
  }

  /** The counters add up to the window. */
  lemma {:induction false} SumIsWindow(xs: seq<nat>, log: seq<Entry>, oldestTime: int)
    requires Holds(xs, log, oldestTime)
    ensures Sum(xs) == WindowSum(log, oldestTime, oldestTime + |xs|)
    decreases |xs|
  {
    if xs == [] {
      EmptyWindow(log, oldestTime);
    } else {
      var n := |xs| - 1;
      SumIsWindow(xs[..n], log, oldestTime);
      WindowGrows(log, oldestTime, oldestTime + n);
    }
  }

  // ----- Time passes

  lemma PopRotates(r: Rate)
    requires WellFormed(r) && r.oldestTime < MOD64 - 1
    ensures Rotated(Pop(r)) == Rotated(r)[1..] + [0]
  {
    var s := Pop(r);
    var w := r.windowSize;
    forall k | 0 <= k < w ensures Rotated(s)[k] == (Rotated(r)[1..] + [0])[k] {
      assert Rotated(r)[k] == if r.oldestIndex + k < w then r.buffer[r.oldestIndex + k] else r.buffer[r.oldestIndex + k - w];
      assert Rotated(s)[k] == if s.oldestIndex + k < w then s.buffer[s.oldestIndex + k] else s.buffer[s.oldestIndex + k - w];
    }
  }

  lemma {:induction false} PopToHolds(r: Rate, log: seq<Entry>, newOldestTime: u64)
    requires WellFormed(r) && r.oldestTime <= newOldestTime
    requires Before(log, r.oldestTime + r.windowSize) && Holds(Rotated(r), log, r.oldestTime)
    requires r.totalCount == Sum(r.buffer)
    ensures var s := PopTo(r, newOldestTime);
            && s.oldestTime == newOldestTime
            && Holds(Rotated(s), log, s.oldestTime)
            && s.totalCount == Sum(s.buffer)
            && s.lastTime == r.lastTime && s.lastRate == r.lastRate
    decreases newOldestTime - r.oldestTime
  {
    hide Sum, WindowSum, Rotated;
    if r.oldestTime < newOldestTime {
      var s := Pop(r);
      PopRotates(r);
      NothingAfter(log, r.oldestTime + r.windowSize, r.oldestTime + r.windowSize + 1);
      forall k | 0 <= k < r.windowSize
        ensures Rotated(s)[k] == WindowSum(log, s.oldestTime + k, s.oldestTime + k + 1)
      {
        if k + 1 < r.windowSize {
          assert Rotated(s)[k] == Rotated(r)[k + 1];
        }
      }
      SumOfUpdate(r.buffer, r.oldestIndex, 0);
      PopToHolds(s, log, newOldestTime);
    }
  }

  lemma ZerosHold(n: nat, log: seq<Entry>, oldestTime: int)
    requires Before(log, oldestTime)
    ensures Holds(Zeros(n), log, oldestTime)
  {
    forall k | 0 <= k < n ensures Zeros(n)[k] == WindowSum(log, oldestTime + k, oldestTime + k + 1) {
      NothingAfter(log, oldestTime + k, oldestTime + k + 1);
    }
  }

  /** The state after the clock moved on; the cached rate is not looked at. */
  lemma RemoveOldDataTracks(r: Rate, log: seq<Entry>, clock: u64, now: u64)
    requires Tracks(r, log, clock) && clock <= now
    ensures var s := RemoveOldData(r, now);
            && s.oldestTime == now - s.windowSize
            && Holds(Rotated(s), log, s.oldestTime)
            && s.totalCount == Sum(s.buffer)
  {
    hide Sum, Holds, PopTo;
    var newOldestTime := now - r.windowSize;
    if newOldestTime > clock {
      ZerosHold(r.windowSize, log, newOldestTime);
      SumOfZeros(r.windowSize);
      assert Zeros(r.windowSize)[0..] + Zeros(r.windowSize)[..0] == Zeros(r.windowSize);
    } else if newOldestTime > r.oldestTime {
      PopToHolds(r, log, newOldestTime);
    }
  }

  // ----- Updates and questions

  lemma LogOne(log: seq<Entry>, e: Entry, from: int, to: int)
    ensures WindowSum(log + [e], from, to) == WindowSum(log, from, to) + if from < e.time <= to then e.size else 0
  {
    assert (log + [e])[..|log|] == log;
  }

  /** An update is logged: nothing is lost and nothing is counted twice. */
  lemma UpdateTracks(r: Rate, log: seq<Entry>, clock: u64, size: nat, now: u64)
    requires Tracks(r, log, clock) && clock <= now
    ensures Tracks(Update(r, size, now), log + [Entry(now, size)], now)
  {
    hide Sum, WindowSum, RemoveOldData, RateOf, Holds;
    var b := r.(bytes := r.bytes + size);
    RemoveOldDataTracks(b, log, clock, now);
    var q := RemoveOldData(b, now);
    var i := NewestIndex(q);
    SumOfUpdate(q.buffer, i, q.buffer[i] + size);
    NewestHolds(q, log, size, now);
  }

  lemma NewestHolds(q: Rate, log: seq<Entry>, size: nat, now: u64)
    requires WellFormed(q) && q.oldestTime == now - q.windowSize && Holds(Rotated(q), log, q.oldestTime)
    ensures var i := NewestIndex(q);
            Holds(Rotated(q.(buffer := q.buffer[i := q.buffer[i] + size])), log + [Entry(now, size)], q.oldestTime)
  {
    hide WindowSum, Rotated;
    var i, e := NewestIndex(q), Entry(now, size);
    var s := q.(buffer := q.buffer[i := q.buffer[i] + size]);
    forall k | 0 <= k < s.windowSize
      ensures Rotated(s)[k] == WindowSum(log + [e], s.oldestTime + k, s.oldestTime + k + 1)
    {
      LogOne(log, e, s.oldestTime + k, s.oldestTime + k + 1);
      NewestIsLast(q, size, k);
    }
  }

  lemma NewestIsLast(q: Rate, size: nat, k: nat)
    requires WellFormed(q) && k < q.windowSize
    ensures var i := NewestIndex(q);
            Rotated(q.(buffer := q.buffer[i := q.buffer[i] + size]))[k] ==
            Rotated(q)[k] + if k == q.windowSize - 1 then size else 0
  {
  }

  /** The answer is the rate of the window (now - windowSize, now], whether it comes from the cache or not. */
  lemma GetRateTracks(r: Rate, log: seq<Entry>, clock: u64, now: u64)
    requires Tracks(r, log, clock) && clock <= now
    ensures var (s, rate) := GetRate(r, now);
            && Tracks(s, log, now)
            && rate == RateOf(WindowSum(log, now - r.windowSize, now), r.scale, r.windowSize)
  {
    hide Sum, WindowSum, RateOf, RemoveOldData, Holds;
    RemoveOldDataTracks(r, log, clock, now);
    var s := GetRate(r, now).0;
    SumOfRotated(s);
    SumIsWindow(Rotated(s), log, now - r.windowSize);
  }

  /** The rate is total * scale / windowSize to the nearest integer, halves up. */
  lemma RateIsNearest(total: nat, scale: nat, windowSize: WindowSize)
    ensures var rate := RateOf(total, scale, windowSize);
            && rate >= 0
            && rate * (2 * windowSize) <= 2 * total * scale + windowSize < (rate + 1) * (2 * windowSize)
  {
    MulMono(0, 2 * total, scale);
    QuotientBounds(2 * total * scale + windowSize, 2 * windowSize);
    var rate := RateOf(total, scale, windowSize);
    assert (rate + 1) * (2 * windowSize) == rate * (2 * windowSize) + 2 * windowSize;
  }

  /** So every answer is what was counted in the window, per windowSize and times scale, to the nearest integer. */
  lemma GetRateIs(r: Rate, log: seq<Entry>, clock: u64, now: u64)
    requires Tracks(r, log, clock) && clock <= now
    ensures var rate, total := GetRate(r, now).1, WindowSum(log, now - r.windowSize, now);
            rate * (2 * r.windowSize) <= 2 * total * r.scale + r.windowSize < (rate + 1) * (2 * r.windowSize)
  {
    hide Sum, WindowSum, RateOf, GetRate;
    GetRateTracks(r, log, clock, now);
    RateIsNearest(WindowSum(log, now - r.windowSize, now), r.scale, r.windowSize);
  }

  // ----- Runs

  datatype Operation = Count(size: nat, now: u64) | Ask(now: u64) | Restart(now: u64)

  function Apply(r: Rate, o: Operation): (Rate, seq<int>)
    requires WellFormed(r)
  {
    match o
    case Count(size, now) => (Update(r, size, now), [])
    case Ask(now) => var (s, rate) := GetRate(r, now); (s, [rate])
    case Restart(now) => (Reset(r, now), [])
  }

  function Run(r: Rate, os: seq<Operation>): seq<int>
    requires WellFormed(r)
    decreases |os|
  {
    if os == [] then [] else Apply(r, os[0]).1 + Run(Apply(r, os[0]).0, os[1..])
  }

  /** The answers computed from the log alone; a reset clears it. */
  function Answers(log: seq<Entry>, windowSize: WindowSize, scale: nat, os: seq<Operation>): seq<int>
    decreases |os|
  {
    if os == [] then []
    else match os[0]
      case Count(size, now) => Answers(log + [Entry(now, size)], windowSize, scale, os[1..])
      case Ask(now) =>
        [RateOf(WindowSum(log, now - windowSize, now), scale, windowSize)] + Answers(log, windowSize, scale, os[1..])
      case Restart(_) => Answers([], windowSize, scale, os[1..])
  }

  predicate Monotone(clock: u64, os: seq<Operation>)
    decreases |os|
  {
    os == [] || (clock <= os[0].now && Monotone(os[0].now, os[1..]))
  }

  /** Refinement: over any run whose times do not decrease, every answer is the rate of the log's window. */
  lemma {:induction false} RunIsLog(r: Rate, log: seq<Entry>, clock: u64, os: seq<Operation>)
    requires Tracks(r, log, clock) && Monotone(clock, os)
    ensures Run(r, os) == Answers(log, r.windowSize, r.scale, os)
    decreases |os|
  {
    hide Update, GetRate, WindowSum, Sum, Holds, RateOf;
    if os != [] {
      Keeps(r, os[0]);
      match os[0]
      case Count(size, now) =>
        UpdateTracks(r, log, clock, size, now);
        RunIsLog(Update(r, size, now), log + [Entry(now, size)], now, os[1..]);
      case Ask(now) =>
        GetRateTracks(r, log, clock, now);
        RunIsLog(GetRate(r, now).0, log, now, os[1..]);
      case Restart(now) =>
        ResetTracks(r, now);
        RunIsLog(Reset(r, now), [], now, os[1..]);
    }
  }

  lemma Keeps(r: Rate, o: Operation)
    requires WellFormed(r)
    ensures var s := Apply(r, o).0; s.windowSize == r.windowSize && s.scale == r.scale
  {
  }

  lemma InitialTracks(windowSize: WindowSize, scale: nat, now: u64)
    requires windowSize <= now
    ensures Tracks(Initial(windowSize, scale, now), [], now)
  {
    SumOfZeros(windowSize);
    ZerosHold(windowSize, [], now - windowSize);
    assert Zeros(windowSize)[0..] + Zeros(windowSize)[..0] == Zeros(windowSize);
  }

  lemma ResetTracks(r: Rate, now: u64)
    requires r.windowSize <= now
    ensures Tracks(Reset(r, now), [], now)
  {
    SumOfZeros(r.windowSize);
    ZerosHold(r.windowSize, [], now - r.windowSize);
    assert Zeros(r.windowSize)[0..] + Zeros(r.windowSize)[..0] == Zeros(r.windowSize);
  }

  // ----- A clock that starts too early

  /** Made before the clock reached the window size, the counters believe to be far in the future. */
  predicate TooEarly(r: Rate)
  {
    WellFormed(r) && r.oldestTime >= MOD64 - r.windowSize && r.totalCount == 0 && r.lastRate == 0
  }

  /** No operation resets it when the clock has reached the window size. */
  predicate StaysEarly(r: Rate, o: Operation)
  {
    o.now < MOD64 - r.windowSize && (o.Restart? ==> o.now < r.windowSize)
  }

  /** Then nothing is ever counted: all answers are 0. */
  lemma {:induction false} EarlyNeverCounts(r: Rate, os: seq<Operation>)
    requires TooEarly(r)
    requires forall i :: 0 <= i < |os| ==> StaysEarly(r, os[i])
    ensures forall i :: 0 <= i < |Run(r, os)| ==> Run(r, os)[i] == 0
    decreases |os|
  {
    if os != [] {
      EarlyStays(r, os[0]);
      assert forall i :: 0 <= i < |os| - 1 ==> os[1..][i] == os[i + 1];
      EarlyNeverCounts(Apply(r, os[0]).0, os[1..]);
    }
  }

  lemma EarlyStays(r: Rate, o: Operation)
    requires TooEarly(r) && StaysEarly(r, o)
    ensures var (s, answers) := Apply(r, o);
            TooEarly(s) && s.windowSize == r.windowSize && (answers == [] || answers == [0])
  {
    hide PopTo, Zeros;
    NoRate(r.scale, r.windowSize);
    if o.now >= r.windowSize {
      assert RemoveOldData(r, o.now) == r;
    }
  }

  lemma NoRate(scale: nat, windowSize: WindowSize)
    ensures RateOf(0, scale, windowSize) == 0
  {
  }

  /** So the counters work exactly when they are made at a time of at least the window size. */
  lemma CountsIff(windowSize: WindowSize, scale: nat, start: u64, size: nat, now: u64)
    requires start <= now < MOD64 - windowSize && size > 0
    ensures Update(Initial(windowSize, scale, start), size, now).totalCount == size <==> start >= windowSize
  {
    hide Sum, WindowSum;
    var r := Initial(windowSize, scale, start);
    if start >= windowSize {
      InitialTracks(windowSize, scale, start);
      UpdateTracks(r, [], start, size, now);
      var s := Update(r, size, now);
      SumOfRotated(s);
      SumIsWindow(Rotated(s), [] + [Entry(now, size)], now - windowSize);
      LogOne([], Entry(now, size), now - windowSize, now);
      NothingAfter([], now - windowSize, now);
    } else {
      EarlyStays(r, Count(size, now));
    }
  }
}
