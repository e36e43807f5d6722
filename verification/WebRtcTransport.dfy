/** DistributeAvailableOutgoingBitrate on the consumer objects themselves. */
module WebRtcTransports {
  import opened Seq16
  import opened Bytes
  import opened BitrateDistribution
  import S = SimulcastConsumers
  import V = SvcConsumers

  datatype Consumer = SimulcastObject(simulcast: S.SimulcastConsumer) | SvcObject(svc: V.SvcConsumer) | PlainObject

  function Objects(c: Consumer): set<object>
  {
    match c
    case SimulcastObject(o) => {o, o.rtpSeqManager, o.rtpStream}
    case SvcObject(o) => {o}
    case PlainObject => {}
  }

  ghost function ValueOf(c: Consumer): Value
    reads Objects(c)
  {
    match c
    case SimulcastObject(o) => SimulcastValue(o.Value())
    case SvcObject(o) => SvcValue(o.Value())
    case PlainObject => PlainValue
  }

  /** Every consumer whose bitrate matters has been told that it is managed by the transport. */
  ghost predicate Managed(c: Consumer)
    reads Objects(c)
  {
    && WellFormed(ValueOf(c))
    && match c
       case SimulcastObject(o) => o.externallyManagedBitrate
       case SvcObject(o) => o.externallyManagedBitrate
       case PlainObject => true
  }

  function AllObjects(cs: seq<Consumer>): set<object>
  {
    set i, o | 0 <= i < |cs| && o in Objects(cs[i]) :: o
  }

  ghost function Values(cs: seq<Consumer>): (r: seq<Value>)
    reads AllObjects(cs)
    ensures |r| == |cs|
    ensures forall i :: 0 <= i < |cs| ==> r[i] == ValueOf(cs[i])
  {
    seq(|cs|, i requires 0 <= i < |cs| reads AllObjects(cs) => ValueOf(cs[i]))
  }

  ghost predicate AllManaged(cs: seq<Consumer>)
    reads AllObjects(cs)
  {
    forall i :: 0 <= i < |cs| ==> Managed(cs[i])
  }

  /** No two entries are the same object. */
  predicate Distinct(cs: seq<Consumer>)
  {
    forall i, j :: 0 <= i < j < |cs| ==> Objects(cs[i]) !! Objects(cs[j])
  }

  method PriorityOfObject(c: Consumer) returns (priority: nat)
    requires Managed(c)
    ensures priority == Priority(ValueOf(c))
  {
    match c
    case SimulcastObject(o) => priority := o.GetBitratePriority();
    case SvcObject(o) => priority := o.GetBitratePriority();
    case PlainObject => priority := 0;
  }

  method PriorityAt(cs: seq<Consumer>, i: nat) returns (priority: nat)
    requires i < |cs| && AllManaged(cs)
    ensures priority == Priority(Values(cs)[i])
    ensures AllManaged(cs) && Values(cs) == old(Values(cs))
  {
    hide WellFormed, Priority;
    priority := PriorityOfObject(cs[i]);
    forall j | 0 <= j < |cs| ensures Managed(cs[j]) && ValueOf(cs[j]) == old(ValueOf(cs[j])) {
      assert old(Managed(cs[j]));
    }
  }

  method UseOnObject(c: Consumer, bitrate: nat) returns (used: nat)
    requires Managed(c)
    modifies Objects(c)
    ensures Managed(c) && (ValueOf(c), used) == UseAvailableBitrate(old(ValueOf(c)), bitrate)
  {
    match c
    case SimulcastObject(o) => used := o.UseBitrate(bitrate);
    case SvcObject(o) => used := o.UseBitrate(bitrate);
    case PlainObject => used := 0;
  }

  method UseAt(cs: seq<Consumer>, i: nat, bitrate: nat) returns (used: nat)
    requires i < |cs| && Distinct(cs) && AllManaged(cs)
    modifies Objects(cs[i])
    ensures AllManaged(cs)
    ensures var (v, u) := UseAvailableBitrate(old(ValueOf(cs[i])), bitrate);
            used == u && Values(cs) == old(Values(cs))[i := v]
  {
    hide UseAvailableBitrate, WellFormed;
    used := UseOnObject(cs[i], bitrate);
    forall j | 0 <= j < |cs| && j != i ensures Managed(cs[j]) && ValueOf(cs[j]) == old(ValueOf(cs[j])) {
      assert old(Managed(cs[j])) && Objects(cs[j]) !! Objects(cs[i]);
    }
  }

  method IncreaseOnObject(c: Consumer, bitrate: nat) returns (used: nat)
    requires Managed(c)
    modifies Objects(c)
    ensures Managed(c) && (ValueOf(c), used) == IncreaseLayer(old(ValueOf(c)), bitrate)
  {
    match c
    case SimulcastObject(o) => used := o.IncreaseOneLayer(bitrate);
    case SvcObject(o) => used := o.IncreaseOneLayer(bitrate);
    case PlainObject => used := 0;
  }

  method IncreaseAt(cs: seq<Consumer>, i: nat, bitrate: nat) returns (used: nat)
    requires i < |cs| && Distinct(cs) && AllManaged(cs)
    modifies Objects(cs[i])
    ensures AllManaged(cs)
    ensures var (v, u) := IncreaseLayer(old(ValueOf(cs[i])), bitrate);
            used == u && Values(cs) == old(Values(cs))[i := v]
  {
    hide IncreaseLayer, WellFormed;
    used := IncreaseOnObject(cs[i], bitrate);
    forall j | 0 <= j < |cs| && j != i ensures Managed(cs[j]) && ValueOf(cs[j]) == old(ValueOf(cs[j])) {
      assert old(Managed(cs[j])) && Objects(cs[j]) !! Objects(cs[i]);
    }
  }

  method ApplyOnObject(c: Consumer)
    requires Managed(c)
    modifies Objects(c)
    ensures Managed(c) && ValueOf(c) == ApplyLayers(old(ValueOf(c)))
  {
    match c
    case SimulcastObject(o) => o.DoApplyLayers();
    case SvcObject(o) => o.DoApplyLayers();
    case PlainObject =>
  }

  method ApplyAt(cs: seq<Consumer>, i: nat)
    requires i < |cs| && Distinct(cs) && AllManaged(cs)
    modifies Objects(cs[i])
    ensures AllManaged(cs)
    ensures Values(cs) == old(Values(cs))[i := ApplyLayers(old(ValueOf(cs[i])))]
  {
    hide ApplyLayers, WellFormed;
    ApplyOnObject(cs[i]);
    forall j | 0 <= j < |cs| && j != i ensures Managed(cs[j]) && ValueOf(cs[j]) == old(ValueOf(cs[j])) {
      assert old(Managed(cs[j])) && Objects(cs[j]) !! Objects(cs[i]);
    }
  }

  lemma ManagedIsSound(cs: seq<Consumer>, used: seq<nat>, remaining: nat)
    requires AllManaged(cs) && |used| == |cs|
    ensures Sound(Pot(Values(cs), used, remaining))
  {
    hide Values;
    forall i | 0 <= i < |cs| ensures WellFormed(Values(cs)[i]) {
      assert Managed(cs[i]);
    }
  }

  class WebRtcTransport {
    /** mapConsumers in its iteration order, and the bitrate that the REMB client reports. */
    var mapConsumers: seq<Consumer>
    var availableBitrate: nat

    method DistributeAvailableOutgoingBitrate()
      requires Distinct(mapConsumers) && AllManaged(mapConsumers) && this !in AllObjects(mapConsumers)
      modifies AllObjects(mapConsumers)
      ensures AllManaged(mapConsumers)
      ensures Values(mapConsumers) == Distribute(old(Values(mapConsumers)), availableBitrate)
    {
      hide Priorities, Multimap, TotalPriorities, AllManaged, Values, Distinct, ApplyRound, Start, MainRound, LayerRound;
      var cs := mapConsumers;
      ghost var values := Values(cs);
      var multimap, total := CollectPriorities(cs);
      if total == 0 {
        return;
      }
      MultimapNames(values, availableBitrate);
      StartNames(values, availableBitrate, multimap);
      var remaining;
      ghost var used;
      remaining, used := DoMainRound(cs, multimap, availableBitrate, total, Start(values, availableBitrate).used);
      remaining, used := DoLayerRound(cs, multimap, remaining, used);
      DoApplyRound(cs, multimap);
    }

    static method CollectPriorities(cs: seq<Consumer>) returns (multimap: seq<Entry>, total: u16)
      requires AllManaged(cs)
      ensures AllManaged(cs) && Values(cs) == old(Values(cs))
      ensures multimap == Multimap(Priorities(Values(cs)), |cs|)
      ensures total == TotalPriorities(Priorities(Values(cs)), |cs|)
    {
      hide Emplace, Wrap, Values, Multimap, TotalPriorities, Priority, AllManaged;
      multimap, total := [], 0;
      var k := 0;
      ghost var priorities := Priorities(Values(cs));
      NobodyYet(priorities);
      while k < |cs|
        invariant k <= |cs|
        invariant multimap == Multimap(priorities, k)
        invariant total == TotalPriorities(priorities, k)
        invariant AllManaged(cs) && Values(cs) == old(Values(cs))
      {
        OneMore(priorities, k);
        var priority := PriorityAt(cs, k);
        if priority > 0 {
          multimap := Emplace(multimap, Entry(priority, k));
          total := Wrap(total + priority);
        }
        k := k + 1;
      }
    }

    /** The first round; `used` is the account. */
    static method DoMainRound(cs: seq<Consumer>, multimap: seq<Entry>, available: nat, total: nat, ghost account: seq<nat>)
      returns (remaining: nat, ghost used: seq<nat>)
      requires Distinct(cs) && AllManaged(cs) && total > 0 && |account| == |cs|
      requires forall i :: 0 <= i < |multimap| ==> multimap[i].place < |cs|
      modifies AllObjects(cs)
      ensures AllManaged(cs) && |used| == |cs|
      ensures Sound(Pot(old(Values(cs)), account, available))
      ensures Pot(Values(cs), used, remaining) ==
              MainRound(Pot(old(Values(cs)), account, available), multimap, available, total)
    {
      hide AllManaged, Values, Distinct, Sound, Share, UseAvailableBitrate, MainRound;
      remaining := available;
      used := account;
      ManagedIsSound(cs, used, remaining);
      ghost var goal := MainRound(Pot(Values(cs), account, available), multimap, available, total);
      var i := |multimap|;
      assert multimap[..i] == multimap;
      while i > 0
        invariant 0 <= i <= |multimap| && |used| == |cs| && AllManaged(cs)
        invariant Sound(Pot(Values(cs), used, remaining))
        invariant MainRound(Pot(Values(cs), used, remaining), multimap[..i], available, total) == goal
      {
        var e := multimap[i - 1];
        ghost var p := Pot(Values(cs), used, remaining);
        MainRoundStep(p, multimap[..i], available, total);
        assert multimap[..i][..i - 1] == multimap[..i - 1];
        var u := UseAt(cs, e.place, Share(available, e.priority, total));
        used := used[e.place := used[e.place] + u];
        if u <= remaining {
          remaining := remaining - u;
        } else {
          remaining := 0;
        }
        assert Pot(Values(cs), used, remaining) == UseOne(p, e, Share(available, e.priority, total));
        i := i - 1;
      }
      MainRoundEnd(Pot(Values(cs), used, remaining), available, total);
    }

    /** The layer-by-layer round. */
    static method DoLayerRound(cs: seq<Consumer>, multimap: seq<Entry>, start: nat, ghost account: seq<nat>)
      returns (remaining: nat, ghost used: seq<nat>)
      requires Distinct(cs) && AllManaged(cs) && |account| == |cs|
      requires forall i :: 0 <= i < |multimap| ==> multimap[i].place < |cs|
      modifies AllObjects(cs)
      ensures AllManaged(cs) && |used| == |cs|
      ensures Sound(Pot(old(Values(cs)), account, start))
      ensures Pot(Values(cs), used, remaining) == LayerRound(Pot(old(Values(cs)), account, start), multimap)
    {
      hide AllManaged, Values, Distinct, Sound, LayerRound, LayerPass;
      remaining, used := start, account;
      ManagedIsSound(cs, used, remaining);
      ghost var goal := LayerRound(Pot(Values(cs), used, remaining), multimap);
      while remaining >= ENOUGH
        invariant |used| == |cs| && AllManaged(cs)
        invariant Sound(Pot(Values(cs), used, remaining))
        invariant LayerRound(Pot(Values(cs), used, remaining), multimap) == goal
        decreases remaining
      {
        LayerRoundStep(Pot(Values(cs), used, remaining), multimap);
        var previous := remaining;
        remaining, used := DoLayerPass(cs, multimap, remaining, used);
        ManagedIsSound(cs, used, remaining);
        if remaining == previous {
          return;
        }
      }
      LayerRoundEnd(Pot(Values(cs), used, remaining), multimap);
    }

    static method DoIncreaseOne(cs: seq<Consumer>, e: Entry, start: nat, ghost account: seq<nat>)
      returns (remaining: nat, ghost used: seq<nat>)
      requires Distinct(cs) && AllManaged(cs) && |account| == |cs| && e.place < |cs|
      modifies AllObjects(cs)
      ensures AllManaged(cs) && |used| == |cs|
      ensures Sound(Pot(old(Values(cs)), account, start))
      ensures Pot(Values(cs), used, remaining) == IncreaseOne(Pot(old(Values(cs)), account, start), e)
    {
      hide AllManaged, Values, Distinct, Sound, IncreaseLayer;
      ManagedIsSound(cs, account, start);
      ghost var p := Pot(Values(cs), account, start);
      SoundAt(p, e.place);
      IncreaseIsBounded(p.values[e.place], start);
      var u := IncreaseAt(cs, e.place, start);
      assert u <= start;
      used := account[e.place := account[e.place] + u];
      remaining := start - u;
    }

    /** One pass over the consumers, in which nobody uses more than is given. */
    static method DoLayerPass(cs: seq<Consumer>, multimap: seq<Entry>, start: nat, ghost account: seq<nat>)
      returns (remaining: nat, ghost used: seq<nat>)
      requires Distinct(cs) && AllManaged(cs) && |account| == |cs|
      requires forall i :: 0 <= i < |multimap| ==> multimap[i].place < |cs|
      modifies AllObjects(cs)
      ensures AllManaged(cs) && |used| == |cs|
      ensures Sound(Pot(old(Values(cs)), account, start))
      ensures Pot(Values(cs), used, remaining) == LayerPass(Pot(old(Values(cs)), account, start), multimap)
    {
      hide AllManaged, Values, Distinct, Sound, LayerPass, IncreaseOne;
      remaining, used := start, account;
      ManagedIsSound(cs, used, remaining);
      ghost var goal := LayerPass(Pot(Values(cs), used, remaining), multimap);
      var i := |multimap|;
      assert multimap[..i] == multimap;
      while i > 0
        invariant 0 <= i <= |multimap| && |used| == |cs| && AllManaged(cs)
        invariant Sound(Pot(Values(cs), used, remaining))
        invariant LayerPass(Pot(Values(cs), used, remaining), multimap[..i]) == goal
      {
        LayerPassStep(Pot(Values(cs), used, remaining), multimap[..i]);
        assert multimap[..i][..i - 1] == multimap[..i - 1];
        remaining, used := DoIncreaseOne(cs, multimap[i - 1], remaining, used);
        if remaining < ENOUGH {
          return;
        }
        i := i - 1;
      }
      LayerPassEnd(Pot(Values(cs), used, remaining));
    }

    static method DoApplyRound(cs: seq<Consumer>, multimap: seq<Entry>)
      requires Distinct(cs) && AllManaged(cs)
      requires forall i :: 0 <= i < |multimap| ==> multimap[i].place < |cs|
      modifies AllObjects(cs)
      ensures AllManaged(cs)
      ensures Values(cs) == ApplyRound(old(Values(cs)), multimap)
    {
      hide AllManaged, Values, Distinct, ApplyRound, ApplyLayers;
      ghost var goal := ApplyRound(Values(cs), multimap);
      var i := |multimap|;
      assert multimap[..i] == multimap;
      while i > 0
        invariant 0 <= i <= |multimap| && AllManaged(cs)
        invariant ApplyRound(Values(cs), multimap[..i]) == goal
      {
        ApplyRoundStep(Values(cs), multimap[..i]);
        assert multimap[..i][..i - 1] == multimap[..i - 1];
        ApplyAt(cs, multimap[i - 1].place);
        i := i - 1;
      }
      ApplyRoundEnd(Values(cs));
    }
  }

  lemma NobodyYet(priorities: seq<nat>)
    ensures Multimap(priorities, 0) == [] && TotalPriorities(priorities, 0) == 0
  {
  }

  lemma OneMore(priorities: seq<nat>, k: nat)
    requires k < |priorities|
    ensures Multimap(priorities, k + 1) ==
            if priorities[k] > 0 then Emplace(Multimap(priorities, k), Entry(priorities[k], k)) else Multimap(priorities, k)
    ensures TotalPriorities(priorities, k + 1) ==
            if priorities[k] > 0 then Wrap(TotalPriorities(priorities, k) + priorities[k])
            else TotalPriorities(priorities, k)
  {
  }

  lemma MainRoundStep(p: Pot, m: seq<Entry>, available: nat, total: nat)
    requires Sound(p) && Names(m, p) && total > 0 && m != []
    ensures var e := m[|m| - 1];
            MainRound(p, m, available, total) ==
            MainRound(UseOne(p, e, Share(available, e.priority, total)), m[..|m| - 1], available, total)
  {
  }

  lemma MainRoundEnd(p: Pot, available: nat, total: nat)
    requires Sound(p) && total > 0
    ensures MainRound(p, [], available, total) == p
  {
  }

  lemma StartNames(values: seq<Value>, available: nat, m: seq<Entry>)
    requires Names(m, Start(values, available))
    ensures Start(values, available) == Pot(values, Start(values, available).used, available)
    ensures |Start(values, available).used| == |values|
    ensures forall i :: 0 <= i < |m| ==> m[i].place < |values|
  {
  }

  lemma LayerRoundStep(p: Pot, m: seq<Entry>)
    requires Sound(p) && Names(m, p) && p.remaining >= ENOUGH
    ensures var q := LayerPass(p, m);
            LayerRound(p, m) == if q.remaining == p.remaining then q else LayerRound(q, m)
  {
  }

  lemma LayerRoundEnd(p: Pot, m: seq<Entry>)
    requires Sound(p) && Names(m, p) && p.remaining < ENOUGH
    ensures LayerRound(p, m) == p
  {
  }

  lemma LayerPassStep(p: Pot, m: seq<Entry>)
    requires Sound(p) && Names(m, p) && m != []
    ensures var q := IncreaseOne(p, m[|m| - 1]);
            LayerPass(p, m) == if q.remaining < ENOUGH then q else LayerPass(q, m[..|m| - 1])
  {
  }

  lemma LayerPassEnd(p: Pot)
    requires Sound(p)
    ensures LayerPass(p, []) == p
  {
  }

  lemma SoundAt(p: Pot, i: nat)
    requires Sound(p) && i < |p.values|
    ensures WellFormed(p.values[i])
  {
  }

  lemma ApplyRoundStep(values: seq<Value>, m: seq<Entry>)
    requires m != [] && forall i :: 0 <= i < |m| ==> m[i].place < |values|
    ensures var i := m[|m| - 1].place;
            ApplyRound(values, m) == ApplyRound(values[i := ApplyLayers(values[i])], m[..|m| - 1])
  {
  }

  lemma ApplyRoundEnd(values: seq<Value>)
    ensures ApplyRound(values, []) == values
  {
  }
}
