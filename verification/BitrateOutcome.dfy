/** What a distribution of the available bitrate does to each consumer. */
module BitrateOutcome {
  import opened Seq16
  import opened Bytes
  import opened Layers
  import opened BitrateDistribution
  import S = Simulcasts
  import V = SvcConsumers

  // ----- Who is touched

  /** How often the entries name a consumer. */
  function Named(m: seq<Entry>, place: nat): nat
  {
    if m == [] then 0 else Named(m[..|m| - 1], place) + if m[|m| - 1].place == place then 1 else 0
  }

  lemma {:induction false} NamedInEmplace(m: seq<Entry>, e: Entry, place: nat)
    ensures Named(Emplace(m, e), place) == Named(m, place) + if e.place == place then 1 else 0
  {
    if m == [] || m[|m| - 1].priority <= e.priority {
      assert (m + [e])[..|m|] == m;
    } else {
      NamedInEmplace(m[..|m| - 1], e, place);
      var r := Emplace(m[..|m| - 1], e);
      assert (r + [m[|m| - 1]])[..|r|] == r;
    }
  }

  /** A consumer takes part, and then once, exactly when its priority is positive. */
  lemma {:induction false} NamedIffWanted(priorities: seq<nat>, n: nat, place: nat)
    requires n <= |priorities|
    ensures Named(Multimap(priorities, n), place) == if place < n && priorities[place] > 0 then 1 else 0
  {
    hide Emplace;
    if n > 0 {
      NamedIffWanted(priorities, n - 1, place);
      NamedInEmplace(Multimap(priorities, n - 1), Entry(priorities[n - 1], n - 1), place);
    }
  }

  /** That is, a simulcast consumer that is connected and not paused, an SVC consumer whose stream is alive besides, and no
      other consumer. */
  lemma WhoTakesPart(values: seq<Value>, place: nat)
    requires place < |values|
    ensures Named(Multimap(Priorities(values), |values|), place) ==
            match values[place]
            case SimulcastValue(c) => if c.transportConnected && !c.paused && !c.producerPaused then 1 else 0
            case SvcValue(c) =>
              if c.transportConnected && !c.paused && !c.producerPaused && c.stream.Some? && c.stream.value.score != 0 then 1
              else 0
            case PlainValue => 0
  {
    NamedIffWanted(Priorities(values), |values|, place);
  }

  lemma {:induction false} ApplyRoundAt(values: seq<Value>, m: seq<Entry>, place: nat)
    requires place < |values| && Named(m, place) <= 1
    requires forall i :: 0 <= i < |m| ==> m[i].place < |values|
    ensures ApplyRound(values, m)[place] == if Named(m, place) == 1 then ApplyLayers(values[place]) else values[place]
    decreases |m|
  {
    hide ApplyLayers;
    if m != [] {
      var i := m[|m| - 1].place;
      ApplyRoundAt(values[i := ApplyLayers(values[i])], m[..|m| - 1], place);
    }
  }

  /** The rounds change nothing but provisional layers. */
  predicate OnlyProvisional(v: Value, w: Value)
  {
    match v
    case SimulcastValue(c) =>
      w.SimulcastValue? &&
      w.simulcast == c.(provisionalTargetSpatialLayer := w.simulcast.provisionalTargetSpatialLayer,
                        provisionalTargetTemporalLayer := w.simulcast.provisionalTargetTemporalLayer)
    case SvcValue(c) =>
      w.SvcValue? &&
      w.svc == c.(provisionalTargetSpatialLayer := w.svc.provisionalTargetSpatialLayer,
                  provisionalTargetTemporalLayer := w.svc.provisionalTargetTemporalLayer)
    case PlainValue => w.PlainValue?
  }

  /** No spatial layer without a temporal one. */
  predicate Paired(v: Value)
  {
    SpatialLayer(v) == -1 ==> TemporalLayer(v) == -1
  }

  lemma UseChanges(v: Value, bitrate: nat)
    requires WellFormed(v)
    ensures var w := UseAvailableBitrate(v, bitrate).0; OnlyProvisional(v, w) && Paired(w)
  {
    hide Use, Ladder;
    match v
    case SimulcastValue(c) => SimulcastLayer(c, bitrate);
    case SvcValue(c) => UseIsFair(V.GridOf(c), c.fractionLost, bitrate);
    case PlainValue =>
  }

  /** A layer chosen for a simulcast consumer is alive. */
  lemma SimulcastLayer(c: S.Simulcast, bitrate: nat)
    requires S.WellFormed(c)
    ensures var s := S.UseAvailableBitrate(c, bitrate).0.provisionalTargetSpatialLayer; s == -1 || S.Score(c, s) != 0
    ensures S.UseAvailableBitrate(c, bitrate).0.provisionalTargetSpatialLayer == -1 ==>
              S.UseAvailableBitrate(c, bitrate).0.provisionalTargetTemporalLayer == -1
  {
    hide Use, Ladder, S.CanSwitch;
    UseIsFair(S.GridOf(c), c.fractionLost, bitrate);
  }

  lemma IncreaseChanges(v: Value, bitrate: nat)
    requires WellFormed(v)
    ensures var w := IncreaseLayer(v, bitrate).0; OnlyProvisional(v, w) && (Paired(v) ==> Paired(w))
  {
    hide Increase, NextRung, S.CanSwitch;
    match v
    case SimulcastValue(c) =>
      IncreaseClimbs(S.GridOf(c), c.provisionalTargetSpatialLayer, c.provisionalTargetTemporalLayer, c.fractionLost,
                     bitrate);
    case SvcValue(c) =>
      IncreaseClimbs(V.GridOf(c), c.provisionalTargetSpatialLayer, c.provisionalTargetTemporalLayer, c.fractionLost,
                     bitrate);
    case PlainValue =>
  }

  lemma Transitive(v: Value, w: Value, x: Value)
    requires OnlyProvisional(v, w) && OnlyProvisional(w, x)
    ensures OnlyProvisional(v, x)
  {
  }

  lemma {:induction false} MainRoundAt(p: Pot, m: seq<Entry>, available: nat, total: nat, place: nat)
    requires Sound(p) && Names(m, p) && total > 0 && place < |p.values|
    ensures var w := MainRound(p, m, available, total).values[place];
            && OnlyProvisional(p.values[place], w)
            && (Named(m, place) > 0 || Paired(p.values[place]) ==> Paired(w))
            && (Named(m, place) == 0 ==> w == p.values[place])
    decreases |m|
  {
    hide UseAvailableBitrate, OnlyProvisional, Paired, Share, WellFormed;
    ItselfOnly(p.values[place]);
    if m != [] {
      var e := m[|m| - 1];
      var q := UseOne(p, e, Share(available, e.priority, total));
      MainRoundAt(q, m[..|m| - 1], available, total, place);
      if e.place == place {
        UseChanges(p.values[place], Share(available, e.priority, total));
        Transitive(p.values[place], q.values[place], MainRound(q, m[..|m| - 1], available, total).values[place]);
      }
    }
  }

  lemma ItselfOnly(v: Value)
    ensures OnlyProvisional(v, v)
  {
  }

  lemma {:induction false} LayerPassAt(p: Pot, m: seq<Entry>, place: nat)
    requires Sound(p) && Names(m, p) && place < |p.values|
    ensures var w := LayerPass(p, m).values[place];
            && OnlyProvisional(p.values[place], w)
            && (Paired(p.values[place]) ==> Paired(w))
            && (Named(m, place) == 0 ==> w == p.values[place])
    decreases |m|
  {
    hide IncreaseLayer, OnlyProvisional, Paired, WellFormed;
    ItselfOnly(p.values[place]);
    if m != [] {
      var e := m[|m| - 1];
      var q := IncreaseOne(p, e);
      if e.place == place {
        IncreaseChanges(p.values[place], p.remaining);
      }
      if q.remaining >= ENOUGH {
        LayerPassAt(q, m[..|m| - 1], place);
        Transitive(p.values[place], q.values[place], LayerPass(q, m[..|m| - 1]).values[place]);
      }
    }
  }

  lemma {:induction false} LayerRoundAt(p: Pot, m: seq<Entry>, place: nat)
    requires Sound(p) && Names(m, p) && place < |p.values|
    ensures var w := LayerRound(p, m).values[place];
            && OnlyProvisional(p.values[place], w)
            && (Paired(p.values[place]) ==> Paired(w))
            && (Named(m, place) == 0 ==> w == p.values[place])
    decreases p.remaining
  {
    hide LayerPass, OnlyProvisional, Paired, WellFormed;
    ItselfOnly(p.values[place]);
    if p.remaining >= ENOUGH {
      var q := LayerPass(p, m);
      LayerPassAt(p, m, place);
      if q.remaining != p.remaining {
        LayerRoundAt(q, m, place);
        Transitive(p.values[place], q.values[place], LayerRound(q, m).values[place]);
      }
    }
  }

  // ----- The outcome

  predicate AllWellFormed(values: seq<Value>)
  {
    forall i :: 0 <= i < |values| ==> WellFormed(values[i])
  }

  /** The total is 0 when nobody wants bitrate, and when the priorities add up to a multiple of 65536. */
  predicate Distributes(values: seq<Value>)
  {
    TotalPriorities(Priorities(values), |values|) > 0
  }

  /** A consumer has its provisional layers applied exactly when it has a priority and there is a distribution at all;
      otherwise it stays as it is. */
  lemma OutcomeAt(values: seq<Value>, available: nat, place: nat)
    requires AllWellFormed(values) && place < |values|
    ensures Distributes(values) && Priority(values[place]) > 0 ==>
              var w := Rounds(values, available).values[place];
              && Distribute(values, available)[place] == ApplyLayers(w)
              && OnlyProvisional(values[place], w)
              && Paired(w)
    ensures !(Distributes(values) && Priority(values[place]) > 0) ==> Distribute(values, available)[place] == values[place]
  {
    hide WellFormed, Multimap, TotalPriorities, MainRound, LayerRound, ApplyRound, ApplyLayers, OnlyProvisional, Paired,
      Priority, Priorities;
    var prios := Priorities(values);
    var m := Multimap(prios, |values|);
    NamedIffWanted(prios, |values|, place);
    if Distributes(values) {
      MultimapNames(values, available);
      var total := TotalPriorities(prios, |values|);
      var start := Start(values, available);
      MainRoundAt(start, m, available, total, place);
      var p := MainRound(start, m, available, total);
      LayerRoundAt(p, m, place);
      ApplyRoundAt(Rounds(values, available).values, m, place);
      Transitive(values[place], p.values[place], LayerRound(p, m).values[place]);
    }
  }

  /** An active SVC consumer gets as target what the rounds chose for it, possibly nothing, if and only if its stream is
      alive and there is a distribution. In particular a consumer whose stream has died keeps its old target: with
      priority 0 it takes no part, and never switches to no layer. */
  lemma SvcOutcome(values: seq<Value>, available: nat, place: nat)
    requires AllWellFormed(values) && place < |values| && values[place].SvcValue? && V.BaseActive(values[place].svc)
    ensures var c := values[place].svc;
            if V.Alive(c) && Distributes(values) then
              var w := Rounds(values, available).values[place];
              Distribute(values, available)[place] ==
                SvcValue(c.(targetSpatialLayer := SpatialLayer(w), targetTemporalLayer := TemporalLayer(w),
                            provisionalTargetSpatialLayer := -1, provisionalTargetTemporalLayer := -1))
            else Distribute(values, available)[place] == values[place]
  {
    hide WellFormed, Rounds, Distribute, Distributes, PriorityLayer;
    OutcomeAt(values, available, place);
  }

  /** An active simulcast consumer always takes part; when all its streams have died it lets go of its layers. */
  lemma DeadSimulcastLetsGo(values: seq<Value>, available: nat, place: nat)
    requires AllWellFormed(values) && place < |values| && Distributes(values)
    requires values[place].SimulcastValue? && S.BaseActive(values[place].simulcast) && AllDead(values[place])
    requires values[place].simulcast.targetSpatialLayer == -1 ==>
               values[place].simulcast.currentSpatialLayer == -1 && values[place].simulcast.targetTemporalLayer == -1
    ensures var d := Distribute(values, available)[place];
            d.SimulcastValue? && d.simulcast.targetSpatialLayer == -1 && d.simulcast.currentSpatialLayer == -1
  {
    hide WellFormed, Rounds, Distribute, TotalPriorities, PriorityLayer;
    OutcomeAt(values, available, place);
    NothingForTheDead(values, available, place);
    DeadStays(values[place], Rounds(values, available).values[place]);
  }

  predicate AllDead(v: Value)
  {
    v.SimulcastValue? && forall s :: 0 <= s < |v.simulcast.producerStreams| ==> S.Score(v.simulcast, s) == 0
  }

  /** A dead simulcast consumer has no provisional layer. */
  predicate NoneForDead(v: Value)
  {
    AllDead(v) ==> SpatialLayer(v) == -1
  }

  lemma UseOnDead(v: Value, bitrate: nat)
    requires WellFormed(v)
    ensures NoneForDead(UseAvailableBitrate(v, bitrate).0)
  {
    hide Use, Ladder, S.GridOf;
    if v.SimulcastValue? {
      SimulcastLayer(v.simulcast, bitrate);
      var d := S.UseAvailableBitrate(v.simulcast, bitrate).0;
      assert S.Score(d, d.provisionalTargetSpatialLayer) == S.Score(v.simulcast, d.provisionalTargetSpatialLayer);
    }
  }

  lemma IncreaseOnDead(v: Value, bitrate: nat)
    requires WellFormed(v) && NoneForDead(v)
    ensures NoneForDead(IncreaseLayer(v, bitrate).0)
  {
    hide Increase, NextRung, S.CanSwitch;
    if v.SimulcastValue? {
      var c := v.simulcast;
      IncreaseClimbs(S.GridOf(c), c.provisionalTargetSpatialLayer, c.provisionalTargetTemporalLayer, c.fractionLost,
                     bitrate);
      var d := S.IncreaseLayer(c, bitrate).0;
      if AllDead(SimulcastValue(d)) {
        DeadStays(SimulcastValue(d), v);
      }
      assert S.Score(c, d.provisionalTargetSpatialLayer) == S.Score(d, d.provisionalTargetSpatialLayer);
    }
  }

  lemma DeadStays(v: Value, w: Value)
    requires OnlyProvisional(v, w) && AllDead(v)
    ensures AllDead(w)
  {
    forall s | 0 <= s < |w.simulcast.producerStreams| ensures S.Score(w.simulcast, s) == 0 {
      assert S.Score(v.simulcast, s) == 0;
    }
  }

  lemma {:induction false} MainRoundOnDead(p: Pot, m: seq<Entry>, available: nat, total: nat, place: nat)
    requires Sound(p) && Names(m, p) && total > 0 && place < |p.values|
    requires Named(m, place) > 0 || NoneForDead(p.values[place])
    ensures NoneForDead(MainRound(p, m, available, total).values[place])
    decreases |m|
  {
    hide UseAvailableBitrate, NoneForDead, Share, WellFormed;
    if m != [] {
      var e := m[|m| - 1];
      if e.place == place {
        UseOnDead(p.values[place], Share(available, e.priority, total));
      }
      MainRoundOnDead(UseOne(p, e, Share(available, e.priority, total)), m[..|m| - 1], available, total, place);
    }
  }

  lemma {:induction false} LayerPassOnDead(p: Pot, m: seq<Entry>, place: nat)
    requires Sound(p) && Names(m, p) && place < |p.values| && NoneForDead(p.values[place])
    ensures NoneForDead(LayerPass(p, m).values[place])
    decreases |m|
  {
    hide IncreaseLayer, NoneForDead, WellFormed;
    if m != [] {
      var e := m[|m| - 1];
      IncreaseOnDead(p.values[place], p.remaining);
      if IncreaseOne(p, e).remaining >= ENOUGH {
        LayerPassOnDead(IncreaseOne(p, e), m[..|m| - 1], place);
      }
    }
  }

  lemma {:induction false} LayerRoundOnDead(p: Pot, m: seq<Entry>, place: nat)
    requires Sound(p) && Names(m, p) && place < |p.values| && NoneForDead(p.values[place])
    ensures NoneForDead(LayerRound(p, m).values[place])
    decreases p.remaining
  {
    hide LayerPass, NoneForDead, WellFormed;
    if p.remaining >= ENOUGH {
      LayerPassOnDead(p, m, place);
      if LayerPass(p, m).remaining != p.remaining {
        LayerRoundOnDead(LayerPass(p, m), m, place);
      }
    }
  }

  lemma NothingForTheDead(values: seq<Value>, available: nat, place: nat)
    requires AllWellFormed(values) && place < |values| && Distributes(values) && Priority(values[place]) > 0
    ensures NoneForDead(Rounds(values, available).values[place])
  {
    hide WellFormed, Multimap, TotalPriorities, MainRound, LayerRound, NoneForDead, Priority, Priorities;
    var prios := Priorities(values);
    var m := Multimap(prios, |values|);
    NamedIffWanted(prios, |values|, place);
    MultimapNames(values, available);
    MainRoundOnDead(Start(values, available), m, available, TotalPriorities(prios, |values|), place);
    LayerRoundOnDead(MainRound(Start(values, available), m, available, TotalPriorities(prios, |values|)), m, place);
  }
}
