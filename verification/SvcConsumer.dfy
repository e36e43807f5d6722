/** SvcConsumer's part in the bandwidth allocation: one stream that carries several spatial layers. */
module SvcConsumers {
  import opened Bytes
  import opened Layers

  /** The producer's stream; the costs are indexed by spatial and temporal layer (GetBitrate and GetLayerBitrate), and
      `spatialBitrates` is GetSpatialLayerBitrate. */
  datatype SvcStream = SvcStream(
    score: u8,
    bitrates: seq<seq<nat>>,
    layerBitrates: seq<seq<nat>>,
    spatialBitrates: seq<nat>)

  datatype Svc = Svc(
    stream: Option<SvcStream>,
    transportConnected: bool,
    paused: bool,
    producerPaused: bool,
    externallyManagedBitrate: bool,
    preferredSpatialLayer: int,
    preferredTemporalLayer: int,
    provisionalTargetSpatialLayer: int,
    provisionalTargetTemporalLayer: int,
    targetSpatialLayer: int,
    targetTemporalLayer: int,
    temporalLayers: nat,
    fractionLost: u8)

  predicate WellFormed(c: Svc)
  {
    c.stream.Some? ==> IsMatrix(c.stream.value)
  }

  /** As many costs of either kind for every spatial layer. */
  predicate IsMatrix(stream: SvcStream)
  {
    && |stream.bitrates| == |stream.layerBitrates| == |stream.spatialBitrates|
    && forall s :: 0 <= s < |stream.bitrates| ==> |stream.bitrates[s]| == |stream.layerBitrates[s]|
  }

  predicate BaseActive(c: Svc)
  {
    c.transportConnected && !c.paused && !c.producerPaused
  }

  predicate Alive(c: Svc)
  {
    c.stream.Some? && c.stream.value.score != 0
  }

  /** Every layer of a live stream may be used. */
  function GridOf(c: Svc): (g: Grid)
    requires WellFormed(c)
  {
    Grid(if Alive(c) then
           seq(|c.stream.value.bitrates|, s requires 0 <= s < |c.stream.value.bitrates| =>
             Row(true, true, true, c.stream.value.bitrates[s], c.stream.value.layerBitrates[s]))
         else [],
         c.preferredSpatialLayer, c.preferredTemporalLayer)
  }

  function LiveLayers(stream: SvcStream): (r: seq<bool>)
    ensures |r| == |stream.spatialBitrates|
    ensures forall s :: 0 <= s < |r| ==> r[s] == (stream.spatialBitrates[s] != 0)
  {
    seq(|stream.spatialBitrates|, s requires 0 <= s < |stream.spatialBitrates| => stream.spatialBitrates[s] != 0)
  }

  /** GetBitratePriority. Unlike the simulcast consumer, this one wants no bitrate when its stream is dead. */
  function BitratePriority(c: Svc): nat
  {
    if !BaseActive(c) || !Alive(c) then 0
    else
      var s := PriorityLayer(LiveLayers(c.stream.value), c.preferredSpatialLayer, 0, -1);
      if s == -1 then 1 else s + 1
  }

  function WithProvisional(c: Svc, r: Option<Rung>): Svc
  {
    c.(provisionalTargetSpatialLayer := if r.Some? then r.value.spatial else -1,
       provisionalTargetTemporalLayer := if r.Some? then r.value.temporal else -1)
  }

  function UseAvailableBitrate(c: Svc, bitrate: nat): (Svc, nat)
    requires WellFormed(c)
  {
    if !BaseActive(c) then (WithProvisional(c, None), 0)
    else
      var (r, used) := Use(GridOf(c), c.fractionLost, bitrate);
      (WithProvisional(c, r), used)
  }

  function IncreaseLayer(c: Svc, bitrate: nat): (Svc, nat)
    requires WellFormed(c)
  {
    if !BaseActive(c) then (c, 0)
    else
      var (r, used) := Increase(GridOf(c), c.provisionalTargetSpatialLayer, c.provisionalTargetTemporalLayer,
                                c.fractionLost, bitrate);
      (if r.Some? then WithProvisional(c, r) else c, used)
  }

  function UpdateTargetLayers(c: Svc, s: int, t: int): Svc
  {
    c.(targetSpatialLayer := s, targetTemporalLayer := if s == -1 then -1 else t)
  }

  function ApplyLayers(c: Svc): Svc
  {
    var s, t := c.provisionalTargetSpatialLayer, c.provisionalTargetTemporalLayer;
    var d := WithProvisional(c, None);
    if BaseActive(c) && (s != c.targetSpatialLayer || t != c.targetTemporalLayer) then UpdateTargetLayers(d, s, t)
    else d
  }

  /** The spatial layer chosen by RecalculateTargetLayers from layer `s` on. */
  function ChooseSpatial(live: seq<bool>, preferred: int, s: nat, best: int): int
    decreases |live| - s
  {
    if s >= |live| then best
    else if !live[s] then ChooseSpatial(live, preferred, s + 1, best)
    else if s >= preferred then s
    else ChooseSpatial(live, preferred, s + 1, s)
  }

  function TargetLayers(c: Svc): (int, int)
  {
    if !Alive(c) then (-1, -1)
    else
      var s := ChooseSpatial(LiveLayers(c.stream.value), c.preferredSpatialLayer, 0, -1);
      (s, if s == -1 then -1
          else if s == c.preferredSpatialLayer then c.preferredTemporalLayer
          else if s < c.preferredSpatialLayer then c.temporalLayers - 1
          else 0)
  }

  /** The choice is the preferred layer or the first live one above it; without any, the highest live one. */
  predicate IsChoice(live: seq<bool>, preferred: int, r: int)
  {
    if r == -1 then forall i :: 0 <= i < |live| ==> !live[i]
    else
      && 0 <= r < |live|
      && live[r]
      && (r >= preferred ==> forall i :: 0 <= i < r && i >= preferred ==> !live[i])
      && (r < preferred ==> forall i :: r < i < |live| ==> !live[i])
  }

  lemma {:induction false} ChooseSpatialIsChoice(live: seq<bool>, preferred: int, s: nat, best: int)
    requires s <= |live|
    requires if best == -1 then forall i :: 0 <= i < s ==> !live[i]
             else 0 <= best < s && live[best] && best < preferred && forall i :: best < i < s ==> !live[i]
    ensures IsChoice(live, preferred, ChooseSpatial(live, preferred, s, best))
    decreases |live| - s
  {
    if s < |live| && !(live[s] && s >= preferred) {
      ChooseSpatialIsChoice(live, preferred, s + 1, if live[s] then s else best);
    }
  }

  /** The wish that sets the priority is a layer at or below the choice: below it only when the choice had to go above
      the preferred layer. */
  lemma WishIsAtMostChoice(live: seq<bool>, preferred: int, wish: int, choice: int)
    requires IsWish(live, preferred, wish) && IsChoice(live, preferred, choice)
    ensures wish <= choice && (choice <= preferred ==> wish == choice)
  {
    if wish != -1 && choice != -1 {
      assert live[wish] && live[choice];
    }
  }

  class SvcConsumer {
    var stream: Option<SvcStream>
    var transportConnected: bool
    var paused: bool
    var producerPaused: bool
    var externallyManagedBitrate: bool
    var preferredSpatialLayer: int
    var preferredTemporalLayer: int
    var provisionalTargetSpatialLayer: int
    var provisionalTargetTemporalLayer: int
    var targetSpatialLayer: int
    var targetTemporalLayer: int
    const temporalLayers: nat
    var fractionLost: u8

    ghost function Value(): Svc
      reads this
    {
      Svc(stream, transportConnected, paused, producerPaused, externallyManagedBitrate,
          preferredSpatialLayer, preferredTemporalLayer, provisionalTargetSpatialLayer, provisionalTargetTemporalLayer,
          targetSpatialLayer, targetTemporalLayer, temporalLayers, fractionLost)
    }

    constructor (preferredSpatialLayer: int, preferredTemporalLayer: int, temporalLayers: nat)
      ensures Value() == Svc(None, false, false, false, false, preferredSpatialLayer, preferredTemporalLayer,
                             -1, -1, -1, -1, temporalLayers, 0)
    {
      stream, transportConnected, paused, producerPaused, externallyManagedBitrate := None, false, false, false, false;
      this.preferredSpatialLayer, this.preferredTemporalLayer := preferredSpatialLayer, preferredTemporalLayer;
      provisionalTargetSpatialLayer, provisionalTargetTemporalLayer := -1, -1;
      targetSpatialLayer, targetTemporalLayer := -1, -1;
      this.temporalLayers, fractionLost := temporalLayers, 0;
    }

    predicate ParentIsActive()
      reads this
    {
      transportConnected && !paused && !producerPaused
    }

    predicate StreamIsAlive()
      reads `stream
    {
      stream.Some? && stream.value.score != 0
    }

    method GetBitratePriority() returns (priority: nat)
      requires WellFormed(Value())
      ensures priority == BitratePriority(Value())
    {
      if !ParentIsActive() || !StreamIsAlive() {
        return 0;
      }
      ghost var live := LiveLayers(stream.value);
      var best := -1;
      var s := 0;
      while s < |stream.value.bitrates|
        invariant s <= |stream.value.bitrates| && -1 <= best < |live|
        invariant PriorityLayer(live, preferredSpatialLayer, s, best) ==
                  PriorityLayer(live, preferredSpatialLayer, 0, -1)
      {
        if s > preferredSpatialLayer && best != -1 {
          break;
        }
        if stream.value.spatialBitrates[s] != 0 {
          best := s;
        }
        s := s + 1;
      }
      if best == -1 {
        return 1;
      }
      return best + 1;
    }

    method UseBitrate(bitrate: nat) returns (used: nat)
      requires WellFormed(Value()) && externallyManagedBitrate
      modifies this`provisionalTargetSpatialLayer, this`provisionalTargetTemporalLayer
      ensures (Value(), used) == UseAvailableBitrate(old(Value()), bitrate)
    {
      hide Ladder, Climb, VirtualBitrate, Charge;
      ghost var g := GridOf(Value());
      provisionalTargetSpatialLayer, provisionalTargetTemporalLayer := -1, -1;
      if !ParentIsActive() {
        return 0;
      }
      var budget := VirtualBitrate(fractionLost, bitrate);
      used := 0;
      if StreamIsAlive() {
        used := ClimbLayers(g, budget);
      } else {
        LadderEnd(g, 0);
        ClimbNone(None, budget);
      }
      used := Charge(used, bitrate, budget);
    }

    ghost function Chosen(usedBitrate: nat): Option<Rung>
      reads this`provisionalTargetSpatialLayer, this`provisionalTargetTemporalLayer
    {
      if provisionalTargetSpatialLayer == -1 then None
      else Some(Rung(provisionalTargetSpatialLayer, provisionalTargetTemporalLayer, usedBitrate))
    }

    ghost predicate Describes(g: Grid)
      reads `stream, `preferredSpatialLayer, `preferredTemporalLayer
    {
      && g.preferredSpatial == preferredSpatialLayer
      && g.preferredTemporal == preferredTemporalLayer
      && StreamIsAlive()
      && IsMatrix(stream.value)
      && |g.rows| == |stream.value.bitrates|
      && forall s :: 0 <= s < |g.rows| ==>
           g.rows[s] == Row(true, true, true, stream.value.bitrates[s], stream.value.layerBitrates[s])
    }

    /** The two nested loops of UseAvailableBitrate. */
    method ClimbLayers(ghost g: Grid, budget: nat) returns (usedBitrate: nat)
      requires Describes(g)
      requires provisionalTargetSpatialLayer == provisionalTargetTemporalLayer == -1
      modifies this`provisionalTargetSpatialLayer, this`provisionalTargetTemporalLayer
      ensures Chosen(usedBitrate) == Climb(None, Ladder(g, 0), budget)
      ensures provisionalTargetSpatialLayer == -1 ==> usedBitrate == 0 && provisionalTargetTemporalLayer == -1
    {
      hide Ladder, LadderFrom, LadderAfter, Climb;
      usedBitrate := 0;
      ghost var goal := Climb(None, Ladder(g, 0), budget);
      var bitrates := stream.value.bitrates;
      var s := 0;
      label done: while s < |bitrates|
        invariant s <= |bitrates|
        invariant Climb(Chosen(usedBitrate), Ladder(g, s), budget) == goal
        invariant provisionalTargetSpatialLayer == -1 ==> usedBitrate == 0 && provisionalTargetTemporalLayer == -1
      {
        LadderStep(g, s);
        var t := 0;
        while t < |bitrates[s]|
          invariant t <= |bitrates[s]|
          invariant Climb(Chosen(usedBitrate), LadderFrom(g, s, t), budget) == goal
          invariant provisionalTargetSpatialLayer == -1 ==> usedBitrate == 0 && provisionalTargetTemporalLayer == -1
        {
          var requiredBitrate := bitrates[s][t];
          if requiredBitrate == 0 {
            break;
          }
          LadderFromStep(g, s, t, Chosen(usedBitrate), budget);
          if requiredBitrate > budget {
            ClimbNone(Chosen(usedBitrate), budget);
            break done;
          }
          provisionalTargetSpatialLayer, provisionalTargetTemporalLayer := s, t;
          usedBitrate := requiredBitrate;
          if s == preferredSpatialLayer && t == preferredTemporalLayer {
            ClimbNone(Chosen(usedBitrate), budget);
            break done;
          }
          t := t + 1;
        }
        LadderFromEnd(g, s, t);
        LadderAfterStep(g, s);
        if s >= preferredSpatialLayer {
          break;
        }
        s := s + 1;
      }
      ClimbNone(Chosen(usedBitrate), budget);
      LadderEnd(g, |bitrates|);
    }

    method IncreaseOneLayer(bitrate: nat) returns (used: nat)
      requires WellFormed(Value()) && externallyManagedBitrate
      modifies this`provisionalTargetSpatialLayer, this`provisionalTargetTemporalLayer
      ensures (Value(), used) == IncreaseLayer(old(Value()), bitrate)
    {
      hide NextRung, VirtualBitrate, Charge;
      if !ParentIsActive() {
        return 0;
      }
      if !StreamIsAlive() {
        NextRungNone(GridOf(Value()), provisionalTargetSpatialLayer, provisionalTargetTemporalLayer, 0);
        return 0;
      }
      if provisionalTargetSpatialLayer == preferredSpatialLayer &&
         provisionalTargetTemporalLayer == preferredTemporalLayer {
        return 0;
      }
      var budget := VirtualBitrate(fractionLost, bitrate);
      var s, t, requiredBitrate := FindNextLayer(GridOf(Value()));
      if requiredBitrate == 0 || requiredBitrate > budget {
        return 0;
      }
      provisionalTargetSpatialLayer, provisionalTargetTemporalLayer := s, t;
      used := Charge(requiredBitrate, bitrate, budget);
    }

    /** The two nested loops of IncreaseLayer. */
    method FindNextLayer(ghost g: Grid) returns (s: nat, t: nat, requiredBitrate: nat)
      requires Describes(g)
      ensures NextRung(g, provisionalTargetSpatialLayer, provisionalTargetTemporalLayer, 0) ==
              if requiredBitrate == 0 then None else Some(Rung(s, t, requiredBitrate))
    {
      hide NextRung, NextRungFrom, NextRungAfter;
      requiredBitrate := 0;
      s, t := 0, 0;
      ghost var ps, pt := provisionalTargetSpatialLayer, provisionalTargetTemporalLayer;
      ghost var goal := NextRung(g, ps, pt, 0);
      var layerBitrates := stream.value.layerBitrates;
      label done: while s < |layerBitrates|
        invariant s <= |layerBitrates| && requiredBitrate == 0
        invariant NextRung(g, ps, pt, s) == goal
      {
        NextRungStep(g, ps, pt, s);
        if s < provisionalTargetSpatialLayer {
          s := s + 1;
          continue;
        }
        t := 0;
        while t < |layerBitrates[s]|
          invariant t <= |layerBitrates[s]| && requiredBitrate == 0
          invariant NextRungFrom(g, ps, pt, s, t) == goal
        {
          NextRungFromStep(g, ps, pt, s, t);
          if s == preferredSpatialLayer && t == preferredTemporalLayer {
            break done;
          }
          if s == provisionalTargetSpatialLayer && t <= provisionalTargetTemporalLayer {
            t := t + 1;
            continue;
          }
          requiredBitrate := layerBitrates[s][t];
          if requiredBitrate != 0 {
            break done;
          }
          break;
        }
        if t == |layerBitrates[s]| {
          NextRungEnd(g, ps, pt, s, t);
        }
        NextRungAfterStep(g, ps, pt, s);
        if s >= preferredSpatialLayer {
          break;
        }
        s := s + 1;
      }
      NextRungNone(g, ps, pt, |layerBitrates|);
    }

    method DoUpdateTargetLayers(newTargetSpatialLayer: int, newTargetTemporalLayer: int)
      modifies this`targetSpatialLayer, this`targetTemporalLayer
      ensures Value() == UpdateTargetLayers(old(Value()), newTargetSpatialLayer, newTargetTemporalLayer)
    {
      targetSpatialLayer, targetTemporalLayer := newTargetSpatialLayer, newTargetTemporalLayer;
      if newTargetSpatialLayer == -1 {
        targetTemporalLayer := -1;
      }
    }

    method DoApplyLayers()
      requires externallyManagedBitrate
      modifies this`provisionalTargetSpatialLayer, this`provisionalTargetTemporalLayer,
               this`targetSpatialLayer, this`targetTemporalLayer
      ensures Value() == ApplyLayers(old(Value()))
    {
      var s, t := provisionalTargetSpatialLayer, provisionalTargetTemporalLayer;
      provisionalTargetSpatialLayer, provisionalTargetTemporalLayer := -1, -1;
      if !ParentIsActive() {
        return;
      }
      if s != targetSpatialLayer || t != targetTemporalLayer {
        DoUpdateTargetLayers(s, t);
      }
    }

    method RecalculateTargetLayers() returns (changed: bool, s: int, t: int)
      requires WellFormed(Value())
      ensures (s, t) == TargetLayers(Value())
      ensures changed == (s != targetSpatialLayer || t != targetTemporalLayer)
    {
      s, t := -1, -1;
      if StreamIsAlive() {
        ghost var live := LiveLayers(stream.value);
        var i := 0;
        while i < |stream.value.bitrates|
          invariant i <= |live|
          invariant ChooseSpatial(live, preferredSpatialLayer, i, s) == ChooseSpatial(live, preferredSpatialLayer, 0, -1)
        {
          if stream.value.spatialBitrates[i] != 0 {
            s := i;
            if i >= preferredSpatialLayer {
              break;
            }
          }
          i := i + 1;
        }
        if s != -1 {
          if s == preferredSpatialLayer {
            t := preferredTemporalLayer;
          } else if s < preferredSpatialLayer {
            t := temporalLayers - 1;
          } else {
            t := 0;
          }
        }
      }
      changed := s != targetSpatialLayer || t != targetTemporalLayer;
    }
  }
}
