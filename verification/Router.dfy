/** Router and Transport: who produces, who consumes, and what a close takes with it. */
module Routers {
  import opened Bytes

  type Id = string

  /** An object's address. Two objects are never the same, whatever their ids. */
  type Address = nat

  datatype Producer = Producer(id: Id, transport: Address, address: Address)

  datatype Consumer = Consumer(id: Id, transport: Address, ssrcs: seq<u32>, address: Address)

  /** The maps of a transport. */
  datatype Transport = Transport(
    id: Id,
    producers: map<Id, Producer>,
    consumers: map<Id, Consumer>,
    ssrcConsumer: map<u32, Consumer>)

  /** The router with its transports, by their addresses; addresses from nextAddress on are free. The last two fields
      remember what was deleted. */
  datatype State = State(
    mapTransports: map<Id, Address>,
    transports: map<Address, Transport>,
    mapProducers: map<Id, Producer>,
    mapProducerConsumers: map<Producer, set<Consumer>>,
    mapConsumerProducer: map<Consumer, Producer>,
    mapRtpObservers: map<Id, Address>,
    mapProducerRtpObservers: map<Producer, set<Address>>,
    nextAddress: Address,
    freedProducers: set<Producer>,
    freedConsumers: set<Consumer>)

  const EMPTY := State(map[], map[], map[], map[], map[], map[], map[], 0, {}, {})

  // ----- The invariant

  /** Consumer c is among those of producer p exactly when p is the producer of c. */
  ghost predicate Inverse(s: State)
  {
    && (forall p, c :: p in s.mapProducerConsumers && c in s.mapProducerConsumers[p] ==>
          c in s.mapConsumerProducer && s.mapConsumerProducer[c] == p)
    && (forall c :: c in s.mapConsumerProducer ==>
          && s.mapConsumerProducer[c] in s.mapProducerConsumers
          && c in s.mapProducerConsumers[s.mapConsumerProducer[c]])
  }

  /** The maps keyed by producers have the same domain, the producers that mapProducers lists by their ids. */
  ghost predicate SameDomain(s: State)
  {
    && s.mapProducerConsumers.Keys == s.mapProducerRtpObservers.Keys
    && (forall id :: id in s.mapProducers ==>
          s.mapProducers[id] in s.mapProducerConsumers && s.mapProducers[id].id == id)
    && (forall p :: p in s.mapProducerConsumers ==> p.id in s.mapProducers && s.mapProducers[p.id] == p)
  }

  ghost predicate ObserversKnown(s: State)
  {
    forall p :: p in s.mapProducerRtpObservers ==> s.mapProducerRtpObservers[p] <= s.mapRtpObservers.Values
  }

  /** Nothing that a map still mentions was deleted, and new objects are new. */
  ghost predicate NothingDangles(s: State)
  {
    && s.mapProducerConsumers.Keys !! s.freedProducers
    && s.mapConsumerProducer.Keys !! s.freedConsumers
    && (forall p :: p in s.mapProducerConsumers || p in s.freedProducers ==> p.address < s.nextAddress)
    && (forall c :: c in s.mapConsumerProducer || c in s.freedConsumers ==> c.address < s.nextAddress)
    && (forall a :: a in s.transports ==> a < s.nextAddress)
  }

  ghost predicate TransportsKnown(s: State)
  {
    && (forall id :: id in s.mapTransports ==>
          s.mapTransports[id] in s.transports && s.transports[s.mapTransports[id]].id == id)
    && (forall a :: a in s.transports ==>
          s.transports[a].id in s.mapTransports && s.mapTransports[s.transports[a].id] == a)
  }

  /** Every producer of the router is registered with its transport, and transports hold no others. */
  ghost predicate ProducersLinked(s: State)
  {
    && (forall p :: p in s.mapProducerConsumers ==>
          && p.transport in s.transports
          && p.id in s.transports[p.transport].producers
          && s.transports[p.transport].producers[p.id] == p)
    && (forall a, id :: a in s.transports && id in s.transports[a].producers ==>
          var p := s.transports[a].producers[id];
          p.id == id && p.transport == a && p in s.mapProducerConsumers)
  }

  /** The same for the consumers. */
  ghost predicate ConsumersLinked(s: State)
  {
    && (forall c :: c in s.mapConsumerProducer ==>
          && c.transport in s.transports
          && c.id in s.transports[c.transport].consumers
          && s.transports[c.transport].consumers[c.id] == c)
    && (forall a, id :: a in s.transports && id in s.transports[a].consumers ==>
          var c := s.transports[a].consumers[id];
          c.id == id && c.transport == a && c in s.mapConsumerProducer)
  }

  /** Every SSRC of a transport leads to a consumer of the transport that has it. */
  ghost predicate SsrcsLinked(s: State)
  {
    forall a, x :: a in s.transports && x in s.transports[a].ssrcConsumer ==>
      var c := s.transports[a].ssrcConsumer[x];
      x in c.ssrcs && c.transport == a && c in s.mapConsumerProducer
  }

  ghost predicate Valid(s: State)
  {
    && Inverse(s)
    && SameDomain(s)
    && ObserversKnown(s)
    && NothingDangles(s)
    && TransportsKnown(s)
    && ProducersLinked(s)
    && ConsumersLinked(s)
    && SsrcsLinked(s)
  }

  // ----- Closing consumers

  function SsrcSet(ssrcs: seq<u32>): set<u32>
  {
    set x | x in ssrcs
  }

  /** A transport forgets some of its consumers and their SSRCs, even where another consumer has taken one over. */
  function Forget(t: Transport, gone: set<Consumer>): Transport
  {
    t.(consumers := map id | id in t.consumers && t.consumers[id] !in gone :: t.consumers[id],
       ssrcConsumer := map x | x in t.ssrcConsumer && (forall c :: c in gone ==> x !in c.ssrcs) :: t.ssrcConsumer[x])
  }

  function OfTransport(gone: set<Consumer>, a: Address): set<Consumer>
  {
    set c | c in gone && c.transport == a
  }

  /** Their producer was closed: the consumers leave their transports and mapConsumerProducer, and are deleted. Their
      producer's set of consumers is not touched. */
  function CloseWithProducer(s: State, gone: set<Consumer>): State
  {
    s.(transports := map a | a in s.transports :: Forget(s.transports[a], OfTransport(gone, a)),
       mapConsumerProducer := s.mapConsumerProducer - gone,
       freedConsumers := s.freedConsumers + gone)
  }

  lemma OfTransportPlus(gone: set<Consumer>, c: Consumer, a: Address)
    ensures OfTransport(gone + {c}, a) == OfTransport(gone, a) + OfTransport({c}, a)
    ensures OfTransport({c}, a) == if c.transport == a then {c} else {}
  {
  }

  lemma ForgetAtTransport(t: Transport, a: Address, gone: set<Consumer>, c: Consumer)
    ensures Forget(Forget(t, OfTransport(gone, a)), OfTransport({c}, a)) == Forget(t, OfTransport(gone + {c}, a))
  {
    hide Forget, OfTransport;
    OfTransportPlus(gone, c, a);
    if c.transport == a {
      ForgetOneMore(t, OfTransport(gone, a), c);
    } else {
      ForgetNone(Forget(t, OfTransport(gone, a)));
      assert OfTransport(gone, a) + {} == OfTransport(gone, a);
    }
  }

  /** Consumers closed one after the other are the consumers closed at once. */
  lemma CloseOneMore(s: State, gone: set<Consumer>, c: Consumer)
    ensures CloseWithProducer(CloseWithProducer(s, gone), {c}) == CloseWithProducer(s, gone + {c})
  {
    hide Forget, OfTransport;
    var two := CloseWithProducer(CloseWithProducer(s, gone), {c});
    var all := CloseWithProducer(s, gone + {c});
    forall a | a in s.transports ensures two.transports[a] == all.transports[a] {
      ForgetAtTransport(s.transports[a], a, gone, c);
    }
    assert two.transports == all.transports;
    assert two.mapConsumerProducer == all.mapConsumerProducer;
    assert two.freedConsumers == all.freedConsumers;
  }

  lemma ForgetNone(t: Transport)
    ensures Forget(t, {}) == t
  {
    assert Forget(t, {}).consumers == t.consumers;
  }

  lemma ForgetOneMore(t: Transport, gone: set<Consumer>, c: Consumer)
    ensures Forget(Forget(t, gone), {c}) == Forget(t, gone + {c})
  {
    assert Forget(Forget(t, gone), {c}).consumers == Forget(t, gone + {c}).consumers;
    assert Forget(Forget(t, gone), {c}).ssrcConsumer == Forget(t, gone + {c}).ssrcConsumer;
  }

  // ----- Closing producers and transports, as the router sees it

  /** All consumers of some producers. */
  function ConsumersOf(s: State, ps: set<Producer>): set<Consumer>
  {
    set p, c | p in ps && p in s.mapProducerConsumers && c in s.mapProducerConsumers[p] :: c
  }

  /** OnTransportProducerClosed for some producers, which are then deleted. */
  function CloseProducers(s: State, ps: set<Producer>): State
  {
    CloseWithProducer(s, ConsumersOf(s, ps)).(
      mapProducers := map id | id in s.mapProducers && s.mapProducers[id] !in ps :: s.mapProducers[id],
      mapProducerConsumers := s.mapProducerConsumers - ps,
      mapProducerRtpObservers := s.mapProducerRtpObservers - ps,
      freedProducers := s.freedProducers + ps)
  }

  /** OnTransportConsumerClosed for some consumers, which are then deleted. */
  function CloseConsumers(s: State, cs: set<Consumer>): State
  {
    s.(mapProducerConsumers := map p | p in s.mapProducerConsumers :: s.mapProducerConsumers[p] - cs,
       mapConsumerProducer := s.mapConsumerProducer - cs,
       freedConsumers := s.freedConsumers + cs)
  }

  lemma CloseOneMoreConsumer(s: State, cs: set<Consumer>, c: Consumer)
    ensures CloseConsumers(CloseConsumers(s, cs), {c}) == CloseConsumers(s, cs + {c})
  {
    var two, all := CloseConsumers(CloseConsumers(s, cs), {c}), CloseConsumers(s, cs + {c});
    forall p | p in s.mapProducerConsumers ensures two.mapProducerConsumers[p] == all.mapProducerConsumers[p] {
      assert s.mapProducerConsumers[p] - cs - {c} == s.mapProducerConsumers[p] - (cs + {c});
    }
    assert two.mapProducerConsumers == all.mapProducerConsumers;
    assert two.mapConsumerProducer == all.mapConsumerProducer;
    assert two.freedConsumers == all.freedConsumers;
  }

  lemma CloseMoreWithProducer(s: State, gone: set<Consumer>, more: set<Consumer>)
    ensures CloseWithProducer(CloseWithProducer(s, gone), more) == CloseWithProducer(s, gone + more)
    decreases |more|
  {
    hide CloseWithProducer;
    if more == {} {
      CloseNone(CloseWithProducer(s, gone));
      assert gone + more == gone;
    } else {
      var c :| c in more;
      var rest := more - {c};
      CloseMoreWithProducer(s, gone, rest);
      CloseOneMore(s, gone + rest, c);
      CloseOneMore(CloseWithProducer(s, gone), rest, c);
      assert rest + {c} == more && gone + rest + {c} == gone + more;
    }
  }

  lemma CloseNone(s: State)
    ensures CloseWithProducer(s, {}) == s
  {
    forall a | a in s.transports ensures Forget(s.transports[a], OfTransport({}, a)) == s.transports[a] {
      ForgetNone(s.transports[a]);
      assert OfTransport({}, a) == {};
    }
    assert CloseWithProducer(s, {}).transports == s.transports;
    assert CloseWithProducer(s, {}).mapConsumerProducer == s.mapConsumerProducer;
  }

  lemma ConsumersOfOneMore(s: State, ps: set<Producer>, p: Producer)
    requires p !in ps
    ensures ConsumersOf(s, ps + {p}) == ConsumersOf(s, ps) + ConsumersOf(CloseProducers(s, ps), {p})
  {
    hide CloseWithProducer;
    var one := CloseProducers(s, ps);
    forall c ensures c in ConsumersOf(s, ps + {p}) <==> c in ConsumersOf(s, ps) + ConsumersOf(one, {p}) {
      if p in s.mapProducerConsumers && c in s.mapProducerConsumers[p] {
        assert p in one.mapProducerConsumers;
      }
    }
  }

  /** Producers closed one after the other are the producers closed at once. */
  lemma CloseOneMoreProducer(s: State, ps: set<Producer>, p: Producer)
    requires p !in ps
    ensures CloseProducers(CloseProducers(s, ps), {p}) == CloseProducers(s, ps + {p})
  {
    ConsumersOfOneMore(s, ps, p);
    CloseOneMoreMaps(s, ps, p);
    hide CloseWithProducer, ConsumersOf;
    var one := CloseProducers(s, ps);
    var gone, more := ConsumersOf(s, ps), ConsumersOf(one, {p});
    CloseMoreWithProducer(s, gone, more);
    OnlyThree(s, one, gone, more);
  }

  lemma CloseOneMoreMaps(s: State, ps: set<Producer>, p: Producer)
    ensures var two, all := CloseProducers(CloseProducers(s, ps), {p}), CloseProducers(s, ps + {p});
            && two.mapProducers == all.mapProducers
            && two.mapProducerConsumers == all.mapProducerConsumers
            && two.mapProducerRtpObservers == all.mapProducerRtpObservers
            && two.freedProducers == all.freedProducers
  {
    hide CloseWithProducer, ConsumersOf;
    var two, all := CloseProducers(CloseProducers(s, ps), {p}), CloseProducers(s, ps + {p});
    assert two.mapProducers == all.mapProducers;
    assert two.mapProducerConsumers == all.mapProducerConsumers;
    assert two.mapProducerRtpObservers == all.mapProducerRtpObservers;
    assert two.freedProducers == all.freedProducers;
  }

  /** CloseWithProducer neither reads nor writes the maps keyed by producers. */
  lemma OnlyThree(s: State, one: State, gone: set<Consumer>, more: set<Consumer>)
    requires one == CloseWithProducer(s, gone).(
      mapProducers := one.mapProducers, mapProducerConsumers := one.mapProducerConsumers,
      mapProducerRtpObservers := one.mapProducerRtpObservers, freedProducers := one.freedProducers)
    ensures CloseWithProducer(one, more) == CloseWithProducer(CloseWithProducer(s, gone), more).(
      mapProducers := one.mapProducers, mapProducerConsumers := one.mapProducerConsumers,
      mapProducerRtpObservers := one.mapProducerRtpObservers, freedProducers := one.freedProducers)
  {
  }

  // ----- Requests

  /** A request is refused, or has some effect. */
  datatype Reply = Refused | Done(state: State)

  function AddTransport(s: State, id: Id): Reply
  {
    if id in s.mapTransports then Refused
    else
      Done(s.(mapTransports := s.mapTransports[id := s.nextAddress],
              transports := s.transports[s.nextAddress := Transport(id, map[], map[], map[])],
              nextAddress := s.nextAddress + 1))
  }

  /** TRANSPORT_PRODUCE; `accepted` says that the producer's parameters are good and do not clash in the RTP listener. */
  function Produce(s: State, a: Address, id: Id, accepted: bool): Reply
    requires a in s.transports
  {
    if id in s.transports[a].producers || !accepted || id in s.mapProducers then Refused
    else
      var p := Producer(id, a, s.nextAddress);
      Done(s.(transports := s.transports[a := s.transports[a].(producers := s.transports[a].producers[id := p])],
              mapProducers := s.mapProducers[id := p],
              mapProducerConsumers := s.mapProducerConsumers[p := {}],
              mapProducerRtpObservers := s.mapProducerRtpObservers[p := {}],
              nextAddress := s.nextAddress + 1))
  }

  /** A new consumer takes over the SSRCs that it shares with others. */
  function Hold(t: Transport, c: Consumer): Transport
  {
    t.(consumers := t.consumers[c.id := c],
       ssrcConsumer := map x | x in t.ssrcConsumer.Keys + SsrcSet(c.ssrcs) :: if x in c.ssrcs then c else t.ssrcConsumer[x])
  }

  /** TRANSPORT_CONSUME, with good parameters. */
  function Consume(s: State, a: Address, producerId: Id, id: Id, ssrcs: seq<u32>): Reply
    requires a in s.transports
    requires producerId in s.mapProducers ==> s.mapProducers[producerId] in s.mapProducerConsumers
  {
    if id in s.transports[a].consumers || producerId !in s.mapProducers then Refused
    else
      var c := Consumer(id, a, ssrcs, s.nextAddress);
      var p := s.mapProducers[producerId];
      Done(s.(transports := s.transports[a := Hold(s.transports[a], c)],
              mapProducerConsumers := s.mapProducerConsumers[p := s.mapProducerConsumers[p] + {c}],
              mapConsumerProducer := s.mapConsumerProducer[c := p],
              nextAddress := s.nextAddress + 1))
  }

  /** PRODUCER_CLOSE. */
  function CloseProducer(s: State, a: Address, id: Id): Reply
    requires a in s.transports
  {
    if id !in s.transports[a].producers then Refused
    else
      var p := s.transports[a].producers[id];
      var t := s.transports[a].(producers := s.transports[a].producers - {id});
      Done(CloseProducers(s.(transports := s.transports[a := t]), {p}))
  }

  /** CONSUMER_CLOSE. */
  function CloseConsumer(s: State, a: Address, id: Id): Reply
    requires a in s.transports
  {
    if id !in s.transports[a].consumers then Refused
    else
      var c := s.transports[a].consumers[id];
      Done(CloseConsumers(s.(transports := s.transports[a := Forget(s.transports[a], {c})]), {c}))
  }

  /** CloseProducersAndConsumers: the transport's producers are closed, and then the consumers that are left to it. */
  function CloseProducersAndConsumers(s: State, a: Address): State
    requires a in s.transports
  {
    var closed := CloseProducers(s, s.transports[a].producers.Values);
    CloseConsumers(closed, closed.transports[a].consumers.Values)
  }

  /** TRANSPORT_CLOSE. */
  function CloseTransport(s: State, id: Id): Reply
    requires id in s.mapTransports ==> s.mapTransports[id] in s.transports
  {
    if id !in s.mapTransports then Refused
    else
      var a := s.mapTransports[id];
      var d := CloseProducersAndConsumers(s, a);
      Done(d.(mapTransports := d.mapTransports - {id}, transports := d.transports - {a}))
  }

  function AddObserver(s: State, id: Id): Reply
  {
    if id in s.mapRtpObservers then Refused
    else Done(s.(mapRtpObservers := s.mapRtpObservers[id := s.nextAddress], nextAddress := s.nextAddress + 1))
  }

  /** RTP_OBSERVER_CLOSE. */
  function CloseObserver(s: State, id: Id): Reply
  {
    if id !in s.mapRtpObservers then Refused
    else
      var o := s.mapRtpObservers[id];
      Done(s.(mapRtpObservers := s.mapRtpObservers - {id},
              mapProducerRtpObservers :=
                map p | p in s.mapProducerRtpObservers :: s.mapProducerRtpObservers[p] - {o}))
  }

  /** RTP_OBSERVER_ADD_PRODUCER and RTP_OBSERVER_REMOVE_PRODUCER. */
  function Observe(s: State, observerId: Id, producerId: Id, add: bool): Reply
    requires producerId in s.mapProducers ==> s.mapProducers[producerId] in s.mapProducerRtpObservers
  {
    if observerId !in s.mapRtpObservers || producerId !in s.mapProducers then Refused
    else
      var o, p := s.mapRtpObservers[observerId], s.mapProducers[producerId];
      var os := s.mapProducerRtpObservers[p];
      Done(s.(mapProducerRtpObservers := s.mapProducerRtpObservers[p := if add then os + {o} else os - {o}]))
  }
}
