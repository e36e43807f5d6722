/** The router with its maps and loops, refining the values. */
module RouterClass {
  import opened Bytes
  import opened Routers
  import opened RouterLemmas

  /** What holds between the steps of a close. */
  ghost predicate Midway(s: State)
  {
    Inverse(s) && SameDomain(s) && NothingDangles(s) && ConsumersLinked(s) && SsrcsLinked(s)
  }

  lemma ClosingKeepsMidway(s: State, ps: set<Producer>)
    requires Midway(s) && ObserversKnown(s) && ps <= s.mapProducerConsumers.Keys
    ensures Midway(CloseProducers(s, ps)) && ObserversKnown(CloseProducers(s, ps))
  {
    hide Inverse, SameDomain, ObserversKnown, NothingDangles, ConsumersLinked, SsrcsLinked, ConsumersOf,
      CloseWithProducer;
    ClosedInverse(s, ps);
    ClosedDomain(s, ps);
    ClosedDangles(s, ps);
    ClosedConsumers(s, ConsumersOf(s, ps));
    LinkedAlike(CloseWithProducer(s, ConsumersOf(s, ps)), CloseProducers(s, ps));
  }

  /** Erasing the consumer's id and SSRCs is forgetting the consumer. */
  lemma ErasedIsForgotten(s: State, c: Consumer)
    requires ConsumersLinked(s) && c in s.mapConsumerProducer
    ensures c.transport in s.transports
    ensures var t := s.transports[c.transport];
            Forget(t, {c}) == t.(consumers := t.consumers - {c.id}, ssrcConsumer := t.ssrcConsumer - SsrcSet(c.ssrcs))
  {
    var t := s.transports[c.transport];
    assert Forget(t, {c}).consumers == t.consumers - {c.id};
    assert Forget(t, {c}).ssrcConsumer == t.ssrcConsumer - SsrcSet(c.ssrcs);
  }

  /** What CONSUMER_CLOSE relies on. */
  lemma ConsumerFacts(s: State, a: Address, id: Id)
    requires Valid(s) && a in s.transports && id in s.transports[a].consumers
    ensures var t, c := s.transports[a], s.transports[a].consumers[id];
            && Inverse(s) && c in s.mapConsumerProducer && c !in s.freedConsumers
            && Forget(t, {c}) == t.(consumers := t.consumers - {id}, ssrcConsumer := t.ssrcConsumer - SsrcSet(c.ssrcs))
  {
    hide Forget, SsrcSet, Inverse;
    HeldConsumer(s, a, id);
    NotFreedConsumer(s, s.transports[a].consumers[id]);
    ErasedIsForgotten(s, s.transports[a].consumers[id]);
  }

  /** Only the set of its producer holds a consumer. */
  lemma OnlyItsProducer(s: State, c: Consumer)
    requires Inverse(s) && c in s.mapConsumerProducer
    ensures s.mapConsumerProducer[c] in s.mapProducerConsumers
    ensures var p := s.mapConsumerProducer[c];
            CloseConsumers(s, {c}).mapProducerConsumers ==
            s.mapProducerConsumers[p := s.mapProducerConsumers[p] - {c}]
  {
    var p := s.mapConsumerProducer[c];
    forall q | q in s.mapProducerConsumers && q != p ensures s.mapProducerConsumers[q] - {c} == s.mapProducerConsumers[q] {
      assert c !in s.mapProducerConsumers[q];
    }
  }

  lemma NobodyClosed(s: State)
    ensures CloseConsumers(s, {}) == s && CloseWithProducer(s, {}) == s && CloseProducers(s, {}) == s
  {
    CloseNone(s);
    hide CloseWithProducer;
    assert ConsumersOf(s, {}) == {};
    assert CloseProducers(s, {}).mapProducers == s.mapProducers;
    forall p | p in s.mapProducerConsumers ensures s.mapProducerConsumers[p] - {} == s.mapProducerConsumers[p] {
    }
    assert CloseConsumers(s, {}).mapProducerConsumers == s.mapProducerConsumers;
    assert CloseConsumers(s, {}).mapConsumerProducer == s.mapConsumerProducer;
  }

  class Router {
    var mapTransports: map<Id, Address>
    var transports: map<Address, Transport>
    var mapProducers: map<Id, Producer>
    var mapProducerConsumers: map<Producer, set<Consumer>>
    var mapConsumerProducer: map<Consumer, Producer>
    var mapRtpObservers: map<Id, Address>
    var mapProducerRtpObservers: map<Producer, set<Address>>
    var nextAddress: Address
    ghost var freedProducers: set<Producer>
    ghost var freedConsumers: set<Consumer>

    ghost function Value(): State
      reads this
    {
      State(mapTransports, transports, mapProducers, mapProducerConsumers, mapConsumerProducer, mapRtpObservers,
            mapProducerRtpObservers, nextAddress, freedProducers, freedConsumers)
    }

    constructor ()
      ensures Value() == EMPTY
    {
      mapTransports, transports, mapProducers, mapProducerConsumers := map[], map[], map[], map[];
      mapConsumerProducer, mapRtpObservers, mapProducerRtpObservers, nextAddress := map[], map[], map[], 0;
      freedProducers, freedConsumers := {}, {};
    }

    static method EraseSsrcs(t: Transport, ssrcs: seq<u32>) returns (r: Transport)
      ensures r == t.(ssrcConsumer := t.ssrcConsumer - SsrcSet(ssrcs))
    {
      r := t;
      var i := 0;
      while i < |ssrcs|
        invariant i <= |ssrcs|
        invariant r == t.(ssrcConsumer := t.ssrcConsumer - SsrcSet(ssrcs[..i]))
      {
        r := r.(ssrcConsumer := r.ssrcConsumer - {ssrcs[i]});
        assert SsrcSet(ssrcs[..i + 1]) == SsrcSet(ssrcs[..i]) + {ssrcs[i]};
        i := i + 1;
      }
      assert ssrcs[..i] == ssrcs;
    }

    /** Consumer::ProducerClosed: Transport::OnConsumerProducerClosed forgets the consumer, the router's
        OnTransportConsumerProducerClosed erases it from mapConsumerProducer, and it is deleted. */
    method ConsumerProducerClosed(consumer: Consumer)
      requires ConsumersLinked(Value()) && consumer in mapConsumerProducer && consumer !in freedConsumers
      modifies this`transports, this`mapConsumerProducer, this`freedConsumers
      ensures Value() == CloseWithProducer(old(Value()), {consumer})
    {
      ErasedIsForgotten(Value(), consumer);
      OnlyItsTransport(Value(), consumer);
      hide ConsumersLinked, Forget, SsrcSet;
      var t := transports[consumer.transport];
      t := t.(consumers := t.consumers - {consumer.id});
      t := EraseSsrcs(t, consumer.ssrcs);
      transports := transports[consumer.transport := t];
      assert consumer in mapConsumerProducer;
      mapConsumerProducer := mapConsumerProducer - {consumer};
      freedConsumers := freedConsumers + {consumer};
    }

    /** The loop over a closed producer's consumers, in any order; each is deleted once. */
    method CloseConsumersOf(consumers: set<Consumer>)
      requires ConsumersLinked(Value()) && SsrcsLinked(Value())
      requires consumers <= mapConsumerProducer.Keys && consumers !! freedConsumers
      modifies this`transports, this`mapConsumerProducer, this`freedConsumers
      ensures Value() == CloseWithProducer(old(Value()), consumers)
    {
      hide ConsumersLinked, SsrcsLinked, CloseWithProducer;
      NobodyClosed(Value());
      var todo := consumers;
      assert consumers - todo == {};
      while todo != {}
        invariant todo <= consumers
        invariant Value() == CloseWithProducer(old(Value()), consumers - todo)
        decreases |todo|
      {
        var consumer :| consumer in todo;
        ClosedConsumers(old(Value()), consumers - todo);
        CloseFacts(old(Value()), consumers - todo);
        CloseOneMore(old(Value()), consumers - todo, consumer);
        assert consumers - (todo - {consumer}) == (consumers - todo) + {consumer};
        ConsumerProducerClosed(consumer);
        todo := todo - {consumer};
      }
      assert consumers - todo == consumers;
    }

    /** OnTransportProducerClosed, and the deletion that follows it. The assertions of the source stand here. */
    method ProducerClosed(producer: Producer)
      requires Midway(Value()) && producer in mapProducerConsumers
      modifies this
      ensures Value() == CloseProducers(old(Value()), {producer})
    {
      NotFreed(Value(), producer);
      AreKnown(Value(), producer);
      hide Midway, Forget, ConsumersOf;
      assert producer in mapProducerConsumers;
      assert producer.id in mapProducers && mapProducers[producer.id] == producer;
      assert producer in mapProducerRtpObservers;
      ghost var s := Value();
      CloseConsumersOf(mapProducerConsumers[producer]);
      mapProducers := mapProducers - {producer.id};
      mapProducerConsumers := mapProducerConsumers - {producer};
      mapProducerRtpObservers := mapProducerRtpObservers - {producer};
      freedProducers := freedProducers + {producer};
      ErasedProducer(s, producer);
    }

    /** OnTransportConsumerClosed, and the deletion that follows it. */
    method ConsumerClosed(consumer: Consumer)
      requires Inverse(Value()) && consumer in mapConsumerProducer && consumer !in freedConsumers
      modifies this`mapProducerConsumers, this`mapConsumerProducer, this`freedConsumers
      ensures Value() == CloseConsumers(old(Value()), {consumer})
    {
      OnlyItsProducer(Value(), consumer);
      assert consumer in mapConsumerProducer;
      var producer := mapConsumerProducer[consumer];
      assert producer in mapProducerConsumers;
      mapProducerConsumers := mapProducerConsumers[producer := mapProducerConsumers[producer] - {consumer}];
      mapConsumerProducer := mapConsumerProducer - {consumer};
      freedConsumers := freedConsumers + {consumer};
    }

    /** PRODUCER_CLOSE. */
    method DoCloseProducer(a: Address, id: Id) returns (ok: bool)
      requires Valid(Value()) && a in transports
      modifies this
      ensures var r := CloseProducer(old(Value()), a, id); ok == r.Done? && Value() == Apply(old(Value()), r)
    {
      if id !in transports[a].producers {
        return false;
      }
      var producer := transports[a].producers[id];
      DropKeepsMidway(Value(), a, id);
      hide Valid, Midway, CloseProducers;
      transports := transports[a := transports[a].(producers := transports[a].producers - {id})];
      ProducerClosed(producer);
      return true;
    }

    /** CONSUMER_CLOSE. */
    method DoCloseConsumer(a: Address, id: Id) returns (ok: bool)
      requires Valid(Value()) && a in transports
      modifies this
      ensures var r := CloseConsumer(old(Value()), a, id); ok == r.Done? && Value() == Apply(old(Value()), r)
    {
      hide Valid, Inverse, CloseConsumers, Forget, SsrcSet;
      if id !in transports[a].consumers {
        return false;
      }
      var consumer := transports[a].consumers[id];
      ghost var s := Value();
      ConsumerFacts(s, a, id);
      var t := transports[a];
      t := t.(consumers := t.consumers - {id});
      t := EraseSsrcs(t, consumer.ssrcs);
      transports := transports[a := t];
      InverseStays(s, Value());
      ConsumerClosed(consumer);
      return true;
    }

    /** The first loop of CloseProducersAndConsumers. */
    method CloseAllProducers(producers: set<Producer>)
      requires Midway(Value()) && ObserversKnown(Value()) && producers <= mapProducerConsumers.Keys
      modifies this
      ensures Value() == CloseProducers(old(Value()), producers)
    {
      hide Midway, ObserversKnown, CloseProducers;
      NobodyClosed(Value());
      var todo := producers;
      assert producers - todo == {};
      while todo != {}
        invariant todo <= producers
        invariant Value() == CloseProducers(old(Value()), producers - todo)
        decreases |todo|
      {
        var producer :| producer in todo;
        ClosingKeepsMidway(old(Value()), producers - todo);
        ClosedProducers(old(Value()), producers - todo);
        CloseOneMoreProducer(old(Value()), producers - todo, producer);
        assert producers - (todo - {producer}) == (producers - todo) + {producer};
        ProducerClosed(producer);
        todo := todo - {producer};
      }
      assert producers - todo == producers;
    }

    /** The second loop of CloseProducersAndConsumers. */
    method CloseAllConsumers(consumers: set<Consumer>)
      requires Inverse(Value()) && consumers <= mapConsumerProducer.Keys && consumers !! freedConsumers
      modifies this`mapProducerConsumers, this`mapConsumerProducer, this`freedConsumers
      ensures Value() == CloseConsumers(old(Value()), consumers)
    {
      hide Inverse, CloseConsumers;
      NobodyClosed(Value());
      var todo := consumers;
      assert consumers - todo == {};
      while todo != {}
        invariant todo <= consumers
        invariant Value() == CloseConsumers(old(Value()), consumers - todo)
        decreases |todo|
      {
        var consumer :| consumer in todo;
        ConsumersInverse(old(Value()), consumers - todo);
        ClosedConsumersFacts(old(Value()), consumers - todo);
        CloseOneMoreConsumer(old(Value()), consumers - todo, consumer);
        assert consumers - (todo - {consumer}) == (consumers - todo) + {consumer};
        ConsumerClosed(consumer);
        todo := todo - {consumer};
      }
      assert consumers - todo == consumers;
    }

    /** TRANSPORT_CLOSE. */
    method DoCloseTransport(id: Id) returns (ok: bool)
      requires Valid(Value())
      modifies this
      ensures id in old(mapTransports) ==> old(mapTransports)[id] in old(transports)
      ensures var r := CloseTransport(old(Value()), id); ok == r.Done? && Value() == Apply(old(Value()), r)
    {
      ListedAll(Value());
      if id !in mapTransports {
        return false;
      }
      var a := mapTransports[id];
      BeforeClose(Value(), a);
      ghost var producers := transports[a].producers.Values;
      hide Valid, Midway, ObserversKnown, CloseProducers, CloseConsumers;
      ghost var s := Value();
      CloseAllProducers(transports[a].producers.Values);
      AfterClose(s, a);
      CloseAllConsumers(transports[a].consumers.Values);
      transports := transports - {a};
      mapTransports := mapTransports - {id};
      return true;
    }

    /** TRANSPORT_PRODUCE. */
    method DoProduce(a: Address, id: Id, accepted: bool) returns (ok: bool)
      requires Valid(Value()) && a in transports
      modifies this
      ensures var r := Produce(old(Value()), a, id, accepted); ok == r.Done? && Value() == Apply(old(Value()), r)
    {
      hide Valid;
      if id in transports[a].producers || !accepted {
        return false;
      }
      var producer := Producer(id, a, nextAddress);
      NewObjects(Value());
      assert producer !in mapProducerConsumers;
      if id in mapProducers {
        return false;
      }
      nextAddress := nextAddress + 1;
      mapProducers := mapProducers[id := producer];
      mapProducerConsumers := mapProducerConsumers[producer := {}];
      mapProducerRtpObservers := mapProducerRtpObservers[producer := {}];
      transports := transports[a := transports[a].(producers := transports[a].producers[id := producer])];
      return true;
    }

    /** TRANSPORT_CONSUME. */
    method DoConsume(a: Address, producerId: Id, id: Id, ssrcs: seq<u32>) returns (ok: bool)
      requires Valid(Value()) && a in transports
      modifies this
      ensures producerId in old(mapProducers) ==> old(mapProducers)[producerId] in old(mapProducerConsumers)
      ensures var r := Consume(old(Value()), a, producerId, id, ssrcs);
              ok == r.Done? && Value() == Apply(old(Value()), r)
    {
      hide Valid, Hold;
      ListedAll(Value());
      NewObjects(Value());
      if id in transports[a].consumers || producerId !in mapProducers {
        return false;
      }
      var consumer := Consumer(id, a, ssrcs, nextAddress);
      assert consumer !in mapConsumerProducer;
      var producer := mapProducers[producerId];
      assert producer in mapProducerConsumers;
      nextAddress := nextAddress + 1;
      mapProducerConsumers := mapProducerConsumers[producer := mapProducerConsumers[producer] + {consumer}];
      mapConsumerProducer := mapConsumerProducer[consumer := producer];
      var t := transports[a];
      HoldTwice(t, consumer);
      t := t.(consumers := t.consumers[id := consumer]);
      t := InsertSsrcs(t, consumer);
      transports := transports[a := t];
      return true;
    }

    static method InsertSsrcs(t: Transport, c: Consumer) returns (r: Transport)
      requires c.id in t.consumers && t.consumers[c.id] == c
      ensures r == Hold(t, c)
    {
      r := t;
      var i := 0;
      while i < |c.ssrcs|
        invariant i <= |c.ssrcs|
        invariant r == t.(ssrcConsumer := r.ssrcConsumer)
        invariant forall x :: x in r.ssrcConsumer <==> x in t.ssrcConsumer || x in c.ssrcs[..i]
        invariant forall x :: x in r.ssrcConsumer ==>
                    r.ssrcConsumer[x] == if x in c.ssrcs[..i] then c else t.ssrcConsumer[x]
      {
        r := r.(ssrcConsumer := r.ssrcConsumer[c.ssrcs[i] := c]);
        assert c.ssrcs[..i + 1] == c.ssrcs[..i] + [c.ssrcs[i]];
        i := i + 1;
      }
      assert c.ssrcs[..i] == c.ssrcs;
      assert r.ssrcConsumer == Hold(t, c).ssrcConsumer;
      assert t.consumers[c.id := c] == t.consumers;
    }
  }

  function Apply(s: State, r: Reply): State
  {
    if r.Done? then r.state else s
  }

  lemma CloseFacts(s: State, gone: set<Consumer>)
    ensures CloseWithProducer(s, gone).mapConsumerProducer == s.mapConsumerProducer - gone
    ensures CloseWithProducer(s, gone).freedConsumers == s.freedConsumers + gone
  {
  }

  lemma ClosedProducers(s: State, ps: set<Producer>)
    ensures CloseProducers(s, ps).mapProducerConsumers == s.mapProducerConsumers - ps
  {
    hide CloseWithProducer;
  }

  lemma ClosedConsumersFacts(s: State, cs: set<Consumer>)
    ensures CloseConsumers(s, cs).mapConsumerProducer == s.mapConsumerProducer - cs
    ensures CloseConsumers(s, cs).freedConsumers == s.freedConsumers + cs
  {
  }

  lemma BeforeClose(s: State, a: Address)
    requires Valid(s) && a in s.transports
    ensures Midway(s) && ObserversKnown(s)
    ensures s.transports[a].producers.Values <= s.mapProducerConsumers.Keys
  {
  }

  lemma AfterClose(s: State, a: Address)
    requires Midway(s) && ObserversKnown(s) && a in s.transports
    requires s.transports[a].producers.Values <= s.mapProducerConsumers.Keys
    ensures var c := CloseProducers(s, s.transports[a].producers.Values);
            && a in c.transports
            && Inverse(c)
            && c.transports[a].consumers.Values <= c.mapConsumerProducer.Keys
            && c.transports[a].consumers.Values !! c.freedConsumers
  {
    hide ConsumersOf, Inverse, SameDomain, ObserversKnown, SsrcsLinked, CloseWithProducer;
    var ps := s.transports[a].producers.Values;
    ClosingKeepsMidway(s, ps);
    ClosedConsumers(s, ConsumersOf(s, ps));
    ConsumersAfterClose(s, ps, a);
    var c := CloseProducers(s, ps);
    assert c.mapConsumerProducer.Keys !! c.freedConsumers;
  }

  /** The next address belongs to nobody. */
  lemma NewObjects(s: State)
    requires Valid(s)
    ensures forall p :: p in s.mapProducerConsumers ==> p.address != s.nextAddress
    ensures forall c :: c in s.mapConsumerProducer ==> c.address != s.nextAddress
  {
  }

  lemma HoldTwice(t: Transport, c: Consumer)
    ensures Hold(t.(consumers := t.consumers[c.id := c]), c) == Hold(t, c)
  {
    assert t.consumers[c.id := c][c.id := c] == t.consumers[c.id := c];
  }

  lemma AreKnown(s: State, p: Producer)
    requires Midway(s) && p in s.mapProducerConsumers
    ensures s.mapProducerConsumers[p] <= s.mapConsumerProducer.Keys
    ensures p.id in s.mapProducers && s.mapProducers[p.id] == p && p in s.mapProducerRtpObservers
    ensures ConsumersLinked(s) && SsrcsLinked(s)
  {
  }

  /** Erasing the producer's id erases the producer. */
  lemma ErasedProducer(s: State, p: Producer)
    requires Midway(s) && p in s.mapProducerConsumers
    ensures CloseProducers(s, {p}).mapProducers == s.mapProducers - {p.id}
  {
    hide CloseWithProducer, ConsumersOf;
    assert s.mapProducers[p.id] == p;
  }

  lemma DropKeepsMidway(s: State, a: Address, id: Id)
    requires Valid(s) && a in s.transports && id in s.transports[a].producers
    ensures Midway(DropProducer(s, a, id))
    ensures s.transports[a].producers[id] in s.mapProducerConsumers
  {
    hide Inverse, SameDomain, ObserversKnown, NothingDangles, TransportsKnown, ProducersLinked, ConsumersLinked,
      SsrcsLinked;
    HeldProducer(s, a, id);
    SameRelations(s, DropProducer(s, a, id));
    StillConsumersLinked(s, DropProducer(s, a, id));
  }
}
