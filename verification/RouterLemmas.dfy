/** The relations of the router over all requests. */
module RouterLemmas {
  import opened Bytes
  import opened Routers

  // ----- Closing producers

  lemma ClosedInverse(s: State, ps: set<Producer>)
    requires Inverse(s)
    ensures Inverse(CloseProducers(s, ps))
  {
    var d := CloseProducers(s, ps);
    var gone := ConsumersOf(s, ps);
    forall c | c in s.mapConsumerProducer ensures c in gone <==> s.mapConsumerProducer[c] in ps {
    }
    forall p, c | p in d.mapProducerConsumers && c in d.mapProducerConsumers[p]
      ensures c in d.mapConsumerProducer && d.mapConsumerProducer[c] == p
    {
      assert c in s.mapProducerConsumers[p];
    }
    forall c | c in d.mapConsumerProducer
      ensures d.mapConsumerProducer[c] in d.mapProducerConsumers && c in d.mapProducerConsumers[d.mapConsumerProducer[c]]
    {
      assert c in s.mapProducerConsumers[s.mapConsumerProducer[c]];
    }
  }

  lemma ClosedDomain(s: State, ps: set<Producer>)
    requires SameDomain(s) && ObserversKnown(s)
    ensures SameDomain(CloseProducers(s, ps)) && ObserversKnown(CloseProducers(s, ps))
  {
    hide Forget, ConsumersOf;
  }

  lemma ConsumersAreKnown(s: State, ps: set<Producer>)
    requires Inverse(s)
    ensures ConsumersOf(s, ps) <= s.mapConsumerProducer.Keys
    ensures forall c :: c in s.mapConsumerProducer ==> (c in ConsumersOf(s, ps) <==> s.mapConsumerProducer[c] in ps)
  {
  }

  lemma ClosedDangles(s: State, ps: set<Producer>)
    requires Inverse(s) && NothingDangles(s) && ps <= s.mapProducerConsumers.Keys
    ensures NothingDangles(CloseProducers(s, ps))
  {
    ConsumersAreKnown(s, ps);
    hide ConsumersOf, Forget;
  }

  lemma ClosedConsumers(s: State, gone: set<Consumer>)
    requires ConsumersLinked(s) && SsrcsLinked(s)
    ensures ConsumersLinked(CloseWithProducer(s, gone)) && SsrcsLinked(CloseWithProducer(s, gone))
  {
    var d := CloseWithProducer(s, gone);
    forall c | c in d.mapConsumerProducer
      ensures c.transport in d.transports && c.id in d.transports[c.transport].consumers
      ensures d.transports[c.transport].consumers[c.id] == c
    {
      assert c in s.mapConsumerProducer;
    }
    forall a, x | a in d.transports && x in d.transports[a].ssrcConsumer
      ensures var c := d.transports[a].ssrcConsumer[x];
              x in c.ssrcs && c.transport == a && c in d.mapConsumerProducer
    {
      var c := s.transports[a].ssrcConsumer[x];
      assert c in gone ==> c in OfTransport(gone, a);
    }
  }

  lemma ClosedTransports(s: State, gone: set<Consumer>)
    requires TransportsKnown(s)
    ensures TransportsKnown(CloseWithProducer(s, gone))
  {
  }

  // ----- What the parts of the invariant look at

  /** The same maps of the router. */
  lemma SameRelations(s: State, d: State)
    requires Inverse(s) && SameDomain(s) && ObserversKnown(s) && NothingDangles(s)
    requires d == s.(transports := d.transports) && d.transports.Keys == s.transports.Keys
    ensures Inverse(d) && SameDomain(d) && ObserversKnown(d) && NothingDangles(d)
  {
  }

  /** The same consumers in the transports. */
  ghost predicate SameConsumers(s: State, d: State)
  {
    && d.mapConsumerProducer == s.mapConsumerProducer
    && d.transports.Keys == s.transports.Keys
    && forall a :: a in s.transports ==>
         && d.transports[a].consumers == s.transports[a].consumers
         && d.transports[a].ssrcConsumer == s.transports[a].ssrcConsumer
  }

  lemma StillConsumersLinked(s: State, d: State)
    requires ConsumersLinked(s) && SsrcsLinked(s) && SameConsumers(s, d)
    ensures ConsumersLinked(d) && SsrcsLinked(d)
  {
    ConsumersStill(s, d);
    SsrcsStill(s, d);
  }

  lemma ConsumersStill(s: State, d: State)
    requires ConsumersLinked(s) && SameConsumers(s, d)
    ensures ConsumersLinked(d)
  {
  }

  lemma SsrcsStill(s: State, d: State)
    requires SsrcsLinked(s) && SameConsumers(s, d)
    ensures SsrcsLinked(d)
  {
  }

  /** The same transports under the same ids. */
  lemma StillTransportsKnown(s: State, d: State)
    requires TransportsKnown(s) && d.mapTransports == s.mapTransports && d.transports.Keys == s.transports.Keys
    requires forall a :: a in s.transports ==> d.transports[a].id == s.transports[a].id
    ensures TransportsKnown(d)
  {
  }

  /** The same producers in the transports. */
  lemma StillProducersLinked(s: State, d: State)
    requires ProducersLinked(s) && d.mapProducerConsumers.Keys == s.mapProducerConsumers.Keys
    requires d.transports.Keys == s.transports.Keys
    requires forall a :: a in s.transports ==> d.transports[a].producers == s.transports[a].producers
    ensures ProducersLinked(d)
  {
  }

  // ----- Requests that close

  /** The transport drops the producer. */
  function DropProducer(s: State, a: Address, id: Id): State
    requires a in s.transports
  {
    s.(transports := s.transports[a := s.transports[a].(producers := s.transports[a].producers - {id})])
  }

  lemma ProducersStayLinked(s: State, a: Address, id: Id)
    requires ProducersLinked(s) && a in s.transports && id in s.transports[a].producers
    ensures var p := s.transports[a].producers[id];
            var d := DropProducer(s, a, id);
            ProducersLinked(d.(mapProducerConsumers := d.mapProducerConsumers - {p}))
  {
    var p := s.transports[a].producers[id];
    var n := DropProducer(s, a, id);
    var d := n.(mapProducerConsumers := n.mapProducerConsumers - {p});
    forall q | q in d.mapProducerConsumers
      ensures q.transport in d.transports && q.id in d.transports[q.transport].producers
      ensures d.transports[q.transport].producers[q.id] == q
    {
      assert q.transport == a ==> q.id != id;
    }
    forall b, x | b in d.transports && x in d.transports[b].producers
      ensures var q := d.transports[b].producers[x]; q.id == x && q.transport == b && q in d.mapProducerConsumers
    {
      assert s.transports[b].producers[x] == d.transports[b].producers[x];
      assert p.id == id && p.transport == a;
    }
  }

  lemma HeldProducer(s: State, a: Address, id: Id)
    requires ProducersLinked(s) && a in s.transports && id in s.transports[a].producers
    ensures var p := s.transports[a].producers[id]; p in s.mapProducerConsumers && p.id == id && p.transport == a
  {
  }

  lemma HeldConsumer(s: State, a: Address, id: Id)
    requires ConsumersLinked(s) && a in s.transports && id in s.transports[a].consumers
    ensures var c := s.transports[a].consumers[id]; c in s.mapConsumerProducer && c.id == id && c.transport == a
  {
  }

  lemma NotFreed(s: State, p: Producer)
    requires Inverse(s) && NothingDangles(s) && p in s.mapProducerConsumers
    ensures s.mapProducerConsumers[p] !! s.freedConsumers && p !in s.freedProducers
    ensures ConsumersOf(s, {p}) == s.mapProducerConsumers[p]
  {
  }

  lemma CloseProducerRelations(s: State, a: Address, id: Id)
    requires Inverse(s) && SameDomain(s) && ObserversKnown(s) && NothingDangles(s)
    requires a in s.transports && id in s.transports[a].producers
    requires s.transports[a].producers[id] in s.mapProducerConsumers
    ensures var d := CloseProducer(s, a, id).state;
            Inverse(d) && SameDomain(d) && ObserversKnown(d) && NothingDangles(d)
  {
    hide Inverse, SameDomain, ObserversKnown, NothingDangles, CloseProducers;
    var p := s.transports[a].producers[id];
    var s1 := DropProducer(s, a, id);
    SameRelations(s, s1);
    ClosedInverse(s1, {p});
    ClosedDomain(s1, {p});
    ClosedDangles(s1, {p});
  }

  lemma CloseProducerLinks(s: State, a: Address, id: Id)
    requires TransportsKnown(s) && ProducersLinked(s) && ConsumersLinked(s) && SsrcsLinked(s)
    requires a in s.transports && id in s.transports[a].producers
    ensures var d := CloseProducer(s, a, id).state;
            TransportsKnown(d) && ProducersLinked(d) && ConsumersLinked(d) && SsrcsLinked(d)
  {
    hide TransportsKnown, ProducersLinked, ConsumersLinked, SsrcsLinked, CloseWithProducer, ConsumersOf;
    var p := s.transports[a].producers[id];
    var s1 := DropProducer(s, a, id);
    StillConsumersLinked(s, s1);
    StillTransportsKnown(s, s1);
    var gone := ConsumersOf(s1, {p});
    ClosedConsumers(s1, gone);
    ClosedTransports(s1, gone);
    var c := CloseWithProducer(s1, gone);
    var d := CloseProducers(s1, {p});
    StillConsumersLinked(c, d);
    StillTransportsKnown(c, d);
    ProducersStayLinked(s, a, id);
    ProducersAfterClose(s1, gone);
    StillProducersLinked(s1.(mapProducerConsumers := s1.mapProducerConsumers - {p}), d);
  }

  /** A closed producer and its consumers leave every map, and each is deleted for the first time; all others stay. */
  lemma CloseProducerIsValid(s: State, a: Address, id: Id)
    requires Valid(s) && a in s.transports && id in s.transports[a].producers
    ensures var d := CloseProducer(s, a, id).state;
            var p := s.transports[a].producers[id];
            && Valid(d)
            && p in s.mapProducerConsumers
            && d.mapProducerConsumers == s.mapProducerConsumers - {p}
            && d.mapConsumerProducer == s.mapConsumerProducer - s.mapProducerConsumers[p]
            && p !in s.freedProducers && d.freedProducers == s.freedProducers + {p}
            && s.mapProducerConsumers[p] !! s.freedConsumers
            && d.freedConsumers == s.freedConsumers + s.mapProducerConsumers[p]
  {
    hide Inverse, SameDomain, ObserversKnown, NothingDangles, TransportsKnown, ProducersLinked, ConsumersLinked,
      SsrcsLinked, Forget, ConsumersOf;
    var p := s.transports[a].producers[id];
    HeldProducer(s, a, id);
    NotFreed(s, p);
    CloseProducerRelations(s, a, id);
    CloseProducerLinks(s, a, id);
    SameConsumersOf(s, DropProducer(s, a, id), {p});
  }

  lemma SameConsumersOf(s: State, d: State, ps: set<Producer>)
    requires s.mapProducerConsumers == d.mapProducerConsumers
    ensures ConsumersOf(s, ps) == ConsumersOf(d, ps)
  {
  }

  lemma ProducersAfterClose(s: State, gone: set<Consumer>)
    ensures var c := CloseWithProducer(s, gone);
            c.transports.Keys == s.transports.Keys &&
            forall a :: a in s.transports ==> c.transports[a].producers == s.transports[a].producers
  {
  }

  lemma ConsumersInverse(s: State, cs: set<Consumer>)
    requires Inverse(s)
    ensures Inverse(CloseConsumers(s, cs))
  {
    var d := CloseConsumers(s, cs);
    forall p, c | p in d.mapProducerConsumers && c in d.mapProducerConsumers[p]
      ensures c in d.mapConsumerProducer && d.mapConsumerProducer[c] == p
    {
      assert c in s.mapProducerConsumers[p];
    }
    forall c | c in d.mapConsumerProducer
      ensures d.mapConsumerProducer[c] in d.mapProducerConsumers && c in d.mapProducerConsumers[d.mapConsumerProducer[c]]
    {
      assert c in s.mapProducerConsumers[s.mapConsumerProducer[c]];
    }
  }

  lemma ConsumersDomain(s: State, cs: set<Consumer>)
    requires SameDomain(s) && ObserversKnown(s)
    ensures SameDomain(CloseConsumers(s, cs)) && ObserversKnown(CloseConsumers(s, cs))
    ensures CloseConsumers(s, cs).mapProducerConsumers.Keys == s.mapProducerConsumers.Keys
  {
    assert CloseConsumers(s, cs).mapProducerConsumers.Keys == s.mapProducerConsumers.Keys;
  }

  lemma ConsumersDangle(s: State, cs: set<Consumer>)
    requires NothingDangles(s) && cs <= s.mapConsumerProducer.Keys
    ensures NothingDangles(CloseConsumers(s, cs))
  {
    assert CloseConsumers(s, cs).mapProducerConsumers.Keys == s.mapProducerConsumers.Keys;
  }

  /** Closing one consumer only concerns its transport. */
  lemma OnlyItsTransport(s: State, c: Consumer)
    requires c.transport in s.transports
    ensures CloseWithProducer(s, {c}).transports ==
            s.transports[c.transport := Forget(s.transports[c.transport], {c})]
  {
    hide Forget, OfTransport;
    forall b | b in s.transports
      ensures Forget(s.transports[b], OfTransport({c}, b)) ==
              if b == c.transport then Forget(s.transports[b], {c}) else s.transports[b]
    {
      OfTransportPlus({}, c, b);
      ForgetNone(s.transports[b]);
    }
  }

  /** The transport drops a consumer. */
  lemma ConsumersStayLinked(s: State, a: Address, id: Id)
    requires ConsumersLinked(s) && SsrcsLinked(s) && a in s.transports && id in s.transports[a].consumers
    ensures var c := s.transports[a].consumers[id];
            var d := s.(transports := s.transports[a := Forget(s.transports[a], {c})],
                        mapConsumerProducer := s.mapConsumerProducer - {c});
            ConsumersLinked(d) && SsrcsLinked(d)
  {
    hide ConsumersLinked, SsrcsLinked, Forget;
    var c := s.transports[a].consumers[id];
    HeldConsumer(s, a, id);
    ClosedConsumers(s, {c});
    OnlyItsTransport(s, c);
    var d := s.(transports := s.transports[a := Forget(s.transports[a], {c})],
                mapConsumerProducer := s.mapConsumerProducer - {c});
    StillConsumersLinked(CloseWithProducer(s, {c}), d);
  }

  lemma NotFreedConsumer(s: State, c: Consumer)
    requires NothingDangles(s) && c in s.mapConsumerProducer
    ensures c !in s.freedConsumers
  {
  }

  lemma CloseConsumerRelations(s: State, a: Address, id: Id)
    requires Inverse(s) && SameDomain(s) && ObserversKnown(s) && NothingDangles(s)
    requires a in s.transports && id in s.transports[a].consumers
    requires s.transports[a].consumers[id] in s.mapConsumerProducer
    ensures var d := CloseConsumer(s, a, id).state;
            && Inverse(d) && SameDomain(d) && ObserversKnown(d) && NothingDangles(d)
            && d.mapProducerConsumers.Keys == s.mapProducerConsumers.Keys
  {
    hide Inverse, SameDomain, ObserversKnown, NothingDangles, Forget;
    var c := s.transports[a].consumers[id];
    var s1 := s.(transports := s.transports[a := Forget(s.transports[a], {c})]);
    SameRelations(s, s1);
    ConsumersInverse(s1, {c});
    ConsumersDomain(s1, {c});
    ConsumersDangle(s1, {c});
  }

  lemma ForgetKeeps(t: Transport, gone: set<Consumer>)
    ensures Forget(t, gone).id == t.id && Forget(t, gone).producers == t.producers
  {
  }

  lemma CloseConsumerLinks(s: State, a: Address, id: Id)
    requires TransportsKnown(s) && ProducersLinked(s) && ConsumersLinked(s) && SsrcsLinked(s)
    requires a in s.transports && id in s.transports[a].consumers
    requires CloseConsumer(s, a, id).state.mapProducerConsumers.Keys == s.mapProducerConsumers.Keys
    ensures var d := CloseConsumer(s, a, id).state;
            TransportsKnown(d) && ProducersLinked(d) && ConsumersLinked(d) && SsrcsLinked(d)
  {
    hide TransportsKnown, ProducersLinked, ConsumersLinked, SsrcsLinked, Forget;
    var c := s.transports[a].consumers[id];
    ConsumersStayLinked(s, a, id);
    ForgetKeeps(s.transports[a], {c});
    var d := CloseConsumer(s, a, id).state;
    StillTransportsKnown(s, d);
    StillProducersLinked(s, d);
    LinkedAlike(s.(transports := d.transports, mapConsumerProducer := s.mapConsumerProducer - {c}), d);
  }

  lemma LinkedAlike(s: State, d: State)
    requires ConsumersLinked(s) && SsrcsLinked(s)
    requires d.transports == s.transports && d.mapConsumerProducer == s.mapConsumerProducer
    ensures ConsumersLinked(d) && SsrcsLinked(d)
  {
    hide ConsumersLinked, SsrcsLinked;
    StillConsumersLinked(s, d);
  }

  /** A closed consumer leaves every map, and is deleted for the first time; all others stay. */
  lemma CloseConsumerIsValid(s: State, a: Address, id: Id)
    requires Valid(s) && a in s.transports && id in s.transports[a].consumers
    ensures var d := CloseConsumer(s, a, id).state;
            var c := s.transports[a].consumers[id];
            && Valid(d)
            && c in s.mapConsumerProducer
            && d.mapConsumerProducer == s.mapConsumerProducer - {c}
            && d.mapProducerConsumers.Keys == s.mapProducerConsumers.Keys
            && c !in s.freedConsumers && d.freedConsumers == s.freedConsumers + {c}
  {
    hide Inverse, SameDomain, ObserversKnown, NothingDangles, TransportsKnown, ProducersLinked, ConsumersLinked,
      SsrcsLinked, Forget;
    HeldConsumer(s, a, id);
    NotFreedConsumer(s, s.transports[a].consumers[id]);
    CloseConsumerRelations(s, a, id);
    CloseConsumerLinks(s, a, id);
  }

  // ----- Closing a transport

  lemma CloseTransportRelations(s: State, a: Address)
    requires Inverse(s) && SameDomain(s) && ObserversKnown(s) && NothingDangles(s)
    requires ProducersLinked(s) && ConsumersLinked(s) && SsrcsLinked(s) && a in s.transports
    ensures var d := CloseProducersAndConsumers(s, a);
            && Inverse(d) && SameDomain(d) && ObserversKnown(d) && NothingDangles(d)
            && d.transports.Keys == s.transports.Keys
  {
    var ps := s.transports[a].producers.Values;
    assert ps <= s.mapProducerConsumers.Keys;
    var closed := CloseProducers(s, ps);
    ClosedConsumers(s, ConsumersOf(s, ps));
    var left := closed.transports[a].consumers.Values;
    ConsumersAfterClose(s, ps, a);
    hide Inverse, SameDomain, ObserversKnown, NothingDangles, ProducersLinked, ConsumersLinked, SsrcsLinked, Forget,
      ConsumersOf;
    ClosedInverse(s, ps);
    ClosedDomain(s, ps);
    ClosedDangles(s, ps);
    ConsumersInverse(closed, left);
    ConsumersDomain(closed, left);
    ConsumersDangle(closed, left);
  }

  /** What is left to the transport is still known to the router. */
  lemma ConsumersAfterClose(s: State, ps: set<Producer>, a: Address)
    requires ConsumersLinked(CloseWithProducer(s, ConsumersOf(s, ps))) && a in s.transports
    ensures var closed := CloseProducers(s, ps);
            && a in closed.transports
            && closed.transports[a].consumers.Values <= closed.mapConsumerProducer.Keys
  {
    hide ConsumersOf, Forget;
  }

  /** Without the transport, the others and what they hold are as they were, up to the consumers closed with their
      producers. */
  lemma CloseTransportConsumers(s: State, a: Address)
    requires ConsumersLinked(s) && SsrcsLinked(s) && a in s.transports
    ensures var d := CloseProducersAndConsumers(s, a);
            var e := d.(transports := d.transports - {a});
            ConsumersLinked(e) && SsrcsLinked(e)
  {
    var ps := s.transports[a].producers.Values;
    var c := CloseWithProducer(s, ConsumersOf(s, ps));
    ClosedConsumers(s, ConsumersOf(s, ps));
    hide ConsumersOf, Forget;
    var d := CloseProducersAndConsumers(s, a);
    var e := d.(transports := d.transports - {a});
    WithoutTransport(c, a, e);
  }

  lemma WithoutTransport(c: State, a: Address, e: State)
    requires ConsumersLinked(c) && SsrcsLinked(c) && a in c.transports
    requires e.transports == c.transports - {a}
    requires e.mapConsumerProducer == c.mapConsumerProducer - c.transports[a].consumers.Values
    ensures ConsumersLinked(e) && SsrcsLinked(e)
  {
    var gone := c.transports[a].consumers.Values;
    forall x | x in e.mapConsumerProducer
      ensures x.transport in e.transports && x.id in e.transports[x.transport].consumers
      ensures e.transports[x.transport].consumers[x.id] == x
    {
      assert x in c.mapConsumerProducer && c.transports[x.transport].consumers[x.id] == x;
      assert x.transport == a ==> x in gone;
    }
    forall b | b in e.transports ensures b in c.transports && b != a && e.transports[b] == c.transports[b] {
    }
    forall x | x in c.mapConsumerProducer && x.transport != a ensures x in e.mapConsumerProducer {
    }
  }

  lemma CloseTransportProducers(s: State, a: Address)
    requires ProducersLinked(s) && TransportsKnown(s) && a in s.transports
    ensures var d := CloseProducersAndConsumers(s, a);
            && d.mapTransports == s.mapTransports
            && ProducersLinked(d.(transports := d.transports - {a}))
            && TransportsKnown(d.(transports := d.transports - {a}, mapTransports := d.mapTransports - {s.transports[a].id}))
  {
    var ps := s.transports[a].producers.Values;
    var c := CloseWithProducer(s, ConsumersOf(s, ps));
    ProducersAfterClose(s, ConsumersOf(s, ps));
    ClosedTransports(s, ConsumersOf(s, ps));
    hide ConsumersOf, Forget, CloseWithProducer;
    var d := CloseProducersAndConsumers(s, a);
    assert d.mapProducerConsumers.Keys == s.mapProducerConsumers.Keys - ps;
    assert d.transports == c.transports;
    OthersProducers(s, a, d.(transports := d.transports - {a}));
    OthersKnown(c, a, d.(transports := d.transports - {a}, mapTransports := d.mapTransports - {s.transports[a].id}));
  }

  lemma OthersProducers(s: State, a: Address, e: State)
    requires ProducersLinked(s) && a in s.transports
    requires e.mapProducerConsumers.Keys == s.mapProducerConsumers.Keys - s.transports[a].producers.Values
    requires e.transports.Keys == s.transports.Keys - {a}
    requires forall b :: b in e.transports ==> e.transports[b].producers == s.transports[b].producers
    ensures ProducersLinked(e)
  {
    var gone := s.transports[a].producers.Values;
    forall p | p in e.mapProducerConsumers
      ensures p.transport in e.transports && p.id in e.transports[p.transport].producers
      ensures e.transports[p.transport].producers[p.id] == p
    {
      assert p in s.mapProducerConsumers && s.transports[p.transport].producers[p.id] == p;
      assert p.transport == a ==> p in gone;
    }
    forall b, id | b in e.transports && id in e.transports[b].producers
      ensures var p := e.transports[b].producers[id]; p.id == id && p.transport == b && p in e.mapProducerConsumers
    {
      var p := s.transports[b].producers[id];
      assert p.transport == b && p in s.mapProducerConsumers;
    }
  }

  lemma OthersKnown(c: State, a: Address, e: State)
    requires TransportsKnown(c) && a in c.transports
    requires e.transports == c.transports - {a} && e.mapTransports == c.mapTransports - {c.transports[a].id}
    ensures TransportsKnown(e)
  {
  }

  /** A closed transport takes its producers with it, all their consumers, and its own consumers, and each is deleted for
      the first time; everything else stays. */
  lemma CloseTransportIsValid(s: State, id: Id)
    requires Valid(s) && id in s.mapTransports
    ensures s.mapTransports[id] in s.transports && Valid(CloseTransport(s, id).state)
    ensures var d := CloseTransport(s, id).state;
            var t := s.transports[s.mapTransports[id]];
            && d.mapProducerConsumers.Keys == s.mapProducerConsumers.Keys - t.producers.Values
            && d.mapConsumerProducer.Keys ==
               s.mapConsumerProducer.Keys - ConsumersOf(s, t.producers.Values) - t.consumers.Values
    ensures var d := CloseTransport(s, id).state;
            var t := s.transports[s.mapTransports[id]];
            var gone := ConsumersOf(s, t.producers.Values) + t.consumers.Values;
            && d.freedProducers == s.freedProducers + t.producers.Values && t.producers.Values !! s.freedProducers
            && d.freedConsumers == s.freedConsumers + gone && gone !! s.freedConsumers
  {
    assert s.mapTransports[id] in s.transports && s.transports[s.mapTransports[id]].id == id;
    var a := s.mapTransports[id];
    CloseTransportKeys(s, a);
    CloseTransportFrees(s, a);
    GoneWasKnown(s, a);
    hide Inverse, SameDomain, ObserversKnown, NothingDangles, TransportsKnown, ProducersLinked, ConsumersLinked,
      SsrcsLinked, CloseProducersAndConsumers, ConsumersOf;
    CloseTransportRelations(s, a);
    CloseTransportConsumers(s, a);
    CloseTransportProducers(s, a);
    var d := CloseProducersAndConsumers(s, a);
    var e := CloseTransport(s, id).state;
    RelationsStay(d, e);
    LinksStay(d.(transports := d.transports - {a}), e);
  }

  lemma RelationsStay(d: State, e: State)
    requires Inverse(d) && SameDomain(d) && ObserversKnown(d) && NothingDangles(d)
    requires e == d.(transports := e.transports, mapTransports := e.mapTransports)
    requires e.transports.Keys <= d.transports.Keys
    ensures Inverse(e) && SameDomain(e) && ObserversKnown(e) && NothingDangles(e)
  {
  }

  lemma LinksStay(d: State, e: State)
    requires ProducersLinked(d) && ConsumersLinked(d) && SsrcsLinked(d)
    requires e == d.(mapTransports := e.mapTransports)
    ensures ProducersLinked(e) && ConsumersLinked(e) && SsrcsLinked(e)
  {
  }

  /** Of the transport's consumers, those of its own producers are gone before the others are closed. */
  lemma LeftToTransport(s: State, a: Address, gone: set<Consumer>)
    requires a in s.transports && ConsumersLinked(s)
    ensures CloseWithProducer(s, gone).transports[a].consumers.Values == s.transports[a].consumers.Values - gone
  {
    var t := s.transports[a];
    var c := CloseWithProducer(s, gone);
    forall x | x in t.consumers.Values && x !in gone ensures x in c.transports[a].consumers.Values {
      assert t.consumers[x.id] == x && x !in OfTransport(gone, a);
      assert c.transports[a].consumers[x.id] == x;
    }
    forall x | x in c.transports[a].consumers.Values ensures x in t.consumers.Values && x !in gone {
      assert x in OfTransport(gone, a) <==> x in gone;
    }
  }

  lemma CloseTransportKeys(s: State, a: Address)
    requires a in s.transports && ConsumersLinked(s)
    ensures var d := CloseProducersAndConsumers(s, a);
            var t := s.transports[a];
            && d.mapProducerConsumers.Keys == s.mapProducerConsumers.Keys - t.producers.Values
            && d.mapConsumerProducer.Keys ==
               s.mapConsumerProducer.Keys - ConsumersOf(s, t.producers.Values) - t.consumers.Values
  {
    var t := s.transports[a];
    var gone := ConsumersOf(s, t.producers.Values);
    LeftToTransport(s, a, gone);
    var left := CloseWithProducer(s, gone).transports[a].consumers.Values;
    hide ConsumersOf, Forget, ConsumersLinked;
    var d := CloseProducersAndConsumers(s, a);
    assert d.mapProducerConsumers.Keys == s.mapProducerConsumers.Keys - t.producers.Values;
    assert d.mapConsumerProducer.Keys == s.mapConsumerProducer.Keys - gone - left;
  }

  lemma CloseTransportFrees(s: State, a: Address)
    requires a in s.transports && ConsumersLinked(s)
    ensures var d := CloseProducersAndConsumers(s, a);
            var t := s.transports[a];
            && d.freedProducers == s.freedProducers + t.producers.Values
            && d.freedConsumers == s.freedConsumers + (ConsumersOf(s, t.producers.Values) + t.consumers.Values)
  {
    hide ConsumersOf, Forget, ConsumersLinked;
    LeftToTransport(s, a, ConsumersOf(s, s.transports[a].producers.Values));
  }

  /** What is closed with a transport was known to the router, so it was not deleted before. */
  lemma GoneWasKnown(s: State, a: Address)
    requires Inverse(s) && NothingDangles(s) && ProducersLinked(s) && ConsumersLinked(s) && a in s.transports
    ensures var t := s.transports[a];
            && t.producers.Values !! s.freedProducers
            && ConsumersOf(s, t.producers.Values) + t.consumers.Values !! s.freedConsumers
  {
    hide ConsumersOf, Inverse;
    var t := s.transports[a];
    ConsumersAreKnown(s, t.producers.Values);
    assert t.producers.Values <= s.mapProducerConsumers.Keys;
    assert t.consumers.Values <= s.mapConsumerProducer.Keys;
  }

  // ----- Requests that open

  lemma InverseStays(s: State, d: State)
    requires Inverse(s)
    requires d.mapProducerConsumers == s.mapProducerConsumers && d.mapConsumerProducer == s.mapConsumerProducer
    ensures Inverse(d)
  {
  }

  lemma DomainStays(s: State, d: State)
    requires SameDomain(s) && d.mapProducers == s.mapProducers && d.mapProducerConsumers == s.mapProducerConsumers
    requires d.mapProducerRtpObservers.Keys == s.mapProducerRtpObservers.Keys
    ensures SameDomain(d)
  {
  }

  lemma ObserversStay(s: State, d: State)
    requires ObserversKnown(s)
    requires d.mapRtpObservers == s.mapRtpObservers && d.mapProducerRtpObservers == s.mapProducerRtpObservers
    ensures ObserversKnown(d)
  {
  }

  lemma NothingDanglesYet(s: State, d: State)
    requires NothingDangles(s) && d.nextAddress >= s.nextAddress && d.transports.Keys == s.transports.Keys
    requires d.mapProducerConsumers == s.mapProducerConsumers && d.mapConsumerProducer == s.mapConsumerProducer
    requires d.freedProducers == s.freedProducers && d.freedConsumers == s.freedConsumers
    ensures NothingDangles(d)
  {
  }

  lemma AddTransportIsValid(s: State, id: Id)
    requires Valid(s) && id !in s.mapTransports
    ensures Valid(AddTransport(s, id).state)
  {
    hide Inverse, SameDomain, ObserversKnown, NothingDangles, TransportsKnown, ProducersLinked, ConsumersLinked,
      SsrcsLinked;
    var d := AddTransport(s, id).state;
    InverseStays(s, d);
    DomainStays(s, d);
    ObserversStay(s, d);
    AddTransportKnown(s, id);
    AddTransportLinks(s, id);
  }

  lemma AddTransportKnown(s: State, id: Id)
    requires NothingDangles(s) && TransportsKnown(s) && id !in s.mapTransports
    ensures s.nextAddress !in s.transports
    ensures NothingDangles(AddTransport(s, id).state) && TransportsKnown(AddTransport(s, id).state)
  {
  }

  lemma AddTransportLinks(s: State, id: Id)
    requires ProducersLinked(s) && ConsumersLinked(s) && SsrcsLinked(s) && id !in s.mapTransports
    requires s.nextAddress !in s.transports
    ensures var d := AddTransport(s, id).state; ProducersLinked(d) && ConsumersLinked(d) && SsrcsLinked(d)
  {
    var d := AddTransport(s, id).state;
    forall a | a in s.transports ensures a in d.transports && d.transports[a] == s.transports[a] {
    }
    assert ProducersLinked(d);
    assert ConsumersLinked(d);
    assert SsrcsLinked(d);
  }

  /** The new producer starts without consumers and observers. */
  lemma ProduceIsValid(s: State, a: Address, id: Id, accepted: bool)
    requires Valid(s) && a in s.transports && Produce(s, a, id, accepted).Done?
    ensures Valid(Produce(s, a, id, accepted).state)
  {
    hide Inverse, SameDomain, ObserversKnown, NothingDangles, TransportsKnown, ProducersLinked, ConsumersLinked,
      SsrcsLinked;
    ProduceRelations(s, a, id);
    ProduceLinks(s, a, id);
    ProduceOthers(s, a, id);
  }

  lemma ProduceOthers(s: State, a: Address, id: Id)
    requires TransportsKnown(s) && ConsumersLinked(s) && SsrcsLinked(s)
    requires a in s.transports && Produce(s, a, id, true).Done?
    ensures var d := Produce(s, a, id, true).state; TransportsKnown(d) && ConsumersLinked(d) && SsrcsLinked(d)
  {
    hide TransportsKnown, ConsumersLinked, SsrcsLinked;
    var d := Produce(s, a, id, true).state;
    StillTransportsKnown(s, d);
    StillConsumersLinked(s, d);
  }

  lemma ProduceRelations(s: State, a: Address, id: Id)
    requires Inverse(s) && SameDomain(s) && ObserversKnown(s) && NothingDangles(s)
    requires a in s.transports && Produce(s, a, id, true).Done?
    ensures var d := Produce(s, a, id, true).state;
            Inverse(d) && SameDomain(d) && ObserversKnown(d) && NothingDangles(d)
  {
    var p := Producer(id, a, s.nextAddress);
    assert p !in s.mapProducerConsumers && p !in s.freedProducers;
    hide Inverse, SameDomain, ObserversKnown, NothingDangles;
    var d := Produce(s, a, id, true).state;
    ProduceInverse(s, p, d);
    ProduceDomain(s, p, d);
    ProduceDangles(s, p, d);
  }

  lemma ProduceInverse(s: State, p: Producer, d: State)
    requires Inverse(s) && p !in s.mapProducerConsumers
    requires d.mapProducerConsumers == s.mapProducerConsumers[p := {}] && d.mapConsumerProducer == s.mapConsumerProducer
    ensures Inverse(d)
  {
  }

  lemma ProduceDomain(s: State, p: Producer, d: State)
    requires SameDomain(s) && ObserversKnown(s) && p.id !in s.mapProducers && p !in s.mapProducerConsumers
    requires d.mapProducers == s.mapProducers[p.id := p]
    requires d.mapProducerConsumers == s.mapProducerConsumers[p := {}]
    requires d.mapProducerRtpObservers == s.mapProducerRtpObservers[p := {}] && d.mapRtpObservers == s.mapRtpObservers
    ensures SameDomain(d) && ObserversKnown(d)
  {
  }

  lemma ProduceDangles(s: State, p: Producer, d: State)
    requires NothingDangles(s) && p.address == s.nextAddress && d.nextAddress == s.nextAddress + 1
    requires d.mapProducerConsumers == s.mapProducerConsumers[p := {}] && p !in s.freedProducers
    requires d.mapConsumerProducer == s.mapConsumerProducer && d.transports.Keys == s.transports.Keys
    requires d.freedProducers == s.freedProducers && d.freedConsumers == s.freedConsumers
    ensures NothingDangles(d)
  {
  }

  lemma ProduceLinks(s: State, a: Address, id: Id)
    requires ProducersLinked(s) && a in s.transports && Produce(s, a, id, true).Done?
    ensures ProducersLinked(Produce(s, a, id, true).state)
  {
    var d := Produce(s, a, id, true).state;
    forall q | q in d.mapProducerConsumers
      ensures q.transport in d.transports && q.id in d.transports[q.transport].producers
      ensures d.transports[q.transport].producers[q.id] == q
    {
      assert q in s.mapProducerConsumers ==> s.transports[q.transport].producers[q.id] == q;
    }
  }

  /** The new consumer belongs to its producer and its transport. */
  lemma ConsumeIsValid(s: State, a: Address, producerId: Id, id: Id, ssrcs: seq<u32>)
    requires Valid(s) && a in s.transports
    requires producerId in s.mapProducers && id !in s.transports[a].consumers
    ensures s.mapProducers[producerId] in s.mapProducerConsumers
    ensures Valid(Consume(s, a, producerId, id, ssrcs).state)
  {
    ListedProducer(s, producerId);
    hide Inverse, SameDomain, ObserversKnown, NothingDangles, TransportsKnown, ProducersLinked, ConsumersLinked,
      SsrcsLinked;
    ConsumeRelations(s, a, producerId, id, ssrcs);
    ConsumeAllLinks(s, a, producerId, id, ssrcs);
  }

  lemma ConsumeAllLinks(s: State, a: Address, producerId: Id, id: Id, ssrcs: seq<u32>)
    requires TransportsKnown(s) && ProducersLinked(s) && ConsumersLinked(s) && SsrcsLinked(s) && a in s.transports
    requires producerId in s.mapProducers && s.mapProducers[producerId] in s.mapProducerConsumers
    requires id !in s.transports[a].consumers
    ensures var d := Consume(s, a, producerId, id, ssrcs).state;
            TransportsKnown(d) && ProducersLinked(d) && ConsumersLinked(d) && SsrcsLinked(d)
  {
    hide TransportsKnown, ProducersLinked, ConsumersLinked, SsrcsLinked, Hold;
    var c := Consumer(id, a, ssrcs, s.nextAddress);
    HoldKeeps(s.transports[a], c);
    var d := Consume(s, a, producerId, id, ssrcs).state;
    assert d.mapProducerConsumers.Keys == s.mapProducerConsumers.Keys;
    assert d.mapConsumerProducer.Keys == s.mapConsumerProducer.Keys + {c};
    ConsumeLinks(s, a, c, d);
    StillTransportsKnown(s, d);
    StillProducersLinked(s, d);
  }

  lemma ListedProducer(s: State, producerId: Id)
    requires SameDomain(s)
    ensures producerId in s.mapProducers ==> s.mapProducers[producerId] in s.mapProducerConsumers
  {
  }

  lemma HoldKeeps(t: Transport, c: Consumer)
    ensures Hold(t, c).id == t.id && Hold(t, c).producers == t.producers
  {
  }

  lemma ConsumeRelations(s: State, a: Address, producerId: Id, id: Id, ssrcs: seq<u32>)
    requires Inverse(s) && SameDomain(s) && ObserversKnown(s) && NothingDangles(s)
    requires a in s.transports && id !in s.transports[a].consumers
    requires producerId in s.mapProducers && s.mapProducers[producerId] in s.mapProducerConsumers
    ensures var d := Consume(s, a, producerId, id, ssrcs).state;
            && Inverse(d) && SameDomain(d) && ObserversKnown(d) && NothingDangles(d)
            && d.mapProducerConsumers.Keys == s.mapProducerConsumers.Keys
  {
    var c := Consumer(id, a, ssrcs, s.nextAddress);
    assert c !in s.mapConsumerProducer && c !in s.freedConsumers;
    hide Inverse, SameDomain, ObserversKnown, NothingDangles, Hold;
    var d := Consume(s, a, producerId, id, ssrcs).state;
    ConsumeInverse(s, s.mapProducers[producerId], c, d);
    ConsumeDomain(s, s.mapProducers[producerId], c, d);
    ObserversStay(s, d);
    ConsumeDangles(s, c, d);
  }

  lemma ConsumeDomain(s: State, p: Producer, c: Consumer, d: State)
    requires SameDomain(s) && p in s.mapProducerConsumers && d.mapProducers == s.mapProducers
    requires d.mapProducerConsumers == s.mapProducerConsumers[p := s.mapProducerConsumers[p] + {c}]
    requires d.mapProducerRtpObservers == s.mapProducerRtpObservers
    ensures SameDomain(d) && d.mapProducerConsumers.Keys == s.mapProducerConsumers.Keys
  {
    assert d.mapProducerConsumers.Keys == s.mapProducerConsumers.Keys;
  }

  lemma ConsumeDangles(s: State, c: Consumer, d: State)
    requires NothingDangles(s) && c.address == s.nextAddress && d.nextAddress == s.nextAddress + 1
    requires d.mapProducerConsumers.Keys == s.mapProducerConsumers.Keys && c !in s.freedConsumers
    requires d.mapConsumerProducer.Keys == s.mapConsumerProducer.Keys + {c} && d.transports.Keys == s.transports.Keys
    requires d.freedProducers == s.freedProducers && d.freedConsumers == s.freedConsumers
    ensures NothingDangles(d)
  {
  }

  lemma ConsumeInverse(s: State, p: Producer, c: Consumer, d: State)
    requires Inverse(s) && p in s.mapProducerConsumers && c !in s.mapConsumerProducer
    requires d.mapProducerConsumers == s.mapProducerConsumers[p := s.mapProducerConsumers[p] + {c}]
    requires d.mapConsumerProducer == s.mapConsumerProducer[c := p]
    ensures Inverse(d)
  {
    forall q, e | q in d.mapProducerConsumers && e in d.mapProducerConsumers[q]
      ensures e in d.mapConsumerProducer && d.mapConsumerProducer[e] == q
    {
      assert e != c ==> e in s.mapProducerConsumers[q];
    }
    forall e | e in d.mapConsumerProducer
      ensures d.mapConsumerProducer[e] in d.mapProducerConsumers && e in d.mapProducerConsumers[d.mapConsumerProducer[e]]
    {
      assert e != c ==> e in s.mapProducerConsumers[s.mapConsumerProducer[e]];
    }
  }

  lemma ConsumeLinks(s: State, a: Address, c: Consumer, d: State)
    requires ConsumersLinked(s) && SsrcsLinked(s) && a in s.transports && c.transport == a
    requires c.id !in s.transports[a].consumers
    requires d.transports == s.transports[a := Hold(s.transports[a], c)]
    requires d.mapConsumerProducer.Keys == s.mapConsumerProducer.Keys + {c}
    ensures ConsumersLinked(d) && SsrcsLinked(d)
  {
    HoldSsrcs(s, a, c, d);
    hide SsrcsLinked;
    forall e | e in d.mapConsumerProducer
      ensures e.transport in d.transports && e.id in d.transports[e.transport].consumers
      ensures d.transports[e.transport].consumers[e.id] == e
    {
      assert e != c ==> e in s.mapConsumerProducer && s.transports[e.transport].consumers[e.id] == e;
    }
  }

  lemma HoldSsrcs(s: State, a: Address, c: Consumer, d: State)
    requires SsrcsLinked(s) && a in s.transports && c.transport == a
    requires d.transports == s.transports[a := Hold(s.transports[a], c)]
    requires d.mapConsumerProducer.Keys == s.mapConsumerProducer.Keys + {c}
    ensures SsrcsLinked(d)
  {
    forall b, x | b in d.transports && x in d.transports[b].ssrcConsumer
      ensures var e := d.transports[b].ssrcConsumer[x];
              x in e.ssrcs && e.transport == b && e in d.mapConsumerProducer
    {
      assert x in s.transports[b].ssrcConsumer || (b == a && x in c.ssrcs);
    }
  }

  lemma ObserversAreValid(s: State, d: State)
    requires Valid(s)
    requires d == s.(mapRtpObservers := d.mapRtpObservers, mapProducerRtpObservers := d.mapProducerRtpObservers,
                     nextAddress := d.nextAddress)
    requires d.mapProducerRtpObservers.Keys == s.mapProducerRtpObservers.Keys && d.nextAddress >= s.nextAddress
    requires ObserversKnown(d)
    ensures Valid(d)
  {
    hide Inverse, SameDomain, ObserversKnown, NothingDangles, TransportsKnown, ProducersLinked, ConsumersLinked,
      SsrcsLinked;
    InverseStays(s, d);
    DomainStays(s, d);
    NothingDanglesYet(s, d);
    StillTransportsKnown(s, d);
    StillProducersLinked(s, d);
    StillConsumersLinked(s, d);
  }

  lemma AddObserverIsValid(s: State, id: Id)
    requires Valid(s) && id !in s.mapRtpObservers
    ensures Valid(AddObserver(s, id).state)
  {
    hide Inverse, SameDomain, ObserversKnown, NothingDangles, TransportsKnown, ProducersLinked, ConsumersLinked,
      SsrcsLinked;
    OneMoreObserver(s, id);
    ObserversAreValid(s, AddObserver(s, id).state);
  }

  lemma OneMoreObserver(s: State, id: Id)
    requires ObserversKnown(s) && id !in s.mapRtpObservers
    ensures ObserversKnown(AddObserver(s, id).state)
  {
    var d := AddObserver(s, id).state;
    forall o | o in s.mapRtpObservers.Values ensures o in d.mapRtpObservers.Values {
      var i :| i in s.mapRtpObservers && s.mapRtpObservers[i] == o;
      assert i in d.mapRtpObservers && d.mapRtpObservers[i] == o;
    }
  }

  /** A closed observer leaves every producer's set. */
  lemma CloseObserverIsValid(s: State, id: Id)
    requires Valid(s) && id in s.mapRtpObservers
    ensures var d := CloseObserver(s, id).state;
            && Valid(d)
            && forall p :: p in d.mapProducerRtpObservers ==>
                 d.mapProducerRtpObservers[p] == s.mapProducerRtpObservers[p] - {s.mapRtpObservers[id]}
  {
    hide Inverse, SameDomain, ObserversKnown, NothingDangles, TransportsKnown, ProducersLinked, ConsumersLinked,
      SsrcsLinked;
    OneObserverLess(s, id);
    ObserversAreValid(s, CloseObserver(s, id).state);
  }

  lemma OneObserverLess(s: State, id: Id)
    requires ObserversKnown(s) && id in s.mapRtpObservers
    ensures var d := CloseObserver(s, id).state;
            && ObserversKnown(d)
            && d.mapProducerRtpObservers.Keys == s.mapProducerRtpObservers.Keys
            && forall p :: p in d.mapProducerRtpObservers ==>
                 d.mapProducerRtpObservers[p] == s.mapProducerRtpObservers[p] - {s.mapRtpObservers[id]}
  {
    var d := CloseObserver(s, id).state;
    assert d.mapProducerRtpObservers.Keys == s.mapProducerRtpObservers.Keys;
    forall o | o in s.mapRtpObservers.Values && o != s.mapRtpObservers[id] ensures o in d.mapRtpObservers.Values {
      var i :| i in s.mapRtpObservers && s.mapRtpObservers[i] == o;
      assert i in d.mapRtpObservers && d.mapRtpObservers[i] == o;
    }
  }

  lemma ObserveIsValid(s: State, observerId: Id, producerId: Id, add: bool)
    requires Valid(s)
    ensures producerId in s.mapProducers ==> s.mapProducers[producerId] in s.mapProducerRtpObservers
    ensures Observe(s, observerId, producerId, add).Done? ==> Valid(Observe(s, observerId, producerId, add).state)
  {
    ObservedProducer(s, producerId);
    hide Inverse, SameDomain, ObserversKnown, NothingDangles, TransportsKnown, ProducersLinked, ConsumersLinked,
      SsrcsLinked;
    if Observe(s, observerId, producerId, add).Done? {
      ObserveKnown(s, observerId, producerId, add);
      ObserversAreValid(s, Observe(s, observerId, producerId, add).state);
    }
  }

  /** The observer sees the producer afterwards or does not, as asked, and nothing else changes. */
  lemma ObserveIs(s: State, observerId: Id, producerId: Id, add: bool, p: Producer, o: Address)
    requires Valid(s)
    ensures producerId in s.mapProducers ==> s.mapProducers[producerId] in s.mapProducerRtpObservers
    ensures var r := Observe(s, observerId, producerId, add);
            && (r.Done? <==> observerId in s.mapRtpObservers && producerId in s.mapProducers)
            && (r.Done? ==>
                  && r.state == s.(mapProducerRtpObservers := r.state.mapProducerRtpObservers)
                  && r.state.mapProducerRtpObservers.Keys == s.mapProducerRtpObservers.Keys
                  && (p in s.mapProducerRtpObservers ==>
                        (o in r.state.mapProducerRtpObservers[p] <==>
                           if p == s.mapProducers[producerId] && o == s.mapRtpObservers[observerId] then add
                           else o in s.mapProducerRtpObservers[p])))
  {
    hide Inverse, NothingDangles, TransportsKnown, ProducersLinked, ConsumersLinked, SsrcsLinked, ObserversKnown;
    ObservedProducer(s, producerId);
  }

  lemma ObservedProducer(s: State, producerId: Id)
    requires SameDomain(s)
    ensures producerId in s.mapProducers ==> s.mapProducers[producerId] in s.mapProducerRtpObservers
  {
    ListedProducer(s, producerId);
  }

  lemma ObserveKnown(s: State, observerId: Id, producerId: Id, add: bool)
    requires ObserversKnown(s)
    requires producerId in s.mapProducers ==> s.mapProducers[producerId] in s.mapProducerRtpObservers
    requires Observe(s, observerId, producerId, add).Done?
    ensures var d := Observe(s, observerId, producerId, add).state;
            ObserversKnown(d) && d.mapProducerRtpObservers.Keys == s.mapProducerRtpObservers.Keys
  {
    var d := Observe(s, observerId, producerId, add).state;
    assert d.mapProducerRtpObservers.Keys == s.mapProducerRtpObservers.Keys;
  }

  // ----- Runs

  datatype Request =
    | CreateTransport(transportId: Id)
    | ProduceRequest(transportId: Id, producerId: Id, accepted: bool)
    | ConsumeRequest(transportId: Id, producerId: Id, consumerId: Id, ssrcs: seq<u32>)
    | CloseProducerRequest(transportId: Id, producerId: Id)
    | CloseConsumerRequest(transportId: Id, consumerId: Id)
    | CloseTransportRequest(transportId: Id)
    | CreateObserver(observerId: Id)
    | CloseObserverRequest(observerId: Id)
    | ObserveRequest(observerId: Id, producerId: Id, add: bool)

  /** A request for an unknown transport is refused. */
  function Answer(s: State, q: Request): Reply
    requires Valid(s)
  {
    ListedAll(s);
    match q
    case CreateTransport(id) => AddTransport(s, id)
    case ProduceRequest(t, id, accepted) =>
      if t in s.mapTransports then Produce(s, s.mapTransports[t], id, accepted) else Refused
    case ConsumeRequest(t, producerId, id, ssrcs) =>
      if t in s.mapTransports then Consume(s, s.mapTransports[t], producerId, id, ssrcs) else Refused
    case CloseProducerRequest(t, id) =>
      if t in s.mapTransports then CloseProducer(s, s.mapTransports[t], id) else Refused
    case CloseConsumerRequest(t, id) =>
      if t in s.mapTransports then CloseConsumer(s, s.mapTransports[t], id) else Refused
    case CloseTransportRequest(t) => CloseTransport(s, t)
    case CreateObserver(id) => AddObserver(s, id)
    case CloseObserverRequest(id) => CloseObserver(s, id)
    case ObserveRequest(observerId, producerId, add) => Observe(s, observerId, producerId, add)
  }

  /** What the assertions of presence in the source ask for. */
  lemma ListedAll(s: State)
    requires Valid(s)
    ensures forall id :: id in s.mapTransports ==> s.mapTransports[id] in s.transports
    ensures forall id :: id in s.mapProducers ==>
              s.mapProducers[id] in s.mapProducerConsumers && s.mapProducers[id] in s.mapProducerRtpObservers
  {
  }

  lemma ProducerClosed(s: State, a: Address, id: Id)
    requires Valid(s) && a in s.transports
    ensures CloseProducer(s, a, id).Done? ==> Valid(CloseProducer(s, a, id).state)
  {
    hide Valid, CloseProducers;
    if id in s.transports[a].producers {
      CloseProducerIsValid(s, a, id);
    }
  }

  lemma ConsumerClosed(s: State, a: Address, id: Id)
    requires Valid(s) && a in s.transports
    ensures CloseConsumer(s, a, id).Done? ==> Valid(CloseConsumer(s, a, id).state)
  {
    hide Valid, CloseConsumers, Forget;
    if id in s.transports[a].consumers {
      CloseConsumerIsValid(s, a, id);
    }
  }

  lemma TransportClosed(s: State, id: Id)
    requires Valid(s) && (id in s.mapTransports ==> s.mapTransports[id] in s.transports)
    ensures CloseTransport(s, id).Done? ==> Valid(CloseTransport(s, id).state)
  {
    hide Valid, CloseProducersAndConsumers;
    if id in s.mapTransports {
      CloseTransportIsValid(s, id);
    }
  }

  lemma Consumed(s: State, a: Address, producerId: Id, id: Id, ssrcs: seq<u32>)
    requires Valid(s) && a in s.transports
    requires producerId in s.mapProducers ==> s.mapProducers[producerId] in s.mapProducerConsumers
    ensures var r := Consume(s, a, producerId, id, ssrcs); r.Done? ==> Valid(r.state)
  {
    hide Valid, Hold;
    if id !in s.transports[a].consumers && producerId in s.mapProducers {
      ConsumeIsValid(s, a, producerId, id, ssrcs);
    }
  }

  lemma Opened(s: State, id: Id)
    requires Valid(s)
    ensures AddTransport(s, id).Done? ==> Valid(AddTransport(s, id).state)
    ensures AddObserver(s, id).Done? ==> Valid(AddObserver(s, id).state)
    ensures CloseObserver(s, id).Done? ==> Valid(CloseObserver(s, id).state)
  {
    hide Valid;
    if id !in s.mapTransports {
      AddTransportIsValid(s, id);
    }
    if id !in s.mapRtpObservers {
      AddObserverIsValid(s, id);
    } else {
      CloseObserverIsValid(s, id);
    }
  }

  lemma OpenAnswerIsValid(s: State, q: Request)
    requires Valid(s) && (q.CreateTransport? || q.CreateObserver? || q.CloseObserverRequest? || q.ObserveRequest?)
    ensures Answer(s, q).Done? ==> Valid(Answer(s, q).state)
  {
    hide Valid, AddTransport, AddObserver, CloseObserver, Observe;
    ListedAll(s);
    match q
    case CreateTransport(id) => Opened(s, id);
    case CreateObserver(id) => Opened(s, id);
    case CloseObserverRequest(id) => Opened(s, id);
    case ObserveRequest(observerId, producerId, add) => ObserveIsValid(s, observerId, producerId, add);
  }

  lemma MediaAnswerIsValid(s: State, q: Request)
    requires Valid(s) && (q.ProduceRequest? || q.ConsumeRequest?)
    ensures Answer(s, q).Done? ==> Valid(Answer(s, q).state)
  {
    hide Valid, Produce, Consume;
    ListedAll(s);
    if q.transportId in s.mapTransports && Answer(s, q).Done? {
      var a := s.mapTransports[q.transportId];
      if q.ProduceRequest? {
        ProduceIsValid(s, a, q.producerId, q.accepted);
      } else {
        Consumed(s, a, q.producerId, q.consumerId, q.ssrcs);
      }
    }
  }

  lemma CloseAnswerIsValid(s: State, q: Request)
    requires Valid(s) && (q.CloseProducerRequest? || q.CloseConsumerRequest? || q.CloseTransportRequest?)
    ensures Answer(s, q).Done? ==> Valid(Answer(s, q).state)
  {
    hide Valid, CloseProducer, CloseConsumer, CloseTransport;
    ListedAll(s);
    if q.CloseTransportRequest? {
      TransportClosed(s, q.transportId);
    } else if q.transportId in s.mapTransports {
      var a := s.mapTransports[q.transportId];
      if q.CloseProducerRequest? {
        ProducerClosed(s, a, q.producerId);
      } else {
        ConsumerClosed(s, a, q.consumerId);
      }
    }
  }

  /** Every request keeps the invariant. */
  lemma AnswerIsValid(s: State, q: Request)
    requires Valid(s)
    ensures Answer(s, q).Done? ==> Valid(Answer(s, q).state)
  {
    hide Valid, Answer;
    if q.ProduceRequest? || q.ConsumeRequest? {
      MediaAnswerIsValid(s, q);
    } else if q.CloseProducerRequest? || q.CloseConsumerRequest? || q.CloseTransportRequest? {
      CloseAnswerIsValid(s, q);
    } else {
      OpenAnswerIsValid(s, q);
    }
  }

  function Run(s: State, qs: seq<Request>): State
    requires Valid(s)
    decreases |qs|
  {
    if qs == [] then s
    else
      var r := Answer(s, qs[0]);
      AnswerIsValid(s, qs[0]);
      Run(if r.Done? then r.state else s, qs[1..])
  }

  /** In every reachable state the maps are consistent, with each other and with those of the transports. */
  lemma {:induction false} RunIsValid(s: State, qs: seq<Request>)
    requires Valid(s)
    ensures Valid(Run(s, qs))
    decreases |qs|
  {
    hide Valid, Answer;
    if qs != [] {
      var r := Answer(s, qs[0]);
      AnswerIsValid(s, qs[0]);
      RunIsValid(if r.Done? then r.state else s, qs[1..]);
    }
  }

  lemma EmptyIsValid()
    ensures Valid(EMPTY)
  {
  }
}
