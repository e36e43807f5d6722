/** When a transport finds every consumer by its SSRCs. */
module RouterSsrcs {
  import opened Bytes
  import opened Routers
  import opened RouterLemmas

  /** Every SSRC of every consumer leads back to it. */
  ghost predicate Complete(t: Transport)
  {
    forall id, x :: id in t.consumers && x in t.consumers[id].ssrcs ==>
      x in t.ssrcConsumer && t.ssrcConsumer[x] == t.consumers[id]
  }

  ghost predicate AllComplete(s: State)
  {
    forall a :: a in s.transports ==> Complete(s.transports[a])
  }

  /** No consumer of the transport has one of these SSRCs. */
  ghost predicate Unshared(t: Transport, ssrcs: seq<u32>)
  {
    forall id, x :: id in t.consumers && x in t.consumers[id].ssrcs ==> x !in ssrcs
  }

  lemma SameHolder(t: Transport, id: Id, other: Id, x: u32)
    requires Complete(t) && id in t.consumers && other in t.consumers
    ensures x in t.consumers[id].ssrcs && x in t.consumers[other].ssrcs ==> t.consumers[id] == t.consumers[other]
  {
    assert x in t.consumers[id].ssrcs ==> x in t.ssrcConsumer && t.ssrcConsumer[x] == t.consumers[id];
    assert x in t.consumers[other].ssrcs ==> x in t.ssrcConsumer && t.ssrcConsumer[x] == t.consumers[other];
  }

  /** Forgetting consumers of its own leaves a complete transport complete. */
  lemma ForgetKeepsComplete(t: Transport, gone: set<Consumer>)
    requires Complete(t) && forall c :: c in gone ==> c in t.consumers.Values
    ensures Complete(Forget(t, gone))
  {
    var d := Forget(t, gone);
    forall id, x | id in d.consumers && x in d.consumers[id].ssrcs
      ensures x in d.ssrcConsumer && d.ssrcConsumer[x] == d.consumers[id]
    {
      forall c | c in gone ensures x !in c.ssrcs {
        var other :| other in t.consumers && t.consumers[other] == c;
        SameHolder(t, id, other, x);
      }
    }
  }

  /** A new consumer keeps it complete exactly when it shares no SSRC; otherwise it takes one over. */
  lemma HoldIsCompleteIff(t: Transport, c: Consumer)
    requires Complete(t) && c.id !in t.consumers && forall id :: id in t.consumers ==> t.consumers[id] != c
    ensures Complete(Hold(t, c)) <==> Unshared(t, c.ssrcs)
  {
    var d := Hold(t, c);
    assert d.consumers[c.id] == c;
    if !Unshared(t, c.ssrcs) {
      var id, x :| id in t.consumers && x in t.consumers[id].ssrcs && x in c.ssrcs;
      assert d.consumers[id] == t.consumers[id] && d.ssrcConsumer[x] == c;
    } else {
      forall id, x | id in d.consumers && x in d.consumers[id].ssrcs
        ensures x in d.ssrcConsumer && d.ssrcConsumer[x] == d.consumers[id]
      {
        if id != c.id {
          assert x in t.consumers[id].ssrcs;
        }
      }
    }
  }

  lemma CloseKeepsComplete(s: State, gone: set<Consumer>)
    requires AllComplete(s) && ConsumersLinked(s) && gone <= s.mapConsumerProducer.Keys
    ensures AllComplete(CloseWithProducer(s, gone))
  {
    hide Complete, Forget;
    forall a | a in s.transports ensures Complete(CloseWithProducer(s, gone).transports[a]) {
      forall c | c in OfTransport(gone, a) ensures c in s.transports[a].consumers.Values {
        assert c in s.mapConsumerProducer;
        assert s.transports[a].consumers[c.id] == c;
      }
      ForgetKeepsComplete(s.transports[a], OfTransport(gone, a));
    }
  }

  lemma CloseProducerKeeps(s: State, a: Address, id: Id)
    requires Valid(s) && AllComplete(s) && a in s.transports && CloseProducer(s, a, id).Done?
    ensures AllComplete(CloseProducer(s, a, id).state)
  {
    hide Complete, Forget, ConsumersOf, SameDomain, ObserversKnown, NothingDangles, TransportsKnown, ProducersLinked,
      SsrcsLinked, ConsumersLinked, Inverse, CloseWithProducer;
    var p := s.transports[a].producers[id];
    var t := s.transports[a].(producers := s.transports[a].producers - {id});
    var d := s.(transports := s.transports[a := t]);
    SameConsumersLinked(s, d);
    SameMaps(s.transports[a], t);
    ConsumersAreKnown(d, {p});
    CloseKeepsComplete(d, ConsumersOf(d, {p}));
  }

  lemma SameMaps(t: Transport, u: Transport)
    requires u.consumers == t.consumers && u.ssrcConsumer == t.ssrcConsumer
    ensures Complete(t) <==> Complete(u)
  {
  }

  lemma SameConsumersLinked(s: State, d: State)
    requires ConsumersLinked(s) && Inverse(s)
    requires d.transports.Keys == s.transports.Keys && d == s.(transports := d.transports)
    requires forall a :: a in s.transports ==> d.transports[a].consumers == s.transports[a].consumers
    ensures ConsumersLinked(d) && Inverse(d)
  {
  }

  lemma CloseConsumerKeeps(s: State, a: Address, id: Id)
    requires AllComplete(s) && a in s.transports && CloseConsumer(s, a, id).Done?
    ensures AllComplete(CloseConsumer(s, a, id).state)
  {
    hide Complete, Forget;
    ForgetKeepsComplete(s.transports[a], {s.transports[a].consumers[id]});
  }

  lemma CloseTransportKeeps(s: State, id: Id)
    requires Valid(s) && AllComplete(s) && id in s.mapTransports && s.mapTransports[id] in s.transports
    ensures AllComplete(CloseTransport(s, id).state)
  {
    hide Complete, Forget, ConsumersOf;
    var a := s.mapTransports[id];
    var ps := s.transports[a].producers.Values;
    ConsumersAreKnown(s, ps);
    CloseKeepsComplete(s, ConsumersOf(s, ps));
  }

  lemma ConsumeKeepsIff(s: State, a: Address, producerId: Id, id: Id, ssrcs: seq<u32>)
    requires Valid(s) && AllComplete(s) && a in s.transports
    requires producerId in s.mapProducers ==> s.mapProducers[producerId] in s.mapProducerConsumers
    requires Consume(s, a, producerId, id, ssrcs).Done?
    ensures AllComplete(Consume(s, a, producerId, id, ssrcs).state) <==> Unshared(s.transports[a], ssrcs)
  {
    hide Complete, Unshared, Hold, Inverse, SameDomain, ObserversKnown, TransportsKnown, ProducersLinked, SsrcsLinked;
    var c := Consumer(id, a, ssrcs, s.nextAddress);
    forall other | other in s.transports[a].consumers ensures s.transports[a].consumers[other] != c {
      assert s.transports[a].consumers[other] in s.mapConsumerProducer;
    }
    HoldIsCompleteIff(s.transports[a], c);
    var d := Consume(s, a, producerId, id, ssrcs).state;
    assert d.transports[a] == Hold(s.transports[a], c);
    assert forall b :: b in s.transports && b != a ==> d.transports[b] == s.transports[b];
  }

  /** The requests by which a consumer takes over an SSRC of another one. */
  ghost predicate Shares(s: State, q: Request)
  {
    q.ConsumeRequest? && q.transportId in s.mapTransports && s.mapTransports[q.transportId] in s.transports &&
    !Unshared(s.transports[s.mapTransports[q.transportId]], q.ssrcs)
  }

  /** As long as every consumer is found by its SSRCs, a granted request leaves it so if and only if it does not take an
      SSRC over. */
  lemma AnswerIsCompleteIff(s: State, q: Request)
    requires Valid(s) && AllComplete(s) && Answer(s, q).Done?
    ensures AllComplete(Answer(s, q).state) <==> !Shares(s, q)
  {
    hide Valid, AllComplete, Unshared, Consume, Produce, CloseProducer, CloseConsumer, CloseTransport;
    ListedAll(s);
    if q.ConsumeRequest? {
      ConsumeKeepsIff(s, s.mapTransports[q.transportId], q.producerId, q.consumerId, q.ssrcs);
    } else {
      OthersKeep(s, q);
    }
  }

  lemma OthersKeep(s: State, q: Request)
    requires Valid(s) && AllComplete(s) && Answer(s, q).Done? && !q.ConsumeRequest?
    ensures AllComplete(Answer(s, q).state)
  {
    hide Valid, AllComplete, Answer;
    if q.CloseProducerRequest? || q.CloseConsumerRequest? || q.CloseTransportRequest? {
      ClosesKeep(s, q);
    } else {
      OpensKeep(s, q);
    }
  }

  lemma OpensKeep(s: State, q: Request)
    requires Valid(s) && AllComplete(s) && Answer(s, q).Done?
    requires q.CreateTransport? || q.ProduceRequest? || q.CreateObserver? || q.CloseObserverRequest? || q.ObserveRequest?
    ensures AllComplete(Answer(s, q).state)
  {
    hide Valid, AllComplete, Produce, AddTransport, AddObserver, CloseObserver, Observe;
    ListedAll(s);
    match q
    case CreateTransport(id) => OpenKeeps(s, id);
    case ProduceRequest(t, id, accepted) => ProduceKeeps(s, s.mapTransports[t], id, accepted);
    case CreateObserver(id) => OpenKeeps(s, id);
    case CloseObserverRequest(id) => OpenKeeps(s, id);
    case ObserveRequest(observerId, producerId, add) => ObserveKeeps(s, observerId, producerId, add);
  }

  lemma ClosesKeep(s: State, q: Request)
    requires Valid(s) && AllComplete(s) && Answer(s, q).Done?
    requires q.CloseProducerRequest? || q.CloseConsumerRequest? || q.CloseTransportRequest?
    ensures AllComplete(Answer(s, q).state)
  {
    hide Valid, AllComplete, CloseProducer, CloseConsumer, CloseTransport;
    ListedAll(s);
    match q
    case CloseProducerRequest(t, id) => CloseProducerKeeps(s, s.mapTransports[t], id);
    case CloseConsumerRequest(t, id) => CloseConsumerKeeps(s, s.mapTransports[t], id);
    case CloseTransportRequest(t) => TransportIsKnown(s, t); CloseTransportKeeps(s, t);
  }

  lemma TransportIsKnown(s: State, id: Id)
    requires Valid(s)
    ensures CloseTransport(s, id).Done? ==> id in s.mapTransports && s.mapTransports[id] in s.transports
  {
    ListedAll(s);
  }

  lemma OpenKeeps(s: State, id: Id)
    requires AllComplete(s)
    ensures AddTransport(s, id).Done? ==> AllComplete(AddTransport(s, id).state)
    ensures AddObserver(s, id).Done? ==> AllComplete(AddObserver(s, id).state)
    ensures CloseObserver(s, id).Done? ==> AllComplete(CloseObserver(s, id).state)
  {
  }

  lemma ObserveKeeps(s: State, observerId: Id, producerId: Id, add: bool)
    requires AllComplete(s)
    requires producerId in s.mapProducers ==> s.mapProducers[producerId] in s.mapProducerRtpObservers
    ensures Observe(s, observerId, producerId, add).Done? ==> AllComplete(Observe(s, observerId, producerId, add).state)
  {
  }

  lemma ProduceKeeps(s: State, a: Address, id: Id, accepted: bool)
    requires AllComplete(s) && a in s.transports && Produce(s, a, id, accepted).Done?
    ensures AllComplete(Produce(s, a, id, accepted).state)
  {
  }

  /** No request of the run takes an SSRC over. */
  ghost predicate NeverShares(s: State, qs: seq<Request>)
    requires Valid(s)
    decreases |qs|
  {
    qs == [] ||
    (var r := Answer(s, qs[0]);
     AnswerIsValid(s, qs[0]);
     (r.Done? ==> !Shares(s, qs[0])) && NeverShares(if r.Done? then r.state else s, qs[1..]))
  }

  /** So after a run without shared SSRCs every transport finds all its consumers. */
  lemma {:induction false} RunIsComplete(s: State, qs: seq<Request>)
    requires Valid(s) && AllComplete(s) && NeverShares(s, qs)
    ensures AllComplete(Run(s, qs))
    decreases |qs|
  {
    hide Valid, Answer, AllComplete, Shares;
    if qs != [] {
      var r := Answer(s, qs[0]);
      AnswerIsValid(s, qs[0]);
      if r.Done? {
        AnswerIsCompleteIff(s, qs[0]);
      }
      RunIsComplete(if r.Done? then r.state else s, qs[1..]);
    }
  }
}
