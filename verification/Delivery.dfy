/** What the two stream framers have in common. */
module Deliveries {
  import opened Bytes

  /** What becomes of a stream: the messages handed to the listener, what is left of the stream, and whether the
      connection got closed. */
  datatype Delivery = Delivery(messages: seq<seq<byte>>, rest: seq<byte>, closed: bool)

  function Cons(message: seq<byte>, d: Delivery): Delivery
  {
    d.(messages := [message] + d.messages)
  }

  /** Two deliveries in a row. */
  function Then(d: Delivery, e: Delivery): Delivery
  {
    if d.closed then d else e.(messages := d.messages + e.messages)
  }

  /** The same delivery, up to what a closed connection leaves unread. */
  predicate Same(d: Delivery, e: Delivery)
  {
    d.messages == e.messages && d.closed == e.closed && (!e.closed ==> d.rest == e.rest)
  }

  lemma ThenIs(taken: seq<seq<byte>>, d: Delivery)
    ensures Then(Delivery(taken, [], false), d) == Delivery(taken + d.messages, d.rest, d.closed)
    ensures taken == [] ==> Then(Delivery(taken, [], false), d) == d
    ensures d.messages == [] ==> Then(Delivery(taken, [], false), d).messages == taken
  {
  }

  lemma ThenCons(taken: seq<seq<byte>>, message: seq<byte>, d: Delivery)
    ensures Then(Delivery(taken, [], false), Cons(message, d)) == Then(Delivery(taken + [message], [], false), d)
  {
    assert taken + ([message] + d.messages) == taken + [message] + d.messages;
  }

  lemma ConsThen(message: seq<byte>, d: Delivery, e: Delivery)
    ensures Then(Cons(message, d), e) == Cons(message, Then(d, e))
  {
    assert [message] + d.messages + e.messages == [message] + (d.messages + e.messages);
  }
}
