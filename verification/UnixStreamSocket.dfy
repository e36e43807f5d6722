/** Channel::UnixStreamSocket: messages framed as netstrings, taken out of a byte stream over a bounded buffer. */
module UnixStreamSockets {
  import opened Bytes
  import opened Deliveries
  import opened Netstrings

  const MESSAGE_MAX_LEN := 4194313
  const PAYLOAD_MAX_LEN := 4194304

  /** The payloads handed to the JSON parser. The listener may close the socket on one; `closes` says on which. A stream
      that is not made of netstrings is thrown away up to where it was read, and so is an unfinished netstring that
      fills the buffer. */
  function Consume(s: seq<byte>, closes: seq<byte> -> bool): Delivery
    decreases |s|
  {
    var r := Read(s);
    if r.Ok? then
      if closes(r.payload) then Delivery([r.payload], s[r.size..], true)
      else Cons(r.payload, Consume(s[r.size..], closes))
    else if r.TooShort? && |s| < MESSAGE_MAX_LEN then Delivery([], s, false)
    else Delivery([], [], false)
  }

  lemma ConsumeStep(s: seq<byte>, closes: seq<byte> -> bool)
    ensures var r := Read(s);
            Consume(s, closes) ==
            if r.Ok? then
              if closes(r.payload) then Delivery([r.payload], s[r.size..], true)
              else Cons(r.payload, Consume(s[r.size..], closes))
            else if r.TooShort? && |s| < MESSAGE_MAX_LEN then Delivery([], s, false)
            else Delivery([], [], false)
    ensures s == [] ==> Read(s) == TooShort
  {
  }

  function Encodes(payloads: seq<seq<byte>>): seq<byte>
  {
    if payloads == [] then [] else Encode(payloads[0]) + Encodes(payloads[1..])
  }

  /** The payloads that the writers accept, and on which the reader stays open. */
  predicate Sendable(payloads: seq<seq<byte>>, closes: seq<byte> -> bool)
  {
    forall i :: 0 <= i < |payloads| ==> |payloads[i]| <= PAYLOAD_MAX_LEN && !closes(payloads[i])
  }

  /** The write buffer and the read buffer are made for the longest message. */
  lemma MessageFits(payload: seq<byte>)
    requires |payload| <= PAYLOAD_MAX_LEN
    ensures |Encode(payload)| <= MESSAGE_MAX_LEN
  {
    var n := |payload|;
    DecimalRange(n);
    Pow10Seven();
    if |Decimal(n)| > 7 {
      Pow10Mono(7, |Decimal(n)| - 1);
    }
  }

  lemma Pow10Seven()
    ensures Pow10(7) == 10_000_000
  {
    assert Pow10(3) == 1000;
    assert Pow10(6) == 1_000_000;
  }

  /** Reading any first part of a stream of netstrings: the whole messages in it are delivered, and what is left belongs
      to the next message and fits into the buffer. */
  lemma {:induction false} ConsumePrefix(payloads: seq<seq<byte>>, s: seq<byte>, t: seq<byte>, closes: seq<byte> -> bool)
    requires Sendable(payloads, closes) && s + t == Encodes(payloads)
    ensures var d := Consume(s, closes);
            var k := |d.messages|;
            && !d.closed
            && k <= |payloads|
            && d.messages == payloads[..k]
            && d.rest + t == Encodes(payloads[k..])
            && |d.rest| < MESSAGE_MAX_LEN
    decreases |payloads|
  {
    hide Read, Encode, Consume;
    ConsumeStep(s, closes);
    if payloads != [] {
      var p, e := payloads[0], Encode(payloads[0]);
      MessageFits(p);
      var all := e + Encodes(payloads[1..]);
      if |s| < |e| {
        assert s == all[..|s|] == e[..|s|];
        StrictPrefixIsTooShort(p, |s|);
      } else {
        var s' := s[|e|..];
        assert s[..|e|] == all[..|e|] == e;
        assert s == e + s';
        ReadOfEncode(p, s');
        assert s' + t == all[|e|..] == Encodes(payloads[1..]);
        ConsumePrefix(payloads[1..], s', t, closes);
        ConsumeCons(payloads, Consume(s', closes));
      }
    }
  }

  /** A payload that is one byte too long, or longer, fills the buffer and is thrown away with what came of it. */
  lemma LongMessageIsDropped(payload: seq<byte>, closes: seq<byte> -> bool)
    requires PAYLOAD_MAX_LEN < |payload| < 1_000_000_000
    ensures |Encode(payload)| > MESSAGE_MAX_LEN
    ensures Consume(Encode(payload)[..MESSAGE_MAX_LEN], closes) == Delivery([], [], false)
  {
    hide Read, Consume;
    var n := |payload|;
    DecimalRange(n);
    Pow10Seven();
    if |Decimal(n)| < 7 {
      Pow10Mono(|Decimal(n)|, 6);
      Pow10Six();
    }
    StrictPrefixIsTooShort(payload, MESSAGE_MAX_LEN);
    ConsumeStep(Encode(payload)[..MESSAGE_MAX_LEN], closes);
  }

  lemma Pow10Six()
    ensures Pow10(6) == 1_000_000
  {
    assert Pow10(3) == 1000;
  }

  /** A payload on which the listener closes the socket is the last one. */
  lemma ClosingMessageIsLast(payload: seq<byte>, tail: seq<byte>, closes: seq<byte> -> bool)
    requires |payload| <= PAYLOAD_MAX_LEN && closes(payload)
    ensures Consume(Encode(payload) + tail, closes) == Delivery([payload], tail, true)
  {
    hide Read, Consume, Encode;
    ReadOfEncode(payload, tail);
    ConsumeStep(Encode(payload) + tail, closes);
    assert (Encode(payload) + tail)[|Encode(payload)|..] == tail;
  }

  lemma ConsumeCons(payloads: seq<seq<byte>>, d: Delivery)
    requires payloads != [] && |d.messages| < |payloads| && d.messages == payloads[1..][..|d.messages|]
    ensures var e := Cons(payloads[0], d);
            var k := |e.messages|;
            e.messages == payloads[..k] && payloads[k..] == payloads[1..][|d.messages|..]
  {
  }

  /** What the socket does with a series of reads; `pending` is what the buffer still holds. */
  function ConsumeAll(pending: seq<byte>, chunks: seq<seq<byte>>, closes: seq<byte> -> bool): Delivery
    decreases |chunks|
  {
    if chunks == [] then Delivery([], pending, false)
    else
      var d := Consume(pending + chunks[0], closes);
      Then(d, ConsumeAll(d.rest, chunks[1..], closes))
  }

  function Concat(chunks: seq<seq<byte>>): seq<byte>
  {
    if chunks == [] then [] else chunks[0] + Concat(chunks[1..])
  }

  /** Chunk independence: however a stream of netstrings is cut into reads, its payloads are delivered exactly once, in
      order and unaltered, and nothing is left behind. */
  lemma {:induction false} ChunksAreDelivered(payloads: seq<seq<byte>>, pending: seq<byte>, chunks: seq<seq<byte>>,
                                              closes: seq<byte> -> bool)
    requires Sendable(payloads, closes) && pending + Concat(chunks) == Encodes(payloads)
    requires chunks == [] ==> pending == []
    ensures ConsumeAll(pending, chunks, closes) == Delivery(payloads, [], false)
    decreases |chunks|
  {
    hide Consume, Encode;
    if chunks == [] {
      EmptyStream(payloads);
    } else {
      var s, t := pending + chunks[0], Concat(chunks[1..]);
      assert s + t == pending + Concat(chunks);
      ConsumePrefix(payloads, s, t, closes);
      var d := Consume(s, closes);
      var k := |d.messages|;
      if chunks[1..] == [] {
        assert d.rest + t == d.rest;
        LastChunk(payloads, s, closes);
      }
      ChunksAreDelivered(payloads[k..], d.rest, chunks[1..], closes);
      assert payloads[..k] + payloads[k..] == payloads;
    }
  }

  lemma EmptyStream(payloads: seq<seq<byte>>)
    requires Encodes(payloads) == []
    ensures payloads == []
  {
  }

  /** A whole stream leaves nothing behind. */
  lemma {:induction false} LastChunk(payloads: seq<seq<byte>>, s: seq<byte>, closes: seq<byte> -> bool)
    requires Sendable(payloads, closes) && s == Encodes(payloads)
    ensures Consume(s, closes) == Delivery(payloads, [], false)
    decreases |payloads|
  {
    hide Read, Encode, Consume;
    ConsumeStep(s, closes);
    if payloads != [] {
      var rest := Encodes(payloads[1..]);
      ReadOfEncode(payloads[0], rest);
      assert s[|Encode(payloads[0])|..] == rest;
      LastChunk(payloads[1..], rest, closes);
    }
  }

  // ----- The socket

  class UnixStreamSocket {
    const buffer: array<byte>
    var bufferDataLen: nat
    var msgStart: nat
    var closed: bool
    /** The listener: on which payloads it closes the socket, and what it was handed. */
    const closes: seq<byte> -> bool
    var delivered: seq<seq<byte>>

    ghost predicate WellFormed()
      reads this
    {
      buffer.Length == MESSAGE_MAX_LEN && msgStart <= bufferDataLen <= MESSAGE_MAX_LEN
    }

    /** An open socket has room to read more. */
    ghost predicate Valid()
      reads this
    {
      WellFormed() && (!closed ==> bufferDataLen < MESSAGE_MAX_LEN)
    }

    ghost function Pending(): seq<byte>
      requires WellFormed()
      reads this, buffer
    {
      buffer[msgStart..bufferDataLen]
    }

    constructor (closes: seq<byte> -> bool)
      ensures Valid() && !closed && Pending() == [] && delivered == [] && this.closes == closes && fresh(buffer)
    {
      buffer := new byte[MESSAGE_MAX_LEN];
      bufferDataLen, msgStart, closed, delivered := 0, 0, false, [];
      this.closes := closes;
    }

    /** OnUvReadAlloc and OnUvRead: libuv writes behind the data, at most as much as there is room for. */
    method OnRead(chunk: seq<byte>)
      requires Valid() && !closed && 0 < |chunk| <= MESSAGE_MAX_LEN - bufferDataLen
      modifies this, buffer
      ensures Valid()
      ensures var d := Consume(old(Pending()) + chunk, closes);
              && delivered == old(delivered) + d.messages
              && closed == d.closed
              && (!closed ==> Pending() == d.rest)
    {
      Append(chunk);
      ReadMessages();
    }

    method Append(chunk: seq<byte>)
      requires WellFormed() && |chunk| <= MESSAGE_MAX_LEN - bufferDataLen
      modifies this`bufferDataLen, buffer
      ensures WellFormed() && bufferDataLen == old(bufferDataLen) + |chunk|
      ensures Pending() == old(Pending()) + chunk
    {
      Copy(buffer, bufferDataLen, chunk);
      bufferDataLen := bufferDataLen + |chunk|;
    }

    /** UserOnUnixStreamRead. */
    method ReadMessages()
      requires WellFormed() && !closed && msgStart < bufferDataLen
      modifies this`bufferDataLen, this`msgStart, this`closed, this`delivered, buffer
      ensures Valid()
      ensures var d := Consume(old(Pending()), closes);
              && delivered == old(delivered) + d.messages
              && closed == d.closed
              && (!closed ==> Pending() == d.rest)
    {
      hide Consume, Read, Then, Cons;
      ghost var goal := Consume(Pending(), closes);
      ghost var taken: seq<seq<byte>> := [];
      ThenIs(taken, goal);
      while true
        invariant WellFormed() && (msgStart < bufferDataLen || closed)
        invariant delivered == old(delivered) + taken
        invariant if closed then goal.messages == taken && goal.closed
                  else Then(Delivery(taken, [], false), Consume(Pending(), closes)) == goal
        decreases bufferDataLen - msgStart, !closed
      {
        if closed {
          return;
        }
        ConsumeStep(Pending(), closes);
        var r := ReadBuffer(buffer, msgStart, bufferDataLen);
        if r.TooShort? {
          ThenIs(taken, Consume(Pending(), closes));
          if bufferDataLen == MESSAGE_MAX_LEN {
            if msgStart != 0 {
              Compact();
            } else {
              msgStart := 0;
              bufferDataLen := 0;
            }
          }
          return;
        }
        if !r.Ok? {
          ThenIs(taken, Consume(Pending(), closes));
          msgStart := 0;
          bufferDataLen := 0;
          return;
        }
        ghost var rest := Pending()[r.size..];
        TakeMessage(r.payload, r.size);
        ThenIs(taken, Delivery([r.payload], rest, true));
        ThenCons(taken, r.payload, Consume(rest, closes));
        taken := taken + [r.payload];
        assert delivered == old(delivered) + taken;
        if bufferDataLen > msgStart {
          continue;
        }
        ConsumeStep(rest, closes);
        ThenIs(taken, Consume(rest, closes));
        break;
      }
    }

    /** Hands a message to the listener and moves on behind it. */
    method TakeMessage(payload: seq<byte>, readLen: nat)
      requires WellFormed() && !closed && 0 < readLen <= |Pending()|
      modifies this`bufferDataLen, this`msgStart, this`closed, this`delivered
      ensures WellFormed() && Pending() == old(Pending())[readLen..] && |Pending()| < |old(Pending())|
      ensures msgStart < MESSAGE_MAX_LEN
      ensures delivered == old(delivered) + [payload] && closed == closes(payload)
    {
      var next := msgStart + readLen;
      ghost var pending := Pending();
      ghost var rest := buffer[next..bufferDataLen];
      assert rest == pending[readLen..];
      delivered := delivered + [payload];
      if closes(payload) {
        closed := true;
      }
      if next == MESSAGE_MAX_LEN {
        msgStart := 0;
        bufferDataLen := 0;
      } else {
        msgStart := next;
      }
    }

    /** memmove of the unfinished message to the beginning of the buffer. */
    method Compact()
      requires WellFormed() && bufferDataLen == MESSAGE_MAX_LEN && msgStart != 0
      modifies this`bufferDataLen, this`msgStart, buffer
      ensures WellFormed() && msgStart == 0 && bufferDataLen < MESSAGE_MAX_LEN
      ensures Pending() == old(Pending())
    {
      ghost var pending := Pending();
      assert pending == buffer[msgStart..];
      var n := MESSAGE_MAX_LEN - msgStart;
      var i := 0;
      while i < n
        invariant i <= n && msgStart == old(msgStart)
        invariant buffer[..i] == pending[..i]
        invariant buffer[msgStart + i..] == pending[i..]
      {
        buffer[i] := buffer[msgStart + i];
        i := i + 1;
      }
      assert buffer[..n] == pending;
      bufferDataLen := n;
      msgStart := 0;
    }
  }
}
