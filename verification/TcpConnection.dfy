/** TcpConnection: packets framed as in section 2 of RFC 4571, taken out of a byte stream over a bounded buffer. */
module TcpConnections {
  import opened Seq16
  import opened Bytes
  import opened Deliveries

  const BUFFER_SIZE := 65536

  // ----- The framing

  /** TcpConnection::Send: the length, cut to 16 bits, and the data. */
  function Frame(packet: seq<byte>): seq<byte>
  {
    Put2(Wrap(|packet|)) + packet
  }

  function Frames(packets: seq<seq<byte>>): seq<byte>
  {
    if packets == [] then [] else Frame(packets[0]) + Frames(packets[1..])
  }

  /** The stream holds a whole frame, and the frame fits the buffer. */
  predicate HasFrame(s: seq<byte>)
  {
    |s| >= 2 && |s| >= 2 + Get2(s, 0) && 2 + Get2(s, 0) <= BUFFER_SIZE
  }

  /** All frames of the stream, without the empty ones. The listener may close the connection on a packet; `closes`
      says on which. A frame that does not fit the buffer ends it all once its bytes fill the buffer. */
  function Deliver(s: seq<byte>, closes: seq<byte> -> bool): (r: Delivery)
    decreases |s|
  {
    if !HasFrame(s) then Delivery([], s, |s| >= BUFFER_SIZE)
    else
      var packet, rest := s[2..2 + Get2(s, 0)], s[2 + Get2(s, 0)..];
      if packet == [] then Deliver(rest, closes)
      else if closes(packet) then Delivery([packet], rest, true)
      else Cons(packet, Deliver(rest, closes))
  }

  lemma HasFrameOfPrefix(a: seq<byte>, b: seq<byte>)
    requires |a| >= 2
    ensures Get2(a + b, 0) == Get2(a, 0)
    ensures HasFrame(a) ==> HasFrame(a + b)
    ensures |a| >= BUFFER_SIZE && !HasFrame(a) ==> !HasFrame(a + b)
  {
  }

  /** The stream after its first frame. */
  function AfterFrame(s: seq<byte>): seq<byte>
    requires HasFrame(s)
  {
    s[2 + Get2(s, 0)..]
  }

  function FirstPacket(s: seq<byte>): seq<byte>
    requires HasFrame(s)
  {
    s[2..2 + Get2(s, 0)]
  }

  lemma DeliverStep(s: seq<byte>, closes: seq<byte> -> bool)
    ensures Deliver(s, closes) ==
            if !HasFrame(s) then Delivery([], s, |s| >= BUFFER_SIZE)
            else if FirstPacket(s) == [] then Deliver(AfterFrame(s), closes)
            else if closes(FirstPacket(s)) then Delivery([FirstPacket(s)], AfterFrame(s), true)
            else Cons(FirstPacket(s), Deliver(AfterFrame(s), closes))
    ensures s == [] ==> !HasFrame(s)
  {
  }

  lemma FrameOfPrefix(a: seq<byte>, b: seq<byte>)
    requires HasFrame(a)
    ensures HasFrame(a + b) && FirstPacket(a + b) == FirstPacket(a) && AfterFrame(a + b) == AfterFrame(a) + b
    ensures |AfterFrame(a)| < |a|
  {
    HasFrameOfPrefix(a, b);
  }

  /** Chunk independence of the framing: delivering a stream in two parts is delivering it at once. */
  lemma {:induction false} DeliverInTwo(a: seq<byte>, b: seq<byte>, closes: seq<byte> -> bool)
    ensures var d := Deliver(a, closes);
            Same(Deliver(a + b, closes), Then(d, Deliver(d.rest + b, closes)))
    decreases |a|
  {
    hide Deliver, HasFrame, FirstPacket, AfterFrame;
    DeliverStep(a, closes);
    DeliverStep(a + b, closes);
    if HasFrame(a) {
      FrameOfPrefix(a, b);
      if FirstPacket(a) == [] || !closes(FirstPacket(a)) {
        DeliverInTwo(AfterFrame(a), b, closes);
        var d := Deliver(AfterFrame(a), closes);
        ConsThen(FirstPacket(a), d, Deliver(d.rest + b, closes));
      }
    } else if |a| >= BUFFER_SIZE {
      HasFrameOfPrefix(a, b);
    }
  }

  /** What is not closed and not delivered is shorter than the buffer. */
  lemma {:induction false} RestFits(s: seq<byte>, closes: seq<byte> -> bool)
    ensures var d := Deliver(s, closes); !d.closed ==> |d.rest| < BUFFER_SIZE && !HasFrame(d.rest)
    decreases |s|
  {
    if HasFrame(s) {
      RestFits(s[2 + Get2(s, 0)..], closes);
    }
  }

  function NonEmpty(packets: seq<seq<byte>>): seq<seq<byte>>
  {
    if packets == [] then []
    else (if packets[0] == [] then [] else [packets[0]]) + NonEmpty(packets[1..])
  }

  /** Round trip: the frames of packets of up to 65534 bytes deliver exactly these packets in order, except for the empty
      ones, and leave nothing behind. */
  lemma {:induction false} FramesAreDelivered(packets: seq<seq<byte>>, closes: seq<byte> -> bool)
    requires forall i :: 0 <= i < |packets| ==> |packets[i]| <= 65534 && !closes(packets[i])
    ensures Deliver(Frames(packets), closes) == Delivery(NonEmpty(packets), [], false)
    decreases |packets|
  {
    if packets != [] {
      var p, rest := packets[0], Frames(packets[1..]);
      FrameParts(p, rest);
      FramesAreDelivered(packets[1..], closes);
    }
  }

  lemma FrameParts(p: seq<byte>, rest: seq<byte>)
    requires |p| <= 65534
    ensures var s := Frame(p) + rest;
            HasFrame(s) && Get2(s, 0) == |p| && s[2..2 + |p|] == p && s[2 + |p|..] == rest
  {
    var s := Frame(p) + rest;
    assert s[0] == Put2(Wrap(|p|))[0] && s[1] == Put2(Wrap(|p|))[1];
  }

  /** A packet of 65535 bytes never arrives: its frame does not fit the buffer, and the connection is closed when the
      frame has filled it. */
  lemma BiggestPacketCloses(p: seq<byte>, closes: seq<byte> -> bool)
    requires |p| == 65535
    ensures Deliver(Frame(p), closes) == Delivery([], Frame(p), true)
    ensures Deliver(Frame(p)[..65535], closes) == Delivery([], Frame(p)[..65535], false)
  {
    assert Get2(Frame(p), 0) == 65535;
    assert Get2(Frame(p)[..65535], 0) == 65535;
  }

  // ----- The connection

  class TcpConnection {
    const buffer: array<byte>
    var bufferDataLen: nat
    var frameStart: nat
    var closed: bool
    /** The listener: on which packets it closes the connection, and what it was handed. */
    const closes: seq<byte> -> bool
    var delivered: seq<seq<byte>>
    /** All bytes read so far. */
    ghost var received: seq<byte>

    ghost predicate WellFormed()
      reads this
    {
      buffer.Length == BUFFER_SIZE && frameStart <= bufferDataLen <= BUFFER_SIZE
    }

    /** The bytes read and not delivered yet. */
    ghost function Pending(): seq<byte>
      requires WellFormed()
      reads this, buffer
    {
      buffer[frameStart..bufferDataLen]
    }

    /** However the bytes came in, the listener has got exactly the packets of the whole stream; an open connection has
        room to read more. */
    ghost predicate Valid()
      reads this, buffer
    {
      && WellFormed()
      && delivered == Deliver(received, closes).messages
      && closed == Deliver(received, closes).closed
      && (!closed ==> bufferDataLen < BUFFER_SIZE && Pending() == Deliver(received, closes).rest)
    }

    constructor (closes: seq<byte> -> bool)
      ensures Valid() && !closed && received == [] && delivered == [] && this.closes == closes && fresh(buffer)
    {
      buffer := new byte[BUFFER_SIZE];
      bufferDataLen, frameStart, closed, delivered, received := 0, 0, false, [], [];
      this.closes := closes;
    }

    /** OnUvReadAlloc and OnUvRead: libuv writes behind the data, at most as much as there is room for. */
    method OnRead(chunk: seq<byte>)
      requires Valid() && |chunk| <= BUFFER_SIZE - bufferDataLen
      modifies this, buffer
      ensures Valid()
      ensures received == if old(closed) then old(received) else old(received) + chunk
    {
      if closed || chunk == [] {
        assert received + chunk == received || closed;
        return;
      }
      ghost var pending := Pending();
      Append(chunk);
      received := received + chunk;
      DeliverInTwo(old(received), chunk, closes);
      RestFits(pending + chunk, closes);
      ReadFrames();
    }

    method Append(chunk: seq<byte>)
      requires WellFormed() && |chunk| <= BUFFER_SIZE - bufferDataLen
      modifies this`bufferDataLen, buffer
      ensures WellFormed() && bufferDataLen == old(bufferDataLen) + |chunk|
      ensures Pending() == old(Pending()) + chunk
    {
      ghost var base := buffer[..bufferDataLen];
      var i := 0;
      while i < |chunk|
        invariant i <= |chunk| && bufferDataLen == old(bufferDataLen)
        invariant buffer[..bufferDataLen + i] == base + chunk[..i]
      {
        buffer[bufferDataLen + i] := chunk[i];
        i := i + 1;
      }
      assert chunk[..i] == chunk;
      bufferDataLen := bufferDataLen + |chunk|;
      assert buffer[frameStart..bufferDataLen] == buffer[..bufferDataLen][frameStart..];
      assert old(buffer[frameStart..bufferDataLen]) == base[frameStart..];
    }

    /** UserOnTcpConnectionRead. */
    method ReadFrames()
      requires WellFormed() && !closed && frameStart < bufferDataLen
      modifies this`bufferDataLen, this`frameStart, this`closed, this`delivered, buffer
      ensures WellFormed()
      ensures var d := Deliver(old(Pending()), closes);
              && delivered == old(delivered) + d.messages
              && closed == d.closed
              && (!closed ==> bufferDataLen < BUFFER_SIZE && Pending() == d.rest)
    {
      hide Deliver, FirstPacket, AfterFrame, Get2, HasFrame, Then, Cons;
      ghost var goal := Deliver(Pending(), closes);
      ghost var taken: seq<seq<byte>> := [];
      ThenIs(taken, goal);
      while true
        invariant WellFormed() && (frameStart < bufferDataLen || closed)
        invariant delivered == old(delivered) + taken
        invariant if closed then goal.messages == taken && goal.closed
                  else Then(Delivery(taken, [], false), Deliver(Pending(), closes)) == goal
        decreases bufferDataLen - frameStart, !closed
      {
        if closed {
          return;
        }
        DeliverStep(Pending(), closes);
        var whole, packetLen := FindFrame();
        if !whole {
          ThenIs(taken, Deliver(Pending(), closes));
          if bufferDataLen == BUFFER_SIZE {
            if frameStart != 0 {
              Compact();
            } else {
              closed := true;
            }
          }
          break;
        }
        ghost var packet, rest := FirstPacket(Pending()), AfterFrame(Pending());
        TakeFrame(packetLen);
        if packet == [] {
          assert delivered == old(delivered) + taken;
        } else {
          ThenIs(taken, Delivery([packet], rest, true));
          ThenCons(taken, packet, Deliver(rest, closes));
          taken := taken + [packet];
          assert delivered == old(delivered) + taken;
        }
        if bufferDataLen > frameStart {
          continue;
        }
        DeliverStep(rest, closes);
        ThenIs(taken, Deliver(rest, closes));
        break;
      }
    }

    /** Whether the buffer holds a whole frame, and the length of its packet. */
    method FindFrame() returns (whole: bool, packetLen: nat)
      requires WellFormed()
      ensures whole == HasFrame(Pending())
      ensures whole ==> packetLen == Get2(Pending(), 0)
    {
      var dataLen := bufferDataLen - frameStart;
      packetLen := 0;
      if dataLen >= 2 {
        packetLen := Get2(buffer[frameStart..bufferDataLen], 0);
      }
      whole := dataLen >= 2 && dataLen >= 2 + packetLen;
    }

    /** Hands the first frame's packet to the listener and moves on behind it. */
    method TakeFrame(packetLen: nat)
      requires WellFormed() && !closed && HasFrame(Pending()) && packetLen == Get2(Pending(), 0)
      modifies this`bufferDataLen, this`frameStart, this`closed, this`delivered
      ensures WellFormed() && Pending() == old(AfterFrame(Pending())) && |Pending()| < |old(Pending())|
      ensures frameStart < BUFFER_SIZE
      ensures var packet := old(FirstPacket(Pending()));
              && delivered == old(delivered) + (if packet == [] then [] else [packet])
              && closed == (packet != [] && closes(packet))
    {
      hide Get2;
      var next := frameStart + 2 + packetLen;
      ghost var pending := Pending();
      ghost var rest := buffer[next..bufferDataLen];
      assert rest == pending[2 + packetLen..];
      if packetLen != 0 {
        var packet := buffer[frameStart + 2..next];
        SliceOfSlice(buffer[..], frameStart, bufferDataLen, 2, 2 + packetLen);
        assert packet == FirstPacket(pending);
        delivered := delivered + [packet];
        if closes(packet) {
          closed := true;
        }
      }
      if next == BUFFER_SIZE {
        frameStart := 0;
        bufferDataLen := 0;
      } else {
        frameStart := next;
      }
    }

    /** memmove of the unfinished frame to the beginning of the buffer. */
    method Compact()
      requires WellFormed() && bufferDataLen == BUFFER_SIZE && frameStart != 0
      modifies this`bufferDataLen, this`frameStart, buffer
      ensures WellFormed() && frameStart == 0 && bufferDataLen < BUFFER_SIZE
      ensures Pending() == old(Pending())
    {
      ghost var pending := Pending();
      assert pending == buffer[frameStart..];
      var n := BUFFER_SIZE - frameStart;
      var i := 0;
      while i < n
        invariant i <= n && frameStart == old(frameStart)
        invariant buffer[..i] == pending[..i]
        invariant buffer[frameStart + i..] == pending[i..]
      {
        buffer[i] := buffer[frameStart + i];
        i := i + 1;
      }
      assert buffer[..n] == pending;
      bufferDataLen := n;
      frameStart := 0;
    }
  }
}
