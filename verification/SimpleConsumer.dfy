/** SimpleConsumer: forwards one stream to one endpoint, renumbered so that pauses leave no hole. */
module SimpleConsumers {
  import opened Seq16
  import opened Bytes
  import SeqManagers
  import opened RtpStreams

  /** The fields that decide what is forwarded. hasStream says that producerRtpStream is set. */
  datatype Consumer = Consumer(
    transportConnected: bool,
    paused: bool,
    producerPaused: bool,
    hasStream: bool,
    keyFrameSupported: bool,
    syncRequired: bool,
    rtpSeqManager: SeqManagers.State,
    rtpStream: Stream)

  /** A packet of the producer; `position` is its unwrapped sequence number. */
  datatype Event =
    | Packet(position: int, timestamp: u32, isKeyFrame: bool, supported: bool, unset: u16)
    | TransportConnected
    | TransportDisconnected
    | Pause
    | Resume
    | ProducerPaused
    | ProducerResumed
    | ProducerRtpStream

  function Initial(keyFrameSupported: bool): Consumer
  {
    Consumer(false, false, false, false, keyFrameSupported, false, SeqManagers.INITIAL, IDLE)
  }

  predicate IsActive(c: Consumer)
  {
    c.transportConnected && !c.paused && !c.producerPaused && c.hasStream
  }

  /** UserOnResumed sets syncRequired; UserOnPaused only clears the retransmission buffer. */
  function OnResumed(c: Consumer): Consumer
  {
    if IsActive(c) then c.(syncRequired := true) else c
  }

  /** Whether a packet gets past the checks at the top of SendRtpPacket. */
  predicate Passes(c: Consumer, e: Event)
  {
    && e.Packet?
    && IsActive(c)
    && e.supported
    && (c.syncRequired && c.keyFrameSupported ==> e.isKeyFrame)
  }

  /** The number the packet leaves with, and whether the sending stream accepts it. The code does not look at the result
      of Input; after a refusal the number is what its uninitialized variable holds. */
  function SendRtpPacket(c: Consumer, seqNum: u16, timestamp: u32, unset: u16): (Consumer, u16, bool)
  {
    var m := if c.syncRequired then SeqManagers.Sync(c.rtpSeqManager, Ahead(seqNum, 1)) else c.rtpSeqManager;
    var (m', r) := SeqManagers.Input(m, seqNum);
    var output := if r.Some? then r.value else unset;
    var (s, accepted) := ReceivePacket(c.rtpStream, output, timestamp);
    (c.(syncRequired := false, rtpSeqManager := m', rtpStream := s), output, accepted)
  }

  function Step(c: Consumer, e: Event): Consumer
  {
    match e
    case Packet(position, timestamp, _, _, unset) =>
      if Passes(c, e) then SendRtpPacket(c, Wrap(position), timestamp, unset).0 else c
    case TransportConnected => c.(transportConnected := true, syncRequired := true)
    case TransportDisconnected => c.(transportConnected := false)
    case Pause => c.(paused := true)
    case Resume => if c.paused then OnResumed(c.(paused := false)) else c
    case ProducerPaused => c.(producerPaused := true)
    case ProducerResumed => if c.producerPaused then OnResumed(c.(producerPaused := false)) else c
    case ProducerRtpStream => c.(hasStream := true)
  }

  // ----- The consumer with its fields

  class SimpleConsumer {
    var transportConnected: bool
    var paused: bool
    var producerPaused: bool
    var hasStream: bool
    const keyFrameSupported: bool
    var syncRequired: bool
    const rtpSeqManager: SeqManagers.SeqManager
    const rtpStream: RtpStream

    ghost function Value(): Consumer
      reads this, rtpSeqManager, rtpStream
    {
      Consumer(transportConnected, paused, producerPaused, hasStream, keyFrameSupported, syncRequired,
               rtpSeqManager.Value(), rtpStream.Value())
    }

    constructor (keyFrameSupported: bool)
      ensures Value() == Initial(keyFrameSupported) && fresh(rtpSeqManager) && fresh(rtpStream)
    {
      transportConnected, paused, producerPaused, hasStream := false, false, false, false;
      this.keyFrameSupported, syncRequired := keyFrameSupported, false;
      rtpSeqManager := new SeqManagers.SeqManager();
      rtpStream := new RtpStream();
    }

    /** Returns whether the packet is forwarded, and its new sequence number. */
    method Send(seqNum: u16, timestamp: u32, isKeyFrame: bool, supported: bool, unset: u16)
      returns (sent: bool, output: u16)
      modifies this`syncRequired, rtpSeqManager, rtpStream
      ensures var e := Packet(seqNum, timestamp, isKeyFrame, supported, unset);
              if Passes(old(Value()), e) then
                (Value(), output, sent) == SendRtpPacket(old(Value()), seqNum, timestamp, unset)
              else Value() == old(Value()) && !sent
    {
      sent, output := false, 0;
      if !(transportConnected && !paused && !producerPaused && hasStream) || !supported {
        return;
      }
      if syncRequired && keyFrameSupported && !isKeyFrame {
        return;
      }
      if syncRequired {
        rtpSeqManager.DoSync(Ahead(seqNum, 1));
        syncRequired := false;
      }
      var ok;
      ok, output := rtpSeqManager.DoInput(seqNum, unset);
      sent := rtpStream.Receive(output, timestamp);
    }
  }
}
