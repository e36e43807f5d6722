/** RTP packets as values (section 5.1 of RFC 3550), and the RTX payload format (section 4 of RFC 4588). */
module RtpPackets {
  import opened Seq16
  import opened Bytes

  const HEADER_SIZE := 12
  const MTU_SIZE := 1500

  /** The header extension: its 16-bit id, and a value whose length is a multiple of four. */
  datatype Extension = Extension(id: u16, value: seq<byte>)

  /** What a parsed packet says. The version is always 2, the padding and extension flags are
      `padding != 0` and `extension.Some?`; the content of the padding bytes is not part of the value. */
  datatype Packet = Packet(
    marker: bool,
    payloadType: u7,
    sequenceNumber: u16,
    timestamp: u32,
    ssrc: u32,
    csrcs: seq<byte>,
    extension: Option<Extension>,
    payload: seq<byte>,
    padding: byte)

  function Size(p: Packet): nat
  {
    HEADER_SIZE + |p.csrcs| + (if p.extension.Some? then 4 + |p.extension.value.value| else 0) + |p.payload| + p.padding
  }

  function WithoutPadding(p: Packet): Packet
  {
    p.(padding := 0)
  }

  /** RtpPacket::RtxEncode: the original sequence number goes in front of the payload. */
  function RtxEncode(p: Packet, payloadType: byte, ssrc: u32, seqNum: u16): (r: Packet)
    ensures Size(r) <= Size(p) + 2
  {
    p.(payloadType := payloadType % 128,
       ssrc := ssrc,
       payload := Put2(p.sequenceNumber) + p.payload,
       sequenceNumber := seqNum,
       padding := 0)
  }

  /** RtpPacket::RtxDecode; None when it refuses the packet. */
  function RtxDecode(p: Packet, payloadType: byte, ssrc: u32): Option<Packet>
  {
    if |p.payload| < 2 then None
    else
      Some(p.(payloadType := payloadType % 128,
              sequenceNumber := Get2(p.payload, 0),
              ssrc := ssrc,
              payload := p.payload[2..],
              padding := 0))
  }

  /** Decoding undoes encoding, however often the RTX sequence number was rewritten in between; only the
      padding is lost. */
  lemma RtxRoundTrip(p: Packet, rtxPayloadType: byte, rtxSsrc: u32, rtxSeq: u16, resentSeq: u16)
    ensures RtxDecode(RtxEncode(p, rtxPayloadType, rtxSsrc, rtxSeq).(sequenceNumber := resentSeq), p.payloadType, p.ssrc)
         == Some(WithoutPadding(p))
    ensures Size(RtxEncode(p, rtxPayloadType, rtxSsrc, rtxSeq)) == Size(WithoutPadding(p)) + 2
  {
    var encoded := RtxEncode(p, rtxPayloadType, rtxSsrc, rtxSeq);
    assert encoded.payload[2..] == p.payload;
    assert Get2(encoded.payload, 0) == Get2(Put2(p.sequenceNumber), 0);
  }
}
