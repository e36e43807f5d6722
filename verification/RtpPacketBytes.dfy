/** RTP packets on the wire (sections 5.1 and 5.3.1 of RFC 3550). */
module RtpPacketBytes {
  import opened Seq16
  import opened Bytes
  import opened Arithmetic
  import opened RtpPackets

  /** What a packet can carry: at most 15 CSRCs, and an extension whose length fits its field. */
  predicate WellFormed(p: Packet)
  {
    && |p.csrcs| % 4 == 0 && |p.csrcs| / 4 < 16
    && (p.extension.Some? ==>
          |p.extension.value.value| % 4 == 0 && |p.extension.value.value| / 4 < 0x1_0000)
  }

  // ----- Writing

  function FirstByte(padding: bool, extension: bool, csrcCount: nat): (r: byte)
    requires csrcCount < 16
  {
    128 + (if padding then 32 else 0) + (if extension then 16 else 0) + csrcCount
  }

  function SecondByte(marker: bool, payloadType: u7): byte
  {
    (if marker then 128 else 0) + payloadType
  }

  function Header(p: Packet): (r: seq<byte>)
    requires WellFormed(p)
    ensures |r| == HEADER_SIZE
  {
    [FirstByte(p.padding != 0, p.extension.Some?, |p.csrcs| / 4), SecondByte(p.marker, p.payloadType)]
    + Put2(p.sequenceNumber) + Put4(p.timestamp) + Put4(p.ssrc)
  }

  function ExtensionBytes(e: Option<Extension>): (r: seq<byte>)
    requires e.Some? ==> |e.value.value| / 4 < 0x1_0000
    ensures |r| == if e.Some? then 4 + |e.value.value| else 0
  {
    if e.None? then [] else Put2(e.value.id) + Put2(|e.value.value| / 4) + e.value.value
  }

  /** The padding; all that matters of it is its last byte, its own length. */
  predicate IsPadding(bytes: seq<byte>, padding: byte)
  {
    |bytes| == padding && (padding != 0 ==> bytes[padding - 1] == padding)
  }

  function Encode(p: Packet, padding: seq<byte>): (r: seq<byte>)
    requires WellFormed(p) && IsPadding(padding, p.padding)
    ensures |r| == Size(p)
  {
    Header(p) + p.csrcs + ExtensionBytes(p.extension) + p.payload + padding
  }

  // ----- Reading

  predicate IsRtp(data: seq<byte>)
  {
    |data| >= HEADER_SIZE && 127 < data[0] < 192
  }

  /** RtpPacket::Parse after the header: the CSRC list, the header extension and the padding. */
  function Parse(data: seq<byte>): Option<Packet>
  {
    if !IsRtp(data) then None
    else
      var csrcEnd := HEADER_SIZE + data[0] % 16 * 4;
      if |data| < csrcEnd then None
      else if data[0] / 16 % 2 == 0 then ParsePayload(data, csrcEnd, csrcEnd, None)
      else if |data| < csrcEnd + 4 then None
      else
        var valueEnd := csrcEnd + 4 + Get2(data, csrcEnd + 2) * 4;
        if |data| < valueEnd then None
        else ParsePayload(data, csrcEnd, valueEnd, Some(Extension(Get2(data, csrcEnd), data[csrcEnd + 4..valueEnd])))
  }

  function ParsePayload(data: seq<byte>, csrcEnd: nat, payload: nat, extension: Option<Extension>): Option<Packet>
    requires HEADER_SIZE <= csrcEnd <= payload <= |data|
  {
    var padded := data[0] / 32 % 2 == 1;
    if padded && |data| == payload then None
    else
      var padding := if padded then data[|data| - 1] else 0;
      if (padded && padding == 0) || |data| - payload < padding then None
      else
        Some(Packet(data[1] / 128 == 1, data[1] % 128, Get2(data, 2), Get4(data, 4), Get4(data, 8),
                    data[HEADER_SIZE..csrcEnd], extension, data[payload..|data| - padding], padding))
  }

  // ----- Round trips

  lemma FirstByteParts(padding: bool, extension: bool, csrcCount: nat)
    requires csrcCount < 16
    ensures var b := FirstByte(padding, extension, csrcCount);
            && 127 < b < 192
            && b % 16 == csrcCount
            && (b / 16 % 2 == 1 <==> extension)
            && (b / 32 % 2 == 1 <==> padding)
  {
    var b, x, y := FirstByte(padding, extension, csrcCount), if padding then 1 else 0, if extension then 1 else 0;
    QuotientIs(b, 16, 8 + 2 * x + y, csrcCount);
    QuotientIs(8 + 2 * x + y, 2, 4 + x, y);
    QuotientIs(b, 32, 4 + x, 16 * y + csrcCount);
    QuotientIs(4 + x, 2, 2, x);
  }

  lemma SecondByteParts(marker: bool, payloadType: u7)
    ensures var b := SecondByte(marker, payloadType); (b / 128 == 1 <==> marker) && b % 128 == payloadType
  {
    QuotientIs(SecondByte(marker, payloadType), 128, if marker then 1 else 0, payloadType);
  }

  /** The fields of the fixed header. */
  predicate HasHeader(data: seq<byte>, p: Packet)
    requires WellFormed(p)
  {
    && |data| >= HEADER_SIZE
    && data[0] == FirstByte(p.padding != 0, p.extension.Some?, |p.csrcs| / 4)
    && data[1] == SecondByte(p.marker, p.payloadType)
    && Get2(data, 2) == p.sequenceNumber
    && Get4(data, 4) == p.timestamp
    && Get4(data, 8) == p.ssrc
  }

  lemma HeaderFields(p: Packet, rest: seq<byte>)
    requires WellFormed(p)
    ensures HasHeader(Header(p) + rest, p)
  {
    hide Put2, Put4, FirstByte, SecondByte;
    var s, t, u := Put2(p.sequenceNumber), Put4(p.timestamp), Put4(p.ssrc);
    var data := Header(p) + rest;
    assert Header(p) == [FirstByte(p.padding != 0, p.extension.Some?, |p.csrcs| / 4), SecondByte(p.marker, p.payloadType)]
                        + s + t + u;
    assert forall i :: 0 <= i < 2 ==> data[2 + i] == s[i];
    assert forall i :: 0 <= i < 4 ==> data[4 + i] == t[i] && data[8 + i] == u[i];
  }

  /** Where the parts of a packet lie. */
  function CsrcEnd(p: Packet): nat
  {
    HEADER_SIZE + |p.csrcs|
  }

  function PayloadStart(p: Packet): nat
  {
    CsrcEnd(p) + if p.extension.Some? then 4 + |p.extension.value.value| else 0
  }

  function PayloadEnd(p: Packet): nat
  {
    PayloadStart(p) + |p.payload|
  }

  lemma EncodedParts(p: Packet, padding: seq<byte>)
    requires WellFormed(p) && IsPadding(padding, p.padding)
    ensures var data := Encode(p, padding);
            && |data| == PayloadEnd(p) + p.padding
            && HasHeader(data, p)
            && data[HEADER_SIZE..CsrcEnd(p)] == p.csrcs
            && data[CsrcEnd(p)..PayloadStart(p)] == ExtensionBytes(p.extension)
            && data[PayloadStart(p)..PayloadEnd(p)] == p.payload
            && data[PayloadEnd(p)..] == padding
  {
    hide Header, ExtensionBytes, HasHeader;
    var h, e := Header(p), ExtensionBytes(p.extension);
    var rest := p.csrcs + e + p.payload + padding;
    assert Encode(p, padding) == h + rest;
    HeaderFields(p, rest);
  }

  lemma ExtensionFields(data: seq<byte>, at: nat, e: Extension)
    requires |e.value| % 4 == 0 && |e.value| / 4 < 0x1_0000
    requires at + 4 + |e.value| <= |data| && data[at..at + 4 + |e.value|] == ExtensionBytes(Some(e))
    ensures Get2(data, at) == e.id && Get2(data, at + 2) * 4 == |e.value|
    ensures data[at + 4..at + 4 + |e.value|] == e.value
  {
    var x, y := Put2(e.id), Put2(|e.value| / 4);
    var bytes := data[at..at + 4 + |e.value|];
    assert bytes == x + y + e.value;
    assert data[at] == bytes[0] && data[at + 1] == bytes[1] && data[at + 2] == bytes[2] && data[at + 3] == bytes[3];
    assert Get2(data, at) == Get2(x, 0) && Get2(data, at + 2) == Get2(y, 0);
    SliceOfSlice(data, at, at + 4 + |e.value|, 4, 4 + |e.value|);
  }

  lemma ParseWithExtension(data: seq<byte>, at: nat, e: Extension)
    requires IsRtp(data) && at == HEADER_SIZE + data[0] % 16 * 4 && data[0] / 16 % 2 == 1
    requires |e.value| % 4 == 0 && |e.value| / 4 < 0x1_0000
    requires at + 4 + |e.value| <= |data| && data[at..at + 4 + |e.value|] == ExtensionBytes(Some(e))
    ensures Parse(data) == ParsePayload(data, at, at + 4 + |e.value|, Some(e))
  {
    hide Get2, ExtensionBytes, ParsePayload;
    ExtensionFields(data, at, e);
  }

  /** Parsing what was written gives the packet back. */
  lemma ParseOfEncode(p: Packet, padding: seq<byte>)
    requires WellFormed(p) && IsPadding(padding, p.padding)
    ensures Parse(Encode(p, padding)) == Some(p)
  {
    hide Encode, FirstByte, SecondByte, Get2, Get4, ExtensionBytes, ParsePayload;
    EncodedParts(p, padding);
    FirstByteParts(p.padding != 0, p.extension.Some?, |p.csrcs| / 4);
    QuotientBounds(|p.csrcs|, 4);
    PayloadOfEncode(p, padding);
    var data := Encode(p, padding);
    assert HEADER_SIZE + data[0] % 16 * 4 == CsrcEnd(p);
    if p.extension.Some? {
      hide Parse;
      ParseWithExtension(data, CsrcEnd(p), p.extension.value);
    }
  }

  lemma PayloadOfEncode(p: Packet, padding: seq<byte>)
    requires WellFormed(p) && IsPadding(padding, p.padding)
    ensures PayloadStart(p) <= |Encode(p, padding)|
    ensures ParsePayload(Encode(p, padding), CsrcEnd(p), PayloadStart(p), p.extension) == Some(p)
  {
    EncodedParts(p, padding);
    FirstByteParts(p.padding != 0, p.extension.Some?, |p.csrcs| / 4);
    SecondByteParts(p.marker, p.payloadType);
    hide Encode, FirstByte, SecondByte, Get2, Get4;
    var data := Encode(p, padding);
    if p.padding != 0 {
      assert data[|data| - 1] == data[PayloadEnd(p)..][p.padding - 1];
    }
  }

  /** The bytes of a packet, part by part. */
  predicate Holds(data: seq<byte>, p: Packet)
  {
    && WellFormed(p)
    && |data| == PayloadEnd(p) + p.padding
    && HasHeader(data, p)
    && data[HEADER_SIZE..CsrcEnd(p)] == p.csrcs
    && data[CsrcEnd(p)..PayloadStart(p)] == ExtensionBytes(p.extension)
    && data[PayloadStart(p)..PayloadEnd(p)] == p.payload
    && (p.padding != 0 ==> data[|data| - 1] == p.padding)
  }

  lemma PutOfGet2(data: seq<byte>, i: nat)
    requires i + 2 <= |data|
    ensures Put2(Get2(data, i)) == data[i..i + 2]
  {
    QuotientIs(Get2(data, i), 0x100, data[i], data[i + 1]);
  }

  lemma PutOfGet4(data: seq<byte>, i: nat)
    requires i + 4 <= |data|
    ensures Put4(Get4(data, i)) == data[i..i + 4]
  {
    hide Get2, Put2;
    QuotientIs(Get4(data, i), 0x1_0000, Get2(data, i), Get2(data, i + 2));
    PutOfGet2(data, i);
    PutOfGet2(data, i + 2);
    assert data[i..i + 4] == data[i..i + 2] + data[i + 2..i + 4];
  }

  lemma HeaderIsWritten(data: seq<byte>, p: Packet)
    requires WellFormed(p) && HasHeader(data, p)
    ensures data[..HEADER_SIZE] == Header(p)
  {
    hide Get2, Put2, Get4, Put4, FirstByte, SecondByte;
    PutOfGet2(data, 2);
    PutOfGet4(data, 4);
    PutOfGet4(data, 8);
    assert data[..HEADER_SIZE] == [data[0], data[1]] + data[2..4] + data[4..8] + data[8..12];
  }

  /** Taken together the parts are the packet written out. */
  lemma HoldsIsEncoded(data: seq<byte>, p: Packet)
    requires Holds(data, p)
    ensures IsPadding(data[PayloadEnd(p)..], p.padding)
    ensures data == Encode(p, data[PayloadEnd(p)..])
  {
    hide Header, HasHeader, ExtensionBytes, WellFormed;
    HeaderIsWritten(data, p);
    var padding := data[PayloadEnd(p)..];
    assert p.padding != 0 ==> padding[p.padding - 1] == data[|data| - 1];
    assert data == data[..HEADER_SIZE] + data[HEADER_SIZE..CsrcEnd(p)] + data[CsrcEnd(p)..PayloadStart(p)]
                   + data[PayloadStart(p)..PayloadEnd(p)] + padding;
  }

  lemma FirstByteIs(b: byte)
    requires 127 < b < 192
    ensures b == FirstByte(b / 32 % 2 == 1, b / 16 % 2 == 1, b % 16)
  {
    var q := b / 16;
    QuotientBounds(b, 16);
    assert b == q * 16 + b % 16;
    assert 8 <= q < 12;
    var y := q % 2;
    assert q == q / 2 * 2 + y;
    QuotientIs(b, 32, q / 2, y * 16 + b % 16);
    assert q / 2 == 4 || q / 2 == 5;
    QuotientIs(4, 2, 2, 0);
    QuotientIs(5, 2, 2, 1);
  }

  lemma SecondByteIs(b: byte)
    ensures b == SecondByte(b / 128 == 1, b % 128)
  {
    QuotientBounds(b, 128);
  }

  lemma ParsedExtension(data: seq<byte>, at: nat, to: nat)
    requires at + 4 <= to <= |data| && to == at + 4 + Get2(data, at + 2) * 4
    ensures |data[at + 4..to]| / 4 < 0x1_0000 && |data[at + 4..to]| % 4 == 0
    ensures data[at..to] == ExtensionBytes(Some(Extension(Get2(data, at), data[at + 4..to])))
  {
    var n: int := Get2(data, at + 2);
    QuotientIs(n * 4, 4, n, 0);
    PutOfGet2(data, at);
    PutOfGet2(data, at + 2);
    assert |data[at + 4..to]| == n * 4;
    hide Get2, Put2;
    assert data[at..to] == data[at..at + 2] + data[at + 2..at + 4] + data[at + 4..to];
  }

  lemma ParsedPayload(data: seq<byte>, csrcEnd: nat, payload: nat, extension: Option<Extension>)
    requires IsRtp(data) && csrcEnd == HEADER_SIZE + data[0] % 16 * 4 && csrcEnd <= payload <= |data|
    requires data[0] / 16 % 2 == 1 <==> extension.Some?
    requires extension.Some? ==> |extension.value.value| % 4 == 0 && |extension.value.value| / 4 < 0x1_0000
    requires data[csrcEnd..payload] == ExtensionBytes(extension)
    requires ParsePayload(data, csrcEnd, payload, extension).Some?
    ensures Holds(data, ParsePayload(data, csrcEnd, payload, extension).value)
  {
    var p := ParsePayload(data, csrcEnd, payload, extension).value;
    FirstByteIs(data[0]);
    SecondByteIs(data[1]);
    QuotientIs(|p.csrcs|, 4, data[0] % 16, 0);
    hide FirstByte, SecondByte, Get2, Get4, Put2;
  }

  /** The parser finds a packet exactly in its bytes. */
  lemma ParseIff(data: seq<byte>, p: Packet)
    ensures Parse(data) == Some(p) <==> Holds(data, p)
  {
    hide Parse, Encode, Holds;
    if Holds(data, p) {
      HoldsIsEncoded(data, p);
      HoldsIsWellFormed(data, p);
      ParseOfEncode(p, data[PayloadEnd(p)..]);
    }
    if Parse(data) == Some(p) {
      ParsedHolds(data, p);
    }
  }

  lemma HoldsIsWellFormed(data: seq<byte>, p: Packet)
    requires Holds(data, p)
    ensures WellFormed(p) && |data| == Size(p)
  {
  }

  lemma ParsedHolds(data: seq<byte>, p: Packet)
    requires Parse(data) == Some(p)
    ensures Holds(data, p)
  {
    hide Holds, Get2, ExtensionBytes, ParsePayload;
    var csrcEnd := HEADER_SIZE + data[0] % 16 * 4;
    if data[0] / 16 % 2 == 0 {
      NoExtensionBytes(data, csrcEnd);
      ParsedPayload(data, csrcEnd, csrcEnd, None);
    } else {
      var to := csrcEnd + 4 + Get2(data, csrcEnd + 2) * 4;
      ParsedExtension(data, csrcEnd, to);
      ParsedPayload(data, csrcEnd, to, Some(Extension(Get2(data, csrcEnd), data[csrcEnd + 4..to])));
    }
  }

  lemma NoExtensionBytes(data: seq<byte>, at: nat)
    requires at <= |data|
    ensures data[at..at] == ExtensionBytes(None)
  {
  }
}
