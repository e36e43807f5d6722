/** RTP header extension elements (sections 4.2 and 4.3 of RFC 5285). */
module RtpExtensions {
  import opened Seq16
  import opened Bytes
  import opened Arithmetic

  datatype Kind = OneByte | TwoBytes

  type Value = s: seq<byte> | |s| < 0x100

  datatype GenericExtension = GenericExtension(id: byte, value: Value)

  /** How many bytes stand before an element's value. */
  function Prefix(kind: Kind): nat
  {
    if kind.OneByte? then 1 else 2
  }

  // ----- Writing

  /** The entries SetExtensions does not skip. */
  predicate IsWritten(kind: Kind, e: GenericExtension)
  {
    match kind
    case OneByte => 0 < e.id <= 14 && 0 < |e.value| <= 16
    case TwoBytes => e.id != 0
  }

  function Element(kind: Kind, e: GenericExtension): (r: seq<byte>)
    requires IsWritten(kind, e)
    ensures |r| == Prefix(kind) + |e.value|
  {
    match kind
    case OneByte => [e.id * 16 + |e.value| - 1] + e.value
    case TwoBytes => [e.id, |e.value|] + e.value
  }

  function Elements(kind: Kind, extensions: seq<GenericExtension>): seq<byte>
  {
    if extensions == [] then []
    else
      var n := |extensions| - 1;
      Elements(kind, extensions[..n]) + if IsWritten(kind, extensions[n]) then Element(kind, extensions[n]) else []
  }

  lemma {:induction false} ElementsGrow(kind: Kind, extensions: seq<GenericExtension>, i: nat)
    requires i <= |extensions|
    ensures |Elements(kind, extensions[..i])| <= |Elements(kind, extensions)|
  {
    if i < |extensions| {
      var before := extensions[..|extensions| - 1];
      ElementsGrow(kind, before, i);
      assert before[..i] == extensions[..i];
    } else {
      assert extensions[..i] == extensions;
    }
  }

  /** Where the map of the packet points for each id: at its last written element. */
  function Offsets(kind: Kind, extensions: seq<GenericExtension>): map<byte, nat>
  {
    if extensions == [] then map[]
    else
      var n := |extensions| - 1;
      var m := Offsets(kind, extensions[..n]);
      if IsWritten(kind, extensions[n]) then m[extensions[n].id := |Elements(kind, extensions[..n])|] else m
  }

  lemma NoElements(kind: Kind, extensions: seq<GenericExtension>)
    ensures Elements(kind, extensions[..0]) == [] && Offsets(kind, extensions[..0]) == map[]
  {
  }

  lemma ElementsStep(kind: Kind, extensions: seq<GenericExtension>, i: nat)
    requires i < |extensions|
    ensures var before, now, e := extensions[..i], extensions[..i + 1], extensions[i];
            if IsWritten(kind, e) then
              && Elements(kind, now) == Elements(kind, before) + Element(kind, e)
              && Offsets(kind, now) == Offsets(kind, before)[e.id := |Elements(kind, before)|]
            else
              Elements(kind, now) == Elements(kind, before) && Offsets(kind, now) == Offsets(kind, before)
  {
    assert extensions[..i + 1][..i] == extensions[..i];
  }

  predicate HasBlock(kind: Kind, extensions: seq<GenericExtension>)
  {
    |Elements(kind, extensions)| <= 0xFFFC
  }

  function BlockSize(kind: Kind, extensions: seq<GenericExtension>): (r: nat)
    requires HasBlock(kind, extensions)
    ensures |Elements(kind, extensions)| <= r < |Elements(kind, extensions)| + 4 && r % 4 == 0
  {
    PadTo4(|Elements(kind, extensions)|)
  }

  /** How many bytes the elements and the padding take: the first loop of SetExtensions. */
  method TotalSize(kind: Kind, extensions: seq<GenericExtension>) returns (size: nat)
    requires HasBlock(kind, extensions)
    ensures size == BlockSize(kind, extensions)
  {
    hide Elements, Offsets, Element, PadTo4;
    size := 0;
    NoElements(kind, extensions);
    var i := 0;
    while i < |extensions|
      invariant 0 <= i <= |extensions| && size == |Elements(kind, extensions[..i])|
    {
      ElementsStep(kind, extensions, i);
      var e := extensions[i];
      if IsWritten(kind, e) {
        size := size + Prefix(kind) + |e.value|;
      }
      i := i + 1;
    }
    assert extensions[..i] == extensions;
    size := PadTo4(size);
  }

  function Zeros(n: nat): (r: seq<byte>)
    ensures |r| == n
  {
    seq(n, i => 0)
  }

  /** The value of the header extension: the elements, padded with zeros to a multiple of four. */
  function Block(kind: Kind, extensions: seq<GenericExtension>): (r: seq<byte>)
    requires HasBlock(kind, extensions)
    ensures |r| == BlockSize(kind, extensions)
  {
    var elements := Elements(kind, extensions);
    elements + Zeros(BlockSize(kind, extensions) - |elements|)
  }

  const ONE_BYTE_ID: u16 := 0xBEDE
  const TWO_BYTES_ID: u16 := 0x1000

  /** The header extension id says how its value is to be read; the low four bits are free with TwoBytes. */
  function KindOf(id: u16): (r: Option<Kind>)
  {
    if id == ONE_BYTE_ID then Some(OneByte) else if id / 16 == 0x100 then Some(TwoBytes) else None
  }

  /** SetExtensions keeps an id that already says the requested kind. */
  function IdFor(kind: Kind, before: Option<u16>): (r: u16)
    ensures KindOf(r) == Some(kind)
  {
    if before.Some? && KindOf(before.value) == Some(kind) then before.value
    else if kind.OneByte? then ONE_BYTE_ID
    else TWO_BYTES_ID
  }

  // ----- Reading

  function IdAt(kind: Kind, value: seq<byte>, ptr: nat): byte
    requires ptr + Prefix(kind) <= |value|
  {
    if kind.OneByte? then value[ptr] / 16 else value[ptr]
  }

  function LenAt(kind: Kind, value: seq<byte>, ptr: nat): byte
    requires ptr + Prefix(kind) <= |value|
  {
    if kind.OneByte? then value[ptr] % 16 + 1 else value[ptr + 1]
  }

  function SkipZeros(value: seq<byte>, ptr: nat): (r: nat)
    requires ptr <= |value|
    ensures ptr <= r <= |value|
    ensures r < |value| ==> value[r] != 0
    decreases |value| - ptr
  {
    if ptr < |value| && value[ptr] == 0 then SkipZeros(value, ptr + 1) else ptr
  }

  /** The loops of ParseExtensions, from `ptr` on, with what they found before. */
  function ParseFrom(kind: Kind, value: seq<byte>, ptr: nat, found: map<byte, nat>): map<byte, nat>
    requires ptr <= |value|
    decreases |value| - ptr
  {
    if ptr + Prefix(kind) > |value| then found
    else
      var id, len := IdAt(kind, value, ptr), LenAt(kind, value, ptr);
      if kind.OneByte? && id == 15 then found
      else if id == 0 then ParseFrom(kind, value, SkipZeros(value, ptr + 1), found)
      else if ptr + Prefix(kind) + len > |value| then found
      else ParseFrom(kind, value, SkipZeros(value, ptr + Prefix(kind) + len), found[id := ptr])
  }

  function Parse(kind: Kind, value: seq<byte>): map<byte, nat>
  {
    ParseFrom(kind, value, 0, map[])
  }

  /** One of the two loops of ParseExtensions. */
  method FindElements(kind: Kind, value: seq<byte>) returns (found: map<byte, nat>)
    ensures found == Parse(kind, value)
  {
    hide SkipZeros;
    var ptr := 0;
    found := map[];
    while ptr + Prefix(kind) <= |value|
      invariant 0 <= ptr <= |value|
      invariant Parse(kind, value) == ParseFrom(kind, value, ptr, found)
      decreases |value| - ptr
    {
      var id := if kind.OneByte? then value[ptr] / 16 else value[ptr];
      var len := if kind.OneByte? then value[ptr] % 16 + 1 else value[ptr + 1];
      if kind.OneByte? && id == 15 {
        return;
      }
      if id != 0 {
        if ptr + Prefix(kind) + len > |value| {
          return;
        }
        found := found[id := ptr];
        ptr := ptr + Prefix(kind) + len;
      } else {
        ptr := ptr + 1;
      }
      ptr := SkipPadding(value, ptr);
    }
  }

  /** The inner loop. */
  method SkipPadding(value: seq<byte>, start: nat) returns (ptr: nat)
    requires start <= |value|
    ensures ptr == SkipZeros(value, start)
  {
    ptr := start;
    while ptr < |value| && value[ptr] == 0
      invariant start <= ptr <= |value|
      invariant SkipZeros(value, ptr) == SkipZeros(value, start)
    {
      ptr := ptr + 1;
    }
  }

  /** Every offset points at an element of its id that lies inside the block. */
  predicate Fit(kind: Kind, value: seq<byte>, found: map<byte, nat>)
  {
    forall id <- found ::
      && id != 0
      && found[id] + Prefix(kind) <= |value|
      && IdAt(kind, value, found[id]) == id
      && found[id] + Prefix(kind) + LenAt(kind, value, found[id]) <= |value|
  }

  /** RtpPacket::GetExtension: an empty Two-Bytes value reads as no extension. */
  function Get(kind: Kind, value: seq<byte>, found: map<byte, nat>, id: byte): Option<seq<byte>>
    requires Fit(kind, value, found)
  {
    if id == 0 || id !in found then None
    else
      var from := found[id] + Prefix(kind);
      var len := LenAt(kind, value, found[id]);
      if len == 0 then None else Some(value[from..from + len])
  }

  // ----- Properties

  /** Whatever the bytes are, the map built from them never points outside of them. */
  lemma {:induction false} ParseFromFits(kind: Kind, value: seq<byte>, ptr: nat, found: map<byte, nat>)
    requires ptr <= |value| && Fit(kind, value, found)
    ensures Fit(kind, value, ParseFrom(kind, value, ptr, found))
    decreases |value| - ptr
  {
    hide SkipZeros;
    if ptr + Prefix(kind) <= |value| {
      var id, len := IdAt(kind, value, ptr), LenAt(kind, value, ptr);
      if id == 0 {
        ParseFromFits(kind, value, SkipZeros(value, ptr + 1), found);
      } else if !(kind.OneByte? && id == 15) && ptr + Prefix(kind) + len <= |value| {
        ParseFromFits(kind, value, SkipZeros(value, ptr + Prefix(kind) + len), found[id := ptr]);
      }
    }
  }

  lemma ParseFits(kind: Kind, value: seq<byte>)
    ensures Fit(kind, value, Parse(kind, value))
  {
    ParseFromFits(kind, value, 0, map[]);
  }

  /** The last entry for an id that is written. */
  function LastWritten(kind: Kind, extensions: seq<GenericExtension>, id: byte): (r: Option<GenericExtension>)
    ensures r.Some? ==> IsWritten(kind, r.value) && r.value.id == id
  {
    if extensions == [] then None
    else
      var n := |extensions| - 1;
      if IsWritten(kind, extensions[n]) && extensions[n].id == id then Some(extensions[n])
      else LastWritten(kind, extensions[..n], id)
  }

  predicate ElementAt(kind: Kind, value: seq<byte>, ptr: nat, e: GenericExtension)
  {
    && IsWritten(kind, e)
    && ptr + |Element(kind, e)| <= |value|
    && value[ptr..ptr + |Element(kind, e)|] == Element(kind, e)
  }

  lemma ElementFields(kind: Kind, value: seq<byte>, ptr: nat, e: GenericExtension)
    requires ElementAt(kind, value, ptr, e)
    ensures IdAt(kind, value, ptr) == e.id && LenAt(kind, value, ptr) == |e.value|
    ensures value[ptr + Prefix(kind)..ptr + Prefix(kind) + |e.value|] == e.value
    ensures value[ptr] != 0
  {
    var element := Element(kind, e);
    SliceOfSlice(value, ptr, ptr + |element|, 0, Prefix(kind));
    SliceOfSlice(value, ptr, ptr + |element|, Prefix(kind), |element|);
    var start := value[ptr..ptr + Prefix(kind)];
    assert start == element[..Prefix(kind)];
    assert value[ptr] == start[0];
    if kind.OneByte? {
      OneByteParts(e.id, |e.value|);
    } else {
      assert value[ptr + 1] == start[1];
    }
  }

  lemma OneByteParts(id: nat, len: nat)
    requires 0 < id && 0 < len <= 16
    ensures var b := id * 16 + len - 1; b > 0 && b / 16 == id && b % 16 + 1 == len
  {
    QuotientIs(id * 16 + len - 1, 16, id, len - 1);
  }

  /** Offsets are those of the last written elements. */
  lemma {:induction false} OffsetsAreLast(kind: Kind, extensions: seq<GenericExtension>, id: byte)
    ensures var m, last := Offsets(kind, extensions), LastWritten(kind, extensions, id);
            && (id in m <==> last.Some?)
            && (id in m ==> ElementAt(kind, Elements(kind, extensions), m[id], last.value))
  {
    hide Element, ElementAt;
    if extensions != [] {
      var n := |extensions| - 1;
      var before, e := extensions[..n], extensions[n];
      OffsetsAreLast(kind, before, id);
      var start := Elements(kind, before);
      if IsWritten(kind, e) {
        ElementIsLast(kind, start, e);
      }
      if id in Offsets(kind, before) {
        ElementStays(kind, start, Offsets(kind, before)[id], LastWritten(kind, before, id).value,
                     if IsWritten(kind, e) then Element(kind, e) else []);
      }
    }
  }

  lemma ElementIsLast(kind: Kind, start: seq<byte>, e: GenericExtension)
    requires IsWritten(kind, e)
    ensures ElementAt(kind, start + Element(kind, e), |start|, e)
  {
  }

  lemma ElementStays(kind: Kind, start: seq<byte>, ptr: nat, e: GenericExtension, more: seq<byte>)
    requires ElementAt(kind, start, ptr, e)
    ensures ElementAt(kind, start + more, ptr, e)
  {
    var end := ptr + |Element(kind, e)|;
    assert (start + more)[ptr..end] == start[ptr..end];
  }

  /** The parser steps over one written element. */
  lemma ParseElement(kind: Kind, value: seq<byte>, ptr: nat, e: GenericExtension, found: map<byte, nat>)
    requires ElementAt(kind, value, ptr, e)
    ensures ParseFrom(kind, value, SkipZeros(value, ptr), found)
         == ParseFrom(kind, value, SkipZeros(value, ptr + |Element(kind, e)|), found[e.id := ptr])
  {
    ElementFields(kind, value, ptr, e);
    assert SkipZeros(value, ptr) == ptr;
  }

  /** The parser starts as if it skipped zeros first. */
  lemma ParseStart(kind: Kind, value: seq<byte>)
    ensures Parse(kind, value) == ParseFrom(kind, value, SkipZeros(value, 0), map[])
  {
    if |value| > 0 && value[0] == 0 {
      if |value| == 1 {
        assert SkipZeros(value, 1) == 1;
      }
      assert SkipZeros(value, 0) == SkipZeros(value, 1);
      if kind.OneByte? {
        QuotientIs(0, 16, 0, 0);
      }
    }
  }

  lemma {:induction false} ParseElements(kind: Kind, extensions: seq<GenericExtension>, rest: seq<byte>)
    ensures Parse(kind, Elements(kind, extensions) + rest)
         == (var start := Elements(kind, extensions);
             ParseFrom(kind, start + rest, SkipZeros(start + rest, |start|), Offsets(kind, extensions)))
  {
    hide ParseFrom, Element, ElementAt, SkipZeros, Parse;
    if extensions == [] {
      ParseStart(kind, rest);
      assert Elements(kind, []) + rest == rest;
    } else {
      var n := |extensions| - 1;
      var before, e := extensions[..n], extensions[n];
      var start := Elements(kind, before);
      if IsWritten(kind, e) {
        ParseElements(kind, before, Element(kind, e) + rest);
        assert start + (Element(kind, e) + rest) == start + Element(kind, e) + rest;
        ElementIsLast(kind, start, e);
        ElementStays(kind, start + Element(kind, e), |start|, e, rest);
        ParseElement(kind, start + Element(kind, e) + rest, |start|, e, Offsets(kind, before));
      } else {
        ParseElements(kind, before, rest);
        assert Elements(kind, extensions) == start;
      }
    }
  }

  lemma {:induction false} SkipAllZeros(value: seq<byte>, ptr: nat)
    requires ptr <= |value| && (forall i :: ptr <= i < |value| ==> value[i] == 0)
    ensures SkipZeros(value, ptr) == |value|
    decreases |value| - ptr
  {
    if ptr < |value| {
      SkipAllZeros(value, ptr + 1);
    }
  }

  /** Parsing a block that was written gives the map made while writing it. */
  lemma ParseOfBlock(kind: Kind, extensions: seq<GenericExtension>)
    requires HasBlock(kind, extensions)
    ensures Parse(kind, Block(kind, extensions)) == Offsets(kind, extensions)
  {
    hide Parse, SkipZeros;
    var start := Elements(kind, extensions);
    var zeros := Zeros(BlockSize(kind, extensions) - |start|);
    ParseElements(kind, extensions, zeros);
    SkipAllZeros(start + zeros, |start|);
  }

  /** And each id reads the value of its last written entry, unless that value is empty. */
  lemma GetOfBlock(kind: Kind, extensions: seq<GenericExtension>, id: byte)
    requires HasBlock(kind, extensions)
    ensures var block, last := Block(kind, extensions), LastWritten(kind, extensions, id);
            && Fit(kind, block, Parse(kind, block))
            && (last.Some? && last.value.value != [] ==>
                  Get(kind, block, Parse(kind, block), id) == Some(last.value.value))
            && (last.None? || last.value.value == [] ==> Get(kind, block, Parse(kind, block), id) == None)
  {
    hide Parse, Element, Elements, ElementAt, LastWritten, Offsets, IdAt, LenAt;
    var block, m, last := Block(kind, extensions), Offsets(kind, extensions), LastWritten(kind, extensions, id);
    var start := Elements(kind, extensions);
    ParseFits(kind, block);
    ParseOfBlock(kind, extensions);
    OffsetsAreLast(kind, extensions, id);
    if id in m {
      ElementStays(kind, start, m[id], last.value, Zeros(BlockSize(kind, extensions) - |start|));
      ElementFields(kind, block, m[id], last.value);
      WrittenIdIsPositive(kind, last.value);
    }
  }

  /** Writing the entries, and reading an id. */
  function ReadBack(kind: Kind, extensions: seq<GenericExtension>, id: byte): Option<seq<byte>>
    requires HasBlock(kind, extensions)
  {
    var block := Block(kind, extensions);
    ParseFits(kind, block);
    Get(kind, block, Parse(kind, block), id)
  }

  /** The last entry of an id is what is read under it: with One-Byte ids from 1 to 14 and values of 1 to 16 bytes, with
      Two-Bytes any id but 0 and any value, of which an empty one reads as none. Any other entry changes nothing. */
  lemma LastEntryIsRead(kind: Kind, before: seq<GenericExtension>, e: GenericExtension, id: byte)
    requires HasBlock(kind, before + [e]) && HasBlock(kind, before)
    ensures var fits := if kind.OneByte? then 1 <= e.id <= 14 && 1 <= |e.value| <= 16 else e.id >= 1;
            ReadBack(kind, before + [e], id) ==
            if !fits || id != e.id then ReadBack(kind, before, id) else if e.value == [] then None else Some(e.value)
  {
    hide Parse, Block, Get, Fit;
    GetOfBlock(kind, before, id);
    GetOfBlock(kind, before + [e], id);
    assert (before + [e])[..|before|] == before;
  }

  lemma WrittenIdIsPositive(kind: Kind, e: GenericExtension)
    requires IsWritten(kind, e)
    ensures e.id != 0
  {
  }
}
