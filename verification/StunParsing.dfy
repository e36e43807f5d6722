/** Which bytes parse as a STUN message, told from the list of attributes that they hold. */
module StunParsing {
  import opened Seq16
  import opened Bytes
  import opened Arithmetic
  import opened Stun
  import opened StunSerialize

  // ----- What a list of attributes says

  /** The attributes that the parser reads have a length of their own. */
  predicate LengthOk(attrType: u16, n: nat)
  {
    && (attrType == PRIORITY ==> n == 4)
    && (attrType == ICE_CONTROLLING || attrType == ICE_CONTROLLED ==> n == 8)
    && (attrType == USE_CANDIDATE ==> n == 0)
    && (attrType == MESSAGE_INTEGRITY ==> n == 20)
    && (attrType == FINGERPRINT ==> n == 4)
    && (attrType == ERROR_CODE ==> n >= 4)
  }

  predicate ValueOk(a: Attribute)
  {
    LengthOk(a.attrType, |a.value|)
  }

  predicate AllOk(list: seq<Attribute>)
  {
    forall i :: 0 <= i < |list| ==> ValueOk(list[i])
  }

  predicate Has(list: seq<Attribute>, attrType: u16)
  {
    exists i :: 0 <= i < |list| && list[i].attrType == attrType
  }

  /** The lengths are right, nothing follows FINGERPRINT, and nothing but FINGERPRINT follows MESSAGE-INTEGRITY
      (sections 15.4 and 15.5 of RFC 5389). */
  predicate Acceptable(list: seq<Attribute>)
  {
    && AllOk(list)
    && (forall i, j :: 0 <= i < j < |list| ==>
          && list[i].attrType != FINGERPRINT
          && (list[i].attrType == MESSAGE_INTEGRITY ==> list[j].attrType == FINGERPRINT))
  }

  /** The last attribute of a type, by its place in the list. */
  function Last(list: seq<Attribute>, attrType: u16): (r: Option<nat>)
    ensures r.Some? ==> r.value < |list| && list[r.value].attrType == attrType
    ensures r.Some? ==> forall i :: r.value < i < |list| ==> list[i].attrType != attrType
    ensures r.None? <==> !Has(list, attrType)
  {
    if list == [] then None
    else if list[|list| - 1].attrType == attrType then Some(|list| - 1)
    else
      var r := Last(list[..|list| - 1], attrType);
      assert forall i :: 0 <= i < |list| - 1 ==> list[..|list| - 1][i] == list[i];
      r
  }

  /** The position of an attribute when the list begins at `pos`. */
  function PlaceOf(list: seq<Attribute>, pos: nat, i: nat): nat
    requires i <= |list|
  {
    pos + |Concat(list[..i])|
  }

  function ValueOf(list: seq<Attribute>, attrType: u16): (r: Option<seq<byte>>)
    requires AllOk(list)
    ensures r.Some? ==> LengthOk(attrType, |r.value|)
  {
    var i := Last(list, attrType);
    if i.None? then None else assert ValueOk(list[i.value]); Some(list[i.value].value)
  }

  /** What the attributes make of a packet: of each type the last one counts. */
  function Summary(list: seq<Attribute>, pos: nat, empty: Packet): Packet
    requires AllOk(list)
  {
    var username, priority, error := ValueOf(list, USERNAME), ValueOf(list, PRIORITY), ValueOf(list, ERROR_CODE);
    var controlling, controlled := ValueOf(list, ICE_CONTROLLING), ValueOf(list, ICE_CONTROLLED);
    var integrity := Last(list, MESSAGE_INTEGRITY);
    empty.(username := if username.Some? then username.value else [],
           priority := if priority.Some? then Get4(priority.value, 0) else 0,
           iceControlling := if controlling.Some? then Get8(controlling.value, 0) else 0,
           iceControlled := if controlled.Some? then Get8(controlled.value, 0) else 0,
           hasUseCandidate := Has(list, USE_CANDIDATE),
           messageIntegrity := if integrity.Some? then Some(PlaceOf(list, pos, integrity.value) + 4) else None,
           hasFingerprint := Has(list, FINGERPRINT),
           errorCode := if error.Some? then error.value[2] as int * 100 + error.value[3] else 0)
  }

  /** The fingerprint, with the position of its attribute. */
  function FingerprintIn(list: seq<Attribute>, pos: nat): Option<(nat, u32)>
    requires AllOk(list)
  {
    var i, f := Last(list, FINGERPRINT), ValueOf(list, FINGERPRINT);
    if i.Some? then Some((PlaceOf(list, pos, i.value), Get4(f.value, 0))) else None
  }

  // ----- One attribute more

  lemma LastOfMore(list: seq<Attribute>, a: Attribute, attrType: u16)
    ensures Last(list + [a], attrType) == if a.attrType == attrType then Some(|list|) else Last(list, attrType)
    ensures Has(list + [a], attrType) <==> a.attrType == attrType || Has(list, attrType)
  {
    assert (list + [a])[..|list|] == list;
  }

  lemma ValueOfMore(list: seq<Attribute>, a: Attribute, attrType: u16)
    requires AllOk(list) && AllOk(list + [a])
    ensures ValueOf(list + [a], attrType) == if a.attrType == attrType then Some(a.value) else ValueOf(list, attrType)
  {
    hide ValueOk;
    LastOfMore(list, a, attrType);
  }

  lemma AllOkMore(list: seq<Attribute>, a: Attribute)
    ensures AllOk(list + [a]) <==> AllOk(list) && ValueOk(a)
  {
    hide ValueOk;
    var all := list + [a];
    assert all[|list|] == a && forall i :: 0 <= i < |list| ==> all[i] == list[i];
    if AllOk(all) {
      forall i | 0 <= i < |list| ensures ValueOk(list[i]) {
        assert ValueOk(all[i]);
      }
    }
  }

  lemma MoreIsAcceptable(list: seq<Attribute>, a: Attribute)
    ensures Acceptable(list + [a]) <==>
            && Acceptable(list) && ValueOk(a) && !Has(list, FINGERPRINT)
            && (Has(list, MESSAGE_INTEGRITY) ==> a.attrType == FINGERPRINT)
  {
    hide ValueOk, AllOk;
    AllOkMore(list, a);
    var all := list + [a];
    assert all[|list|] == a && forall i :: 0 <= i < |list| ==> all[i] == list[i];
  }

  lemma PlaceOfMore(list: seq<Attribute>, a: Attribute, pos: nat, i: nat)
    requires i <= |list|
    ensures PlaceOf(list + [a], pos, i) == PlaceOf(list, pos, i)
    ensures PlaceOf(list, pos, |list|) == pos + |Concat(list)|
  {
    assert (list + [a])[..i] == list[..i] && list[..|list|] == list;
  }

  /** The parser takes one more attribute as the summary does. */
  lemma MoreIsTaken(list: seq<Attribute>, a: Attribute, pos: nat, empty: Packet)
    requires Acceptable(list) && Fresh(empty)
    ensures var p := Progress(Summary(list, pos, empty), FingerprintIn(list, pos));
            var r := TakeAttribute(p, a.attrType, a.value, pos + |Concat(list)|);
            if Acceptable(list + [a]) then
              r == Some(Progress(Summary(list + [a], pos, empty), FingerprintIn(list + [a], pos)))
            else r == None
  {
    hide Get4, Get8, Concat, Has, Last, PlaceOf, ValueOf, AllOk, Acceptable;
    MoreIsAcceptable(list, a);
    AcceptableIsOk(list);
    if ValueOk(a) {
      AllOkMore(list, a);
      PlacesOfMore(list, a, pos);
      ValueOfMore(list, a, USERNAME);
      ValueOfMore(list, a, PRIORITY);
      ValueOfMore(list, a, ICE_CONTROLLING);
      ValueOfMore(list, a, ICE_CONTROLLED);
      ValueOfMore(list, a, FINGERPRINT);
      ValueOfMore(list, a, ERROR_CODE);
      LastOfMore(list, a, USE_CANDIDATE);
      LastOfMore(list, a, MESSAGE_INTEGRITY);
      LastOfMore(list, a, FINGERPRINT);
    }
  }

  lemma AcceptableIsOk(list: seq<Attribute>)
    requires Acceptable(list)
    ensures AllOk(list)
  {
  }

  lemma PlacesOfMore(list: seq<Attribute>, a: Attribute, pos: nat)
    ensures forall i :: 0 <= i <= |list| ==> PlaceOf(list + [a], pos, i) == PlaceOf(list, pos, i)
    ensures PlaceOf(list, pos, |list|) == pos + |Concat(list)|
  {
    hide PlaceOf;
    forall i | 0 <= i <= |list| ensures PlaceOf(list + [a], pos, i) == PlaceOf(list, pos, i) {
      PlaceOfMore(list, a, pos, i);
    }
    PlaceOfMore(list, a, pos, |list|);
  }

  /** The parser accepts exactly the acceptable lists, and reads what they say. */
  lemma {:induction false} FoldIs(list: seq<Attribute>, pos: nat, empty: Packet)
    requires Fresh(empty)
    ensures Fold(list, pos, Progress(empty, None)) ==
            if Acceptable(list) then
              Some(Progress(Summary(list, pos, empty), FingerprintIn(list, pos)))
            else None
    decreases |list|
  {
    hide TakeAttribute, Acceptable, Summary, FingerprintIn, Concat, Fold, AllOk;
    if list == [] {
      NothingTaken(pos, empty);
    } else {
      var n := |list| - 1;
      var init, a := list[..n], list[n];
      assert list == init + [a];
      FoldIs(init, pos, empty);
      FoldAppend(init, [a], pos, Progress(empty, None));
      if Acceptable(init) {
        AcceptableIsOk(init);
        MoreIsTaken(init, a, pos, empty);
        FoldOne(a, pos + |Concat(init)|, Progress(Summary(init, pos, empty), FingerprintIn(init, pos)));
      } else {
        MoreIsAcceptable(init, a);
      }
    }
  }

  lemma FoldOne(a: Attribute, pos: nat, p: Progress)
    ensures Fold([a], pos, p) == TakeAttribute(p, a.attrType, a.value, pos)
  {
    hide TakeAttribute;
    assert [a][1..] == [];
  }

  lemma NothingTaken(pos: nat, empty: Packet)
    requires Fresh(empty)
    ensures Acceptable([]) && Summary([], pos, empty) == empty && FingerprintIn([], pos) == None
    ensures Fold([], pos, Progress(empty, None)) == Some(Progress(empty, None))
  {
  }

  // ----- The list in the bytes

  lemma Put2OfGet2(data: seq<byte>, i: nat)
    requires i + 2 <= |data|
    ensures Put2(Get2(data, i)) == data[i..i + 2]
  {
  }

  /** The attribute that the parser finds at `pos`, with its padding. */
  lemma AttributeAt(data: seq<byte>, pos: nat, next: nat) returns (a: Attribute)
    requires pos % 4 == 0 && pos + 4 + Get2Or0(data, pos + 2) <= |data|
    requires next == pos + 4 + Get2Or0(data, pos + 2) + PadLength(Get2Or0(data, pos + 2)) <= |data|
    ensures a.attrType == Get2Or0(data, pos) && a.value == data[pos + 4..pos + 4 + Get2Or0(data, pos + 2)]
    ensures data[pos..next] == AttributeBytes(a)
  {
    hide Get2, Put2, PadLength;
    var n := Get2(data, pos + 2);
    a := Attribute(Get2(data, pos), data[pos + 4..pos + 4 + n], data[pos + 4 + n..next]);
    Put2OfGet2(data, pos);
    Put2OfGet2(data, pos + 2);
    SliceJoins(data, pos, pos + 2, pos + 4);
    SliceJoins(data, pos, pos + 4, pos + 4 + n);
    SliceJoins(data, pos, pos + 4 + n, next);
  }

  function Get2Or0(data: seq<byte>, i: nat): u16
  {
    if i + 2 <= |data| then Get2(data, i) else 0
  }

  /** What the loop gets through is a list of attributes. */
  lemma {:induction false} Attributes(data: seq<byte>, pos: nat, p: Progress) returns (list: seq<Attribute>)
    requires |data| <= 0xFFFC && |data| % 4 == 0 && pos <= |data| && pos % 4 == 0
    requires p.fingerprint.Some? ==> p.fingerprint.value.0 <= |data|
    requires TakeAttributes(data, pos, p).Some?
    ensures data[pos..] == Concat(list)
    decreases |data| - pos
  {
    hide TakeAttribute, PadTo4, AttributeBytes, Get2, PadLength;
    if pos + 4 > |data| {
      list := [];
    } else {
      var n := Get2(data, pos + 2);
      var q := TakeAttribute(p, Get2(data, pos), data[pos + 4..pos + 4 + n], pos);
      var next := PadTo4(pos + 4 + n);
      PadToNextOf(pos, n);
      var a := AttributeAt(data, pos, next);
      NextAligned(pos, n);
      var rest := Attributes(data, next, q.value);
      list := [a] + rest;
      assert data[pos..] == data[pos..next] + data[next..];
    }
  }

  lemma PadToNextOf(pos: nat, n: nat)
    requires pos % 4 == 0 && pos + 4 + n <= 0xFFFC
    ensures PadTo4(pos + 4 + n) == pos + 4 + n + PadLength(n)
  {
  }

  /** A STUN header (section 6 of RFC 5389) whose length field is that of the attributes. */
  predicate HasHeader(data: seq<byte>)
  {
    && |data| >= HEADER_SIZE && |data| % 4 == 0
    && data[0] < 3 && data[4..8] == MAGIC_COOKIE && Get2(data, 2) == |data| - HEADER_SIZE
  }

  /** The bytes are a header and an acceptable list of attributes, the packet is what these say, and the fingerprint, if
      there is one, is that of the bytes before it. */
  ghost predicate Holds(data: seq<byte>, list: seq<Attribute>, p: Packet, crypto: Crypto)
  {
    && HasHeader(data) && data[HEADER_SIZE..] == Concat(list) && Acceptable(list)
    && p == Summary(list, HEADER_SIZE, EmptyPacket(data))
    && var f := FingerprintIn(list, HEADER_SIZE);
       f.Some? ==> f.value.0 <= |data| && crypto.fingerprint(data[..f.value.0]) == f.value.1
  }

  lemma HeaderIff(data: seq<byte>)
    requires |data| <= 0xFFFF
    ensures HasHeader(data) <==> IsStun(data) && Get2(data, 2) == |data| - HEADER_SIZE && Get2(data, 2) % 4 == 0
    ensures HasHeader(data) ==> |data| <= 0xFFFC
  {
    hide Get2;
  }

  lemma EmptyIsFresh(data: seq<byte>)
    requires |data| >= HEADER_SIZE
    ensures Fresh(EmptyPacket(data))
  {
    hide Get2;
  }

  lemma {:induction false} PlaceInBytes(list: seq<Attribute>, i: nat)
    requires i <= |list|
    ensures |Concat(list[..i])| <= |Concat(list)|
  {
    ConcatAppend(list[..i], list[i..]);
    assert list == list[..i] + list[i..];
  }

  lemma FingerprintFits(list: seq<Attribute>, data: seq<byte>)
    requires AllOk(list) && |data| >= HEADER_SIZE && data[HEADER_SIZE..] == Concat(list)
    ensures FingerprintIn(list, HEADER_SIZE).Some? ==> FingerprintIn(list, HEADER_SIZE).value.0 <= |data|
  {
    hide Concat, Get4, ValueOk, ValueOf;
    var i := Last(list, FINGERPRINT);
    if i.Some? {
      PlaceInBytes(list, i.value);
    }
  }

  /** What the loop makes of a header and a list. */
  lemma LoopIs(data: seq<byte>, list: seq<Attribute>)
    requires |data| <= 0xFFFC && HasHeader(data) && data[HEADER_SIZE..] == Concat(list)
    ensures TakeAttributes(data, HEADER_SIZE, Progress(EmptyPacket(data), None)) ==
            if Acceptable(list) then
              Some(Progress(Summary(list, HEADER_SIZE, EmptyPacket(data)), FingerprintIn(list, HEADER_SIZE)))
            else None
  {
    hide Get2, Concat, Fold, TakeAttributes, EmptyPacket, Acceptable, Summary, FingerprintIn;
    EmptyIsFresh(data);
    assert data == data[..HEADER_SIZE] + Concat(list);
    LoopIsFold(data[..HEADER_SIZE], list, Progress(EmptyPacket(data), None));
    FoldIs(list, HEADER_SIZE, EmptyPacket(data));
  }

  /** Every list in the bytes decides. */
  lemma ParseOfList(data: seq<byte>, list: seq<Attribute>, crypto: Crypto)
    requires |data| <= 0xFFFF && HasHeader(data) && data[HEADER_SIZE..] == Concat(list)
    ensures Parse(data, crypto).Some? <==>
            Acceptable(list) && Holds(data, list, Summary(list, HEADER_SIZE, EmptyPacket(data)), crypto)
    ensures Parse(data, crypto).Some? ==> Parse(data, crypto).value == Summary(list, HEADER_SIZE, EmptyPacket(data))
  {
    hide Get2, Concat, TakeAttributes, EmptyPacket, Acceptable, Summary, FingerprintIn, HasHeader, IsStun, AllOk;
    HeaderIff(data);
    LoopIs(data, list);
    if Acceptable(list) {
      AcceptableIsOk(list);
      FingerprintFits(list, data);
    }
  }

  /** Bytes parse as a packet if and only if they hold it: a header with the right length, attributes of the right lengths
      in the right order, and a fingerprint that fits them. */
  lemma ParseIff(data: seq<byte>, p: Packet, crypto: Crypto)
    requires |data| <= 0xFFFF
    ensures Parse(data, crypto) == Some(p) <==> exists list :: Holds(data, list, p, crypto)
  {
    hide Get2, Concat, TakeAttributes, EmptyPacket, Acceptable, Summary, FingerprintIn, HasHeader, IsStun;
    HeaderIff(data);
    if Parse(data, crypto) == Some(p) {
      HeaderIsAligned(data);
      var list := Attributes(data, HEADER_SIZE, Progress(EmptyPacket(data), None));
      ParseOfList(data, list, crypto);
      assert Holds(data, list, p, crypto);
    }
    if list :| Holds(data, list, p, crypto) {
      ParseOfList(data, list, crypto);
    }
  }

  lemma HeaderIsAligned(data: seq<byte>)
    requires HasHeader(data)
    ensures |data| >= HEADER_SIZE && |data| % 4 == 0
  {
  }
}
