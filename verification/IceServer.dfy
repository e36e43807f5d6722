/** IceServer: which 5-tuples a WebRTC transport accepts, and which one it sends to. */
module IceServers {
  import opened Bytes

  /** The 128 bits of an IPv6 address. */
  datatype Ip6 = Ip6(a: u32, b: u32, c: u32, d: u32)

  datatype Address =
    | V4(ip: u32, port: nat)
    | V6(ip6: Ip6, port: nat, scope: nat)

  /** A TransportTuple: the local socket with the remote address, or the connection. */
  datatype Tuple =
    | Udp(socket: nat, remote: Address)
    | Tcp(connection: nat)

  /** Utils::IP::CompareAddresses, which does not look at the scope. */
  predicate SameAddress(a: Address, b: Address)
  {
    match (a, b)
    case (V4(ip1, port1), V4(ip2, port2)) => port1 == port2 && ip1 == ip2
    case (V6(ip1, port1, _), V6(ip2, port2, _)) => port1 == port2 && ip1 == ip2
    case _ => false
  }

  /** TransportTuple::Compare. */
  predicate Compare(a: Tuple, b: Tuple)
  {
    match (a, b)
    case (Udp(socket1, remote1), Udp(socket2, remote2)) => socket1 == socket2 && SameAddress(remote1, remote2)
    case (Tcp(connection1), Tcp(connection2)) => connection1 == connection2
    case _ => false
  }

  lemma CompareIsEquivalence(a: Tuple, b: Tuple, c: Tuple)
    ensures Compare(a, a)
    ensures Compare(a, b) ==> Compare(b, a)
    ensures Compare(a, b) && Compare(b, c) ==> Compare(a, c)
  {
  }

  datatype IceState = New | Connected | Completed | Disconnected

  /** What the listener is told. */
  datatype Notice = Selected(tuple: Tuple) | State(state: IceState)

  datatype Ice = Ice(state: IceState, tuples: seq<Tuple>, selected: Option<Tuple>, notices: seq<Notice>)

  const INITIAL := Ice(New, [], None, [])

  /** The place of the first tuple that compares equal, or the length of the list. */
  function Find(tuples: seq<Tuple>, t: Tuple): (i: nat)
    ensures i <= |tuples|
    ensures i < |tuples| ==> Compare(tuples[i], t)
    ensures forall j :: 0 <= j < i ==> !Compare(tuples[j], t)
  {
    if tuples == [] || Compare(tuples[0], t) then 0 else 1 + Find(tuples[1..], t)
  }

  function HasTuple(c: Ice, t: Tuple): Option<Tuple>
  {
    if c.selected.None? then None
    else if Compare(c.selected.value, t) then c.selected
    else
      var i := Find(c.tuples, t);
      if i < |c.tuples| then Some(c.tuples[i]) else None
  }

  /** IsValidTuple. */
  predicate IsValidTuple(c: Ice, t: Tuple)
  {
    HasTuple(c, t).Some?
  }

  function AddTuple(c: Ice, t: Tuple): Ice
  {
    c.(tuples := [t] + c.tuples)
  }

  function SetSelectedTuple(c: Ice, t: Tuple): Ice
  {
    if c.selected == Some(t) then c else c.(selected := Some(t), notices := c.notices + [Selected(t)])
  }

  function EnterState(c: Ice, state: IceState): Ice
  {
    c.(state := state, notices := c.notices + [State(state)])
  }

  function HandleTuple(c: Ice, t: Tuple, hasUseCandidate: bool): Ice
  {
    match c.state
    case New => EnterState(SetSelectedTuple(AddTuple(c, t), t), if hasUseCandidate then Completed else Connected)
    case Disconnected => EnterState(SetSelectedTuple(AddTuple(c, t), t), if hasUseCandidate then Completed else Connected)
    case Connected => if hasUseCandidate then EnterState(SelectStored(c, t), Completed) else Store(c, t)
    case Completed => if hasUseCandidate then SelectStored(c, t) else Store(c, t)
  }

  /** Stores a new tuple. */
  function Store(c: Ice, t: Tuple): Ice
  {
    if HasTuple(c, t).None? then AddTuple(c, t) else c
  }

  /** Selects the stored tuple, which is stored first when it is new. */
  function SelectStored(c: Ice, t: Tuple): Ice
  {
    var stored := HasTuple(c, t);
    if stored.Some? then SetSelectedTuple(c, stored.value) else SetSelectedTuple(AddTuple(c, t), t)
  }

  function RemoveTuple(c: Ice, t: Tuple): Ice
  {
    var i := Find(c.tuples, t);
    if i == |c.tuples| then c
    else
      var rest := c.tuples[..i] + c.tuples[i + 1..];
      if c.selected != Some(c.tuples[i]) then c.(tuples := rest)
      else if rest != [] then SetSelectedTuple(c.(tuples := rest, selected := None), rest[0])
      else EnterState(c.(tuples := rest, selected := None), Disconnected)
  }

  /** The caller has checked that the tuple is valid. */
  function ForceSelectedTuple(c: Ice, t: Tuple): Ice
    requires IsValidTuple(c, t)
  {
    SetSelectedTuple(c, HasTuple(c, t).value)
  }

  // ----- The invariant

  predicate Distinct(tuples: seq<Tuple>)
  {
    forall i, j :: 0 <= i < j < |tuples| ==> !Compare(tuples[i], tuples[j])
  }

  /** The state, the list and the selection agree, and no two stored tuples compare equal. */
  predicate Valid(c: Ice)
  {
    && (c.state.New? || c.state.Disconnected? <==> c.tuples == [])
    && (c.tuples == [] <==> c.selected.None?)
    && (c.selected.Some? ==> c.selected.value in c.tuples)
    && Distinct(c.tuples)
  }

  /** Some stored tuple compares equal. */
  ghost predicate Stored(tuples: seq<Tuple>, t: Tuple)
  {
    exists i :: 0 <= i < |tuples| && Compare(tuples[i], t)
  }

  /** The search finds exactly what is stored. */
  lemma HasTupleFinds(c: Ice, t: Tuple)
    requires Valid(c)
    ensures IsValidTuple(c, t) <==> Stored(c.tuples, t)
    ensures IsValidTuple(c, t) ==> HasTuple(c, t).value in c.tuples && Compare(HasTuple(c, t).value, t)
  {
    var i := Find(c.tuples, t);
    if c.selected.Some? {
      var j :| 0 <= j < |c.tuples| && c.tuples[j] == c.selected.value;
      assert Compare(c.tuples[j], t) == Compare(c.selected.value, t);
    }
    assert i < |c.tuples| ==> Stored(c.tuples, t);
  }

  lemma StoredIsKept(tuples: seq<Tuple>, t: Tuple, u: Tuple)
    ensures Stored([t] + tuples, u) <==> Compare(t, u) || Stored(tuples, u)
  {
    var all := [t] + tuples;
    if Compare(t, u) {
      assert Compare(all[0], u);
    }
    if Stored(tuples, u) {
      var i :| 0 <= i < |tuples| && Compare(tuples[i], u);
      assert Compare(all[i + 1], u);
    }
  }

  lemma AddIsDistinct(tuples: seq<Tuple>, t: Tuple)
    requires Distinct(tuples) && !Stored(tuples, t)
    ensures Distinct([t] + tuples)
  {
    forall i | 0 <= i < |tuples| ensures !Compare(t, tuples[i]) {
      CompareIsEquivalence(t, tuples[i], t);
    }
  }

  /** Handling a tuple keeps the invariant, makes the tuple valid, and leaves the validity of all others alone. */
  lemma HandleIsValid(c: Ice, t: Tuple, hasUseCandidate: bool, u: Tuple)
    requires Valid(c)
    ensures var d := HandleTuple(c, t, hasUseCandidate);
            && Valid(d)
            && !d.state.New?
            && (c.state.Completed? || hasUseCandidate <==> d.state.Completed?)
            && (hasUseCandidate ==> Compare(d.selected.value, t))
            && (Stored(d.tuples, u) <==> Compare(t, u) || Stored(c.tuples, u))
  {
    hide Distinct, Compare, Stored, Find;
    HasTupleFinds(c, t);
    StoredIsKept(c.tuples, t, u);
    CompareIsEquivalence(t, t, t);
    EmptyStoresNothing(t);
    EmptyStoresNothing(u);
    if !Stored(c.tuples, t) {
      AddIsDistinct(c.tuples, t);
    } else {
      SameClass(c.tuples, t, u);
    }
  }

  lemma EmptyStoresNothing(t: Tuple)
    ensures !Stored([], t) && Distinct([])
  {
  }

  lemma SameClass(tuples: seq<Tuple>, t: Tuple, u: Tuple)
    requires Stored(tuples, t)
    ensures Compare(t, u) ==> Stored(tuples, u)
  {
    var i :| 0 <= i < |tuples| && Compare(tuples[i], t);
    CompareIsEquivalence(tuples[i], t, u);
  }

  /** A tuple that is handled is stored in front if it is new. It becomes the selected one, as it is stored, if it comes
      with USE-CANDIDATE or is the first; otherwise the selection stays. The state becomes COMPLETED with USE-CANDIDATE or
      stays it, and is CONNECTED otherwise. */
  lemma HandleSelects(c: Ice, t: Tuple, hasUseCandidate: bool)
    requires Valid(c)
    ensures var d := HandleTuple(c, t, hasUseCandidate);
            && d.tuples == (if Stored(c.tuples, t) then c.tuples else [t] + c.tuples)
            && (if hasUseCandidate || c.tuples == [] then d.selected.Some? && Compare(d.selected.value, t) else d.selected == c.selected)
            && (d.selected.Some? && !Stored(c.tuples, t) && d.selected != c.selected ==> d.selected == Some(t))
            && d.state == if hasUseCandidate || c.state.Completed? then Completed else Connected
  {
    hide Distinct, Compare, Stored, Find;
    HasTupleFinds(c, t);
    CompareIsEquivalence(t, t, t);
    EmptyStoresNothing(t);
  }

  /** What a removal leaves: all other tuples in their order. If the selected one goes, the first of these is selected. */
  lemma RemoveSelects(c: Ice, t: Tuple) returns (i: nat)
    requires Valid(c)
    ensures var d := RemoveTuple(c, t);
            && i <= |c.tuples| && (Stored(c.tuples, t) <==> i < |c.tuples|)
            && (i == |c.tuples| ==> d == c)
            && (i < |c.tuples| ==>
                  && Compare(c.tuples[i], t)
                  && d.tuples == c.tuples[..i] + c.tuples[i + 1..]
                  && d.selected == if !Compare(c.selected.value, t) then c.selected
                                   else if d.tuples == [] then None else Some(d.tuples[0]))
            && (d.tuples == [] ==> c.tuples == [] || d.state == Disconnected)
            && (d.tuples != [] ==> d.state == c.state)
  {
    i := Find(c.tuples, t);
    FindIffStored(c.tuples, t);
    if i < |c.tuples| && Compare(c.selected.value, t) {
      SelectedIsFound(c, t, i);
    }
  }

  lemma FindIffStored(tuples: seq<Tuple>, t: Tuple)
    ensures Stored(tuples, t) <==> Find(tuples, t) < |tuples|
  {
    assert Find(tuples, t) < |tuples| ==> Compare(tuples[Find(tuples, t)], t);
  }

  lemma SelectedIsFound(c: Ice, t: Tuple, i: nat)
    requires Valid(c) && c.selected.Some? && i < |c.tuples| && Compare(c.tuples[i], t) && Compare(c.selected.value, t)
    ensures c.selected.value == c.tuples[i]
  {
    hide Compare;
    var j :| 0 <= j < |c.tuples| && c.tuples[j] == c.selected.value;
    CompareIsEquivalence(c.tuples[i], t, c.tuples[j]);
    CompareIsEquivalence(c.tuples[j], t, c.tuples[i]);
  }

  lemma Without(tuples: seq<Tuple>, i: nat, t: Tuple, u: Tuple)
    requires Distinct(tuples) && i < |tuples| && Compare(tuples[i], t)
    ensures var rest := tuples[..i] + tuples[i + 1..];
            && Distinct(rest)
            && (forall x :: x in tuples && x != tuples[i] ==> x in rest)
            && (Stored(rest, u) <==> Stored(tuples, u) && !Compare(t, u))
  {
    hide Compare;
    var rest := tuples[..i] + tuples[i + 1..];
    if Stored(rest, u) {
      var k :| 0 <= k < |rest| && Compare(rest[k], u);
      var j := if k < i then k else k + 1;
      assert tuples[j] == rest[k];
      CompareIsEquivalence(t, u, tuples[j]);
      CompareIsEquivalence(tuples[j], u, t);
      CompareIsEquivalence(tuples[i], t, tuples[j]);
      CompareIsEquivalence(tuples[j], t, tuples[i]);
    }
    if Stored(tuples, u) && !Compare(t, u) {
      var j :| 0 <= j < |tuples| && Compare(tuples[j], u);
      CompareIsEquivalence(tuples[i], t, u);
      CompareIsEquivalence(t, tuples[i], u);
      assert j != i;
      assert rest[if j < i then j else j - 1] == tuples[j];
    }
  }

  /** Removing a tuple keeps the invariant, makes exactly that tuple invalid, and disconnects when it was the last. */
  lemma RemoveIsValid(c: Ice, t: Tuple, u: Tuple)
    requires Valid(c)
    ensures var d := RemoveTuple(c, t);
            && Valid(d)
            && (d.state == c.state || (d.state.Disconnected? && d.tuples == [] && c.tuples != []))
            && (Stored(d.tuples, u) <==> Stored(c.tuples, u) && !Compare(t, u))
  {
    hide Distinct, Compare, Stored, Find;
    var i := Find(c.tuples, t);
    if i < |c.tuples| {
      Without(c.tuples, i, t, u);
      var rest := c.tuples[..i] + c.tuples[i + 1..];
      assert rest == [] ==> c.selected == Some(c.tuples[i]);
    } else {
      NotFound(c.tuples, t, u);
    }
  }

  lemma NotFound(tuples: seq<Tuple>, t: Tuple, u: Tuple)
    requires Find(tuples, t) == |tuples|
    ensures Compare(t, u) ==> !Stored(tuples, u)
  {
    if Compare(t, u) && Stored(tuples, u) {
      var j :| 0 <= j < |tuples| && Compare(tuples[j], u);
      CompareIsEquivalence(t, u, t);
      CompareIsEquivalence(tuples[j], u, t);
    }
  }

  lemma ForceIsValid(c: Ice, t: Tuple)
    requires Valid(c) && IsValidTuple(c, t)
    ensures var d := ForceSelectedTuple(c, t);
            Valid(d) && d.state == c.state && d.tuples == c.tuples && Compare(d.selected.value, t)
  {
    hide Distinct, Compare;
    HasTupleFinds(c, t);
  }

  // ----- Runs

  datatype Event = Handle(tuple: Tuple, hasUseCandidate: bool) | Remove(tuple: Tuple) | Force(tuple: Tuple)

  /** A tuple is forced only after it was found valid. */
  function Step(c: Ice, e: Event): Ice
  {
    match e
    case Handle(t, hasUseCandidate) => HandleTuple(c, t, hasUseCandidate)
    case Remove(t) => RemoveTuple(c, t)
    case Force(t) => if IsValidTuple(c, t) then ForceSelectedTuple(c, t) else c
  }

  function Run(es: seq<Event>): Ice
  {
    if es == [] then INITIAL else Step(Run(es[..|es| - 1]), es[|es| - 1])
  }

  /** Of the events about this tuple, the last one handles it. */
  predicate LastHandled(es: seq<Event>, u: Tuple)
  {
    if es == [] then false
    else
      var e := es[|es| - 1];
      if e.Handle? && Compare(e.tuple, u) then true
      else if e.Remove? && Compare(e.tuple, u) then false
      else LastHandled(es[..|es| - 1], u)
  }

  /** The invariant holds in every reachable state, so that no assertion of HandleTuple fails, and a tuple is valid
      exactly when it was handled after it was last removed. */
  lemma {:induction false} RunIsValid(es: seq<Event>, u: Tuple)
    ensures Valid(Run(es))
    ensures IsValidTuple(Run(es), u) <==> LastHandled(es, u)
    decreases |es|
  {
    hide Valid, HandleTuple, RemoveTuple, ForceSelectedTuple, HasTuple, Compare, Stored, IsValidTuple;
    if es == [] {
      InitialIsValid(u);
    } else {
      var c, e := Run(es[..|es| - 1]), es[|es| - 1];
      RunIsValid(es[..|es| - 1], u);
      HasTupleFinds(c, u);
      StepIsValid(c, e, u);
      HasTupleFinds(Step(c, e), u);
    }
  }

  lemma InitialIsValid(u: Tuple)
    ensures Valid(INITIAL) && !IsValidTuple(INITIAL, u)
  {
  }

  lemma StepIsValid(c: Ice, e: Event, u: Tuple)
    requires Valid(c)
    ensures var d := Step(c, e);
            && Valid(d)
            && (Stored(d.tuples, u) <==>
                  (e.Handle? && Compare(e.tuple, u)) || (!(e.Remove? && Compare(e.tuple, u)) && Stored(c.tuples, u)))
    ensures Advances(c.state, Step(c, e).state)
  {
    hide Distinct, Compare, Stored, Find, RemoveTuple, ForceSelectedTuple;
    match e
    case Handle(t, hasUseCandidate) => HandleIsValid(c, t, hasUseCandidate, u);
    case Remove(t) => RemoveIsValid(c, t, u);
    case Force(t) => if IsValidTuple(c, t) { ForceIsValid(c, t); }
  }

  /** NEW is not entered again and not left for DISCONNECTED, and COMPLETED is only left when disconnected. */
  predicate Advances(before: IceState, after: IceState)
  {
    && (after.New? ==> before.New?)
    && (before.Completed? ==> after.Completed? || after.Disconnected?)
    && (before.New? ==> !after.Disconnected?)
  }

  // ----- The listener

  /** The state and the selected tuple as the listener knows them; a disconnection ends the selection. */
  function StateNotified(notices: seq<Notice>): IceState
  {
    if notices == [] then New
    else
      var last := notices[|notices| - 1];
      if last.State? then last.state else StateNotified(notices[..|notices| - 1])
  }

  function SelectionNotified(notices: seq<Notice>): Option<Tuple>
  {
    if notices == [] then None
    else
      var last := notices[|notices| - 1];
      if last.Selected? then Some(last.tuple)
      else if last.state.Disconnected? then None
      else SelectionNotified(notices[..|notices| - 1])
  }

  predicate ListenerKnows(c: Ice)
  {
    StateNotified(c.notices) == c.state && SelectionNotified(c.notices) == c.selected
  }

  lemma Notified(notices: seq<Notice>, n: Notice)
    ensures StateNotified(notices + [n]) == if n.State? then n.state else StateNotified(notices)
    ensures SelectionNotified(notices + [n]) ==
            if n.Selected? then Some(n.tuple) else if n.state.Disconnected? then None else SelectionNotified(notices)
  {
    assert (notices + [n])[..|notices|] == notices;
  }

  lemma SelectIsNotified(c: Ice, t: Tuple)
    requires StateNotified(c.notices) == c.state
    requires c.selected == Some(t) ==> SelectionNotified(c.notices) == c.selected
    ensures ListenerKnows(SetSelectedTuple(c, t))
  {
    hide StateNotified, SelectionNotified;
    Notified(c.notices, Selected(t));
  }

  lemma EnterIsNotified(c: Ice, state: IceState)
    requires SelectionNotified(c.notices) == c.selected || state.Disconnected?
    requires state.Disconnected? ==> c.selected.None?
    ensures ListenerKnows(EnterState(c, state))
  {
    hide StateNotified, SelectionNotified;
    Notified(c.notices, State(state));
  }

  /** In every reachable state the listener knows the state and the selected tuple. */
  lemma {:induction false} RunIsNotified(es: seq<Event>)
    ensures ListenerKnows(Run(es))
    decreases |es|
  {
    hide HandleTuple, RemoveTuple, ForceSelectedTuple, HasTuple, StateNotified, SelectionNotified;
    if es == [] {
      NothingNotified();
    } else {
      RunIsNotified(es[..|es| - 1]);
      StepIsNotified(Run(es[..|es| - 1]), es[|es| - 1]);
    }
  }

  lemma NothingNotified()
    ensures ListenerKnows(INITIAL)
  {
  }

  lemma StepIsNotified(c: Ice, e: Event)
    requires ListenerKnows(c)
    ensures ListenerKnows(Step(c, e))
  {
    hide StateNotified, SelectionNotified, HasTuple, SetSelectedTuple, EnterState, Find;
    match e
    case Handle(t, hasUseCandidate) =>
      var stored := HasTuple(c, t);
      var target := if hasUseCandidate then Completed else Connected;
      SelectIsNotified(AddTuple(c, t), t);
      EnterIsNotified(SetSelectedTuple(AddTuple(c, t), t), target);
      if stored.Some? {
        SelectIsNotified(c, stored.value);
        EnterIsNotified(SetSelectedTuple(c, stored.value), target);
      }
    case Remove(t) =>
      var i := Find(c.tuples, t);
      if i < |c.tuples| {
        var rest := c.tuples[..i] + c.tuples[i + 1..];
        var d := c.(tuples := rest, selected := None);
        if rest != [] {
          SelectIsNotified(d, rest[0]);
        } else {
          EnterIsNotified(d, Disconnected);
        }
      }
    case Force(t) =>
      if IsValidTuple(c, t) {
        SelectIsNotified(c, HasTuple(c, t).value);
      }
  }

  // ----- The server with its list

  /** An element of the list; the selected tuple is a pointer to one. */
  class StoredTuple {
    const tuple: Tuple

    constructor (tuple: Tuple)
      ensures this.tuple == tuple
    {
      this.tuple := tuple;
    }
  }

  function TuplesOf(list: seq<StoredTuple>): (r: seq<Tuple>)
    ensures |r| == |list|
    ensures forall i :: 0 <= i < |r| ==> r[i] == list[i].tuple
  {
    seq(|list|, i requires 0 <= i < |list| => list[i].tuple)
  }

  class IceServer {
    var state: IceState
    var tuples: seq<StoredTuple>
    var selectedTuple: StoredTuple?
    /** What the listener was told. */
    var notices: seq<Notice>

    ghost function Value(): Ice
      reads this
    {
      Ice(state, TuplesOf(tuples), if selectedTuple == null then None else Some(selectedTuple.tuple), notices)
    }

    /** The selected tuple is an element of the list. */
    ghost predicate Sound()
      reads this
    {
      && Valid(Value())
      && (selectedTuple != null ==> selectedTuple in tuples)
    }

    constructor ()
      ensures Sound() && Value() == INITIAL
    {
      state, tuples, selectedTuple, notices := New, [], null, [];
    }

    /** Elements of the list with the same tuple are the same element. */
    lemma SameElement(a: StoredTuple, b: StoredTuple)
      requires Distinct(TuplesOf(tuples)) && a in tuples && b in tuples && a.tuple == b.tuple
      ensures a == b
    {
      var i :| 0 <= i < |tuples| && tuples[i] == a;
      var j :| 0 <= j < |tuples| && tuples[j] == b;
      var x, y := TuplesOf(tuples)[i], TuplesOf(tuples)[j];
      CompareIsEquivalence(x, y, x);
      assert Compare(x, y) && Compare(y, x);
      assert i == j;
    }

    method FindTuple(t: Tuple) returns (i: nat)
      ensures i == Find(TuplesOf(tuples), t)
    {
      ghost var all := TuplesOf(tuples);
      i := 0;
      while i < |tuples|
        invariant i <= |tuples|
        invariant forall j :: 0 <= j < i ==> !Compare(all[j], t)
      {
        if Compare(tuples[i].tuple, t) {
          FindIs(all, t, i);
          return;
        }
        i := i + 1;
      }
      FindIs(all, t, i);
    }

    method GetTuple(t: Tuple) returns (stored: StoredTuple?)
      ensures stored == null <==> HasTuple(Value(), t).None?
      ensures stored != null ==> HasTuple(Value(), t) == Some(stored.tuple)
      ensures stored != null ==> stored == selectedTuple || stored in tuples
    {
      if selectedTuple == null {
        return null;
      }
      if Compare(selectedTuple.tuple, t) {
        return selectedTuple;
      }
      var i := FindTuple(t);
      stored := if i < |tuples| then tuples[i] else null;
    }

    method DoAddTuple(t: Tuple) returns (stored: StoredTuple)
      modifies this`tuples
      ensures fresh(stored) && stored.tuple == t && tuples == [stored] + old(tuples)
      ensures Value() == AddTuple(old(Value()), t)
    {
      stored := new StoredTuple(t);
      tuples := [stored] + tuples;
      assert TuplesOf(tuples) == [t] + TuplesOf(old(tuples));
    }

    /** The comparison is one of pointers. */
    method DoSetSelectedTuple(stored: StoredTuple)
      requires selectedTuple != null && selectedTuple.tuple == stored.tuple ==> selectedTuple == stored
      modifies this`selectedTuple, this`notices
      ensures selectedTuple == stored && Value() == SetSelectedTuple(old(Value()), stored.tuple)
    {
      if stored == selectedTuple {
        return;
      }
      selectedTuple := stored;
      notices := notices + [Selected(stored.tuple)];
    }

    method DoEnterState(newState: IceState)
      modifies this`state, this`notices
      ensures Value() == EnterState(old(Value()), newState)
    {
      state := newState;
      notices := notices + [State(newState)];
    }

    /** The assertions of the source stand where they stand there. */
    method DoHandleTuple(t: Tuple, hasUseCandidate: bool)
      requires Sound()
      modifies this
      ensures Sound() && Value() == HandleTuple(old(Value()), t, hasUseCandidate)
    {
      hide Distinct, Compare, Find;
      HandleIsValid(Value(), t, hasUseCandidate, t);
      match state
      case New =>
        assert tuples == [] && selectedTuple == null;
        var stored := DoAddTuple(t);
        DoSetSelectedTuple(stored);
        DoEnterState(if hasUseCandidate then Completed else Connected);
      case Disconnected =>
        assert tuples == [] && selectedTuple == null;
        var stored := DoAddTuple(t);
        DoSetSelectedTuple(stored);
        DoEnterState(if hasUseCandidate then Completed else Connected);
      case Connected =>
        assert tuples != [] && selectedTuple != null;
        if hasUseCandidate {
          SelectStoredTuple(t);
          DoEnterState(Completed);
        } else {
          StoreTuple(t);
        }
      case Completed =>
        assert tuples != [] && selectedTuple != null;
        if hasUseCandidate {
          SelectStoredTuple(t);
        } else {
          StoreTuple(t);
        }
    }

    method StoreTuple(t: Tuple)
      requires selectedTuple != null ==> selectedTuple in tuples
      modifies this`tuples
      ensures selectedTuple != null ==> selectedTuple in tuples
      ensures Value() == Store(old(Value()), t)
    {
      hide HasTuple;
      var stored := GetTuple(t);
      if stored == null {
        stored := DoAddTuple(t);
      }
    }

    method SelectStoredTuple(t: Tuple)
      requires Sound()
      modifies this`tuples, this`selectedTuple, this`notices
      ensures selectedTuple != null && selectedTuple in tuples
      ensures Value() == SelectStored(old(Value()), t)
    {
      hide Compare, Find, Distinct;
      HasTupleFinds(Value(), t);
      CompareIsEquivalence(t, t, t);
      var stored := GetTuple(t);
      if stored == null {
        AllFound();
        stored := DoAddTuple(t);
      } else if selectedTuple.tuple == stored.tuple {
        SameElement(selectedTuple, stored);
      }
      DoSetSelectedTuple(stored);
    }

    lemma AllFound()
      requires Valid(Value())
      ensures selectedTuple != null ==> HasTuple(Value(), selectedTuple.tuple).Some?
    {
    }

    lemma ValidIsDistinct(c: Ice)
      requires Valid(c)
      ensures Distinct(c.tuples)
      ensures c.tuples == [] ==> c.selected.None?
    {
    }

    method DoRemoveTuple(t: Tuple)
      requires Sound()
      modifies this
      ensures Sound() && Value() == RemoveTuple(old(Value()), t)
    {
      hide Distinct, Compare, Find, Valid;
      RemoveIsValid(Value(), t, t);
      ValidIsDistinct(Value());
      var i := FindTuple(t);
      if i == |tuples| {
        return;
      }
      var removed := tuples[i];
      if removed != selectedTuple && selectedTuple != null && selectedTuple.tuple == removed.tuple {
        SameElement(removed, selectedTuple);
      }
      ghost var list := tuples;
      tuples := tuples[..i] + tuples[i + 1..];
      assert TuplesOf(tuples) == TuplesOf(list)[..i] + TuplesOf(list)[i + 1..];
      if removed != selectedTuple {
        return;
      }
      selectedTuple := null;
      if tuples != [] {
        DoSetSelectedTuple(tuples[0]);
      } else {
        DoEnterState(Disconnected);
      }
    }

    method DoForceSelectedTuple(t: Tuple)
      requires Sound() && IsValidTuple(Value(), t)
      modifies this`selectedTuple, this`notices
      ensures Sound() && Value() == ForceSelectedTuple(old(Value()), t)
    {
      hide Distinct, Compare, Find;
      ForceIsValid(Value(), t);
      assert selectedTuple != null;
      var stored := GetTuple(t);
      assert stored != null;
      if selectedTuple.tuple == stored.tuple {
        SameElement(selectedTuple, stored);
      }
      DoSetSelectedTuple(stored);
    }
  }

  lemma {:induction false} FindIs(tuples: seq<Tuple>, t: Tuple, i: nat)
    requires i <= |tuples| && (i < |tuples| ==> Compare(tuples[i], t))
    requires forall j :: 0 <= j < i ==> !Compare(tuples[j], t)
    ensures Find(tuples, t) == i
  {
    hide Compare;
    assert Find(tuples, t) >= i;
  }
}
