/** SeqManager<uint16_t>: renumbers the packets of a stream that is switched and thinned out on the way. */
module SeqManagers {
  import opened Seq16
  import opened Bytes

  datatype State = State(base: u16, maxOutput: u16, maxInput: u16, dropped: seq<u16>)

  const INITIAL := State(0, 0, 0, [])

  function Sync(m: State, input: u16): State
  {
    State(Ahead(m.maxOutput, input), m.maxOutput, input, [])
  }

  function Drop(m: State, input: u16): State
  {
    if Higher(input, m.maxInput) then m.(dropped := InsertKey(m.dropped, input)) else m
  }

  function Offset(m: State, offset: u16): State
  {
    m.(base := Wrap(m.base + offset))
  }

  /** `count_if(i < input)`: the comparison is the plain one. */
  function CountBelow(keys: seq<u16>, input: u16): (r: nat)
    ensures r <= |keys|
  {
    if keys == [] then 0 else (if keys[0] < input then 1 else 0) + CountBelow(keys[1..], input)
  }

  /** The drops that Input still remembers. */
  function Recent(m: State, input: u16): seq<u16>
  {
    if m.dropped == [] then [] else m.dropped[LowerBound(m.dropped, Ahead(input, MAX / 2))..]
  }

  /** None is the refusal of a dropped number. */
  function Input(m: State, input: u16): (State, Option<u16>)
  {
    var dropped := Recent(m, input);
    if input in dropped then (m.(dropped := dropped), None)
    else
      var base := if m.dropped == [] then m.base else Wrap(m.base - CountBelow(dropped, input));
      var output := Wrap(input + base);
      (m.(dropped := dropped,
          maxInput := if Ahead(input, m.maxInput) < MAX / 2 then input else m.maxInput,
          maxOutput := if Ahead(output, m.maxOutput) < MAX / 2 then output else m.maxOutput),
       Some(output))
  }

  class SeqManager {
    var base: u16
    var maxOutput: u16
    var maxInput: u16
    var dropped: seq<u16>

    ghost function Value(): State
      reads this
    {
      State(base, maxOutput, maxInput, dropped)
    }

    constructor ()
      ensures Value() == INITIAL
    {
      base, maxOutput, maxInput, dropped := 0, 0, 0, [];
    }

    method DoSync(input: u16)
      modifies this
      ensures Value() == Sync(old(Value()), input)
    {
      base := Ahead(maxOutput, input);
      maxInput := input;
      dropped := [];
    }

    method DoDrop(input: u16)
      modifies this`dropped
      ensures Value() == Drop(old(Value()), input)
    {
      if Higher(input, maxInput) {
        dropped := InsertKey(dropped, input);
      }
    }

    method DoOffset(offset: u16)
      modifies this`base
      ensures Value() == Offset(old(Value()), offset)
    {
      base := Wrap(base + offset);
    }

    /** On a refusal the caller's variable keeps what it held. */
    method DoInput(input: u16, held: u16) returns (ok: bool, output: u16)
      modifies this
      ensures var (m, r) := Input(old(Value()), input);
              Value() == m && ok == r.Some? && output == if ok then r.value else held
    {
      hide Wrap;
      var b := base;
      output := held;
      if dropped != [] {
        dropped := dropped[LowerBound(dropped, Ahead(input, MAX / 2))..];
        if input in dropped {
          return false, output;
        }
        b := Wrap(b - CountBelow(dropped, input));
      }
      output := Wrap(input + b);
      if Ahead(input, maxInput) < MAX / 2 {
        maxInput := input;
      }
      if Ahead(output, maxOutput) < MAX / 2 {
        maxOutput := output;
      }
      return true, output;
    }
  }
}
