/** The sequential part of src/sequential.rs: the D flip-flop, whose output
    changes only on a clock tick, and the clock that ticks every registered
    component in order. The Rust clock holds `Box<dyn Tick>` values; the
    flip-flop is the only implementation, so the registry is a sequence of
    flip-flops. */
module Sequential {

  /** A Rust `panic!` is modelled as a `Panic` result carrying its message. */
  datatype Result<T> = Ok(value: T) | Panic(message: string)

  /** The message both clock accessors panic with. */
  const InvalidIndex: string := "Invalid index passed"

  // ---------------------------------------------------------------------
  // D flip-flop

  /** `state` is the output; `nextState` is the input latched by
      `set_state`, which becomes the output at the next tick. */
  datatype Dff = Dff(state: bool, nextState: bool)

  /** `DFF::new`: output and pending input both low, so the flip-flop reads
      false now and after any tick. */
  function NewDff(): (d: Dff)
    ensures !DffGetState(d)
    ensures !DffGetState(DffTick(d))
  {
    Dff(false, false)
  }

  /** `get_state`: the current output. */
  function DffGetState(d: Dff): bool
  {
    d.state
  }

  /** `set_state`: latches the input. The output does not change until the
      next tick, and that tick makes the output the latched value. */
  function DffSetState(d: Dff, s: bool): (r: Dff)
    ensures DffGetState(r) == DffGetState(d)
    ensures DffGetState(DffTick(r)) == s
  {
    d.(nextState := s)
  }

  /** `get_state` reads the output slot and nothing else: it ignores the
      pending input, and it sees whatever the output slot holds. */
  lemma DffGetStateReadsOutput(d: Dff, s: bool)
    ensures DffGetState(d.(nextState := s)) == DffGetState(d)
    ensures DffGetState(d.(state := s)) == s
  {
  }

  /** `update_state`: the output takes the latched input, which stays
      latched. */
  function DffUpdateState(d: Dff): (r: Dff)
    ensures DffGetState(r) == d.nextState
    ensures r.nextState == d.nextState
  {
    d.(state := d.nextState)
  }

  /** `Tick::tick` for `DFF`: one clock edge is one `update_state`. */
  function DffTick(d: Dff): (r: Dff)
    ensures DffGetState(r) == d.nextState
    ensures r.nextState == d.nextState
  {
    DffUpdateState(d)
  }

  /** Only the last `set_state` before a tick matters. */
  lemma DffLastWriteWins(d: Dff, a: bool, b: bool)
    ensures DffSetState(DffSetState(d, a), b) == DffSetState(d, b)
    ensures DffGetState(DffTick(DffSetState(DffSetState(d, a), b))) == b
  {
  }

  /** Without a new `set_state`, a second tick changes nothing. */
  lemma DffTickIdempotent(d: Dff)
    ensures DffTick(DffTick(d)) == DffTick(d)
  {
  }

  /** Setting a flip-flop to the value it already latches changes nothing. */
  lemma DffSetSame(d: Dff)
    ensures DffSetState(d, d.nextState) == d
  {
  }

  // ---------------------------------------------------------------------
  // Clock

  /** `isTick` selects the label the next tick prints ("Tick" when true,
      "Tock" when false); `components` is the registry, in registration
      order. */
  datatype Clock = Clock(isTick: bool, components: seq<Dff>)

  /** `Clock::new`: an empty registry, so every index is invalid. */
  function NewClock(): (c: Clock)
    ensures !c.isTick
    ensures forall i: nat :: GetStateOfComponent(c, i) == Panic(InvalidIndex)
  {
    Clock(false, [])
  }

  /** `register`: appends the component; it gets the next free index and the
      components already registered keep theirs. */
  function Register(c: Clock, d: Dff): (r: Clock)
    ensures r.isTick == c.isTick
    ensures |r.components| == |c.components| + 1
    ensures r.components[|c.components|] == d
    ensures forall i :: 0 <= i < |c.components| ==> r.components[i] == c.components[i]
    ensures GetStateOfComponent(r, |c.components|) == Ok(DffGetState(d))
    ensures forall i: nat :: i < |c.components| ==>
      GetStateOfComponent(r, i) == GetStateOfComponent(c, i)
  {
    Clock(c.isTick, c.components + [d])
  }

  /** The component loop of `tick`: ticks each component in order. */
  function TickAll(ds: seq<Dff>): (r: seq<Dff>)
    ensures |r| == |ds|
    ensures forall i :: 0 <= i < |ds| ==> r[i] == DffTick(ds[i])
  {
    if |ds| == 0 then [] else [DffTick(ds[0])] + TickAll(ds[1..])
  }

  /** `tick`: every component's output becomes its latched input, and the
      label flips between "Tick" and "Tock". */
  function ClockTick(c: Clock): (r: Clock)
    ensures r.isTick == !c.isTick
    ensures |r.components| == |c.components|
    ensures forall i :: 0 <= i < |c.components| ==> r.components[i] == DffTick(c.components[i])
    ensures forall i: nat :: i < |c.components| ==>
      GetStateOfComponent(r, i) == Ok(c.components[i].nextState)
  {
    Clock(!c.isTick, TickAll(c.components))
  }

  /** `get_state_of_component`: the output of the component at `index`,
      or a panic when there is none. */
  function GetStateOfComponent(c: Clock, index: nat): (r: Result<bool>)
    ensures r.Ok? <==> index < |c.components|
    ensures r.Ok? ==> r.value == DffGetState(c.components[index])
    ensures r.Panic? ==> r.message == InvalidIndex
  {
    if index < |c.components| then Ok(DffGetState(c.components[index]))
    else Panic(InvalidIndex)
  }

  /** `set_state_of_component`: latches `state` into the component at
      `index`, or panics when there is none. No output changes before the
      next tick, and no other component changes at all. */
  function SetStateOfComponent(c: Clock, index: nat, state: bool): (r: Result<Clock>)
    ensures r.Ok? <==> index < |c.components|
    ensures r.Panic? ==> r.message == InvalidIndex
    ensures r.Ok? ==> r.value.isTick == c.isTick
    ensures r.Ok? ==> |r.value.components| == |c.components|
    ensures r.Ok? ==> forall i: nat :: GetStateOfComponent(r.value, i) == GetStateOfComponent(c, i)
    ensures r.Ok? ==> forall i: nat :: i < |c.components| && i != index ==>
      r.value.components[i] == c.components[i]
    ensures r.Ok? ==> GetStateOfComponent(ClockTick(r.value), index) == Ok(state)
  {
    if index < |c.components| then
      Ok(Clock(c.isTick, c.components[index := DffSetState(c.components[index], state)]))
    else
      Panic(InvalidIndex)
  }

  /** n ticks in a row. */
  function Ticks(c: Clock, n: nat): Clock
  {
    if n == 0 then c else ClockTick(Ticks(c, n - 1))
  }

  /** The label alternates: after n ticks it has flipped n times. */
  lemma {:induction false} TicksParity(c: Clock, n: nat)
    ensures Ticks(c, n).isTick == (if n % 2 == 0 then c.isTick else !c.isTick)
    ensures |Ticks(c, n).components| == |c.components|
  {
    if n > 0 {
      TicksParity(c, n - 1);
    }
  }

  /** Without new input, every tick after the first leaves the components
      as the first tick left them. */
  lemma {:induction false} TicksSettle(c: Clock, n: nat)
    requires n >= 1
    ensures Ticks(c, n).components == TickAll(c.components)
  {
    if n > 1 {
      TicksSettle(c, n - 1);
      TickAllIdempotent(c.components);
    }
  }

  /** Ticking every component twice is ticking it once. */
  lemma TickAllIdempotent(ds: seq<Dff>)
    ensures TickAll(TickAll(ds)) == TickAll(ds)
  {
    var once := TickAll(ds);
    var twice := TickAll(once);
    forall i | 0 <= i < |ds|
      ensures twice[i] == once[i]
    {
      DffTickIdempotent(ds[i]);
    }
  }

  /** Two writes to the same component before a tick: the second wins. */
  lemma ClockLastWriteWins(c: Clock, index: nat, a: bool, b: bool)
    requires index < |c.components|
    ensures SetStateOfComponent(SetStateOfComponent(c, index, a).value, index, b)
      == SetStateOfComponent(c, index, b)
  {
    var ds := c.components;
    var one := SetStateOfComponent(c, index, a).value.components;
    var two := SetStateOfComponent(SetStateOfComponent(c, index, a).value, index, b).value.components;
    var direct := SetStateOfComponent(c, index, b).value.components;
    assert two == direct by {
      forall i | 0 <= i < |ds|
        ensures two[i] == direct[i]
      {
        if i == index {
          DffLastWriteWins(ds[i], a, b);
        }
      }
    }
  }

  /** The states `main` in src/main.rs prints, or the panic it would stop
      with: one flip-flop registered, set high, read, ticked and read twice,
      set low, ticked and read. */
  function MainTrace(): Result<seq<bool>>
  {
    var c1 := Register(NewClock(), NewDff());
    match SetStateOfComponent(c1, 0, true)
    case Panic(m) => Panic(m)
    case Ok(c2) =>
      var c3 := ClockTick(c2);
      var c4 := ClockTick(c3);
      match SetStateOfComponent(c4, 0, false)
      case Panic(m) => Panic(m)
      case Ok(c5) =>
        var c6 := ClockTick(c5);
        var shown := [GetStateOfComponent(c2, 0), GetStateOfComponent(c3, 0),
                      GetStateOfComponent(c4, 0), GetStateOfComponent(c6, 0)];
        if forall k | 0 <= k < |shown| :: shown[k].Ok? then
          Ok(seq(|shown|, k requires 0 <= k < |shown| => shown[k].value))
        else
          Panic(InvalidIndex)
  }

  /** `main` does not panic, and prints false, true, true, false: the first
      write shows only after a tick, and so does the second. */
  lemma MainPrints()
    ensures MainTrace() == Ok([false, true, true, false])
  {
    var c1 := Register(NewClock(), NewDff());
    var c2 := SetStateOfComponent(c1, 0, true).value;
    var c3 := ClockTick(c2);
    var c4 := ClockTick(c3);
    var c5 := SetStateOfComponent(c4, 0, false).value;
    var c6 := ClockTick(c5);
    assert GetStateOfComponent(c2, 0) == Ok(false);
    assert GetStateOfComponent(c3, 0) == Ok(true);
    assert GetStateOfComponent(c4, 0) == Ok(true);
    assert GetStateOfComponent(c6, 0) == Ok(false);
    var shown := [GetStateOfComponent(c2, 0), GetStateOfComponent(c3, 0),
                  GetStateOfComponent(c4, 0), GetStateOfComponent(c6, 0)];
    assert seq(|shown|, k requires 0 <= k < |shown| => shown[k].value) == [false, true, true, false];
  }
}
