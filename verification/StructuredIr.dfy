/** The structured IR of a function body before flattening, and its meaning. */
module StructuredIr {
  import opened I64

  /** The condition operand of a branch: a value of the body, or the comparison a `for` makes. */
  datatype Cond =
    | CondValue(code: nat)
    | CountLess(count: nat, last: nat)

  /** A branch operand: a label of the flat list or, once the list is cut, a block of the function. */
  datatype Target =
    | ToLabel(name: nat)
    | ToBlock(index: nat)

  /** A value in a block list.  Straight-line instructions are codes whose meaning is a parameter.
      Labels, jumps, branches and the three counter instructions are made by flattening.  */
  datatype Instr =
    | Op(code: nat)
    | Capture(slot: nat, code: nat)
    | Nested(body: seq<Instr>)
    | If(cond: nat, thenBody: seq<Instr>, elseBody: seq<Instr>)
    | While(loop: nat, condBody: seq<Instr>, cond: nat, body: seq<Instr>)
    | For(loop: nat, index: nat, first: nat, last: nat, body: seq<Instr>, gpu: bool)
    | Break(loop: nat)
    | Continue(loop: nat)
    | Return(value: nat)
    | Label(id: nat)
    | Jump(target: Target)
    | CondBranch(test: Cond, onTrue: Target, onFalse: Target)
    | StartCount(count: nat, first: nat)
    | BumpCount(count: nat)
    | WriteIndex(index: nat, count: nat)

  /** What the straight-line instructions mean, over any user-visible state S (variables, memory,
      output): the step an instruction makes, the truth of a condition value, the number a
      `for` bound evaluates to, and the write of a `for` index variable. */
  datatype Meaning<!S> = Meaning(
    step: (nat, S) -> S,
    test: (nat, S) -> bool,
    number: (nat, S) -> i64,
    putIndex: (nat, i64, S) -> S)

  /** The user state and the private local variables that hold captured `for` bounds. */
  datatype State<S> = State(user: S, slots: map<nat, i64>)

  function Slot<S>(st: State<S>, slot: nat): i64 {
    if slot in st.slots then st.slots[slot] else 0
  }

  function StepOp<S>(m: Meaning<S>, code: nat, st: State<S>): State<S> {
    st.(user := m.step(code, st.user))
  }

  function StepCapture<S>(m: Meaning<S>, slot: nat, code: nat, st: State<S>): State<S> {
    st.(slots := st.slots[slot := m.number(code, st.user)])
  }

  function StepIndex<S>(m: Meaning<S>, index: nat, i: i64, st: State<S>): State<S> {
    st.(user := m.putIndex(index, i, st.user))
  }

  datatype Outcome<S> =
    | Normal(st: State<S>)
    | Broke(loop: nat, st: State<S>)
    | Continued(loop: nat, st: State<S>)
    | Returned(value: nat, st: State<S>)
    | OutOfFuel

  /** Runs a body.  Fuel bounds loop iterations only, so a body diverges exactly when every
      amount of fuel runs out. */
  function Exec<S>(m: Meaning<S>, body: seq<Instr>, st: State<S>, fuel: nat): Outcome<S>
    decreases fuel, body, 1
  {
    if body == [] then Normal(st)
    else
      match ExecOne(m, body[0], st, fuel)
      case Normal(st') => Exec(m, body[1..], st', fuel)
      case o => o
  }

  function ExecOne<S>(m: Meaning<S>, instr: Instr, st: State<S>, fuel: nat): Outcome<S>
    decreases fuel, instr, 2
  {
    match instr
    case Op(code) => Normal(StepOp(m, code, st))
    case Capture(slot, code) => Normal(StepCapture(m, slot, code, st))
    case Nested(body) => Exec(m, body, st, fuel)
    case If(cond, thenBody, elseBody) =>
      if m.test(cond, st.user) then Exec(m, thenBody, st, fuel) else Exec(m, elseBody, st, fuel)
    case While(_, _, _, _) => ExecWhile(m, instr, st, fuel)
    case For(_, _, first, last, _, _) =>
      ExecFor(m, instr, Slot(st, first), Slot(st, last), st, fuel)
    case Break(loop) => Broke(loop, st)
    case Continue(loop) => Continued(loop, st)
    case Return(value) => Returned(value, st)
    case _ => Normal(st)
  }

  function ExecWhile<S>(m: Meaning<S>, w: Instr, st: State<S>, fuel: nat): Outcome<S>
    requires w.While?
    decreases fuel, w, 0
  {
    if fuel == 0 then OutOfFuel
    else
      match Exec(m, w.condBody, st, fuel - 1)
      case Normal(st1) =>
        if !m.test(w.cond, st1.user) then Normal(st1)
        else
          (match Exec(m, w.body, st1, fuel - 1)
           case Normal(st2) => ExecWhile(m, w, st2, fuel - 1)
           case Continued(loop, st2) =>
             if loop == w.loop then ExecWhile(m, w, st2, fuel - 1) else Continued(loop, st2)
           case Broke(loop, st2) => if loop == w.loop then Normal(st2) else Broke(loop, st2)
           case o => o)
      case o => o
  }

  /** Runs a `for` from index i: the bounds were fixed on entry, and the index variable is
      rewritten at the start of every iteration. */
  function ExecFor<S>(m: Meaning<S>, f: Instr, i: i64, last: i64, st: State<S>, fuel: nat): Outcome<S>
    requires f.For?
    decreases fuel, f, 0
  {
    if fuel == 0 then OutOfFuel
    else if i >= last then Normal(st)
    else
      match Exec(m, f.body, StepIndex(m, f.index, i, st), fuel - 1)
      case Normal(st2) => ExecFor(m, f, i + 1, last, st2, fuel - 1)
      case Continued(loop, st2) =>
        if loop == f.loop then ExecFor(m, f, i + 1, last, st2, fuel - 1) else Continued(loop, st2)
      case Broke(loop, st2) => if loop == f.loop then Normal(st2) else Broke(loop, st2)
      case o => o
  }

  /** The slots a body captures bounds into. */
  ghost predicate Captures(body: seq<Instr>, slot: nat)
    decreases body, 1
  {
    body != [] && (CapturesOne(body[0], slot) || Captures(body[1..], slot))
  }

  ghost predicate CapturesOne(instr: Instr, slot: nat)
    decreases instr, 0
  {
    match instr
    case Capture(s, _) => s == slot
    case Nested(body) => Captures(body, slot)
    case If(_, a, b) => Captures(a, slot) || Captures(b, slot)
    case While(_, c, _, b) => Captures(c, slot) || Captures(b, slot)
    case For(_, _, _, _, b, _) => Captures(b, slot)
    case _ => false
  }

  /** Bodies as lowering makes them: every Break and Continue names an enclosing loop, no loop is
      inside itself, a `for`'s captured last bound is not captured again inside it, a `for` annotated
      for the GPU is left by no outer Break, and nothing that only flattening makes is present. */
  ghost predicate Scoped(body: seq<Instr>, loops: set<nat>)
    decreases body, 1
  {
    body == [] || (ScopedOne(body[0], loops) && Scoped(body[1..], loops))
  }

  ghost predicate ScopedOne(instr: Instr, loops: set<nat>)
    decreases instr, 0
  {
    match instr
    case Op(_) => true
    case Capture(_, _) => true
    case Nested(body) => Scoped(body, loops)
    case If(_, a, b) => Scoped(a, loops) && Scoped(b, loops)
    case While(loop, c, _, b) => loop !in loops && Scoped(c, loops) && Scoped(b, loops + {loop})
    case For(loop, _, _, last, b, gpu) =>
      loop !in loops && !Captures(b, last) && Scoped(b, if gpu then {loop} else loops + {loop})
    case Break(loop) => loop in loops
    case Continue(loop) => loop in loops
    case Return(_) => true
    case _ => false
  }

  /** No `for` of the body is annotated for the GPU. */
  ghost predicate HostOnly(body: seq<Instr>)
    decreases body, 1
  {
    body == [] || (HostOnlyOne(body[0]) && HostOnly(body[1..]))
  }

  ghost predicate HostOnlyOne(instr: Instr)
    decreases instr, 0
  {
    match instr
    case Nested(body) => HostOnly(body)
    case If(_, a, b) => HostOnly(a) && HostOnly(b)
    case While(_, c, _, b) => HostOnly(c) && HostOnly(b)
    case For(_, _, _, _, b, gpu) => !gpu && HostOnly(b)
    case _ => true
  }

  lemma {:induction false} ScopedAt(body: seq<Instr>, loops: set<nat>, i: nat)
    requires Scoped(body, loops) && i < |body|
    ensures ScopedOne(body[i], loops) && Scoped(body[..i], loops) && Scoped(body[i..], loops)
  {
    if i > 0 {
      ScopedAt(body[1..], loops, i - 1);
      assert body[..i][1..] == body[1..][..i - 1];
      assert body[i..] == body[1..][i - 1..];
    } else {
      assert body[0..] == body;
    }
  }

  ghost predicate KeepsSlot<S>(o: Outcome<S>, slot: nat, st: State<S>) {
    o.OutOfFuel? || Slot(o.st, slot) == Slot(st, slot)
  }

  /** A body that does not capture into a slot leaves it alone, however it ends. */
  lemma {:induction false} ExecKeepsSlot<S>(m: Meaning<S>, body: seq<Instr>, st: State<S>, fuel: nat, slot: nat)
    requires !Captures(body, slot)
    ensures KeepsSlot(Exec(m, body, st, fuel), slot, st)
    decreases fuel, body, 1
  {
    if body != [] {
      ExecOneKeepsSlot(m, body[0], st, fuel, slot);
      var o := ExecOne(m, body[0], st, fuel);
      if o.Normal? {
        ExecKeepsSlot(m, body[1..], o.st, fuel, slot);
      }
    }
  }

  lemma {:induction false} ExecOneKeepsSlot<S>(m: Meaning<S>, instr: Instr, st: State<S>, fuel: nat, slot: nat)
    requires !CapturesOne(instr, slot)
    ensures KeepsSlot(ExecOne(m, instr, st, fuel), slot, st)
    decreases fuel, instr, 2
  {
    match instr
    case Nested(body) => ExecKeepsSlot(m, body, st, fuel, slot);
    case If(_, a, b) =>
      ExecKeepsSlot(m, a, st, fuel, slot);
      ExecKeepsSlot(m, b, st, fuel, slot);
    case While(_, _, _, _) => ExecWhileKeepsSlot(m, instr, st, fuel, slot);
    case For(_, _, first, last, _, _) =>
      ExecForKeepsSlot(m, instr, Slot(st, first), Slot(st, last), st, fuel, slot);
    case _ =>
  }

  lemma {:induction false} ExecWhileKeepsSlot<S>(m: Meaning<S>, w: Instr, st: State<S>, fuel: nat, slot: nat)
    requires w.While? && !CapturesOne(w, slot)
    ensures KeepsSlot(ExecWhile(m, w, st, fuel), slot, st)
    decreases fuel, w, 0
  {
    if fuel > 0 {
      ExecKeepsSlot(m, w.condBody, st, fuel - 1, slot);
      var c := Exec(m, w.condBody, st, fuel - 1);
      if c.Normal? && m.test(w.cond, c.st.user) {
        ExecKeepsSlot(m, w.body, c.st, fuel - 1, slot);
        var b := Exec(m, w.body, c.st, fuel - 1);
        if !b.OutOfFuel? {
          ExecWhileKeepsSlot(m, w, b.st, fuel - 1, slot);
        }
      }
    }
  }

  lemma {:induction false} ExecForKeepsSlot<S>(m: Meaning<S>, f: Instr, i: i64, last: i64, st: State<S>, fuel: nat,
      slot: nat)
    requires f.For? && !CapturesOne(f, slot)
    ensures KeepsSlot(ExecFor(m, f, i, last, st, fuel), slot, st)
    decreases fuel, f, 0
  {
    if fuel > 0 && i < last {
      var st1 := StepIndex(m, f.index, i, st);
      ExecKeepsSlot(m, f.body, st1, fuel - 1, slot);
      var b := Exec(m, f.body, st1, fuel - 1);
      if !b.OutOfFuel? {
        ExecForKeepsSlot(m, f, i + 1, last, b.st, fuel - 1, slot);
      }
    }
  }
}
