/** Functions in the form the pointer lowering works on: nodes that name each other as operands, listed
    in blocks.  The variable-like nodes stand for places in memory. */
module PointerIr {
  import opened Wrappers

  /** A node is original, or was inserted in front of the k-th operand of a user: a dereference of a
      pointer, or a load. */
  datatype Id =
    | Orig(n: nat)
    | DerefOf(node: Id, user: Id, k: nat)
    | LoadOf(node: Id, user: Id, k: nat)

  datatype Kind =
    | Local
    | Field(f: nat)
    | Index
    | IndexPointer
    | Deref
    | AddressOf
    | Alloca
    | FieldPointer(f: nat)
    | ElementPointer
    | PointerElementPointer
    | Load
    | Store
    | Write
    | Constant(c: int)
    | Op(op: nat)
    | Jump(to: nat)
    | Branch(yes: nat, no: nat)
    | Return

  datatype Node = Node(kind: Kind, args: seq<Id>)

  datatype Program = Program(nodes: map<Id, Node>, blocks: seq<seq<Id>>)

  // ---------- memory ----------

  /** A pointer names a slot and a path of field numbers and indices inside it.  A place that was never
      written, or is not there, holds Undef. */
  datatype Val =
    | Undef
    | Int(i: int)
    | Pointer(slot: Id, path: seq<int>)
    | Aggregate(parts: map<int, Val>)

  type Mem = map<Id, Val>

  function Part(v: Val, i: int): Val {
    if v.Aggregate? && i in v.parts then v.parts[i] else Undef
  }

  function Project(v: Val, path: seq<int>): Val
    decreases |path|
  {
    if path == [] then v else Project(Part(v, path[0]), path[1..])
  }

  function Update(v: Val, path: seq<int>, w: Val): Val
    decreases |path|
  {
    if path == [] then w
    else Aggregate((if v.Aggregate? then v.parts else map[])[path[0] := Update(Part(v, path[0]), path[1..], w)])
  }

  function LoadAt(mem: Mem, a: Val): Val {
    if a.Pointer? && a.slot in mem then Project(mem[a.slot], a.path) else Undef
  }

  function StoreAt(mem: Mem, a: Val, v: Val): Option<Mem> {
    if a.Pointer? && a.slot in mem then Some(mem[a.slot := Update(mem[a.slot], a.path, v)]) else None
  }

  function FieldOf(a: Val, f: int): Val {
    if a.Pointer? then Pointer(a.slot, a.path + [f]) else Undef
  }

  function ElementOf(a: Val, i: Val): Val {
    if i.Int? then FieldOf(a, i.i) else Undef
  }

  /** Pointer arithmetic inside the array the pointer points into. */
  function OffsetOf(a: Val, i: Val): Val {
    if !(a.Pointer? && i.Int?) then Undef
    else if a.path == [] then (if i.i == 0 then a else Undef)
    else Pointer(a.slot, a.path[..|a.path| - 1] + [a.path[|a.path| - 1] + i.i])
  }

  // ---------- what a node takes from its operands ----------

  datatype State = State(env: map<Id, Val>, addr: map<Id, Val>, mem: Mem)

  /** Recorded: a variable-like node stands for the place it computed when it ran, and an address for the
      value it had when it was taken.  Defined: the same, and every place that is used is defined.  Lazy:
      what the lowering makes of it; a dereference is looked through by the nodes that extend its place,
      and an address by its users.  Strict: both, where they agree on a place that is defined. */
  datatype Mode = Recorded | Defined | Lazy | Strict

  datatype Effect = Effect(result: Val, mem: Mem) | Abort

  datatype Meaning = Meaning(op: (nat, seq<Val>, Mem) -> Effect, mode: Mode, freshLocals: bool)

  function Rank(o: Id): nat {
    if o.Orig? then o.n + 1 else 0
  }

  function Get(m: map<Id, Val>, o: Id): Option<Val> {
    if o in m then Some(m[o]) else None
  }

  predicate Has(p: Program, o: Id, k: Kind) {
    o in p.nodes && p.nodes[o].kind == k
  }

  predicate VariableKind(k: Kind) {
    k.Local? || k.Field? || k.Index? || k.IndexPointer? || k.Deref?
  }

  predicate VariableLike(p: Program, o: Id) {
    o in p.nodes && VariableKind(p.nodes[o].kind)
  }

  /** A one-operand node of that kind. */
  predicate Unary(p: Program, o: Id, k: Kind) {
    Has(p, o, k) && |p.nodes[o].args| == 1
  }

  /** A node whose value is kept in the environment. */
  predicate Plain(p: Program, o: Id) {
    o in p.nodes ==> !VariableKind(p.nodes[o].kind) && !p.nodes[o].kind.AddressOf? && !p.nodes[o].kind.Constant?
  }

  /** The pointer is the content of a variable-like node, perhaps through addresses of dereferences. */
  predicate RootVariable(p: Program, o: Id)
    decreases Rank(o)
  {
    || VariableLike(p, o)
    || (Unary(p, o, AddressOf) && (
        var v := p.nodes[o].args[0];
        Unary(p, v, Deref) && (
        var q := p.nodes[v].args[0];
        Rank(q) < Rank(o) && RootVariable(p, q))))
  }

  function LoadFrom(s: State, a: Option<Val>): Option<Val> {
    match a
    case None => None
    case Some(v) => Some(LoadAt(s.mem, v))
  }

  /** The value of an operand; that of a constant does not depend on where it stands. */
  function Read(p: Program, s: State, o: Id): Option<Val>
    decreases Rank(o), 3
  {
    if o !in p.nodes then Get(s.env, o)
    else if p.nodes[o].kind.Constant? then Some(Int(p.nodes[o].kind.c))
    else if VariableLike(p, o) then LoadFrom(s, AccessPlace(p, s, o))
    else if !p.nodes[o].kind.AddressOf? then Get(s.env, o)
    else if |p.nodes[o].args| == 1 && Rank(p.nodes[o].args[0]) < Rank(o) then Place(p, s, p.nodes[o].args[0])
    else None
  }

  /** The value of a pointer operand below a rank: operands come before their users. */
  function Below(p: Program, s: State, o: Id, bound: nat): Option<Val>
    decreases bound, 0
  {
    if Plain(p, o) then Get(s.env, o)
    else if Rank(o) < bound then Read(p, s, o)
    else None
  }

  /** The place a node that extends or names it starts from. */
  function Place(p: Program, s: State, o: Id): Option<Val>
    decreases Rank(o), 1
  {
    if !VariableLike(p, o) then None
    else if !p.nodes[o].kind.Deref? then Get(s.addr, o)
    else if |p.nodes[o].args| == 1 then Below(p, s, p.nodes[o].args[0], Rank(o))
    else None
  }

  /** The place that is read or written. */
  function AccessPlace(p: Program, s: State, o: Id): Option<Val>
    decreases Rank(o), 2
  {
    if Unary(p, o, Deref) && RootVariable(p, p.nodes[o].args[0]) then Get(s.addr, o) else Place(p, s, o)
  }

  function LazyFetch(p: Program, s: State, k: Kind, i: nat, o: Id): Option<Val> {
    if i == 0 && (k.Field? || k.Index? || k.IndexPointer? || k.AddressOf?) then Place(p, s, o)
    else if i == 1 && k.Write? then AccessPlace(p, s, o)
    else Read(p, s, o)
  }

  function RecordedPlace(p: Program, s: State, o: Id): Option<Val> {
    if VariableLike(p, o) then Get(s.addr, o) else None
  }

  function RecordedRead(p: Program, s: State, o: Id): Option<Val> {
    if o in p.nodes && p.nodes[o].kind.Constant? then Some(Int(p.nodes[o].kind.c))
    else if VariableLike(p, o) then LoadFrom(s, RecordedPlace(p, s, o))
    else Get(s.env, o)
  }

  function RecordedFetch(p: Program, s: State, k: Kind, i: nat, o: Id): Option<Val> {
    if (i == 0 && (k.Field? || k.Index? || k.IndexPointer? || k.AddressOf?)) || (i == 1 && k.Write?)
    then RecordedPlace(p, s, o)
    else RecordedRead(p, s, o)
  }

  predicate Scalar(v: Val) {
    v.Int? || v.Pointer?
  }

  /** The place behind an operand, as the lowering sees it and as it was recorded, is the same. */
  predicate Steady(p: Program, s: State, k: Kind, i: nat, o: Id) {
    if VariableLike(p, o) then
      var now :=
        if i == 0 && (k.Field? || k.Index? || k.IndexPointer? || k.AddressOf?) then Place(p, s, o)
        else AccessPlace(p, s, o);
      now.Some? && now == Get(s.addr, o) && Scalar(now.value)
    else if Has(p, o, AddressOf) then
      var now := Read(p, s, o);
      now.Some? && now == Get(s.env, o) && Scalar(now.value)
    else true
  }

  /** The place behind an operand is the address of something. */
  predicate DefinedPlace(p: Program, s: State, o: Id) {
    if VariableLike(p, o) then o in s.addr && Scalar(s.addr[o])
    else if Has(p, o, AddressOf) then o in s.env && Scalar(s.env[o])
    else true
  }

  function Fetch(p: Program, mode: Mode, s: State, k: Kind, i: nat, o: Id): Option<Val> {
    match mode
    case Lazy => LazyFetch(p, s, k, i, o)
    case Recorded => RecordedFetch(p, s, k, i, o)
    case Defined => if DefinedPlace(p, s, o) then RecordedFetch(p, s, k, i, o) else None
    case Strict => if Steady(p, s, k, i, o) then RecordedFetch(p, s, k, i, o) else None
  }

  predicate Ready(p: Program, mode: Mode, s: State, n: Node) {
    forall i :: 0 <= i < |n.args| ==> Fetch(p, mode, s, n.kind, i, n.args[i]).Some?
  }

  function Operands(p: Program, mode: Mode, s: State, n: Node): seq<Val>
    requires Ready(p, mode, s, n)
  {
    seq(|n.args|, i requires 0 <= i < |n.args| => Fetch(p, mode, s, n.kind, i, n.args[i]).value)
  }

  // ---------- running ----------

  datatype Outcome = Next(st: State) | Goto(block: nat, st: State) | Done(result: Val, mem: Mem) | Stuck

  function Arity(k: Kind): int {
    match k
    case Local => 0
    case Alloca => 0
    case Constant(_) => 0
    case Jump(_) => 0
    case Field(_) => 1
    case Deref => 1
    case AddressOf => 1
    case FieldPointer(_) => 1
    case Load => 1
    case Branch(_, _) => 1
    case Return => 1
    case Index => 2
    case IndexPointer => 2
    case ElementPointer => 2
    case PointerElementPointer => 2
    case Store => 2
    case Write => 2
    case Op(_) => -1
  }

  function SetEnv(s: State, o: Id, v: Val): Outcome {
    Next(s.(env := s.env[o := v]))
  }

  function SetAddr(s: State, o: Id, v: Val): Outcome {
    Next(s.(addr := s.addr[o := v]))
  }

  function SetMem(s: State, m: Option<Mem>): Outcome {
    match m
    case None => Stuck
    case Some(mem) => Next(s.(mem := mem))
  }

  /** What a node does with the values of its operands. */
  function Apply(m: Meaning, s: State, o: Id, k: Kind, v: seq<Val>): Outcome
    requires Arity(k) >= 0 ==> |v| == Arity(k)
  {
    match k
    case Local => Next(State(s.env, s.addr[o := Pointer(o, [])], if m.freshLocals then s.mem[o := Undef] else s.mem))
    case Field(f) => SetAddr(s, o, FieldOf(v[0], f))
    case Index => SetAddr(s, o, ElementOf(v[0], v[1]))
    case IndexPointer => SetAddr(s, o, OffsetOf(LoadAt(s.mem, v[0]), v[1]))
    case Deref => SetAddr(s, o, v[0])
    case AddressOf => SetEnv(s, o, v[0])
    case Alloca => SetEnv(s, o, Pointer(o, []))
    case FieldPointer(f) => SetEnv(s, o, FieldOf(v[0], f))
    case ElementPointer => SetEnv(s, o, ElementOf(v[0], v[1]))
    case PointerElementPointer => SetEnv(s, o, OffsetOf(LoadAt(s.mem, v[0]), v[1]))
    case Load => SetEnv(s, o, LoadAt(s.mem, v[0]))
    case Store => SetMem(s, StoreAt(s.mem, v[1], v[0]))
    case Write => SetMem(s, StoreAt(s.mem, v[1], v[0]))
    case Constant(_) => Next(s)
    case Op(op) =>
      (match m.op(op, v, s.mem)
       case Abort => Stuck
       case Effect(r, mem) => Next(State(s.env[o := r], s.addr, mem)))
    case Jump(to) => Goto(to, s)
    case Branch(yes, no) => if v[0].Int? then Goto(if v[0].i != 0 then yes else no, s) else Stuck
    case Return => Done(v[0], s.mem)
  }

  predicate Enabled(p: Program, mode: Mode, s: State, o: Id) {
    && o in p.nodes
    && (Arity(p.nodes[o].kind) >= 0 ==> |p.nodes[o].args| == Arity(p.nodes[o].kind))
    && Ready(p, mode, s, p.nodes[o])
  }

  function Exec(p: Program, m: Meaning, s: State, o: Id): Outcome {
    if Enabled(p, m.mode, s, o)
    then Apply(m, s, o, p.nodes[o].kind, Operands(p, m.mode, s, p.nodes[o]))
    else Stuck
  }

  function ExecList(p: Program, m: Meaning, s: State, list: seq<Id>): Outcome
    decreases |list|
  {
    if list == [] then Next(s) else
    match Exec(p, m, s, list[0])
    case Next(t) => ExecList(p, m, t, list[1..])
    case Goto(b, t) => Goto(b, t)
    case Done(v, mem) => Done(v, mem)
    case Stuck => Stuck
  }

  /** A run of at most that many blocks; it is stuck when it needs more, or falls off a block. */
  function Run(p: Program, m: Meaning, s: State, b: nat, fuel: nat): Outcome
    decreases fuel
  {
    if fuel == 0 || b >= |p.blocks| then Stuck else
    match ExecList(p, m, s, p.blocks[b])
    case Next(_) => Stuck
    case Goto(c, t) => Run(p, m, t, c, fuel - 1)
    case Done(v, mem) => Done(v, mem)
    case Stuck => Stuck
  }

  lemma {:induction false} ExecListConcat(p: Program, m: Meaning, s: State, a: seq<Id>, b: seq<Id>)
    ensures ExecList(p, m, s, a + b) ==
      match ExecList(p, m, s, a)
      case Next(t) => ExecList(p, m, t, b)
      case Goto(c, t) => Goto(c, t)
      case Done(v, mem) => Done(v, mem)
      case Stuck => Stuck
    decreases |a|
  {
    if a == [] {
      assert a + b == b;
    } else {
      assert (a + b)[0] == a[0] && (a + b)[1..] == a[1..] + b;
      match Exec(p, m, s, a[0]) {
        case Next(t) => ExecListConcat(p, m, t, a[1..], b);
        case Goto(_, _) =>
        case Done(_, _) =>
        case Stuck =>
      }
    }
  }

  lemma ExecFirst(p: Program, m: Meaning, s: State, o: Id, t: State, rest: seq<Id>)
    requires Exec(p, m, s, o) == Next(t)
    ensures ExecList(p, m, s, [o] + rest) == ExecList(p, m, t, rest)
  {
    hide Exec;
    assert ([o] + rest)[0] == o && ([o] + rest)[1..] == rest;
  }
}
