/** The last step of the pointer lowering: the allocations of all blocks move to the front of the first. */
module PointerHoist {
  import opened Wrappers
  import opened PointerIr
  import opened PointerModes

  /** An allocation of constant length. */
  predicate Movable(nodes: map<Id, Node>, o: Id) {
    o in nodes && nodes[o] == Node(Alloca, [])
  }

  /** The allocations of a list, the last one first. */
  function Lifted(nodes: map<Id, Node>, list: seq<Id>): seq<Id>
    decreases |list|
  {
    if list == [] then [] else
    Lifted(nodes, list[1..]) + if Movable(nodes, list[0]) then [list[0]] else []
  }

  function Rest(nodes: map<Id, Node>, list: seq<Id>): seq<Id>
    decreases |list|
  {
    if list == [] then [] else
    (if Movable(nodes, list[0]) then [] else [list[0]]) + Rest(nodes, list[1..])
  }

  function LiftedAll(nodes: map<Id, Node>, blocks: seq<seq<Id>>): seq<Id>
    decreases |blocks|
  {
    if blocks == [] then [] else LiftedAll(nodes, blocks[1..]) + Lifted(nodes, blocks[0])
  }

  function Hoisted(p: Program): Program {
    if p.blocks == [] then p else
    Program(p.nodes,
      seq(|p.blocks|, b requires 0 <= b < |p.blocks| =>
        if b == 0 then LiftedAll(p.nodes, p.blocks[1..]) + p.blocks[0] else Rest(p.nodes, p.blocks[b])))
  }

  /** What the value at a place of a list adds. */
  lemma ListStep(nodes: map<Id, Node>, list: seq<Id>, i: nat)
    requires i < |list|
    ensures Lifted(nodes, list[i..]) == Lifted(nodes, list[i + 1..]) + if Movable(nodes, list[i]) then [list[i]] else []
    ensures Rest(nodes, list[i..]) == (if Movable(nodes, list[i]) then [] else [list[i]]) + Rest(nodes, list[i + 1..])
  {
    assert list[i..][0] == list[i] && list[i..][1..] == list[i + 1..];
  }

  lemma ListEnd(nodes: map<Id, Node>, list: seq<Id>)
    requires list == []
    ensures Lifted(nodes, list) == Rest(nodes, list) == []
  {
  }

  lemma BlocksStep(nodes: map<Id, Node>, blocks: seq<seq<Id>>, b: nat)
    requires b < |blocks|
    ensures LiftedAll(nodes, blocks[b..]) == LiftedAll(nodes, blocks[b + 1..]) + Lifted(nodes, blocks[b])
  {
    assert blocks[b..][0] == blocks[b] && blocks[b..][1..] == blocks[b + 1..];
  }

  lemma HoistedIs(p: Program, blocks: seq<seq<Id>>)
    requires |blocks| == |p.blocks| > 0
    requires blocks[0] == LiftedAll(p.nodes, p.blocks[1..]) + p.blocks[0]
    requires forall b :: 1 <= b < |blocks| ==> blocks[b] == Rest(p.nodes, p.blocks[b])
    ensures Hoisted(p) == Program(p.nodes, blocks)
  {
    assert Hoisted(p).blocks == blocks;
  }

  // ---------- what is where ----------

  lemma {:induction false} RestHasNone(nodes: map<Id, Node>, list: seq<Id>)
    ensures forall o :: o in Rest(nodes, list) <==> o in list && !Movable(nodes, o)
    ensures forall o :: o in Lifted(nodes, list) <==> o in list && Movable(nodes, o)
    decreases |list|
  {
    hide Movable;
    if list != [] {
      RestHasNone(nodes, list[1..]);
      assert list == [list[0]] + list[1..];
    }
  }

  lemma {:induction false} RestAndLifted(nodes: map<Id, Node>, list: seq<Id>)
    ensures multiset(Lifted(nodes, list)) + multiset(Rest(nodes, list)) == multiset(list)
    decreases |list|
  {
    hide Movable;
    if list != [] {
      RestAndLifted(nodes, list[1..]);
      assert list == [list[0]] + list[1..];
    }
  }

  lemma {:induction false} LiftedFrom(nodes: map<Id, Node>, blocks: seq<seq<Id>>)
    ensures forall o :: o in LiftedAll(nodes, blocks) <==>
      Movable(nodes, o) && exists b :: 0 <= b < |blocks| && o in blocks[b]
    decreases |blocks|
  {
    if blocks != [] {
      var rest := blocks[1..];
      LiftedFrom(nodes, rest);
      RestHasNone(nodes, blocks[0]);
      forall o | Movable(nodes, o)
        ensures o in LiftedAll(nodes, blocks) <==> exists b :: 0 <= b < |blocks| && o in blocks[b]
      {
        if b :| 0 <= b < |blocks| && o in blocks[b] {
          assert b > 0 ==> o in rest[b - 1];
        }
        if o in LiftedAll(nodes, rest) {
          var b :| 0 <= b < |rest| && o in rest[b];
          assert o in blocks[b + 1];
        }
      }
    }
  }

  /** Afterwards only the first block allocates, and it allocates all that was allocated anywhere. */
  lemma HoistedOnTop(p: Program, o: Id)
    requires Movable(p.nodes, o)
    ensures var q := Hoisted(p);
      && (forall b :: 0 < b < |q.blocks| ==> o !in q.blocks[b])
      && (p.blocks != [] ==>
        (o in q.blocks[0] <==> exists b :: 0 <= b < |p.blocks| && o in p.blocks[b]))
  {
    if p.blocks != [] {
      var q, rest := Hoisted(p), p.blocks[1..];
      forall b | 0 < b < |q.blocks| ensures o !in q.blocks[b] {
        RestHasNone(p.nodes, p.blocks[b]);
      }
      LiftedFrom(p.nodes, rest);
      assert forall b :: 0 < b < |p.blocks| ==> p.blocks[b] == rest[b - 1];
      if o in LiftedAll(p.nodes, rest) {
        var b :| 0 <= b < |rest| && o in rest[b];
        assert o in p.blocks[b + 1];
      }
    }
  }

  function Listed(blocks: seq<seq<Id>>): multiset<Id>
    decreases |blocks|
  {
    if blocks == [] then multiset{} else multiset(blocks[0]) + Listed(blocks[1..])
  }

  lemma {:induction false} RestListed(nodes: map<Id, Node>, blocks: seq<seq<Id>>, rest: seq<seq<Id>>)
    requires |rest| == |blocks| && forall b :: 0 <= b < |blocks| ==> rest[b] == Rest(nodes, blocks[b])
    ensures multiset(LiftedAll(nodes, blocks)) + Listed(rest) == Listed(blocks)
    decreases |blocks|
  {
    if blocks != [] {
      RestListed(nodes, blocks[1..], rest[1..]);
      RestAndLifted(nodes, blocks[0]);
    }
  }

  /** No value is lost, and none is listed more often than it was. */
  lemma HoistedListed(p: Program)
    ensures Hoisted(p).nodes == p.nodes && Listed(Hoisted(p).blocks) == Listed(p.blocks)
  {
    if p.blocks != [] {
      RestListed(p.nodes, p.blocks[1..], Hoisted(p).blocks[1..]);
    }
  }

  ghost function Further(at: seq<nat>): (r: seq<nat>)
    ensures |r| == |at| && forall i :: 0 <= i < |at| ==> r[i] == at[i] + 1
  {
    seq(|at|, i requires 0 <= i < |at| => at[i] + 1)
  }

  lemma StaysPast(nodes: map<Id, Node>, x: Id, list: seq<Id>, r: seq<Id>, at: seq<nat>)
    requires Stays(nodes, list, r, at)
    ensures Stays(nodes, [x] + list, r, Further(at))
    ensures !Movable(nodes, x) ==> Stays(nodes, [x] + list, [x] + r, [0] + Further(at))
  {
  }

  lemma {:induction false} RestPlaces(nodes: map<Id, Node>, list: seq<Id>) returns (at: seq<nat>)
    ensures Stays(nodes, list, Rest(nodes, list), at)
    decreases |list|
  {
    hide Stays, Further;
    if list == [] {
      at := [];
      NothingStays(nodes);
    } else {
      var below := RestPlaces(nodes, list[1..]);
      var rest := Rest(nodes, list[1..]);
      assert [list[0]] + list[1..] == list && [] + rest == rest;
      StaysPast(nodes, list[0], list[1..], rest, below);
      at := (if Movable(nodes, list[0]) then [] else [0]) + Further(below);
      assert [] + Further(below) == Further(below);
    }
  }

  lemma NothingStays(nodes: map<Id, Node>)
    ensures Stays(nodes, [], [], [])
  {
  }

  /** What is kept are no allocations, and they stood at these places of the old list, in this order. */
  ghost predicate Stays(nodes: map<Id, Node>, list: seq<Id>, r: seq<Id>, at: seq<nat>) {
    && |at| == |r|
    && (forall i :: 0 <= i < |at| ==> at[i] < |list| && r[i] == list[at[i]] && !Movable(nodes, r[i]))
    && forall i, j :: 0 <= i < j < |at| ==> at[i] < at[j]
  }

  /** The first block ends with what it held, and every other keeps its order without its allocations. */
  lemma HoistedOrder(p: Program, b: nat) returns (at: seq<nat>)
    requires b < |p.blocks|
    ensures var q := Hoisted(p);
      && |q.blocks| == |p.blocks|
      && if b == 0 then |p.blocks[0]| <= |q.blocks[0]| && q.blocks[0][|q.blocks[0]| - |p.blocks[0]|..] == p.blocks[0]
         else Stays(p.nodes, p.blocks[b], q.blocks[b], at)
  {
    at := RestPlaces(p.nodes, p.blocks[b]);
  }

  // ---------- running ----------

  /** The second run has allocated some slots already, and each allocation has its own. */
  ghost predicate Ahead(nodes: map<Id, Node>, slots: set<Id>, s: State, t: State) {
    && s.addr == t.addr && s.mem == t.mem
    && (forall o :: o in s.env ==> o in t.env && t.env[o] == s.env[o])
    && slots <= t.env.Keys
    && forall o :: o in t.env && Movable(nodes, o) ==> t.env[o] == Pointer(o, [])
  }

  ghost predicate AheadOutcome(nodes: map<Id, Node>, slots: set<Id>, a: Outcome, b: Outcome) {
    match a
    case Next(s) => b.Next? && Ahead(nodes, slots, s, b.st)
    case Goto(c, s) => b.Goto? && b.block == c && Ahead(nodes, slots, s, b.st)
    case Done(_, _) => b == a
    case Stuck => true
  }

  lemma FetchAhead(p: Program, q: Program, slots: set<Id>, s: State, t: State, k: Kind, i: nat, o: Id)
    requires Lowered(p) && q.nodes == p.nodes && Ahead(p.nodes, slots, s, t)
    requires Fetch(p, Lazy, s, k, i, o).Some?
    ensures Fetch(q, Lazy, t, k, i, o) == Fetch(p, Lazy, s, k, i, o)
  {
    hide LoadAt, RootVariable;
    assert !VariableLike(p, o) && !Has(p, o, AddressOf);
    assert Place(p, s, o) == None && AccessPlace(p, s, o) == None;
    assert Read(q, t, o) == Read(p, s, o);
  }

  lemma ExecAhead(p: Program, q: Program, m: Meaning, slots: set<Id>, s: State, t: State, o: Id)
    requires Lowered(p) && q.nodes == p.nodes && Ahead(p.nodes, slots, s, t) && m.mode.Lazy?
    ensures AheadOutcome(p.nodes, slots, Exec(p, m, s, o), Exec(q, m, t, o))
  {
    hide Fetch, Lowered;
    if Enabled(p, Lazy, s, o) {
      var node := p.nodes[o];
      forall i | 0 <= i < |node.args|
        ensures Fetch(q, Lazy, t, node.kind, i, node.args[i]) == Fetch(p, Lazy, s, node.kind, i, node.args[i])
      {
        FetchAhead(p, q, slots, s, t, node.kind, i, node.args[i]);
      }
      assert Enabled(q, Lazy, t, o);
      assert Operands(q, Lazy, t, node) == Operands(p, Lazy, s, node);
      NotLocal(p, o);
      ApplyAhead(p.nodes, m, slots, s, t, o, Operands(p, Lazy, s, node));
    }
  }

  lemma NotLocal(p: Program, o: Id)
    requires Lowered(p) && o in p.nodes
    ensures !VariableKind(p.nodes[o].kind)
  {
  }

  lemma ApplyAhead(nodes: map<Id, Node>, m: Meaning, slots: set<Id>, s: State, t: State, o: Id, v: seq<Val>)
    requires o in nodes && Ahead(nodes, slots, s, t) && !VariableKind(nodes[o].kind)
    requires Arity(nodes[o].kind) >= 0 ==> |v| == Arity(nodes[o].kind)
    ensures AheadOutcome(nodes, slots, Apply(m, s, o, nodes[o].kind, v), Apply(m, t, o, nodes[o].kind, v))
  {
    hide Ahead, FieldOf, ElementOf, OffsetOf, LoadAt, StoreAt;
    SameMemory(nodes, slots, s, t);
    match nodes[o].kind {
      case AddressOf => SetAhead(nodes, slots, s, t, o, v[0], s.mem);
      case Alloca => SetAhead(nodes, slots, s, t, o, Pointer(o, []), s.mem);
      case FieldPointer(f) => SetAhead(nodes, slots, s, t, o, FieldOf(v[0], f), s.mem);
      case ElementPointer => SetAhead(nodes, slots, s, t, o, ElementOf(v[0], v[1]), s.mem);
      case PointerElementPointer => SetAhead(nodes, slots, s, t, o, OffsetOf(LoadAt(s.mem, v[0]), v[1]), s.mem);
      case Load => SetAhead(nodes, slots, s, t, o, LoadAt(s.mem, v[0]), s.mem);
      case Store => StoreAhead(nodes, slots, s, t, StoreAt(s.mem, v[1], v[0]));
      case Write => StoreAhead(nodes, slots, s, t, StoreAt(s.mem, v[1], v[0]));
      case Op(op) =>
        var effect := m.op(op, v, s.mem);
        if effect.Effect? {
          SetAhead(nodes, slots, s, t, o, effect.result, effect.mem);
        }
      case Constant(_) =>
      case Jump(_) =>
      case Branch(_, _) =>
      case Return =>
    }
  }

  lemma SameMemory(nodes: map<Id, Node>, slots: set<Id>, s: State, t: State)
    requires Ahead(nodes, slots, s, t)
    ensures s.mem == t.mem && s.addr == t.addr
  {
  }

  lemma SetAhead(nodes: map<Id, Node>, slots: set<Id>, s: State, t: State, o: Id, v: Val, mem: Mem)
    requires Ahead(nodes, slots, s, t) && (Movable(nodes, o) ==> v == Pointer(o, []))
    ensures Ahead(nodes, slots, s.(env := s.env[o := v]), t.(env := t.env[o := v]))
    ensures Ahead(nodes, slots, State(s.env[o := v], s.addr, mem), State(t.env[o := v], t.addr, mem))
  {
  }

  lemma StoreAhead(nodes: map<Id, Node>, slots: set<Id>, s: State, t: State, mem: Option<Mem>)
    requires Ahead(nodes, slots, s, t)
    ensures AheadOutcome(nodes, slots, SetMem(s, mem), SetMem(t, mem))
  {
  }

  /** A moved allocation has been made. */
  lemma MovedAhead(p: Program, m: Meaning, slots: set<Id>, s: State, t: State, o: Id)
    requires Movable(p.nodes, o) && o in slots && Ahead(p.nodes, slots, s, t)
    ensures Exec(p, m, s, o).Next? && Ahead(p.nodes, slots, Exec(p, m, s, o).st, t)
  {
    assert Ready(p, m.mode, s, p.nodes[o]);
  }

  function Kept(nodes: map<Id, Node>, list: seq<Id>, moved: bool): seq<Id> {
    if moved then Rest(nodes, list) else list
  }

  lemma {:induction false} ListAhead(p: Program, q: Program, m: Meaning, slots: set<Id>, s: State, t: State,
      list: seq<Id>, moved: bool)
    requires Lowered(p) && q.nodes == p.nodes && Ahead(p.nodes, slots, s, t) && m.mode.Lazy?
    requires moved ==> forall o :: o in list && Movable(p.nodes, o) ==> o in slots
    ensures AheadOutcome(p.nodes, slots, ExecList(p, m, s, list), ExecList(q, m, t, Kept(p.nodes, list, moved)))
    decreases |list|
  {
    hide Exec, Ahead, Lowered;
    if list != [] {
      var o := list[0];
      if moved && Movable(p.nodes, o) {
        MovedAhead(p, m, slots, s, t, o);
        assert Kept(p.nodes, list, moved) == Kept(p.nodes, list[1..], moved);
        ListAhead(p, q, m, slots, Exec(p, m, s, o).st, t, list[1..], moved);
      } else {
        ExecAhead(p, q, m, slots, s, t, o);
        var rest := Kept(p.nodes, list, moved);
        assert rest[0] == o && rest[1..] == Kept(p.nodes, list[1..], moved);
        if Exec(p, m, s, o).Next? {
          ListAhead(p, q, m, slots, Exec(p, m, s, o).st, Exec(q, m, t, o).st, list[1..], moved);
        }
      }
    }
  }

  function Allocated(t: State, list: seq<Id>): State
    decreases |list|
  {
    if list == [] then t else Allocated(t.(env := t.env[list[0] := Pointer(list[0], [])]), list[1..])
  }

  /** The allocations at the front make their slots. */
  lemma {:induction false} LiftedRuns(q: Program, m: Meaning, slots: set<Id>, s: State, t: State, lifted: seq<Id>,
      list: seq<Id>)
    requires Ahead(q.nodes, slots, s, t) && forall o :: o in lifted ==> Movable(q.nodes, o)
    ensures ExecList(q, m, t, lifted + list) == ExecList(q, m, Allocated(t, lifted), list)
    ensures Ahead(q.nodes, slots + (set o | o in lifted), s, Allocated(t, lifted))
    decreases |lifted|
  {
    hide Exec;
    if lifted == [] {
      assert lifted + list == list;
    } else {
      var o := lifted[0];
      var t1 := t.(env := t.env[o := Pointer(o, [])]);
      AllocaRuns(q, m, t, o);
      ExecFirst(q, m, t, o, t1, lifted[1..] + list);
      assert lifted + list == [o] + (lifted[1..] + list);
      LiftedRuns(q, m, slots + {o}, s, t1, lifted[1..], list);
    }
  }

  lemma AllocaRuns(q: Program, m: Meaning, t: State, o: Id)
    requires Movable(q.nodes, o)
    ensures Exec(q, m, t, o) == Next(t.(env := t.env[o := Pointer(o, [])]))
  {
    assert Ready(q, m.mode, t, q.nodes[o]);
  }

  /** The slots the code has from the first block on. */
  function Slots(p: Program): set<Id> {
    if p.blocks == [] then {} else set o | o in LiftedAll(p.nodes, p.blocks[1..])
  }

  lemma BlockAhead(p: Program, m: Meaning, s: State, t: State, b: nat)
    requires Lowered(p) && m.mode.Lazy? && b < |p.blocks|
    requires Ahead(p.nodes, if b == 0 then {} else Slots(p), s, t)
    ensures AheadOutcome(p.nodes, Slots(p), ExecList(p, m, s, p.blocks[b]),
        ExecList(Hoisted(p), m, t, Hoisted(p).blocks[b]))
  {
    hide Ahead, Lowered, LiftedAll, Rest, ExecList;
    var q := Hoisted(p);
    LiftedFrom(p.nodes, p.blocks[1..]);
    if b == 0 {
      var lifted := LiftedAll(p.nodes, p.blocks[1..]);
      LiftedRuns(q, m, {}, s, t, lifted, p.blocks[0]);
      assert {} + Slots(p) == Slots(p);
      ListAhead(p, q, m, Slots(p), s, Allocated(t, lifted), p.blocks[0], false);
    } else {
      assert p.blocks[b] == p.blocks[1..][b - 1];
      ListAhead(p, q, m, Slots(p), s, t, p.blocks[b], true);
    }
  }

  lemma {:induction false} RunAhead(p: Program, m: Meaning, s: State, t: State, b: nat, fuel: nat)
    requires Lowered(p) && m.mode.Lazy?
    requires Ahead(p.nodes, if b == 0 then {} else Slots(p), s, t)
    requires !Run(p, m, s, b, fuel).Stuck?
    ensures Run(Hoisted(p), m, t, b, fuel) == Run(p, m, s, b, fuel)
    decreases fuel
  {
    hide ExecList, Lowered, Slots, LiftedAll, Rest;
    BlockAhead(p, m, s, t, b);
    if ExecList(p, m, s, p.blocks[b]).Goto? {
      var a := ExecList(p, m, s, p.blocks[b]);
      RunAhead(p, m, a.st, ExecList(Hoisted(p), m, t, Hoisted(p).blocks[b]).st, a.block, fuel - 1);
    }
  }

  /** Moving the allocations keeps every run that starts without values for them, from any block a loop
      may jump back to. */
  lemma HoistingPreserves(p: Program, m: Meaning, s: State, fuel: nat)
    requires Lowered(p) && m.mode.Lazy?
    requires forall o :: o in s.env ==> !Movable(p.nodes, o)
    requires !Run(p, m, s, 0, fuel).Stuck?
    ensures Run(Hoisted(p), m, s, 0, fuel) == Run(p, m, s, 0, fuel)
  {
    RunAhead(p, m, s, s, 0, fuel);
  }
}
