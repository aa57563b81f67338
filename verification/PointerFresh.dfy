/** A variable that is made anew each time its declaration runs, against a slot allocated once: wherever
    the first gives a value, the second gives the same. */
module PointerFresh {
  import opened Wrappers
  import opened PointerIr

  /** Wherever v holds a number or a pointer, w holds the same. */
  ghost predicate LessDefined(v: Val, w: Val) {
    forall path: seq<int> :: Scalar(Project(v, path)) ==> Project(w, path) == Project(v, path)
  }

  ghost predicate LessAll(a: seq<Val>, b: seq<Val>) {
    |a| == |b| && forall i :: 0 <= i < |a| ==> LessDefined(a[i], b[i])
  }

  ghost predicate LessMap(a: map<Id, Val>, b: map<Id, Val>) {
    forall o :: o in a ==> o in b && LessDefined(a[o], b[o])
  }

  lemma LessHere(v: Val, w: Val)
    requires LessDefined(v, w)
    ensures Scalar(v) ==> w == v
  {
    assert Project(v, []) == v && Project(w, []) == w;
  }

  lemma {:induction false} ProjectConcat(v: Val, a: seq<int>, b: seq<int>)
    ensures Project(v, a + b) == Project(Project(v, a), b)
    decreases |a|
  {
    if a == [] {
      assert a + b == b;
    } else {
      assert (a + b)[0] == a[0] && (a + b)[1..] == a[1..] + b;
      ProjectConcat(Part(v, a[0]), a[1..], b);
    }
  }

  lemma LessProject(v: Val, w: Val, path: seq<int>)
    requires LessDefined(v, w)
    ensures LessDefined(Project(v, path), Project(w, path))
  {
    forall q: seq<int> | Scalar(Project(Project(v, path), q))
      ensures Project(Project(w, path), q) == Project(Project(v, path), q)
    {
      ProjectConcat(v, path, q);
      ProjectConcat(w, path, q);
    }
  }

  lemma LessPart(v: Val, w: Val, i: int)
    requires LessDefined(v, w)
    ensures LessDefined(Part(v, i), Part(w, i))
  {
    LessProject(v, w, [i]);
    assert Project(v, [i]) == Part(v, i) && Project(w, [i]) == Part(w, i) by {
      assert [i][1..] == [];
    }
  }

  lemma LessUndef(w: Val)
    ensures LessDefined(Undef, w)
  {
    forall q: seq<int> ensures !Scalar(Project(Undef, q)) {
      UndefHasNone(q);
    }
  }

  lemma {:induction false} UndefHasNone(q: seq<int>)
    ensures Project(Undef, q) == Undef
    decreases |q|
  {
    if q != [] {
      UndefHasNone(q[1..]);
    }
  }

  lemma {:induction false} LessUpdate(v: Val, w: Val, path: seq<int>, x: Val, y: Val)
    requires LessDefined(v, w) && LessDefined(x, y)
    ensures LessDefined(Update(v, path, x), Update(w, path, y))
    decreases |path|
  {
    if path != [] {
      LessPart(v, w, path[0]);
      LessUpdate(Part(v, path[0]), Part(w, path[0]), path[1..], x, y);
      var a, b := Update(v, path, x), Update(w, path, y);
      forall q: seq<int> | Scalar(Project(a, q)) ensures Project(b, q) == Project(a, q) {
        if q != [] {
          LessPart(v, w, q[0]);
          if q[0] != path[0] {
            PartOther(v, path, x, q[0]);
            PartOther(w, path, y, q[0]);
          }
        }
      }
    }
  }

  /** The other parts of an aggregate stay, and of anything else there are none. */
  lemma PartOther(v: Val, path: seq<int>, x: Val, i: int)
    requires path != [] && path[0] != i
    ensures Part(Update(v, path, x), i) == Part(v, i)
  {
  }

  // ---------- states ----------

  ghost predicate Less(s: State, t: State) {
    LessMap(s.env, t.env) && LessMap(s.addr, t.addr) && LessMap(s.mem, t.mem)
  }

  ghost predicate LessOutcome(a: Outcome, b: Outcome) {
    match a
    case Next(s) => b.Next? && Less(s, b.st)
    case Goto(c, s) => b.Goto? && b.block == c && Less(s, b.st)
    case Done(v, mem) => b.Done? && LessDefined(v, b.result) && LessMap(mem, b.mem)
    case Stuck => true
  }

  /** An operation that is given more gives more, and does not notice what it was not told. */
  ghost predicate Monotone(m: Meaning) {
    forall op: nat, a: seq<Val>, b: seq<Val>, x: Mem, y: Mem :: LessAll(a, b) && LessMap(x, y) ==>
      match m.op(op, a, x)
      case Abort => true
      case Effect(r, z) =>
        m.op(op, b, y).Effect? && LessDefined(r, m.op(op, b, y).result) && LessMap(z, m.op(op, b, y).mem)
  }

  lemma LessLoad(s: Mem, t: Mem, a: Val, b: Val)
    requires LessMap(s, t) && LessDefined(a, b)
    ensures LessDefined(LoadAt(s, a), LoadAt(t, b))
  {
    LessHere(a, b);
    if a.Pointer? && a.slot in s {
      LessProject(s[a.slot], t[a.slot], a.path);
    } else {
      LessUndef(LoadAt(t, b));
    }
  }

  lemma LessStore(s: Mem, t: Mem, a: Val, b: Val, v: Val, w: Val)
    requires LessMap(s, t) && LessDefined(a, b) && LessDefined(v, w)
    ensures StoreAt(s, a, v).Some? ==> StoreAt(t, b, w).Some? && LessMap(StoreAt(s, a, v).value, StoreAt(t, b, w).value)
  {
    LessHere(a, b);
    if StoreAt(s, a, v).Some? {
      LessUpdate(s[a.slot], t[a.slot], a.path, v, w);
      var s1, t1 := StoreAt(s, a, v).value, StoreAt(t, b, w).value;
      forall o | o in s1 ensures o in t1 && LessDefined(s1[o], t1[o]) {
        assert o != a.slot ==> s1[o] == s[o] && t1[o] == t[o];
      }
    }
  }

  lemma LessScalarFunctions(a: Val, b: Val, i: Val, j: Val, f: int)
    requires LessDefined(a, b) && LessDefined(i, j)
    ensures LessDefined(FieldOf(a, f), FieldOf(b, f))
    ensures LessDefined(ElementOf(a, i), ElementOf(b, j))
    ensures LessDefined(OffsetOf(a, i), OffsetOf(b, j))
  {
    LessHere(a, b);
    LessHere(i, j);
    LessUndef(FieldOf(b, f));
    LessUndef(ElementOf(b, j));
    LessUndef(OffsetOf(b, j));
  }

  // ---------- operands ----------

  ghost predicate LessSome(a: Option<Val>, b: Option<Val>) {
    a.Some? ==> b.Some? && LessDefined(a.value, b.value)
  }

  lemma {:induction false} LessRead(p: Program, s: State, t: State, o: Id)
    requires Less(s, t)
    ensures LessSome(Read(p, s, o), Read(p, t, o))
    ensures LessSome(Place(p, s, o), Place(p, t, o))
    ensures LessSome(AccessPlace(p, s, o), AccessPlace(p, t, o))
    decreases Rank(o), 1
  {
    hide LessDefined, LoadAt, RootVariable;
    if Unary(p, o, Deref) {
      LessBelow(p, s, t, o);
      LessAccess(p, s, t, o);
    } else if VariableLike(p, o) {
      LessAccess(p, s, t, o);
    } else if Unary(p, o, AddressOf) && Rank(p.nodes[o].args[0]) < Rank(o) {
      LessRead(p, s, t, p.nodes[o].args[0]);
    } else if o in p.nodes && p.nodes[o].kind.Constant? {
      LessItself(Int(p.nodes[o].kind.c));
    }
  }

  lemma LessItself(v: Val)
    ensures LessDefined(v, v)
  {
  }

  lemma LessAccess(p: Program, s: State, t: State, o: Id)
    requires Less(s, t) && LessSome(Place(p, s, o), Place(p, t, o)) && VariableLike(p, o)
    ensures LessSome(AccessPlace(p, s, o), AccessPlace(p, t, o))
    ensures LessSome(Read(p, s, o), Read(p, t, o))
  {
    hide LessDefined, RootVariable, Place;
    assert Read(p, s, o) == LoadFrom(s, AccessPlace(p, s, o)) && Read(p, t, o) == LoadFrom(t, AccessPlace(p, t, o));
    if AccessPlace(p, s, o).Some? {
      LessLoad(s.mem, t.mem, AccessPlace(p, s, o).value, AccessPlace(p, t, o).value);
    }
  }

  lemma {:induction false} LessBelow(p: Program, s: State, t: State, o: Id)
    requires Less(s, t) && Unary(p, o, Deref)
    ensures LessSome(Below(p, s, p.nodes[o].args[0], Rank(o)), Below(p, t, p.nodes[o].args[0], Rank(o)))
    ensures LessSome(Place(p, s, o), Place(p, t, o))
    decreases Rank(o), 0
  {
    hide LessDefined, RootVariable;
    var a := p.nodes[o].args[0];
    if !Plain(p, a) && Rank(a) < Rank(o) {
      LessRead(p, s, t, a);
    }
  }

  lemma LessNow(a: Option<Val>, b: Option<Val>, c: Option<Val>, d: Option<Val>)
    requires LessSome(a, b) && LessSome(c, d) && a.Some? && a == c && Scalar(a.value)
    ensures b == a && d == c
  {
    LessHere(a.value, b.value);
    LessHere(c.value, d.value);
  }

  lemma LessGet(s: map<Id, Val>, t: map<Id, Val>, o: Id)
    requires LessMap(s, t)
    ensures LessSome(Get(s, o), Get(t, o))
  {
  }

  /** A strict operand stays strict when more is defined. */
  lemma LessFetch(p: Program, s: State, t: State, k: Kind, i: nat, o: Id)
    requires Less(s, t)
    ensures LessSome(Fetch(p, Strict, s, k, i, o), Fetch(p, Strict, t, k, i, o))
  {
    hide LessDefined, Read, Place, AccessPlace, LessSome, LessMap, LoadAt;
    if Steady(p, s, k, i, o) {
      LessRead(p, s, t, o);
      LessGet(s.addr, t.addr, o);
      LessGet(s.env, t.env, o);
      LessRecorded(p, s, t, k, i, o);
      if VariableLike(p, o) {
        var extends_ := i == 0 && (k.Field? || k.Index? || k.IndexPointer? || k.AddressOf?);
        if extends_ {
          LessNow(Place(p, s, o), Place(p, t, o), Get(s.addr, o), Get(t.addr, o));
        } else {
          LessNow(AccessPlace(p, s, o), AccessPlace(p, t, o), Get(s.addr, o), Get(t.addr, o));
        }
      } else if Has(p, o, AddressOf) {
        LessNow(Read(p, s, o), Read(p, t, o), Get(s.env, o), Get(t.env, o));
      }
      assert Steady(p, t, k, i, o);
    } else {
      LessNone(Fetch(p, Strict, t, k, i, o));
    }
  }

  lemma LessNone(a: Option<Val>)
    ensures LessSome(None, a)
  {
  }

  lemma LessRecorded(p: Program, s: State, t: State, k: Kind, i: nat, o: Id)
    requires Less(s, t)
    ensures LessSome(RecordedFetch(p, s, k, i, o), RecordedFetch(p, t, k, i, o))
  {
    hide LessDefined, LoadAt;
    if VariableLike(p, o) && o in s.addr {
      LessLoad(s.mem, t.mem, s.addr[o], t.addr[o]);
    } else if o in p.nodes && p.nodes[o].kind.Constant? {
      LessItself(Int(p.nodes[o].kind.c));
    }
  }

  // ---------- running ----------

  /** An operation frees no slot. */
  ghost predicate KeepsSlots(m: Meaning) {
    forall op: nat, a: seq<Val>, x: Mem :: m.op(op, a, x).Effect? ==> x.Keys <= m.op(op, a, x).mem.Keys
  }

  /** Every variable has its slot. */
  ghost predicate Slots(p: Program, s: State) {
    forall o :: o in p.nodes && p.nodes[o].kind.Local? ==> o in s.mem
  }

  function Fresh(m: Meaning, freshLocals: bool): Meaning {
    m.(mode := Strict, freshLocals := freshLocals)
  }

  lemma LessSet(s: State, t: State, o: Id, v: Val, w: Val)
    requires Less(s, t) && LessDefined(v, w)
    ensures Less(s.(env := s.env[o := v]), t.(env := t.env[o := w]))
    ensures Less(s.(addr := s.addr[o := v]), t.(addr := t.addr[o := w]))
  {
    hide LessDefined;
  }

  lemma LessApply(m: Meaning, s: State, t: State, o: Id, k: Kind, v: seq<Val>, w: seq<Val>)
    requires Monotone(m) && Less(s, t) && LessAll(v, w) && (k.Local? ==> o in t.mem)
    requires Arity(k) >= 0 ==> |v| == Arity(k)
    ensures LessOutcome(Apply(Fresh(m, true), s, o, k, v), Apply(Fresh(m, false), t, o, k, w))
  {
    hide LessDefined, FieldOf, ElementOf, OffsetOf, LoadAt, StoreAt;
    match k {
      case Local =>
        LessItself(Pointer(o, []));
        LessUndef(t.mem[o]);
      case Field(f) =>
        LessScalarFunctions(v[0], w[0], v[0], w[0], f);
        LessSet(s, t, o, FieldOf(v[0], f), FieldOf(w[0], f));
      case FieldPointer(f) =>
        LessScalarFunctions(v[0], w[0], v[0], w[0], f);
        LessSet(s, t, o, FieldOf(v[0], f), FieldOf(w[0], f));
      case Index =>
        LessScalarFunctions(v[0], w[0], v[1], w[1], 0);
        LessSet(s, t, o, ElementOf(v[0], v[1]), ElementOf(w[0], w[1]));
      case ElementPointer =>
        LessScalarFunctions(v[0], w[0], v[1], w[1], 0);
        LessSet(s, t, o, ElementOf(v[0], v[1]), ElementOf(w[0], w[1]));
      case IndexPointer => LessPointed(s, t, o, v, w);
      case PointerElementPointer => LessPointed(s, t, o, v, w);
      case Deref => LessSet(s, t, o, v[0], w[0]);
      case AddressOf => LessSet(s, t, o, v[0], w[0]);
      case Alloca =>
        LessItself(Pointer(o, []));
        LessSet(s, t, o, Pointer(o, []), Pointer(o, []));
      case Load =>
        LessLoad(s.mem, t.mem, v[0], w[0]);
        LessSet(s, t, o, LoadAt(s.mem, v[0]), LoadAt(t.mem, w[0]));
      case Store => LessStore(s.mem, t.mem, v[1], w[1], v[0], w[0]);
      case Write => LessStore(s.mem, t.mem, v[1], w[1], v[0], w[0]);
      case Constant(_) =>
      case Op(op) => LessOp(m, s, t, o, op, v, w);
      case Jump(_) =>
      case Branch(_, _) => LessHere(v[0], w[0]);
      case Return =>
    }
  }

  lemma LessPointed(s: State, t: State, o: Id, v: seq<Val>, w: seq<Val>)
    requires Less(s, t) && LessAll(v, w) && |v| == 2
    ensures var a, b := OffsetOf(LoadAt(s.mem, v[0]), v[1]), OffsetOf(LoadAt(t.mem, w[0]), w[1]);
      && Less(s.(env := s.env[o := a]), t.(env := t.env[o := b]))
      && Less(s.(addr := s.addr[o := a]), t.(addr := t.addr[o := b]))
  {
    hide LessDefined, LoadAt, OffsetOf;
    LessLoad(s.mem, t.mem, v[0], w[0]);
    LessScalarFunctions(LoadAt(s.mem, v[0]), LoadAt(t.mem, w[0]), v[1], w[1], 0);
    LessSet(s, t, o, OffsetOf(LoadAt(s.mem, v[0]), v[1]), OffsetOf(LoadAt(t.mem, w[0]), w[1]));
  }

  lemma LessOp(m: Meaning, s: State, t: State, o: Id, op: nat, v: seq<Val>, w: seq<Val>)
    requires Monotone(m) && Less(s, t) && LessAll(v, w)
    ensures LessOutcome(Apply(Fresh(m, true), s, o, Op(op), v), Apply(Fresh(m, false), t, o, Op(op), w))
  {
    hide LessDefined, LessAll;
    var a, b := m.op(op, v, s.mem), m.op(op, w, t.mem);
    if a.Effect? {
      assert b.Effect? && LessDefined(a.result, b.result) && LessMap(a.mem, b.mem);
    }
  }

  lemma LessExec(p: Program, m: Meaning, s: State, t: State, o: Id)
    requires Monotone(m) && Less(s, t) && Slots(p, t)
    ensures LessOutcome(Exec(p, Fresh(m, true), s, o), Exec(p, Fresh(m, false), t, o))
  {
    hide Monotone, Less, LessSome, Apply, Fetch, LessOutcome;
    if Enabled(p, Strict, s, o) {
      var node := p.nodes[o];
      forall i | 0 <= i < |node.args|
        ensures Fetch(p, Strict, t, node.kind, i, node.args[i]).Some?
        ensures LessDefined(Fetch(p, Strict, s, node.kind, i, node.args[i]).value,
            Fetch(p, Strict, t, node.kind, i, node.args[i]).value)
      {
        LessFetch(p, s, t, node.kind, i, node.args[i]);
        LessBoth(Fetch(p, Strict, s, node.kind, i, node.args[i]), Fetch(p, Strict, t, node.kind, i, node.args[i]));
      }
      assert Enabled(p, Strict, t, o);
      LessApply(m, s, t, o, node.kind, Operands(p, Strict, s, node), Operands(p, Strict, t, node));
    } else {
      LessStuck(Exec(p, Fresh(m, false), t, o));
    }
  }

  lemma LessBoth(a: Option<Val>, b: Option<Val>)
    requires LessSome(a, b) && a.Some?
    ensures b.Some? && LessDefined(a.value, b.value)
  {
  }

  lemma LessStuck(b: Outcome)
    ensures LessOutcome(Stuck, b)
  {
  }

  lemma ExecKeepsSlots(p: Program, m: Meaning, t: State, o: Id)
    requires KeepsSlots(m) && Slots(p, t)
    ensures var r := Exec(p, Fresh(m, false), t, o);
      (r.Next? ==> Slots(p, r.st)) && (r.Goto? ==> Slots(p, r.st))
  {
    hide Ready, Operands;
  }

  lemma {:induction false} LessList(p: Program, m: Meaning, s: State, t: State, list: seq<Id>)
    requires Monotone(m) && KeepsSlots(m) && Less(s, t) && Slots(p, t)
    ensures var r := ExecList(p, Fresh(m, false), t, list);
      && LessOutcome(ExecList(p, Fresh(m, true), s, list), r)
      && (r.Goto? ==> Slots(p, r.st))
    decreases |list|
  {
    hide Monotone, KeepsSlots, Less, Slots, Exec;
    if list != [] {
      LessExec(p, m, s, t, list[0]);
      ExecKeepsSlots(p, m, t, list[0]);
      if Exec(p, Fresh(m, false), t, list[0]).Next? {
        var t1 := Exec(p, Fresh(m, false), t, list[0]).st;
        if Exec(p, Fresh(m, true), s, list[0]).Next? {
          LessList(p, m, Exec(p, Fresh(m, true), s, list[0]).st, t1, list[1..]);
        } else {
          ListKeepsSlots(p, m, t1, list[1..]);
        }
      }
    }
  }

  lemma {:induction false} ListKeepsSlots(p: Program, m: Meaning, t: State, list: seq<Id>)
    requires KeepsSlots(m) && Slots(p, t)
    ensures var r := ExecList(p, Fresh(m, false), t, list); r.Goto? ==> Slots(p, r.st)
    decreases |list|
  {
    hide KeepsSlots, Slots, Exec;
    if list != [] {
      ExecKeepsSlots(p, m, t, list[0]);
      if Exec(p, Fresh(m, false), t, list[0]).Next? {
        ListKeepsSlots(p, m, Exec(p, Fresh(m, false), t, list[0]).st, list[1..]);
      }
    }
  }

  /** One slot for the whole run gives at least what a new one at each declaration gives. */
  lemma {:induction false} LessRun(p: Program, m: Meaning, s: State, t: State, b: nat, fuel: nat)
    requires Monotone(m) && KeepsSlots(m) && Less(s, t) && Slots(p, t)
    ensures LessOutcome(Run(p, Fresh(m, true), s, b, fuel), Run(p, Fresh(m, false), t, b, fuel))
    decreases fuel
  {
    hide Monotone, KeepsSlots, Less, Slots, ExecList;
    if fuel > 0 && b < |p.blocks| {
      LessList(p, m, s, t, p.blocks[b]);
      match ExecList(p, Fresh(m, true), s, p.blocks[b]) {
        case Goto(c, s1) => LessRun(p, m, s1, ExecList(p, Fresh(m, false), t, p.blocks[b]).st, c, fuel - 1);
        case Next(_) =>
        case Done(_, _) =>
        case Stuck =>
      }
    }
  }
}
