/** An address of a dereference is the pointer itself: its users take the pointer, and it leaves its
    block. */
module PointerAddress {
  import opened Wrappers
  import opened PointerIr
  import opened PointerConvert

  ghost predicate Removable(p: Program, g: Id) {
    WellFormed(p) && g.Orig? && Unary(p, g, AddressOf) && Unary(p, p.nodes[g].args[0], Deref)
  }

  function PointerBehind(p: Program, g: Id): Id
    requires Unary(p, g, AddressOf) && Unary(p, p.nodes[g].args[0], Deref)
  {
    p.nodes[p.nodes[g].args[0]].args[0]
  }

  function Replace(g: Id, a: Id, args: seq<Id>): (r: seq<Id>)
    ensures |r| == |args|
  {
    seq(|args|, k requires 0 <= k < |args| => if args[k] == g then a else args[k])
  }

  function Drop(g: Id, list: seq<Id>): (r: seq<Id>)
    ensures forall o :: o in r <==> o in list && o != g
  {
    if list == [] then [] else (if list[0] == g then [] else [list[0]]) + Drop(g, list[1..])
  }

  function DropAll(g: Id, blocks: seq<seq<Id>>): seq<seq<Id>> {
    seq(|blocks|, b requires 0 <= b < |blocks| => Drop(g, blocks[b]))
  }

  function WithoutAddress(p: Program, g: Id): Program
    requires Unary(p, g, AddressOf) && Unary(p, p.nodes[g].args[0], Deref)
  {
    Program(
      map o | o in p.nodes && o != g :: Node(p.nodes[o].kind, Replace(g, PointerBehind(p, g), p.nodes[o].args)),
      DropAll(g, p.blocks))
  }

  ghost predicate Related(g: Id, s: State, t: State) {
    && s.mem == t.mem && s.addr == t.addr
    && forall o :: o in s.env && o != g ==> o in t.env && t.env[o] == s.env[o]
  }

  lemma RemovableNode(p: Program, g: Id, o: Id)
    requires Removable(p, g)
    ensures var a := PointerBehind(p, g); a != g && Rank(a) <= Rank(Base(a)) < Rank(g) && (a.Orig? || a in p.nodes)
    ensures Plain(p, PointerBehind(p, g)) || Rank(PointerBehind(p, g)) < Rank(p.nodes[g].args[0]) < Rank(g)
    ensures o in WithoutAddress(p, g).nodes <==> o in p.nodes && o != g
    ensures o in p.nodes && o != g ==>
      WithoutAddress(p, g).nodes[o] == Node(p.nodes[o].kind, Replace(g, PointerBehind(p, g), p.nodes[o].args))
    ensures o in p.nodes && g in p.nodes[o].args ==> o.Orig? && Rank(g) < Rank(o)
    ensures o in p.nodes && o.Orig? ==> forall a :: a in p.nodes[o].args ==> Rank(a) <= Rank(Base(a)) < Rank(o)
    ensures o != g ==> VariableLike(WithoutAddress(p, g), o) == VariableLike(p, o)
    ensures o != g ==> Plain(WithoutAddress(p, g), o) == Plain(p, o)
  {
    assert NodeOk(p, g);
    var d := p.nodes[g].args[0];
    assert d in p.nodes[g].args;
    assert NodeOk(p, d);
    assert PointerBehind(p, g) in p.nodes[d].args;
    if o in p.nodes {
      assert NodeOk(p, o);
      assert g in p.nodes[o].args ==> o.Orig?;
    }
  }

  /** Whether a pointer is the content of a variable does not change. */
  lemma {:induction false} RootSame(p: Program, g: Id, o: Id)
    requires Removable(p, g) && o != g
    ensures RootVariable(WithoutAddress(p, g), o) == RootVariable(p, o)
    decreases Rank(o)
  {
    hide WithoutAddress, WellFormed, NodeOk;
    var q := WithoutAddress(p, g);
    RemovableNode(p, g, o);
    if Unary(p, o, AddressOf) {
      var v := p.nodes[o].args[0];
      assert v in p.nodes[o].args;
      Extended(p, o);
      RemovableNode(p, g, v);
      assert v != g && q.nodes[o].args[0] == v;
      if Unary(p, v, Deref) {
        var a := p.nodes[v].args[0];
        assert a in p.nodes[v].args;
        if a == g {
          RootBehind(p, g);
          RootSame(p, g, PointerBehind(p, g));
        } else if Rank(a) < Rank(o) {
          RootSame(p, g, a);
        }
      }
    }
  }

  lemma Extended(p: Program, o: Id)
    requires WellFormed(p) && Unary(p, o, AddressOf)
    ensures VariableLike(p, p.nodes[o].args[0]) && o.Orig?
  {
    assert NodeOk(p, o);
  }

  lemma RootBehind(p: Program, g: Id)
    requires Removable(p, g)
    ensures RootVariable(p, g) == RootVariable(p, PointerBehind(p, g))
  {
    RemovableNode(p, g, g);
  }

  /** The address gives what the pointer gives. */
  lemma ReadBehind(p: Program, g: Id, s: State)
    requires Removable(p, g)
    ensures Read(p, s, g).Some? ==> Read(p, s, g) == Read(p, s, PointerBehind(p, g))
    ensures Place(p, s, g) == None && AccessPlace(p, s, g) == None
  {
    RemovableNode(p, g, g);
    hide WellFormed, WithoutAddress;
    var d, a := p.nodes[g].args[0], PointerBehind(p, g);
    assert Read(p, s, g).Some? ==> Read(p, s, g) == Place(p, s, d) == Below(p, s, a, Rank(d));
    assert Plain(p, a) ==> Read(p, s, a) == Get(s.env, a);
  }

  lemma {:induction false} ReadSame(p: Program, g: Id, s: State, t: State, o: Id)
    requires Removable(p, g) && Related(g, s, t) && o != g
    ensures Read(p, s, o).Some? ==> Read(WithoutAddress(p, g), t, o) == Read(p, s, o)
    ensures Place(p, s, o).Some? ==> Place(WithoutAddress(p, g), t, o) == Place(p, s, o)
    ensures AccessPlace(p, s, o).Some? ==> AccessPlace(WithoutAddress(p, g), t, o) == AccessPlace(p, s, o)
    decreases Rank(o), 1
  {
    hide WithoutAddress, WellFormed, NodeOk;
    var q := WithoutAddress(p, g);
    RemovableNode(p, g, o);
    if Unary(p, o, Deref) {
      BelowSame(p, g, s, t, o);
      DerefRoot(p, g, o);
      assert AccessPlace(p, s, o).Some? ==> AccessPlace(q, t, o) == AccessPlace(p, s, o);
    } else if Unary(p, o, AddressOf) {
      var v := p.nodes[o].args[0];
      assert v in p.nodes[o].args;
      Extended(p, o);
      RemovableNode(p, g, v);
      assert v != g;
      ReadSame(p, g, s, t, v);
      assert Read(p, s, o).Some? ==> Read(q, t, o) == Place(q, t, q.nodes[o].args[0]);
    } else if o !in p.nodes {
      assert o !in q.nodes;
    } else {
      assert q.nodes[o].kind == p.nodes[o].kind && |q.nodes[o].args| == |p.nodes[o].args|;
      assert AccessPlace(p, s, o) == Place(p, s, o) && AccessPlace(q, t, o) == Place(q, t, o);
    }
  }

  lemma DerefRoot(p: Program, g: Id, o: Id)
    requires Removable(p, g) && o != g && Unary(p, o, Deref)
    ensures Unary(WithoutAddress(p, g), o, Deref)
    ensures RootVariable(WithoutAddress(p, g), WithoutAddress(p, g).nodes[o].args[0])
      == RootVariable(p, p.nodes[o].args[0])
  {
    hide WellFormed, NodeOk;
    RemovableNode(p, g, o);
    var a := p.nodes[o].args[0];
    if a == g {
      RootBehind(p, g);
      RemovableNode(p, g, g);
      RootSame(p, g, PointerBehind(p, g));
    } else {
      RootSame(p, g, a);
    }
  }

  lemma {:induction false} BelowSame(p: Program, g: Id, s: State, t: State, o: Id)
    requires Removable(p, g) && Related(g, s, t) && o != g && Unary(p, o, Deref)
    ensures Unary(WithoutAddress(p, g), o, Deref)
    ensures Below(p, s, p.nodes[o].args[0], Rank(o)).Some? ==>
      Below(WithoutAddress(p, g), t, WithoutAddress(p, g).nodes[o].args[0], Rank(o))
      == Below(p, s, p.nodes[o].args[0], Rank(o))
    decreases Rank(o), 0
  {
    hide WithoutAddress, WellFormed, NodeOk;
    var q := WithoutAddress(p, g);
    var a := p.nodes[o].args[0];
    assert a in p.nodes[o].args;
    RemovableNode(p, g, o);
    if a == g {
      var b := PointerBehind(p, g);
      ReadBehind(p, g, s);
      RemovableNode(p, g, b);
      ReadSame(p, g, s, t, b);
    } else {
      RemovableNode(p, g, a);
      if !Plain(p, a) && Rank(a) < Rank(o) {
        ReadSame(p, g, s, t, a);
      }
    }
  }

  lemma WithoutNodeOk(p: Program, g: Id, o: Id)
    requires Removable(p, g) && o in WithoutAddress(p, g).nodes
    ensures NodeOk(WithoutAddress(p, g), o)
  {
    RemovableNode(p, g, o);
    assert NodeOk(p, o);
    hide WithoutAddress, WellFormed;
    var q, b := WithoutAddress(p, g), PointerBehind(p, g);
    RemovableNode(p, g, b);
    forall k | 0 <= k < |p.nodes[o].args|
      ensures q.nodes[o].args[k] in q.nodes || q.nodes[o].args[k].Orig?
      ensures o.Orig? ==> Rank(Base(q.nodes[o].args[k])) < Rank(o)
      ensures VariableLike(p, p.nodes[o].args[k]) ==>
        q.nodes[o].args[k] == p.nodes[o].args[k] && VariableLike(q, q.nodes[o].args[k])
    {
      assert p.nodes[o].args[k] in p.nodes[o].args;
      RemovableNode(p, g, p.nodes[o].args[k]);
    }
    if !o.Orig? {
      RemovableNode(p, g, o.node);
      assert q.nodes[o].args == [o.node];
    }
  }

  lemma WithoutWellFormed(p: Program, g: Id)
    requires Removable(p, g)
    ensures WellFormed(WithoutAddress(p, g))
  {
    forall o | o in WithoutAddress(p, g).nodes ensures NodeOk(WithoutAddress(p, g), o) {
      WithoutNodeOk(p, g, o);
    }
  }

  // ---------- runs ----------

  ghost predicate RelatedOutcome(g: Id, a: Outcome, b: Outcome) {
    match a
    case Next(s) => b.Next? && Related(g, s, b.st)
    case Goto(c, s) => b.Goto? && b.block == c && Related(g, s, b.st)
    case Done(v, mem) => b == Done(v, mem)
    case Stuck => true
  }

  lemma FetchSame(p: Program, g: Id, s: State, t: State, u: Id, k: nat)
    requires Removable(p, g) && Related(g, s, t) && u in p.nodes && u != g && k < |p.nodes[u].args|
    ensures u in WithoutAddress(p, g).nodes && |WithoutAddress(p, g).nodes[u].args| == |p.nodes[u].args|
    ensures LazyFetch(p, s, p.nodes[u].kind, k, p.nodes[u].args[k]).Some? ==>
      LazyFetch(WithoutAddress(p, g), t, p.nodes[u].kind, k, WithoutAddress(p, g).nodes[u].args[k])
      == LazyFetch(p, s, p.nodes[u].kind, k, p.nodes[u].args[k])
  {
    hide WithoutAddress, WellFormed, NodeOk, Related, RootVariable, Read, Place, AccessPlace;
    RemovableNode(p, g, u);
    var a := p.nodes[u].args[k];
    if a == g {
      ReadBehind(p, g, s);
      ReadSame(p, g, s, t, PointerBehind(p, g));
    } else {
      ReadSame(p, g, s, t, a);
    }
  }

  lemma ApplySame(g: Id, m: Meaning, s: State, t: State, u: Id, k: Kind, v: seq<Val>)
    requires Related(g, s, t) && (Arity(k) >= 0 ==> |v| == Arity(k))
    ensures RelatedOutcome(g, Apply(m, s, u, k, v), Apply(m, t, u, k, v))
  {
    hide FieldOf, ElementOf, OffsetOf, LoadAt, StoreAt, Related;
    SetSame(g, s, t, u, Undef, s.mem);
    match Apply(m, s, u, k, v) {
      case Next(r) =>
        SetSame(g, s, t, u, if u in r.env then r.env[u] else Undef, r.mem);
        SetSame(g, s, t, u, if u in r.addr then r.addr[u] else Undef, r.mem);
      case Goto(_, _) =>
      case Done(_, _) =>
      case Stuck =>
    }
  }

  lemma SetSame(g: Id, s: State, t: State, u: Id, v: Val, mem: Mem)
    requires Related(g, s, t)
    ensures Related(g, State(s.env[u := v], s.addr, mem), State(t.env[u := v], t.addr, mem))
    ensures Related(g, State(s.env, s.addr[u := v], mem), State(t.env, t.addr[u := v], mem))
    ensures Related(g, State(s.env, s.addr, mem), State(t.env, t.addr, mem))
    ensures s.mem == t.mem
  {
  }

  lemma ExecSame(p: Program, g: Id, m: Meaning, s: State, t: State, u: Id)
    requires Removable(p, g) && Related(g, s, t) && m.mode.Lazy? && u != g
    ensures RelatedOutcome(g, Exec(p, m, s, u), Exec(WithoutAddress(p, g), m, t, u))
  {
    hide WithoutAddress, WellFormed, NodeOk, Related, Apply, LazyFetch;
    if Enabled(p, m.mode, s, u) {
      var q, node := WithoutAddress(p, g), p.nodes[u];
      RemovableNode(p, g, u);
      forall k | 0 <= k < |node.args|
        ensures Fetch(q, m.mode, t, node.kind, k, q.nodes[u].args[k]) == Fetch(p, m.mode, s, node.kind, k, node.args[k])
      {
        FetchSame(p, g, s, t, u, k);
      }
      assert Enabled(q, m.mode, t, u);
      assert Operands(q, m.mode, t, q.nodes[u]) == Operands(p, m.mode, s, node);
      ApplySame(g, m, s, t, u, node.kind, Operands(p, m.mode, s, node));
    }
  }

  lemma AddressRuns(p: Program, g: Id, m: Meaning, s: State, t: State)
    requires Removable(p, g) && Related(g, s, t) && !Exec(p, m, s, g).Stuck?
    ensures Exec(p, m, s, g).Next? && Related(g, Exec(p, m, s, g).st, t)
  {
    hide Ready, Operands;
  }

  lemma {:induction false} DropRuns(p: Program, g: Id, m: Meaning, s: State, t: State, list: seq<Id>)
    requires Removable(p, g) && Related(g, s, t) && m.mode.Lazy?
    ensures RelatedOutcome(g, ExecList(p, m, s, list), ExecList(WithoutAddress(p, g), m, t, Drop(g, list)))
    decreases |list|
  {
    hide WithoutAddress, WellFormed, NodeOk, Related, Exec;
    if list != [] && !Exec(p, m, s, list[0]).Stuck? {
      var q, u := WithoutAddress(p, g), list[0];
      if u == g {
        AddressRuns(p, g, m, s, t);
        assert [] + Drop(g, list[1..]) == Drop(g, list[1..]);
        DropRuns(p, g, m, Exec(p, m, s, g).st, t, list[1..]);
      } else {
        ExecSame(p, g, m, s, t, u);
        assert Drop(g, list)[0] == u && Drop(g, list)[1..] == Drop(g, list[1..]);
        match Exec(p, m, s, u) {
          case Next(s1) => DropRuns(p, g, m, s1, Exec(q, m, t, u).st, list[1..]);
          case Goto(_, _) =>
          case Done(_, _) =>
        }
      }
    }
  }

  lemma BlockWithout(p: Program, g: Id, b: nat)
    requires Unary(p, g, AddressOf) && Unary(p, p.nodes[g].args[0], Deref)
    ensures |WithoutAddress(p, g).blocks| == |p.blocks|
    ensures b < |p.blocks| ==> WithoutAddress(p, g).blocks[b] == Drop(g, p.blocks[b])
  {
  }

  lemma {:induction false} RunsSame(p: Program, g: Id, m: Meaning, s: State, t: State, b: nat, fuel: nat)
    requires Removable(p, g) && Related(g, s, t) && m.mode.Lazy?
    ensures !Run(p, m, s, b, fuel).Stuck? ==> Run(WithoutAddress(p, g), m, t, b, fuel) == Run(p, m, s, b, fuel)
    decreases fuel
  {
    hide WithoutAddress, WellFormed, NodeOk, Related, Drop, ExecList, PointerBehind;
    if fuel > 0 && b < |p.blocks| {
      var q := WithoutAddress(p, g);
      BlockWithout(p, g, b);
      DropRuns(p, g, m, s, t, p.blocks[b]);
      var x, y := ExecList(p, m, s, p.blocks[b]), ExecList(q, m, t, q.blocks[b]);
      match x {
        case Goto(c, s1) => RunsSame(p, g, m, s1, y.st, c, fuel - 1);
        case Next(_) =>
        case Done(_, _) =>
        case Stuck =>
      }
    }
  }

  /** Every run that is not stuck ends as before. */
  lemma RemovalPreserves(p: Program, g: Id, m: Meaning, s: State, fuel: nat)
    requires Removable(p, g) && m.mode.Lazy?
    ensures !Run(p, m, s, 0, fuel).Stuck? ==> Run(WithoutAddress(p, g), m, s, 0, fuel) == Run(p, m, s, 0, fuel)
  {
    RunsSame(p, g, m, s, s, 0, fuel);
  }
}
