/** The whole pointer lowering: the conversions are repeated until a round changes nothing, and then the
    dereferences become loads and stores. */
module PointerLowering {
  import opened PointerIr
  import opened PointerModes
  import PointerConvert
  import PointerConvertRuns
  import opened PointerEdit
  import PointerAddress
  import PointerConstants
  import PointerLoads
  import PointerLoadRuns
  import PointerHoist
  import PointerPlaced

  ghost predicate Starting(s: State) {
    s.addr == map[] && forall o :: o in s.env ==> o.Orig?
  }

  /** Every original name of the second program is one of the first. */
  ghost predicate NamesKept(p: Program, q: Program) {
    forall o :: o in q.nodes && o.Orig? ==> o in p.nodes
  }

  /** Runs that start with values of original names only and are not stuck end alike, no original name is new,
      and no dereference gets a constant for its pointer. */
  ghost predicate Preserves(p: Program, q: Program) {
    && NamesKept(p, q) && (PointerPlaced.PointersPlain(p) ==> PointerPlaced.PointersPlain(q))
    && forall m: Meaning, s: State, fuel: nat ::
      (m.mode.Lazy? && !m.freshLocals && Starting(s) && !Run(p, m, s, 0, fuel).Stuck?) ==>
      Run(q, m, s, 0, fuel) == Run(p, m, s, 0, fuel)
  }

  /** The values a run starts with are those of parameters, which are not nodes. */
  ghost predicate Outside(p: Program, s: State) {
    forall o :: o in s.env ==> o !in p.nodes
  }

  /** What the whole lowering does: it keeps the runs from such values. */
  ghost predicate Lowers(p: Program, q: Program) {
    forall m: Meaning, s: State, fuel: nat ::
      (m.mode.Lazy? && !m.freshLocals && Starting(s) && Outside(p, s) && !Run(p, m, s, 0, fuel).Stuck?) ==>
      Run(q, m, s, 0, fuel) == Run(p, m, s, 0, fuel)
  }

  /** Only the first block allocates. */
  ghost predicate AllocatesOnTop(p: Program) {
    forall b, o :: 0 < b < |p.blocks| && o in p.blocks[b] ==> !PointerHoist.Movable(p.nodes, o)
  }

  lemma PreservesTransitive(p: Program, q: Program, r: Program)
    requires Preserves(p, q) && Preserves(q, r)
    ensures Preserves(p, r)
  {
  }

  predicate HighKind(k: Kind) {
    k.Local? || PointerConvert.Extends(k)
  }

  /** The nodes that are still to be lowered. */
  function High(p: Program): set<Id> {
    set o | o in p.nodes && HighKind(p.nodes[o].kind)
  }

  /** The node extends or names the place of a dereference, so it can be converted now. */
  predicate Sits(p: Program, o: Id) {
    && o in p.nodes && PointerConvert.Extends(p.nodes[o].kind)
    && |p.nodes[o].args| > 0 && Unary(p, p.nodes[o].args[0], Deref)
  }

  /** What lowering may do to the nodes that are still to be lowered. */
  ghost predicate Advances(p: Program, q: Program) {
    && High(q) <= High(p)
    && forall o :: o in High(q) ==>
        q.nodes[o].kind == p.nodes[o].kind && (Sits(p, o) ==> Sits(q, o))
  }

  ghost predicate Good(p: Program) {
    && PointerConvert.WellFormed(p)
    && PointerConstants.ConstantsClosed(p)
    && forall o :: o in High(p) ==> o.Orig?
  }

  // ---------- one conversion ----------

  lemma HighNode(p: Program, n: Id)
    requires Good(p) && n in High(p)
    ensures n.Orig? && |p.nodes[n].args| == Arity(p.nodes[n].kind)
    ensures PointerConvert.Extends(p.nodes[n].kind) ==>
      VariableLike(p, p.nodes[n].args[0]) && Rank(p.nodes[n].args[0]) < Rank(n)
    ensures PointerConvert.Extends(p.nodes[n].kind) && Has(p, p.nodes[n].args[0], Deref) ==> Sits(p, n)
  {
    assert PointerConvert.NodeOk(p, n);
    if PointerConvert.Extends(p.nodes[n].kind) {
      var a := p.nodes[n].args[0];
      assert a in p.nodes[n].args && PointerConvert.NodeOk(p, a);
    }
  }

  lemma ConvertStep(p: Program, n: Id)
    requires Good(p) && n in High(p) && !p.nodes[n].kind.AddressOf? && (p.nodes[n].kind.Local? || Sits(p, n))
    ensures PointerConvert.Convertible(p, n)
    ensures var q := PointerConvert.Converted(p, n);
      Good(q) && High(q) == High(p) - {n} && Advances(p, q) && Preserves(p, q)
  {
    HighNode(p, n);
    assert PointerConvert.Convertible(p, n);
    var q := PointerConvert.Converted(p, n);
    PointerConvert.ConvertedWellFormed(p, n);
    ConvertPreserves(p, n);
    hide Preserves;
    forall o ensures o in High(q) <==> o in High(p) && o != n {
      ConvertedHigh(p, n, o);
    }
    forall o | o in High(q) ensures q.nodes[o].kind == p.nodes[o].kind && (Sits(p, o) ==> Sits(q, o)) {
      ConvertedHigh(p, n, o);
    }
    forall o | PointerConstants.IsConstant(q, o) ensures q.nodes[o].args == [] {
      ConvertedConstant(p, n, o);
    }
  }

  lemma ConvertPreserves(p: Program, n: Id)
    requires PointerConvert.Convertible(p, n)
    ensures Preserves(p, PointerConvert.Converted(p, n))
  {
    hide PointerPlaced.PointersPlain;
    var q := PointerConvert.Converted(p, n);
    forall m: Meaning, s: State, fuel: nat | m.mode.Lazy? && !m.freshLocals && Starting(s)
      ensures !Run(p, m, s, 0, fuel).Stuck? ==> Run(q, m, s, 0, fuel) == Run(p, m, s, 0, fuel)
    {
      PointerConvertRuns.ConversionPreserves(p, n, m, s, fuel);
    }
    forall o | o in q.nodes && o.Orig? ensures o in p.nodes {
      PointerConvert.ConvertedNode(p, n, o);
    }
    if PointerPlaced.PointersPlain(p) {
      PointerPlaced.ConvertedPlain(p, n);
    }
  }

  lemma ConvertedHigh(p: Program, n: Id, o: Id)
    requires Good(p) && PointerConvert.Convertible(p, n)
    ensures var q := PointerConvert.Converted(p, n);
      && (o in High(q) <==> o in High(p) && o != n)
      && (o in High(q) ==> q.nodes[o].kind == p.nodes[o].kind && (Sits(p, o) ==> Sits(q, o)))
  {
    PointerConvert.ConvertedNode(p, n, o);
    PointerConvert.ConvertibleNode(p, n, n);
    if o in p.nodes && o != n {
      PointerConvert.ConvertibleNode(p, n, o);
      if Sits(p, o) {
        PointerConvert.RedirectAt(p, n, o, 0);
        PointerConvert.ConvertedNode(p, n, p.nodes[o].args[0]);
      }
    }
  }

  lemma ConvertedConstant(p: Program, n: Id, o: Id)
    requires Good(p) && PointerConvert.Convertible(p, n)
    ensures var q := PointerConvert.Converted(p, n); PointerConstants.IsConstant(q, o) ==> q.nodes[o].args == []
  {
    PointerConvert.ConvertedNode(p, n, o);
    if PointerConstants.IsConstant(p, o) {
      assert p.nodes[o].args == [];
    }
  }

  lemma AddressStep(p: Program, g: Id)
    requires Good(p) && g in High(p) && p.nodes[g].kind.AddressOf? && Sits(p, g)
    ensures PointerAddress.Removable(p, g)
    ensures var q := PointerAddress.WithoutAddress(p, g);
      Good(q) && High(q) == High(p) - {g} && Advances(p, q) && Preserves(p, q)
  {
    hide PointerPlaced.PointersPlain;
    HighNode(p, g);
    var q := PointerAddress.WithoutAddress(p, g);
    PointerAddress.WithoutWellFormed(p, g);
    forall o ensures o in High(q) <==> o in High(p) && o != g {
      WithoutHigh(p, g, o);
    }
    forall o | o in High(q) ensures q.nodes[o].kind == p.nodes[o].kind && (Sits(p, o) ==> Sits(q, o)) {
      WithoutHigh(p, g, o);
    }
    forall o | PointerConstants.IsConstant(q, o) ensures q.nodes[o].args == [] {
      PointerAddress.RemovableNode(p, g, o);
      assert PointerConstants.IsConstant(p, o);
    }
    forall m: Meaning, s: State, fuel: nat | m.mode.Lazy? && !m.freshLocals && Starting(s)
      ensures !Run(p, m, s, 0, fuel).Stuck? ==> Run(q, m, s, 0, fuel) == Run(p, m, s, 0, fuel)
    {
      PointerAddress.RemovalPreserves(p, g, m, s, fuel);
    }
    if PointerPlaced.PointersPlain(p) {
      PointerPlaced.WithoutPlain(p, g);
    }
  }

  lemma WithoutHigh(p: Program, g: Id, o: Id)
    requires Good(p) && PointerAddress.Removable(p, g)
    ensures var q := PointerAddress.WithoutAddress(p, g);
      && (o in High(q) <==> o in High(p) && o != g)
      && (o in High(q) ==> q.nodes[o].kind == p.nodes[o].kind && (Sits(p, o) ==> Sits(q, o)))
  {
    PointerAddress.RemovableNode(p, g, o);
    if Sits(p, o) {
      PointerAddress.RemovableNode(p, g, p.nodes[o].args[0]);
    }
  }

  lemma ConstantsStep(p: Program)
    requires Good(p)
    ensures var q := PointerConstants.WithConstants(p);
      Good(q) && High(q) == High(p) && Advances(p, q) && Preserves(p, q)
  {
    var q := PointerConstants.WithConstants(p);
    forall o | o in q.nodes ensures PointerConvert.NodeOk(q, o) {
      assert PointerConvert.NodeOk(p, o);
    }
    forall m: Meaning, s: State, fuel: nat ensures Run(q, m, s, 0, fuel) == Run(p, m, s, 0, fuel) {
      PointerConstants.ConstantsPreserve(p, m, s, 0, fuel);
    }
  }

  /** Where no variables are left, a first node that is still to be lowered sits on a dereference. */
  lemma {:induction false} SomeSits(p: Program, o: Id) returns (x: Id)
    requires Good(p) && o in High(p) && forall v :: v in High(p) ==> !p.nodes[v].kind.Local?
    ensures x in High(p) && Sits(p, x)
    decreases Rank(o)
  {
    HighNode(p, o);
    if Sits(p, o) {
      x := o;
    } else {
      x := SomeSits(p, p.nodes[o].args[0]);
    }
  }

  // ---------- the passes ----------

  /** What a pass guarantees. */
  ghost predicate PassDone(p: Program, q: Program) {
    Good(q) && Advances(p, q) && Preserves(p, q)
  }

  lemma PassesCompose(p: Program, q: Program, r: Program)
    requires PassDone(p, q) && PassDone(q, r)
    ensures PassDone(p, r)
  {
    PreservesTransitive(p, q, r);
  }

  lemma NothingDone(p: Program)
    requires Good(p)
    ensures PassDone(p, p)
  {
  }

  datatype Extension = Fields | IndexArrays | IndexPointers

  predicate Converts(e: Extension, k: Kind) {
    match e
    case Fields => k.Field?
    case IndexArrays => k.Index?
    case IndexPointers => k.IndexPointer?
  }

  /** The pass over fields reports a change for a field that sits on a dereference, those over indices for any
      index. */
  predicate Reports(e: Extension, p: Program, o: Id) {
    o in p.nodes && Converts(e, p.nodes[o].kind) && (!e.Fields? || Sits(p, o))
  }

  class Function {
    var nodes: map<Id, Node>
    var blocks: seq<seq<Id>>

    ghost function Code(): Program
      reads this
    {
      Program(nodes, blocks)
    }

    constructor (p: Program)
      ensures Code() == p
    {
      nodes, blocks := p.nodes, p.blocks;
    }

    /** Every local variable becomes the address of a slot allocated at the front of the first block. */
    method ConvertVariables() returns (changed: bool)
      requires Good(Code())
      modifies this
      ensures PassDone(old(Code()), Code())
      ensures forall o :: o in High(Code()) ==> !Code().nodes[o].kind.Local?
      ensures changed <==> exists o :: o in High(old(Code())) && old(Code()).nodes[o].kind.Local?
      ensures !changed ==> Code() == old(Code())
    {
      hide Preserves, Good, PointerConvert.Converted, PointerAddress.WithoutAddress;
      changed := false;
      NothingDone(Code());
      ghost var p := Code();
      var todo := set o | o in nodes && nodes[o].kind.Local?;
      while todo != {}
        invariant PassDone(p, Code())
        invariant forall o :: o in todo <==> o in High(Code()) && Code().nodes[o].kind.Local?
        invariant changed || Code() == p
        invariant changed ==> exists o :: o in High(p) && p.nodes[o].kind.Local?
        decreases |todo|
      {
        var o :| o in todo;
        todo := todo - {o};
        ghost var q := Code();
        ConvertStep(q, o);
        PassesCompose(p, q, PointerConvert.Converted(q, o));
        assert o in High(p) && p.nodes[o].kind.Local?;
        Convert(o);
        changed := true;
      }
    }

    /** The uses by one node, one operand after the other: the new node goes in front of the user, and the
        operand is set. */
    method EditUser(e: Edit, u: Id)
      requires u in nodes
      modifies this
      ensures nodes == UserNodes(e, old(nodes), u, |old(nodes)[u].args|)
      ensures blocks == InsertAll(old(blocks), u, MadeList(e, u, old(nodes)[u], |old(nodes)[u].args|))
    {
      hide UserAt, UserNodes, InsertList, MadeList, Makes, NewArg, NewKind, Made;
      ghost var was, lists := nodes, blocks;
      UserNone(e, nodes, blocks, u);
      var k := 0;
      while k < |nodes[u].args|
        invariant u in nodes && 0 <= k <= |was[u].args| && nodes[u] == UserAt(e, u, was[u], k)
        invariant nodes == UserNodes(e, was, u, k) && blocks == InsertAll(lists, u, MadeList(e, u, was[u], k))
      {
        UserStep(e, u, was[u], k);
        UserNow(e, was, u, k + 1);
        if nodes[u].args[k] == e.node {
          OperandEdited(e, was, u, k);
          ghost var before := blocks;
          var made := NewArg(e, u, nodes[u], k);
          var edited := Node(NewKind(e, nodes[u], k), nodes[u].args[k := made]);
          if Makes(e, nodes[u], k) {
            ListsEdited(e, lists, u, was[u], k);
            nodes := nodes[made := Made(e)];
            blocks := InsertAll(blocks, u, [made]);
          } else {
            ListsKept(e, u, was[u], k);
          }
          nodes := nodes[u := edited];
        } else {
          OperandKept(e, was, u, k);
        }
        k := k + 1;
      }
    }

    /** All uses of a node, one user after the other. */
    method EditUses(e: Edit)
      requires Fresh(e, Code())
      modifies this
      ensures nodes == DoneNodes(e, old(Code()), Users(e, old(Code())))
      ensures blocks == DoneBlocks(e, old(Code()), Users(e, old(Code())))
    {
      hide DoneNodes, DoneBlocks, UserNodes, InsertAll, MadeList, Fresh;
      ghost var p := Code();
      var users := set u | u in nodes && e.node in nodes[u].args;
      ghost var done: set<Id> := {};
      NoneDone(e, p);
      while users != {}
        invariant nodes == DoneNodes(e, p, done) && blocks == DoneBlocks(e, p, done)
        invariant done !! users && done + users == Users(e, p)
        decreases |users|
      {
        var u :| u in users;
        UserDone(e, p, done, u);
        ListsDone(e, p, done, u);
        EditUser(e, u);
        users := users - {u};
        done := done + {u};
      }
    }

    method RemoveFromBlocks(n: Id)
      modifies this`blocks
      ensures blocks == PointerAddress.DropAll(n, old(blocks))
    {
      blocks := PointerAddress.DropAll(n, blocks);
    }

    /** The edit of one conversion: every use gets a dereference of its own, and the pointer node takes the
        place of the node; that of a variable is allocated at the front of the first block. */
    method Convert(n: Id)
      requires PointerConvert.Convertible(Code(), n)
      modifies this
      ensures Code() == PointerConvert.Converted(old(Code()), n)
    {
      ghost var p := Code();
      var node := PointerConvert.PointerNode(Program(nodes, blocks), n).value;
      var local := nodes[n].kind.Local?;
      ConvertibleFresh(p, n);
      EditUses(ToDeref(n));
      if local {
        RemoveFromBlocks(n);
        if blocks != [] {
          blocks := blocks[0 := [n] + blocks[0]];
        }
      }
      nodes := nodes[n := node];
      ConvertedNodes(p, n, node);
      BlocksConverted(p, n);
    }

    /** The three passes over the nodes that extend a place.  A node whose place is not yet that of a
        dereference is skipped; the passes over indices report a change all the same. */
    method ConvertExtensions(e: Extension) returns (changed: bool)
      requires Good(Code())
      modifies this
      ensures PassDone(old(Code()), Code())
      ensures forall o :: o in High(Code()) && Converts(e, Code().nodes[o].kind) ==> !Sits(old(Code()), o)
      ensures changed <==> exists o :: o in High(old(Code())) && Reports(e, old(Code()), o)
      ensures !changed ==> Code() == old(Code())
    {
      hide Preserves, Good, PointerConvert.Converted, PointerAddress.WithoutAddress;
      changed := false;
      NothingDone(Code());
      ghost var p := Code();
      var todo := set o | o in nodes && Converts(e, nodes[o].kind);
      while todo != {}
        invariant PassDone(p, Code())
        invariant forall o :: o in todo ==> o in High(Code()) && Converts(e, Code().nodes[o].kind)
        invariant forall o :: o in High(Code()) && Converts(e, Code().nodes[o].kind) && o !in todo ==> !Sits(p, o)
        invariant !changed ==> Code() == p
        invariant !changed && !e.Fields? ==> forall o :: o in High(p) && Converts(e, p.nodes[o].kind) ==> o in todo
        invariant changed ==> exists o :: o in High(p) && Reports(e, p, o)
        decreases |todo|
      {
        var o :| o in todo;
        todo := todo - {o};
        ghost var q := Code();
        HighNode(q, o);
        assert o in High(p) && Converts(e, p.nodes[o].kind);
        assert !changed && Sits(q, o) ==> Reports(e, p, o);
        if !e.Fields? {
          assert Reports(e, p, o);
          changed := true;
        }
        if nodes[o].args[0] in nodes && nodes[nodes[o].args[0]].kind.Deref? {
          ConvertStep(q, o);
          PassesCompose(p, q, PointerConvert.Converted(q, o));
          Convert(o);
          changed := true;
        }
      }
    }

    /** The address of a dereference is its pointer. */
    method ConvertAddresses() returns (changed: bool)
      requires Good(Code())
      modifies this
      ensures PassDone(old(Code()), Code())
      ensures forall o :: o in High(Code()) && Code().nodes[o].kind.AddressOf? ==> !Sits(old(Code()), o)
      ensures changed <==>
        exists o :: o in High(old(Code())) && old(Code()).nodes[o].kind.AddressOf? && Sits(old(Code()), o)
      ensures !changed ==> Code() == old(Code())
    {
      hide Preserves, Good, PointerConvert.Converted, PointerAddress.WithoutAddress;
      changed := false;
      NothingDone(Code());
      ghost var p := Code();
      var todo := set o | o in nodes && nodes[o].kind.AddressOf?;
      while todo != {}
        invariant PassDone(p, Code())
        invariant forall o :: o in todo ==> o in High(Code()) && Code().nodes[o].kind.AddressOf?
        invariant forall o :: o in High(Code()) && Code().nodes[o].kind.AddressOf? && o !in todo ==> !Sits(p, o)
        invariant !changed ==> Code() == p
        invariant changed ==> exists o :: o in High(p) && p.nodes[o].kind.AddressOf? && Sits(p, o)
        decreases |todo|
      {
        var o :| o in todo;
        todo := todo - {o};
        ghost var q := Code();
        HighNode(q, o);
        assert o in High(p) && p.nodes[o].kind.AddressOf?;
        assert !changed && Sits(q, o) ==> Sits(p, o);
        if nodes[o].args[0] in nodes && nodes[nodes[o].args[0]].kind.Deref? {
          AddressStep(q, o);
          PassesCompose(p, q, PointerAddress.WithoutAddress(q, o));
          RemoveAddress(o);
          changed := true;
        }
      }
    }

    /** Every use takes the pointer behind the dereference, and the address goes. */
    method RemoveAddress(g: Id)
      requires PointerAddress.Removable(Code(), g)
      modifies this
      ensures Code() == PointerAddress.WithoutAddress(old(Code()), g)
    {
      ghost var p := Code();
      var pointer := nodes[nodes[g].args[0]].args[0];
      EditUses(ToPointer(g, pointer));
      RemoveFromBlocks(g);
      nodes := nodes - {g};
      AddressNodes(p, g);
      BlocksWithout(p, g);
    }

    /** Every use that reads gets a load of its own, every write through the dereference becomes a store, and
        the dereference goes. */
    method LoadOne(d: Id)
      requires PointerLoads.Loadable(Code(), d)
      modifies this
      ensures Code() == PointerLoads.Loaded(old(Code()), d)
    {
      ghost var p := Code();
      var pointer := nodes[d].args[0];
      LoadableFresh(p, d);
      EditUses(ToLoad(d, pointer));
      RemoveFromBlocks(d);
      nodes := nodes - {d};
      LoadedNodes(p, d, pointer);
      BlocksLoaded(p, d);
    }

    /** A constant that no block before its user holds is put in front of the user. */
    method InsertValueToBlock() returns (changed: bool)
      modifies this
      ensures Code() == PointerConstants.WithConstants(old(Code()))
      ensures PointerConstants.ConstantsClosed(old(Code())) ==> PointerPlaced.Placed(Code())
      ensures changed <==> Code() != old(Code())
    {
      hide PointerConstants.Fill, PointerConstants.FillAll, PointerPlaced.Placed, PointerConstants.ConstantsClosed;
      ghost var p := Code();
      if PointerConstants.ConstantsClosed(p) {
        PointerPlaced.ConstantsPlaced(p);
      }
      ghost var all := PointerConstants.FillAll(p, blocks, {});
      changed := false;
      var seen: set<Id> := {};
      var result: seq<seq<Id>> := [];
      var b := 0;
      assert blocks[0..] == blocks;
      while b < |blocks|
        invariant Code() == p && 0 <= b <= |blocks| && |result| == b
        invariant all == result + PointerConstants.FillAll(p, blocks[b..], seen)
        invariant changed <==> result != blocks[..b]
      {
        PointerConstants.FillAllFrom(p, blocks, b, seen);
        var list, more := FillBlock(blocks[b], seen);
        Extend(result, blocks[..b], list, blocks[b]);
        assert blocks[..b + 1] == blocks[..b] + [blocks[b]];
        seen := seen + PointerConstants.Elements(list);
        result := result + [list];
        changed := changed || more;
        b := b + 1;
      }
      PointerConstants.FillAllLength(p, blocks[b..], seen);
      assert blocks[..b] == blocks;
      blocks := result;
    }

    method FillBlock(list: seq<Id>, before: set<Id>) returns (filled: seq<Id>, more: bool)
      ensures filled == PointerConstants.Fill(Code(), list, before)
      ensures more <==> filled != list
    {
      hide PointerConstants.Fill, PointerConstants.Missing, PointerConstants.Elements;
      ghost var p := Code();
      filled := [];
      var seen := before;
      var i := 0;
      assert list[0..] == list;
      while i < |list|
        invariant 0 <= i <= |list| && |filled| >= i
        invariant PointerConstants.Fill(p, list, before) == filled + PointerConstants.Fill(p, list[i..], seen)
        invariant |filled| == i ==> filled == list[..i]
      {
        PointerConstants.FillAt(p, list, i, seen);
        seen := seen + {list[i]};
        var missing := MissingOperands(list[i], seen);
        filled := filled + missing + [list[i]];
        seen := seen + PointerConstants.Elements(missing);
        i := i + 1;
      }
      NothingToFill(p, list[i..], seen);
      more := |filled| > |list|;
      assert list[..i] == list;
    }

    /** The constants among the operands of a node that have not been seen. */
    method MissingOperands(u: Id, before: set<Id>) returns (missing: seq<Id>)
      ensures missing == PointerConstants.Missing(Code(), PointerConstants.Args(Code(), u), before)
    {
      hide PointerConstants.Missing;
      ghost var p := Code();
      missing := [];
      var seen := before;
      var args := if u in nodes then nodes[u].args else [];
      var k := 0;
      assert args[0..] == args;
      while k < |args|
        invariant 0 <= k <= |args|
        invariant PointerConstants.Missing(p, args, before) == missing + PointerConstants.Missing(p, args[k..], seen)
      {
        PointerConstants.MissingAt(p, args, k, seen);
        if args[k] !in seen && args[k] in nodes && nodes[args[k]].kind.Constant? {
          missing := missing + [args[k]];
          seen := seen + {args[k]};
        }
        k := k + 1;
      }
      PointerConstants.NoneMissing(p, args[k..], seen);
    }

    /** One turn of the fixpoint loop.  If anything is left to lower, something is lowered. */
    method Round() returns (changed: bool)
      requires Good(Code())
      modifies this
      ensures PassDone(old(Code()), Code())
      ensures High(old(Code())) == {} ==>
        && High(Code()) == {} && Code() == PointerConstants.WithConstants(old(Code()))
        && (changed <==> Code() != old(Code()))
      ensures High(old(Code())) != {} ==> changed && |High(Code())| < |High(old(Code()))|
    {
      hide Preserves, Good, PointerConstants.WithConstants;
      ghost var p0 := Code();
      ConstantsStep(p0);
      changed := InsertValueToBlock();
      ghost var p1 := Code();
      var again := ConvertVariables();
      ghost var p2 := Code();
      changed := again || changed;
      again := ConvertExtensions(Fields);
      ghost var p3 := Code();
      changed := again || changed;
      again := ConvertExtensions(IndexArrays);
      ghost var p4 := Code();
      changed := again || changed;
      again := ConvertExtensions(IndexPointers);
      ghost var p5 := Code();
      changed := again || changed;
      again := ConvertAddresses();
      changed := again || changed;
      RoundProgress(p0, p1, p2, p3, p4, p5, Code());
      RoundCompose(p0, p1, p2, p3, p4, p5, Code());
    }

    /** The fixpoint loop: a round that reports a change has fewer nodes left to lower, or has put constants
        in their blocks that no later round has to. */
    method LowerPlaces()
      requires Good(Code())
      modifies this
      ensures PassDone(old(Code()), Code()) && High(Code()) == {}
      ensures PointerPlaced.Placed(Code())
    {
      hide Preserves, Good, PointerConstants.WithConstants, PointerPlaced.Placed;
      ghost var p := Code();
      NothingDone(p);
      var changed := true;
      while changed
        invariant PassDone(p, Code())
        invariant !changed ==> High(Code()) == {} && PointerPlaced.Placed(Code())
        decreases |High(Code())|, if PointerConstants.WithConstants(Code()) == Code() then 0 else 1,
          if changed then 1 else 0
      {
        ghost var before := Code();
        GoodConstants(before);
        PointerPlaced.ConstantsPlaced(before);
        changed := Round();
        PassesCompose(p, before, Code());
      }
    }

    /** Every dereference becomes loads and stores; one is taken after the dereference its pointer is. */
    method LoadAndStore()
      requires PointerLoads.Late(Code())
      modifies this
      ensures Preserves(old(Code()), Code()) && Lowered(Code())
      ensures PointerPlaced.PointersPlain(old(Code())) && PointerPlaced.Placed(old(Code())) ==>
        PointerPlaced.Placed(Code())
    {
      hide Preserves, PointerLoads.Loaded, PointerPlaced.Placed, PointerPlaced.PointersPlain;
      ghost var p := Code();
      PreservesItself(p);
      var todo := set o | o in nodes && nodes[o].kind.Deref?;
      while todo != {}
        invariant Preserves(p, Code()) && PointerLoads.Late(Code())
        invariant PointerPlaced.PointersPlain(p) ==> PointerPlaced.PointersPlain(Code())
        invariant PointerPlaced.PointersPlain(p) && PointerPlaced.Placed(p) ==> PointerPlaced.Placed(Code())
        invariant forall o :: o in todo <==> o in nodes && nodes[o].kind.Deref?
        decreases |todo|
      {
        ghost var some :| some in todo;
        ghost var first := SomeLoadable(Code(), some);
        assert PointerLoads.LateNode(Code(), first);
        assert first in todo && |nodes[first].args| == 1;
        var d :|
          && d in todo && |nodes[d].args| == 1
          && !(nodes[d].args[0] in nodes && VariableKind(nodes[nodes[d].args[0]].kind));
        ghost var q := Code();
        todo := todo - {d};
        LoadStep(q, d);
        PreservesTransitive(p, q, PointerLoads.Loaded(q, d));
        LoadOne(d);
      }
      LoweredWhenNone(Code());
    }

    /** The allocations of every block but the first move to its front. */
    method TopAlloca()
      modifies this`blocks
      ensures Code() == PointerHoist.Hoisted(old(Code()))
    {
      hide PointerHoist.Lifted, PointerHoist.Rest;
      if blocks == [] {
        return;
      }
      ghost var was := blocks;
      var b := 1;
      while b < |blocks|
        invariant 1 <= b <= |blocks| == |was|
        invariant PointerHoist.LiftedAll(nodes, was[1..]) + was[0]
          == PointerHoist.LiftedAll(nodes, was[b..]) + blocks[0]
        invariant forall c :: b <= c < |was| ==> blocks[c] == was[c]
        invariant forall c :: 1 <= c < b ==> blocks[c] == PointerHoist.Rest(nodes, was[c])
      {
        PointerHoist.BlocksStep(nodes, was, b);
        HoistBlock(b);
        b := b + 1;
      }
      assert PointerHoist.LiftedAll(nodes, was[b..]) == [];
      PointerHoist.HoistedIs(old(Code()), blocks);
    }

    method HoistBlock(b: nat)
      requires 0 < b < |blocks|
      modifies this`blocks
      ensures |blocks| == |old(blocks)|
      ensures blocks[0] == PointerHoist.Lifted(nodes, old(blocks[b])) + old(blocks[0])
      ensures blocks[b] == PointerHoist.Rest(nodes, old(blocks[b]))
      ensures forall c :: 0 < c < |blocks| && c != b ==> blocks[c] == old(blocks[c])
    {
      hide PointerHoist.Lifted, PointerHoist.Rest;
      ghost var was := blocks;
      var i := 0;
      assert was[b][0..] == was[b];
      while i < |blocks[b]|
        invariant |blocks| == |was| && 0 <= i <= |blocks[b]|
        invariant PointerHoist.Lifted(nodes, was[b]) + was[0] == PointerHoist.Lifted(nodes, blocks[b][i..]) + blocks[0]
        invariant PointerHoist.Rest(nodes, was[b]) == blocks[b][..i] + PointerHoist.Rest(nodes, blocks[b][i..])
        invariant forall c :: 0 < c < |was| && c != b ==> blocks[c] == was[c]
        decreases |blocks[b]| - i
      {
        var list, o := blocks[b], blocks[b][i];
        PointerHoist.ListStep(nodes, list, i);
        if o in nodes && nodes[o] == Node(Alloca, []) {
          RemoveAt(b, i);
          blocks := blocks[0 := [o] + blocks[0]];
        } else {
          assert list[..i + 1] == list[..i] + [o];
          i := i + 1;
        }
      }
      PointerHoist.ListEnd(nodes, blocks[b][i..]);
      assert blocks[b][..i] == blocks[b];
    }

    method RemoveAt(b: nat, i: nat)
      requires b < |blocks| && i < |blocks[b]|
      modifies this`blocks
      ensures |blocks| == |old(blocks)| && forall c :: 0 <= c < |blocks| && c != b ==> blocks[c] == old(blocks[c])
      ensures |blocks[b]| == |old(blocks[b])| - 1
      ensures blocks[b][..i] == old(blocks[b][..i]) && blocks[b][i..] == old(blocks[b][i + 1..])
    {
      blocks := blocks[b := blocks[b][..i] + blocks[b][i + 1..]];
    }

    /** The whole lowering: it ends, leaves only pointers, allocates in the first block, and keeps every
        run; and every constant stands in front of its users. */
    method ApplySSATransformations()
      requires Good(Code())
      modifies this
      ensures Lowers(old(Code()), Code()) && Lowered(Code()) && AllocatesOnTop(Code())
      ensures PointerPlaced.PointersPlain(old(Code())) ==> PointerPlaced.Placed(Code())
    {
      hide PointerPlaced.Placed, PointerPlaced.PointersPlain;
      ghost var p := Code();
      LowerPlaces();
      LateNow(Code());
      ghost var q := Code();
      LoadAndStore();
      ghost var r := Code();
      PreservesTransitive(p, q, r);
      TopAlloca();
      HoistStep(p, r);
      if PointerPlaced.Placed(r) {
        PointerPlaced.HoistedPlaced(r);
      }
    }
  }

  lemma HoistStep(p: Program, q: Program)
    requires Preserves(p, q) && Lowered(q)
    ensures var r := PointerHoist.Hoisted(q); Lowers(p, r) && Lowered(r) && AllocatesOnTop(r)
  {
    var r := PointerHoist.Hoisted(q);
    forall m: Meaning, s: State, fuel: nat |
      m.mode.Lazy? && !m.freshLocals && Starting(s) && Outside(p, s) && !Run(p, m, s, 0, fuel).Stuck?
      ensures Run(r, m, s, 0, fuel) == Run(p, m, s, 0, fuel)
    {
      assert Run(q, m, s, 0, fuel) == Run(p, m, s, 0, fuel);
      PointerHoist.HoistingPreserves(q, m, s, fuel);
    }
    forall b, o | 0 < b < |r.blocks| && o in r.blocks[b] ensures !PointerHoist.Movable(r.nodes, o) {
      if PointerHoist.Movable(r.nodes, o) {
        PointerHoist.HoistedOnTop(q, o);
      }
    }
  }

  lemma GoodConstants(p: Program)
    requires Good(p)
    ensures PointerConstants.ConstantsClosed(p)
    ensures PointerConstants.WithConstants(PointerConstants.WithConstants(p)) == PointerConstants.WithConstants(p)
  {
    PointerConstants.ConstantsOnce(p);
  }

  lemma PreservesItself(p: Program)
    ensures Preserves(p, p)
  {
  }

  lemma RoundCompose(p0: Program, p1: Program, p2: Program, p3: Program, p4: Program, p5: Program, p6: Program)
    requires PassDone(p0, p1) && PassDone(p1, p2) && PassDone(p2, p3)
    requires PassDone(p3, p4) && PassDone(p4, p5) && PassDone(p5, p6)
    ensures PassDone(p0, p6)
  {
    hide PassDone;
    PassesCompose(p0, p1, p2);
    PassesCompose(p0, p2, p3);
    PassesCompose(p0, p3, p4);
    PassesCompose(p0, p4, p5);
    PassesCompose(p0, p5, p6);
  }

  lemma RoundProgress(p0: Program, p1: Program, p2: Program, p3: Program, p4: Program, p5: Program, p6: Program)
    requires PassDone(p0, p1) && PassDone(p1, p2) && PassDone(p2, p3)
    requires PassDone(p3, p4) && PassDone(p4, p5) && PassDone(p5, p6)
    requires forall o :: o in High(p2) ==> !p2.nodes[o].kind.Local?
    requires forall o :: o in High(p3) && p3.nodes[o].kind.Field? ==> !Sits(p2, o)
    requires forall o :: o in High(p4) && p4.nodes[o].kind.Index? ==> !Sits(p3, o)
    requires forall o :: o in High(p5) && p5.nodes[o].kind.IndexPointer? ==> !Sits(p4, o)
    requires forall o :: o in High(p6) && p6.nodes[o].kind.AddressOf? ==> !Sits(p5, o)
    ensures High(p0) != {} ==> |High(p6)| < |High(p0)|
    ensures High(p6) <= High(p0)
  {
    hide Preserves, Good, Sits;
    if High(p2) == {} {
      assert High(p6) == {};
      Shrinks(High(p6), High(p0));
    } else {
      var o :| o in High(p2);
      var x := SomeSits(p2, o);
      assert x in High(p2) && Sits(p2, x);
      assert x !in High(p6);
      Shrinks(High(p6), High(p0));
    }
  }

  lemma Shrinks(a: set<Id>, b: set<Id>)
    requires a <= b
    ensures a != b ==> |a| < |b|
    ensures |a| <= |b|
  {
    assert b == a + (b - a);
    assert |b| == |a| + |b - a|;
  }

  lemma LateNow(p: Program)
    requires Good(p) && High(p) == {}
    ensures PointerLoads.Late(p)
  {
    forall o | o in p.nodes ensures PointerLoads.LateNode(p, o) {
      assert o !in High(p);
      assert PointerConvert.NodeOk(p, o);
      forall a | a in p.nodes[o].args ensures PointerLoads.Gone(p, a) {
        if a in p.nodes {
          assert PointerConvert.NodeOk(p, a);
        }
      }
      if p.nodes[o].kind.Deref? {
        assert p.nodes[o].args[0] in p.nodes[o].args;
      }
    }
  }

  lemma {:induction false} SomeLoadable(p: Program, o: Id) returns (x: Id)
    requires PointerLoads.Late(p) && o in p.nodes && p.nodes[o].kind.Deref?
    ensures PointerLoads.Loadable(p, x)
    decreases Rank(o)
  {
    assert PointerLoads.LateNode(p, o);
    if VariableLike(p, p.nodes[o].args[0]) {
      assert PointerLoads.LateNode(p, p.nodes[o].args[0]);
      x := SomeLoadable(p, p.nodes[o].args[0]);
    } else {
      x := o;
    }
  }

  lemma LoadStep(p: Program, d: Id)
    requires PointerLoads.Loadable(p, d)
    ensures var q := PointerLoads.Loaded(p, d);
      && PointerLoads.Late(q) && Preserves(p, q)
      && (PointerPlaced.PointersPlain(p) ==> PointerPlaced.PointersPlain(q))
      && (forall o :: o in q.nodes && q.nodes[o].kind.Deref? <==> o in p.nodes && p.nodes[o].kind.Deref? && o != d)
      && (PointerPlaced.PointersPlain(p) && PointerPlaced.Placed(p) ==> PointerPlaced.Placed(q))
  {
    hide PointerPlaced.PointersPlain, PointerPlaced.Placed;
    if PointerPlaced.PointersPlain(p) {
      PointerPlaced.LoadedPlain(p, d);
      if PointerPlaced.Placed(p) {
        PointerPlaced.LoadedPlaced(p, d);
      }
    }
    var q := PointerLoads.Loaded(p, d);
    forall o | o in q.nodes ensures PointerLoads.LateNode(q, o) {
      PointerLoads.LoadedNodeOk(p, d, o);
    }
    forall o ensures o in q.nodes && q.nodes[o].kind.Deref? <==> o in p.nodes && p.nodes[o].kind.Deref? && o != d {
      PointerLoads.LoadedNode(p, d, o);
    }
    forall m: Meaning, s: State, fuel: nat | m.mode.Lazy? && !m.freshLocals && Starting(s)
      ensures !Run(p, m, s, 0, fuel).Stuck? ==> Run(q, m, s, 0, fuel) == Run(p, m, s, 0, fuel)
    {
      PointerLoadRuns.LoadingPreserves(p, d, m, s, fuel);
    }
  }

  lemma LoweredWhenNone(p: Program)
    requires PointerLoads.Late(p) && forall o :: o in p.nodes ==> !p.nodes[o].kind.Deref?
    ensures Lowered(p)
  {
    forall o | o in p.nodes ensures !VariableKind(p.nodes[o].kind) && !p.nodes[o].kind.AddressOf? {
      assert PointerLoads.LateNode(p, o);
    }
  }

  lemma Extend<T>(a: seq<T>, b: seq<T>, x: T, y: T)
    requires |a| == |b|
    ensures a + [x] == b + [y] <==> a == b && x == y
  {
    if a + [x] == b + [y] {
      assert a == (a + [x])[..|a|] && b == (b + [y])[..|a|];
      assert (a + [x])[|a|] == (b + [y])[|a|];
    }
  }

  lemma NothingToFill(p: Program, list: seq<Id>, seen: set<Id>)
    requires list == []
    ensures PointerConstants.Fill(p, list, seen) == []
  {
  }
}
