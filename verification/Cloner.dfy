/** The memoised copy of a flattened function: its blocks, their instructions and the jumps between them. */
module Cloner {
  type Id = nat

  /** What a node is; its operands are in args.  Those of a block are its instructions, those of a branch
      its condition and its two blocks, those of a function its parameters and its blocks. */
  datatype Kind = Block | Jump | Branch | Value(op: nat) | Function

  datatype Node = Node(kind: Kind, args: seq<Id>)

  /** A function with its nodes; rank numbers the values in the order they are computed, and parent gives
      the block a branch ends. */
  datatype Source = Source(nodes: map<Id, Node>, root: Id, rank: map<Id, nat>, parent: map<Id, Id>)

  /** What may stand where. */
  predicate ArgKind(k: Kind, a: Kind) {
    match k
    case Block => a.Value? || a.Jump? || a.Branch?
    case Jump => a.Block?
    case Branch => a.Value? || a.Block?
    case Value(_) => a.Value? || a.Function?
    case Function => a.Value? || a.Block?
  }

  predicate Shared(g: Source, x: Id) {
    x in g.nodes && g.nodes[x].kind.Function? && x != g.root
  }

  /** All operands are among the nodes, but callees are not looked into; a value is computed from values
      that come before it; a branch stands in one block. */
  ghost predicate Flattened(g: Source) {
    && g.root in g.nodes && g.nodes[g.root].kind.Function?
    && (forall v :: v in g.nodes ==> v in g.rank && v in g.parent)
    && (forall v, a :: v in g.nodes && a in g.nodes[v].args && !Shared(g, v) ==> ArgOk(g, v, a))
  }

  ghost predicate ArgOk(g: Source, v: Id, a: Id)
    requires v in g.nodes && (forall x :: x in g.nodes ==> x in g.rank && x in g.parent)
  {
    && a in g.nodes && ArgKind(g.nodes[v].kind, g.nodes[a].kind)
    && (g.nodes[v].kind.Value? && g.nodes[a].kind.Value? ==> g.rank[a] < g.rank[v])
    && (g.nodes[v].kind.Block? && g.nodes[a].kind.Branch? ==> g.parent[a] == v)
  }

  // ---------- the state of a copy ----------

  /** The dictionary from nodes to their copies, every node that was created, what each of them is the copy
      of, and the next name. */
  datatype Cloning = Cloning(dict: map<Id, Id>, copies: map<Id, Node>, origin: map<Id, Id>, next: Id)

  ghost predicate Ok(g: Source, c: Cloning) {
    && c.dict.Keys <= g.nodes.Keys
    && (forall n :: n in g.nodes || n in c.copies ==> n < c.next)
    && (forall n :: n in c.copies ==> n !in g.nodes)
    && (forall x :: x in c.dict && Shared(g, x) ==> c.dict[x] == x)
    && (forall x :: x in c.dict && !Shared(g, x) ==> IsCopy(g, c, x, c.dict[x]))
    && (forall n :: n in c.copies ==> n in c.origin && c.origin[n] in c.dict && IsCopy(g, c, c.origin[n], n))
  }

  /** The one copy of a node. */
  ghost predicate IsCopy(g: Source, c: Cloning, x: Id, n: Id) {
    && x in c.dict && x in g.nodes && !Shared(g, x) && c.dict[x] == n
    && n in c.copies && c.copies[n].kind == g.nodes[x].kind
    && n in c.origin && c.origin[n] == x
  }

  /** The copy has the copies of the operands, in order. */
  ghost predicate Complete(g: Source, c: Cloning, x: Id) {
    x in c.dict && x in g.nodes &&
    (Shared(g, x) ||
     (c.dict[x] in c.copies && Mapped(c, g.nodes[x].args, c.copies[c.dict[x]].args)))
  }

  ghost predicate Mapped(c: Cloning, args: seq<Id>, copies: seq<Id>) {
    |args| == |copies| && forall i :: 0 <= i < |args| ==> args[i] in c.dict && copies[i] == c.dict[args[i]]
  }

  /** What was there stays, and all that is new is complete, perhaps but for one node. */
  ghost predicate GrowsBut(g: Source, c: Cloning, d: Cloning, v: Id) {
    && (forall x :: x in c.dict ==> x in d.dict && d.dict[x] == c.dict[x])
    && (forall n :: n in c.copies ==> n in d.copies && d.copies[n] == c.copies[n])
    && (forall x :: x in d.dict && x !in c.dict && x != v ==> Complete(g, d, x))
    && c.next <= d.next
  }

  ghost predicate Grows(g: Source, c: Cloning, d: Cloning) {
    && (forall x :: x in c.dict ==> x in d.dict && d.dict[x] == c.dict[x])
    && (forall n :: n in c.copies ==> n in d.copies && d.copies[n] == c.copies[n])
    && (forall x :: x in d.dict && x !in c.dict ==> Complete(g, d, x))
    && c.next <= d.next
  }

  lemma CompleteStays(g: Source, c: Cloning, d: Cloning, x: Id)
    requires Complete(g, c, x) && Grows(g, c, d)
    ensures Complete(g, d, x)
  {
  }

  lemma GrowsMore(g: Source, c: Cloning, d: Cloning, e: Cloning, v: Id)
    requires GrowsBut(g, c, d, v) && Grows(g, d, e) && v in d.dict
    ensures GrowsBut(g, c, e, v)
  {
    forall x | x in e.dict && x !in c.dict && x != v ensures Complete(g, e, x) {
      if x in d.dict {
        CompleteStays(g, d, e, x);
      }
    }
  }

  lemma GrowsTransitive(g: Source, c: Cloning, d: Cloning, e: Cloning)
    requires Grows(g, c, d) && Grows(g, d, e)
    ensures Grows(g, c, e)
  {
    forall x | x in e.dict && x !in c.dict ensures Complete(g, e, x) {
      if x in d.dict {
        CompleteStays(g, d, e, x);
      }
    }
  }

  lemma GrowsItself(g: Source, c: Cloning)
    ensures Grows(g, c, c)
  {
  }

  function Register(c: Cloning, v: Id, node: Node): Cloning {
    Cloning(c.dict[v := c.next], c.copies[c.next := node], c.origin[c.next := v], c.next + 1)
  }

  lemma RegisterKeeps(g: Source, c: Cloning, v: Id, args: seq<Id>)
    requires Ok(g, c) && v in g.nodes && v !in c.dict && !Shared(g, v)
    ensures var d := Register(c, v, Node(g.nodes[v].kind, args));
      && Ok(g, d) && GrowsBut(g, c, d, v)
      && (Mapped(c, g.nodes[v].args, args) ==> Grows(g, c, d))
  {
    var d := Register(c, v, Node(g.nodes[v].kind, args));
    forall x | x in d.dict && !Shared(g, x) ensures IsCopy(g, d, x, d.dict[x]) {
      if x != v {
        assert IsCopy(g, c, x, c.dict[x]);
      }
    }
    forall n | n in d.copies ensures n in d.origin && d.origin[n] in d.dict && IsCopy(g, d, d.origin[n], n) {
      if n != c.next {
        assert IsCopy(g, c, c.origin[n], n);
      }
    }
    if Mapped(c, g.nodes[v].args, args) {
      assert Complete(g, d, v);
    }
  }

  /** The copy of a block or a jump takes one more operand. */
  function Push(c: Cloning, n: Id, a: Id): Cloning
    requires n in c.copies
  {
    c.(copies := c.copies[n := Node(c.copies[n].kind, c.copies[n].args + [a])])
  }

  lemma PushKeeps(g: Source, b: Cloning, c: Cloning, v: Id, a: Id)
    requires Ok(g, b) && Ok(g, c) && v !in b.dict && v in c.dict && !Shared(g, v) && GrowsBut(g, b, c, v)
    ensures c.dict[v] in c.copies && Ok(g, Push(c, c.dict[v], a)) && GrowsBut(g, b, Push(c, c.dict[v], a), v)
  {
    var n := c.dict[v];
    var d := Push(c, n, a);
    assert IsCopy(g, c, v, n);
    assert n !in b.copies;
    forall x | x in d.dict && x !in b.dict && x != v ensures Complete(g, d, x) {
      assert Complete(g, c, x);
      if !Shared(g, x) {
        assert IsCopy(g, c, x, c.dict[x]);
      }
    }
    forall x | x in d.dict && !Shared(g, x) ensures IsCopy(g, d, x, d.dict[x]) {
      assert IsCopy(g, c, x, c.dict[x]);
    }
    forall m | m in d.copies ensures m in d.origin && d.origin[m] in d.dict && IsCopy(g, d, d.origin[m], m) {
      assert IsCopy(g, c, c.origin[m], m);
    }
  }

  // ---------- the visits ----------

  function Tier(k: Kind): nat {
    if k.Branch? then 2 else if k.Value? then 1 else 0
  }

  /** What a visit may be called with: of the nodes that are being visited and have no copy yet, the
      branches stand in blocks that have theirs, and the values come after this one. */
  ghost predicate Callable(g: Source, c: Cloning, v: Id, open_: set<Id>)
    requires Flattened(g)
  {
    && v in g.nodes && v != g.root && v !in open_ && open_ !! c.dict.Keys && open_ <= g.nodes.Keys
    && (g.nodes[v].kind.Branch? ==> g.parent[v] in c.dict)
    && (forall x :: x in open_ ==> Waits(g, c, v, x))
  }

  /** A node that waits for its operands, of which v may be one. */
  ghost predicate Waits(g: Source, c: Cloning, v: Id, x: Id)
    requires Flattened(g) && v in g.nodes
  {
    x in g.nodes &&
    match g.nodes[x].kind
    case Branch => g.parent[x] in c.dict && (g.nodes[v].kind.Branch? ==> g.parent[x] != g.parent[v])
    case Value(_) => g.nodes[v].kind.Function? || (g.nodes[v].kind.Value? && g.rank[v] < g.rank[x])
    case Block => false
    case Jump => false
    case Function => false
  }

  /** An operand of a node that waits. */
  lemma OperandCallable(g: Source, c: Cloning, v: Id, open_: set<Id>, a: Id, d: Cloning)
    requires Flattened(g) && Callable(g, c, v, open_) && a in g.nodes[v].args
    requires g.nodes[v].kind.Value? || g.nodes[v].kind.Branch?
    requires Grows(g, c, d) && (open_ + {v}) !! d.dict.Keys
    ensures a in g.nodes && (g.nodes[v].kind.Value? && g.nodes[a].kind.Value? ==> g.rank[a] < g.rank[v])
    ensures Tier(g.nodes[a].kind) <= 1 && (g.nodes[v].kind.Branch? ==> !g.nodes[a].kind.Function?)
    ensures g.nodes[v].kind.Value? ==> !g.nodes[a].kind.Block?
    ensures a != g.root ==> Callable(g, d, a, open_ + {v})
  {
    assert ArgOk(g, v, a);
    forall x | x in open_ + {v} ensures Waits(g, d, a, x) && x != a {
      if x != v {
        assert Waits(g, c, v, x);
      }
    }
  }

  /** An instruction of a block that has just got its copy. */
  lemma InstructionCallable(g: Source, c: Cloning, v: Id, open_: set<Id>, a: Id, d: Cloning)
    requires Flattened(g) && Callable(g, c, v, open_) && a in g.nodes[v].args
    requires g.nodes[v].kind.Block? || g.nodes[v].kind.Jump?
    requires v !in c.dict && v in d.dict && open_ !! d.dict.Keys
    requires forall x :: x in c.dict ==> x in d.dict
    ensures Callable(g, d, a, open_)
  {
    assert ArgOk(g, v, a);
    forall x | x in open_ ensures Waits(g, d, a, x) && x != a {
      assert Waits(g, c, v, x);
    }
  }

  lemma Fewer(g: Source, c: Cloning, d: Cloning, v: Id)
    requires c.dict.Keys <= d.dict.Keys && v in g.nodes && v in d.dict && v !in c.dict
    ensures |g.nodes.Keys - d.dict.Keys| < |g.nodes.Keys - c.dict.Keys|
  {
    Smaller(g.nodes.Keys - d.dict.Keys, g.nodes.Keys - c.dict.Keys);
  }

  lemma NotMore(g: Source, c: Cloning, d: Cloning)
    requires c.dict.Keys <= d.dict.Keys
    ensures |g.nodes.Keys - d.dict.Keys| <= |g.nodes.Keys - c.dict.Keys|
  {
    Smaller(g.nodes.Keys - d.dict.Keys, g.nodes.Keys - c.dict.Keys);
  }

  lemma Smaller(a: set<Id>, b: set<Id>)
    requires a <= b
    ensures |a| <= |b| && (a != b ==> |a| < |b|)
  {
    assert b == a + (b - a) && |b| == |a| + |b - a|;
  }

  class FunctionCloner {
    var valueDict: map<Id, Id>
    var copies: map<Id, Node>
    ghost var origin: map<Id, Id>
    var next: Id
    const g: Source

    ghost function State(): Cloning
      reads this
    {
      Cloning(valueDict, copies, origin, next)
    }

    constructor (g: Source, next: Id)
      requires Flattened(g) && forall n :: n in g.nodes ==> n < next
      ensures this.g == g && Ok(g, State()) && State() == Cloning(map[], map[], map[], next)
    {
      this.g, this.next := g, next;
      valueDict, copies, origin := map[], map[], map[];
    }

    method Create(v: Id, args: seq<Id>) returns (n: Id)
      requires v in g.nodes
      modifies this
      ensures n == old(next) && State() == Register(old(State()), v, Node(g.nodes[v].kind, args))
      ensures valueDict == old(valueDict)[v := n] && n in copies && copies[n] == Node(g.nodes[v].kind, args)
    {
      n := next;
      copies := copies[n := Node(g.nodes[v].kind, args)];
      valueDict := valueDict[v := n];
      origin := origin[n := v];
      next := next + 1;
    }

    method PushBack(n: Id, a: Id)
      requires n in copies
      modifies this
      ensures State() == Push(old(State()), n, a) && valueDict == old(valueDict)
    {
      copies := copies[n := Node(copies[n].kind, copies[n].args + [a])];
    }

    /** A node is copied at most once.  A callee is shared; a block and a jump are registered before what
        they name is visited, any other node after its operands. */
    method Visit(v: Id, ghost open_: set<Id>)
      requires Flattened(g) && Ok(g, State()) && g.root in valueDict && Callable(g, State(), v, open_)
      modifies this
      ensures Ok(g, State()) && Grows(g, old(State()), State()) && v in valueDict && open_ !! valueDict.Keys
      decreases |g.nodes.Keys - valueDict.Keys|, Tier(g.nodes[v].kind), g.rank[v], 1
    {
      GrowsItself(g, State());
      if v in valueDict {
        return;
      }
      match g.nodes[v].kind
      case Function =>
        ShareKeeps(g, State(), v);
        valueDict := valueDict[v := v];
      case Block => VisitContainer(v, open_);
      case Jump => VisitContainer(v, open_);
      case Branch => VisitInstruction(v, open_);
      case Value(_) => VisitInstruction(v, open_);
    }

    /** The copy is made, empty, before those of what it names: it has the first of the new names. */
    method VisitContainer(v: Id, ghost open_: set<Id>)
      requires Flattened(g) && Ok(g, State()) && g.root in valueDict && Callable(g, State(), v, open_)
      requires (g.nodes[v].kind.Block? || g.nodes[v].kind.Jump?) && v !in valueDict
      modifies this
      ensures Ok(g, State()) && Grows(g, old(State()), State()) && v in valueDict && open_ !! valueDict.Keys
      ensures valueDict[v] == old(next)
      decreases |g.nodes.Keys - valueDict.Keys|, Tier(g.nodes[v].kind), g.rank[v], 0
    {
      hide Flattened, Ok, Grows, GrowsBut, Callable, Mapped, Filled, Register, Push;
      ghost var before := State();
      Opened(g, before, v, open_);
      Opened2(g, before, v, open_, []);
      RegisterKeeps(g, before, v, []);
      var n := Create(v, []);
      FilledNone(g, State(), v, n);
      var i := 0;
      LessLeft(g, before, State(), v);
      while i < |g.nodes[v].args|
        invariant 0 <= i <= |g.nodes[v].args| && Ok(g, State()) && GrowsBut(g, before, State(), v)
        invariant v in valueDict && valueDict[v] == n && g.root in valueDict && open_ !! valueDict.Keys
        invariant Filled(g, State(), v, n, i)
        invariant |g.nodes.Keys - valueDict.Keys| < |g.nodes.Keys - before.dict.Keys|
      {
        CopyOperand(v, n, i, before, open_);
        LessLeft(g, before, State(), v);
        i := i + 1;
      }
      FilledAll(g, before, State(), v, n);
    }

    /** What a block or jump names is visited, and the copy gets its copy. */
    method CopyOperand(v: Id, n: Id, i: nat, ghost before: Cloning, ghost open_: set<Id>)
      requires Flattened(g) && Ok(g, before) && Ok(g, State()) && Callable(g, before, v, open_) && v !in before.dict
      requires (g.nodes[v].kind.Block? || g.nodes[v].kind.Jump?) && i < |g.nodes[v].args|
      requires GrowsBut(g, before, State(), v) && v in valueDict && valueDict[v] == n && g.root in valueDict
      requires open_ !! valueDict.Keys && Filled(g, State(), v, n, i)
      modifies this
      ensures Ok(g, State()) && GrowsBut(g, before, State(), v) && v in valueDict && valueDict[v] == n
      ensures g.root in valueDict && open_ !! valueDict.Keys && Filled(g, State(), v, n, i + 1)
      decreases |g.nodes.Keys - valueDict.Keys|, 3, 0, 0
    {
      hide Flattened, Ok, Grows, GrowsBut, Callable, Mapped, Filled, Register, Push, Tier;
      Opened(g, before, v, open_);
      var a := g.nodes[v].args[i];
      ghost var c := State();
      BeforeVisit(g, before, c, v, open_, a);
      Visit(a, open_);
      GrowsMore(g, before, c, State(), v);
      FilledStays(g, c, State(), v, n, i);
      PushKeeps(g, before, State(), v, valueDict[a]);
      FilledMore(g, State(), v, n, i);
      FilledIn(g, State(), v, n, i);
      PushBack(n, valueDict[a]);
    }

    /** The operands of a node are visited, and then it gets its copy, with the last of the new names. */
    method VisitInstruction(v: Id, ghost open_: set<Id>)
      requires Flattened(g) && Ok(g, State()) && g.root in valueDict && Callable(g, State(), v, open_)
      requires (g.nodes[v].kind.Branch? || g.nodes[v].kind.Value?) && v !in valueDict
      modifies this
      ensures Ok(g, State()) && Grows(g, old(State()), State()) && v in valueDict && open_ !! valueDict.Keys
      ensures valueDict[v] == next - 1
      decreases |g.nodes.Keys - valueDict.Keys|, Tier(g.nodes[v].kind), g.rank[v], 0
    {
      assert Mapped(State(), [], []);
      hide Flattened, Ok, Grows, GrowsBut, Callable, Mapped;
      ghost var before := State();
      Opened(g, before, v, open_);
      GrowsItself(g, before);
      var args: seq<Id> := [];
      var i := 0;
      assert g.nodes[v].args[..0] == [];
      while i < |g.nodes[v].args|
        invariant 0 <= i <= |g.nodes[v].args| && Ok(g, State()) && Grows(g, before, State())
        invariant g.root in valueDict && (open_ + {v}) !! valueDict.Keys
        invariant |args| == i && Mapped(State(), g.nodes[v].args[..i], args)
      {
        var a := g.nodes[v].args[i];
        ghost var c := State();
        BeforeOperand(g, before, c, v, open_, a);
        if a !in valueDict {
          Visit(a, open_ + {v});
        } else {
          GrowsItself(g, c);
        }
        GrowsTransitive(g, before, c, State());
        MappedMore(g, c, State(), g.nodes[v].args, args, i);
        args := args + [valueDict[a]];
        i := i + 1;
      }
      assert g.nodes[v].args[..i] == g.nodes[v].args;
      ghost var c := State();
      RegisterKeeps(g, c, v, args);
      Opened2(g, c, v, open_, args);
      var n := Create(v, args);
      GrowsTransitive(g, before, c, State());
    }

    /** The function is registered first, then its parameters and its blocks are copied in order. */
    method CloneFunction() returns (r: Id)
      requires Flattened(g) && Ok(g, State()) && valueDict == map[]
      modifies this
      ensures Ok(g, State()) && g.root in valueDict && r == valueDict[g.root]
      ensures IsomorphicCopy(g, State())
      ensures Reached(g) ==> valueDict.Keys == g.nodes.Keys
    {
      ghost var before := State();
      assert !Shared(g, g.root);
      RegisterKeeps(g, before, g.root, []);
      hide Flattened, Ok, Grows, GrowsBut, Mapped, Callable;
      r := Create(g.root, []);
      var args := g.nodes[g.root].args;
      var i := 0;
      while i < |args|
        invariant 0 <= i <= |args| && Ok(g, State()) && GrowsBut(g, before, State(), g.root)
        invariant g.root in valueDict && valueDict[g.root] == r
        invariant Filled(g, State(), g.root, r, i)
      {
        ghost var c := State();
        RootOperand(g, c, args[i]);
        Visit(args[i], {});
        GrowsMore(g, before, c, State(), g.root);
        FilledStays(g, c, State(), g.root, r, i);
        PushKeeps(g, before, State(), g.root, valueDict[args[i]]);
        FilledMore(g, State(), g.root, r, i);
        PushBack(r, valueDict[args[i]]);
        i := i + 1;
      }
      FilledAll(g, before, State(), g.root, r);
      AllComplete(g, before, State());
    }
  }

  /** Everything that can be reached from the function is among its nodes and nothing else is. */
  ghost predicate Reached(g: Source) {
    forall s: set<Id> :: Closed(g, s) ==> g.nodes.Keys <= s
  }

  ghost predicate Closed(g: Source, s: set<Id>) {
    && g.root in s
    && forall v, a :: v in s && v in g.nodes && !Shared(g, v) && a in g.nodes[v].args ==> a in s
  }

  /** Every node has its one copy, new, of the same kind and with the copies of its operands in order; every
      node that was created is the copy of one. */
  ghost predicate IsomorphicCopy(g: Source, c: Cloning) {
    && Closed(g, c.dict.Keys)
    && (forall x :: x in c.dict ==> x in g.nodes && Complete(g, c, x) && (Shared(g, x) ==> c.dict[x] == x))
    && (forall x :: x in c.dict && !Shared(g, x) ==> IsCopy(g, c, x, c.dict[x]) && c.dict[x] !in g.nodes)
    && (forall n :: n in c.copies ==> n in c.origin && IsCopy(g, c, c.origin[n], n))
  }

  lemma RootOperand(g: Source, c: Cloning, a: Id)
    requires Flattened(g) && a in g.nodes[g.root].args && g.root in c.dict
    ensures Callable(g, c, a, {})
  {
    assert ArgOk(g, g.root, a);
  }

  lemma AllComplete(g: Source, b: Cloning, c: Cloning)
    requires Flattened(g) && Ok(g, c) && Grows(g, b, c) && b.dict == map[] && g.root in c.dict
    ensures IsomorphicCopy(g, c)
    ensures Reached(g) ==> c.dict.Keys == g.nodes.Keys
  {
    forall x | x in c.dict ensures Complete(g, c, x) {
    }
    assert Closed(g, c.dict.Keys);
    forall x | x in c.dict && !Shared(g, x) ensures IsCopy(g, c, x, c.dict[x]) && c.dict[x] !in g.nodes {
      assert IsCopy(g, c, x, c.dict[x]);
    }
  }

  lemma MappedMore(g: Source, c: Cloning, d: Cloning, args: seq<Id>, copies: seq<Id>, i: nat)
    requires i < |args| && Mapped(c, args[..i], copies) && Grows(g, c, d) && args[i] in d.dict
    requires g.root in c.dict
    ensures Mapped(d, args[..i + 1], copies + [d.dict[args[i]]]) && g.root in d.dict
  {
    assert args[..i + 1] == args[..i] + [args[i]];
  }

  lemma BeforeOperand(g: Source, b: Cloning, c: Cloning, v: Id, open_: set<Id>, a: Id)
    requires Flattened(g) && Callable(g, b, v, open_) && a in g.nodes[v].args && v !in b.dict
    requires g.nodes[v].kind.Branch? || g.nodes[v].kind.Value?
    requires Grows(g, b, c) && (open_ + {v}) !! c.dict.Keys && g.root in c.dict
    ensures a in g.nodes && a in g.rank && v in g.rank
    ensures a !in c.dict ==> Callable(g, c, a, open_ + {v})
    ensures |g.nodes.Keys - c.dict.Keys| <= |g.nodes.Keys - b.dict.Keys|
    ensures Tier(g.nodes[a].kind) <= Tier(g.nodes[v].kind)
    ensures Tier(g.nodes[a].kind) == Tier(g.nodes[v].kind) ==> g.rank[a] < g.rank[v]
  {
    OperandCallable(g, b, v, open_, a, c);
    NotMore(g, b, c);
  }

  lemma Opened2(g: Source, c: Cloning, v: Id, open_: set<Id>, args: seq<Id>)
    requires v in g.nodes && v !in open_ && (open_ + {v}) !! c.dict.Keys
    ensures open_ !! Register(c, v, Node(g.nodes[v].kind, args)).dict.Keys
  {
  }

  lemma Opened(g: Source, c: Cloning, v: Id, open_: set<Id>)
    requires Flattened(g) && Callable(g, c, v, open_) && !g.nodes[v].kind.Function? && v !in c.dict
    ensures v in g.nodes && !Shared(g, v) && v !in open_ && open_ !! c.dict.Keys && (open_ + {v}) !! c.dict.Keys
  {
  }

  lemma ShareKeeps(g: Source, c: Cloning, v: Id)
    requires Ok(g, c) && v in g.nodes && v !in c.dict && Shared(g, v)
    ensures Ok(g, c.(dict := c.dict[v := v])) && Grows(g, c, c.(dict := c.dict[v := v]))
  {
    var d := c.(dict := c.dict[v := v]);
    forall x | x in d.dict && !Shared(g, x) ensures IsCopy(g, d, x, d.dict[x]) {
      assert IsCopy(g, c, x, c.dict[x]);
    }
    forall n | n in d.copies ensures n in d.origin && d.origin[n] in d.dict && IsCopy(g, d, d.origin[n], n) {
      assert IsCopy(g, c, c.origin[n], n);
    }
  }

  /** The first operands of a container are in its copy. */
  ghost predicate Filled(g: Source, c: Cloning, v: Id, n: Id, i: nat) {
    && v in g.nodes && i <= |g.nodes[v].args| && n in c.copies && |c.copies[n].args| == i
    && forall j :: 0 <= j < i ==> g.nodes[v].args[j] in c.dict && c.copies[n].args[j] == c.dict[g.nodes[v].args[j]]
  }

  lemma FilledNone(g: Source, c: Cloning, v: Id, n: Id)
    requires v in g.nodes && n in c.copies && c.copies[n].args == []
    ensures Filled(g, c, v, n, 0)
  {
  }

  lemma FilledIn(g: Source, c: Cloning, v: Id, n: Id, i: nat)
    requires Filled(g, c, v, n, i)
    ensures n in c.copies
  {
  }

  lemma FilledStays(g: Source, c: Cloning, d: Cloning, v: Id, n: Id, i: nat)
    requires Filled(g, c, v, n, i) && Grows(g, c, d) && v in c.dict && c.dict[v] == n && g.root in c.dict
    ensures Filled(g, d, v, n, i) && d.dict[v] == n && g.root in d.dict
  {
  }

  lemma FilledMore(g: Source, c: Cloning, v: Id, n: Id, i: nat)
    requires Filled(g, c, v, n, i) && i < |g.nodes[v].args| && g.nodes[v].args[i] in c.dict
    ensures Filled(g, Push(c, n, c.dict[g.nodes[v].args[i]]), v, n, i + 1)
  {
  }

  lemma FilledAll(g: Source, b: Cloning, c: Cloning, v: Id, n: Id)
    requires v in g.nodes && Filled(g, c, v, n, |g.nodes[v].args|)
    requires GrowsBut(g, b, c, v) && v in c.dict && c.dict[v] == n
    ensures Grows(g, b, c)
  {
    assert Complete(g, c, v);
  }

  lemma BeforeVisit(g: Source, b: Cloning, c: Cloning, v: Id, open_: set<Id>, a: Id)
    requires Flattened(g) && Callable(g, b, v, open_) && a in g.nodes[v].args
    requires g.nodes[v].kind.Block? || g.nodes[v].kind.Jump?
    requires v !in b.dict && v in c.dict && open_ !! c.dict.Keys && GrowsBut(g, b, c, v)
    ensures Callable(g, c, a, open_) && |g.nodes.Keys - c.dict.Keys| < |g.nodes.Keys - b.dict.Keys|
    ensures a in g.nodes && Tier(g.nodes[a].kind) < 3
  {
    InstructionCallable(g, b, v, open_, a, c);
    Fewer(g, b, c, v);
  }

  lemma LessLeft(g: Source, b: Cloning, c: Cloning, v: Id)
    requires v in g.nodes && v !in b.dict && v in c.dict && GrowsBut(g, b, c, v)
    ensures |g.nodes.Keys - c.dict.Keys| < |g.nodes.Keys - b.dict.Keys|
  {
    Fewer(g, b, c, v);
  }

  /** The node at the end of a path of operand positions; callees are not looked into. */
  function Follow(nodes: map<Id, Node>, stop: set<Id>, v: Id, path: seq<nat>): int
    decreases |path|
  {
    if path == [] then v
    else if v in nodes && v !in stop && path[0] < |nodes[v].args| then
      Follow(nodes, stop, nodes[v].args[path[0]], path[1..])
    else -1
  }

  function Callees(g: Source): set<Id> {
    set x | x in g.nodes && Shared(g, x)
  }

  /** Walking from the copy of a node along any path of operands ends at the copy of where the same walk
      from the node ends, or at the callee itself, or both walks end before. */
  lemma {:induction false} WalksCorrespond(g: Source, c: Cloning, v: Id, path: seq<nat>)
    requires IsomorphicCopy(g, c) && v in c.dict
    ensures var x := Follow(g.nodes, Callees(g), v, path);
      Follow(c.copies, {}, c.dict[v], path) == if x in c.dict then c.dict[x] else -1
    ensures var x := Follow(g.nodes, Callees(g), v, path); x == -1 || x in c.dict
    decreases |path|
  {
    if path != [] && !Shared(g, v) {
      assert IsCopy(g, c, v, c.dict[v]) && Complete(g, c, v);
      if path[0] < |g.nodes[v].args| {
        WalksCorrespond(g, c, g.nodes[v].args[path[0]], path[1..]);
      }
    } else if path != [] {
      assert v !in c.copies;
    }
  }
}
