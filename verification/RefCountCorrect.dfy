/** The counted body conserves counts: every count is the number of live variables and pending call
    results that hold the cell. */
module RefCountCorrect {
  import opened Wrappers
  import opened RefCountIr
  import opened RefCountPass

  // ---------- what is held ----------

  /** The cells that live variables hold, with multiplicity. */
  ghost function Held(st: State, xs: seq<nat>): multiset<nat> {
    if xs == [] then multiset{} else multiset(VarCells(st, xs[0])) + Held(st, xs[1..])
  }

  /** The cells that pending results hold. */
  ghost function HeldResults(st: State, rs: seq<nat>): multiset<nat> {
    if rs == [] then multiset{} else multiset(ResultCells(st, rs[0])) + HeldResults(st, rs[1..])
  }

  /** Counts are conserved: beyond what others hold, exactly what is held here. */
  ghost predicate Conserved(st: State, base: multiset<nat>, xs: seq<nat>, rs: seq<nat>) {
    st.counts == base + Held(st, xs) + HeldResults(st, rs)
  }

  lemma {:induction false} HeldAppend(st: State, a: seq<nat>, b: seq<nat>)
    ensures Held(st, a + b) == Held(st, a) + Held(st, b)
    decreases |a|
  {
    if a == [] {
      assert a + b == b;
    } else {
      assert (a + b)[1..] == a[1..] + b;
      HeldAppend(st, a[1..], b);
    }
  }

  lemma {:induction false} HeldSame(st: State, st': State, xs: seq<nat>)
    requires forall x :: x in xs ==> VarCells(st, x) == VarCells(st', x)
    ensures Held(st, xs) == Held(st', xs)
  {
    if xs != [] {
      HeldSame(st, st', xs[1..]);
    }
  }

  lemma {:induction false} HeldResultsSame(st: State, st': State, rs: seq<nat>)
    requires forall r :: r in rs ==> ResultCells(st, r) == ResultCells(st', r)
    ensures HeldResults(st, rs) == HeldResults(st', rs)
  {
    if rs != [] {
      HeldResultsSame(st, st', rs[1..]);
    }
  }

  /** The list without x. */
  function Drop(xs: seq<nat>, x: nat): (r: seq<nat>)
    ensures forall y :: y in r <==> y in xs && y != x
  {
    if xs == [] then []
    else if xs[0] == x then Drop(xs[1..], x)
    else [xs[0]] + Drop(xs[1..], x)
  }

  lemma {:induction false} DropAbsent(xs: seq<nat>, x: nat)
    requires x !in xs
    ensures Drop(xs, x) == xs
  {
    if xs != [] {
      DropAbsent(xs[1..], x);
    }
  }

  lemma {:induction false} DropDistinct(xs: seq<nat>, x: nat)
    requires Distinct(xs)
    ensures Distinct(Drop(xs, x))
  {
    if xs != [] {
      DropDistinct(xs[1..], x);
      assert xs[0] !in xs[1..];
    }
  }

  lemma {:induction false} HeldDrop(st: State, xs: seq<nat>, x: nat)
    requires Distinct(xs) && x in xs
    ensures Held(st, xs) == Held(st, Drop(xs, x)) + multiset(VarCells(st, x))
  {
    assert xs[0] !in xs[1..];
    if xs[0] == x {
      DropAbsent(xs[1..], x);
    } else {
      HeldDrop(st, xs[1..], x);
      assert ([xs[0]] + Drop(xs[1..], x))[1..] == Drop(xs[1..], x);
    }
  }

  lemma {:induction false} HeldResultsDrop(st: State, rs: seq<nat>, r: nat)
    requires Distinct(rs) && r in rs
    ensures HeldResults(st, rs) == HeldResults(st, Drop(rs, r)) + multiset(ResultCells(st, r))
  {
    assert rs[0] !in rs[1..];
    if rs[0] == r {
      DropAbsent(rs[1..], r);
    } else {
      HeldResultsDrop(st, rs[1..], r);
      assert ([rs[0]] + Drop(rs[1..], r))[1..] == Drop(rs[1..], r);
    }
  }

  function DropAll(rs: seq<nat>, used: seq<nat>): seq<nat> {
    if used == [] then rs else Drop(DropAll(rs, used[1..]), used[0])
  }

  // ---------- the bodies the guarantee is for ----------

  /** Whether a block is inside a loop, and what is live around it. */
  datatype Scope = Scope(inLoop: bool, outer: seq<nat>)

  /** A body, given the variables its block has declared so far and the results still pending.
      Variables are declared once where they are live, results are used once and in their own list, and an
      assignment's source is not its target. */
  ghost predicate Ok(s: seq<Instr>, scope: Scope, declared: seq<nat>, open: seq<nat>)
    decreases s, 1
  {
    if s == [] then open == []
    else if IsTerminated(s[0]) then OkEnd(s[0], scope, scope.outer + declared, open)
    else
      && OkOne(s[0], s[1..], scope, scope.outer + declared, open)
      && Ok(s[1..], scope, declared + Declares(s[0]), Pending(s[0], s[1..], open))
  }

  function Declares(instr: Instr): seq<nat> {
    if instr.Local? then [instr.x] else []
  }

  function Pending(instr: Instr, rest: seq<Instr>, open: seq<nat>): seq<nat> {
    match instr
    case Call(r) => if UsedIn(rest, r) then open + [r] else open
    case Use(rs, _) => DropAll(open, rs)
    case Write(_, Result(r)) => Drop(open, r)
    case _ => open
  }

  ghost predicate OkEnd(instr: Instr, scope: Scope, live: seq<nat>, open: seq<nat>) {
    match instr
    case Return(Variable(x)) => open == [] && x in live
    case Return(Result(r)) => open == [r]
    case ReturnVoid => open == []
    case _ => scope.inLoop && open == []
  }

  ghost predicate OkOne(instr: Instr, rest: seq<Instr>, scope: Scope, live: seq<nat>, open: seq<nat>)
    decreases instr, 0
  {
    match instr
    case Local(x) => x !in live
    case Write(x, Variable(y)) => x in live && y in live && x != y
    case Write(x, Result(r)) => x in live && r in open
    case Call(r) => r !in open
    case Use(rs, xs) => Distinct(rs) && (forall r :: r in rs ==> r in open) && (forall x :: x in xs ==> x in live)
    case Nested(b) => open == [] && Ok(b, scope.(outer := live), [], [])
    case If(a, b) => open == [] && Ok(a, scope.(outer := live), [], []) && Ok(b, scope.(outer := live), [], [])
    case While(c, b) =>
      open == [] && Straight(c) && Ok(c, scope.(outer := live), [], [])
      && Ok(b, Scope(true, live), [], [])
    case For(b) => open == [] && Ok(b, Scope(true, live), [], [])
    case _ => false
  }

  /** What is live around the blocks that a body may leave by a Break or Continue of a loop around it, and
      around those it may return from; level says that the loops in it are left, or continued, from under no
      variable of their own bodies. */
  datatype Ways = Ways(breaks: set<seq<nat>>, exits: set<seq<nat>>, level: bool)

  const NOWHERE := Ways({}, {}, true)

  function Either(a: Ways, b: Ways): Ways {
    Ways(a.breaks + b.breaks, a.exits + b.exits, a.level && b.level)
  }

  function WaysOf(s: seq<Instr>, outer: seq<nat>, declared: seq<nat>): Ways
    decreases s, 1
  {
    if s == [] then NOWHERE
    else if IsTerminated(s[0]) then WaysEnd(s[0], outer)
    else Either(WaysOne(s[0], outer + declared), WaysOf(s[1..], outer, declared + Declares(s[0])))
  }

  function WaysEnd(instr: Instr, outer: seq<nat>): Ways {
    if instr.Return? || instr.ReturnVoid? then Ways({}, {outer}, true) else Ways({outer}, {}, true)
  }

  function WaysOne(instr: Instr, live: seq<nat>): Ways
    decreases instr, 0
  {
    match instr
    case Nested(b) => WaysOf(b, live, [])
    case If(a, b) => Either(WaysOf(a, live, []), WaysOf(b, live, []))
    case While(_, b) => AroundLoop(WaysOf(b, live, []), live)
    case For(b) => AroundLoop(WaysOf(b, live, []), live)
    case _ => NOWHERE
  }

  function AroundLoop(body: Ways, live: seq<nat>): Ways {
    Ways({}, body.exits, body.level && body.breaks <= {live})
  }

  /** A loop condition: no variable, no block and no way out. */
  predicate Straight(c: seq<Instr>) {
    forall i :: 0 <= i < |c| ==> c[i].Write? || c[i].Call? || c[i].Use?
  }

  // ---------- the inserted code, value by value ----------

  function CountAll(body: seq<Instr>): seq<Instr> {
    CopyReturns(CountWrites(InitLocals(DestroyCalls(body))))
  }

  function Expand(instr: Instr, rest: seq<Instr>): seq<Instr> {
    ScopeEach(CopyReturns(CountWrites(InitLocals(DestroyOne(instr, rest)))))
  }

  function BeforeEnd(instr: Instr): seq<Instr> {
    if instr.Return? && instr.src.Variable? then [Copy(instr.src)] else []
  }

  /** What runs from a value of a block on, when the block has declared these variables before it. */
  function Code(s: seq<Instr>, declared: seq<nat>): seq<Instr>
    decreases |s|
  {
    if s == [] then Fins(declared)
    else if IsTerminated(s[0]) then BeforeEnd(s[0]) + Fins(declared) + [s[0]]
    else Expand(s[0], s[1..]) + Code(s[1..], declared + Declares(s[0]))
  }
}
