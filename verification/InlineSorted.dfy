/** The pipeline: the functions are put in the order that the sort leaves, and the inlining pass runs over
    them in that order. */
module InlineSorted {
  import opened Wrappers
  import opened InlineIr
  import opened Inline
  import opened InlineCalls
  import opened InlineModes
  import opened InlineSafe
  import CallGraph

  // ---------- the functions in another order ----------

  /** The order lists every number below n once. */
  ghost predicate Permutes(order: seq<nat>, n: nat) {
    && |order| == n && Distinct(order)
    && (forall k :: 0 <= k < n ==> order[k] < n)
    && forall g :: 0 <= g < n ==> g in order
  }

  function PlaceFrom(order: seq<nat>, g: nat, k: nat): (r: nat)
    requires k <= |order|
    ensures g in order[k..] ==> k <= r < |order| && order[r] == g
    ensures g !in order[k..] ==> r == g
    decreases |order| - k
  {
    if k == |order| then g else if order[k] == g then k else PlaceFrom(order, g, k + 1)
  }

  /** Where a function of the module stands in the order; any other keeps its number. */
  function PlaceIn(order: seq<nat>, g: nat): nat {
    PlaceFrom(order, g, 0)
  }

  function FuncAt(order: seq<nat>, k: nat): nat {
    if k < |order| then order[k] else k
  }

  lemma PlaceAt(order: seq<nat>, n: nat, g: nat)
    requires Permutes(order, n)
    ensures FuncAt(order, PlaceIn(order, g)) == g && PlaceIn(order, FuncAt(order, g)) == g
    ensures (PlaceIn(order, g) < n <==> g < n) && (FuncAt(order, g) < n <==> g < n)
  {
    assert order[0..] == order;
  }

  function Moved(order: seq<nat>, body: seq<Instr>): seq<Instr> {
    if body == [] then [] else [MovedOne(order, body[0])] + Moved(order, body[1..])
  }

  function MovedOne(order: seq<nat>, instr: Instr): Instr {
    match instr
    case Compute(_, _, _) => instr
    case WriteLocal(_, _) => instr
    case Call(dst, g, args) => Call(dst, PlaceIn(order, g), args)
    case Nested(body) => Nested(Moved(order, body))
    case If(cond, yes, no) => If(cond, Moved(order, yes), Moved(order, no))
    case While(test, cond, body) => While(Moved(order, test), cond, Moved(order, body))
  }

  function MovedFunc(order: seq<nat>, f: Func): Func {
    match f
    case Declared => Declared
    case Defined(body, result, annotated) => Defined(Moved(order, body), result, annotated)
  }

  /** The module with its functions in that order, and every call at the new place of its callee. */
  function Reordered(fs: seq<Func>, order: seq<nat>): (gs: seq<Func>)
    requires Permutes(order, |fs|)
    ensures |gs| == |fs|
  {
    seq(|fs|, k requires 0 <= k < |fs| => MovedFunc(order, fs[order[k]]))
  }

  lemma MovedAt(fs: seq<Func>, order: seq<nat>, g: nat)
    requires Permutes(order, |fs|)
    ensures g < |fs| ==> Reordered(fs, order)[PlaceIn(order, g)] == MovedFunc(order, fs[g])
    ensures Inlines(Reordered(fs, order), PlaceIn(order, g)) == Inlines(fs, g)
  {
    PlaceAt(order, |fs|, g);
  }

  // ---------- its calls ----------

  function PlaceAll(order: seq<nat>, s: seq<nat>): seq<nat> {
    seq(|s|, i requires 0 <= i < |s| => PlaceIn(order, s[i]))
  }

  lemma PlaceConcat(order: seq<nat>, a: seq<nat>, b: seq<nat>)
    ensures PlaceAll(order, a + b) == PlaceAll(order, a) + PlaceAll(order, b)
  {
    hide PlaceIn;
  }

  lemma PlaceFew(order: seq<nat>, g: nat)
    ensures PlaceAll(order, []) == [] && PlaceAll(order, [g]) == [PlaceIn(order, g)]
  {
    hide PlaceIn;
  }

  lemma {:induction false} MovedCalled(order: seq<nat>, body: seq<Instr>)
    ensures Called(Moved(order, body)) == PlaceAll(order, Called(body))
    decreases body, 1
  {
    hide PlaceAll, PlaceIn;
    if body == [] {
      PlaceFew(order, 0);
    } else {
      MovedCalledOne(order, body[0]);
      MovedCalled(order, body[1..]);
      PlaceConcat(order, CalledOne(body[0]), Called(body[1..]));
      assert Moved(order, body)[1..] == Moved(order, body[1..]);
    }
  }

  lemma {:induction false} MovedCalledOne(order: seq<nat>, instr: Instr)
    ensures CalledOne(MovedOne(order, instr)) == PlaceAll(order, CalledOne(instr))
    decreases instr, 0
  {
    hide PlaceAll, PlaceIn;
    match instr
    case Compute(_, _, _) => PlaceFew(order, 0);
    case WriteLocal(_, _) => PlaceFew(order, 0);
    case Call(_, g, _) => PlaceFew(order, g);
    case Nested(body) => MovedCalled(order, body);
    case If(_, yes, no) =>
      MovedCalled(order, yes);
      MovedCalled(order, no);
      PlaceConcat(order, Called(yes), Called(no));
    case While(test, _, body) =>
      MovedCalled(order, test);
      MovedCalled(order, body);
      PlaceConcat(order, Called(test), Called(body));
  }

  lemma PlaceMember(order: seq<nat>, n: nat, s: seq<nat>, g: nat)
    requires Permutes(order, n)
    ensures PlaceIn(order, g) in PlaceAll(order, s) <==> g in s
  {
    hide PlaceIn, FuncAt, Permutes;
    if g in s {
      var i :| 0 <= i < |s| && s[i] == g;
      assert PlaceAll(order, s)[i] == PlaceIn(order, g);
    }
    if PlaceIn(order, g) in PlaceAll(order, s) {
      var i :| 0 <= i < |s| && PlaceAll(order, s)[i] == PlaceIn(order, g);
      PlaceAt(order, n, g);
      PlaceAt(order, n, s[i]);
    }
  }

  /** The references of the reordered module are those of the module. */
  lemma EdgeMoved(fs: seq<Func>, order: seq<nat>, k: nat, g: nat)
    requires Permutes(order, |fs|)
    ensures CallGraph.Edge(References(Reordered(fs, order)), k, PlaceIn(order, g))
      <==> CallGraph.Edge(References(fs), FuncAt(order, k), g)
  {
    hide PlaceIn, Called, Moved, PlaceAll;
    if k < |fs| && fs[order[k]].Defined? {
      MovedCalled(order, fs[order[k]].body);
      PlaceMember(order, |fs|, Called(fs[order[k]].body), g);
    }
  }

  lemma ReachesMoved(fs: seq<Func>, order: seq<nat>, g: nat, k: nat)
    requires Permutes(order, |fs|)
    ensures CallGraph.Reaches(References(Reordered(fs, order)), PlaceIn(order, g), k)
      <==> CallGraph.Reaches(References(fs), g, FuncAt(order, k))
  {
    hide PlaceIn, FuncAt, Permutes, References, Reordered, CallGraph.Edge;
    var refs, moved := References(fs), References(Reordered(fs, order));
    PlaceAt(order, |fs|, g);
    PlaceAt(order, |fs|, k);
    if CallGraph.Reaches(moved, PlaceIn(order, g), k) {
      var p :| CallGraph.IsPath(moved, p) && p[0] == PlaceIn(order, g) && p[|p| - 1] == k;
      var q := seq(|p|, i requires 0 <= i < |p| => FuncAt(order, p[i]));
      forall i | 0 <= i < |q| - 1 ensures CallGraph.Edge(refs, q[i], q[i + 1]) {
        assert CallGraph.Edge(moved, p[i], p[i + 1]);
        PlaceAt(order, |fs|, p[i + 1]);
        EdgeMoved(fs, order, p[i], q[i + 1]);
      }
      assert CallGraph.IsPath(refs, q) && q[0] == g && q[|q| - 1] == FuncAt(order, k);
    }
    if CallGraph.Reaches(refs, g, FuncAt(order, k)) {
      var p :| CallGraph.IsPath(refs, p) && p[0] == g && p[|p| - 1] == FuncAt(order, k);
      var q := PlaceAll(order, p);
      forall i | 0 <= i < |q| - 1 ensures CallGraph.Edge(moved, q[i], q[i + 1]) {
        assert CallGraph.Edge(refs, p[i], p[i + 1]);
        PlaceAt(order, |fs|, p[i]);
        EdgeMoved(fs, order, q[i], p[i + 1]);
      }
      assert CallGraph.IsPath(moved, q) && q[0] == PlaceIn(order, g) && q[|q| - 1] == k;
    }
  }

  // ---------- its order ----------

  lemma PositionsOnce(n: nat, order: seq<nat>, positions: seq<nat>)
    requires positions == seq(n, i requires 0 <= i < n => i) && multiset(order) == multiset(positions)
    ensures Permutes(order, n)
  {
    assert |multiset(order)| == |order| && |multiset(positions)| == n;
    forall g | 0 <= g < n ensures g in order {
      assert positions[g] in multiset(order);
    }
    forall k | 0 <= k < n ensures order[k] < n {
      assert order[k] in multiset(positions);
    }
    forall i, j | 0 <= i < j < n ensures order[i] != order[j] {
      if order[i] == order[j] {
        assert order == order[..i] + [order[i]] + order[i + 1..j] + [order[j]] + order[j + 1..];
        assert multiset(order)[order[i]] >= 2;
        CallGraph.DistinctCount(positions, order[i]);
      }
    }
  }

  lemma CalleePlaced(fs: seq<Func>, order: seq<nat>, i: nat, h: nat)
    requires CallGraph.Sorted(References(fs), Positions(fs), order) && Permutes(order, |fs|)
    requires i < |fs| && h < |fs| && CallGraph.Edge(References(Reordered(fs, order)), i, h)
    requires !CallGraph.Reaches(References(Reordered(fs, order)), h, i)
    ensures h < i
  {
    hide References, Reordered, CallGraph.Reaches, CallGraph.Edge, PlaceIn;
    PlaceAt(order, |fs|, h);
    EdgeMoved(fs, order, i, order[h]);
    ReachesMoved(fs, order, order[h], i);
    assert Positions(fs)[order[h]] == order[h];
    assert PlaceIn(order, order[h]) == h && order[h] in Positions(fs);
  }

  /** The functions in the order that the sort leaves stand in an order that the sort may leave, which is what
      the results on the inlining pass ask. */
  lemma ReorderedSorted(fs: seq<Func>, order: seq<nat>)
    requires CallGraph.Sorted(References(fs), Positions(fs), order)
    ensures Permutes(order, |fs|) && InSortedOrder(Reordered(fs, order))
  {
    PositionsOnce(|fs|, order, Positions(fs));
    var gs := Reordered(fs, order);
    var moved, places := References(gs), Positions(gs);
    hide References, Reordered, CallGraph.Reaches, CallGraph.Edge, Permutes;
    forall i, h | 0 <= i < |places| && h in places && CallGraph.Edge(moved, places[i], h)
        && !CallGraph.Reaches(moved, h, places[i])
      ensures h in places[..i]
    {
      CalleePlaced(fs, order, i, h);
      assert places[..i][h] == h;
    }
  }

  lemma ReorderedNoCycle(fs: seq<Func>, order: seq<nat>)
    requires Permutes(order, |fs|) && NoInlineCycle(fs)
    ensures NoInlineCycle(Reordered(fs, order))
  {
    hide References, Reordered, CallGraph.Reaches, CallGraph.Edge, PlaceIn, Permutes, Inlines;
    var gs := Reordered(fs, order);
    forall i, h | 0 <= i < |gs| && Inlines(gs, h) && CallGraph.Edge(References(gs), i, h)
      ensures !CallGraph.Reaches(References(gs), h, i)
    {
      var g := FuncAt(order, h);
      PlaceAt(order, |fs|, h);
      PlaceAt(order, |fs|, i);
      MovedAt(fs, order, g);
      EdgeMoved(fs, order, i, g);
      ReachesMoved(fs, order, g, i);
    }
  }

  // ---------- its names ----------

  lemma {:induction false} MovedSites(fs: seq<Func>, order: seq<nat>, body: seq<Instr>)
    requires Permutes(order, |fs|)
    ensures Sites(Reordered(fs, order), Moved(order, body)) == Sites(fs, body)
    decreases body, 1
  {
    hide Permutes, Reordered, PlaceIn, Inlines;
    if body != [] {
      MovedSitesOne(fs, order, body[0]);
      MovedSites(fs, order, body[1..]);
      assert Moved(order, body)[1..] == Moved(order, body[1..]);
    }
  }

  lemma {:induction false} MovedSitesOne(fs: seq<Func>, order: seq<nat>, instr: Instr)
    requires Permutes(order, |fs|)
    ensures SitesOne(Reordered(fs, order), MovedOne(order, instr)) == SitesOne(fs, instr)
    decreases instr, 0
  {
    hide Permutes, Reordered, PlaceIn, Inlines;
    match instr
    case Compute(_, _, _) =>
    case WriteLocal(_, _) =>
    case Call(_, g, _) => MovedAt(fs, order, g);
    case Nested(body) => MovedSites(fs, order, body);
    case If(_, yes, no) =>
      MovedSites(fs, order, yes);
      MovedSites(fs, order, no);
    case While(test, _, body) =>
      MovedSites(fs, order, test);
      MovedSites(fs, order, body);
  }

  lemma {:induction false} MovedOwn(fs: seq<Func>, order: seq<nat>, sites: set<Name>, body: seq<Instr>)
    requires Permutes(order, |fs|)
    ensures OwnBody(Reordered(fs, order), sites, Moved(order, body)) == OwnBody(fs, sites, body)
    decreases body, 1
  {
    hide Permutes, Reordered, PlaceIn, Inlines;
    if body != [] {
      MovedOwnOne(fs, order, sites, body[0]);
      MovedOwn(fs, order, sites, body[1..]);
      assert Moved(order, body)[1..] == Moved(order, body[1..]);
    }
  }

  lemma {:induction false} MovedOwnOne(fs: seq<Func>, order: seq<nat>, sites: set<Name>, instr: Instr)
    requires Permutes(order, |fs|)
    ensures OwnInstr(Reordered(fs, order), sites, MovedOne(order, instr)) == OwnInstr(fs, sites, instr)
    decreases instr, 0
  {
    hide Permutes, Reordered, PlaceIn, Inlines;
    match instr
    case Compute(_, _, _) =>
    case WriteLocal(_, _) =>
    case Call(_, g, _) => MovedAt(fs, order, g);
    case Nested(body) => MovedOwn(fs, order, sites, body);
    case If(_, yes, no) =>
      MovedOwn(fs, order, sites, yes);
      MovedOwn(fs, order, sites, no);
    case While(test, _, body) =>
      MovedOwn(fs, order, sites, test);
      MovedOwn(fs, order, sites, body);
  }

  lemma ReorderedNamed(fs: seq<Func>, order: seq<nat>)
    requires Permutes(order, |fs|) && WellNamed(fs)
    ensures WellNamed(Reordered(fs, order))
  {
    hide OwnBody, Sites, Moved, PlaceIn;
    forall k | 0 <= k < |fs| ensures OwnFunc(Reordered(fs, order), Reordered(fs, order)[k]) {
      var f := fs[order[k]];
      assert OwnFunc(fs, f);
      if f.Defined? {
        MovedSites(fs, order, f.body);
        MovedOwn(fs, order, Sites(fs, f.body), f.body);
      }
    }
  }

  // ---------- its runs ----------

  /** The same operations, with functions numbered by their places. */
  ghost predicate Renumbered<V(!new), W(!new)>(m: Meaning<V, W>, moved: Meaning<V, W>, order: seq<nat>) {
    && moved.op == m.op && moved.cell == m.cell && moved.truth == m.truth && moved.mode == m.mode
    && (forall k :: moved.rank(k) == m.rank(FuncAt(order, k)))
    && forall k, vs, w :: moved.extern(k, vs, w) == m.extern(FuncAt(order, k), vs, w)
  }

  lemma {:induction false} EvalRenumbered<V(!new), W(!new)>(m: Meaning<V, W>, moved: Meaning<V, W>, order: seq<nat>,
      o: Operand, fr: Frame<V>, binds: seq<Binding<V>>, w: W)
    requires Renumbered(m, moved, order)
    ensures Eval(moved, o, fr, binds, w) == Eval(m, o, fr, binds, w)
    decreases binds, o
  {
    match o
    case Value(_) =>
    case Local(_) =>
    case Cell(_, base) => EvalRenumbered(m, moved, order, base, fr, binds, w);
    case Param(i) =>
      if i < |binds| {
        match binds[i]
        case Known(_) =>
        case Thunk(a, f, bs) => EvalRenumbered(m, moved, order, a, f, bs, w);
        case Both(_, a, f, bs) => EvalRenumbered(m, moved, order, a, f, bs, w);
      }
  }

  lemma {:induction false} EvalAllRenumbered<V(!new), W(!new)>(m: Meaning<V, W>, moved: Meaning<V, W>, order: seq<nat>,
      args: seq<Operand>, fr: Frame<V>, binds: seq<Binding<V>>, w: W)
    requires Renumbered(m, moved, order)
    ensures EvalAll(moved, args, fr, binds, w) == EvalAll(m, args, fr, binds, w)
  {
    hide Renumbered;
    if args != [] {
      EvalRenumbered(m, moved, order, args[0], fr, binds, w);
      EvalAllRenumbered(m, moved, order, args[1..], fr, binds, w);
    }
  }

  lemma {:induction false} MovedExec<V(!new), W(!new)>(fs: seq<Func>, order: seq<nat>, m: Meaning<V, W>,
      moved: Meaning<V, W>, body: seq<Instr>, bound: nat, fr: Frame<V>, binds: seq<Binding<V>>, w: W, fuel: nat)
    requires Permutes(order, |fs|) && Renumbered(m, moved, order)
    ensures Exec(Reordered(fs, order), moved, Moved(order, body), bound, fr, binds, w, fuel)
      == Exec(fs, m, body, bound, fr, binds, w, fuel)
    decreases fuel, bound, body, 1
  {
    hide Permutes, Renumbered, Reordered, PlaceIn;
    if body != [] {
      MovedExecOne(fs, order, m, moved, body[0], bound, fr, binds, w, fuel);
      match ExecOne(fs, m, body[0], bound, fr, binds, w, fuel)
      case Out(fr1, w1) => MovedExec(fs, order, m, moved, body[1..], bound, fr1, binds, w1, fuel);
      case OutOfFuel =>
      case Wrong =>
      assert Moved(order, body)[1..] == Moved(order, body[1..]);
    }
  }

  lemma {:induction false} MovedExecOne<V(!new), W(!new)>(fs: seq<Func>, order: seq<nat>, m: Meaning<V, W>,
      moved: Meaning<V, W>, instr: Instr, bound: nat, fr: Frame<V>, binds: seq<Binding<V>>, w: W, fuel: nat)
    requires Permutes(order, |fs|) && Renumbered(m, moved, order)
    ensures ExecOne(Reordered(fs, order), moved, MovedOne(order, instr), bound, fr, binds, w, fuel)
      == ExecOne(fs, m, instr, bound, fr, binds, w, fuel)
    decreases fuel, bound, instr, 2
  {
    hide Permutes, Reordered, PlaceIn;
    match instr
    case Compute(_, _, args) => EvalAllRenumbered(m, moved, order, args, fr, binds, w);
    case WriteLocal(_, arg) => EvalRenumbered(m, moved, order, arg, fr, binds, w);
    case Call(_, g, args) =>
      EvalAllRenumbered(m, moved, order, args, fr, binds, w);
      PlaceAt(order, |fs|, g);
      MovedAt(fs, order, g);
      var vals := EvalAll(m, args, fr, binds, w);
      if vals.Some? && g < |fs| && fs[g].Defined? {
        if fs[g].annotated {
          if m.rank(g) < bound {
            MovedRuns(fs, order, m, moved, g, Bind(m.mode, vals.value, args, fr, binds), w, fuel);
          }
        } else if fuel > 0 {
          MovedRuns(fs, order, m, moved, g, KnownAll(vals.value), w, fuel - 1);
        }
      }
    case Nested(body) => MovedExec(fs, order, m, moved, body, bound, fr, binds, w, fuel);
    case If(cond, yes, no) =>
      EvalRenumbered(m, moved, order, cond, fr, binds, w);
      MovedExec(fs, order, m, moved, yes, bound, fr, binds, w, fuel);
      MovedExec(fs, order, m, moved, no, bound, fr, binds, w, fuel);
    case While(_, _, _) => MovedWhile(fs, order, m, moved, instr, bound, fr, binds, w, fuel);
  }

  lemma {:induction false} MovedWhile<V(!new), W(!new)>(fs: seq<Func>, order: seq<nat>, m: Meaning<V, W>,
      moved: Meaning<V, W>, loop: Instr, bound: nat, fr: Frame<V>, binds: seq<Binding<V>>, w: W, fuel: nat)
    requires Permutes(order, |fs|) && Renumbered(m, moved, order) && loop.While?
    ensures ExecWhile(Reordered(fs, order), moved, MovedOne(order, loop), bound, fr, binds, w, fuel)
      == ExecWhile(fs, m, loop, bound, fr, binds, w, fuel)
    decreases fuel, bound, loop, 0
  {
    hide Permutes, Reordered, PlaceIn;
    if fuel > 0 {
      MovedExec(fs, order, m, moved, loop.test, bound, fr, binds, w, fuel - 1);
      match Exec(fs, m, loop.test, bound, fr, binds, w, fuel - 1)
      case OutOfFuel =>
      case Wrong =>
      case Out(fr1, w1) =>
        EvalRenumbered(m, moved, order, loop.cond, fr1, binds, w1);
        MovedExec(fs, order, m, moved, loop.body, bound, fr1, binds, w1, fuel - 1);
        match Exec(fs, m, loop.body, bound, fr1, binds, w1, fuel - 1)
        case OutOfFuel =>
        case Wrong =>
        case Out(fr2, w2) => MovedWhile(fs, order, m, moved, loop, bound, fr2, binds, w2, fuel - 1);
    }
  }

  /** A function runs at its new place as it did at its old one. */
  lemma {:induction false} MovedRuns<V(!new), W(!new)>(fs: seq<Func>, order: seq<nat>, m: Meaning<V, W>,
      moved: Meaning<V, W>, g: nat, binds: seq<Binding<V>>, w: W, fuel: nat)
    requires Permutes(order, |fs|) && Renumbered(m, moved, order) && g < |fs| && fs[g].Defined?
    ensures PlaceIn(order, g) < |fs| && Reordered(fs, order)[PlaceIn(order, g)].Defined?
    ensures RunFunction(Reordered(fs, order), moved, PlaceIn(order, g), binds, w, fuel)
      == RunFunction(fs, m, g, binds, w, fuel)
    decreases fuel, m.rank(g), fs[g].body, 3
  {
    hide Permutes, Reordered, PlaceIn;
    PlaceAt(order, |fs|, g);
    MovedAt(fs, order, g);
    MovedExec(fs, order, m, moved, fs[g].body, m.rank(g), Frame(map[], map[]), binds, w, fuel);
    match Exec(fs, m, fs[g].body, m.rank(g), Frame(map[], map[]), binds, w, fuel)
    case OutOfFuel =>
    case Wrong =>
    case Out(fr, w1) =>
      match fs[g].result
      case None =>
      case Some(o) => EvalRenumbered(m, moved, order, o, fr, binds, w1);
  }

  // ---------- both passes ----------

  /** If no annotated function leads back to a caller, sorting and then inlining leaves no inline call. */
  lemma SortedPlain(fs: seq<Func>, order: seq<nat>, k: nat)
    requires CallGraph.Sorted(References(fs), Positions(fs), order) && NoInlineCycle(fs) && WellNamed(fs) && k < |fs|
    ensures Permutes(order, |fs|)
    ensures var gs := Pass(Reordered(fs, order)); gs[k].Defined? ==> Plain(gs, gs[k].body)
  {
    hide PassUpTo, WellNamed, NoInlineCycle, CallGraph.Sorted, InSortedOrder, Plain;
    ReorderedSorted(fs, order);
    ReorderedNoCycle(fs, order);
    ReorderedNamed(fs, order);
    var gs := Reordered(fs, order);
    PassKeeps(gs, |gs|, k);
    if gs[k].Defined? {
      SortedLeavesNone(gs, k);
    }
  }

  /** Sorting and then inlining: if no annotated function leads back to a caller, then no inline call is left
      and, in a module in which no callee is passed a cell that it reads after it may have changed memory,
      every function gives what it gave. */
  lemma SortedInliningCorrect<V(!new), W(!new)>(fs: seq<Func>, order: seq<nat>, m: Meaning<V, W>,
      moved: Meaning<V, W>, pure_: set<nat>, g: nat, vals: seq<V>, w: W, fuel: nat)
    requires CallGraph.Sorted(References(fs), Positions(fs), order) && Permutes(order, |fs|)
    requires NoInlineCycle(fs) && WellNamed(fs) && g < |fs| && fs[g].Defined?
    requires m.mode == ByValue && Renumbered(m, moved, order) && forall k :: moved.rank(k) == k
    requires SafeModule(Reordered(fs, order), pure_, moved.rank) && PureOps(m, pure_)
    ensures var gs, k := Pass(Reordered(fs, order)), PlaceIn(order, g);
      && k < |gs| && gs[k].Defined? && Plain(gs, gs[k].body)
      && var before_ := RunFunction(fs, m, g, KnownAll(vals), w, fuel);
         before_ == WentWrong || RunFunction(gs, moved, k, KnownAll(vals), w, fuel) == before_
  {
    hide Pass, WellNamed, NoInlineCycle, CallGraph.Sorted, InSortedOrder, Plain, Permutes, Reordered, PlaceIn;
    hide SafeModule, Ranked;
    MovedRuns(fs, order, m, moved, g, KnownAll(vals), w, fuel);
    SortedPlain(fs, order, PlaceIn(order, g));
    ReorderedSorted(fs, order);
    ReorderedNoCycle(fs, order);
    ReorderedNamed(fs, order);
    var gs := Reordered(fs, order);
    SortedRanked(gs, moved.rank);
    assert As(moved, ByValue) == moved;
    InliningCorrect(gs, moved, pure_, PlaceIn(order, g), vals, w, fuel);
  }

  /** The two passes one after the other. */
  method SortAndInline(fs: seq<Func>) returns (order: seq<nat>, gs: seq<Func>)
    ensures CallGraph.Sorted(References(fs), Positions(fs), order) && Permutes(order, |fs|)
    ensures gs == Pass(Reordered(fs, order))
    ensures NoInlineCycle(fs) && WellNamed(fs) ==>
      forall k :: 0 <= k < |gs| && gs[k].Defined? ==> Plain(gs, gs[k].body)
  {
    hide Pass, WellNamed, NoInlineCycle, CallGraph.Sorted, Plain, References, Reordered;
    var sort := new CallGraph.Module(Positions(fs), References(fs));
    sort.TopologicalSortFunction();
    order := sort.functions;
    ReorderedSorted(fs, order);
    var inlined := new Module(Reordered(fs, order));
    var _ := inlined.InlineFunction();
    gs := inlined.functions;
    if NoInlineCycle(fs) && WellNamed(fs) {
      forall k | 0 <= k < |gs| && gs[k].Defined? ensures Plain(gs, gs[k].body) {
        SortedPlain(fs, order, k);
      }
    }
  }
}
