/** A module and what inlining makes of it give the same results. */
module InlineTheorem {
  import opened Wrappers
  import opened InlineIr
  import opened Inline
  import opened InlineCalls
  import opened InlineAtOnce
  import opened InlineCorrect

  /** The caller's names hold what they held, and the variables of inlined calls the results. */
  ghost predicate Kept<V>(sites: set<Name>, fr: Frame<V>, t: Frame<V>) {
    && (forall x :: x in fr.env ==> x.Own?)
    && (forall x :: x in fr.env ==> Some(fr.env[x]) == if x in sites then Get(t.locals, Result(x)) else Get(t.env, x))
    && (forall x :: x in fr.locals ==> x.Own? && Get(t.locals, x) == Some(fr.locals[x]))
  }

  ghost predicate KeptOut<V, W>(sites: set<Name>, a: Out<V, W>, b: Out<V, W>) {
    match a
    case Wrong => true
    case OutOfFuel => b == OutOfFuel
    case Out(fr, w) => b.Out? && b.w == w && Kept(sites, fr, b.fr)
  }

  /** Calls that give the same, except where the first goes wrong. */
  ghost predicate SameReturn<V, W>(a: Returned<V, W>, b: Returned<V, W>) {
    a == WentWrong || b == a
  }

  lemma {:induction false} KeptEval<V, W>(m: Meaning<V, W>, sites: set<Name>, o: Operand, fr: Frame<V>, t: Frame<V>,
      binds: seq<Binding<V>>, w: W)
    requires Kept(sites, fr, t)
    ensures Eval(m, o, fr, binds, w).Some? ==> Eval(m, Redirect(sites, o), t, binds, w) == Eval(m, o, fr, binds, w)
    decreases o
  {
    match o
    case Cell(_, base) => KeptEval(m, sites, base, fr, t, binds, w);
    case Value(x) =>
    case Local(x) =>
    case Param(_) =>
  }

  lemma {:induction false} KeptEvalAll<V, W>(m: Meaning<V, W>, sites: set<Name>, os: seq<Operand>, fr: Frame<V>,
      t: Frame<V>, binds: seq<Binding<V>>, w: W)
    requires Kept(sites, fr, t)
    ensures EvalAll(m, os, fr, binds, w).Some? ==>
      EvalAll(m, RedirectAll(sites, os), t, binds, w) == EvalAll(m, os, fr, binds, w)
    decreases |os|
  {
    if os != [] {
      KeptEval(m, sites, os[0], fr, t, binds, w);
      KeptEvalAll(m, sites, os[1..], fr, t, binds, w);
      assert RedirectAll(sites, os)[1..] == RedirectAll(sites, os[1..]);
    }
  }

  lemma {:induction false} RedirectAvoids(site: Name, sites: set<Name>, o: Operand)
    requires OwnOperand(o)
    ensures Avoids(site, Redirect(sites, o))
  {
    match o
    case Cell(_, base) => RedirectAvoids(site, sites, base);
    case Value(x) =>
    case Local(x) =>
    case Param(_) =>
  }

  lemma {:induction false} OwnAt(os: seq<Operand>, i: nat)
    requires OwnAll(os) && i < |os|
    ensures OwnOperand(os[i])
  {
    if i > 0 {
      OwnAt(os[1..], i - 1);
    }
  }

  lemma KeptSet<V>(sites: set<Name>, fr: Frame<V>, t: Frame<V>, x: Name, v: V)
    requires Kept(sites, fr, t) && x.Own?
    ensures x !in sites ==> Kept(sites, fr.(env := fr.env[x := v]), t.(env := t.env[x := v]))
    ensures x in sites ==> Kept(sites, fr.(env := fr.env[x := v]), t.(locals := t.locals[Result(x) := v]))
    ensures Kept(sites, fr.(locals := fr.locals[x := v]), t.(locals := t.locals[x := v]))
  {
  }

  lemma KeptUntouched<V>(sites: set<Name>, site: Name, fr: Frame<V>, t: Frame<V>, u: Frame<V>)
    requires Kept(sites, fr, t) && Untouched(site, t, u)
    ensures Kept(sites, fr, u)
  {
  }

  // ---------- an inlined call ----------

  lemma ArgumentsAgree<V, W(!new)>(m: Meaning<V, W>, sites: set<Name>, site: Name, vals: seq<V>, os: seq<Operand>,
      fr: Frame<V>, t: Frame<V>, binds: seq<Binding<V>>)
    requires Kept(sites, fr, t) && OwnAll(os) && |vals| == |os| && m.mode != ByValue
    ensures Linked(m, site, Frame(map[], map[]), Bind(m.mode, vals, os, fr, binds), RedirectAll(sites, os), t, binds)
  {
    var bs, args := Bind(m.mode, vals, os, fr, binds), RedirectAll(sites, os);
    forall i: nat, w: W | i < |bs| ensures AgreeAt(m, bs, args, t, binds, i, w) {
      RedirectAt(sites, os, i);
      KeptEval(m, sites, os[i], fr, t, binds, w);
      assert bs[i] == if m.mode == ByName then Thunk(os[i], fr, binds) else Both(vals[i], os[i], fr, binds);
    }
    forall i | 0 <= i < |args| ensures Avoids(site, args[i]) {
      RedirectAt(sites, os, i);
      OwnAt(os, i);
      RedirectAvoids(site, sites, os[i]);
    }
  }

  /** A body of a function as it stands at some time. */
  function RunBody<V(==), W>(gs: seq<Func>, m: Meaning<V, W>, f: Func, bound: nat, binds: seq<Binding<V>>, w: W,
      fuel: nat): Returned<V, W>
    requires f.Defined?
  {
    match Exec(gs, m, f.body, bound, Frame(map[], map[]), binds, w, fuel)
    case OutOfFuel => NoFuel
    case Wrong => WentWrong
    case Out(fr, w1) => Finish(m, f.result, fr, binds, w1)
  }

  /** The block in place of a call does what the call of that body did. */
  lemma SplicedRuns<V, W(!new)>(gs: seq<Func>, m: Meaning<V, W>, f: Func, sites: set<Name>, site: Name,
      vals: seq<V>, os: seq<Operand>, b1: nat, b2: nat, fr: Frame<V>, t: Frame<V>, binds: seq<Binding<V>>, w: W,
      fuel: nat)
    requires f.Defined? && b1 <= b2 && Kept(sites, fr, t) && OwnAll(os) && |vals| == |os| && m.mode != ByValue
    requires site in sites && site.Own?
    ensures KeptOut(sites, After(fr, site, RunBody(gs, m, f, b1, Bind(m.mode, vals, os, fr, binds), w, fuel)),
      ExecOne(gs, m, Spliced(f, site, RedirectAll(sites, os)), b2, t, binds, w, fuel))
  {
    hide Linked, Copy, Untouched, Kept, Agree;
    var bs, args := Bind(m.mode, vals, os, fr, binds), RedirectAll(sites, os);
    var none := Frame(map[], map[]);
    ArgumentsAgree(m, sites, site, vals, os, fr, t, binds);
    SpliceRuns(gs, m, site, f.body, b1, none, bs, w, fuel, args, b2, t, binds);
    var x := Exec(gs, m, f.body, b1, none, bs, w, fuel);
    var copy := SpliceBody(site, args, f.body);
    var y := Exec(gs, m, copy, b2, t, binds, w, fuel);
    var last := match f.result case None => [] case Some(o) => [WriteLocal(Result(site), Splice(site, args, o))];
    ExecConcat(gs, m, copy, last, b2, t, binds, w, fuel);
    assert Spliced(f, site, args) == Nested(copy + last);
    if x.Out? {
      KeptUntouched(sites, site, fr, t, y.fr);
      if f.result.Some? {
        var o := f.result.value;
        LinkedStays(m, site, none, bs, args, t, binds, x.fr, y.fr);
        LinkedCopy(m, site, x.fr, bs, args, y.fr, binds);
        SpliceEval(m, site, o, x.fr, bs, args, y.fr, binds, x.w);
        assert last[1..] == [];
        if Eval(m, o, x.fr, bs, x.w).Some? {
          KeptSet(sites, fr, y.fr, site, Eval(m, o, x.fr, bs, x.w).value);
        }
      }
    }
  }

  lemma {:induction false} ExecConcat<V, W>(fs: seq<Func>, m: Meaning<V, W>, a: seq<Instr>, b: seq<Instr>, bound: nat,
      fr: Frame<V>, binds: seq<Binding<V>>, w: W, fuel: nat)
    ensures Exec(fs, m, a + b, bound, fr, binds, w, fuel) ==
      match Exec(fs, m, a, bound, fr, binds, w, fuel)
      case Out(fr1, w1) => Exec(fs, m, b, bound, fr1, binds, w1, fuel)
      case OutOfFuel => OutOfFuel
      case Wrong => Wrong
    decreases |a|
  {
    if a == [] {
      assert a + b == b;
    } else {
      assert (a + b)[0] == a[0] && (a + b)[1..] == a[1..] + b;
      match ExecOne(fs, m, a[0], bound, fr, binds, w, fuel) {
        case Out(fr1, w1) => ExecConcat(fs, m, a[1..], b, bound, fr1, binds, w1, fuel);
        case OutOfFuel =>
        case Wrong =>
      }
    }
  }

  // ---------- every call ----------

  /** The graph of inline calls has no cycle, and every value has its own name. */
  ghost predicate Inlinable(fs: seq<Func>, rank: nat -> nat) {
    Ranked(fs, rank) && WellNamed(fs)
  }

  /** The calls of function i that are inlined. */
  function SitesOf(fs: seq<Func>, i: nat): set<Name>
    requires i < |fs| && fs[i].Defined?
  {
    Sites(fs, fs[i].body)
  }

  lemma NotOwnCallee(fs: seq<Func>, rank: nat -> nat, i: nat)
    requires Ranked(fs, rank) && i < |fs| && fs[i].Defined?
    ensures i !in Callees(fs, fs[i].body)
  {
    assert AllBelow(Callees(fs, fs[i].body), rank, rank(i));
  }

  lemma PassFacts(fs: seq<Func>, rank: nat -> nat, i: nat, g: nat)
    requires Inlinable(fs, rank) && i < |fs| && g < |fs|
    ensures var gs, before := Pass(fs), PassUpTo(fs, i);
      && (fs[i].Defined? ==> gs[i] == EditFunc(before, SitesOf(fs, i), fs[i]))
      && gs[g].Defined? == fs[g].Defined? && (gs[g].Defined? ==> gs[g].annotated == fs[g].annotated)
      && (Inlines(before, g) <==> Inlines(fs, g))
      && before[g] == if g < i then gs[g] else fs[g]
  {
    PassKeeps(fs, i, g);
    PassKeeps(fs, |fs|, g);
    if fs[i].Defined? {
      NotOwnCallee(fs, rank, i);
      PassAt(fs, i);
    }
  }

  /** A call of function g in the module and in what the pass makes of it. */
  lemma {:induction false} FunctionSame<V, W(!new)>(fs: seq<Func>, m: Meaning<V, W>, g: nat, binds: seq<Binding<V>>,
      w: W, fuel: nat)
    requires Inlinable(fs, m.rank) && m.mode != ByValue && g < |fs| && fs[g].Defined?
    ensures Pass(fs)[g].Defined?
    ensures SameReturn(RunFunction(fs, m, g, binds, w, fuel), RunFunction(Pass(fs), m, g, binds, w, fuel))
    decreases fuel, m.rank(g), fs[g].body, 4
  {
    hide Kept, Inlinable, Pass, PassUpTo;
    PassFacts(fs, m.rank, g, g);
    var none: Frame<V> := Frame(map[], map[]);
    var sites, bound := SitesOf(fs, g), m.rank(g);
    NamedBody(fs, m.rank, g);
    KeptNothing<V>(sites);
    BodySame(fs, m, g, fs[g].body, none, binds, w, fuel, none);
    var x := Exec(fs, m, fs[g].body, bound, none, binds, w, fuel);
    if x.Out? && fs[g].result.Some? {
      var y := Exec(Pass(fs), m, Pass(fs)[g].body, bound, none, binds, w, fuel);
      KeptEval(m, sites, fs[g].result.value, x.fr, y.fr, binds, x.w);
    }
  }

  lemma NamedBody(fs: seq<Func>, rank: nat -> nat, g: nat)
    requires Inlinable(fs, rank) && g < |fs| && fs[g].Defined?
    ensures OwnBody(fs, SitesOf(fs, g), fs[g].body)
  {
    assert OwnFunc(fs, fs[g]);
  }

  lemma KeptNothing<V>(sites: set<Name>)
    ensures Kept<V>(sites, Frame(map[], map[]), Frame(map[], map[]))
  {
  }

  /** Part of the body of function i. */
  lemma {:induction false} BodySame<V, W(!new)>(fs: seq<Func>, m: Meaning<V, W>, i: nat, body: seq<Instr>,
      fr: Frame<V>, binds: seq<Binding<V>>, w: W, fuel: nat, t: Frame<V>)
    requires Inlinable(fs, m.rank) && m.mode != ByValue && i < |fs| && fs[i].Defined?
    requires OwnBody(fs, SitesOf(fs, i), body) && Kept(SitesOf(fs, i), fr, t)
    ensures KeptOut(SitesOf(fs, i), Exec(fs, m, body, m.rank(i), fr, binds, w, fuel),
      Exec(Pass(fs), m, InlineBody(PassUpTo(fs, i), SitesOf(fs, i), body), m.rank(i), t, binds, w, fuel))
    decreases fuel, m.rank(i), body, 3
  {
    hide Kept, Inlinable, Pass, PassUpTo, SitesOf;
    if body != [] {
      var done, sites := PassUpTo(fs, i), SitesOf(fs, i);
      InstrSame(fs, m, i, body[0], fr, binds, w, fuel, t);
      assert InlineBody(done, sites, body)[0] == InlineOne(done, sites, body[0]);
      assert InlineBody(done, sites, body)[1..] == InlineBody(done, sites, body[1..]);
      var x := ExecOne(fs, m, body[0], m.rank(i), fr, binds, w, fuel);
      if x.Out? {
        var y := ExecOne(Pass(fs), m, InlineOne(done, sites, body[0]), m.rank(i), t, binds, w, fuel);
        BodySame(fs, m, i, body[1..], x.fr, binds, x.w, fuel, y.fr);
      }
    }
  }

  lemma {:induction false} InstrSame<V, W(!new)>(fs: seq<Func>, m: Meaning<V, W>, i: nat, instr: Instr, fr: Frame<V>,
      binds: seq<Binding<V>>, w: W, fuel: nat, t: Frame<V>)
    requires Inlinable(fs, m.rank) && m.mode != ByValue && i < |fs| && fs[i].Defined?
    requires OwnInstr(fs, SitesOf(fs, i), instr) && Kept(SitesOf(fs, i), fr, t)
    ensures KeptOut(SitesOf(fs, i), ExecOne(fs, m, instr, m.rank(i), fr, binds, w, fuel),
      ExecOne(Pass(fs), m, InlineOne(PassUpTo(fs, i), SitesOf(fs, i), instr), m.rank(i), t, binds, w, fuel))
    decreases fuel, m.rank(i), instr, 2
  {
    hide Kept, Inlinable, Pass, PassUpTo, SitesOf;
    var sites := SitesOf(fs, i);
    match instr
    case Compute(dst, op, os) =>
      KeptEvalAll(m, sites, os, fr, t, binds, w);
      if EvalAll(m, os, fr, binds, w).Some? {
        KeptSet(sites, fr, t, dst, m.op(op, EvalAll(m, os, fr, binds, w).value, w).0);
      }
    case WriteLocal(x, o) =>
      KeptEval(m, sites, o, fr, t, binds, w);
      if Eval(m, o, fr, binds, w).Some? {
        KeptSet(sites, fr, t, x, Eval(m, o, fr, binds, w).value);
      }
    case Call(dst, g, os) => CallSame(fs, m, i, instr, fr, binds, w, fuel, t);
    case Nested(body) => BodySame(fs, m, i, body, fr, binds, w, fuel, t);
    case If(cond, yes, no) =>
      KeptEval(m, sites, cond, fr, t, binds, w);
      BodySame(fs, m, i, yes, fr, binds, w, fuel, t);
      BodySame(fs, m, i, no, fr, binds, w, fuel, t);
    case While(_, _, _) => WhileSame(fs, m, i, instr, fr, binds, w, fuel, t);
  }

  lemma {:induction false} CallSame<V, W(!new)>(fs: seq<Func>, m: Meaning<V, W>, i: nat, instr: Instr, fr: Frame<V>,
      binds: seq<Binding<V>>, w: W, fuel: nat, t: Frame<V>)
    requires Inlinable(fs, m.rank) && m.mode != ByValue && i < |fs| && fs[i].Defined? && instr.Call?
    requires OwnInstr(fs, SitesOf(fs, i), instr) && Kept(SitesOf(fs, i), fr, t)
    ensures KeptOut(SitesOf(fs, i), ExecOne(fs, m, instr, m.rank(i), fr, binds, w, fuel),
      ExecOne(Pass(fs), m, InlineOne(PassUpTo(fs, i), SitesOf(fs, i), instr), m.rank(i), t, binds, w, fuel))
    decreases fuel, m.rank(i), instr, 1
  {
    hide Kept, Inlinable, Pass, PassUpTo, SitesOf, Spliced, RunBody;
    var gs, sites, g, os := Pass(fs), SitesOf(fs, i), instr.callee, instr.args;
    KeptEvalAll(m, sites, os, fr, t, binds, w);
    if EvalAll(m, os, fr, binds, w).Some? && g < |fs| {
      var vals := EvalAll(m, os, fr, binds, w).value;
      PassFacts(fs, m.rank, i, g);
      if fs[g].Declared? {
        KeptSet(sites, fr, t, instr.dst, m.extern(g, vals, w).0);
      } else if fs[g].annotated {
        if m.rank(g) < m.rank(i) {
          var f, bs := PassUpTo(fs, i)[g], Bind(m.mode, vals, os, fr, binds);
          if g < i {
            FunctionSame(fs, m, g, bs, w, fuel);
            BodyOf(gs, m, g, bs, w, fuel);
          } else {
            ModuleCall(fs, m, g, bs, w, fuel);
          }
          SplicedRuns(gs, m, f, sites, instr.dst, vals, os, m.rank(g), m.rank(i), fr, t, binds, w, fuel);
          ReturnKept(sites, fr, instr.dst, RunFunction(fs, m, g, bs, w, fuel),
            RunBody(gs, m, f, m.rank(g), bs, w, fuel),
            ExecOne(gs, m, Spliced(f, instr.dst, RedirectAll(sites, os)), m.rank(i), t, binds, w, fuel));
        }
      } else if fuel > 0 {
        FunctionSame(fs, m, g, KnownAll(vals), w, fuel - 1);
        AfterSame(sites, fr, t, instr.dst, RunFunction(fs, m, g, KnownAll(vals), w, fuel - 1),
          RunFunction(gs, m, g, KnownAll(vals), w, fuel - 1));
      }
    }
  }

  lemma BodyOf<V, W>(gs: seq<Func>, m: Meaning<V, W>, g: nat, binds: seq<Binding<V>>, w: W, fuel: nat)
    requires g < |gs| && gs[g].Defined?
    ensures RunBody(gs, m, gs[g], m.rank(g), binds, w, fuel) == RunFunction(gs, m, g, binds, w, fuel)
  {
  }

  lemma ReturnKept<V, W>(sites: set<Name>, fr: Frame<V>, dst: Name, a: Returned<V, W>, b: Returned<V, W>, c: Out<V, W>)
    requires SameReturn(a, b) && KeptOut(sites, After(fr, dst, b), c)
    ensures KeptOut(sites, After(fr, dst, a), c)
  {
  }

  lemma AfterSame<V, W>(sites: set<Name>, fr: Frame<V>, t: Frame<V>, dst: Name, a: Returned<V, W>, b: Returned<V, W>)
    requires Kept(sites, fr, t) && SameReturn(a, b) && dst.Own? && dst !in sites
    ensures KeptOut(sites, After(fr, dst, a), After(t, dst, b))
  {
    hide Kept;
    if a.Returned? && a.result.Some? {
      KeptSet(sites, fr, t, dst, a.result.value);
    }
  }

  lemma {:induction false} WhileSame<V, W(!new)>(fs: seq<Func>, m: Meaning<V, W>, i: nat, loop: Instr, fr: Frame<V>,
      binds: seq<Binding<V>>, w: W, fuel: nat, t: Frame<V>)
    requires Inlinable(fs, m.rank) && m.mode != ByValue && i < |fs| && fs[i].Defined? && loop.While?
    requires OwnInstr(fs, SitesOf(fs, i), loop) && Kept(SitesOf(fs, i), fr, t)
    ensures KeptOut(SitesOf(fs, i), ExecWhile(fs, m, loop, m.rank(i), fr, binds, w, fuel),
      ExecWhile(Pass(fs), m, InlineOne(PassUpTo(fs, i), SitesOf(fs, i), loop), m.rank(i), t, binds, w, fuel))
    decreases fuel, m.rank(i), loop, 0
  {
    hide Kept, Inlinable, Pass, PassUpTo, SitesOf;
    if fuel > 0 {
      var gs, done, sites := Pass(fs), PassUpTo(fs, i), SitesOf(fs, i);
      BodySame(fs, m, i, loop.test, fr, binds, w, fuel - 1, t);
      var x := Exec(fs, m, loop.test, m.rank(i), fr, binds, w, fuel - 1);
      if x.Out? {
        var y := Exec(gs, m, InlineBody(done, sites, loop.test), m.rank(i), t, binds, w, fuel - 1);
        KeptEval(m, sites, loop.cond, x.fr, y.fr, binds, x.w);
        var v := Eval(m, loop.cond, x.fr, binds, x.w);
        if v.Some? && m.truth(v.value) {
          BodySame(fs, m, i, loop.body, x.fr, binds, x.w, fuel - 1, y.fr);
          var x2 := Exec(fs, m, loop.body, m.rank(i), x.fr, binds, x.w, fuel - 1);
          if x2.Out? {
            var y2 := Exec(gs, m, InlineBody(done, sites, loop.body), m.rank(i), y.fr, binds, x.w, fuel - 1);
            WhileSame(fs, m, i, loop, x2.fr, binds, x2.w, fuel - 1, y2.fr);
          }
        }
      }
    }
  }

  // ---------- the same code in both modules ----------

  /** A body that has not been gone over, with the functions it calls before and after the pass. */
  lemma {:induction false} ModuleBody<V, W(!new)>(fs: seq<Func>, m: Meaning<V, W>, body: seq<Instr>, bound: nat,
      fr: Frame<V>, binds: seq<Binding<V>>, w: W, fuel: nat)
    requires Inlinable(fs, m.rank) && m.mode != ByValue
    ensures var x := Exec(fs, m, body, bound, fr, binds, w, fuel);
      x == Wrong || Exec(Pass(fs), m, body, bound, fr, binds, w, fuel) == x
    decreases fuel, bound, body, 7
  {
    hide Inlinable, Pass;
    if body != [] {
      ModuleInstr(fs, m, body[0], bound, fr, binds, w, fuel);
      match ExecOne(fs, m, body[0], bound, fr, binds, w, fuel) {
        case Out(fr1, w1) => ModuleBody(fs, m, body[1..], bound, fr1, binds, w1, fuel);
        case OutOfFuel =>
        case Wrong =>
      }
    }
  }

  lemma {:induction false} ModuleInstr<V, W(!new)>(fs: seq<Func>, m: Meaning<V, W>, instr: Instr, bound: nat,
      fr: Frame<V>, binds: seq<Binding<V>>, w: W, fuel: nat)
    requires Inlinable(fs, m.rank) && m.mode != ByValue
    ensures var x := ExecOne(fs, m, instr, bound, fr, binds, w, fuel);
      x == Wrong || ExecOne(Pass(fs), m, instr, bound, fr, binds, w, fuel) == x
    decreases fuel, bound, instr, 6
  {
    hide Inlinable, Pass;
    match instr
    case Compute(_, _, _) =>
    case WriteLocal(_, _) =>
    case Call(_, g, os) =>
      if EvalAll(m, os, fr, binds, w).Some? && g < |fs| {
        var vals := EvalAll(m, os, fr, binds, w).value;
        PassFacts(fs, m.rank, g, g);
        if Inlines(fs, g) {
          if m.rank(g) < bound {
            FunctionSame(fs, m, g, Bind(m.mode, vals, os, fr, binds), w, fuel);
          }
        } else if fs[g].Defined? && fuel > 0 {
          FunctionSame(fs, m, g, KnownAll(vals), w, fuel - 1);
        } else if fs[g].Declared? {
          assert Pass(fs)[g] == Declared;
        }
      }
    case Nested(body) => ModuleBody(fs, m, body, bound, fr, binds, w, fuel);
    case If(_, yes, no) =>
      ModuleBody(fs, m, yes, bound, fr, binds, w, fuel);
      ModuleBody(fs, m, no, bound, fr, binds, w, fuel);
    case While(_, _, _) => ModuleWhile(fs, m, instr, bound, fr, binds, w, fuel);
  }

  lemma {:induction false} ModuleWhile<V, W(!new)>(fs: seq<Func>, m: Meaning<V, W>, loop: Instr, bound: nat,
      fr: Frame<V>, binds: seq<Binding<V>>, w: W, fuel: nat)
    requires Inlinable(fs, m.rank) && m.mode != ByValue && loop.While?
    ensures var x := ExecWhile(fs, m, loop, bound, fr, binds, w, fuel);
      x == Wrong || ExecWhile(Pass(fs), m, loop, bound, fr, binds, w, fuel) == x
    decreases fuel, bound, loop, 5
  {
    hide Inlinable, Pass;
    if fuel > 0 {
      ModuleBody(fs, m, loop.test, bound, fr, binds, w, fuel - 1);
      var x := Exec(fs, m, loop.test, bound, fr, binds, w, fuel - 1);
      if x.Out? {
        ModuleBody(fs, m, loop.body, bound, x.fr, binds, x.w, fuel - 1);
        var y := Exec(fs, m, loop.body, bound, x.fr, binds, x.w, fuel - 1);
        if y.Out? {
          ModuleWhile(fs, m, loop, bound, y.fr, binds, y.w, fuel - 1);
        }
      }
    }
  }

  /** A call of a function whose turn has not come. */
  lemma {:induction false} ModuleCall<V, W(!new)>(fs: seq<Func>, m: Meaning<V, W>, g: nat, binds: seq<Binding<V>>,
      w: W, fuel: nat)
    requires Inlinable(fs, m.rank) && m.mode != ByValue && g < |fs| && fs[g].Defined?
    ensures SameReturn(RunFunction(fs, m, g, binds, w, fuel), RunBody(Pass(fs), m, fs[g], m.rank(g), binds, w, fuel))
    decreases fuel, m.rank(g), fs[g].body, 8
  {
    hide Inlinable, Pass;
    ModuleBody(fs, m, fs[g].body, m.rank(g), Frame(map[], map[]), binds, w, fuel);
  }
}
