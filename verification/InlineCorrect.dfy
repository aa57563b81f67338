/** Inlining keeps every run in which an argument is read where the parameter is used. */
module InlineCorrect {
  import opened Wrappers
  import opened InlineIr
  import opened Inline
  import opened InlineBindings

  // ---------- names ----------

  predicate Avoids(site: Name, o: Operand) {
    match o
    case Value(x) => !IsInner(site, x)
    case Local(x) => !IsInner(site, x)
    case Cell(_, base) => Avoids(site, base)
    case Param(_) => true
  }

  predicate IsInner(site: Name, x: Name) {
    x.Inner? && x.site == site
  }

  // ---------- a copy and its original ----------

  /** The copy's names hold what the callee's own hold. */
  ghost predicate Copy<V>(site: Name, c: Frame<V>, t: Frame<V>) {
    && (forall x :: x in c.env ==> Get(t.env, Inner(site, x)) == Some(c.env[x]))
    && (forall x :: x in c.locals ==> Get(t.locals, Inner(site, x)) == Some(c.locals[x]))
  }

  ghost predicate Untouched<V>(site: Name, t: Frame<V>, u: Frame<V>) {
    && (forall x :: !IsInner(site, x) ==> Get(u.env, x) == Get(t.env, x))
    && (forall x :: !IsInner(site, x) ==> Get(u.locals, x) == Get(t.locals, x))
  }

  /** The arguments give what the parameters give, whatever the memory. */
  ghost predicate Agree<V, W(!new)>(m: Meaning<V, W>, bs: seq<Binding<V>>, args: seq<Operand>, t: Frame<V>,
      binds: seq<Binding<V>>) {
    |bs| == |args| && forall i: nat, w: W :: i < |bs| ==> AgreeAt(m, bs, args, t, binds, i, w)
  }

  ghost predicate AgreeAt<V, W>(m: Meaning<V, W>, bs: seq<Binding<V>>, args: seq<Operand>, t: Frame<V>,
      binds: seq<Binding<V>>, i: nat, w: W)
    requires i < |args|
  {
    Eval(m, Param(i), t, bs, w).Some? ==> Eval(m, args[i], t, binds, w) == Eval(m, Param(i), t, bs, w)
  }

  ghost predicate AvoidsAll(site: Name, args: seq<Operand>) {
    forall i :: 0 <= i < |args| ==> Avoids(site, args[i])
  }

  lemma {:induction false} EvalUntouched<V, W>(m: Meaning<V, W>, site: Name, o: Operand, t: Frame<V>, u: Frame<V>,
      binds: seq<Binding<V>>, w: W)
    requires Untouched(site, t, u) && Avoids(site, o)
    ensures Eval(m, o, u, binds, w) == Eval(m, o, t, binds, w)
    decreases o
  {
    match o
    case Cell(_, base) => EvalUntouched(m, site, base, t, u, binds, w);
    case Value(x) =>
    case Local(x) =>
    case Param(_) =>
  }

  lemma AgreeStays<V, W(!new)>(m: Meaning<V, W>, site: Name, bs: seq<Binding<V>>, args: seq<Operand>, t: Frame<V>,
      u: Frame<V>, binds: seq<Binding<V>>)
    requires Agree(m, bs, args, t, binds) && AvoidsAll(site, args) && Untouched(site, t, u)
    ensures Agree(m, bs, args, u, binds)
  {
    forall i: nat, w: W | i < |bs| ensures AgreeAt(m, bs, args, u, binds, i, w) {
      assert AgreeAt(m, bs, args, t, binds, i, w);
      EvalUntouched(m, site, args[i], t, u, binds, w);
    }
  }

  lemma {:induction false} SpliceEval<V, W(!new)>(m: Meaning<V, W>, site: Name, o: Operand, c: Frame<V>,
      bs: seq<Binding<V>>, args: seq<Operand>, t: Frame<V>, binds: seq<Binding<V>>, w: W)
    requires Copy(site, c, t) && Agree(m, bs, args, t, binds)
    ensures Eval(m, o, c, bs, w).Some? ==> Eval(m, Splice(site, args, o), t, binds, w) == Eval(m, o, c, bs, w)
    decreases o
  {
    match o
    case Cell(_, base) => SpliceEval(m, site, base, c, bs, args, t, binds, w);
    case Value(x) =>
    case Local(x) =>
    case Param(i) =>
      if i < |bs| {
        assert AgreeAt(m, bs, args, t, binds, i, w);
      }
  }

  lemma {:induction false} SpliceEvalAll<V, W(!new)>(m: Meaning<V, W>, site: Name, os: seq<Operand>, c: Frame<V>,
      bs: seq<Binding<V>>, args: seq<Operand>, t: Frame<V>, binds: seq<Binding<V>>, w: W)
    requires Copy(site, c, t) && Agree(m, bs, args, t, binds)
    ensures EvalAll(m, os, c, bs, w).Some? ==>
      EvalAll(m, SpliceAll(site, args, os), t, binds, w) == EvalAll(m, os, c, bs, w)
    decreases |os|
  {
    if os != [] {
      SpliceEval(m, site, os[0], c, bs, args, t, binds, w);
      SpliceEvalAll(m, site, os[1..], c, bs, args, t, binds, w);
      assert SpliceAll(site, args, os)[1..] == SpliceAll(site, args, os[1..]);
    }
  }

  /** The outcomes of a callee's body and of its copy. */
  ghost predicate CopyOut<V, W>(site: Name, t: Frame<V>, a: Out<V, W>, b: Out<V, W>) {
    match a
    case Wrong => true
    case OutOfFuel => b == OutOfFuel
    case Out(c, w) => b.Out? && b.w == w && Copy(site, c, b.fr) && Untouched(site, t, b.fr)
  }

  lemma CopySetEnv<V>(site: Name, c: Frame<V>, t: Frame<V>, x: Name, v: V)
    requires Copy(site, c, t)
    ensures Copy(site, c.(env := c.env[x := v]), t.(env := t.env[Inner(site, x) := v]))
    ensures Untouched(site, t, t.(env := t.env[Inner(site, x) := v]))
    ensures Copy(site, c.(locals := c.locals[x := v]), t.(locals := t.locals[Inner(site, x) := v]))
    ensures Untouched(site, t, t.(locals := t.locals[Inner(site, x) := v]))
  {
  }

  lemma UntouchedMore<V>(site: Name, t: Frame<V>, u: Frame<V>, v: Frame<V>)
    requires Untouched(site, t, u) && Untouched(site, u, v)
    ensures Untouched(site, t, v)
  {
  }

  // ---------- the copy runs as the callee ----------

  /** What the lemmas about a copy ask for. */
  ghost predicate Linked<V, W(!new)>(m: Meaning<V, W>, site: Name, c: Frame<V>, bs: seq<Binding<V>>,
      args: seq<Operand>, t: Frame<V>, binds: seq<Binding<V>>) {
    Copy(site, c, t) && Agree(m, bs, args, t, binds) && AvoidsAll(site, args)
  }

  lemma LinkedStays<V, W(!new)>(m: Meaning<V, W>, site: Name, c: Frame<V>, bs: seq<Binding<V>>, args: seq<Operand>,
      t: Frame<V>, binds: seq<Binding<V>>, c1: Frame<V>, t1: Frame<V>)
    requires Linked(m, site, c, bs, args, t, binds) && Copy(site, c1, t1) && Untouched(site, t, t1)
    ensures Linked(m, site, c1, bs, args, t1, binds)
  {
    AgreeStays(m, site, bs, args, t, t1, binds);
  }

  lemma {:induction false} SpliceRuns<V, W(!new)>(fs: seq<Func>, m: Meaning<V, W>, site: Name, body: seq<Instr>,
      b1: nat, c: Frame<V>, bs: seq<Binding<V>>, w: W, fuel: nat, args: seq<Operand>, b2: nat, t: Frame<V>,
      binds: seq<Binding<V>>)
    requires b1 <= b2 && Linked(m, site, c, bs, args, t, binds)
    ensures CopyOut(site, t, Exec(fs, m, body, b1, c, bs, w, fuel),
        Exec(fs, m, SpliceBody(site, args, body), b2, t, binds, w, fuel))
    decreases fuel, body, 2
  {
    hide Linked, Copy, Untouched;
    if body == [] {
      LinkedCopy(m, site, c, bs, args, t, binds);
    } else {
      SpliceOneRuns(fs, m, site, body[0], b1, c, bs, w, fuel, args, b2, t, binds);
      assert SpliceBody(site, args, body)[0] == SpliceOne(site, args, body[0]);
      assert SpliceBody(site, args, body)[1..] == SpliceBody(site, args, body[1..]);
      var x, y := ExecOne(fs, m, body[0], b1, c, bs, w, fuel),
          ExecOne(fs, m, SpliceOne(site, args, body[0]), b2, t, binds, w, fuel);
      if x.Out? {
        LinkedStays(m, site, c, bs, args, t, binds, x.fr, y.fr);
        SpliceRuns(fs, m, site, body[1..], b1, x.fr, bs, x.w, fuel, args, b2, y.fr, binds);
        CopyOutMore(site, t, y.fr, Exec(fs, m, body[1..], b1, x.fr, bs, x.w, fuel),
            Exec(fs, m, SpliceBody(site, args, body[1..]), b2, y.fr, binds, x.w, fuel));
      }
    }
  }

  lemma LinkedCopy<V, W(!new)>(m: Meaning<V, W>, site: Name, c: Frame<V>, bs: seq<Binding<V>>, args: seq<Operand>,
      t: Frame<V>, binds: seq<Binding<V>>)
    requires Linked(m, site, c, bs, args, t, binds)
    ensures Copy(site, c, t) && Agree(m, bs, args, t, binds) && Untouched(site, t, t)
  {
  }

  lemma CopyOutMore<V, W>(site: Name, t: Frame<V>, u: Frame<V>, a: Out<V, W>, b: Out<V, W>)
    requires Untouched(site, t, u) && CopyOut(site, u, a, b)
    ensures CopyOut(site, t, a, b)
  {
    if a.Out? {
      UntouchedMore(site, t, u, b.fr);
    }
  }

  lemma {:induction false} SpliceOneRuns<V, W(!new)>(fs: seq<Func>, m: Meaning<V, W>, site: Name, instr: Instr,
      b1: nat, c: Frame<V>, bs: seq<Binding<V>>, w: W, fuel: nat, args: seq<Operand>, b2: nat, t: Frame<V>,
      binds: seq<Binding<V>>)
    requires b1 <= b2 && Linked(m, site, c, bs, args, t, binds)
    ensures CopyOut(site, t, ExecOne(fs, m, instr, b1, c, bs, w, fuel),
        ExecOne(fs, m, SpliceOne(site, args, instr), b2, t, binds, w, fuel))
    decreases fuel, instr, 1
  {
    hide Linked, Copy, Untouched, Agree;
    LinkedCopy(m, site, c, bs, args, t, binds);
    match instr
    case Compute(dst, op, os) =>
      SpliceEvalAll(m, site, os, c, bs, args, t, binds, w);
      if EvalAll(m, os, c, bs, w).Some? {
        CopySetEnv(site, c, t, dst, m.op(op, EvalAll(m, os, c, bs, w).value, w).0);
      }
    case WriteLocal(x, o) =>
      SpliceEval(m, site, o, c, bs, args, t, binds, w);
      if Eval(m, o, c, bs, w).Some? {
        CopySetEnv(site, c, t, x, Eval(m, o, c, bs, w).value);
      }
    case Call(dst, g, os) =>
      SpliceCall(fs, m, site, instr, b1, c, bs, w, fuel, args, b2, t, binds);
    case Nested(body) => SpliceRuns(fs, m, site, body, b1, c, bs, w, fuel, args, b2, t, binds);
    case If(cond, yes, no) =>
      SpliceEval(m, site, cond, c, bs, args, t, binds, w);
      SpliceRuns(fs, m, site, yes, b1, c, bs, w, fuel, args, b2, t, binds);
      SpliceRuns(fs, m, site, no, b1, c, bs, w, fuel, args, b2, t, binds);
    case While(_, _, _) => SpliceWhile(fs, m, site, instr, b1, c, bs, w, fuel, args, b2, t, binds);
  }

  lemma {:induction false} SpliceAt(site: Name, args: seq<Operand>, os: seq<Operand>, k: nat)
    requires k < |os|
    ensures |SpliceAll(site, args, os)| == |os| && SpliceAll(site, args, os)[k] == Splice(site, args, os[k])
    decreases |os|
  {
    if k > 0 {
      SpliceAt(site, args, os[1..], k - 1);
    } else if |os| > 1 {
      SpliceAt(site, args, os[1..], 0);
    }
  }

  /** The arguments of a call in the copy read as those of the call in the callee. */
  lemma SpliceReads<V, W(!new)>(m: Meaning<V, W>, site: Name, os: seq<Operand>, c: Frame<V>, bs: seq<Binding<V>>,
      args: seq<Operand>, t: Frame<V>, binds: seq<Binding<V>>)
    requires Copy(site, c, t) && Agree(m, bs, args, t, binds)
    ensures ReadsAs(m, os, c, bs, SpliceAll(site, args, os), t, binds)
  {
    hide Copy, Agree, Eval;
    if os != [] {
      SpliceAt(site, args, os, 0);
    }
    forall k: nat, w: W | k < |os| ensures ReadsAt(m, os[k], c, bs, SpliceAll(site, args, os)[k], t, binds, w) {
      SpliceAt(site, args, os, k);
      SpliceEval(m, site, os[k], c, bs, args, t, binds, w);
    }
  }

  lemma SpliceCall<V, W(!new)>(fs: seq<Func>, m: Meaning<V, W>, site: Name, instr: Instr, b1: nat, c: Frame<V>,
      bs: seq<Binding<V>>, w: W, fuel: nat, args: seq<Operand>, b2: nat, t: Frame<V>, binds: seq<Binding<V>>)
    requires instr.Call? && b1 <= b2 && Linked(m, site, c, bs, args, t, binds)
    ensures CopyOut(site, t, ExecOne(fs, m, instr, b1, c, bs, w, fuel),
      ExecOne(fs, m, SpliceOne(site, args, instr), b2, t, binds, w, fuel))
  {
    LinkedCopy(m, site, c, bs, args, t, binds);
    hide Linked, Copy, Untouched, Agree, Eval, RunFunction, After, CopyOut;
    var os, g := instr.args, instr.callee;
    SpliceEvalAll(m, site, os, c, bs, args, t, binds, w);
    if EvalAll(m, os, c, bs, w).Some? && g < |fs| {
      var vals := EvalAll(m, os, c, bs, w).value;
      if fs[g].Declared? {
        var r := m.extern(g, vals, w);
        AfterCopy(site, c, t, instr.dst, Returned(Some(r.0), r.1), Returned(Some(r.0), r.1));
        AfterReturned(c, instr.dst, r.0, r.1);
        AfterReturned(t, Inner(site, instr.dst), r.0, r.1);
      } else if fs[g].annotated {
        if m.rank(g) < b1 {
          var x, y := Bind(m.mode, vals, os, c, bs), Bind(m.mode, vals, SpliceAll(site, args, os), t, binds);
          SpliceReads(m, site, os, c, bs, args, t, binds);
          BindCovers(m, vals, os, c, bs, SpliceAll(site, args, os), t, binds);
          FunctionCovers(fs, m, g, x, y, w, fuel);
          AfterCopy(site, c, t, instr.dst, RunFunction(fs, m, g, x, w, fuel), RunFunction(fs, m, g, y, w, fuel));
        } else {
          WrongCopy(site, t, ExecOne(fs, m, SpliceOne(site, args, instr), b2, t, binds, w, fuel));
        }
      } else if fuel > 0 {
        var r := RunFunction(fs, m, g, KnownAll(vals), w, fuel - 1);
        AfterCopy(site, c, t, instr.dst, r, r);
      } else {
        NoFuelCopy<V, W>(site, t);
      }
    } else {
      WrongCopy(site, t, ExecOne(fs, m, SpliceOne(site, args, instr), b2, t, binds, w, fuel));
    }
  }

  lemma WrongCopy<V, W>(site: Name, t: Frame<V>, b: Out<V, W>)
    ensures CopyOut(site, t, Wrong, b)
  {
  }

  lemma NoFuelCopy<V, W>(site: Name, t: Frame<V>)
    ensures CopyOut<V, W>(site, t, OutOfFuel, OutOfFuel)
  {
  }

  lemma AfterReturned<V, W>(fr: Frame<V>, dst: Name, v: V, w: W)
    ensures After(fr, dst, Returned(Some(v), w)) == SetEnv(fr, dst, v, w)
  {
  }

  lemma AfterCopy<V, W>(site: Name, c: Frame<V>, t: Frame<V>, dst: Name, a: Returned<V, W>, b: Returned<V, W>)
    requires Copy(site, c, t) && Untouched(site, t, t) && (a == WentWrong || b == a)
    ensures CopyOut(site, t, After(c, dst, a), After(t, Inner(site, dst), b))
  {
    hide Copy, Untouched;
    if a.Returned? && a.result.Some? {
      CopySetEnv(site, c, t, dst, a.result.value);
    }
  }

  lemma {:induction false} SpliceWhile<V, W(!new)>(fs: seq<Func>, m: Meaning<V, W>, site: Name, loop: Instr, b1: nat,
      c: Frame<V>, bs: seq<Binding<V>>, w: W, fuel: nat, args: seq<Operand>, b2: nat, t: Frame<V>,
      binds: seq<Binding<V>>)
    requires loop.While? && b1 <= b2 && Linked(m, site, c, bs, args, t, binds)
    ensures CopyOut(site, t, ExecWhile(fs, m, loop, b1, c, bs, w, fuel),
        ExecWhile(fs, m, SpliceOne(site, args, loop), b2, t, binds, w, fuel))
    decreases fuel, loop, 0
  {
    hide Linked, Copy, Untouched, Eval, Splice, Agree, AvoidsAll;
    LinkedCopy(m, site, c, bs, args, t, binds);
    if fuel > 0 {
      SpliceRuns(fs, m, site, loop.test, b1, c, bs, w, fuel - 1, args, b2, t, binds);
      var x := Exec(fs, m, loop.test, b1, c, bs, w, fuel - 1);
      if x.Out? {
        var y := Exec(fs, m, SpliceBody(site, args, loop.test), b2, t, binds, w, fuel - 1);
        LinkedStays(m, site, c, bs, args, t, binds, x.fr, y.fr);
        LinkedCopy(m, site, x.fr, bs, args, y.fr, binds);
        SpliceEval(m, site, loop.cond, x.fr, bs, args, y.fr, binds, x.w);
        var v := Eval(m, loop.cond, x.fr, bs, x.w);
        if v.Some? && m.truth(v.value) {
          SpliceRuns(fs, m, site, loop.body, b1, x.fr, bs, x.w, fuel - 1, args, b2, y.fr, binds);
          var x2 := Exec(fs, m, loop.body, b1, x.fr, bs, x.w, fuel - 1);
          if x2.Out? {
            var y2 := Exec(fs, m, SpliceBody(site, args, loop.body), b2, y.fr, binds, x.w, fuel - 1);
            LinkedStays(m, site, x.fr, bs, args, y.fr, binds, x2.fr, y2.fr);
            SpliceWhile(fs, m, site, loop, b1, x2.fr, bs, x2.w, fuel - 1, args, b2, y2.fr, binds);
            UntouchedMore(site, t, y.fr, y2.fr);
            CopyOutMore(site, t, y2.fr, ExecWhile(fs, m, loop, b1, x2.fr, bs, x2.w, fuel - 1),
                ExecWhile(fs, m, SpliceOne(site, args, loop), b2, y2.fr, binds, x2.w, fuel - 1));
          }
        }
      }
    }
  }
}
