/** Inlining the calls of a function one after the other is inlining them all at once, where none of them
    goes back to the function itself. */
module InlineAtOnce {
  import opened InlineIr
  import opened Inline
  import opened InlineCalls

  lemma {:induction false} RedirectTwice(a: set<Name>, b: set<Name>, o: Operand)
    ensures Redirect(b, Redirect(a, o)) == Redirect(a + b, o)
    decreases o
  {
    match o
    case Cell(_, base) => RedirectTwice(a, b, base);
    case Value(_) =>
    case Local(_) =>
    case Param(_) =>
  }

  lemma {:induction false} RedirectAllTwice(a: set<Name>, b: set<Name>, os: seq<Operand>)
    ensures RedirectAll(b, RedirectAll(a, os)) == RedirectAll(a + b, os)
    decreases |os|
  {
    if os != [] {
      RedirectTwice(a, b, os[0]);
      RedirectAllTwice(a, b, os[1..]);
      assert RedirectAll(a, os)[1..] == RedirectAll(a, os[1..]);
    }
  }

  lemma {:induction false} RedirectAt(sites: set<Name>, os: seq<Operand>, i: nat)
    requires i < |os|
    ensures RedirectAll(sites, os)[i] == Redirect(sites, os[i])
  {
    if i > 0 {
      RedirectAt(sites, os[1..], i - 1);
    }
  }

  // ---------- a later edit and an earlier copy ----------

  lemma {:induction false} RedirectSplice(x: Name, site: Name, args: seq<Operand>, o: Operand)
    requires x.Own?
    ensures Redirect({x}, Splice(site, args, o)) == Splice(site, RedirectAll({x}, args), o)
    decreases o
  {
    match o
    case Cell(_, base) => RedirectSplice(x, site, args, base);
    case Value(_) =>
    case Local(_) =>
    case Param(i) =>
      if i < |args| {
        RedirectAt({x}, args, i);
      }
  }

  lemma {:induction false} RedirectSpliceAll(x: Name, site: Name, args: seq<Operand>, os: seq<Operand>)
    requires x.Own?
    ensures RedirectAll({x}, SpliceAll(site, args, os)) == SpliceAll(site, RedirectAll({x}, args), os)
    decreases |os|
  {
    if os != [] {
      RedirectSplice(x, site, args, os[0]);
      RedirectSpliceAll(x, site, args, os[1..]);
      assert SpliceAll(site, args, os)[1..] == SpliceAll(site, args, os[1..]);
    }
  }

  /** In a copy, a later edit of the caller reaches the arguments only. */
  lemma {:induction false} EditCopy(fs: seq<Func>, x: Name, site: Name, args: seq<Operand>, body: seq<Instr>)
    requires x.Own?
    ensures InlineBody(fs, {x}, SpliceBody(site, args, body)) == SpliceBody(site, RedirectAll({x}, args), body)
    decreases body, 1
  {
    if body != [] {
      EditCopyOne(fs, x, site, args, body[0]);
      EditCopy(fs, x, site, args, body[1..]);
      assert SpliceBody(site, args, body)[1..] == SpliceBody(site, args, body[1..]);
    }
  }

  lemma {:induction false} EditCopyOne(fs: seq<Func>, x: Name, site: Name, args: seq<Operand>, instr: Instr)
    requires x.Own?
    ensures InlineOne(fs, {x}, SpliceOne(site, args, instr)) == SpliceOne(site, RedirectAll({x}, args), instr)
    decreases instr, 0
  {
    match instr
    case Compute(_, _, os) => RedirectSpliceAll(x, site, args, os);
    case WriteLocal(_, o) => RedirectSplice(x, site, args, o);
    case Call(_, _, os) => RedirectSpliceAll(x, site, args, os);
    case Nested(body) => EditCopy(fs, x, site, args, body);
    case If(cond, yes, no) =>
      RedirectSplice(x, site, args, cond);
      EditCopy(fs, x, site, args, yes);
      EditCopy(fs, x, site, args, no);
    case While(test, cond, body) =>
      RedirectSplice(x, site, args, cond);
      EditCopy(fs, x, site, args, test);
      EditCopy(fs, x, site, args, body);
  }

  lemma {:induction false} InlineConcat(fs: seq<Func>, sites: set<Name>, a: seq<Instr>, b: seq<Instr>)
    ensures InlineBody(fs, sites, a + b) == InlineBody(fs, sites, a) + InlineBody(fs, sites, b)
    decreases |a|
  {
    if a == [] {
      assert a + b == b;
    } else {
      assert (a + b)[0] == a[0] && (a + b)[1..] == a[1..] + b;
      InlineConcat(fs, sites, a[1..], b);
    }
  }

  lemma EditSpliced(fs: seq<Func>, x: Name, f: Func, site: Name, args: seq<Operand>)
    requires f.Defined? && x.Own?
    ensures InlineOne(fs, {x}, Spliced(f, site, args)) == Spliced(f, site, RedirectAll({x}, args))
  {
    EditCopy(fs, x, site, args, f.body);
    var last := match f.result case None => [] case Some(o) => [WriteLocal(Result(site), Splice(site, args, o))];
    InlineConcat(fs, {x}, SpliceBody(site, args, f.body), last);
    if f.result.Some? {
      RedirectSplice(x, site, args, f.result.value);
      assert last[1..] == [];
      assert InlineBody(fs, {x}, last) == [InlineOne(fs, {x}, last[0])] + InlineBody(fs, {x}, last[1..]);
    }
  }

  // ---------- one edit more ----------

  ghost predicate SameFunction(fs: seq<Func>, gs: seq<Func>, g: nat) {
    g < |fs| && g < |gs| && fs[g] == gs[g]
  }

  /** The functions the call with this result goes to are the same in both modules. */
  ghost predicate SameCallees(fs: seq<Func>, gs: seq<Func>, callees: set<nat>) {
    forall g :: g in callees ==> SameFunction(fs, gs, g)
  }

  lemma SameUnion(fs: seq<Func>, gs: seq<Func>, a: set<nat>, b: set<nat>)
    requires SameCallees(fs, gs, a + b)
    ensures SameCallees(fs, gs, a) && SameCallees(fs, gs, b)
  {
    assert a <= a + b && b <= a + b;
  }

  lemma {:induction false} OneMore(fs: seq<Func>, gs: seq<Func>, sites: set<Name>, x: Name, body: seq<Instr>)
    requires SameKinds(fs, gs) && x.Own? && SameCallees(fs, gs, CalleesAt(fs, {x}, body))
    ensures InlineBody(gs, {x}, InlineBody(fs, sites, body)) == InlineBody(fs, sites + {x}, body)
    decreases body, 1
  {
    if body != [] {
      SameUnion(fs, gs, CalleesAtOne(fs, {x}, body[0]), CalleesAt(fs, {x}, body[1..]));
      OneMoreOne(fs, gs, sites, x, body[0]);
      OneMore(fs, gs, sites, x, body[1..]);
      assert InlineBody(fs, sites, body)[1..] == InlineBody(fs, sites, body[1..]);
    }
  }

  lemma {:induction false} OneMoreOne(fs: seq<Func>, gs: seq<Func>, sites: set<Name>, x: Name, instr: Instr)
    requires SameKinds(fs, gs) && x.Own? && SameCallees(fs, gs, CalleesAtOne(fs, {x}, instr))
    ensures InlineOne(gs, {x}, InlineOne(fs, sites, instr)) == InlineOne(fs, sites + {x}, instr)
    decreases instr, 0
  {
    match instr
    case Compute(_, _, os) => RedirectAllTwice(sites, {x}, os);
    case WriteLocal(_, o) => RedirectTwice(sites, {x}, o);
    case Call(dst, g, os) =>
      RedirectAllTwice(sites, {x}, os);
      if Inlines(fs, g) && dst in sites {
        EditSpliced(gs, x, fs[g], dst, RedirectAll(sites, os));
      } else if Inlines(fs, g) && dst == x {
        assert g in CalleesAtOne(fs, {x}, instr) && SameFunction(fs, gs, g);
      }
    case Nested(body) => OneMore(fs, gs, sites, x, body);
    case If(cond, yes, no) =>
      SameUnion(fs, gs, CalleesAt(fs, {x}, yes), CalleesAt(fs, {x}, no));
      RedirectTwice(sites, {x}, cond);
      OneMore(fs, gs, sites, x, yes);
      OneMore(fs, gs, sites, x, no);
    case While(test, cond, body) =>
      SameUnion(fs, gs, CalleesAt(fs, {x}, test), CalleesAt(fs, {x}, body));
      RedirectTwice(sites, {x}, cond);
      OneMore(fs, gs, sites, x, test);
      OneMore(fs, gs, sites, x, body);
  }

  lemma {:induction false} NoneMore(fs: seq<Func>, body: seq<Instr>)
    ensures InlineBody(fs, {}, body) == body
    decreases body, 1
  {
    if body != [] {
      NoneMoreOne(fs, body[0]);
      NoneMore(fs, body[1..]);
    }
  }

  lemma {:induction false} NoneMoreOne(fs: seq<Func>, instr: Instr)
    ensures InlineOne(fs, {}, instr) == instr
    decreases instr, 0
  {
    match instr
    case Compute(_, _, os) => RedirectNothing(os);
    case WriteLocal(_, o) => RedirectNone(o);
    case Call(_, _, os) => RedirectNothing(os);
    case Nested(body) => NoneMore(fs, body);
    case If(cond, yes, no) =>
      RedirectNone(cond);
      NoneMore(fs, yes);
      NoneMore(fs, no);
    case While(test, cond, body) =>
      RedirectNone(cond);
      NoneMore(fs, test);
      NoneMore(fs, body);
  }

  lemma {:induction false} RedirectNone(o: Operand)
    ensures Redirect({}, o) == o
    decreases o
  {
    match o
    case Cell(_, base) => RedirectNone(base);
    case Value(_) =>
    case Local(_) =>
    case Param(_) =>
  }

  lemma {:induction false} RedirectNothing(os: seq<Operand>)
    ensures RedirectAll({}, os) == os
    decreases |os|
  {
    if os != [] {
      RedirectNone(os[0]);
      RedirectNothing(os[1..]);
    }
  }

  // ---------- all of them ----------

  lemma {:induction false} EditsAtOnce(fs: seq<Func>, gs: seq<Func>, i: nat, done: set<Name>, sites: seq<Name>, f: Func)
    requires SameKinds(fs, gs) && i < |fs| && gs == fs[i := EditFunc(fs, done, f)] && f.Defined?
    requires forall x :: x in sites ==> x.Own? && i !in CalleesAt(fs, {x}, f.body)
    ensures EditAll(gs, i, sites)[i] == EditFunc(fs, done + (set x | x in sites), f)
    decreases |sites|
  {
    if sites == [] {
      assert done + (set x | x in sites) == done;
    } else {
      var x := sites[0];
      CalleeHasSite(fs, {x}, f.body);
      assert SameCallees(fs, gs, CalleesAt(fs, {x}, f.body));
      OneMore(fs, gs, done, x, f.body);
      if f.result.Some? {
        RedirectTwice(done, {x}, f.result.value);
      }
      var hs := Edit(gs, i, x);
      assert hs[i] == EditFunc(fs, done + {x}, f);
      assert hs == fs[i := EditFunc(fs, done + {x}, f)];
      EditsAtOnce(fs, hs, i, done + {x}, sites[1..], f);
      assert done + {x} + (set y | y in sites[1..]) == done + (set y | y in sites) by {
        assert sites == [x] + sites[1..];
      }
    }
  }

  /** The pass over a function that does not inline itself replaces all its calls. */
  lemma PassAtOnce(fs: seq<Func>, i: nat)
    requires i < |fs| && fs[i].Defined? && i !in Callees(fs, fs[i].body)
    requires forall x :: x in Sites(fs, fs[i].body) ==> x.Own?
    ensures PassOne(fs, i)[i] == EditFunc(fs, Sites(fs, fs[i].body), fs[i])
  {
    var f := fs[i];
    var calls := SiteList(fs, f.body);
    SitesListed(fs, f.body);
    forall x | x in calls ensures x.Own? && i !in CalleesAt(fs, {x}, f.body) {
      CalleesMore(fs, {x}, Sites(fs, f.body), f.body);
    }
    NoneMore(fs, f.body);
    if f.result.Some? {
      RedirectNone(f.result.value);
    }
    assert fs[i := EditFunc(fs, {}, f)] == fs;
    EditsAtOnce(fs, fs, i, {}, calls, f);
    assert {} + (set x | x in calls) == Sites(fs, f.body);
  }

  /** What the pass makes of function i, from what the functions were when its turn came. */
  lemma PassAt(fs: seq<Func>, i: nat)
    requires WellNamed(fs) && i < |fs| && fs[i].Defined? && i !in Callees(fs, fs[i].body)
    ensures Pass(fs)[i] == EditFunc(PassUpTo(fs, i), Sites(fs, fs[i].body), fs[i])
  {
    var before, body := PassUpTo(fs, i), fs[i].body;
    PassKeeps(fs, i, i);
    PassKeeps(fs, |fs|, i);
    SitesSame(fs, before, body);
    OwnSites(fs, i);
    CalleesSame(fs, before, Sites(fs, body), body);
    PassAtOnce(before, i);
  }
}
