/** The inlining pass: a call of an annotated function is replaced by a copy of its body, with the arguments
    in place of the parameters and a variable for the result. */
module Inline {
  import opened Wrappers
  import opened InlineIr

  // ---------- the copy of a callee ----------

  /** An operand of the callee in its copy at a call. */
  function Splice(site: Name, args: seq<Operand>, o: Operand): Operand {
    match o
    case Value(x) => Value(Inner(site, x))
    case Local(x) => Local(Inner(site, x))
    case Cell(code, base) => Cell(code, Splice(site, args, base))
    case Param(i) => if i < |args| then args[i] else Param(i)
  }

  function SpliceAll(site: Name, args: seq<Operand>, os: seq<Operand>): seq<Operand> {
    if os == [] then [] else [Splice(site, args, os[0])] + SpliceAll(site, args, os[1..])
  }

  function SpliceBody(site: Name, args: seq<Operand>, body: seq<Instr>): seq<Instr> {
    if body == [] then [] else [SpliceOne(site, args, body[0])] + SpliceBody(site, args, body[1..])
  }

  function SpliceOne(site: Name, args: seq<Operand>, instr: Instr): Instr {
    match instr
    case Compute(dst, op, os) => Compute(Inner(site, dst), op, SpliceAll(site, args, os))
    case WriteLocal(x, o) => WriteLocal(Inner(site, x), Splice(site, args, o))
    case Call(dst, g, os) => Call(Inner(site, dst), g, SpliceAll(site, args, os))
    case Nested(body) => Nested(SpliceBody(site, args, body))
    case If(cond, yes, no) => If(Splice(site, args, cond), SpliceBody(site, args, yes), SpliceBody(site, args, no))
    case While(test, cond, body) =>
      While(SpliceBody(site, args, test), Splice(site, args, cond), SpliceBody(site, args, body))
  }

  /** The block that takes the place of a call: the return becomes a write of the result variable. */
  function Spliced(f: Func, site: Name, args: seq<Operand>): Instr
    requires f.Defined?
  {
    Nested(SpliceBody(site, args, f.body) +
      match f.result
      case None => []
      case Some(o) => [WriteLocal(Result(site), Splice(site, args, o))])
  }

  // ---------- the caller ----------

  /** The results of the calls that are inlined. */
  function Sites(fs: seq<Func>, body: seq<Instr>): set<Name> {
    if body == [] then {} else SitesOne(fs, body[0]) + Sites(fs, body[1..])
  }

  function SitesOne(fs: seq<Func>, instr: Instr): set<Name> {
    match instr
    case Compute(_, _, _) => {}
    case WriteLocal(_, _) => {}
    case Call(dst, g, _) => if Inlines(fs, g) then {dst} else {}
    case Nested(body) => Sites(fs, body)
    case If(_, yes, no) => Sites(fs, yes) + Sites(fs, no)
    case While(test, _, body) => Sites(fs, test) + Sites(fs, body)
  }

  /** The users of an inlined call read the result variable. */
  function Redirect(sites: set<Name>, o: Operand): Operand {
    match o
    case Value(x) => if x in sites then Local(Result(x)) else o
    case Local(_) => o
    case Cell(code, base) => Cell(code, Redirect(sites, base))
    case Param(_) => o
  }

  function RedirectAll(sites: set<Name>, os: seq<Operand>): (r: seq<Operand>)
    ensures |r| == |os|
  {
    if os == [] then [] else [Redirect(sites, os[0])] + RedirectAll(sites, os[1..])
  }

  /** A body once the calls with these results are inlined. */
  function InlineBody(fs: seq<Func>, sites: set<Name>, body: seq<Instr>): seq<Instr> {
    if body == [] then [] else [InlineOne(fs, sites, body[0])] + InlineBody(fs, sites, body[1..])
  }

  function InlineOne(fs: seq<Func>, sites: set<Name>, instr: Instr): Instr {
    match instr
    case Compute(dst, op, os) => Compute(dst, op, RedirectAll(sites, os))
    case WriteLocal(x, o) => WriteLocal(x, Redirect(sites, o))
    case Call(dst, g, os) =>
      if dst in sites && Inlines(fs, g) then Spliced(fs[g], dst, RedirectAll(sites, os))
      else Call(dst, g, RedirectAll(sites, os))
    case Nested(body) => Nested(InlineBody(fs, sites, body))
    case If(cond, yes, no) => If(Redirect(sites, cond), InlineBody(fs, sites, yes), InlineBody(fs, sites, no))
    case While(test, cond, body) =>
      While(InlineBody(fs, sites, test), Redirect(sites, cond), InlineBody(fs, sites, body))
  }

  // ---------- names ----------

  predicate OwnOperand(o: Operand) {
    match o
    case Value(x) => x.Own?
    case Local(x) => x.Own?
    case Cell(_, base) => OwnOperand(base)
    case Param(_) => true
  }

  predicate OwnAll(os: seq<Operand>) {
    os == [] || (OwnOperand(os[0]) && OwnAll(os[1..]))
  }

  /** The body of a function before inlining: it names its own values, and the result of a call that is
      inlined is the result of nothing else. */
  predicate OwnBody(fs: seq<Func>, sites: set<Name>, body: seq<Instr>) {
    body == [] || (OwnInstr(fs, sites, body[0]) && OwnBody(fs, sites, body[1..]))
  }

  predicate OwnInstr(fs: seq<Func>, sites: set<Name>, instr: Instr) {
    match instr
    case Compute(dst, _, os) => dst.Own? && dst !in sites && OwnAll(os)
    case WriteLocal(x, o) => x.Own? && OwnOperand(o)
    case Call(dst, g, os) => dst.Own? && (dst in sites <==> Inlines(fs, g)) && OwnAll(os)
    case Nested(body) => OwnBody(fs, sites, body)
    case If(cond, yes, no) => OwnOperand(cond) && OwnBody(fs, sites, yes) && OwnBody(fs, sites, no)
    case While(test, cond, body) => OwnOperand(cond) && OwnBody(fs, sites, test) && OwnBody(fs, sites, body)
  }

  predicate OwnFunc(fs: seq<Func>, f: Func) {
    f.Defined? ==> OwnBody(fs, Sites(fs, f.body), f.body) && (f.result.Some? ==> OwnOperand(f.result.value))
  }

  ghost predicate WellNamed(fs: seq<Func>) {
    forall i :: 0 <= i < |fs| ==> OwnFunc(fs, fs[i])
  }

  // ---------- the pass ----------

  function EditFunc(fs: seq<Func>, sites: set<Name>, f: Func): Func {
    match f
    case Declared => Declared
    case Defined(body, result, annotated) =>
      Defined(InlineBody(fs, sites, body),
        match result case None => None case Some(o) => Some(Redirect(sites, o)),
        annotated)
  }

  /** One call of function i is inlined, with the body its callee has by now. */
  function Edit(fs: seq<Func>, i: nat, site: Name): (r: seq<Func>)
    requires i < |fs|
    ensures |r| == |fs|
  {
    fs[i := EditFunc(fs, {site}, fs[i])]
  }

  function EditAll(fs: seq<Func>, i: nat, sites: seq<Name>): (r: seq<Func>)
    requires i < |fs|
    ensures |r| == |fs|
    decreases |sites|
  {
    if sites == [] then fs else EditAll(Edit(fs, i, sites[0]), i, sites[1..])
  }

  /** The calls to be inlined, in the order they stand. */
  function SiteList(fs: seq<Func>, body: seq<Instr>): seq<Name> {
    if body == [] then [] else SiteListOne(fs, body[0]) + SiteList(fs, body[1..])
  }

  function SiteListOne(fs: seq<Func>, instr: Instr): seq<Name> {
    match instr
    case Compute(_, _, _) => []
    case WriteLocal(_, _) => []
    case Call(dst, g, _) => if Inlines(fs, g) then [dst] else []
    case Nested(body) => SiteList(fs, body)
    case If(_, yes, no) => SiteList(fs, yes) + SiteList(fs, no)
    case While(test, _, body) => SiteList(fs, test) + SiteList(fs, body)
  }

  /** The list of calls is taken before the first of them is inlined. */
  function PassOne(fs: seq<Func>, i: nat): (r: seq<Func>)
    requires i < |fs|
    ensures |r| == |fs|
  {
    if fs[i].Declared? then fs else EditAll(fs, i, SiteList(fs, fs[i].body))
  }

  /** The pass over the first k functions of the module. */
  function PassUpTo(fs: seq<Func>, k: nat): (r: seq<Func>)
    requires k <= |fs|
    ensures |r| == |fs|
    decreases k
  {
    if k == 0 then fs else PassOne(PassUpTo(fs, k - 1), k - 1)
  }

  function Pass(fs: seq<Func>): (r: seq<Func>)
    ensures |r| == |fs|
  {
    PassUpTo(fs, |fs|)
  }

  // ---------- what the pass does not change ----------

  /** The same functions are declared, and the same are to be inlined. */
  ghost predicate SameKinds(fs: seq<Func>, gs: seq<Func>) {
    |gs| == |fs| && forall g :: 0 <= g < |fs| ==> SameKind(fs[g], gs[g])
  }

  predicate SameKind(f: Func, g: Func) {
    f.Defined? == g.Defined? && (f.Defined? ==> f.annotated == g.annotated)
  }

  lemma {:induction false} EditAllKeeps(fs: seq<Func>, i: nat, sites: seq<Name>)
    requires i < |fs|
    ensures var gs := EditAll(fs, i, sites);
      SameKinds(fs, gs) && forall g :: 0 <= g < |fs| && g != i ==> gs[g] == fs[g]
    decreases |sites|
  {
    if sites != [] {
      EditAllKeeps(Edit(fs, i, sites[0]), i, sites[1..]);
    }
  }

  /** Function g is what it was until its turn, and stays what it is after it. */
  lemma {:induction false} PassKeeps(fs: seq<Func>, k: nat, g: nat)
    requires k <= |fs| && g < |fs|
    ensures SameKinds(fs, PassUpTo(fs, k))
    ensures PassUpTo(fs, k)[g] == if g < k then PassUpTo(fs, g + 1)[g] else fs[g]
    decreases k
  {
    if k > 0 {
      PassKeeps(fs, k - 1, g);
      var before := PassUpTo(fs, k - 1);
      if before[k - 1].Defined? {
        EditAllKeeps(before, k - 1, SiteList(before, before[k - 1].body));
      }
    }
  }

  lemma {:induction false} SitesSame(fs: seq<Func>, gs: seq<Func>, body: seq<Instr>)
    requires SameKinds(fs, gs)
    ensures Sites(gs, body) == Sites(fs, body) && SiteList(gs, body) == SiteList(fs, body)
    decreases body, 1
  {
    if body != [] {
      SitesSameOne(fs, gs, body[0]);
      SitesSame(fs, gs, body[1..]);
    }
  }

  lemma {:induction false} SitesSameOne(fs: seq<Func>, gs: seq<Func>, instr: Instr)
    requires SameKinds(fs, gs)
    ensures SitesOne(gs, instr) == SitesOne(fs, instr) && SiteListOne(gs, instr) == SiteListOne(fs, instr)
    decreases instr, 0
  {
    match instr
    case Compute(_, _, _) =>
    case WriteLocal(_, _) =>
    case Call(_, g, _) =>
    case Nested(body) => SitesSame(fs, gs, body);
    case If(_, yes, no) =>
      SitesSame(fs, gs, yes);
      SitesSame(fs, gs, no);
    case While(test, _, body) =>
      SitesSame(fs, gs, test);
      SitesSame(fs, gs, body);
  }

  lemma {:induction false} SitesListed(fs: seq<Func>, body: seq<Instr>)
    ensures forall x :: x in SiteList(fs, body) <==> x in Sites(fs, body)
    decreases body, 1
  {
    if body != [] {
      SitesListedOne(fs, body[0]);
      SitesListed(fs, body[1..]);
    }
  }

  lemma {:induction false} SitesListedOne(fs: seq<Func>, instr: Instr)
    ensures forall x :: x in SiteListOne(fs, instr) <==> x in SitesOne(fs, instr)
    decreases instr, 0
  {
    match instr
    case Compute(_, _, _) =>
    case WriteLocal(_, _) =>
    case Call(_, _, _) =>
    case Nested(body) => SitesListed(fs, body);
    case If(_, yes, no) =>
      SitesListed(fs, yes);
      SitesListed(fs, no);
    case While(test, _, body) =>
      SitesListed(fs, test);
      SitesListed(fs, body);
  }

  class Module {
    var functions: seq<Func>

    constructor (functions: seq<Func>)
      ensures this.functions == functions
    {
      this.functions := functions;
    }

    /** The pass: one function after the other, one call after the other, each with the body its callee has
        by then. */
    method InlineFunction() returns (changed: bool)
      modifies this
      ensures functions == Pass(old(functions))
      ensures changed <==> exists i :: 0 <= i < |functions| && HasSite(old(functions), i)
    {
      hide SiteList, Edit, EditAll;
      ghost var fs := functions;
      changed := false;
      var i := 0;
      while i < |functions|
        invariant 0 <= i <= |functions| == |fs| && functions == PassUpTo(fs, i)
        invariant changed <==> exists j :: 0 <= j < i && HasSite(fs, j)
      {
        PassKeeps(fs, i, i);
        if functions[i].Defined? {
          ghost var before := functions;
          var calls := SiteList(functions, functions[i].body);
          SitesSame(fs, functions, fs[i].body);
          assert HasSite(fs, i) <==> calls != [];
          var k := 0;
          assert calls[0..] == calls;
          while k < |calls|
            invariant 0 <= k <= |calls| && |functions| == |fs|
            invariant EditAll(before, i, calls) == EditAll(functions, i, calls[k..])
            invariant changed <==> k > 0 || exists j :: 0 <= j < i && HasSite(fs, j)
          {
            EditNext(functions, i, calls, k);
            changed := true;
            InlineCall(i, calls[k]);
            k := k + 1;
          }
          EditNone(functions, i, calls[k..]);
        }
        i := i + 1;
      }
    }

    method InlineCall(i: nat, call: Name)
      requires i < |functions|
      modifies this
      ensures functions == Edit(old(functions), i, call)
    {
      functions := functions[i := EditFunc(functions, {call}, functions[i])];
    }
  }

  lemma EditNext(fs: seq<Func>, i: nat, sites: seq<Name>, k: nat)
    requires i < |fs| && k < |sites|
    ensures EditAll(fs, i, sites[k..]) == EditAll(Edit(fs, i, sites[k]), i, sites[k + 1..])
  {
    assert sites[k..][0] == sites[k] && sites[k..][1..] == sites[k + 1..];
  }

  lemma EditNone(fs: seq<Func>, i: nat, sites: seq<Name>)
    requires i < |fs| && sites == []
    ensures EditAll(fs, i, sites) == fs
  {
  }

  /** The function has a call that is inlined when its turn comes. */
  ghost predicate HasSite(fs: seq<Func>, i: nat)
    requires i < |fs|
  {
    fs[i].Defined? && SiteList(fs, fs[i].body) != []
  }
}
