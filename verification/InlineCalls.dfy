/** Which calls one inlining pass leaves, and the order of functions in which it leaves none. */
module InlineCalls {
  import opened Wrappers
  import opened InlineIr
  import opened Inline
  import CallGraph

  // ---------- no inline call ----------

  /** No call of an annotated function. */
  predicate Plain(fs: seq<Func>, body: seq<Instr>) {
    Sites(fs, body) == {}
  }

  /** The annotated functions that the calls with these results go to. */
  function CalleesAt(fs: seq<Func>, sites: set<Name>, body: seq<Instr>): set<nat> {
    if body == [] then {} else CalleesAtOne(fs, sites, body[0]) + CalleesAt(fs, sites, body[1..])
  }

  function CalleesAtOne(fs: seq<Func>, sites: set<Name>, instr: Instr): set<nat> {
    match instr
    case Compute(_, _, _) => {}
    case WriteLocal(_, _) => {}
    case Call(dst, g, _) => if dst in sites && Inlines(fs, g) then {g} else {}
    case Nested(body) => CalleesAt(fs, sites, body)
    case If(_, yes, no) => CalleesAt(fs, sites, yes) + CalleesAt(fs, sites, no)
    case While(test, _, body) => CalleesAt(fs, sites, test) + CalleesAt(fs, sites, body)
  }

  /** The annotated functions a body calls. */
  function Callees(fs: seq<Func>, body: seq<Instr>): set<nat> {
    CalleesAt(fs, Sites(fs, body), body)
  }

  lemma {:induction false} CalleeHasSite(fs: seq<Func>, sites: set<Name>, body: seq<Instr>)
    ensures forall g :: g in CalleesAt(fs, sites, body) ==>
      Inlines(fs, g) && exists x :: x in sites && x in Sites(fs, body) && g in CalleesAt(fs, {x}, body)
    decreases body, 1
  {
    if body != [] {
      CalleeHasSiteOne(fs, sites, body[0]);
      CalleeHasSite(fs, sites, body[1..]);
    }
  }

  lemma {:induction false} CalleeHasSiteOne(fs: seq<Func>, sites: set<Name>, instr: Instr)
    ensures forall g :: g in CalleesAtOne(fs, sites, instr) ==>
      Inlines(fs, g) && exists x :: x in sites && x in SitesOne(fs, instr) && g in CalleesAtOne(fs, {x}, instr)
    decreases instr, 0
  {
    match instr
    case Compute(_, _, _) =>
    case WriteLocal(_, _) =>
    case Call(dst, g, _) =>
      if dst in sites && Inlines(fs, g) {
        assert dst in SitesOne(fs, instr) && g in CalleesAtOne(fs, {dst}, instr);
      }
    case Nested(body) => CalleeHasSite(fs, sites, body);
    case If(_, yes, no) =>
      CalleeHasSite(fs, sites, yes);
      CalleeHasSite(fs, sites, no);
    case While(test, _, body) =>
      CalleeHasSite(fs, sites, test);
      CalleeHasSite(fs, sites, body);
  }

  lemma {:induction false} CalleesMore(fs: seq<Func>, a: set<Name>, b: set<Name>, body: seq<Instr>)
    requires a <= b
    ensures CalleesAt(fs, a, body) <= CalleesAt(fs, b, body)
    decreases body, 1
  {
    if body != [] {
      CalleesMoreOne(fs, a, b, body[0]);
      CalleesMore(fs, a, b, body[1..]);
    }
  }

  lemma {:induction false} CalleesMoreOne(fs: seq<Func>, a: set<Name>, b: set<Name>, instr: Instr)
    requires a <= b
    ensures CalleesAtOne(fs, a, instr) <= CalleesAtOne(fs, b, instr)
    decreases instr, 0
  {
    match instr
    case Compute(_, _, _) =>
    case WriteLocal(_, _) =>
    case Call(_, _, _) =>
    case Nested(body) => CalleesMore(fs, a, b, body);
    case If(_, yes, no) =>
      CalleesMore(fs, a, b, yes);
      CalleesMore(fs, a, b, no);
    case While(test, _, body) =>
      CalleesMore(fs, a, b, test);
      CalleesMore(fs, a, b, body);
  }

  /** Every annotated function a function calls has a lower rank: the graph of inline calls has no cycle. */
  ghost predicate Ranked(fs: seq<Func>, rank: nat -> nat) {
    forall i :: 0 <= i < |fs| && fs[i].Defined? ==> AllBelow(Callees(fs, fs[i].body), rank, rank(i))
  }

  ghost predicate AllBelow(callees: set<nat>, rank: nat -> nat, bound: nat) {
    forall g :: g in callees ==> rank(g) < bound
  }

  /** Every function comes after the annotated ones it calls. */
  ghost predicate CalleesFirst(fs: seq<Func>) {
    forall i, g :: 0 <= i < |fs| && fs[i].Defined? && g in Callees(fs, fs[i].body) ==> g < i
  }

  // ---------- the calls of a copy ----------

  function InnerNames(site: Name, names: set<Name>): set<Name> {
    set x | x in names :: Inner(site, x)
  }

  lemma {:induction false} SpliceSites(fs: seq<Func>, site: Name, args: seq<Operand>, body: seq<Instr>)
    ensures Sites(fs, SpliceBody(site, args, body)) == InnerNames(site, Sites(fs, body))
    decreases body, 1
  {
    if body != [] {
      SpliceSitesOne(fs, site, args, body[0]);
      SpliceSites(fs, site, args, body[1..]);
      assert SpliceBody(site, args, body)[1..] == SpliceBody(site, args, body[1..]);
    }
  }

  lemma {:induction false} SpliceSitesOne(fs: seq<Func>, site: Name, args: seq<Operand>, instr: Instr)
    ensures SitesOne(fs, SpliceOne(site, args, instr)) == InnerNames(site, SitesOne(fs, instr))
    decreases instr, 0
  {
    match instr
    case Compute(_, _, _) =>
    case WriteLocal(_, _) =>
    case Call(_, _, _) =>
    case Nested(body) => SpliceSites(fs, site, args, body);
    case If(_, yes, no) =>
      SpliceSites(fs, site, args, yes);
      SpliceSites(fs, site, args, no);
    case While(test, _, body) =>
      SpliceSites(fs, site, args, test);
      SpliceSites(fs, site, args, body);
  }

  lemma {:induction false} SitesConcat(fs: seq<Func>, a: seq<Instr>, b: seq<Instr>)
    ensures Sites(fs, a + b) == Sites(fs, a) + Sites(fs, b)
    decreases |a|
  {
    if a == [] {
      assert a + b == b;
    } else {
      assert (a + b)[0] == a[0] && (a + b)[1..] == a[1..] + b;
      SitesConcat(fs, a[1..], b);
    }
  }

  lemma SplicedSites(fs: seq<Func>, f: Func, site: Name, args: seq<Operand>)
    requires f.Defined?
    ensures SitesOne(fs, Spliced(f, site, args)) == InnerNames(site, Sites(fs, f.body))
  {
    SpliceSites(fs, site, args, f.body);
    var last := match f.result case None => [] case Some(o) => [WriteLocal(Result(site), Splice(site, args, o))];
    assert |last| > 0 ==> last[1..] == [];
    SitesConcat(fs, SpliceBody(site, args, f.body), last);
  }

  /** The calls that come with the copies put in place of the calls with this result. */
  function Brought(fs: seq<Func>, site: Name, body: seq<Instr>): set<Name> {
    if body == [] then {} else BroughtOne(fs, site, body[0]) + Brought(fs, site, body[1..])
  }

  function BroughtOne(fs: seq<Func>, site: Name, instr: Instr): set<Name> {
    match instr
    case Compute(_, _, _) => {}
    case WriteLocal(_, _) => {}
    case Call(dst, g, _) => if dst == site && Inlines(fs, g) then InnerNames(site, Sites(fs, fs[g].body)) else {}
    case Nested(body) => Brought(fs, site, body)
    case If(_, yes, no) => Brought(fs, site, yes) + Brought(fs, site, no)
    case While(test, _, body) => Brought(fs, site, test) + Brought(fs, site, body)
  }

  /** An edit takes its call away and brings those of the copy. */
  lemma {:induction false} EditSites(fs: seq<Func>, site: Name, body: seq<Instr>)
    ensures Sites(fs, InlineBody(fs, {site}, body)) == (Sites(fs, body) - {site}) + Brought(fs, site, body)
    decreases body, 1
  {
    if body != [] {
      EditSitesOne(fs, site, body[0]);
      EditSites(fs, site, body[1..]);
      assert InlineBody(fs, {site}, body)[1..] == InlineBody(fs, {site}, body[1..]);
    }
  }

  lemma {:induction false} EditSitesOne(fs: seq<Func>, site: Name, instr: Instr)
    ensures SitesOne(fs, InlineOne(fs, {site}, instr)) == (SitesOne(fs, instr) - {site}) + BroughtOne(fs, site, instr)
    decreases instr, 0
  {
    match instr
    case Compute(_, _, _) =>
    case WriteLocal(_, _) =>
    case Call(dst, g, os) =>
      if dst == site && Inlines(fs, g) {
        SplicedSites(fs, fs[g], dst, RedirectAll({site}, os));
      }
    case Nested(body) => EditSites(fs, site, body);
    case If(_, yes, no) =>
      EditSites(fs, site, yes);
      EditSites(fs, site, no);
    case While(test, _, body) =>
      EditSites(fs, site, test);
      EditSites(fs, site, body);
  }

  ghost predicate PlainCallees(fs: seq<Func>, callees: set<nat>) {
    forall g :: g in callees ==> Inlines(fs, g) && Plain(fs, fs[g].body)
  }

  lemma PlainUnion(fs: seq<Func>, a: set<nat>, b: set<nat>)
    ensures PlainCallees(fs, a + b) <==> PlainCallees(fs, a) && PlainCallees(fs, b)
  {
    assert a <= a + b && b <= a + b;
  }

  lemma {:induction false} BroughtIff(fs: seq<Func>, site: Name, body: seq<Instr>)
    ensures Brought(fs, site, body) == {} <==> PlainCallees(fs, CalleesAt(fs, {site}, body))
    ensures forall x :: x in Brought(fs, site, body) ==> x.Inner?
    decreases body, 1
  {
    CalleeHasSite(fs, {site}, body);
    if body != [] {
      BroughtOneIff(fs, site, body[0]);
      BroughtIff(fs, site, body[1..]);
      PlainUnion(fs, CalleesAtOne(fs, {site}, body[0]), CalleesAt(fs, {site}, body[1..]));
    }
  }

  lemma {:induction false} BroughtOneIff(fs: seq<Func>, site: Name, instr: Instr)
    ensures BroughtOne(fs, site, instr) == {} <==> PlainCallees(fs, CalleesAtOne(fs, {site}, instr))
    ensures forall x :: x in BroughtOne(fs, site, instr) ==> x.Inner?
    decreases instr, 0
  {
    CalleeHasSiteOne(fs, {site}, instr);
    match instr
    case Compute(_, _, _) =>
    case WriteLocal(_, _) =>
    case Call(dst, g, _) =>
      if dst == site && Inlines(fs, g) {
        InnerNone(site, Sites(fs, fs[g].body));
        assert g in CalleesAtOne(fs, {site}, instr);
      }
    case Nested(body) => BroughtIff(fs, site, body);
    case If(_, yes, no) =>
      BroughtIff(fs, site, yes);
      BroughtIff(fs, site, no);
      PlainUnion(fs, CalleesAt(fs, {site}, yes), CalleesAt(fs, {site}, no));
    case While(test, _, body) =>
      BroughtIff(fs, site, test);
      BroughtIff(fs, site, body);
      PlainUnion(fs, CalleesAt(fs, {site}, test), CalleesAt(fs, {site}, body));
  }

  lemma InnerNone(site: Name, names: set<Name>)
    ensures InnerNames(site, names) == {} <==> names == {}
  {
    if x :| x in names {
      assert Inner(site, x) in InnerNames(site, names);
    }
  }

  /** The calls that wait for their edit go where they went. */
  lemma {:induction false} CalleesKept(fs: seq<Func>, gs: seq<Func>, x: Name, site: Name, body: seq<Instr>)
    requires SameKinds(fs, gs) && x.Own?
    ensures CalleesAt(gs, {x}, InlineBody(fs, {site}, body)) == if x == site then {} else CalleesAt(fs, {x}, body)
    decreases body, 1
  {
    if body != [] {
      CalleesKeptOne(fs, gs, x, site, body[0]);
      CalleesKept(fs, gs, x, site, body[1..]);
      assert InlineBody(fs, {site}, body)[1..] == InlineBody(fs, {site}, body[1..]);
    }
  }

  lemma {:induction false} CalleesKeptOne(fs: seq<Func>, gs: seq<Func>, x: Name, site: Name, instr: Instr)
    requires SameKinds(fs, gs) && x.Own?
    ensures CalleesAtOne(gs, {x}, InlineOne(fs, {site}, instr)) ==
      if x == site then {} else CalleesAtOne(fs, {x}, instr)
    decreases instr, 0
  {
    match instr
    case Compute(_, _, _) =>
    case WriteLocal(_, _) =>
    case Call(dst, g, os) =>
      if dst == site && Inlines(fs, g) {
        var args := RedirectAll({site}, os);
        SplicedSites(gs, fs[g], dst, args);
        CalleeHasSiteOne(gs, {x}, Spliced(fs[g], dst, args));
        assert CalleesAtOne(gs, {x}, Spliced(fs[g], dst, args)) == {};
      }
    case Nested(body) => CalleesKept(fs, gs, x, site, body);
    case If(_, yes, no) =>
      CalleesKept(fs, gs, x, site, yes);
      CalleesKept(fs, gs, x, site, no);
    case While(test, _, body) =>
      CalleesKept(fs, gs, x, site, test);
      CalleesKept(fs, gs, x, site, body);
  }

  // ---------- what one pass leaves ----------

  /** The callees of the waiting calls have no inline calls. */
  ghost predicate WaitPlain(fs: seq<Func>, i: nat, sites: seq<Name>)
    requires i < |fs| && fs[i].Defined?
  {
    forall x, g :: x in sites && g in CalleesAt(fs, {x}, fs[i].body) ==> Inlines(fs, g) && Plain(fs, fs[g].body)
  }

  ghost predicate NoneInner(fs: seq<Func>, i: nat)
    requires i < |fs| && fs[i].Defined?
  {
    forall x :: x in Sites(fs, fs[i].body) ==> !x.Inner?
  }

  ghost predicate Waiting(fs: seq<Func>, i: nat, sites: seq<Name>)
    requires i < |fs| && fs[i].Defined?
  {
    (forall x :: x in sites ==> x.Own?) && forall x :: x in Sites(fs, fs[i].body) ==> x in sites || x.Inner?
  }

  /** Names brought by a copy are inner ones. */
  lemma InnerAfter(sites: set<Name>, brought: set<Name>, x: Name)
    requires x.Own? && forall y :: y in brought ==> y.Inner?
    ensures (forall y :: y in sites - {x} + brought ==> !y.Inner?) <==>
      (forall y :: y in sites ==> !y.Inner?) && brought == {}
  {
    assert brought <= sites - {x} + brought;
    if y :| y in brought {
      assert y.Inner?;
    }
  }

  lemma EditWaits(fs: seq<Func>, i: nat, sites: seq<Name>)
    requires i < |fs| && fs[i].Defined? && sites != [] && Waiting(fs, i, sites)
    ensures var gs := Edit(fs, i, sites[0]);
      && gs[i].Defined? && Waiting(gs, i, sites[1..])
      && (NoneInner(gs, i) && WaitPlain(gs, i, sites[1..]) <==> NoneInner(fs, i) && WaitPlain(fs, i, sites))
  {
    hide Sites, CalleesAt, InlineBody, Brought;
    var x := sites[0];
    var gs := Edit(fs, i, x);
    var body := fs[i].body;
    assert SameKinds(fs, gs);
    assert forall y :: y in sites <==> y == x || y in sites[1..];
    EditSites(fs, x, body);
    SitesSame(fs, gs, InlineBody(fs, {x}, body));
    BroughtIff(fs, x, body);
    CalleeHasSite(fs, {x}, body);
    InnerAfter(Sites(fs, body), Brought(fs, x, body), x);
    forall y, g | y in sites[1..]
      ensures g in CalleesAt(gs, {y}, gs[i].body) <==> y != x && g in CalleesAt(fs, {y}, body)
      ensures g in CalleesAt(gs, {y}, gs[i].body) ==>
        Inlines(fs, g) && Inlines(gs, g) && (Plain(gs, gs[g].body) <==> Plain(fs, fs[g].body))
    {
      CalleesKept(fs, gs, y, x, body);
      if g in CalleesAt(gs, {y}, gs[i].body) {
        CalleeHasSite(gs, {y}, gs[i].body);
        CalleeHasSite(fs, {y}, body);
        SitesSame(fs, gs, fs[g].body);
      }
    }
  }

  lemma {:induction false} EditAllPlain(fs: seq<Func>, i: nat, sites: seq<Name>)
    requires i < |fs| && fs[i].Defined? && Waiting(fs, i, sites)
    ensures var gs := EditAll(fs, i, sites);
      gs[i].Defined? && (Plain(gs, gs[i].body) <==> NoneInner(fs, i) && WaitPlain(fs, i, sites))
    decreases |sites|
  {
    hide Edit, Waiting, WaitPlain, NoneInner;
    if sites == [] {
      NothingWaits(fs, i, sites);
    } else {
      EditWaits(fs, i, sites);
      EditAllPlain(Edit(fs, i, sites[0]), i, sites[1..]);
    }
  }

  lemma NothingWaits(fs: seq<Func>, i: nat, sites: seq<Name>)
    requires i < |fs| && fs[i].Defined? && Waiting(fs, i, sites) && sites == []
    ensures Plain(fs, fs[i].body) <==> NoneInner(fs, i) && WaitPlain(fs, i, sites)
  {
  }

  /** The pass over one function leaves no inline call in it exactly if the functions it inlines have none
      left by then; one that calls itself has. */
  lemma PassOnePlain(fs: seq<Func>, i: nat)
    requires i < |fs| && fs[i].Defined? && forall x :: x in Sites(fs, fs[i].body) ==> x.Own?
    ensures var gs := PassOne(fs, i);
      && gs[i].Defined?
      && (Plain(gs, gs[i].body) <==> PlainCallees(fs, Callees(fs, fs[i].body)))
  {
    var body := fs[i].body;
    var sites := SiteList(fs, body);
    SitesListed(fs, body);
    EditAllPlain(fs, i, sites);
    CalleeHasSite(fs, Sites(fs, body), body);
    forall x, g | x in sites && g in CalleesAt(fs, {x}, body) ensures g in Callees(fs, body) {
      CalleesMore(fs, {x}, Sites(fs, body), body);
    }
  }

  /** The functions that one pass leaves without inline calls: those whose inline callees come earlier and
      are left without, or come later and have none in the first place. */
  ghost predicate AllInlined(fs: seq<Func>, i: nat)
    requires i < |fs|
    decreases i
  {
    fs[i].Defined? ==>
      forall g :: g in Callees(fs, fs[i].body) ==>
        g < |fs| && if g < i then AllInlined(fs, g) else fs[g].Defined? && Plain(fs, fs[g].body)
  }

  /** What is left of a callee when the turn of function i comes. */
  ghost predicate Left(fs: seq<Func>, i: nat, g: nat)
    requires i <= |fs|
  {
    g < |fs| && if g < i then AllInlined(fs, g) else fs[g].Defined? && Plain(fs, fs[g].body)
  }

  lemma PlainSame(fs: seq<Func>, gs: seq<Func>, body: seq<Instr>)
    requires SameKinds(fs, gs)
    ensures Plain(gs, body) <==> Plain(fs, body)
  {
    SitesSame(fs, gs, body);
  }

  lemma OwnSites(fs: seq<Func>, i: nat)
    requires WellNamed(fs) && i < |fs| && fs[i].Defined?
    ensures forall x :: x in Sites(fs, fs[i].body) ==> x.Own?
  {
    assert OwnFunc(fs, fs[i]);
    OwnBodySites(fs, Sites(fs, fs[i].body), fs[i].body);
  }

  lemma {:induction false} OwnBodySites(fs: seq<Func>, sites: set<Name>, body: seq<Instr>)
    requires OwnBody(fs, sites, body)
    ensures forall x :: x in Sites(fs, body) ==> x.Own?
    decreases body, 1
  {
    if body != [] {
      OwnInstrSites(fs, sites, body[0]);
      OwnBodySites(fs, sites, body[1..]);
    }
  }

  lemma {:induction false} OwnInstrSites(fs: seq<Func>, sites: set<Name>, instr: Instr)
    requires OwnInstr(fs, sites, instr)
    ensures forall x :: x in SitesOne(fs, instr) ==> x.Own?
    decreases instr, 0
  {
    match instr
    case Compute(_, _, _) =>
    case WriteLocal(_, _) =>
    case Call(_, _, _) =>
    case Nested(body) => OwnBodySites(fs, sites, body);
    case If(_, yes, no) =>
      OwnBodySites(fs, sites, yes);
      OwnBodySites(fs, sites, no);
    case While(test, _, body) =>
      OwnBodySites(fs, sites, test);
      OwnBodySites(fs, sites, body);
  }

  /** One pass leaves no call of a defined annotated function in a function exactly if, of the annotated
      functions it calls, those before it are left without such calls and the others have none. */
  lemma {:induction false} NoInlineCallLeft(fs: seq<Func>, i: nat)
    requires WellNamed(fs) && i < |fs| && fs[i].Defined?
    ensures Pass(fs)[i].Defined? && (Plain(Pass(fs), Pass(fs)[i].body) <==> AllInlined(fs, i))
    decreases i
  {
    var before, body := PassUpTo(fs, i), fs[i].body;
    PassKeeps(fs, i, i);
    PassKeeps(fs, i + 1, i);
    PassKeeps(fs, |fs|, i);
    SitesSame(fs, before, body);
    OwnSites(fs, i);
    PassOnePlain(before, i);
    PlainSame(fs, Pass(fs), Pass(fs)[i].body);
    PlainSame(fs, PassUpTo(fs, i + 1), Pass(fs)[i].body);
    CalleesSame(fs, before, Sites(fs, body), body);
    CalleeHasSite(fs, Sites(fs, body), body);
    forall g | g in Callees(fs, body)
      ensures Inlines(before, g)
      ensures Plain(before, before[g].body) <==> Left(fs, i, g)
    {
      PassKeeps(fs, i, g);
      PlainSame(fs, before, before[g].body);
      if g < i {
        NoInlineCallLeft(fs, g);
        PassKeeps(fs, |fs|, g);
        PlainSame(fs, Pass(fs), Pass(fs)[g].body);
      }
    }
  }

  lemma {:induction false} CalleesSame(fs: seq<Func>, gs: seq<Func>, sites: set<Name>, body: seq<Instr>)
    requires SameKinds(fs, gs)
    ensures CalleesAt(gs, sites, body) == CalleesAt(fs, sites, body)
    decreases body, 1
  {
    if body != [] {
      CalleesSameOne(fs, gs, sites, body[0]);
      CalleesSame(fs, gs, sites, body[1..]);
    }
  }

  lemma {:induction false} CalleesSameOne(fs: seq<Func>, gs: seq<Func>, sites: set<Name>, instr: Instr)
    requires SameKinds(fs, gs)
    ensures CalleesAtOne(gs, sites, instr) == CalleesAtOne(fs, sites, instr)
    decreases instr, 0
  {
    match instr
    case Compute(_, _, _) =>
    case WriteLocal(_, _) =>
    case Call(_, _, _) =>
    case Nested(body) => CalleesSame(fs, gs, sites, body);
    case If(_, yes, no) =>
      CalleesSame(fs, gs, sites, yes);
      CalleesSame(fs, gs, sites, no);
    case While(test, _, body) =>
      CalleesSame(fs, gs, sites, test);
      CalleesSame(fs, gs, sites, body);
  }

  // ---------- after the sort ----------

  lemma {:induction false} FirstAllInlined(fs: seq<Func>, i: nat)
    requires CalleesFirst(fs) && i < |fs|
    ensures AllInlined(fs, i)
    decreases i
  {
    if fs[i].Defined? {
      forall g | g in Callees(fs, fs[i].body) ensures g < i && AllInlined(fs, g) {
        FirstAllInlined(fs, g);
      }
    }
  }

  /** All functions a body calls, in order. */
  function Called(body: seq<Instr>): seq<nat> {
    if body == [] then [] else CalledOne(body[0]) + Called(body[1..])
  }

  function CalledOne(instr: Instr): seq<nat> {
    match instr
    case Compute(_, _, _) => []
    case WriteLocal(_, _) => []
    case Call(_, g, _) => [g]
    case Nested(body) => Called(body)
    case If(_, yes, no) => Called(yes) + Called(no)
    case While(test, _, body) => Called(test) + Called(body)
  }

  function References(fs: seq<Func>): CallGraph.References {
    map i: nat | i < |fs| :: if fs[i].Defined? then Called(fs[i].body) else []
  }

  function Positions(fs: seq<Func>): seq<nat> {
    seq(|fs|, i requires 0 <= i < |fs| => i)
  }

  /** The functions stand in an order that the topological sort may leave. */
  ghost predicate InSortedOrder(fs: seq<Func>) {
    CallGraph.Sorted(References(fs), Positions(fs), Positions(fs))
  }

  /** No function is reached again through an annotated function it calls. */
  ghost predicate NoInlineCycle(fs: seq<Func>) {
    forall i, g :: 0 <= i < |fs| && Inlines(fs, g) && CallGraph.Edge(References(fs), i, g) ==>
      !CallGraph.Reaches(References(fs), g, i)
  }

  lemma {:induction false} CalleesCalled(fs: seq<Func>, sites: set<Name>, body: seq<Instr>)
    ensures forall g :: g in CalleesAt(fs, sites, body) ==> g in Called(body)
    decreases body, 1
  {
    if body != [] {
      CalleesCalledOne(fs, sites, body[0]);
      CalleesCalled(fs, sites, body[1..]);
    }
  }

  lemma {:induction false} CalleesCalledOne(fs: seq<Func>, sites: set<Name>, instr: Instr)
    ensures forall g :: g in CalleesAtOne(fs, sites, instr) ==> g in CalledOne(instr)
    decreases instr, 0
  {
    match instr
    case Compute(_, _, _) =>
    case WriteLocal(_, _) =>
    case Call(_, _, _) =>
    case Nested(body) => CalleesCalled(fs, sites, body);
    case If(_, yes, no) =>
      CalleesCalled(fs, sites, yes);
      CalleesCalled(fs, sites, no);
    case While(test, _, body) =>
      CalleesCalled(fs, sites, test);
      CalleesCalled(fs, sites, body);
  }

  /** The sort puts every annotated function before its callers if none of them leads back to a caller. */
  lemma SortedCalleesFirst(fs: seq<Func>)
    requires InSortedOrder(fs) && NoInlineCycle(fs)
    ensures CalleesFirst(fs)
  {
    var refs, order := References(fs), Positions(fs);
    forall i, g | 0 <= i < |fs| && fs[i].Defined? && g in Callees(fs, fs[i].body) ensures g < i {
      var body := fs[i].body;
      CalleeHasSite(fs, Sites(fs, body), body);
      CalleesCalled(fs, Sites(fs, body), body);
      assert CallGraph.Edge(refs, i, g) && order[i] == i && order[g] == g;
      assert g in order && g in order[..i];
    }
  }

  /** The position in such an order is a rank. */
  lemma SortedRanked(fs: seq<Func>, rank: nat -> nat)
    requires InSortedOrder(fs) && NoInlineCycle(fs) && forall g :: rank(g) == g
    ensures Ranked(fs, rank)
  {
    SortedCalleesFirst(fs);
    hide Callees;
  }

  /** A module that was sorted and whose inline callees do not lead back is left without inline calls. */
  lemma SortedLeavesNone(fs: seq<Func>, i: nat)
    requires InSortedOrder(fs) && NoInlineCycle(fs) && WellNamed(fs) && i < |fs| && fs[i].Defined?
    ensures Pass(fs)[i].Defined? && Plain(Pass(fs), Pass(fs)[i].body)
  {
    SortedCalleesFirst(fs);
    FirstAllInlined(fs, i);
    NoInlineCallLeft(fs, i);
  }

  // ---------- a sorted module in which a call is left ----------

  /** h, f and g, where g is inline and calls f and the inline h, and f, which is not inline, calls g: no
      inline function leads back to itself through inline ones. */
  const MUTUAL: seq<Func> := [
    Defined([], None, true),
    Defined([Call(Own(0), 2, [])], None, false),
    Defined([Call(Own(0), 0, []), Call(Own(1), 1, [])], None, true)]

  lemma MutualReferences()
    ensures References(MUTUAL) == map[0 := [], 1 := [2], 2 := [0, 1]]
  {
    var f, g := MUTUAL[1].body, MUTUAL[2].body;
    assert f[1..] == [] && g[1..] == [g[1]] && g[1..][1..] == [];
    assert Called(g[1..]) == CalledOne(g[1]) + Called(g[1..][1..]) == [1];
    assert Called(f) == [2] && Called(g) == [0, 1];
    var refs := References(MUTUAL);
    assert 0 in refs && 1 in refs && 2 in refs && refs[0] == [] && refs[1] == [2] && refs[2] == [0, 1];
  }

  lemma MutualSorted()
    ensures InSortedOrder(MUTUAL)
  {
    MutualReferences();
    var refs, order := References(MUTUAL), Positions(MUTUAL);
    assert CallGraph.IsPath(refs, [2, 1]);
    assert CallGraph.Reaches(refs, 2, 1);
    forall i, g | 0 <= i < 3 && g in order && CallGraph.Edge(refs, order[i], g) && !CallGraph.Reaches(refs, g, order[i])
      ensures g in order[..i]
    {
      assert order[i] == i;
      assert i == 2 ==> order[..i][0] == 0 && order[..i][1] == 1;
    }
  }

  lemma MutualNamed()
    ensures WellNamed(MUTUAL)
  {
    var f, g := MUTUAL[1].body, MUTUAL[2].body;
    assert f[1..] == [] && g[1..] == [g[1]] && g[1..][1..] == [];
    assert Sites(MUTUAL, f) == {Own(0)};
    assert Sites(MUTUAL, g[1..]) == {};
    assert Sites(MUTUAL, g) == {Own(0)};
    assert OwnBody(MUTUAL, {Own(0)}, g[1..]);
    forall i | 0 <= i < |MUTUAL| ensures OwnFunc(MUTUAL, MUTUAL[i]) {
    }
  }

  /** The sort may leave this order, and the pass then leaves a call of h in f, because it copies g, which
      comes later, as it was. */
  lemma InlineCallSurvives()
    ensures InSortedOrder(MUTUAL) && WellNamed(MUTUAL) && !CalleesFirst(MUTUAL)
    ensures Pass(MUTUAL)[1].Defined? && !Plain(Pass(MUTUAL), Pass(MUTUAL)[1].body)
  {
    MutualSorted();
    MutualNamed();
    NoInlineCallLeft(MUTUAL, 1);
    var f, g := MUTUAL[1].body, MUTUAL[2].body;
    assert f[1..] == [] && Sites(MUTUAL, f) == {Own(0)};
    assert Callees(MUTUAL, f) == {2};
    assert !Plain(MUTUAL, g);
  }
}
