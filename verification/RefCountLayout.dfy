/** What the five passes together leave in a block list. */
module RefCountLayout {
  import opened RefCountIr
  import opened RefCountPass
  import opened RefCountCorrect

  lemma {:induction false} DestroySplit(h: Instr, t: seq<Instr>)
    ensures DestroyCalls([h] + t) == DestroyOne(h, t) + DestroyCalls(t)
  {
    assert ([h] + t)[1..] == t;
  }

  lemma {:induction false} InitAppend(a: seq<Instr>, b: seq<Instr>)
    ensures InitLocals(a + b) == InitLocals(a) + InitLocals(b)
    decreases |a|
  {
    if a == [] {
      assert a + b == b;
    } else {
      assert (a + b)[1..] == a[1..] + b;
      InitAppend(a[1..], b);
    }
  }

  lemma {:induction false} CountAppend(a: seq<Instr>, b: seq<Instr>)
    ensures CountWrites(a + b) == CountWrites(a) + CountWrites(b)
    decreases |a|
  {
    if a == [] {
      assert a + b == b;
    } else {
      assert (a + b)[1..] == a[1..] + b;
      CountAppend(a[1..], b);
    }
  }

  lemma {:induction false} CopyAppend(a: seq<Instr>, b: seq<Instr>)
    ensures CopyReturns(a + b) == CopyReturns(a) + CopyReturns(b)
    decreases |a|
  {
    if a == [] {
      assert a + b == b;
    } else {
      assert (a + b)[1..] == a[1..] + b;
      CopyAppend(a[1..], b);
    }
  }

  lemma {:induction false} ScopeEachAppend(a: seq<Instr>, b: seq<Instr>)
    ensures ScopeEach(a + b) == ScopeEach(a) + ScopeEach(b)
    decreases |a|
  {
    hide ScopeOne;
    if a == [] {
      assert a + b == b;
    } else {
      assert (a + b)[0] == a[0] && (a + b)[1..] == a[1..] + b;
      ScopeEachAppend(a[1..], b);
    }
  }

  lemma {:induction false} LocalsAppend(a: seq<Instr>, b: seq<Instr>)
    ensures LocalsOf(a + b) == LocalsOf(a) + LocalsOf(b)
    decreases |a|
  {
    if a == [] {
      assert a + b == b;
    } else {
      assert (a + b)[0] == a[0] && (a + b)[1..] == a[1..] + b;
      LocalsAppend(a[1..], b);
    }
  }

  lemma ScopeAppend(a: seq<Instr>, b: seq<Instr>)
    ensures ScopeEach(a + b) == ScopeEach(a) + ScopeEach(b)
    ensures LocalsOf(a + b) == LocalsOf(a) + LocalsOf(b)
  {
    ScopeEachAppend(a, b);
    LocalsAppend(a, b);
  }

  lemma {:induction false} FirstTerminatedAppend(a: seq<Instr>, b: seq<Instr>)
    requires forall i :: 0 <= i < |a| ==> !IsTerminated(a[i])
    ensures FirstTerminated(a + b) == |a| + FirstTerminated(b)
    decreases |a|
  {
    if a == [] {
      assert a + b == b;
    } else {
      assert (a + b)[1..] == a[1..] + b;
      FirstTerminatedAppend(a[1..], b);
    }
  }

  /** The passes after the first, on a piece of a list. */
  function Later(a: seq<Instr>): seq<Instr> {
    CopyReturns(CountWrites(InitLocals(a)))
  }

  lemma LaterAppend(a: seq<Instr>, b: seq<Instr>)
    ensures Later(a + b) == Later(a) + Later(b)
  {
    InitAppend(a, b);
    CountAppend(InitLocals(a), InitLocals(b));
    CopyAppend(CountWrites(InitLocals(a)), CountWrites(InitLocals(b)));
  }

  /** Values that the later passes leave alone. */
  predicate IsPlain(instr: Instr) {
    instr.Call? || instr.Use? || instr.FinResult? || instr.Init? || instr.Copy? || instr.Fin?
    || instr.ReturnVoid? || instr.Break? || instr.Continue?
  }

  lemma {:induction false} PlainStays(a: seq<Instr>)
    requires forall i :: 0 <= i < |a| ==> IsPlain(a[i])
    ensures Later(a) == a && ScopeEach(a) == a && LocalsOf(a) == []
  {
    if a != [] {
      PlainStays(a[1..]);
      assert a == [a[0]] + a[1..];
      LaterAppend([a[0]], a[1..]);
      PlainOne(a[0]);
    }
  }

  lemma PlainOne(instr: Instr)
    requires IsPlain(instr)
    ensures Later([instr]) == [instr]
  {
    Singles(instr);
  }

  /** Each pass on a single value. */
  lemma Singles(instr: Instr)
    ensures InitLocals([instr]) == InitOne(instr)
    ensures CountWrites([instr]) == CountOne(instr)
    ensures CopyReturns([instr]) == CopyOne(instr)
    ensures ScopeEach([instr]) == [ScopeOne(instr)]
    ensures LocalsOf([instr]) == Declares(instr)
  {
    assert [instr][1..] == [];
  }

  lemma {:induction false} FinResultsPlain(rs: seq<nat>)
    ensures forall i :: 0 <= i < |FinResults(rs)| ==> FinResults(rs)[i].FinResult?
  {
    if rs != [] {
      FinResultsPlain(rs[1..]);
    }
  }

  /** What becomes of a value that does not end its block. */
  function Expansion(instr: Instr, rest: seq<Instr>): seq<Instr> {
    match instr
    case Local(x) => [instr, Init(x)]
    case Write(x, Variable(y)) => [Fin(x), Copy(Variable(y)), instr]
    case Write(x, Result(r)) => [Fin(x), Copy(Result(r)), instr, FinResult(r)]
    case Call(r) => if UsedIn(rest, r) then [instr] else [instr, FinResult(r)]
    case Use(rs, _) => [instr] + FinResults(rs)
    case Nested(b) => [Nested(InsertCounts(b))]
    case If(a, b) => [If(InsertCounts(a), InsertCounts(b))]
    case While(c, b) => [While(CountAll(c), InsertCounts(b))]
    case For(b) => [For(InsertCounts(b))]
    case _ => [instr]
  }

  lemma ExpansionRight(instr: Instr, rest: seq<Instr>)
    requires !IsTerminated(instr)
    ensures Expand(instr, rest) == Expansion(instr, rest)
    ensures LocalsOf(Later(DestroyOne(instr, rest))) == Declares(instr)
    ensures var g := Later(DestroyOne(instr, rest)); forall i :: 0 <= i < |g| ==> !IsTerminated(g[i])
  {
    hide CopyReturns, CountWrites, InitLocals, DestroyCalls, ScopeEach, LocalsOf, UsedIn;
    match instr
    case Local(x) => ExpandTwo(instr, Init(x));
    case Write(x, src) =>
      ExpandWrite(x, src);
      if src.Result? {
        ExpandWriteResult(x, src.r);
      }
    case Call(r) => PlainStays(DestroyOne(instr, rest));
    case Use(rs, _) =>
      FinResultsPlain(rs);
      PlainStays([instr] + FinResults(rs));
    case Nested(b) => ExpandBlock(DestroyOne(instr, rest)[0]);
    case If(a, b) => ExpandBlock(DestroyOne(instr, rest)[0]);
    case While(c, b) => ExpandBlock(DestroyOne(instr, rest)[0]);
    case For(b) => ExpandBlock(DestroyOne(instr, rest)[0]);
    case _ => PlainStays([instr]);
  }

  lemma ExpandWriteResult(x: nat, r: nat)
    ensures var w := Write(x, Result(r)); var c := [Fin(x), Copy(Result(r)), w, FinResult(r)];
            (Later([w, FinResult(r)]) == c && ScopeEach(c) == c && LocalsOf(c) == [])
  {
    var w := Write(x, Result(r));
    ExpandWrite(x, Result(r));
    assert [w, FinResult(r)] == [w] + [FinResult(r)];
    LaterAppend([w], [FinResult(r)]);
    PlainStays([FinResult(r)]);
    ScopeAppend(Later([w]), [FinResult(r)]);
  }

  lemma ExpandTwo(instr: Instr, init: Instr)
    requires instr.Local? && init == Init(instr.x)
    ensures Later([instr]) == [instr, init]
    ensures ScopeEach([instr, init]) == [instr, init] && LocalsOf([instr, init]) == [instr.x]
  {
    Singles(instr);
    assert InitLocals([instr]) == [instr] + [init];
    CountAppend([instr], [init]);
    Singles(init);
    CopyAppend([instr], [init]);
    assert [instr, init] == [instr] + [init];
    ScopeAppend([instr], [init]);
  }

  lemma ExpandWrite(x: nat, src: Source)
    ensures var c := [Fin(x), Copy(src), Write(x, src)];
            Later([Write(x, src)]) == c && ScopeEach(c) == c && LocalsOf(c) == []
  {
    var w := Write(x, src);
    var c := [Fin(x), Copy(src), w];
    Singles(w);
    assert c == [Fin(x), Copy(src)] + [w];
    var p := [Fin(x), Copy(src)];
    assert p == [Fin(x)] + [Copy(src)];
    Singles(Fin(x));
    Singles(Copy(src));
    CopyAppend([Fin(x)], [Copy(src)]);
    ScopeAppend([Fin(x)], [Copy(src)]);
    CopyAppend(p, [w]);
    ScopeAppend(p, [w]);
  }

  lemma ExpandBlock(instr: Instr)
    requires instr.Nested? || instr.If? || instr.While? || instr.For?
    ensures Later([instr]) == CopyOne(CountOne(InitOne(instr)[0])[0])
    ensures |Later([instr])| == 1 && LocalsOf(Later([instr])) == [] && !IsTerminated(Later([instr])[0])
    ensures ScopeEach(Later([instr])) == [ScopeOne(Later([instr])[0])]
  {
    Singles(instr);
    Singles(InitOne(instr)[0]);
    Singles(CountOne(InitOne(instr)[0])[0]);
    Singles(Later([instr])[0]);
  }

  /** The passes on a list whose block has already declared some variables: the code of the list, then
      whatever stood after its first terminator. */
  lemma {:induction false} Layout(s: seq<Instr>, declared: seq<nat>) returns (tail: seq<Instr>)
    ensures var f := CountAll(s); var at := FirstTerminated(f);
            ScopeEach(f[..at]) + Fins(declared + LocalsOf(f[..at])) + f[at..] == Code(s, declared) + tail
    ensures tail == [] || exists i :: 0 <= i < |s| && IsTerminated(s[i])
    decreases |s|
  {
    hide DestroyOne, DestroyCalls, InitLocals, CountWrites, CopyReturns, Fins, BeforeEnd;
    tail := [];
    if s == [] {
      NothingLaid(declared);
    } else {
      var h, t := s[0], s[1..];
      assert s == [h] + t;
      DestroySplit(h, t);
      LaterAppend(DestroyOne(h, t), DestroyCalls(t));
      hide ScopeEach, LocalsOf, FirstTerminated;
      var f, g, ft := CountAll(s), Later(DestroyOne(h, t)), CountAll(t);
      assert f == g + ft;
      if IsTerminated(h) {
        LayoutEnd(h, t, ft, declared);
        tail := ft;
      } else {
        ExpansionRight(h, t);
        var declared' := declared + Declares(h);
        tail := Layout(t, declared');
        var at := FirstTerminated(ft);
        FirstTerminatedAppend(g, ft);
        assert f[..|g| + at] == g + ft[..at];
        assert f[|g| + at..] == ft[at..];
        ScopeAppend(g, ft[..at]);
        assert declared + (Declares(h) + LocalsOf(ft[..at])) == declared' + LocalsOf(ft[..at]);
        Regroup(ScopeEach(g), ScopeEach(ft[..at]), Fins(declared' + LocalsOf(ft[..at])), ft[at..],
                Code(t, declared'), tail);
      }
    }
  }

  lemma NothingLaid(declared: seq<nat>)
    ensures var f := CountAll([]); var at := FirstTerminated(f);
            (ScopeEach(f[..at]) + Fins(declared + LocalsOf(f[..at])) + f[at..] == Code([], declared) + [])
  {
    assert declared + [] == declared;
  }

  lemma Regroup(a: seq<Instr>, b: seq<Instr>, c: seq<Instr>, d: seq<Instr>, e: seq<Instr>, tail: seq<Instr>)
    requires b + c + d == e + tail
    ensures (a + b) + c + d == (a + e) + tail
  {
    assert (a + b) + c + d == a + (b + c + d);
    assert (a + e) + tail == a + (e + tail);
  }

  lemma LayoutEnd(h: Instr, t: seq<Instr>, ft: seq<Instr>, declared: seq<nat>)
    requires IsTerminated(h)
    ensures Later(DestroyOne(h, t)) == BeforeEnd(h) + [h]
    ensures var f := BeforeEnd(h) + [h] + ft; var at := FirstTerminated(f);
            (ScopeEach(f[..at]) + Fins(declared + LocalsOf(f[..at])) + f[at..]
             == BeforeEnd(h) + Fins(declared) + [h] + ft)
  {
    Singles(h);
    var p := BeforeEnd(h);
    var f := p + [h] + ft;
    PlainStays(p);
    FirstTerminatedAppend(p, [h] + ft);
    assert f == p + ([h] + ft);
    assert f[..|p|] == p && f[|p|..] == [h] + ft;
    assert declared + [] == declared;
    assert p + Fins(declared) + ([h] + ft) == p + Fins(declared) + [h] + ft;
  }

  /** A list with a terminator never runs past its own code. */
  lemma {:induction false} CodeEnds(w: World, s: seq<Instr>, declared: seq<nat>, i: nat, st: State, fuel: nat)
    requires i < |s| && IsTerminated(s[i])
    ensures !Exec(w, Code(s, declared), st, fuel).Normal?
    decreases |s|
  {
    if IsTerminated(s[0]) {
      var a := BeforeEnd(s[0]) + Fins(declared);
      ExecAppend(w, a, [s[0]], st, fuel);
      var o := Exec(w, a, st, fuel);
      if o.Normal? {
        ExecSingle(w, s[0], o.st, fuel);
      }
    } else {
      ExecAppend(w, Expand(s[0], s[1..]), Code(s[1..], declared + Declares(s[0])), st, fuel);
      var o := Exec(w, Expand(s[0], s[1..]), st, fuel);
      if o.Normal? {
        CodeEnds(w, s[1..], declared + Declares(s[0]), i - 1, o.st, fuel);
      }
    }
  }

  /** Running a counted block is running its code. */
  lemma InsertedRuns(w: World, s: seq<Instr>, st: State, fuel: nat)
    ensures Exec(w, InsertCounts(s), st, fuel) == Exec(w, Code(s, []), st, fuel)
  {
    var tail := Layout(s, []);
    var f := CountAll(s);
    var at := FirstTerminated(f);
    assert [] + LocalsOf(f[..at]) == LocalsOf(f[..at]);
    ExecAppend(w, Code(s, []), tail, st, fuel);
    if tail == [] {
      assert Code(s, []) + tail == Code(s, []);
    } else {
      var i :| 0 <= i < |s| && IsTerminated(s[i]);
      CodeEnds(w, s, [], i, st, fuel);
    }
  }

  /** A condition's values are only counted, not scoped, and need no scoping. */
  lemma {:induction false} CondCode(c: seq<Instr>)
    requires Straight(c)
    ensures CountAll(c) == Code(c, [])
    decreases |c|
  {
    if c != [] {
      var h, t := c[0], c[1..];
      assert c == [h] + t;
      DestroySplit(h, t);
      LaterAppend(DestroyOne(h, t), DestroyCalls(t));
      CondCode(t);
      StraightExpand(h, t);
      assert [] + Declares(h) == [];
    }
  }

  lemma StraightExpand(h: Instr, t: seq<Instr>)
    requires h.Write? || h.Call? || h.Use?
    ensures Later(DestroyOne(h, t)) == Expand(h, t)
  {
    match h
    case Write(x, src) =>
      ExpandWrite(x, src);
      if src.Result? {
        ExpandWriteResult(x, src.r);
      }
    case Call(r) => PlainStays(DestroyOne(h, t));
    case Use(rs, _) =>
      FinResultsPlain(rs);
      PlainStays([h] + FinResults(rs));
  }
}
