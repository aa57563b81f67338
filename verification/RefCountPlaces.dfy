/** Where the calls of reference counting stand. */
module RefCountPlaces {
  import opened RefCountIr
  import opened RefCountPass
  import opened RefCountCorrect
  import opened RefCountLayout

  // ---------- the pass over local variables ----------

  /** The first terminator of a block, or its end. */
  ghost predicate EndsAt(body: seq<Instr>, at: nat) {
    && at <= |body| && (at < |body| ==> IsTerminated(body[at]))
    && forall i :: 0 <= i < at ==> !IsTerminated(body[i])
  }

  /** Exactly the local variables in front of the end, in the order of their declarations. */
  ghost predicate Declared(body: seq<Instr>, at: nat, places: seq<nat>) {
    && at <= |body|
    && (forall j :: 0 <= j < |places| ==> places[j] < at && body[places[j]].Local?)
    && (forall i, j :: 0 <= i < j < |places| ==> places[i] < places[j])
    && forall i :: 0 <= i < at && body[i].Local? ==> i in places
  }

  /** Their finalization, one call each, in that order. */
  ghost predicate Finalizes(body: seq<Instr>, places: seq<nat>, fins: seq<Instr>) {
    |fins| == |places| && forall j :: 0 <= j < |places| ==>
      places[j] < |body| && body[places[j]].Local? && fins[j] == Fin(body[places[j]].x)
  }

  /** Right before the first terminator of a block, or at its end, stands the finalization of each of its
      variables, and so it is in the blocks inside it; nothing else changes. */
  ghost predicate LocalsFinalized(body: seq<Instr>, r: seq<Instr>)
    decreases body, 2
  {
    exists at: nat, places: seq<nat> :: LocalsFinalizedAt(body, r, at, places)
  }

  ghost predicate LocalsFinalizedAt(body: seq<Instr>, r: seq<Instr>, at: nat, places: seq<nat>)
    decreases body, 1
  {
    && EndsAt(body, at) && Declared(body, at, places)
    && |r| == |body| + |places|
    && (forall i :: 0 <= i < at ==> FinalizedInside(body[i], r[i]))
    && Finalizes(body, places, r[at..at + |places|])
    && r[at + |places|..] == body[at..]
  }

  ghost predicate FinalizedInside(v: Instr, r: Instr)
    decreases v, 0
  {
    match v
    case Nested(b) => r.Nested? && LocalsFinalized(b, r.body)
    case If(a, b) => r.If? && LocalsFinalized(a, r.thenBody) && LocalsFinalized(b, r.elseBody)
    case While(c, b) => r.While? && r.cond == c && LocalsFinalized(b, r.body)
    case For(b) => r.For? && LocalsFinalized(b, r.body)
    case _ => r == v
  }

  /** The places of the variables in front of the end. */
  ghost function PlacesOf(body: seq<Instr>, at: nat): seq<nat>
    requires at <= |body|
  {
    if at == 0 then [] else PlacesOf(body, at - 1) + if body[at - 1].Local? then [at - 1] else []
  }

  lemma {:induction false} PlacesDeclared(body: seq<Instr>, at: nat)
    requires at <= |body|
    ensures Declared(body, at, PlacesOf(body, at))
  {
    if at > 0 {
      PlacesDeclared(body, at - 1);
      var before := PlacesOf(body, at - 1);
      forall i | 0 <= i < at && body[i].Local? ensures i in PlacesOf(body, at) {
        if i < at - 1 {
          assert i in before;
        }
      }
    }
  }

  lemma {:induction false} FinsAppend(a: seq<nat>, b: seq<nat>)
    ensures Fins(a + b) == Fins(a) + Fins(b)
  {
    if a == [] {
      assert a + b == b;
    } else {
      assert (a + b)[1..] == a[1..] + b;
      FinsAppend(a[1..], b);
    }
  }

  lemma FinsNext(body: seq<Instr>, at: nat)
    requires 0 < at <= |body|
    ensures Fins(LocalsOf(body[..at]))
      == Fins(LocalsOf(body[..at - 1])) + if body[at - 1].Local? then [Fin(body[at - 1].x)] else []
    ensures LocalsOf(body[..at]) == LocalsOf(body[..at - 1]) + Declares(body[at - 1])
  {
    var v := body[at - 1];
    assert body[..at] == body[..at - 1] + [v];
    LocalsAppend(body[..at - 1], [v]);
    assert [v][1..] == [] && LocalsOf([]) == [];
    assert LocalsOf([v]) == Declares(v) + [] == Declares(v);
    FinsAppend(LocalsOf(body[..at - 1]), Declares(v));
    var before := Fins(LocalsOf(body[..at - 1]));
    assert Fins([]) == [] && before + [] == before;
    if v.Local? {
      assert [v.x][1..] == [];
      assert Fins([v.x]) == [Fin(v.x)] + [];
    }
  }

  lemma {:induction false} FinsPlaced(body: seq<Instr>, at: nat)
    requires at <= |body|
    ensures Finalizes(body, PlacesOf(body, at), Fins(LocalsOf(body[..at])))
  {
    hide LocalsOf, Fins, Finalizes;
    if at == 0 {
      NoneFinalized(body);
    } else {
      FinsPlaced(body, at - 1);
      FinsNext(body, at);
      var places, fins := PlacesOf(body, at - 1), Fins(LocalsOf(body[..at - 1]));
      assert places + [] == places && fins + [] == fins;
      if body[at - 1].Local? {
        FinalizesMore(body, places, fins, at - 1);
      }
    }
  }

  lemma NoneFinalized(body: seq<Instr>)
    ensures Finalizes(body, [], Fins(LocalsOf(body[..0])))
  {
    assert body[..0] == [];
  }

  lemma FinalizesMore(body: seq<Instr>, places: seq<nat>, fins: seq<Instr>, p: nat)
    requires Finalizes(body, places, fins) && p < |body| && body[p].Local?
    ensures Finalizes(body, places + [p], fins + [Fin(body[p].x)])
  {
  }

  lemma {:induction false} ScopeEachAt(body: seq<Instr>, i: nat)
    requires i < |body|
    ensures ScopeEach(body)[i] == ScopeOne(body[i])
  {
    if i > 0 {
      ScopeEachAt(body[1..], i - 1);
    }
  }

  /** What the pass leaves. */
  lemma {:induction false} FinalizedLocals(body: seq<Instr>)
    ensures LocalsFinalized(body, FinalizeLocals(body))
    decreases body, 1
  {
    var at := FirstTerminated(body);
    var places := PlacesOf(body, at);
    var r := FinalizeLocals(body);
    PlacesDeclared(body, at);
    FinsPlaced(body, at);
    forall i | 0 <= i < at ensures FinalizedInside(body[i], r[i]) {
      ScopeEachAt(body[..at], i);
      FinalizedOne(body[i]);
    }
    assert r[at..at + |places|] == Fins(LocalsOf(body[..at]));
    assert r[at + |places|..] == body[at..];
    assert LocalsFinalizedAt(body, r, at, places);
  }

  lemma {:induction false} FinalizedOne(v: Instr)
    ensures FinalizedInside(v, ScopeOne(v))
    decreases v, 0
  {
    match v
    case Nested(b) => FinalizedLocals(b);
    case If(a, b) =>
      FinalizedLocals(a);
      FinalizedLocals(b);
    case While(_, b) => FinalizedLocals(b);
    case For(b) => FinalizedLocals(b);
    case _ =>
  }

  // ---------- all five passes ----------

  function Joined(pieces: seq<seq<Instr>>): seq<Instr> {
    if pieces == [] then [] else pieces[0] + Joined(pieces[1..])
  }

  ghost predicate Reversed(rs: seq<nat>, fins: seq<Instr>) {
    |fins| == |rs| && forall j :: 0 <= j < |rs| ==> fins[j] == FinResult(rs[|rs| - 1 - j])
  }

  /** What stands in a counted block for one value and the calls around it: a new variable is initialized; a
      write finalizes the old value and then retains the new one; a result is finalized after its one user,
      or at once if it has none. */
  ghost predicate Around(v: Instr, rest: seq<Instr>, piece: seq<Instr>)
    decreases v, 0
  {
    match v
    case Local(x) => piece == [v, Init(x)]
    case Write(x, Variable(y)) => piece == [Fin(x), Copy(Variable(y)), v]
    case Write(x, Result(r)) => piece == [Fin(x), Copy(Result(r)), v, FinResult(r)]
    case Call(r) =>
      piece == if exists i :: 0 <= i < |rest| && UsesResult(rest[i], r) then [v] else [v, FinResult(r)]
    case Use(rs, _) => piece != [] && piece[0] == v && Reversed(rs, piece[1..])
    case Nested(b) => |piece| == 1 && piece[0].Nested? && Inserted(b, piece[0].body)
    case If(a, b) => |piece| == 1 && piece[0].If? && Inserted(a, piece[0].thenBody) && Inserted(b, piece[0].elseBody)
    case While(c, b) =>
      |piece| == 1 && piece[0].While? && Inserted(b, piece[0].body) && (Straight(c) ==> Inserted(c, piece[0].cond))
    case For(b) => |piece| == 1 && piece[0].For? && Inserted(b, piece[0].body)
    case _ => piece == [v]
  }

  /** The pieces of a block's values one after the other up to its first terminator; there a returned variable
      is retained, and the variables are finalized.  Nothing is said of what stands after a terminator. */
  ghost predicate Inserted(body: seq<Instr>, r: seq<Instr>)
    decreases body, 2
  {
    exists at: nat, places: seq<nat>, pieces: seq<seq<Instr>>, fins: seq<Instr>, tail: seq<Instr> ::
      InsertedAt(body, r, at, places, pieces, fins, tail)
  }

  ghost predicate InsertedAt(body: seq<Instr>, r: seq<Instr>, at: nat, places: seq<nat>, pieces: seq<seq<Instr>>,
      fins: seq<Instr>, tail: seq<Instr>)
    decreases body, 1
  {
    && EndsAt(body, at) && Declared(body, at, places) && Finalizes(body, places, fins)
    && |pieces| == at && (forall i :: 0 <= i < at ==> Around(body[i], body[i + 1..], pieces[i]))
    && r == Joined(pieces) + (if at == |body| then fins else Retained(body[at]) + fins + [body[at]] + tail)
    && (at == |body| ==> tail == [])
  }

  /** What stands before the variables of a block are finalized. */
  function Retained(end: Instr): seq<Instr> {
    match end
    case Return(Variable(x)) => [Copy(Variable(x))]
    case _ => []
  }

  lemma {:induction false} JoinedAppend(a: seq<seq<Instr>>, piece: seq<Instr>)
    ensures Joined(a + [piece]) == Joined(a) + piece
  {
    if a == [] {
      assert a + [piece] == [piece] && [piece][1..] == [];
    } else {
      assert (a + [piece])[1..] == a[1..] + [piece];
      JoinedAppend(a[1..], piece);
    }
  }

  lemma {:induction false} FinResultsReversed(rs: seq<nat>)
    ensures Reversed(rs, FinResults(rs))
  {
    if rs != [] {
      FinResultsReversed(rs[1..]);
    }
  }

  /** The pieces in front of a place, and the code from it on. */
  lemma {:induction false} CodePieces(body: seq<Instr>, i: nat) returns (pieces: seq<seq<Instr>>)
    requires i <= |body| && forall j :: 0 <= j < i ==> !IsTerminated(body[j])
    ensures |pieces| == i && forall j :: 0 <= j < i ==> Around(body[j], body[j + 1..], pieces[j])
    ensures Code(body, []) == Joined(pieces) + Code(body[i..], LocalsOf(body[..i]))
    decreases body, 1, i
  {
    hide Around, Expand, Expansion, LocalsOf, Fins;
    if i == 0 {
      pieces := [];
      assert body[0..] == body && body[..0] == [];
      NoLocals();
    } else {
      var v, rest := body[i - 1], body[i..];
      var before := CodePieces(body, i - 1);
      var piece := Expand(v, rest);
      ExpansionRight(v, rest);
      ExpansionAround(v, rest);
      pieces := before + [piece];
      JoinedAppend(before, piece);
      assert body[i - 1..][0] == v && body[i - 1..][1..] == rest;
      FinsNext(body, i);
      var code := Code(rest, LocalsOf(body[..i]));
      assert (Joined(before) + piece) + code == Joined(before) + (piece + code);
    }
  }

  lemma NoLocals()
    ensures LocalsOf([]) == []
  {
  }

  lemma {:induction false} ExpansionAround(v: Instr, rest: seq<Instr>)
    requires !IsTerminated(v)
    ensures Around(v, rest, Expansion(v, rest))
    decreases v, 0
  {
    hide Inserted;
    match v
    case Use(rs, _) => FinResultsReversed(rs);
    case Nested(b) => InsertedCalls(b);
    case If(a, b) =>
      InsertedCalls(a);
      InsertedCalls(b);
    case While(c, b) =>
      InsertedCalls(b);
      if Straight(c) {
        InsertedStraight(c);
      }
    case For(b) => InsertedCalls(b);
    case _ =>
  }

  /** Every call the passes insert, and where. */
  lemma {:induction false} InsertedCalls(body: seq<Instr>)
    ensures Inserted(body, InsertCounts(body))
    decreases body, 3
  {
    var tail := Layout(body, []);
    var f := CountAll(body);
    assert [] + LocalsOf(f[..FirstTerminated(f)]) == LocalsOf(f[..FirstTerminated(f)]);
    CodeInserted(body, InsertCounts(body), tail);
  }

  lemma {:induction false} CodeInserted(body: seq<Instr>, r: seq<Instr>, tail: seq<Instr>)
    requires r == Code(body, []) + tail
    requires tail == [] || exists i :: 0 <= i < |body| && IsTerminated(body[i])
    ensures Inserted(body, r)
    decreases body, 2
  {
    hide Around, Expand, LocalsOf, Fins, Code, Declared, Finalizes, EndsAt, PlacesOf;
    var at := FirstTerminated(body);
    FirstEnds(body);
    CodeEnd(body[at..], LocalsOf(body[..at]));
    var pieces := CodePieces(body, at);
    var places, fins := PlacesOf(body, at), Fins(LocalsOf(body[..at]));
    PlacesDeclared(body, at);
    FinsPlaced(body, at);
    var joined := Joined(pieces);
    if at == |body| {
      assert tail == [] && body[at..] == [];
      assert r == joined + fins;
    } else {
      assert body[at..][0] == body[at];
      var end := Retained(body[at]) + fins + [body[at]];
      assert Code(body[at..], LocalsOf(body[..at])) == end;
      assert (joined + end) + tail == joined + (end + tail);
    }
    assert InsertedAt(body, r, at, places, pieces, fins, tail);
  }

  lemma FirstEnds(body: seq<Instr>)
    ensures EndsAt(body, FirstTerminated(body))
  {
  }

  lemma CodeEnd(rest: seq<Instr>, declared: seq<nat>)
    ensures rest == [] ==> Code(rest, declared) == Fins(declared)
    ensures rest != [] && IsTerminated(rest[0]) ==>
      Code(rest, declared) == Retained(rest[0]) + Fins(declared) + [rest[0]]
  {
  }

  lemma {:induction false} InsertedStraight(c: seq<Instr>)
    requires Straight(c)
    ensures Inserted(c, CountAll(c))
    decreases c, 3
  {
    CondCode(c);
    assert Code(c, []) + [] == Code(c, []);
    CodeInserted(c, CountAll(c), []);
  }
}
