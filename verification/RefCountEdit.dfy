/** The reference-counting passes as edits of block lists. */
module RefCountEdit {
  import opened IrBlock
  import opened RefCountIr
  import opened RefCountPass
  import RefCountPlaces

  datatype Pass = Destroys | Inits | Counts | Copies

  /** What a pass makes of a value, given what follows it in its list. */
  function PassOne(pass: Pass, instr: Instr, rest: seq<Instr>): seq<Instr> {
    match pass
    case Destroys => DestroyOne(instr, rest)
    case Inits => InitOne(instr)
    case Counts => CountOne(instr)
    case Copies => CopyOne(instr)
  }

  function PassAll(pass: Pass, body: seq<Instr>): seq<Instr> {
    match pass
    case Destroys => DestroyCalls(body)
    case Inits => InitLocals(body)
    case Counts => CountWrites(body)
    case Copies => CopyReturns(body)
  }

  lemma PassNext(pass: Pass, body: seq<Instr>)
    requires body != []
    ensures PassAll(pass, body) == PassOne(pass, body[0], body[1..]) + PassAll(pass, body[1..])
  {
  }

  function PassBefore(pass: Pass, instr: Instr): seq<Instr> {
    match instr
    case Write(x, src) => if pass.Counts? then [Fin(x), Copy(src)] else []
    case Return(Variable(x)) => if pass.Copies? then [Copy(Variable(x))] else []
    case _ => []
  }

  function PassAfter(pass: Pass, instr: Instr, rest: seq<Instr>): seq<Instr> {
    match instr
    case Local(x) => if pass.Inits? then [Init(x)] else []
    case Call(r) => if pass.Destroys? && !UsedIn(rest, r) then [FinResult(r)] else []
    case Use(rs, _) => if pass.Destroys? then FinResults(rs) else []
    case Write(_, Result(r)) => if pass.Destroys? then [FinResult(r)] else []
    case _ => []
  }

  function PassInside(pass: Pass, instr: Instr): Instr {
    match instr
    case Nested(b) => Nested(PassAll(pass, b))
    case If(a, b) => If(PassAll(pass, a), PassAll(pass, b))
    case While(c, b) => While(PassAll(pass, c), PassAll(pass, b))
    case For(b) => For(PassAll(pass, b))
    case _ => instr
  }

  lemma PassParts(pass: Pass, instr: Instr, rest: seq<Instr>)
    ensures PassOne(pass, instr, rest)
         == PassBefore(pass, instr) + [PassInside(pass, instr)] + PassAfter(pass, instr, rest)
  {
  }

  lemma AroundStep(pass: Pass, original: seq<Instr>, j: nat, done: seq<Instr>, iter: nat, values: seq<Instr>)
    requires j <= |original| && iter == |done| && iter < |values| && values == done + original[j..]
    ensures j < |original| && values[iter] == original[j] && values == done + [values[iter]] + original[j + 1..]
    ensures done + PassAll(pass, original[j..])
      == done + PassOne(pass, values[iter], original[j + 1..]) + PassAll(pass, original[j + 1..])
  {
    assert original[j..][0] == original[j] && original[j..][1..] == original[j + 1..];
    PassNext(pass, original[j..]);
  }

  /** Inserts one of the first four passes' calls around every value of a block and of the blocks in it. */
  method InsertAround(pass: Pass, block: Block<Instr>)
    modifies block
    ensures block.values == PassAll(pass, old(block.values))
    decreases block.values, 1
  {
    hide PassAll, PassOne;
    ghost var original := block.values;
    ghost var j := 0;
    ghost var done: seq<Instr> := [];
    var iter: nat := 0;
    assert original[0..] == original;
    while iter < |block.values|
      invariant j <= |original| && iter == |done|
      invariant block.values == done + original[j..]
      invariant PassAll(pass, original) == done + PassAll(pass, original[j..])
      decreases |original| - j
    {
      AroundStep(pass, original, j, done, iter, block.values);
      ghost var rest := original[j + 1..];
      var value := block.values[iter];
      iter := InsertAroundValue(pass, block, iter, value, done, rest);
      done := done + PassOne(pass, value, rest);
      j := j + 1;
    }
    assert original[j..] == [];
    PassNone(pass);
  }

  lemma PassNone(pass: Pass)
    ensures PassAll(pass, []) == []
  {
  }

  method InsertAroundValue(pass: Pass, block: Block<Instr>, iter: nat, value: Instr,
                           ghost done: seq<Instr>, ghost rest: seq<Instr>) returns (iter': nat)
    requires block.values == done + [value] + rest && iter == |done|
    modifies block
    ensures block.values == done + PassOne(pass, value, rest) + rest && iter' == iter + |PassOne(pass, value, rest)|
    decreases value, 2
  {
    PassParts(pass, value, rest);
    hide PassOne, PassAll, FinResults;
    // the rest of the list decides whether a call is used, so the insertions after the value come first
    var unused := value.Call? && pass.Destroys?;
    if unused {
      var used := HasUse(block, iter + 1, value.r, rest);
      unused := !used;
    }
    var inside := InsertInside(pass, value);
    block.values := block.values[iter := inside];
    ghost var before := PassBefore(pass, value);
    iter' := InsertBefore(pass, block, iter, value, done, [inside] + rest);
    iter' := InsertAfter(pass, block, iter' + 1, value, unused, done + before + [inside], rest);
    ghost var after := PassAfter(pass, value, rest);
    assert done + before + [inside] + after == done + (before + [inside] + after);
  }

  method InsertBefore(pass: Pass, block: Block<Instr>, iter: nat, value: Instr,
                      ghost done: seq<Instr>, ghost rest: seq<Instr>) returns (iter': nat)
    requires block.values == done + rest && iter == |done|
    modifies block
    ensures var before := PassBefore(pass, value);
            block.values == done + before + rest && iter' == iter + |before|
  {
    iter' := iter;
    assert block.values == done + [] + rest;
    match value
    case Write(x, src) =>
      if pass.Counts? {
        iter' := block.Insert(iter', Fin(x), done, [], rest);
        iter' := block.Insert(iter', Copy(src), done, [] + [Fin(x)], rest);
        assert [] + [Fin(x)] + [Copy(src)] == [Fin(x), Copy(src)];
      }
    case Return(src) =>
      if pass.Copies? && src.Variable? {
        iter' := block.Insert(iter', Copy(src), done, [], rest);
        assert [] + [Copy(src)] == [Copy(src)];
      }
    case _ =>
  }

  /** Whether any value from the iterator on uses the result. */
  method HasUse(block: Block<Instr>, iter: nat, r: nat, ghost rest: seq<Instr>) returns (used: bool)
    requires iter <= |block.values| && block.values[iter..] == rest
    ensures used == UsedIn(rest, r)
  {
    used := false;
    for i := iter to |block.values|
      invariant used == exists k :: 0 <= k < i - iter && UsesResult(rest[k], r)
    {
      assert block.values[i] == rest[i - iter];
      used := used || UsesResult(block.values[i], r);
    }
  }

  method InsertInside(pass: Pass, value: Instr) returns (inside: Instr)
    ensures inside == PassInside(pass, value)
    decreases value, 1
  {
    inside := value;
    match value
    case Nested(b) =>
      var inner := new Block(b);
      InsertAround(pass, inner);
      inside := Nested(inner.values);
    case If(a, b) =>
      var thenBlock := new Block(a);
      var elseBlock := new Block(b);
      InsertAround(pass, thenBlock);
      InsertAround(pass, elseBlock);
      inside := If(thenBlock.values, elseBlock.values);
    case While(c, b) =>
      var condBlock := new Block(c);
      var loopBlock := new Block(b);
      InsertAround(pass, condBlock);
      InsertAround(pass, loopBlock);
      inside := While(condBlock.values, loopBlock.values);
    case For(b) =>
      var loopBlock := new Block(b);
      InsertAround(pass, loopBlock);
      inside := For(loopBlock.values);
    case _ =>
  }

  method InsertAfter(pass: Pass, block: Block<Instr>, iter: nat, value: Instr, unused: bool,
                     ghost before: seq<Instr>, ghost rest: seq<Instr>) returns (iter': nat)
    requires block.values == before + rest && iter == |before|
    requires unused == (value.Call? && pass.Destroys? && !UsedIn(rest, value.r))
    modifies block
    ensures var after := PassAfter(pass, value, rest);
            block.values == before + after + rest && iter' == iter + |after|
  {
    iter' := iter;
    assert block.values == before + [] + rest;
    match value
    case Local(x) =>
      if pass.Inits? {
        iter' := block.Insert(iter', Init(x), before, [], rest);
        assert [] + [Init(x)] == [Init(x)];
      }
    case Call(r) =>
      if unused {
        iter' := block.Insert(iter', FinResult(r), before, [], rest);
        assert [] + [FinResult(r)] == [FinResult(r)];
      }
    case Use(rs, _) =>
      if pass.Destroys? {
        iter' := InsertReleases(block, iter, rs, before, rest);
      }
    case Write(_, src) =>
      if pass.Destroys? && src.Result? {
        iter' := block.Insert(iter', FinResult(src.r), before, [], rest);
        assert [] + [FinResult(src.r)] == [FinResult(src.r)];
      }
    case _ =>
  }

  /** Each result used is released right after its user, so the last operand's release comes first. */
  method InsertReleases(block: Block<Instr>, iter: nat, rs: seq<nat>, ghost before: seq<Instr>, ghost rest: seq<Instr>)
    returns (iter': nat)
    requires block.values == before + rest && iter == |before|
    modifies block
    ensures block.values == before + FinResults(rs) + rest && iter' == iter + |FinResults(rs)|
  {
    iter' := iter;
    assert rs[..0] == [] && before + [] + rest == before + rest;
    for i := 0 to |rs|
      invariant block.values == before + FinResults(rs[..i]) + rest
      invariant iter' == iter + |FinResults(rs[..i])|
    {
      FinResultsPush(rs[..i], rs[i]);
      assert rs[..i + 1] == rs[..i] + [rs[i]];
      assert block.values == before + [] + (FinResults(rs[..i]) + rest);
      var next := block.Insert(iter, FinResult(rs[i]), before, [], FinResults(rs[..i]) + rest);
      assert before + ([] + [FinResult(rs[i])]) + (FinResults(rs[..i]) + rest)
          == before + ([FinResult(rs[i])] + FinResults(rs[..i])) + rest;
      iter' := iter' + 1;
    }
    assert rs[..|rs|] == rs;
  }

  lemma {:induction false} FinResultsPush(rs: seq<nat>, r: nat)
    ensures FinResults(rs + [r]) == [FinResult(r)] + FinResults(rs)
    decreases |rs|
  {
    if rs == [] {
      assert rs + [r] == [r] && [r][1..] == [];
      assert FinResults([r][1..]) == [];
    } else {
      assert (rs + [r])[1..] == rs[1..] + [r];
      FinResultsPush(rs[1..], r);
      assert (rs + [r])[0] == rs[0];
      assert [FinResult(r)] + FinResults(rs[1..]) + [FinResult(rs[0])]
          == [FinResult(r)] + (FinResults(rs[1..]) + [FinResult(rs[0])]);
    }
  }

  lemma SplitAt(original: seq<Instr>, iter: nat, done: seq<Instr>, values: seq<Instr>)
    requires iter < |original| && |done| == iter && values == done + original[iter..]
    ensures iter < |values| && values[iter] == original[iter]
    ensures values == done + [original[iter]] + original[iter + 1..]
    ensures original[iter..] == [original[iter]] + original[iter + 1..]
  {
  }

  /** Finalizes a block's variables before its first terminator, and those of the blocks in it. */
  method InsertFinalizeLocalVariableForBlock(block: Block<Instr>)
    modifies block
    ensures block.values == FinalizeLocals(old(block.values))
    ensures RefCountPlaces.LocalsFinalized(old(block.values), block.values)
    decreases block.values, 1
  {
    RefCountPlaces.FinalizedLocals(block.values);
    ghost var original := block.values;
    var at := FirstTerminated(block.values);
    var locals: seq<nat> := [];
    assert FinalizeLocals(original) == ScopeEach(original[..at]) + Fins(LocalsOf(original[..at])) + original[at..];
    assert original[..0] == [] && LocalsOf([]) == [] && original[0..] == original;
    hide FinalizeLocals, ScopeEach, LocalsOf, Fins, FirstTerminated, ScopeOne, RefCountPlaces.LocalsFinalized;
    ghost var done: seq<Instr> := [];
    for iter := 0 to at
      invariant at <= |original| && |done| == iter
      invariant block.values == done + original[iter..]
      invariant done == ScopeEach(original[..iter])
      invariant locals == LocalsOf(original[..iter])
    {
      ghost var rest := original[iter + 1..];
      SplitAt(original, iter, done, block.values);
      var value := block.values[iter];
      if value.Local? {
        locals := locals + [value.x];
      }
      var scoped := FinalizeInside(value);
      ScopeNext(original, iter);
      Replace(block, iter, scoped, done, value, rest);
      done := done + [scoped];
    }
    InsertFins(block, at, locals, ScopeEach(original[..at]), original[at..]);
  }

  method Replace(block: Block<Instr>, iter: nat, value: Instr, ghost before: seq<Instr>, ghost was: Instr,
      ghost rest: seq<Instr>)
    requires block.values == before + ([was] + rest) && iter == |before|
    modifies block
    ensures block.values == before + [value] + rest
  {
    block.values := block.values[iter := value];
  }

  method InsertFins(block: Block<Instr>, at: nat, locals: seq<nat>, ghost scoped: seq<Instr>, ghost rest: seq<Instr>)
    requires block.values == scoped + rest && at == |scoped|
    modifies block
    ensures block.values == scoped + Fins(locals) + rest
  {
    assert block.values == scoped + [] + rest;
    var inserter: nat := at;
    for i := 0 to |locals|
      invariant block.values == scoped + Fins(locals[..i]) + rest && inserter == at + |Fins(locals[..i])|
    {
      FinsPush(locals[..i], locals[i]);
      assert locals[..i + 1] == locals[..i] + [locals[i]];
      inserter := block.Insert(inserter, Fin(locals[i]), scoped, Fins(locals[..i]), rest);
    }
    assert locals[..|locals|] == locals;
  }

  lemma ScopeNext(original: seq<Instr>, i: nat)
    requires i < |original|
    ensures ScopeEach(original[..i + 1]) == ScopeEach(original[..i]) + [ScopeOne(original[i])]
    ensures LocalsOf(original[..i + 1])
         == LocalsOf(original[..i]) + if original[i].Local? then [original[i].x] else []
  {
    ScopePush(original[..i], original[i]);
    assert original[..i + 1] == original[..i] + [original[i]];
  }

  lemma {:induction false} ScopePush(a: seq<Instr>, x: Instr)
    ensures ScopeEach(a + [x]) == ScopeEach(a) + [ScopeOne(x)]
    ensures LocalsOf(a + [x]) == LocalsOf(a) + if x.Local? then [x.x] else []
    decreases |a|
  {
    if a == [] {
      assert a + [x] == [x] && [x][1..] == [];
    } else {
      assert (a + [x])[1..] == a[1..] + [x];
      ScopePush(a[1..], x);
    }
  }

  lemma {:induction false} FinsPush(xs: seq<nat>, x: nat)
    ensures Fins(xs + [x]) == Fins(xs) + [Fin(x)]
    decreases |xs|
  {
    if xs == [] {
      assert xs + [x] == [x] && [x][1..] == [];
    } else {
      assert (xs + [x])[1..] == xs[1..] + [x];
      FinsPush(xs[1..], x);
    }
  }

  method FinalizeInside(value: Instr) returns (scoped: Instr)
    ensures scoped == ScopeOne(value)
    decreases value, 0
  {
    scoped := value;
    match value
    case Nested(b) =>
      var inner := new Block(b);
      InsertFinalizeLocalVariableForBlock(inner);
      scoped := Nested(inner.values);
    case If(a, b) =>
      var thenBlock := new Block(a);
      var elseBlock := new Block(b);
      InsertFinalizeLocalVariableForBlock(thenBlock);
      InsertFinalizeLocalVariableForBlock(elseBlock);
      scoped := If(thenBlock.values, elseBlock.values);
    case While(c, b) =>
      var loopBlock := new Block(b);
      InsertFinalizeLocalVariableForBlock(loopBlock);
      scoped := While(c, loopBlock.values);
    case For(b) =>
      var loopBlock := new Block(b);
      InsertFinalizeLocalVariableForBlock(loopBlock);
      scoped := For(loopBlock.values);
    case _ =>
  }

  /** The passes in their order. */
  method InsertReferenceCount(block: Block<Instr>)
    modifies block
    ensures block.values == InsertCounts(old(block.values))
    ensures RefCountPlaces.Inserted(old(block.values), block.values)
  {
    RefCountPlaces.InsertedCalls(block.values);
    hide RefCountPlaces.Inserted;
    InsertAround(Destroys, block);
    InsertAround(Inits, block);
    InsertAround(Counts, block);
    InsertAround(Copies, block);
    InsertFinalizeLocalVariableForBlock(block);
  }
}
