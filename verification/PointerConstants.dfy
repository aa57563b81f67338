/** Constants that stand in no block are put in front of their first users. */
module PointerConstants {
  import opened PointerIr

  predicate IsConstant(p: Program, o: Id) {
    o in p.nodes && p.nodes[o].kind.Constant?
  }

  /** The constants among the operands that have not been seen, each once. */
  function Missing(p: Program, args: seq<Id>, seen: set<Id>): seq<Id> {
    if args == [] then []
    else if args[0] !in seen && IsConstant(p, args[0]) then [args[0]] + Missing(p, args[1..], seen + {args[0]})
    else Missing(p, args[1..], seen)
  }

  function Args(p: Program, u: Id): seq<Id> {
    if u in p.nodes then p.nodes[u].args else []
  }

  function Elements(list: seq<Id>): set<Id> {
    set o | o in list
  }

  /** One block, with what was seen before it. */
  function Fill(p: Program, list: seq<Id>, seen: set<Id>): seq<Id>
    decreases |list|
  {
    if list == [] then [] else
    var new_ := Missing(p, Args(p, list[0]), seen + {list[0]});
    new_ + [list[0]] + Fill(p, list[1..], seen + {list[0]} + Elements(new_))
  }

  function FillAll(p: Program, blocks: seq<seq<Id>>, seen: set<Id>): seq<seq<Id>>
    decreases |blocks|
  {
    if blocks == [] then [] else
    var first := Fill(p, blocks[0], seen);
    [first] + FillAll(p, blocks[1..], seen + Elements(first))
  }

  function WithConstants(p: Program): Program {
    Program(p.nodes, FillAll(p, p.blocks, {}))
  }

  /** Only the nodes matter for what a node does. */
  lemma {:induction false} NodesOnly(p: Program, q: Program, s: State, o: Id)
    requires p.nodes == q.nodes
    ensures RootVariable(p, o) == RootVariable(q, o)
    ensures Read(p, s, o) == Read(q, s, o)
    ensures Place(p, s, o) == Place(q, s, o) && AccessPlace(p, s, o) == AccessPlace(q, s, o)
    decreases Rank(o), 1
  {
    RootNodesOnly(p, q, o);
    if Unary(p, o, Deref) {
      var a := p.nodes[o].args[0];
      RootNodesOnly(p, q, a);
      if Rank(a) < Rank(o) {
        NodesOnly(p, q, s, a);
      }
      assert Below(p, s, a, Rank(o)) == Below(q, s, a, Rank(o));
      assert Place(p, s, o) == Place(q, s, o);
      assert AccessPlace(p, s, o) == AccessPlace(q, s, o);
    } else if Unary(p, o, AddressOf) && Rank(p.nodes[o].args[0]) < Rank(o) {
      NodesOnly(p, q, s, p.nodes[o].args[0]);
    } else {
      assert AccessPlace(p, s, o) == Place(p, s, o) && AccessPlace(q, s, o) == Place(q, s, o);
    }
  }

  lemma {:induction false} RootNodesOnly(p: Program, q: Program, o: Id)
    requires p.nodes == q.nodes
    ensures RootVariable(p, o) == RootVariable(q, o)
    decreases Rank(o)
  {
    if Unary(p, o, AddressOf) && Unary(p, p.nodes[o].args[0], Deref) {
      var a := p.nodes[p.nodes[o].args[0]].args[0];
      if Rank(a) < Rank(o) {
        RootNodesOnly(p, q, a);
      }
    }
  }

  lemma FetchNodesOnly(p: Program, q: Program, mode: Mode, s: State, k: Kind, i: nat, o: Id)
    requires p.nodes == q.nodes
    ensures Fetch(p, mode, s, k, i, o) == Fetch(q, mode, s, k, i, o)
  {
    hide Read, Place, AccessPlace;
    NodesOnly(p, q, s, o);
  }

  lemma ExecNodesOnly(p: Program, q: Program, m: Meaning, s: State, o: Id)
    requires p.nodes == q.nodes
    ensures Exec(p, m, s, o) == Exec(q, m, s, o)
  {
    hide Fetch, Apply;
    if o in p.nodes {
      var node := p.nodes[o];
      forall k | 0 <= k < |node.args|
        ensures Fetch(p, m.mode, s, node.kind, k, node.args[k]) == Fetch(q, m.mode, s, node.kind, k, node.args[k])
      {
        FetchNodesOnly(p, q, m.mode, s, node.kind, k, node.args[k]);
      }
      if Ready(p, m.mode, s, node) {
        assert Operands(p, m.mode, s, node) == Operands(q, m.mode, s, node);
      }
    }
  }

  lemma {:induction false} MissingConstants(p: Program, args: seq<Id>, seen: set<Id>)
    ensures forall o :: o in Missing(p, args, seen) ==> IsConstant(p, o) && o !in seen
    ensures forall a :: a in args && IsConstant(p, a) && a !in seen ==> a in Missing(p, args, seen)
  {
    if args != [] {
      MissingConstants(p, args[1..], if args[0] !in seen && IsConstant(p, args[0]) then seen + {args[0]} else seen);
    }
  }

  lemma {:induction false} ConstantsRun(p: Program, m: Meaning, s: State, list: seq<Id>)
    requires forall o :: o in list ==> IsConstant(p, o) && p.nodes[o].args == []
    ensures ExecList(p, m, s, list) == Next(s)
    decreases |list|
  {
    if list != [] {
      assert list[0] in list;
      ConstantsRun(p, m, s, list[1..]);
    }
  }

  /** Constants have no operands. */
  ghost predicate ConstantsClosed(p: Program) {
    forall o :: IsConstant(p, o) ==> p.nodes[o].args == []
  }

  lemma {:induction false} FillRuns(p: Program, q: Program, m: Meaning, s: State, list: seq<Id>, seen: set<Id>)
    requires ConstantsClosed(p) && p.nodes == q.nodes
    ensures ExecList(q, m, s, Fill(p, list, seen)) == ExecList(p, m, s, list)
    decreases |list|
  {
    hide Exec, Missing, IsConstant;
    if list != [] {
      var u := list[0];
      var new_ := Missing(p, Args(p, u), seen + {u});
      var rest := Fill(p, list[1..], seen + {u} + Elements(new_));
      MissingRun(p, q, m, s, u, seen + {u});
      assert Fill(p, list, seen) == new_ + ([u] + rest);
      ExecListConcat(q, m, s, new_, [u] + rest);
      assert ([u] + rest)[1..] == rest;
      ExecNodesOnly(p, q, m, s, u);
      match Exec(p, m, s, u) {
        case Next(t) => FillRuns(p, q, m, t, list[1..], seen + {u} + Elements(new_));
        case Goto(_, _) =>
        case Done(_, _) =>
        case Stuck =>
      }
    }
  }

  lemma MissingRun(p: Program, q: Program, m: Meaning, s: State, u: Id, seen: set<Id>)
    requires ConstantsClosed(p) && p.nodes == q.nodes
    ensures ExecList(q, m, s, Missing(p, Args(p, u), seen)) == Next(s)
  {
    MissingConstants(p, Args(p, u), seen);
    ConstantsRun(q, m, s, Missing(p, Args(p, u), seen));
  }

  lemma {:induction false} FillAllAt(p: Program, blocks: seq<seq<Id>>, seen: set<Id>, b: nat) returns (before: set<Id>)
    requires b < |blocks|
    ensures |FillAll(p, blocks, seen)| == |blocks|
    ensures FillAll(p, blocks, seen)[b] == Fill(p, blocks[b], before)
    decreases |blocks|
  {
    FillAllLength(p, blocks, seen);
    var first := Fill(p, blocks[0], seen);
    if b == 0 {
      before := seen;
    } else {
      before := FillAllAt(p, blocks[1..], seen + Elements(first), b - 1);
    }
  }

  lemma {:induction false} FillAllLength(p: Program, blocks: seq<seq<Id>>, seen: set<Id>)
    ensures |FillAll(p, blocks, seen)| == |blocks|
    decreases |blocks|
  {
    if blocks != [] {
      FillAllLength(p, blocks[1..], seen + Elements(Fill(p, blocks[0], seen)));
    }
  }

  /** Runs do not change. */
  lemma {:induction false} ConstantsPreserve(p: Program, m: Meaning, s: State, b: nat, fuel: nat)
    requires ConstantsClosed(p)
    ensures Run(WithConstants(p), m, s, b, fuel) == Run(p, m, s, b, fuel)
    decreases fuel
  {
    hide ExecList, Fill, FillAll, ConstantsClosed;
    var q := WithConstants(p);
    FillAllLength(p, p.blocks, {});
    if fuel > 0 && b < |p.blocks| {
      var before := FillAllAt(p, p.blocks, {}, b);
      FillRuns(p, q, m, s, p.blocks[b], before);
      match ExecList(p, m, s, p.blocks[b]) {
        case Goto(c, t) => ConstantsPreserve(p, m, t, c, fuel - 1);
        case Next(_) =>
        case Done(_, _) =>
        case Stuck =>
      }
    }
  }

  lemma FillStep(p: Program, c: Id, tail: seq<Id>, seen: set<Id>)
    requires ConstantsClosed(p) && IsConstant(p, c)
    ensures Fill(p, [c] + tail, seen) == [c] + Fill(p, tail, seen + {c})
  {
    assert ([c] + tail)[0] == c && ([c] + tail)[1..] == tail;
    assert Missing(p, Args(p, c), seen + {c}) == [];
    assert seen + {c} + Elements([]) == seen + {c};
    assert [] + [c] == [c];
  }

  lemma {:induction false} FillOver(p: Program, cs: seq<Id>, tail: seq<Id>, seen: set<Id>)
    requires ConstantsClosed(p) && forall o :: o in cs ==> IsConstant(p, o)
    ensures Fill(p, cs + tail, seen) == cs + Fill(p, tail, seen + Elements(cs))
    decreases |cs|
  {
    hide Fill, ConstantsClosed;
    if cs == [] {
      assert cs + tail == tail && seen + Elements(cs) == seen;
    } else {
      assert cs[0] in cs;
      assert cs + tail == [cs[0]] + (cs[1..] + tail);
      FillStep(p, cs[0], cs[1..] + tail, seen);
      FillOver(p, cs[1..], tail, seen + {cs[0]});
      assert seen + {cs[0]} + Elements(cs[1..]) == seen + Elements(cs);
    }
  }

  /** A block that has its constants gets no more. */
  lemma {:induction false} FillTwice(p: Program, list: seq<Id>, seen: set<Id>)
    requires ConstantsClosed(p)
    ensures Fill(p, Fill(p, list, seen), seen) == Fill(p, list, seen)
    decreases |list|
  {
    hide ConstantsClosed, IsConstant, Missing, Args;
    if list != [] {
      var u := list[0];
      var new_ := Missing(p, Args(p, u), seen + {u});
      var next := seen + {u} + Elements(new_);
      var rest := Fill(p, list[1..], next);
      MissingConstants(p, Args(p, u), seen + {u});
      assert Fill(p, list, seen) == new_ + ([u] + rest);
      FillOver(p, new_, [u] + rest, seen);
      assert ([u] + rest)[1..] == rest;
      assert seen + Elements(new_) + {u} == next;
      NoneMissing(p, Args(p, u), next);
      assert seen + Elements(new_) + {u} + Elements([]) == next;
      FillTwice(p, list[1..], next);
      assert [] + [u] + rest == [u] + rest;
    }
  }

  lemma {:induction false} NoneMissing(p: Program, args: seq<Id>, seen: set<Id>)
    requires forall a :: a in args && IsConstant(p, a) ==> a in seen
    ensures Missing(p, args, seen) == []
  {
    if args != [] {
      assert args[0] in args;
      NoneMissing(p, args[1..], seen);
    }
  }

  lemma {:induction false} FillAllTwice(p: Program, blocks: seq<seq<Id>>, seen: set<Id>)
    requires ConstantsClosed(p)
    ensures FillAll(p, FillAll(p, blocks, seen), seen) == FillAll(p, blocks, seen)
    decreases |blocks|
  {
    hide ConstantsClosed, Fill;
    if blocks != [] {
      var first := Fill(p, blocks[0], seen);
      FillTwice(p, blocks[0], seen);
      FillAllTwice(p, blocks[1..], seen + Elements(first));
      var all := [first] + FillAll(p, blocks[1..], seen + Elements(first));
      assert all[0] == first && all[1..] == FillAll(p, blocks[1..], seen + Elements(first));
    }
  }

  /** The pass has nothing to do right after it ran. */
  lemma ConstantsOnce(p: Program)
    requires ConstantsClosed(p)
    ensures WithConstants(WithConstants(p)) == WithConstants(p)
  {
    FillAllTwice(p, p.blocks, {});
    FillAllNodesOnly(p, WithConstants(p), WithConstants(p).blocks, {});
  }

  lemma {:induction false} FillAllNodesOnly(p: Program, q: Program, blocks: seq<seq<Id>>, seen: set<Id>)
    requires p.nodes == q.nodes
    ensures FillAll(p, blocks, seen) == FillAll(q, blocks, seen)
    decreases |blocks|
  {
    if blocks != [] {
      FillNodesOnly(p, q, blocks[0], seen);
      FillAllNodesOnly(p, q, blocks[1..], seen + Elements(Fill(p, blocks[0], seen)));
    }
  }

  lemma {:induction false} FillNodesOnly(p: Program, q: Program, list: seq<Id>, seen: set<Id>)
    requires p.nodes == q.nodes
    ensures Fill(p, list, seen) == Fill(q, list, seen)
    decreases |list|
  {
    if list != [] {
      MissingNodesOnly(p, q, Args(p, list[0]), seen + {list[0]});
      FillNodesOnly(p, q, list[1..], seen + {list[0]} + Elements(Missing(p, Args(p, list[0]), seen + {list[0]})));
    }
  }

  lemma {:induction false} MissingNodesOnly(p: Program, q: Program, args: seq<Id>, seen: set<Id>)
    requires p.nodes == q.nodes
    ensures Missing(p, args, seen) == Missing(q, args, seen)
  {
    if args != [] {
      MissingNodesOnly(p, q, args[1..], if args[0] !in seen && IsConstant(p, args[0]) then seen + {args[0]} else seen);
    }
  }

  lemma MissingAt(p: Program, args: seq<Id>, k: nat, seen: set<Id>)
    requires k < |args|
    ensures Missing(p, args[k..], seen) ==
      if args[k] !in seen && IsConstant(p, args[k]) then [args[k]] + Missing(p, args[k + 1..], seen + {args[k]})
      else Missing(p, args[k + 1..], seen)
  {
    assert args[k..][0] == args[k] && args[k..][1..] == args[k + 1..];
  }

  lemma FillAt(p: Program, list: seq<Id>, i: nat, seen: set<Id>)
    requires i < |list|
    ensures var new_ := Missing(p, Args(p, list[i]), seen + {list[i]});
      Fill(p, list[i..], seen) == new_ + [list[i]] + Fill(p, list[i + 1..], seen + {list[i]} + Elements(new_))
  {
    assert list[i..][0] == list[i] && list[i..][1..] == list[i + 1..];
  }

  lemma FillAllFrom(p: Program, blocks: seq<seq<Id>>, b: nat, seen: set<Id>)
    requires b < |blocks|
    ensures var first := Fill(p, blocks[b], seen);
      FillAll(p, blocks[b..], seen) == [first] + FillAll(p, blocks[b + 1..], seen + Elements(first))
  {
    assert blocks[b..][0] == blocks[b] && blocks[b..][1..] == blocks[b + 1..];
  }
}
