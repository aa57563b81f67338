/** Where constants stand: in front of their users, once the pass that puts them there has run and in all that
    comes after it. */
module PointerPlaced {
  import opened PointerIr
  import PointerConstants
  import PointerConvert
  import PointerAddress
  import PointerLoads
  import PointerHoist

  /** The value at a place of a list uses the constant. */
  ghost predicate UsesConstant(p: Program, list: seq<Id>, i: nat, c: Id) {
    && i < |list| && list[i] in p.nodes && c in p.nodes[list[i]].args
    && c in p.nodes && p.nodes[c].kind.Constant?
  }

  /** Every constant stands in front of its users: earlier in the block of the user, or in an earlier block. */
  ghost predicate Placed(p: Program) {
    forall b: nat, i: nat, c :: b < |p.blocks| && UsesConstant(p, p.blocks[b], i, c) ==>
      Before(p.blocks, b, i, c)
  }

  ghost predicate Before(blocks: seq<seq<Id>>, b: nat, i: nat, c: Id)
    requires b < |blocks| && i <= |blocks[b]|
  {
    c in blocks[b][..i] || exists a :: 0 <= a < b && c in blocks[a]
  }

  // ---------- the pass ----------

  lemma {:induction false} FillPlaced(p: Program, list: seq<Id>, seen: set<Id>, i: nat, c: Id)
    requires PointerConstants.ConstantsClosed(p) && UsesConstant(p, PointerConstants.Fill(p, list, seen), i, c)
    ensures c in seen || c in PointerConstants.Fill(p, list, seen)[..i]
    decreases |list|
  {
    var u := list[0];
    var new_ := PointerConstants.Missing(p, PointerConstants.Args(p, u), seen + {u});
    var next := seen + {u} + PointerConstants.Elements(new_);
    var rest := PointerConstants.Fill(p, list[1..], next);
    var r := PointerConstants.Fill(p, list, seen);
    assert r == new_ + ([u] + rest);
    PointerConstants.MissingConstants(p, PointerConstants.Args(p, u), seen + {u});
    assert forall j :: 0 <= j < |new_| ==> r[j] in new_;
    assert i >= |new_|;
    if i == |new_| {
      assert r[i] == u && r[..i] == new_;
    } else {
      var j := i - |new_| - 1;
      assert rest[j] == r[i] && r[..i] == new_ + [u] + rest[..j];
      FillPlaced(p, list[1..], next, j, c);
    }
  }

  lemma {:induction false} FillAllPlaced(p: Program, blocks: seq<seq<Id>>, seen: set<Id>, b: nat, i: nat, c: Id)
    requires PointerConstants.ConstantsClosed(p) && b < |PointerConstants.FillAll(p, blocks, seen)|
    requires UsesConstant(p, PointerConstants.FillAll(p, blocks, seen)[b], i, c)
    ensures c in seen || Before(PointerConstants.FillAll(p, blocks, seen), b, i, c)
    decreases |blocks|
  {
    hide PointerConstants.Fill, PointerConstants.ConstantsClosed;
    var first := PointerConstants.Fill(p, blocks[0], seen);
    var next := seen + PointerConstants.Elements(first);
    var rest := PointerConstants.FillAll(p, blocks[1..], next);
    var r := PointerConstants.FillAll(p, blocks, seen);
    assert r == [first] + rest && r[0] == first;
    if b == 0 {
      FillPlaced(p, blocks[0], seen, i, c);
    } else {
      assert r[b] == rest[b - 1];
      FillAllPlaced(p, blocks[1..], next, b - 1, i, c);
      if c in first {
        assert c in r[0];
      } else if a :| 0 <= a < b - 1 && c in rest[a] {
        assert c in r[a + 1];
      }
    }
  }

  /** After the pass every constant stands in front of its users. */
  lemma ConstantsPlaced(p: Program)
    requires PointerConstants.ConstantsClosed(p)
    ensures Placed(PointerConstants.WithConstants(p))
  {
    hide PointerConstants.FillAll, PointerConstants.ConstantsClosed, Before;
    var q := PointerConstants.WithConstants(p);
    forall b: nat, i: nat, c | b < |q.blocks| && UsesConstant(q, q.blocks[b], i, c) ensures Before(q.blocks, b, i, c) {
      FillAllPlaced(p, p.blocks, {}, b, i, c);
    }
  }

  // ---------- nothing else ----------

  /** The old values stand at these places of the new list, in their order, and the last one at its end. */
  ghost predicate Stand(list: seq<Id>, r: seq<Id>, at: seq<nat>) {
    && |at| == |list| && (forall i :: 0 <= i < |at| ==> at[i] < |r| && r[at[i]] == list[i])
    && (forall i, j :: 0 <= i < j < |at| ==> at[i] < at[j])
    && (r != [] ==> at != [] && at[|at| - 1] == |r| - 1)
  }

  /** The place is between the i-th old value and the one before it. */
  ghost predicate Between(at: seq<nat>, i: nat, j: nat) {
    i < |at| && j < at[i] && (i > 0 ==> at[i - 1] < j)
  }

  /** A constant that was put in front of a value is one of its operands, and stands nowhere before. */
  ghost predicate IsNew(p: Program, u: Id, r: seq<Id>, j: nat, before: set<Id>)
    requires j < |r|
  {
    && u in p.nodes && r[j] in p.nodes[u].args && r[j] in p.nodes && p.nodes[r[j]].kind.Constant?
    && r[j] !in r[..j] && r[j] !in before
  }

  /** Of two of them the first is the operand that comes first. */
  ghost predicate InOrder(args: seq<Id>, x: Id, y: Id) {
    exists k :: 0 <= k < |args| && args[k] == x && y !in args[..k + 1]
  }

  lemma OrderMore(c: Id, args: seq<Id>, x: Id, y: Id)
    requires y != c && (x == c || InOrder(args, x, y))
    ensures InOrder([c] + args, x, y)
  {
    var all := [c] + args;
    if x == c {
      assert all[0] == x && all[..1] == [c];
    } else {
      var k :| 0 <= k < |args| && args[k] == x && y !in args[..k + 1];
      assert all[k + 1] == x && all[..k + 2] == [c] + args[..k + 1];
    }
  }

  lemma MissingStep(p: Program, args: seq<Id>, seen: set<Id>)
    requires args != []
    ensures var takes := args[0] !in seen && PointerConstants.IsConstant(p, args[0]);
      PointerConstants.Missing(p, args, seen) ==
        if takes then [args[0]] + PointerConstants.Missing(p, args[1..], seen + {args[0]})
        else PointerConstants.Missing(p, args[1..], seen)
  {
  }

  lemma MissingOne(p: Program, args: seq<Id>, seen: set<Id>, j: nat)
    requires j < |PointerConstants.Missing(p, args, seen)|
    ensures var o := PointerConstants.Missing(p, args, seen)[j]; PointerConstants.IsConstant(p, o) && o !in seen
  {
    PointerConstants.MissingConstants(p, args, seen);
    hide PointerConstants.Missing;
    var new_ := PointerConstants.Missing(p, args, seen);
    assert new_[j] in new_;
  }

  lemma {:induction false} MissingOrder(p: Program, args: seq<Id>, seen: set<Id>, i: nat, j: nat)
    requires i < j < |PointerConstants.Missing(p, args, seen)|
    ensures var new_ := PointerConstants.Missing(p, args, seen);
      new_[i] != new_[j] && InOrder(args, new_[i], new_[j])
    decreases |args|
  {
    assert args != [];
    MissingStep(p, args, seen);
    hide InOrder, PointerConstants.Missing;
    var new_ := PointerConstants.Missing(p, args, seen);
    var c := args[0];
    var takes := c !in seen && PointerConstants.IsConstant(p, c);
    var next := if takes then seen + {c} else seen;
    var rest := PointerConstants.Missing(p, args[1..], next);
    var d := if takes then 1 else 0;
    assert new_[j] == rest[j - d];
    MissingOne(p, args[1..], next, j - d);
    if !(takes && i == 0) {
      assert new_[i] == rest[i - d];
      MissingOrder(p, args[1..], next, i - d, j - d);
    }
    OrderMore(c, args[1..], new_[i], new_[j]);
    assert [c] + args[1..] == args;
  }

  /** All that the pass changes in a list: the old values stand in their order, and in front of each stand
      those of its constant operands that stand nowhere before, each once and in their order. */
  ghost predicate OnlyMissing(p: Program, list: seq<Id>, r: seq<Id>, before: set<Id>, at: seq<nat>) {
    && Stand(list, r, at)
    && (forall i: nat, j: nat :: Between(at, i, j) ==> IsNew(p, list[i], r, j, before))
    && (forall i: nat, j: nat, k: nat :: Between(at, i, j) && Between(at, i, k) && j < k ==>
          list[i] in p.nodes && InOrder(p.nodes[list[i]].args, r[j], r[k]))
  }

  lemma MissingNew(p: Program, u: Id, seen: set<Id>, r: seq<Id>, rest: seq<Id>, j: nat)
    requires r == PointerConstants.Missing(p, PointerConstants.Args(p, u), seen + {u}) + rest
    requires j < |r| - |rest|
    ensures IsNew(p, u, r, j, seen)
  {
    var args := PointerConstants.Args(p, u);
    var new_ := PointerConstants.Missing(p, args, seen + {u});
    PointerConstants.MissingConstants(p, args, seen + {u});
    MissingAmong(p, args, seen + {u}, new_[j]);
    assert new_[j] in new_ && r[j] == new_[j];
    forall i | 0 <= i < j ensures r[i] != r[j] {
      MissingOrder(p, args, seen + {u}, i, j);
    }
  }

  lemma {:induction false} MissingAmong(p: Program, args: seq<Id>, seen: set<Id>, c: Id)
    requires c in PointerConstants.Missing(p, args, seen)
    ensures c in args
  {
    if c != args[0] {
      MissingAmong(p, args[1..],
        if args[0] !in seen && PointerConstants.IsConstant(p, args[0]) then seen + {args[0]} else seen, c);
    }
  }

  ghost function Shifted(at: seq<nat>, n: nat): seq<nat> {
    [n] + seq(|at|, i requires 0 <= i < |at| => at[i] + n + 1)
  }

  lemma {:induction false} FillOnly(p: Program, list: seq<Id>, seen: set<Id>) returns (at: seq<nat>)
    ensures OnlyMissing(p, list, PointerConstants.Fill(p, list, seen), seen, at)
    decreases |list|
  {
    at := [];
    if list != [] {
      var u := list[0];
      var new_ := PointerConstants.Missing(p, PointerConstants.Args(p, u), seen + {u});
      var next := seen + {u} + PointerConstants.Elements(new_);
      var rest := PointerConstants.Fill(p, list[1..], next);
      var below := FillOnly(p, list[1..], next);
      at := Shifted(below, |new_|);
      assert PointerConstants.Fill(p, list, seen) == new_ + [u] + rest;
      OneFilled(p, list, seen, new_, rest, below);
    }
  }

  /** The first value with what is put in front of it, and the rest. */
  ghost predicate Filled(p: Program, list: seq<Id>, seen: set<Id>, new_: seq<Id>, rest: seq<Id>, below: seq<nat>) {
    && list != [] && new_ == PointerConstants.Missing(p, PointerConstants.Args(p, list[0]), seen + {list[0]})
    && OnlyMissing(p, list[1..], rest, seen + {list[0]} + PointerConstants.Elements(new_), below)
  }

  lemma OneFilled(p: Program, list: seq<Id>, seen: set<Id>, new_: seq<Id>, rest: seq<Id>, below: seq<nat>)
    requires Filled(p, list, seen, new_, rest, below)
    ensures OnlyMissing(p, list, new_ + [list[0]] + rest, seen, Shifted(below, |new_|))
  {
    var at := Shifted(below, |new_|);
    var r := new_ + [list[0]] + rest;
    StandMore(list, rest, new_, below);
    hide Filled, IsNew, InOrder, Shifted, Between, Stand;
    forall i: nat, j: nat | Between(at, i, j) ensures i < |list| && j < |r| && IsNew(p, list[i], r, j, seen) {
      FilledNew(p, list, seen, new_, rest, below, i, j);
    }
    forall i: nat, j: nat, k: nat | Between(at, i, j) && Between(at, i, k) && j < k
      ensures i < |list| && k < |r| && list[i] in p.nodes && InOrder(p.nodes[list[i]].args, r[j], r[k])
    {
      FilledOrder(p, list, seen, new_, rest, below, i, j, k);
    }
  }

  lemma StandMore(list: seq<Id>, rest: seq<Id>, new_: seq<Id>, below: seq<nat>)
    requires list != [] && Stand(list[1..], rest, below)
    ensures Stand(list, new_ + [list[0]] + rest, Shifted(below, |new_|))
  {
    var n, at := |new_|, Shifted(below, |new_|);
    var r := new_ + [list[0]] + rest;
    forall i | 0 <= i < |at| ensures at[i] < |r| && r[at[i]] == list[i] {
      if i > 0 {
        assert at[i] == below[i - 1] + n + 1 && list[i] == list[1..][i - 1];
        assert r[at[i]] == rest[below[i - 1]];
      }
    }
  }

  lemma OneMissing(p: Program, list: seq<Id>, r: seq<Id>, before: set<Id>, at: seq<nat>, i: nat, j: nat)
    requires OnlyMissing(p, list, r, before, at) && Between(at, i, j)
    ensures i < |list| && j < |r| && IsNew(p, list[i], r, j, before)
  {
  }

  lemma TwoMissing(p: Program, list: seq<Id>, r: seq<Id>, before: set<Id>, at: seq<nat>, i: nat, j: nat, k: nat)
    requires OnlyMissing(p, list, r, before, at) && Between(at, i, j) && Between(at, i, k) && j < k
    ensures i < |list| && k < |r| && list[i] in p.nodes && InOrder(p.nodes[list[i]].args, r[j], r[k])
  {
  }

  lemma BetweenBelow(below: seq<nat>, n: nat, i: nat, j: nat)
    requires Between(Shifted(below, n), i, j)
    ensures if i == 0 then j < n else j > n && Between(below, i - 1, j - n - 1)
  {
  }

  lemma FilledNew(p: Program, list: seq<Id>, seen: set<Id>, new_: seq<Id>, rest: seq<Id>, below: seq<nat>, i: nat,
      j: nat)
    requires Filled(p, list, seen, new_, rest, below) && Between(Shifted(below, |new_|), i, j)
    ensures i < |list| && j < |new_ + [list[0]] + rest|
    ensures IsNew(p, list[i], new_ + [list[0]] + rest, j, seen)
  {
    BetweenBelow(below, |new_|, i, j);
    hide PointerConstants.Missing, InOrder, Shifted, OnlyMissing, IsNew;
    var u := list[0];
    if i == 0 {
      assert new_ + [u] + rest == new_ + ([u] + rest);
      MissingNew(p, u, seen, new_ + [u] + rest, [u] + rest, j);
    } else {
      var k := j - |new_| - 1;
      assert list[i] == list[1..][i - 1];
      OneMissing(p, list[1..], rest, seen + {u} + PointerConstants.Elements(new_), below, i - 1, k);
      NewBelow(p, list[i], new_, u, rest, k, seen);
    }
  }

  lemma NewBelow(p: Program, v: Id, new_: seq<Id>, u: Id, rest: seq<Id>, k: nat, seen: set<Id>)
    requires k < |rest| && IsNew(p, v, rest, k, seen + {u} + PointerConstants.Elements(new_))
    ensures IsNew(p, v, new_ + [u] + rest, |new_| + 1 + k, seen)
  {
    var r := new_ + [u] + rest;
    assert r[|new_| + 1 + k] == rest[k] && r[..|new_| + 1 + k] == new_ + [u] + rest[..k];
  }

  lemma FilledOrder(p: Program, list: seq<Id>, seen: set<Id>, new_: seq<Id>, rest: seq<Id>, below: seq<nat>, i: nat,
      j: nat, k: nat)
    requires Filled(p, list, seen, new_, rest, below) && j < k
    requires Between(Shifted(below, |new_|), i, j) && Between(Shifted(below, |new_|), i, k)
    ensures i < |list| && k < |new_ + [list[0]] + rest|
    ensures var r := new_ + [list[0]] + rest;
      list[i] in p.nodes && InOrder(p.nodes[list[i]].args, r[j], r[k])
  {
    BetweenBelow(below, |new_|, i, j);
    BetweenBelow(below, |new_|, i, k);
    hide OnlyMissing, InOrder, PointerConstants.Missing, PointerConstants.Elements, Shifted, Between;
    if i == 0 {
      FirstOrder(p, list[0], seen, new_, j, k);
      InFront(new_, list[0], rest, j);
      InFront(new_, list[0], rest, k);
    } else {
      RestOrder(p, list, seen, new_, rest, below, i, j, k);
    }
  }

  lemma InFront(new_: seq<Id>, u: Id, rest: seq<Id>, j: nat)
    requires j < |new_|
    ensures (new_ + [u] + rest)[j] == new_[j]
  {
  }

  lemma InRest(new_: seq<Id>, u: Id, rest: seq<Id>, j: nat)
    requires |new_| < j < |new_| + 1 + |rest|
    ensures (new_ + [u] + rest)[j] == rest[j - |new_| - 1]
  {
  }

  lemma RestOrder(p: Program, list: seq<Id>, seen: set<Id>, new_: seq<Id>, rest: seq<Id>, below: seq<nat>, i: nat,
      j: nat, k: nat)
    requires Filled(p, list, seen, new_, rest, below) && |new_| < j < k && i > 0
    requires Between(below, i - 1, j - |new_| - 1) && Between(below, i - 1, k - |new_| - 1)
    ensures i < |list| && k < |new_ + [list[0]] + rest|
    ensures var r := new_ + [list[0]] + rest;
      list[i] in p.nodes && InOrder(p.nodes[list[i]].args, r[j], r[k])
  {
    var before := seen + {list[0]} + PointerConstants.Elements(new_);
    assert OnlyMissing(p, list[1..], rest, before, below);
    hide OnlyMissing, Filled, InOrder, PointerConstants.Elements, Between;
    TwoMissing(p, list[1..], rest, before, below, i - 1, j - |new_| - 1, k - |new_| - 1);
    assert list[i] == list[1..][i - 1];
    InRest(new_, list[0], rest, j);
    InRest(new_, list[0], rest, k);
  }

  lemma FirstOrder(p: Program, u: Id, seen: set<Id>, new_: seq<Id>, j: nat, k: nat)
    requires new_ == PointerConstants.Missing(p, PointerConstants.Args(p, u), seen + {u}) && j < k < |new_|
    ensures u in p.nodes && InOrder(p.nodes[u].args, new_[j], new_[k])
  {
    MissingOrder(p, PointerConstants.Args(p, u), seen + {u}, j, k);
  }

  /** All that the pass changes in a program. */
  lemma {:induction false} FillAllOnly(p: Program, blocks: seq<seq<Id>>, seen: set<Id>, b: nat)
    returns (before: set<Id>, at: seq<nat>)
    requires b < |blocks|
    ensures |PointerConstants.FillAll(p, blocks, seen)| == |blocks|
    ensures forall o :: o in before <==>
      o in seen || exists a :: 0 <= a < b && o in PointerConstants.FillAll(p, blocks, seen)[a]
    ensures OnlyMissing(p, blocks[b], PointerConstants.FillAll(p, blocks, seen)[b], before, at)
    decreases |blocks|
  {
    hide OnlyMissing, PointerConstants.Fill;
    var first := PointerConstants.Fill(p, blocks[0], seen);
    var next := seen + PointerConstants.Elements(first);
    var rest := PointerConstants.FillAll(p, blocks[1..], next);
    var r := PointerConstants.FillAll(p, blocks, seen);
    assert r == [first] + rest;
    PointerConstants.FillAllLength(p, blocks, seen);
    if b == 0 {
      before := seen;
      at := FillOnly(p, blocks[0], seen);
    } else {
      before, at := FillAllOnly(p, blocks[1..], next, b - 1);
      forall o ensures o in before <==> o in seen || exists a :: 0 <= a < b && o in r[a] {
        if o in first {
          assert o in r[0];
        }
        if a :| 0 <= a < b - 1 && o in rest[a] {
          assert o in r[a + 1];
        }
        if a :| 0 <= a < b && o in r[a] {
          assert a == 0 || o in rest[a - 1];
        }
      }
    }
  }

  lemma ConstantsOnly(p: Program, b: nat) returns (before: set<Id>, at: seq<nat>)
    requires b < |p.blocks|
    ensures var q := PointerConstants.WithConstants(p);
      && q.nodes == p.nodes && |q.blocks| == |p.blocks|
      && (forall o :: o in before <==> exists a :: 0 <= a < b && o in q.blocks[a])
      && OnlyMissing(p, p.blocks[b], q.blocks[b], before, at)
  {
    before, at := FillAllOnly(p, p.blocks, {}, b);
  }

  // ---------- what comes after ----------

  /** No dereference has a constant for its pointer: constants are numbers. */
  ghost predicate PointersPlain(p: Program) {
    forall o :: Unary(p, o, Deref) ==> !PointerConstants.IsConstant(p, p.nodes[o].args[0])
  }

  lemma ConvertedPlain(p: Program, n: Id)
    requires PointerConvert.Convertible(p, n) && PointersPlain(p)
    ensures PointersPlain(PointerConvert.Converted(p, n))
  {
    var q := PointerConvert.Converted(p, n);
    forall o | Unary(q, o, Deref) ensures !PointerConstants.IsConstant(q, q.nodes[o].args[0]) {
      PointerConvert.ConvertedNode(p, n, o);
      PointerConvert.ConvertedNode(p, n, q.nodes[o].args[0]);
      PointerConvert.ConvertedNode(p, n, n);
      if o in p.nodes && o != n {
        assert Unary(p, o, Deref);
      }
    }
  }

  lemma WithoutPlain(p: Program, g: Id)
    requires PointerAddress.Removable(p, g) && PointersPlain(p)
    ensures PointersPlain(PointerAddress.WithoutAddress(p, g))
  {
    var q := PointerAddress.WithoutAddress(p, g);
    var a := PointerAddress.PointerBehind(p, g);
    assert !PointerConstants.IsConstant(p, a);
    forall o | Unary(q, o, Deref) ensures !PointerConstants.IsConstant(q, q.nodes[o].args[0]) {
      PointerAddress.RemovableNode(p, g, o);
      PointerAddress.RemovableNode(p, g, q.nodes[o].args[0]);
      assert Unary(p, o, Deref);
    }
  }

  lemma LoadedPlain(p: Program, d: Id)
    requires PointerLoads.Loadable(p, d) && PointersPlain(p)
    ensures PointersPlain(PointerLoads.Loaded(p, d))
  {
    var q := PointerLoads.Loaded(p, d);
    forall o | Unary(q, o, Deref) ensures !PointerConstants.IsConstant(q, q.nodes[o].args[0]) {
      PointerLoads.LoadedNode(p, d, o);
      PointerLoads.LoadedNode(p, d, q.nodes[o].args[0]);
      assert Unary(p, o, Deref);
    }
  }

  // ---------- loads and stores ----------

  lemma {:induction false} LoadListHas(p: Program, d: Id, list: seq<Id>, c: Id)
    requires c in list && c != d
    ensures c in PointerLoads.LoadList(p, d, list)
  {
    if c != list[0] {
      LoadListHas(p, d, list[1..], c);
    }
  }

  /** Where a value of the new list comes from: it is a load, or it stood in the old list, and whatever stood in
      front of it there still does. */
  ghost predicate Comes(d: Id, list: seq<Id>, r: seq<Id>, i: nat, from: nat) {
    i < |r| && (
      || PointerLoads.LoadedFor(d, r[i])
      || (from < |list| && list[from] == r[i] && r[i] != d
          && forall c :: c in list[..from] && c != d ==> c in r[..i]))
  }

  lemma ComesBelow(d: Id, list: seq<Id>, head: seq<Id>, rest: seq<Id>, j: nat, below: nat)
    requires list != [] && Comes(d, list[1..], rest, j, below) && (list[0] == d || list[0] in head)
    ensures Comes(d, list, head + rest, |head| + j, below + 1)
  {
    var r := head + rest;
    assert r[|head| + j] == rest[j] && r[..|head| + j] == head + rest[..j];
    if !PointerLoads.LoadedFor(d, rest[j]) {
      assert list[..below + 1] == [list[0]] + list[1..][..below];
    }
  }

  lemma LoadListStep(p: Program, d: Id, list: seq<Id>)
    requires list != []
    ensures var x := list[0];
      var loads := if x != d && x in p.nodes then PointerLoads.Loads(d, x, p.nodes[x], 0) else [];
      PointerLoads.LoadList(p, d, list) == (if x == d then [] else loads + [x]) + PointerLoads.LoadList(p, d, list[1..])
  {
    assert [] + [list[0]] == [list[0]];
  }

  lemma {:induction false} LoadListFrom(p: Program, d: Id, list: seq<Id>, i: nat) returns (from: nat)
    requires i < |PointerLoads.LoadList(p, d, list)|
    ensures Comes(d, list, PointerLoads.LoadList(p, d, list), i, from)
    decreases |list|
  {
    assert list != [];
    LoadListStep(p, d, list);
    hide PointerLoads.Loads, PointerLoads.LoadList;
    var x, rest := list[0], PointerLoads.LoadList(p, d, list[1..]);
    var loads := if x != d && x in p.nodes then PointerLoads.Loads(d, x, p.nodes[x], 0) else [];
    var head := if x == d then [] else loads + [x];
    var r := PointerLoads.LoadList(p, d, list);
    from := 0;
    if i >= |head| {
      var below := LoadListFrom(p, d, list[1..], i - |head|);
      assert x != d ==> head[|loads|] == x;
      ComesBelow(d, list, head, rest, i - |head|, below);
      from := below + 1;
    } else if i < |loads| {
      LoadsFor(d, x, p.nodes[x], 0, r[i]);
    } else {
      assert r[i] == head[i] == x;
    }
  }

  lemma {:induction false} LoadsFor(d: Id, u: Id, node: Node, k: nat, o: Id)
    requires k <= |node.args| && o in PointerLoads.Loads(d, u, node, k)
    ensures PointerLoads.LoadedFor(d, o)
    decreases |node.args| - k
  {
    if k < |node.args| && o in PointerLoads.Loads(d, u, node, k + 1) {
      LoadsFor(d, u, node, k + 1, o);
    }
  }

  /** A constant operand of a value of the new program was one of the old, of a value that stood there. */
  lemma LoadedUses(p: Program, d: Id, b: nat, i: nat, c: Id) returns (from: nat)
    requires PointerLoads.Loadable(p, d) && PointersPlain(p) && b < |p.blocks|
    requires UsesConstant(PointerLoads.Loaded(p, d), PointerLoads.Loaded(p, d).blocks[b], i, c)
    ensures UsesConstant(p, p.blocks[b], from, c) && c != d
    ensures forall x :: x in p.blocks[b][..from] && x != d ==> x in PointerLoads.Loaded(p, d).blocks[b][..i]
  {
    hide PointerLoads.LoadList;
    var q := PointerLoads.Loaded(p, d);
    var u := q.blocks[b][i];
    from := LoadListFrom(p, d, p.blocks[b], i);
    PointerLoads.LoadedNode(p, d, u);
    PointerLoads.LoadedNode(p, d, c);
    assert !PointerConstants.IsConstant(p, p.nodes[d].args[0]);
    PointerLoads.LoadedNode(p, d, p.nodes[d].args[0]);
    assert u in p.nodes && u != d by {
      assert !PointerLoads.LoadUse(p, d, u);
    }
    var k :| 0 <= k < |q.nodes[u].args| && q.nodes[u].args[k] == c;
    assert p.nodes[u].args[k] == c;
  }

  lemma LoadedPlaced(p: Program, d: Id)
    requires PointerLoads.Loadable(p, d) && PointersPlain(p) && Placed(p)
    ensures Placed(PointerLoads.Loaded(p, d))
  {
    hide PointerLoads.LoadList, UsesConstant, PointersPlain;
    var q := PointerLoads.Loaded(p, d);
    forall b: nat, i: nat, c | b < |q.blocks| && UsesConstant(q, q.blocks[b], i, c)
      ensures i <= |q.blocks[b]| && Before(q.blocks, b, i, c)
    {
      UseInside(q, q.blocks[b], i, c);
      var from := LoadedUses(p, d, b, i, c);
      UseInside(p, p.blocks[b], from, c);
      assert Before(p.blocks, b, from, c);
      if c !in p.blocks[b][..from] {
        var a :| 0 <= a < b && c in p.blocks[a];
        LoadListHas(p, d, p.blocks[a], c);
        assert c in q.blocks[a];
      }
    }
  }

  lemma UseInside(p: Program, list: seq<Id>, i: nat, c: Id)
    requires UsesConstant(p, list, i, c)
    ensures i < |list|
  {
  }

  // ---------- hoisting ----------

  lemma {:induction false} RestFrom(nodes: map<Id, Node>, list: seq<Id>, i: nat) returns (from: nat)
    requires i < |PointerHoist.Rest(nodes, list)|
    ensures from < |list| && list[from] == PointerHoist.Rest(nodes, list)[i]
    ensures forall c :: c in list[..from] && !PointerHoist.Movable(nodes, c) ==>
      c in PointerHoist.Rest(nodes, list)[..i]
    decreases |list|
  {
    var x, rest := list[0], PointerHoist.Rest(nodes, list[1..]);
    var head := if PointerHoist.Movable(nodes, x) then [] else [x];
    var r := PointerHoist.Rest(nodes, list);
    assert r == head + rest;
    from := 0;
    if i >= |head| {
      var j := i - |head|;
      assert r[i] == rest[j] && r[..i] == head + rest[..j];
      var below := RestFrom(nodes, list[1..], j);
      from := below + 1;
      assert list[..from] == [x] + list[1..][..below];
    }
  }

  lemma HoistedPlaced(p: Program)
    requires Placed(p)
    ensures Placed(PointerHoist.Hoisted(p))
  {
    hide PointerHoist.Rest, PointerHoist.LiftedAll;
    var q := PointerHoist.Hoisted(p);
    if p.blocks != [] {
      var lifted := PointerHoist.LiftedAll(p.nodes, p.blocks[1..]);
      forall b: nat, i: nat, c | b < |q.blocks| && UsesConstant(q, q.blocks[b], i, c)
        ensures Before(q.blocks, b, i, c)
      {
        if b == 0 {
          FirstPlaced(p, lifted, i, c);
        } else {
          var from := RestFrom(p.nodes, p.blocks[b], i);
          assert UsesConstant(p, p.blocks[b], from, c) && Before(p.blocks, b, from, c);
          if c !in p.blocks[b][..from] {
            var a :| 0 <= a < b && c in p.blocks[a];
            PointerHoist.RestHasNone(p.nodes, p.blocks[a]);
            assert c in q.blocks[a];
          }
        }
      }
    }
  }

  lemma FirstPlaced(p: Program, lifted: seq<Id>, i: nat, c: Id)
    requires Placed(p) && p.blocks != [] && lifted == PointerHoist.LiftedAll(p.nodes, p.blocks[1..])
    requires UsesConstant(p, lifted + p.blocks[0], i, c)
    ensures c in (lifted + p.blocks[0])[..i]
  {
    if i < |lifted| {
      LiftedMovable(p.nodes, p.blocks[1..], lifted[i]);
    }
    assert i >= |lifted|;
    var from := i - |lifted|;
    assert UsesConstant(p, p.blocks[0], from, c) && Before(p.blocks, 0, from, c);
    assert (lifted + p.blocks[0])[..i] == lifted + p.blocks[0][..from];
  }

  lemma {:induction false} LiftedMovable(nodes: map<Id, Node>, blocks: seq<seq<Id>>, o: Id)
    requires o in PointerHoist.LiftedAll(nodes, blocks)
    ensures PointerHoist.Movable(nodes, o)
    decreases |blocks|
  {
    PointerHoist.RestHasNone(nodes, blocks[0]);
    if o in PointerHoist.LiftedAll(nodes, blocks[1..]) {
      LiftedMovable(nodes, blocks[1..], o);
    }
  }
}
