/** Where the new nodes of a conversion stand: right in front of the user they are for. */
module PointerInFront {
  import opened PointerIr
  import opened PointerPlaced
  import opened PointerEdit
  import PointerConvert
  import PointerAddress
  import PointerLoads

  /** What stands in front of a value are new nodes for those of its operands that are edited, one each and in
      the order of the operands. */
  ghost predicate OnlyEdits(e: Edit, p: Program, list: seq<Id>, r: seq<Id>, at: seq<nat>) {
    && Stand(list, r, at)
    && (forall i: nat, j: nat :: Between(at, i, j) ==> IsEdit(e, p, list[i], r[j]))
    && (forall i: nat, j: nat, k: nat :: Between(at, i, j) && Between(at, i, k) && j < k ==>
          Operand(r[j]) < Operand(r[k]))
    && (forall i: nat, o :: i < |at| && IsEdit(e, p, list[i], o) ==> exists j: nat :: Between(at, i, j) && r[j] == o)
  }

  ghost predicate IsEdit(e: Edit, p: Program, u: Id, o: Id) {
    u in p.nodes && exists k: nat :: MadeAt(e, u, p.nodes[u], k, o)
  }

  function Operand(o: Id): nat {
    if o.Orig? then 0 else o.k
  }

  lemma {:induction false} MadeOrder(e: Edit, u: Id, node: Node, n: nat, j: nat, k: nat)
    requires n <= |node.args| && j < k < |MadeList(e, u, node, n)|
    ensures Operand(MadeList(e, u, node, n)[j]) < Operand(MadeList(e, u, node, n)[k])
    decreases n
  {
    var before := MadeList(e, u, node, n - 1);
    MadeBelow(e, u, node, n - 1, j);
    if k < |before| {
      MadeOrder(e, u, node, n - 1, j, k);
    }
  }

  lemma {:induction false} MadeBelow(e: Edit, u: Id, node: Node, n: nat, j: nat)
    requires n <= |node.args|
    ensures j < |MadeList(e, u, node, n)| ==> Operand(MadeList(e, u, node, n)[j]) < n
  {
    if n > 0 && j < |MadeList(e, u, node, n - 1)| {
      MadeBelow(e, u, node, n - 1, j);
    }
  }

  /** The new nodes in front of one value. */
  ghost function NewBefore(e: Edit, p: Program, u: Id): seq<Id> {
    if u in p.nodes then MadeList(e, u, p.nodes[u], |p.nodes[u].args|) else []
  }

  lemma NewBeforeIs(e: Edit, p: Program, u: Id)
    ensures forall o :: o in NewBefore(e, p, u) <==> IsEdit(e, p, u, o)
    ensures forall j: nat, k: nat :: j < k < |NewBefore(e, p, u)| ==>
      Operand(NewBefore(e, p, u)[j]) < Operand(NewBefore(e, p, u)[k])
  {
    hide MadeList;
    if u in p.nodes {
      var n := |p.nodes[u].args|;
      forall o ensures o in NewBefore(e, p, u) <==> IsEdit(e, p, u, o) {
        MadeListHolds(e, u, p.nodes[u], n, o);
        if k: nat :| MadeAt(e, u, p.nodes[u], k, o) {
          assert k < n;
        }
      }
      forall j: nat, k: nat | j < k < |NewBefore(e, p, u)|
        ensures Operand(NewBefore(e, p, u)[j]) < Operand(NewBefore(e, p, u)[k])
      {
        MadeOrder(e, u, p.nodes[u], n, j, k);
      }
    }
  }

  lemma BetweenAbove(below: seq<nat>, n: nat, i: nat, j: nat)
    ensures j < n ==> Between(Shifted(below, n), 0, j)
    ensures Between(below, i, j) ==> Between(Shifted(below, n), i + 1, j + n + 1)
  {
  }

  lemma EditsMore(e: Edit, p: Program, list: seq<Id>, rest: seq<Id>, below: seq<nat>)
    requires list != [] && OnlyEdits(e, p, list[1..], rest, below)
    ensures var new_ := NewBefore(e, p, list[0]);
      OnlyEdits(e, p, list, new_ + [list[0]] + rest, Shifted(below, |new_|))
  {
    var u, new_ := list[0], NewBefore(e, p, list[0]);
    var n, at, r := |new_|, Shifted(below, |new_|), new_ + [u] + rest;
    NewBeforeIs(e, p, u);
    StandMore(list, rest, new_, below);
    hide NewBefore, IsEdit, Shifted, Between, Operand;
    forall i: nat, j: nat | Between(at, i, j) ensures i < |list| && j < |r| && IsEdit(e, p, list[i], r[j]) {
      EditBelow(e, p, list, rest, below, i, j);
    }
    forall i: nat, j: nat, k: nat | Between(at, i, j) && Between(at, i, k) && j < k
      ensures k < |r| && Operand(r[j]) < Operand(r[k])
    {
      EditsOrdered(e, p, list, rest, below, i, j, k);
    }
    forall i: nat, o | i < |at| && IsEdit(e, p, list[i], o) ensures exists j: nat :: Between(at, i, j) && r[j] == o {
      var j := EditFound(e, p, list, rest, below, i, o);
      assert Between(at, i, j) && r[j] == o;
    }
  }

  lemma EditBelow(e: Edit, p: Program, list: seq<Id>, rest: seq<Id>, below: seq<nat>, i: nat, j: nat)
    requires list != [] && OnlyEdits(e, p, list[1..], rest, below)
    requires Between(Shifted(below, |NewBefore(e, p, list[0])|), i, j)
    ensures var r := NewBefore(e, p, list[0]) + [list[0]] + rest; i < |list| && j < |r| && IsEdit(e, p, list[i], r[j])
  {
    var new_ := NewBefore(e, p, list[0]);
    BetweenBelow(below, |new_|, i, j);
    NewBeforeIs(e, p, list[0]);
    hide NewBefore, IsEdit, Shifted;
    if i == 0 {
      InFront(new_, list[0], rest, j);
      assert new_[j] in new_;
    } else {
      assert Between(below, i - 1, j - |new_| - 1);
      InRest(new_, list[0], rest, j);
      assert list[i] == list[1..][i - 1];
    }
  }

  lemma EditsOrdered(e: Edit, p: Program, list: seq<Id>, rest: seq<Id>, below: seq<nat>, i: nat, j: nat,
      k: nat)
    requires list != [] && OnlyEdits(e, p, list[1..], rest, below) && j < k
    requires Between(Shifted(below, |NewBefore(e, p, list[0])|), i, j)
    requires Between(Shifted(below, |NewBefore(e, p, list[0])|), i, k)
    ensures var r := NewBefore(e, p, list[0]) + [list[0]] + rest; k < |r| && Operand(r[j]) < Operand(r[k])
  {
    var new_ := NewBefore(e, p, list[0]);
    BetweenBelow(below, |new_|, i, j);
    BetweenBelow(below, |new_|, i, k);
    NewBeforeIs(e, p, list[0]);
    hide NewBefore, IsEdit, Shifted, Operand;
    if i == 0 {
      InFront(new_, list[0], rest, j);
      InFront(new_, list[0], rest, k);
    } else {
      assert Between(below, i - 1, j - |new_| - 1) && Between(below, i - 1, k - |new_| - 1);
      InRest(new_, list[0], rest, j);
      InRest(new_, list[0], rest, k);
    }
  }

  lemma EditFound(e: Edit, p: Program, list: seq<Id>, rest: seq<Id>, below: seq<nat>, i: nat, o: Id)
    returns (j: nat)
    requires list != [] && OnlyEdits(e, p, list[1..], rest, below) && i < |list| && IsEdit(e, p, list[i], o)
    ensures var r := NewBefore(e, p, list[0]) + [list[0]] + rest;
      Between(Shifted(below, |NewBefore(e, p, list[0])|), i, j) && j < |r| && r[j] == o
  {
    var new_ := NewBefore(e, p, list[0]);
    NewBeforeIs(e, p, list[0]);
    hide NewBefore, IsEdit, Shifted, Operand;
    if i == 0 {
      assert o in new_;
      j :| j < |new_| && new_[j] == o;
      InFront(new_, list[0], rest, j);
      BetweenAbove(below, |new_|, 0, j);
    } else {
      assert list[i] == list[1..][i - 1] && i - 1 < |below|;
      var k: nat :| Between(below, i - 1, k) && rest[k] == o;
      assert k < |rest| by {
        assert below[i - 1] < |rest|;
      }
      j := k + |new_| + 1;
      InRest(new_, list[0], rest, j);
      BetweenAbove(below, |new_|, i - 1, k);
    }
  }

  lemma {:induction false} DoneOnly(e: Edit, p: Program, list: seq<Id>) returns (at: seq<nat>)
    ensures OnlyEdits(e, p, list, DoneList(e, p, Users(e, p), list), at)
  {
    at := [];
    if list != [] {
      var users := Users(e, p);
      var rest := DoneList(e, p, users, list[1..]);
      var below := DoneOnly(e, p, list[1..]);
      DoneFront(e, p, list);
      assert DoneList(e, p, users, list) == NewBefore(e, p, list[0]) + [list[0]] + rest by {
        assert [] + [list[0]] == [list[0]];
      }
      EditsMore(e, p, list, rest, below);
      at := Shifted(below, |NewBefore(e, p, list[0])|);
    }
  }

  // ---------- conversions and loads ----------

  lemma {:induction false} DoneDrop(e: Edit, p: Program, list: seq<Id>)
    requires e.node in p.nodes && Fresh(e, p) && e.node !in p.nodes[e.node].args
    ensures PointerAddress.Drop(e.node, DoneList(e, p, Users(e, p), list))
      == DoneList(e, p, Users(e, p), PointerAddress.Drop(e.node, list))
  {
    if list != [] {
      var x := list[0];
      DoneDrop(e, p, list[1..]);
      DoneFront(e, p, list);
      FrontDropped(e, p, x);
      DropConcat(e.node, PointerEdit.Front(e, p, x), DoneList(e, p, Users(e, p), list[1..]));
      var rest := PointerAddress.Drop(e.node, list[1..]);
      var none: seq<Id> := [];
      assert none + rest == rest && none + DoneList(e, p, Users(e, p), rest) == DoneList(e, p, Users(e, p), rest);
      if x != e.node {
        assert ([x] + rest)[0] == x && ([x] + rest)[1..] == rest;
        DoneFront(e, p, [x] + rest);
      }
    }
    hide MadeList, PointerEdit.Front, Users, Fresh;
  }

  /** The list of a block before the pointer's dereferences are put in: a converted variable leaves it. */
  function Before(p: Program, n: Id, b: nat): seq<Id>
    requires n in p.nodes && b < |p.blocks|
  {
    if p.nodes[n].kind.Local? then PointerAddress.Drop(n, p.blocks[b]) else p.blocks[b]
  }

  /** Right in front of each value of the list stands a dereference of the node for each operand that was the
      node, in the order of the operands, and nothing else is put in. */
  ghost predicate DerefsInFront(p: Program, n: Id, list: seq<Id>, r: seq<Id>, at: seq<nat>) {
    && Stand(list, r, at)
    && (forall i: nat, j: nat :: Between(at, i, j) ==> PointerConvert.UseOf(p, n, r[j]) && r[j].user == list[i])
    && (forall i: nat, j: nat, k: nat :: Between(at, i, j) && Between(at, i, k) && j < k ==> r[j].k < r[k].k)
    && (forall i: nat, k: nat :: i < |list| && PointerConvert.UseOf(p, n, DerefOf(n, list[i], k)) ==>
          exists j: nat :: Between(at, i, j) && r[j] == DerefOf(n, list[i], k))
  }

  lemma DerefEdits(p: Program, n: Id, list: seq<Id>, r: seq<Id>, at: seq<nat>)
    requires OnlyEdits(ToDeref(n), p, list, r, at)
    ensures DerefsInFront(p, n, list, r, at)
  {
    hide Stand, Between;
    var e := ToDeref(n);
    forall i: nat, j: nat | Between(at, i, j)
      ensures i < |list| && j < |r| && PointerConvert.UseOf(p, n, r[j]) && r[j].user == list[i]
    {
      Inside(list, r, at, i, j);
      assert IsEdit(e, p, list[i], r[j]);
      var k: nat :| MadeAt(e, list[i], p.nodes[list[i]], k, r[j]);
    }
    forall i: nat, k: nat | i < |list| && PointerConvert.UseOf(p, n, DerefOf(n, list[i], k))
      ensures exists j: nat :: Between(at, i, j) && r[j] == DerefOf(n, list[i], k)
    {
      Lengths(list, r, at);
      assert MadeAt(e, list[i], p.nodes[list[i]], k, DerefOf(n, list[i], k));
      assert IsEdit(e, p, list[i], DerefOf(n, list[i], k));
    }
  }

  lemma Inside(list: seq<Id>, r: seq<Id>, at: seq<nat>, i: nat, j: nat)
    requires Stand(list, r, at) && Between(at, i, j)
    ensures i < |list| && j < |r|
  {
  }

  lemma Lengths(list: seq<Id>, r: seq<Id>, at: seq<nat>)
    requires Stand(list, r, at)
    ensures |at| == |list|
  {
  }

  /** Right in front of each value of the list stands a load for each operand that reads the dereference, in the
      order of the operands, and nothing else is put in. */
  ghost predicate LoadsInFront(p: Program, d: Id, list: seq<Id>, r: seq<Id>, at: seq<nat>) {
    && Stand(list, r, at)
    && (forall i: nat, j: nat :: Between(at, i, j) ==> PointerLoads.LoadUse(p, d, r[j]) && r[j].user == list[i])
    && (forall i: nat, j: nat, k: nat :: Between(at, i, j) && Between(at, i, k) && j < k ==> r[j].k < r[k].k)
    && (forall i: nat, k: nat :: i < |list| && PointerLoads.LoadUse(p, d, LoadOf(d, list[i], k)) ==>
          exists j: nat :: Between(at, i, j) && r[j] == LoadOf(d, list[i], k))
  }

  lemma LoadEdits(p: Program, d: Id, a: Id, list: seq<Id>, r: seq<Id>, at: seq<nat>)
    requires OnlyEdits(ToLoad(d, a), p, list, r, at)
    ensures LoadsInFront(p, d, list, r, at)
  {
    hide Stand, Between;
    var e := ToLoad(d, a);
    forall i: nat, j: nat | Between(at, i, j)
      ensures i < |list| && j < |r| && PointerLoads.LoadUse(p, d, r[j]) && r[j].user == list[i]
    {
      Inside(list, r, at, i, j);
      assert IsEdit(e, p, list[i], r[j]);
      var k: nat :| MadeAt(e, list[i], p.nodes[list[i]], k, r[j]);
    }
    forall i: nat, k: nat | i < |list| && PointerLoads.LoadUse(p, d, LoadOf(d, list[i], k))
      ensures exists j: nat :: Between(at, i, j) && r[j] == LoadOf(d, list[i], k)
    {
      Lengths(list, r, at);
      assert MadeAt(e, list[i], p.nodes[list[i]], k, LoadOf(d, list[i], k));
      assert IsEdit(e, p, list[i], LoadOf(d, list[i], k));
    }
  }

  /** The dereferences of a converted node stand right in front of their users, and nothing else is put in but the
      allocation of a variable, which stands at the front of the first block. */
  lemma ConvertedLists(p: Program, n: Id, b: nat) returns (at: seq<nat>)
    requires PointerConvert.Convertible(p, n) && b < |p.blocks|
    ensures var q := PointerConvert.Converted(p, n);
      && n in p.nodes && |q.blocks| == |p.blocks|
      && var first := p.nodes[n].kind.Local? && b == 0;
         && (first ==> q.blocks[b] != [] && q.blocks[b][0] == n)
         && DerefsInFront(p, n, Before(p, n, b), if first then q.blocks[b][1..] else q.blocks[b], at)
  {
    var e := ToDeref(n);
    var list := Before(p, n, b);
    ConvertibleFresh(p, n);
    DoneDrop(e, p, p.blocks[b]);
    ExpandDone(p, n, p.blocks[b]);
    at := DoneOnly(e, p, list);
    var r := DoneList(e, p, Users(e, p), list);
    DerefEdits(p, n, list, r, at);
    hide OnlyEdits, DerefsInFront, PointerConvert.Expand, DoneList, Users, Fresh, PointerAddress.Drop;
    var q := PointerConvert.Converted(p, n);
    assert q.blocks[b] == (if b == 0 && p.nodes[n].kind.Local? then [n] else []) + r;
    assert ([n] + r)[1..] == r && [] + r == r;
  }

  /** The loads that take the place of a dereference stand right in front of their users; the dereference leaves
      the list, and nothing else changes. */
  lemma LoadedLists(p: Program, d: Id, b: nat) returns (at: seq<nat>)
    requires PointerLoads.Loadable(p, d) && b < |p.blocks|
    ensures var q := PointerLoads.Loaded(p, d);
      && |q.blocks| == |p.blocks|
      && LoadsInFront(p, d, PointerAddress.Drop(d, p.blocks[b]), q.blocks[b], at)
  {
    var a := p.nodes[d].args[0];
    var e := ToLoad(d, a);
    var list := PointerAddress.Drop(d, p.blocks[b]);
    LoadableFresh(p, d);
    DoneDrop(e, p, p.blocks[b]);
    LoadListDone(p, d, a, p.blocks[b]);
    at := DoneOnly(e, p, list);
    var r := DoneList(e, p, Users(e, p), list);
    LoadEdits(p, d, a, list, r, at);
    hide OnlyEdits, LoadsInFront, PointerLoads.LoadList, DoneList, Users, Fresh, PointerAddress.Drop;
    assert PointerLoads.Loaded(p, d).blocks[b] == r;
  }
}
