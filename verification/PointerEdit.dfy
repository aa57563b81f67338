/** The edits the pointer lowering makes at the uses of a node, one operand at a time: an operand is replaced,
    and a new node may be put in front of the user. */
module PointerEdit {
  import opened PointerIr
  import PointerConvert
  import PointerAddress
  import PointerLoads

  /** The node whose uses are edited, and what they become: a dereference of the node, the pointer behind an
      address, or a load from the pointer behind a dereference. */
  datatype Edit = ToDeref(node: Id) | ToPointer(node: Id, pointer: Id) | ToLoad(node: Id, pointer: Id)

  /** Whether the k-th operand gets a new node. */
  predicate Makes(e: Edit, node: Node, k: nat) {
    match e
    case ToDeref(_) => true
    case ToPointer(_, _) => false
    case ToLoad(_, _) => !PointerLoads.Written(node, k)
  }

  function Made(e: Edit): Node {
    match e
    case ToDeref(n) => Node(Deref, [n])
    case ToPointer(_, a) => Node(Deref, [a])
    case ToLoad(_, a) => Node(Load, [a])
  }

  function NewArg(e: Edit, u: Id, node: Node, k: nat): Id {
    match e
    case ToDeref(n) => DerefOf(n, u, k)
    case ToPointer(_, a) => a
    case ToLoad(d, a) => if PointerLoads.Written(node, k) then a else LoadOf(d, u, k)
  }

  /** A write through the edited operand becomes a store. */
  function NewKind(e: Edit, node: Node, k: nat): Kind {
    if e.ToLoad? && PointerLoads.Written(node, k) then Store else node.kind
  }

  /** A new node of this edit. */
  predicate MadeBy(e: Edit, o: Id) {
    match e
    case ToDeref(n) => PointerConvert.Inserted(n, o)
    case ToPointer(_, _) => false
    case ToLoad(d, _) => PointerLoads.LoadedFor(d, o)
  }

  // ---------- one user ----------

  /** The user when its first k operands are edited. */
  function UserAt(e: Edit, u: Id, node: Node, k: nat): (r: Node)
    requires k <= |node.args|
    ensures |r.args| == |node.args|
  {
    Node(
      if 1 < k && node.args[1] == e.node then NewKind(e, node, 1) else node.kind,
      seq(|node.args|, j requires 0 <= j < |node.args| =>
        if j < k && node.args[j] == e.node then NewArg(e, u, node, j) else node.args[j]))
  }

  /** The new nodes in front of it. */
  function MadeList(e: Edit, u: Id, node: Node, k: nat): seq<Id>
    requires k <= |node.args|
  {
    if k == 0 then [] else
    MadeList(e, u, node, k - 1) +
      if node.args[k - 1] == e.node && Makes(e, node, k - 1) then [NewArg(e, u, node, k - 1)] else []
  }

  function InsertOne(x: Id, u: Id, made: seq<Id>): seq<Id> {
    if x == u then made + [u] else [x]
  }

  /** The list with these nodes in front of the user. */
  function InsertList(list: seq<Id>, u: Id, made: seq<Id>): seq<Id> {
    if list == [] then [] else InsertOne(list[0], u, made) + InsertList(list[1..], u, made)
  }

  function InsertAll(blocks: seq<seq<Id>>, u: Id, made: seq<Id>): seq<seq<Id>> {
    seq(|blocks|, b requires 0 <= b < |blocks| => InsertList(blocks[b], u, made))
  }

  function UserNodes(e: Edit, nodes: map<Id, Node>, u: Id, k: nat): map<Id, Node>
    requires u in nodes && k <= |nodes[u].args|
  {
    map o | o in nodes.Keys + (set x | x in MadeList(e, u, nodes[u], k)) ::
      if o in MadeList(e, u, nodes[u], k) then Made(e)
      else if o == u then UserAt(e, u, nodes[u], k)
      else nodes[o]
  }

  /** The new node in front of the j-th operand. */
  predicate MadeAt(e: Edit, u: Id, node: Node, j: nat, o: Id) {
    j < |node.args| && node.args[j] == e.node && Makes(e, node, j) && NewArg(e, u, node, j) == o
  }

  lemma {:induction false} MadeListHolds(e: Edit, u: Id, node: Node, k: nat, o: Id)
    requires k <= |node.args|
    ensures o in MadeList(e, u, node, k) <==> exists j :: 0 <= j < k && MadeAt(e, u, node, j, o)
  {
    if k > 0 {
      MadeListHolds(e, u, node, k - 1, o);
      assert node.args[k - 1] == e.node && Makes(e, node, k - 1) && NewArg(e, u, node, k - 1) == o <==>
        MadeAt(e, u, node, k - 1, o);
    }
  }

  lemma {:induction false} MadeListIs(e: Edit, u: Id, node: Node, k: nat, o: Id)
    requires k <= |node.args|
    ensures o in MadeList(e, u, node, k) ==> MadeBy(e, o) && o != u
    ensures e.ToPointer? ==> MadeList(e, u, node, k) == []
  {
    if k > 0 {
      MadeListIs(e, u, node, k - 1, o);
      var new_ := NewArg(e, u, node, k - 1);
      if Makes(e, node, k - 1) {
        assert new_.user == u;
        assert u < new_;
      }
    }
  }

  lemma {:induction false} InsertNone(list: seq<Id>, u: Id)
    ensures InsertList(list, u, []) == list
  {
    if list != [] {
      InsertNone(list[1..], u);
      assert list == [list[0]] + list[1..];
    }
  }

  lemma {:induction false} InsertAppend(a: seq<Id>, b: seq<Id>, u: Id, made: seq<Id>)
    ensures InsertList(a + b, u, made) == InsertList(a, u, made) + InsertList(b, u, made)
    decreases |a|
  {
    hide InsertOne;
    if a == [] {
      assert a + b == b;
    } else {
      InsertAppend(a[1..], b, u, made);
      assert (a + b)[0] == a[0] && (a + b)[1..] == a[1..] + b;
    }
  }

  lemma {:induction false} InsertElsewhere(list: seq<Id>, u: Id, made: seq<Id>)
    requires u !in list
    ensures InsertList(list, u, made) == list
  {
    if list != [] {
      InsertElsewhere(list[1..], u, made);
      assert list == [list[0]] + list[1..];
    }
  }

  /** One more new node goes between those that are there and the user. */
  lemma {:induction false} InsertMore(list: seq<Id>, u: Id, made: seq<Id>, o: Id)
    requires u !in made && o != u
    ensures InsertList(InsertList(list, u, made), u, [o]) == InsertList(list, u, made + [o])
  {
    if list != [] {
      InsertMore(list[1..], u, made, o);
      var rest := InsertList(list[1..], u, made);
      if list[0] == u {
        InsertAppend(made + [u], rest, u, [o]);
        InsertAppend(made, [u], u, [o]);
        InsertElsewhere(made, u, [o]);
        assert [u][1..] == [];
      } else {
        InsertAppend([list[0]], rest, u, [o]);
        InsertElsewhere([list[0]], u, [o]);
      }
    }
  }

  /** The edit of one operand, after those before it. */
  lemma UserStep(e: Edit, u: Id, node: Node, k: nat)
    requires k < |node.args|
    ensures var now := UserAt(e, u, node, k);
      && now.args[k] == node.args[k]
      && Makes(e, now, k) == Makes(e, node, k) && NewArg(e, u, now, k) == NewArg(e, u, node, k)
      && UserAt(e, u, node, k + 1)
         == if node.args[k] == e.node then Node(NewKind(e, now, k), now.args[k := NewArg(e, u, now, k)]) else now
  {
    var now := UserAt(e, u, node, k);
    var after := UserAt(e, u, node, k + 1);
    assert now.kind == node.kind || (1 < k && now.kind.Store?);
    forall j | 0 <= j < |node.args|
      ensures after.args[j] == if j == k && node.args[k] == e.node then NewArg(e, u, node, k) else now.args[j]
    {
    }
    assert node.args[k] != e.node ==> after.args == now.args;
    assert node.args[k] == e.node ==> after.args == now.args[k := NewArg(e, u, node, k)];
  }

  lemma UserNow(e: Edit, nodes: map<Id, Node>, u: Id, k: nat)
    requires u in nodes && k <= |nodes[u].args|
    ensures u in UserNodes(e, nodes, u, k) && UserNodes(e, nodes, u, k)[u] == UserAt(e, u, nodes[u], k)
  {
    MadeListIs(e, u, nodes[u], k, u);
  }

  lemma OperandKept(e: Edit, nodes: map<Id, Node>, u: Id, k: nat)
    requires u in nodes && k < |nodes[u].args| && nodes[u].args[k] != e.node
    ensures UserNodes(e, nodes, u, k + 1) == UserNodes(e, nodes, u, k)
    ensures MadeList(e, u, nodes[u], k + 1) == MadeList(e, u, nodes[u], k)
  {
    UserStep(e, u, nodes[u], k);
    hide UserAt;
  }

  /** What editing one operand makes of the table. */
  lemma OperandEdited(e: Edit, nodes: map<Id, Node>, u: Id, k: nat)
    requires u in nodes && k < |nodes[u].args| && nodes[u].args[k] == e.node
    ensures var now, at := UserNodes(e, nodes, u, k), UserAt(e, u, nodes[u], k);
      var o := NewArg(e, u, at, k);
      var edited := Node(NewKind(e, at, k), at.args[k := o]);
      UserNodes(e, nodes, u, k + 1) == (if Makes(e, at, k) then now[o := Made(e)] else now)[u := edited]
  {
    UserStep(e, u, nodes[u], k);
    hide UserAt, NewKind, Made, Makes, NewArg;
    var node := nodes[u];
    var made := MadeList(e, u, node, k);
    var o := NewArg(e, u, node, k);
    MadeListIs(e, u, node, k + 1, u);
    assert MadeList(e, u, node, k + 1) == made + if Makes(e, node, k) then [o] else [];
    assert Makes(e, node, k) ==> (set x | x in made + [o]) == (set x | x in made) + {o};
    assert (set x | x in made + []) == set x | x in made;
  }

  /** And of the lists. */
  lemma ListsEdited(e: Edit, blocks: seq<seq<Id>>, u: Id, node: Node, k: nat)
    requires k < |node.args| && node.args[k] == e.node && Makes(e, node, k)
    ensures InsertAll(InsertAll(blocks, u, MadeList(e, u, node, k)), u, [NewArg(e, u, node, k)])
      == InsertAll(blocks, u, MadeList(e, u, node, k + 1))
  {
    hide InsertList, NewArg, Makes;
    var made, o := MadeList(e, u, node, k), NewArg(e, u, node, k);
    MadeListIs(e, u, node, k, u);
    MadeListIs(e, u, node, k + 1, o);
    assert MadeList(e, u, node, k + 1) == made + [o];
    forall b | 0 <= b < |blocks|
      ensures InsertList(InsertList(blocks[b], u, made), u, [o]) == InsertList(blocks[b], u, made + [o])
    {
      InsertMore(blocks[b], u, made, o);
    }
  }

  lemma ListsKept(e: Edit, u: Id, node: Node, k: nat)
    requires k < |node.args| && !Makes(e, node, k)
    ensures MadeList(e, u, node, k + 1) == MadeList(e, u, node, k)
  {
  }

  lemma UserNone(e: Edit, nodes: map<Id, Node>, blocks: seq<seq<Id>>, u: Id)
    requires u in nodes
    ensures UserAt(e, u, nodes[u], 0) == nodes[u] && UserNodes(e, nodes, u, 0) == nodes
    ensures InsertAll(blocks, u, MadeList(e, u, nodes[u], 0)) == blocks
  {
    assert UserAt(e, u, nodes[u], 0).args == nodes[u].args;
    forall b | 0 <= b < |blocks| ensures InsertList(blocks[b], u, []) == blocks[b] {
      InsertNone(blocks[b], u);
    }
  }

  // ---------- all users ----------

  ghost function MadeFor(e: Edit, p: Program, done: set<Id>): set<Id> {
    set u, o | u in done && u in p.nodes && o in MadeList(e, u, p.nodes[u], |p.nodes[u].args|) :: o
  }

  /** The table once the uses by these nodes are edited. */
  ghost function DoneNodes(e: Edit, p: Program, done: set<Id>): map<Id, Node> {
    map o | o in p.nodes.Keys + MadeFor(e, p, done) ::
      if o in MadeFor(e, p, done) then Made(e)
      else if o in done then UserAt(e, o, p.nodes[o], |p.nodes[o].args|)
      else p.nodes[o]
  }

  ghost function DoneList(e: Edit, p: Program, done: set<Id>, list: seq<Id>): seq<Id> {
    if list == [] then [] else
    (if list[0] in done && list[0] in p.nodes
     then MadeList(e, list[0], p.nodes[list[0]], |p.nodes[list[0]].args|) + [list[0]]
     else [list[0]]) + DoneList(e, p, done, list[1..])
  }

  ghost function DoneBlocks(e: Edit, p: Program, done: set<Id>): seq<seq<Id>> {
    seq(|p.blocks|, b requires 0 <= b < |p.blocks| => DoneList(e, p, done, p.blocks[b]))
  }

  /** The nodes that use the one that is edited. */
  function Users(e: Edit, p: Program): set<Id> {
    set u | u in p.nodes && e.node in p.nodes[u].args
  }

  ghost predicate Fresh(e: Edit, p: Program) {
    forall o :: o in p.nodes ==> !MadeBy(e, o)
  }

  lemma NoneDone(e: Edit, p: Program)
    ensures DoneNodes(e, p, {}) == p.nodes && DoneBlocks(e, p, {}) == p.blocks
  {
    forall b | 0 <= b < |p.blocks| ensures DoneList(e, p, {}, p.blocks[b]) == p.blocks[b] {
      NoneDoneList(e, p, p.blocks[b]);
    }
  }

  lemma {:induction false} NoneDoneList(e: Edit, p: Program, list: seq<Id>)
    ensures DoneList(e, p, {}, list) == list
  {
    if list != [] {
      NoneDoneList(e, p, list[1..]);
      assert list == [list[0]] + list[1..];
    }
  }

  lemma {:induction false} ListDone(e: Edit, p: Program, done: set<Id>, u: Id, list: seq<Id>)
    requires u in p.nodes && u !in done && Fresh(e, p)
    ensures InsertList(DoneList(e, p, done, list), u, MadeList(e, u, p.nodes[u], |p.nodes[u].args|))
      == DoneList(e, p, done + {u}, list)
  {
    if list != [] {
      var x, made := list[0], MadeList(e, u, p.nodes[u], |p.nodes[u].args|);
      ListDone(e, p, done, u, list[1..]);
      var rest := DoneList(e, p, done, list[1..]);
      if x in done && x in p.nodes {
        var own := MadeList(e, x, p.nodes[x], |p.nodes[x].args|);
        MadeListIs(e, x, p.nodes[x], |p.nodes[x].args|, u);
        InsertAppend(own + [x], rest, u, made);
        InsertElsewhere(own + [x], u, made);
      } else if x != u {
        InsertAppend([x], rest, u, made);
        InsertElsewhere([x], u, made);
      } else {
        assert ([x] + rest)[1..] == rest;
      }
    }
  }

  /** The uses by one more node. */
  lemma UserDone(e: Edit, p: Program, done: set<Id>, u: Id)
    requires u in p.nodes && u !in done && Fresh(e, p)
    ensures var now := DoneNodes(e, p, done);
      && u in now && now[u] == p.nodes[u]
      && UserNodes(e, now, u, |p.nodes[u].args|) == DoneNodes(e, p, done + {u})
  {
    hide UserAt, MadeList, Fresh, Made;
    var made := set x | x in MadeList(e, u, p.nodes[u], |p.nodes[u].args|);
    MadeIsNew(e, p, done, u);
    MadeForMore(e, p, done, u);
    hide MadeFor;
  }

  lemma MadeForMore(e: Edit, p: Program, done: set<Id>, u: Id)
    requires u in p.nodes
    ensures MadeFor(e, p, done + {u})
      == MadeFor(e, p, done) + set x | x in MadeList(e, u, p.nodes[u], |p.nodes[u].args|)
  {
    hide MadeList;
  }

  lemma ListsDone(e: Edit, p: Program, done: set<Id>, u: Id)
    requires u in p.nodes && u !in done && Fresh(e, p)
    ensures InsertAll(DoneBlocks(e, p, done), u, MadeList(e, u, p.nodes[u], |p.nodes[u].args|))
      == DoneBlocks(e, p, done + {u})
  {
    hide MadeList, InsertList, DoneList, Fresh;
    var made := MadeList(e, u, p.nodes[u], |p.nodes[u].args|);
    forall b | 0 <= b < |p.blocks|
      ensures InsertList(DoneList(e, p, done, p.blocks[b]), u, made) == DoneList(e, p, done + {u}, p.blocks[b])
    {
      ListDone(e, p, done, u, p.blocks[b]);
    }
  }

  lemma MadeIsNew(e: Edit, p: Program, done: set<Id>, u: Id)
    requires u in p.nodes && Fresh(e, p)
    ensures forall o :: o in MadeFor(e, p, done) ==> o !in p.nodes
    ensures forall o :: o in MadeList(e, u, p.nodes[u], |p.nodes[u].args|) ==> o !in p.nodes
  {
    hide MadeList;
    forall o | o in MadeFor(e, p, done) ensures o !in p.nodes {
      var x :| x in done && x in p.nodes && o in MadeList(e, x, p.nodes[x], |p.nodes[x].args|);
      MadeListIs(e, x, p.nodes[x], |p.nodes[x].args|, o);
    }
    forall o | o in MadeList(e, u, p.nodes[u], |p.nodes[u].args|) ensures o !in p.nodes {
      MadeListIs(e, u, p.nodes[u], |p.nodes[u].args|, o);
    }
  }

  // ---------- what the edits make of a program ----------

  lemma {:induction false} DerefsMade(n: Id, u: Id, node: Node, k: nat)
    requires k <= |node.args|
    ensures MadeList(ToDeref(n), u, node, k) + PointerConvert.Derefs(n, u, node.args, k)
      == PointerConvert.Derefs(n, u, node.args, 0)
    decreases k
  {
    if k > 0 {
      DerefsMade(n, u, node, k - 1);
      var before := MadeList(ToDeref(n), u, node, k - 1);
      var one := if node.args[k - 1] == n then [DerefOf(n, u, k - 1)] else [];
      assert (before + one) + PointerConvert.Derefs(n, u, node.args, k)
        == before + (one + PointerConvert.Derefs(n, u, node.args, k));
    }
  }

  lemma {:induction false} LoadsMade(d: Id, a: Id, u: Id, node: Node, k: nat)
    requires k <= |node.args|
    ensures MadeList(ToLoad(d, a), u, node, k) + PointerLoads.Loads(d, u, node, k) == PointerLoads.Loads(d, u, node, 0)
    decreases k
  {
    if k > 0 {
      LoadsMade(d, a, u, node, k - 1);
      var before := MadeList(ToLoad(d, a), u, node, k - 1);
      var one := if node.args[k - 1] == d && !PointerLoads.Written(node, k - 1) then [LoadOf(d, u, k - 1)] else [];
      assert (before + one) + PointerLoads.Loads(d, u, node, k) == before + (one + PointerLoads.Loads(d, u, node, k));
    }
  }

  lemma {:induction false} NoneMade(e: Edit, u: Id, node: Node, k: nat)
    requires k <= |node.args| && e.node !in node.args
    ensures MadeList(e, u, node, k) == [] && UserAt(e, u, node, k) == node
  {
    if k > 0 {
      NoneMade(e, u, node, k - 1);
    }
    assert UserAt(e, u, node, k).args == node.args;
  }

  lemma {:induction false} DropConcat(g: Id, a: seq<Id>, b: seq<Id>)
    ensures PointerAddress.Drop(g, a + b) == PointerAddress.Drop(g, a) + PointerAddress.Drop(g, b)
    decreases |a|
  {
    if a == [] {
      assert a + b == b;
    } else {
      DropConcat(g, a[1..], b);
      var one := if a[0] == g then [] else [a[0]];
      assert (a + b)[0] == a[0] && (a + b)[1..] == a[1..] + b;
      assert PointerAddress.Drop(g, a + b) == one + (PointerAddress.Drop(g, a[1..]) + PointerAddress.Drop(g, b));
    }
  }

  lemma {:induction false} DropAbsent(g: Id, list: seq<Id>)
    requires g !in list
    ensures PointerAddress.Drop(g, list) == list
  {
    if list != [] {
      DropAbsent(g, list[1..]);
      assert list == [list[0]] + list[1..];
    }
  }

  /** The new nodes in front of a node of the list, and the node. */
  function Front(e: Edit, p: Program, x: Id): seq<Id> {
    if x in p.nodes then MadeList(e, x, p.nodes[x], |p.nodes[x].args|) + [x] else [x]
  }

  lemma DoneFront(e: Edit, p: Program, list: seq<Id>)
    requires list != []
    ensures DoneList(e, p, Users(e, p), list) == Front(e, p, list[0]) + DoneList(e, p, Users(e, p), list[1..])
  {
    var x := list[0];
    if x in p.nodes && x !in Users(e, p) {
      NoneMade(e, x, p.nodes[x], |p.nodes[x].args|);
      assert [] + [x] == [x];
    }
    hide MadeList, UserAt, Made, Fresh;
  }

  /** What is made in front of a node is not the node whose uses are edited. */
  lemma FrontDropped(e: Edit, p: Program, x: Id)
    requires e.node in p.nodes && Fresh(e, p) && e.node !in p.nodes[e.node].args
    ensures PointerAddress.Drop(e.node, Front(e, p, x)) == if x == e.node then [] else Front(e, p, x)
  {
    if x in p.nodes {
      MadeListIs(e, x, p.nodes[x], |p.nodes[x].args|, e.node);
    }
    if x == e.node {
      NoneMade(e, x, p.nodes[x], |p.nodes[x].args|);
    } else {
      DropAbsent(e.node, Front(e, p, x));
    }
  }

  lemma FrontConverted(p: Program, n: Id, x: Id)
    requires n in p.nodes && Fresh(ToDeref(n), p) && n !in p.nodes[n].args
    ensures Front(ToDeref(n), p, x) ==
      if x == n then [n]
      else if x in p.nodes then PointerConvert.Derefs(n, x, p.nodes[x].args, 0) + [x]
      else [x]
  {
    if x in p.nodes {
      DerefsMade(n, x, p.nodes[x], |p.nodes[x].args|);
      if x == n {
        NoneMade(ToDeref(n), x, p.nodes[x], |p.nodes[x].args|);
      }
    }
  }

  lemma {:induction false} ExpandDone(p: Program, n: Id, list: seq<Id>)
    requires n in p.nodes && Fresh(ToDeref(n), p) && n !in p.nodes[n].args
    ensures var done := DoneList(ToDeref(n), p, Users(ToDeref(n), p), list);
      PointerConvert.Expand(p, n, list) == if PointerConvert.IsLocal(p, n) then PointerAddress.Drop(n, done) else done
  {
    var e := ToDeref(n);
    if list != [] {
      var x := list[0];
      ExpandDone(p, n, list[1..]);
      DoneFront(e, p, list);
      FrontDropped(e, p, x);
      DropConcat(n, Front(e, p, x), DoneList(e, p, Users(e, p), list[1..]));
      FrontConverted(p, n, x);
    }
    hide Front, Users, Fresh, PointerConvert.Derefs, PointerAddress.Drop;
  }

  lemma {:induction false} LoadListDone(p: Program, d: Id, a: Id, list: seq<Id>)
    requires d in p.nodes && Fresh(ToLoad(d, a), p) && d !in p.nodes[d].args
    ensures var e := ToLoad(d, a);
      PointerLoads.LoadList(p, d, list) == PointerAddress.Drop(d, DoneList(e, p, Users(e, p), list))
  {
    var e := ToLoad(d, a);
    if list != [] {
      var x := list[0];
      LoadListDone(p, d, a, list[1..]);
      DoneFront(e, p, list);
      FrontDropped(e, p, x);
      DropConcat(d, Front(e, p, x), DoneList(e, p, Users(e, p), list[1..]));
      if x in p.nodes {
        LoadsMade(d, a, x, p.nodes[x], |p.nodes[x].args|);
      }
    }
  }

  lemma {:induction false} ListUnchanged(e: Edit, p: Program, done: set<Id>, list: seq<Id>)
    requires e.ToPointer?
    ensures DoneList(e, p, done, list) == list
  {
    if list != [] {
      ListUnchanged(e, p, done, list[1..]);
      if list[0] in p.nodes {
        MadeListIs(e, list[0], p.nodes[list[0]], |p.nodes[list[0]].args|, list[0]);
      }
      assert list == [list[0]] + list[1..];
    }
  }

  // ---------- the table ----------

  lemma MadeForAll(e: Edit, p: Program, o: Id)
    ensures o in MadeFor(e, p, Users(e, p)) <==>
      exists u, j :: u in p.nodes && MadeAt(e, u, p.nodes[u], j, o)
  {
    hide MadeList, MadeAt;
    if o in MadeFor(e, p, Users(e, p)) {
      var u :| u in Users(e, p) && u in p.nodes && o in MadeList(e, u, p.nodes[u], |p.nodes[u].args|);
      MadeListHolds(e, u, p.nodes[u], |p.nodes[u].args|, o);
    }
    forall u, j | u in p.nodes && MadeAt(e, u, p.nodes[u], j, o) ensures o in MadeFor(e, p, Users(e, p)) {
      UsedAt(e, p, u, j, o);
      MadeListHolds(e, u, p.nodes[u], |p.nodes[u].args|, o);
    }
  }

  lemma UsedAt(e: Edit, p: Program, u: Id, j: nat, o: Id)
    requires u in p.nodes && MadeAt(e, u, p.nodes[u], j, o)
    ensures u in Users(e, p) && j < |p.nodes[u].args|
  {
  }

  lemma ConvertedNodes(p: Program, n: Id, new_: Node)
    requires n in p.nodes && Fresh(ToDeref(n), p) && n !in p.nodes[n].args
    ensures var e := ToDeref(n);
      DoneNodes(e, p, Users(e, p))[n := new_] == PointerConvert.NewNodes(p, n, new_)
  {
    var e := ToDeref(n);
    var made := MadeFor(e, p, Users(e, p));
    forall o ensures o in made <==> o in PointerConvert.UsesOf(p, n) {
      MadeForAll(e, p, o);
      if o in PointerConvert.UsesOf(p, n) {
        var u, k :| u in p.nodes && 0 <= k < |p.nodes[u].args| && p.nodes[u].args[k] == n && o == DerefOf(n, u, k);
        assert MadeAt(e, u, p.nodes[u], k, o);
      }
    }
    assert made == PointerConvert.UsesOf(p, n);
    forall o | o in p.nodes && o != n
      ensures Node(p.nodes[o].kind, PointerConvert.Redirect(n, o, p.nodes[o].args))
        == if o in Users(e, p) then UserAt(e, o, p.nodes[o], |p.nodes[o].args|) else p.nodes[o]
    {
      assert UserAt(e, o, p.nodes[o], |p.nodes[o].args|).args == PointerConvert.Redirect(n, o, p.nodes[o].args);
      if o !in Users(e, p) {
        NoneMade(e, o, p.nodes[o], |p.nodes[o].args|);
      }
    }
    hide MadeFor, UserAt, PointerConvert.UsesOf, PointerConvert.Redirect, Users;
  }

  lemma LoadedNodes(p: Program, d: Id, a: Id)
    requires d in p.nodes && Fresh(ToLoad(d, a), p) && d !in p.nodes[d].args
    ensures var e := ToLoad(d, a);
      DoneNodes(e, p, Users(e, p)) - {d} == PointerLoads.LoadNodes(p, d, a)
  {
    var e := ToLoad(d, a);
    var made := MadeFor(e, p, Users(e, p));
    forall o ensures o in made <==> o in PointerLoads.LoadUses(p, d) {
      MadeForAll(e, p, o);
      if o in PointerLoads.LoadUses(p, d) {
        var u, k :| u in p.nodes && 0 <= k < |p.nodes[u].args| && p.nodes[u].args[k] == d
          && !PointerLoads.Written(p.nodes[u], k) && o == LoadOf(d, u, k);
        assert MadeAt(e, u, p.nodes[u], k, o);
      }
    }
    assert made == PointerLoads.LoadUses(p, d);
    MadeForOthers(e, p);
    forall o | o in p.nodes && o != d
      ensures Node(PointerLoads.LoadKind(d, p.nodes[o]), PointerLoads.LoadArgs(d, a, o, p.nodes[o]))
        == if o in Users(e, p) then UserAt(e, o, p.nodes[o], |p.nodes[o].args|) else p.nodes[o]
    {
      assert UserAt(e, o, p.nodes[o], |p.nodes[o].args|).args == PointerLoads.LoadArgs(d, a, o, p.nodes[o]);
      if o !in Users(e, p) {
        NoneMade(e, o, p.nodes[o], |p.nodes[o].args|);
      }
    }
    hide MadeFor, UserAt, PointerLoads.LoadUses, PointerLoads.LoadArgs, PointerLoads.LoadKind, Users;
  }

  lemma MadeForOthers(e: Edit, p: Program)
    requires e.node in p.nodes && Fresh(e, p)
    ensures e.node !in MadeFor(e, p, Users(e, p))
  {
    MadeIsNew(e, p, Users(e, p), e.node);
  }

  lemma AddressNodes(p: Program, g: Id)
    requires Unary(p, g, AddressOf) && Unary(p, p.nodes[g].args[0], Deref)
    ensures var e := ToPointer(g, PointerAddress.PointerBehind(p, g));
      DoneNodes(e, p, Users(e, p)) - {g} == PointerAddress.WithoutAddress(p, g).nodes
  {
    var a := PointerAddress.PointerBehind(p, g);
    var e := ToPointer(g, a);
    assert MadeFor(e, p, Users(e, p)) == {} by {
      forall o ensures o !in MadeFor(e, p, Users(e, p)) {
        MadeForAll(e, p, o);
      }
    }
    forall o | o in p.nodes
      ensures Node(p.nodes[o].kind, PointerAddress.Replace(g, a, p.nodes[o].args))
        == if o in Users(e, p) then UserAt(e, o, p.nodes[o], |p.nodes[o].args|) else p.nodes[o]
    {
      assert UserAt(e, o, p.nodes[o], |p.nodes[o].args|).args == PointerAddress.Replace(g, a, p.nodes[o].args);
      if o !in Users(e, p) {
        NoneMade(e, o, p.nodes[o], |p.nodes[o].args|);
      }
    }
    hide MadeFor, UserAt, PointerAddress.Replace, Users;
  }

  // ---------- the three edits ----------

  lemma ConvertibleFresh(p: Program, n: Id)
    requires PointerConvert.Convertible(p, n)
    ensures n in p.nodes && Fresh(ToDeref(n), p) && n !in p.nodes[n].args
  {
    forall o | o in p.nodes ensures !PointerConvert.Inserted(n, o) {
      PointerConvert.ConvertibleNode(p, n, o);
    }
    PointerConvert.ConvertibleNode(p, n, n);
  }

  lemma LoadableFresh(p: Program, d: Id)
    requires PointerLoads.Loadable(p, d)
    ensures d in p.nodes && Fresh(ToLoad(d, p.nodes[d].args[0]), p) && d !in p.nodes[d].args
  {
    forall o | o in p.nodes ensures !PointerLoads.LoadedFor(d, o) {
      assert PointerLoads.LateNode(p, o);
    }
  }

  lemma BlocksConverted(p: Program, n: Id)
    requires n in p.nodes && Fresh(ToDeref(n), p) && n !in p.nodes[n].args
    ensures var done := DoneBlocks(ToDeref(n), p, Users(ToDeref(n), p));
      PointerConvert.ExpandAll(p, n) ==
        if !PointerConvert.IsLocal(p, n) then done
        else var dropped := PointerAddress.DropAll(n, done);
             if dropped == [] then [] else dropped[0 := [n] + dropped[0]]
  {
    hide DoneList, PointerConvert.Expand, PointerAddress.Drop, Users, Fresh;
    var done := DoneBlocks(ToDeref(n), p, Users(ToDeref(n), p));
    var dropped := PointerAddress.DropAll(n, done);
    var local := PointerConvert.IsLocal(p, n);
    forall b | 0 <= b < |p.blocks|
      ensures PointerConvert.ExpandAll(p, n)[b]
        == if !local then done[b] else if b == 0 then [n] + dropped[b] else dropped[b]
    {
      var expanded := PointerConvert.Expand(p, n, p.blocks[b]);
      ExpandDone(p, n, p.blocks[b]);
      assert PointerConvert.ExpandAll(p, n)[b] == (if b == 0 && local then [n] else []) + expanded;
      assert [] + expanded == expanded;
    }
  }

  lemma BlocksLoaded(p: Program, d: Id)
    requires PointerLoads.Loadable(p, d)
    ensures var e := ToLoad(d, p.nodes[d].args[0]);
      PointerLoads.Loaded(p, d).blocks == PointerAddress.DropAll(d, DoneBlocks(e, p, Users(e, p)))
  {
    LoadableFresh(p, d);
    var e := ToLoad(d, p.nodes[d].args[0]);
    forall b | 0 <= b < |p.blocks|
      ensures PointerLoads.LoadList(p, d, p.blocks[b])
        == PointerAddress.Drop(d, DoneList(e, p, Users(e, p), p.blocks[b]))
    {
      LoadListDone(p, d, e.pointer, p.blocks[b]);
    }
  }

  lemma BlocksWithout(p: Program, g: Id)
    requires Unary(p, g, AddressOf) && Unary(p, p.nodes[g].args[0], Deref)
    ensures var e := ToPointer(g, PointerAddress.PointerBehind(p, g));
      PointerAddress.WithoutAddress(p, g).blocks == PointerAddress.DropAll(g, DoneBlocks(e, p, Users(e, p)))
  {
    var e := ToPointer(g, PointerAddress.PointerBehind(p, g));
    forall b | 0 <= b < |p.blocks| ensures DoneList(e, p, Users(e, p), p.blocks[b]) == p.blocks[b] {
      ListUnchanged(e, p, Users(e, p), p.blocks[b]);
    }
    assert DoneBlocks(e, p, Users(e, p)) == p.blocks;
  }
}
