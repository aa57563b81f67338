/** A condition on the code alone under which no run goes through a stale place: an analysis of the places
    that are still what they were when they were computed, block by block. */
module PointerSteady {
  import opened Wrappers
  import opened PointerIr
  import opened PointerModes

  // ---------- what an execution may change ----------

  /** The kinds that may change memory; the pure operations do not. */
  predicate Writes(pure_: set<nat>, k: Kind) {
    match k
    case Local => true
    case Store => true
    case Write => true
    case Op(op) => op !in pure_
    case _ => false
  }

  ghost predicate Pure(m: Meaning, pure_: set<nat>) {
    forall op: nat, a: seq<Val>, mem: Mem :: op in pure_ && m.op(op, a, mem).Effect? ==> m.op(op, a, mem).mem == mem
  }

  /** The value of o, as the lowering sees it, does not depend on what n leaves, nor on memory if n writes. */
  predicate ReadKept(p: Program, n: Id, writes: bool, o: Id)
    decreases Rank(o), 3
  {
    if o !in p.nodes then o != n
    else if p.nodes[o].kind.Constant? then true
    else if VariableLike(p, o) then !writes && AccessKept(p, n, writes, o)
    else if !p.nodes[o].kind.AddressOf? then o != n
    else |p.nodes[o].args| == 1 && Rank(p.nodes[o].args[0]) < Rank(o) ==> PlaceKept(p, n, writes, p.nodes[o].args[0])
  }

  predicate BelowKept(p: Program, n: Id, writes: bool, o: Id, bound: nat)
    decreases bound, 0
  {
    if Plain(p, o) then o != n
    else Rank(o) < bound ==> ReadKept(p, n, writes, o)
  }

  /** The same of the place. */
  predicate PlaceKept(p: Program, n: Id, writes: bool, o: Id)
    decreases Rank(o), 1
  {
    VariableLike(p, o) ==>
      if !p.nodes[o].kind.Deref? then o != n
      else |p.nodes[o].args| == 1 ==> BelowKept(p, n, writes, p.nodes[o].args[0], Rank(o))
  }

  predicate AccessKept(p: Program, n: Id, writes: bool, o: Id)
    decreases Rank(o), 2
  {
    if Unary(p, o, Deref) && RootVariable(p, p.nodes[o].args[0]) then o != n else PlaceKept(p, n, writes, o)
  }

  /** States that differ in what n leaves, and in memory only if n writes. */
  ghost predicate Differ(n: Id, writes: bool, s: State, t: State) {
    && (forall o :: o != n ==> Get(s.env, o) == Get(t.env, o) && Get(s.addr, o) == Get(t.addr, o))
    && (!writes ==> s.mem == t.mem)
  }

  lemma {:induction false} ViewStays(p: Program, n: Id, writes: bool, s: State, t: State, o: Id)
    requires Differ(n, writes, s, t)
    ensures ReadKept(p, n, writes, o) ==> Read(p, t, o) == Read(p, s, o)
    ensures PlaceKept(p, n, writes, o) ==> Place(p, t, o) == Place(p, s, o)
    decreases Rank(o), 1
  {
    hide RootVariable, LoadAt, AccessKept, AccessPlace;
    if Unary(p, o, Deref) {
      BelowStays(p, n, writes, s, t, o);
      AccessStays(p, n, writes, s, t, o);
    } else if VariableLike(p, o) {
      AccessStays(p, n, writes, s, t, o);
    } else if Unary(p, o, AddressOf) && Rank(p.nodes[o].args[0]) < Rank(o) {
      ViewStays(p, n, writes, s, t, p.nodes[o].args[0]);
    }
  }

  lemma AccessStays(p: Program, n: Id, writes: bool, s: State, t: State, o: Id)
    requires Differ(n, writes, s, t) && VariableLike(p, o)
    requires PlaceKept(p, n, writes, o) ==> Place(p, t, o) == Place(p, s, o)
    ensures ReadKept(p, n, writes, o) ==> Read(p, t, o) == Read(p, s, o)
  {
    hide RootVariable, LoadAt, Place, PlaceKept;
    assert Read(p, s, o) == LoadFrom(s, AccessPlace(p, s, o)) && Read(p, t, o) == LoadFrom(t, AccessPlace(p, t, o));
    if ReadKept(p, n, writes, o) {
      assert AccessKept(p, n, writes, o) && s.mem == t.mem;
      assert AccessPlace(p, t, o) == AccessPlace(p, s, o);
    }
  }

  lemma {:induction false} BelowStays(p: Program, n: Id, writes: bool, s: State, t: State, o: Id)
    requires Differ(n, writes, s, t) && Unary(p, o, Deref)
    ensures PlaceKept(p, n, writes, o) ==> Place(p, t, o) == Place(p, s, o)
    decreases Rank(o), 0
  {
    hide RootVariable, LoadAt;
    var a := p.nodes[o].args[0];
    assert Place(p, s, o) == Below(p, s, a, Rank(o)) && Place(p, t, o) == Below(p, t, a, Rank(o));
    assert PlaceKept(p, n, writes, o) == BelowKept(p, n, writes, a, Rank(o));
    if !Plain(p, a) && Rank(a) < Rank(o) {
      assert Below(p, s, a, Rank(o)) == Read(p, s, a) && Below(p, t, a, Rank(o)) == Read(p, t, a);
      assert BelowKept(p, n, writes, a, Rank(o)) == ReadKept(p, n, writes, a);
      ViewStays(p, n, writes, s, t, a);
    }
  }

  // ---------- the analysis ----------

  /** Dereferences and addresses: what the lowering looks through. */
  predicate LookedThrough(p: Program, o: Id) {
    Has(p, o, Deref) || Has(p, o, AddressOf)
  }

  /** Its operand comes before it. */
  predicate InOrder(p: Program, o: Id) {
    LookedThrough(p, o) && forall a :: a in p.nodes[o].args ==> Rank(a) < Rank(o) || (Has(p, o, Deref) && Plain(p, a))
  }

  predicate Kept(p: Program, n: Id, writes: bool, o: Id) {
    if Has(p, o, Deref) then PlaceKept(p, n, writes, o) else ReadKept(p, n, writes, o)
  }

  /** The steady nodes after n ran. */
  function After(p: Program, pure_: set<nat>, steady: set<Id>, n: Id): set<Id>
    requires n in p.nodes
  {
    var writes := Writes(pure_, p.nodes[n].kind);
    (set o | o in steady && o != n && Kept(p, n, writes, o)) +
    (if InOrder(p, n) && Kept(p, n, false, n) then {n} else {})
  }

  /** The operand is looked through in this position. */
  predicate Looked(p: Program, k: Kind, i: nat, o: Id) {
    if Has(p, o, Deref) then
      || (i == 0 && (k.Field? || k.Index? || k.IndexPointer? || k.AddressOf?))
      || !(Unary(p, o, Deref) && RootVariable(p, p.nodes[o].args[0]))
    else Has(p, o, AddressOf)
  }

  predicate UsesSteady(p: Program, steady: set<Id>, n: Id)
    requires n in p.nodes
  {
    forall i :: 0 <= i < |p.nodes[n].args| && Looked(p, p.nodes[n].kind, i, p.nodes[n].args[i]) ==>
      p.nodes[n].args[i] in steady
  }

  predicate Carried(entry: seq<set<Id>>, steady: set<Id>, b: nat) {
    b < |entry| ==> entry[b] <= steady
  }

  predicate ListSteady(p: Program, pure_: set<nat>, entry: seq<set<Id>>, steady: set<Id>, list: seq<Id>)
    decreases |list|
  {
    list == [] || list[0] !in p.nodes ||
    (UsesSteady(p, steady, list[0]) &&
     match p.nodes[list[0]].kind
     case Jump(to) => Carried(entry, steady, to)
     case Branch(yes, no) => Carried(entry, steady, yes) && Carried(entry, steady, no)
     case Return => true
     case _ => ListSteady(p, pure_, entry, After(p, pure_, steady, list[0]), list[1..]))
  }

  lemma ListNext(p: Program, pure_: set<nat>, entry: seq<set<Id>>, steady: set<Id>, list: seq<Id>)
    requires list != [] && list[0] in p.nodes && ListSteady(p, pure_, entry, steady, list)
    ensures UsesSteady(p, steady, list[0])
    ensures var k := p.nodes[list[0]].kind; !k.Jump? && !k.Branch? && !k.Return? ==>
      ListSteady(p, pure_, entry, After(p, pure_, steady, list[0]), list[1..])
  {
  }

  /** With these nodes steady at the entry of each block, every node that is looked through is steady where
      it is. */
  predicate Steadfast(p: Program, pure_: set<nat>, entry: seq<set<Id>>) {
    && |entry| == |p.blocks|
    && (|entry| > 0 ==> entry[0] == {})
    && forall b :: 0 <= b < |entry| ==> ListSteady(p, pure_, entry, entry[b], p.blocks[b])
  }

  // ---------- it is right ----------

  /** What the lowering sees is what was recorded. */
  ghost predicate Seen(p: Program, s: State, o: Id) {
    if Has(p, o, Deref) then Place(p, s, o).Some? && Place(p, s, o) == Get(s.addr, o)
    else Read(p, s, o).Some? && Read(p, s, o) == Get(s.env, o)
  }

  ghost predicate AllSeen(p: Program, s: State, steady: set<Id>) {
    forall o :: o in steady ==> LookedThrough(p, o) && Seen(p, s, o)
  }

  lemma FetchSteady(p: Program, s: State, k: Kind, i: nat, o: Id)
    requires Looked(p, k, i, o) ==> LookedThrough(p, o) && Seen(p, s, o)
    ensures Fetch(p, Strict, s, k, i, o) == Fetch(p, Defined, s, k, i, o)
  {
    if VariableLike(p, o) && !p.nodes[o].kind.Deref? {
      assert Place(p, s, o) == AccessPlace(p, s, o) == Get(s.addr, o);
    }
  }

  lemma ExecSteady(p: Program, m: Meaning, s: State, steady: set<Id>, n: Id)
    requires n in p.nodes && AllSeen(p, s, steady) && UsesSteady(p, steady, n)
    ensures Exec(p, As(m, Strict), s, n) == Exec(p, As(m, Defined), s, n)
  {
    hide Fetch, Apply, Seen, Looked;
    var node := p.nodes[n];
    forall i | 0 <= i < |node.args|
      ensures Fetch(p, Strict, s, node.kind, i, node.args[i]) == Fetch(p, Defined, s, node.kind, i, node.args[i])
    {
      assert Looked(p, node.kind, i, node.args[i]) ==> node.args[i] in steady;
      FetchSteady(p, s, node.kind, i, node.args[i]);
    }
    if Enabled(p, Strict, s, n) {
      assert Operands(p, Strict, s, node) == Operands(p, Defined, s, node);
      ModeIrrelevant(As(m, Strict), As(m, Defined), s, n, node.kind, Operands(p, Strict, s, node));
    }
  }

  lemma ApplyDiffers(m: Meaning, pure_: set<nat>, s: State, n: Id, k: Kind, v: seq<Val>)
    requires Pure(m, pure_) && (Arity(k) >= 0 ==> |v| == Arity(k))
    ensures var r := Apply(m, s, n, k, v);
      && (r.Next? ==> Differ(n, Writes(pure_, k), s, r.st))
      && (r.Goto? ==> r.st == s)
  {
    hide FieldOf, ElementOf, OffsetOf, LoadAt, StoreAt;
  }

  /** A node that is looked through has just recorded what the lowering sees. */
  lemma OwnSeen(p: Program, m: Meaning, s: State, n: Id)
    requires n in p.nodes && InOrder(p, n) && Kept(p, n, false, n)
    requires Exec(p, As(m, Strict), s, n).Next?
    ensures Seen(p, Exec(p, As(m, Strict), s, n).st, n)
  {
    var node := p.nodes[n];
    var a := node.args[0];
    var t := Exec(p, As(m, Strict), s, n).st;
    var v := Fetch(p, Strict, s, node.kind, 0, a).value;
    assert a in node.args && Operands(p, Strict, s, node)[0] == v;
    FetchAgrees(p, s, node.kind, 0, a);
    ViewStays(p, n, false, s, t, n);
    if Has(p, n, Deref) {
      OwnDeref(p, s, t, n, v);
    } else {
      OwnAddress(p, s, t, n, v);
    }
  }

  lemma OwnDeref(p: Program, s: State, t: State, n: Id, v: Val)
    requires Unary(p, n, Deref) && Get(t.addr, n) == Some(v) && Place(p, t, n) == Place(p, s, n)
    requires LazyFetch(p, s, Deref, 0, p.nodes[n].args[0]) == Some(v)
    requires !Plain(p, p.nodes[n].args[0]) ==> Rank(p.nodes[n].args[0]) < Rank(n)
    ensures Seen(p, t, n)
  {
    assert Read(p, s, p.nodes[n].args[0]) == Some(v);
  }

  lemma OwnAddress(p: Program, s: State, t: State, n: Id, v: Val)
    requires Unary(p, n, AddressOf) && Get(t.env, n) == Some(v) && Read(p, t, n) == Read(p, s, n)
    requires LazyFetch(p, s, AddressOf, 0, p.nodes[n].args[0]) == Some(v)
    requires Rank(p.nodes[n].args[0]) < Rank(n)
    ensures Seen(p, t, n)
  {
  }

  lemma AfterSeen(p: Program, m: Meaning, pure_: set<nat>, s: State, steady: set<Id>, n: Id)
    requires Pure(m, pure_) && n in p.nodes && AllSeen(p, s, steady)
    requires Exec(p, As(m, Strict), s, n).Next?
    ensures AllSeen(p, Exec(p, As(m, Strict), s, n).st, After(p, pure_, steady, n))
  {
    hide Read, Place, PlaceKept, ReadKept, Apply, Fetch, Pure;
    var t := Exec(p, As(m, Strict), s, n).st;
    var writes := Writes(pure_, p.nodes[n].kind);
    ApplyDiffers(As(m, Strict), pure_, s, n, p.nodes[n].kind, Operands(p, Strict, s, p.nodes[n])) by {
      PureAs(m, pure_);
    }
    forall o | o in After(p, pure_, steady, n) ensures LookedThrough(p, o) && Seen(p, t, o) {
      if o in steady && o != n && Kept(p, n, writes, o) {
        assert Seen(p, s, o);
        ViewStays(p, n, writes, s, t, o);
      } else {
        OwnSeen(p, m, s, n);
      }
    }
  }

  lemma PureAs(m: Meaning, pure_: set<nat>)
    requires Pure(m, pure_)
    ensures Pure(As(m, Strict), pure_)
  {
  }

  /** A block that is entered with these nodes steady, and what it leaves the next one. */
  lemma {:induction false} ListAgrees(p: Program, m: Meaning, pure_: set<nat>, entry: seq<set<Id>>, s: State,
      steady: set<Id>, list: seq<Id>)
    requires Pure(m, pure_) && AllSeen(p, s, steady) && ListSteady(p, pure_, entry, steady, list)
    ensures var r := ExecList(p, As(m, Strict), s, list);
      && r == ExecList(p, As(m, Defined), s, list)
      && (r.Goto? && r.block < |entry| ==> AllSeen(p, r.st, entry[r.block]))
    decreases |list|
  {
    hide Pure, Seen, Fetch, After;
    if list != [] && list[0] in p.nodes {
      var n := list[0];
      ExecSteady(p, m, s, steady, n);
      var r := Exec(p, As(m, Strict), s, n);
      if r.Next? {
        AfterSeen(p, m, pure_, s, steady, n);
        ListAgrees(p, m, pure_, entry, r.st, After(p, pure_, steady, n), list[1..]);
      }
    }
  }

  lemma {:induction false} BlocksAgree(p: Program, m: Meaning, pure_: set<nat>, entry: seq<set<Id>>, s: State, b: nat,
      fuel: nat)
    requires Pure(m, pure_) && Steadfast(p, pure_, entry) && (b < |entry| ==> AllSeen(p, s, entry[b]))
    ensures Run(p, As(m, Strict), s, b, fuel) == Run(p, As(m, Defined), s, b, fuel)
    decreases fuel
  {
    hide Pure, AllSeen, ExecList, ListSteady;
    if fuel > 0 && b < |p.blocks| {
      ListAgrees(p, m, pure_, entry, s, entry[b], p.blocks[b]);
      var r := ExecList(p, As(m, Strict), s, p.blocks[b]);
      if r.Goto? {
        BlocksAgree(p, m, pure_, entry, r.st, r.block, fuel - 1);
      }
    }
  }

  /** In a program that passes, every run that uses no undefined place is strict: it goes through no stale
      one. */
  lemma SteadfastRuns(p: Program, m: Meaning, pure_: set<nat>, entry: seq<set<Id>>, s: State, fuel: nat)
    requires Pure(m, pure_) && Steadfast(p, pure_, entry)
    ensures Run(p, As(m, Strict), s, 0, fuel) == Run(p, As(m, Defined), s, 0, fuel)
  {
    BlocksAgree(p, m, pure_, entry, s, 0, fuel);
  }

  // ---------- within one block ----------

  /** The node at j is steady up to i: nothing between changes what it depends on.  For the content of a
      variable that is to say that nothing between writes. */
  predicate HeldFrom(p: Program, pure_: set<nat>, list: seq<Id>, j: nat, i: nat)
    requires j < i <= |list|
  {
    && InOrder(p, list[j]) && Kept(p, list[j], false, list[j])
    && forall k :: j < k < i ==>
      && list[k] in p.nodes && list[k] != list[j]
      && Kept(p, list[k], Writes(pure_, p.nodes[list[k]].kind), list[j])
  }

  predicate HeldAt(p: Program, pure_: set<nat>, list: seq<Id>, a: Id, i: nat)
    requires i <= |list|
  {
    exists j :: 0 <= j < i && list[j] == a && HeldFrom(p, pure_, list, j, i)
  }

  /** Every node that is looked through stands before its user in the same block and is steady up to it. */
  predicate LocallySteady(p: Program, pure_: set<nat>, list: seq<Id>) {
    forall i, k :: 0 <= i < |list| && list[i] in p.nodes && 0 <= k < |p.nodes[list[i]].args| ==>
      Looked(p, p.nodes[list[i]].kind, k, p.nodes[list[i]].args[k]) ==>
      HeldAt(p, pure_, list, p.nodes[list[i]].args[k], i)
  }

  function NoneSteady(p: Program): seq<set<Id>> {
    seq(|p.blocks|, b => {})
  }

  lemma {:induction false} LocalList(p: Program, pure_: set<nat>, list: seq<Id>, i: nat, steady: set<Id>)
    requires LocallySteady(p, pure_, list) && i <= |list|
    requires forall j :: 0 <= j < i && HeldFrom(p, pure_, list, j, i) ==> list[j] in steady
    ensures ListSteady(p, pure_, NoneSteady(p), steady, list[i..])
    decreases |list| - i
  {
    hide Kept, Looked, InOrder, LookedThrough;
    if i < |list| && list[i] in p.nodes {
      var n := list[i];
      assert list[i..][0] == n && list[i..][1..] == list[i + 1..];
      forall k | 0 <= k < |p.nodes[n].args| && Looked(p, p.nodes[n].kind, k, p.nodes[n].args[k])
        ensures p.nodes[n].args[k] in steady
      {
        assert HeldAt(p, pure_, list, p.nodes[n].args[k], i);
      }
      var after := After(p, pure_, steady, n);
      forall j | 0 <= j < i + 1 && HeldFrom(p, pure_, list, j, i + 1) ensures list[j] in after {
        if j < i {
          assert HeldFrom(p, pure_, list, j, i);
          InOrderLooks(p, list[j]);
        } else {
          InOrderLooks(p, n);
        }
      }
      LocalList(p, pure_, list, i + 1, after);
    }
  }

  lemma InOrderLooks(p: Program, o: Id)
    requires InOrder(p, o)
    ensures LookedThrough(p, o)
  {
  }

  /** A program that takes each field, index or address in the block of the dereference it is taken of, with
      nothing that it depends on changed in between, passes. */
  lemma LocalSteadfast(p: Program, pure_: set<nat>)
    requires forall b :: 0 <= b < |p.blocks| ==> LocallySteady(p, pure_, p.blocks[b])
    ensures Steadfast(p, pure_, NoneSteady(p))
  {
    hide LocallySteady, ListSteady;
    forall b | 0 <= b < |p.blocks| ensures ListSteady(p, pure_, NoneSteady(p), {}, p.blocks[b]) {
      LocalList(p, pure_, p.blocks[b], 0, {});
      assert p.blocks[b][0..] == p.blocks[b];
    }
  }
}
