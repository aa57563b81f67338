/** Ordering the functions of a module so that what a function refers to comes before it. */
module CallGraph {
  import opened Wrappers

  /** The functions each function's instructions refer to, in instruction and operand order. */
  type References = map<nat, seq<nat>>

  ghost predicate Edge(refs: References, f: nat, g: nat) {
    f in refs && g in refs[f]
  }

  ghost predicate IsPath(refs: References, p: seq<nat>) {
    |p| > 0 && forall i :: 0 <= i < |p| - 1 ==> Edge(refs, p[i], p[i + 1])
  }

  ghost predicate Reaches(refs: References, f: nat, g: nat) {
    exists p :: IsPath(refs, p) && p[0] == f && p[|p| - 1] == g
  }

  lemma ReachesSelf(refs: References, f: nat)
    ensures Reaches(refs, f, f)
  {
    assert IsPath(refs, [f]);
  }

  lemma ReachesThen(refs: References, f: nat, g: nat, h: nat)
    requires Reaches(refs, f, g) && Edge(refs, g, h)
    ensures Reaches(refs, f, h)
  {
    var p :| IsPath(refs, p) && p[0] == f && p[|p| - 1] == g;
    var q := p + [h];
    assert forall i :: 0 <= i < |q| - 1 ==> Edge(refs, q[i], q[i + 1]);
    assert IsPath(refs, q) && q[0] == f && q[|q| - 1] == h;
  }

  ghost function Elements(s: seq<nat>): set<nat> {
    set x | x in s
  }

  /** Each reference to a member stands before its user, unless it reaches its user. */
  ghost predicate Ordered(refs: References, members: set<nat>, list: seq<nat>) {
    forall i, g :: 0 <= i < |list| && g in members && Edge(refs, list[i], g) ==>
      g in list[..i] || Reaches(refs, g, list[i])
  }

  lemma OrderedPush(refs: References, members: set<nat>, list: seq<nat>, f: nat)
    requires Ordered(refs, members, list)
    requires forall g :: g in members && Edge(refs, f, g) ==> g in list || Reaches(refs, g, f)
    ensures Ordered(refs, members, list + [f])
  {
    var l := list + [f];
    forall i, g | 0 <= i < |l| && g in members && Edge(refs, l[i], g)
      ensures g in l[..i] || Reaches(refs, g, l[i])
    {
      if i < |list| {
        assert l[..i] == list[..i] && l[i] == list[i];
      } else {
        assert l[..i] == list;
      }
    }
  }

  lemma OperandEdge(refs: References, f: nat, operands: seq<nat>, i: nat)
    requires operands == (if f in refs then refs[f] else []) && i < |operands|
    ensures Edge(refs, f, operands[i])
  {
  }

  lemma EdgesPlaced(refs: References, members: set<nat>, list: seq<nat>, f: nat, operands: seq<nat>)
    requires operands == if f in refs then refs[f] else []
    requires forall j :: 0 <= j < |operands| && operands[j] in members ==>
      operands[j] in list || Reaches(refs, operands[j], f)
    ensures forall g :: g in members && Edge(refs, f, g) ==> g in list || Reaches(refs, g, f)
  {
  }

  /** A list without the values of another one. */
  function Difference(s: seq<nat>, removed: seq<nat>): (r: seq<nat>)
    ensures forall x :: x in r <==> x in s && x !in removed
  {
    if s == [] then []
    else if s[0] in removed then Difference(s[1..], removed)
    else [s[0]] + Difference(s[1..], removed)
  }

  lemma {:induction false} DifferenceAll(s: seq<nat>, removed: seq<nat>)
    requires forall x :: x in s ==> x in removed
    ensures Difference(s, removed) == []
  {
    if s != [] {
      DifferenceAll(s[1..], removed);
    }
  }

  class Module {
    var functions: seq<nat>
    var refs: References

    constructor (functions: seq<nat>, refs: References)
      ensures this.functions == functions && this.refs == refs
    {
      this.functions := functions;
      this.refs := refs;
    }

    /** Depth first from f: whatever f refers to goes into the list before f does. */
    method TopologicalSortFunctionVisit(f: nat, sort: Sort, ghost members: set<nat>)
      requires sort.Valid(refs, members) && f in members && f !in sort.gray
      requires forall s :: s in sort.gray && s !in sort.list ==> Reaches(refs, s, f)
      modifies sort
      ensures sort.Valid(refs, members)
      ensures old(sort.list) <= sort.list && f in sort.list
      ensures old(sort.gray) <= sort.gray
      ensures sort.gray - Elements(sort.list) == old(sort.gray - Elements(sort.list))
      decreases members - sort.gray
    {
      hide Ordered, Reaches, Edge;
      ghost var stack := sort.gray - Elements(sort.list);
      sort.gray := sort.gray + {f};
      var operands := if f in refs then refs[f] else [];
      ReachesSelf(refs, f);
      for i := 0 to |operands|
        invariant sort.Valid(refs, members)
        invariant old(sort.list) <= sort.list && old(sort.gray) + {f} <= sort.gray
        invariant sort.gray - Elements(sort.list) == stack + {f}
        invariant forall j :: 0 <= j < i && operands[j] in members ==>
                    operands[j] in sort.list || Reaches(refs, operands[j], f)
      {
        var g := operands[i];
        // only functions of the same module are sorted
        if sort.InModule(g) {
          if g in sort.gray {
            if g !in sort.list {
              assert g in stack + {f};
            }
          } else {
            OperandEdge(refs, f, operands, i);
            forall s | s in sort.gray && s !in sort.list ensures Reaches(refs, s, g) {
              assert s in stack + {f};
              ReachesThen(refs, s, f, g);
            }
            TopologicalSortFunctionVisit(g, sort, members);
          }
        }
      }
      assert f in sort.gray - Elements(sort.list);
      EdgesPlaced(refs, members, sort.list, f, operands);
      OrderedPush(refs, members, sort.list, f);
      sort.list := sort.list + [f];
    }

    /** Sorts the functions of the module, whatever its call graph. */
    method TopologicalSortFunction()
      requires Distinct(functions)
      modifies this
      ensures refs == old(refs) && Sorted(refs, old(functions), functions)
    {
      ghost var before := functions;
      ghost var members := Elements(functions);
      var sort := new Sort(set f | f in functions);
      assert sort.Valid(refs, members);
      hide Ordered, Sorted, Distinct, Reaches;
      for i := 0 to |functions|
        invariant sort.Valid(refs, members) && functions == before && refs == old(refs)
        invariant forall s :: s in sort.gray ==> s in sort.list
        invariant forall j :: 0 <= j < i ==> functions[j] in sort.list
      {
        var f := functions[i];
        if f !in sort.gray {
          assert sort.gray - Elements(sort.list) == {};
          TopologicalSortFunctionVisit(f, sort, members);
          forall s | s in sort.gray ensures s in sort.list {
            assert s !in sort.gray - Elements(sort.list);
          }
        }
      }
      DifferenceAll(functions, sort.list);
      functions := Difference(functions, sort.list);
      functions := functions + sort.list;
      assert functions == sort.list;
      SortedAtEnd(refs, before, functions);
    }
  }

  /** Two lists without duplicates and with the same elements are permutations of each other. */
  lemma {:induction false} SameElementsPermute(a: seq<nat>, b: seq<nat>)
    requires Distinct(a) && Distinct(b) && Elements(a) == Elements(b)
    ensures multiset(a) == multiset(b)
  {
    forall x ensures multiset(a)[x] == multiset(b)[x] {
      DistinctCount(a, x);
      DistinctCount(b, x);
      assert x in a <==> x in Elements(a);
      assert x in b <==> x in Elements(b);
    }
  }

  lemma {:induction false} DistinctCount(s: seq<nat>, x: nat)
    requires Distinct(s)
    ensures multiset(s)[x] == if x in s then 1 else 0
  {
    if s != [] {
      DistinctCount(s[1..], x);
      assert s == [s[0]] + s[1..];
    }
  }

  /** The order that the search leaves: a permutation in which each reference that does not lead back
      to its user stands before it. */
  ghost predicate Sorted(refs: References, before: seq<nat>, after: seq<nat>) {
    && multiset(after) == multiset(before)
    && forall i, g :: 0 <= i < |after| && g in before && Edge(refs, after[i], g) && !Reaches(refs, g, after[i]) ==>
         g in after[..i]
  }

  lemma SortedAtEnd(refs: References, before: seq<nat>, list: seq<nat>)
    requires Distinct(before) && Distinct(list) && Ordered(refs, Elements(before), list)
    requires Elements(list) <= Elements(before) && forall f :: f in before ==> f in list
    ensures Sorted(refs, before, list)
  {
    assert Elements(list) == Elements(before);
    SameElementsPermute(list, before);
    forall i, g | 0 <= i < |list| && g in before && Edge(refs, list[i], g) && !Reaches(refs, g, list[i])
      ensures g in list[..i]
    {
      assert g in Elements(before);
    }
  }

  /** In a module without recursion every reference stands before its user. */
  lemma SortedAcyclic(refs: References, before: seq<nat>, after: seq<nat>, i: nat, g: nat)
    requires Sorted(refs, before, after) && i < |after| && g in before && Edge(refs, after[i], g)
    requires forall f, h :: Edge(refs, f, h) ==> !Reaches(refs, h, f)
    ensures g in after[..i]
  {
  }

  /** The state the search shares: the list of finished functions and the set of those begun. */
  class Sort {
    var list: seq<nat>
    var gray: set<nat>
    const module_: set<nat>

    constructor (members: set<nat>)
      ensures list == [] && gray == {} && module_ == members
    {
      list := [];
      gray := {};
      module_ := members;
    }

    predicate InModule(g: nat) {
      g in module_
    }

    ghost predicate Valid(refs: References, members: set<nat>)
      reads this
    {
      && members == module_ && gray <= members
      && Distinct(list) && Elements(list) <= gray
      && Ordered(refs, members, list)
    }
  }
}
