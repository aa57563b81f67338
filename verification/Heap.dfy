/** The runtime's binary heap in an array of fixed size, largest or smallest element first. */
module Heap {
  function Parent(i: int): int {
    if i > 0 then (i - 1) / 2 else 0
  }

  /** No element is ahead of its parent, perhaps except one element and its parent. */
  ghost predicate OrderedBut<T>(s: seq<T>, key: T -> int, hole: int) {
    forall i :: 0 < i < |s| && i != hole ==> key(s[Parent(i)]) >= key(s[i])
  }

  /** The children of an element are not ahead of its parent. */
  ghost predicate Bridged<T>(s: seq<T>, key: T -> int, hole: int) {
    forall i :: 0 < i < |s| && Parent(i) == hole && 0 < hole < |s| ==> key(s[Parent(hole)]) >= key(s[i])
  }

  ghost predicate Ordered<T>(s: seq<T>, key: T -> int) {
    OrderedBut(s, key, 0)
  }

  /** No element is ahead of its parent, perhaps except the children of one. */
  ghost predicate OrderedBelow<T>(s: seq<T>, key: T -> int, hole: int) {
    forall i :: 0 < i < |s| && Parent(i) != hole ==> key(s[Parent(i)]) >= key(s[i])
  }

  /** The root is ahead of everything. */
  lemma {:induction false} RootFirst<T>(s: seq<T>, key: T -> int, i: nat)
    requires Ordered(s, key) && i < |s|
    ensures key(s[0]) >= key(s[i])
    decreases i
  {
    if i > 0 {
      RootFirst(s, key, Parent(i));
    }
  }

  function Swapped<T>(s: seq<T>, i: nat, j: nat): seq<T>
    requires i < |s| && j < |s|
  {
    s[i := s[j]][j := s[i]]
  }

  lemma SwapPermutes<T>(s: seq<T>, i: nat, j: nat)
    requires i < |s| && j < |s|
    ensures multiset(Swapped(s, i, j)) == multiset(s)
  {
  }

  /** An element ahead of its parent changes places with it: the only fault moves up. */
  lemma SwapUp<T>(s: seq<T>, key: T -> int, i: nat)
    requires 0 < i < |s| && OrderedBut(s, key, i) && Bridged(s, key, i) && key(s[i]) > key(s[Parent(i)])
    ensures var t := Swapped(s, i, Parent(i));
      OrderedBut(t, key, Parent(i)) && Bridged(t, key, Parent(i))
  {
  }

  /** The child that is ahead of the other and of the element changes places with it: the fault moves down. */
  lemma SwapDown<T>(s: seq<T>, key: T -> int, i: nat, c: nat)
    requires i < c < |s| && Parent(c) == i && OrderedBelow(s, key, i) && Bridged(s, key, i) && key(s[c]) > key(s[i])
    requires forall d :: 0 < d < |s| && Parent(d) == i ==> key(s[c]) >= key(s[d])
    ensures var t := Swapped(s, i, c);
      OrderedBelow(t, key, c) && Bridged(t, key, c)
  {
  }

  lemma ParentOfChildren(i: nat)
    ensures Parent(2 * i + 1) == i && Parent(2 * i + 2) == i
    ensures forall d :: 0 < d && Parent(d) == i ==> d == 2 * i + 1 || d == 2 * i + 2
  {
  }

  lemma RepairedBelow<T>(s: seq<T>, key: T -> int, i: nat)
    requires OrderedBelow(s, key, i)
    requires forall d :: 0 < d < |s| && Parent(d) == i ==> key(s[i]) >= key(s[d])
    ensures Ordered(s, key)
  {
  }

  class Heap<T(0)> {
    const data: array<T>
    var size: nat
    var isMaxHeap: bool
    const rank: T -> int

    /** The order of the heap as one key: the greatest is first. */
    ghost function Key(): T -> int
      reads this`isMaxHeap
    {
      var max := isMaxHeap;
      var r := rank;
      x => if max then r(x) else -r(x)
    }

    ghost predicate Valid()
      reads this, data
    {
      size <= data.Length && Ordered(data[..size], Key())
    }

    constructor (maxSize: nat, isMaxHeap: bool, rank: T -> int)
      ensures Valid() && size == 0 && data.Length == maxSize && fresh(data)
      ensures this.isMaxHeap == isMaxHeap && this.rank == rank
    {
      data := new T[maxSize];
      size := 0;
      this.isMaxHeap := isMaxHeap;
      this.rank := rank;
    }

    predicate Compare(a: T, b: T)
      reads this
      ensures Compare(a, b) == (Key()(a) > Key()(b))
    {
      if isMaxHeap then rank(a) > rank(b) else rank(a) < rank(b)
    }

    method Peek() returns (top: T)
      requires Valid() && size > 0
      ensures top in data[..size]
      ensures forall x :: x in data[..size] ==> if isMaxHeap then rank(top) >= rank(x) else rank(top) <= rank(x)
    {
      top := data[0];
      assert data[..size][0] == top;
      forall x | x in data[..size] ensures Key()(top) >= Key()(x) {
        var i :| 0 <= i < size && data[..size][i] == x;
        RootFirst(data[..size], Key(), i);
      }
    }

    method Swap(i: nat, j: nat)
      requires i < size && j < size && size <= data.Length
      modifies data
      ensures data[..size] == Swapped(old(data[..size]), i, j)
      ensures multiset(data[..size]) == old(multiset(data[..size]))
    {
      SwapPermutes(data[..size], i, j);
      ghost var t := Swapped(data[..size], i, j);
      var temp := data[i];
      data[i] := data[j];
      data[j] := temp;
      assert data[..size] == t;
    }

    /** At the root the index of the parent is the root again, and both operands of the guard are read. */
    method Push(value: T)
      requires Valid() && size < data.Length
      modifies this`size, data
      ensures Valid() && size == old(size) + 1
      ensures multiset(data[..size]) == old(multiset(data[..size])) + multiset{value}
    {
      ghost var before, key := data[..size], Key();
      data[size] := value;
      var idx := size;
      size := size + 1;
      assert data[..size] == before + [value];
      assert Key() == key;
      var ahead := Compare(data[idx], data[Parent(idx)]);
      while idx > 0 && ahead
        invariant 0 <= idx < size <= data.Length && size == old(size) + 1 && Key() == key
        invariant OrderedBut(data[..size], key, idx) && Bridged(data[..size], key, idx)
        invariant multiset(data[..size]) == multiset(before) + multiset{value}
        invariant ahead == (key(data[idx]) > key(data[Parent(idx)]))
      {
        SwapUp(data[..size], key, idx);
        Swap(idx, Parent(idx));
        idx := Parent(idx);
        ahead := Compare(data[idx], data[Parent(idx)]);
      }
    }

    /** What an index holds; out of range that is anything. */
    method Read(i: nat) returns (x: T)
      ensures i < data.Length ==> x == data[i]
    {
      if i < data.Length {
        x := data[i];
      } else {
        x := *;
      }
    }

    /** The element or the child that is ahead of it and of the other child. */
    method Extreme(idx: nat) returns (extreme: nat)
      requires size <= data.Length && (idx < size || size == 0)
      ensures extreme != idx ==>
        idx < extreme < size && Parent(extreme) == idx && Key()(data[extreme]) > Key()(data[idx])
      ensures forall d :: 0 < d < size && Parent(d) == idx ==> Key()(data[extreme]) >= Key()(data[d])
    {
      extreme := idx;
      var left, right := 2 * idx + 1, 2 * idx + 2;
      ParentOfChildren(idx);
      var a := Read(left);
      var b := Read(extreme);
      var ahead := Compare(a, b);
      if left < size && ahead {
        extreme := left;
      }
      a := Read(right);
      b := Read(extreme);
      ahead := Compare(a, b);
      if right < size && ahead {
        extreme := right;
      }
    }

    /** Mends a heap whose only fault is that the element at idx may be behind its children. */
    method HeapifyDown(idx: nat)
      requires size <= data.Length && (idx < size || size == 0)
      requires OrderedBelow(data[..size], Key(), idx) && Bridged(data[..size], Key(), idx)
      modifies data
      ensures Valid() && multiset(data[..size]) == old(multiset(data[..size]))
      decreases size - idx
    {
      ghost var key := Key();
      var extreme := Extreme(idx);
      hide Ordered, OrderedBelow, Bridged, Key;
      if extreme != idx {
        SwapDown(data[..size], key, idx, extreme);
        Swap(idx, extreme);
        HeapifyDown(extreme);
      } else {
        RepairedBelow(data[..size], key, idx);
      }
    }

    method Pop() returns (top: T)
      requires Valid() && size > 0
      modifies this`size, data
      ensures Valid() && size == old(size) - 1
      ensures old(multiset(data[..size])) == multiset(data[..size]) + multiset{top}
      ensures forall x :: x in data[..size] ==> if isMaxHeap then rank(top) >= rank(x) else rank(top) <= rank(x)
      ensures Key() == old(Key())
    {
      hide Ordered, OrderedBelow, Bridged, Key;
      ghost var before, key := data[..size], Key();
      top := data[0];
      LastToFront(before, key);
      data[0] := data[size - 1];
      size := size - 1;
      MovedFront(data[..size], before);
      HeapifyDown(0);
      Remaining(before, data[..size], key);
      KeyIs();
    }

    lemma KeyIs()
      ensures forall x, y :: Key()(x) >= Key()(y) <==> if isMaxHeap then rank(x) >= rank(y) else rank(x) <= rank(y)
    {
    }
  }

  /** A sequence whose last element took the place of the first. */
  function FrontReplaced<T>(s: seq<T>): (t: seq<T>)
    requires s != []
    ensures |t| == |s| - 1
  {
    if |s| == 1 then [] else [s[|s| - 1]] + s[1..|s| - 1]
  }

  lemma MovedFront<T>(t: seq<T>, s: seq<T>)
    requires s != [] && |t| == |s| - 1
    requires forall i :: 0 <= i < |t| ==> t[i] == if i == 0 then s[|s| - 1] else s[i]
    ensures t == FrontReplaced(s)
  {
  }

  /** What is left are the other elements, and none is ahead of the one that was first. */
  lemma Remaining<T>(s: seq<T>, t: seq<T>, key: T -> int)
    requires s != [] && Ordered(s, key) && multiset(t) == multiset(FrontReplaced(s))
    ensures multiset(s) == multiset(t) + multiset{s[0]}
    ensures forall x :: x in t ==> key(s[0]) >= key(x)
  {
    LastToFront(s, key);
    forall x | x in t ensures key(s[0]) >= key(x) {
      assert x in multiset(t);
      assert x in multiset(FrontReplaced(s));
      var i :| 0 <= i < |s| && s[i] == x;
      RootFirst(s, key, i);
    }
  }

  /** The last element takes the place of the first: the root is the only fault. */
  lemma LastToFront<T>(s: seq<T>, key: T -> int)
    requires s != [] && Ordered(s, key)
    ensures var t := FrontReplaced(s);
      && OrderedBelow(t, key, 0) && Bridged(t, key, 0)
      && multiset(s) == multiset(t) + multiset{s[0]}
      && forall x :: x in multiset(t) ==> x in s
  {
    var n := |s| - 1;
    if n > 0 {
      assert s == [s[0]] + s[1..n] + [s[n]];
    } else {
      assert s == [s[0]];
    }
  }

  /** In order, and everything in it ahead of the rest. */
  ghost predicate Leads<T>(out: seq<T>, key: T -> int, rest: seq<T>) {
    && (forall i, j :: 0 <= i < j < |out| ==> key(out[i]) >= key(out[j]))
    && (forall i, j :: 0 <= i < |out| && 0 <= j < |rest| ==> key(out[i]) >= key(rest[j]))
  }

  lemma LeadsOneMore<T>(out: seq<T>, key: T -> int, before: seq<T>, x: T, rest: seq<T>)
    requires Leads(out, key, before) && multiset(before) == multiset(rest) + multiset{x}
    requires forall y :: y in rest ==> key(x) >= key(y)
    ensures Leads(out + [x], key, rest)
    ensures multiset(out + [x]) + multiset(rest) == multiset(out) + multiset(before)
  {
    InBefore(before, x, rest, x);
    forall j | 0 <= j < |rest| ensures rest[j] in before && key(x) >= key(rest[j]) {
      InBefore(before, x, rest, rest[j]);
      assert rest[j] in rest;
    }
  }

  lemma InBefore<T>(before: seq<T>, x: T, rest: seq<T>, y: T)
    requires multiset(before) == multiset(rest) + multiset{x} && (y == x || y in rest)
    ensures y in before
  {
    assert y in multiset(before);
  }

  /** Popping until nothing is left gives the contents in order, the first first. */
  method PopAll<T(0)>(h: Heap<T>) returns (out: seq<T>)
    requires h.Valid()
    modifies h`size, h.data
    ensures h.size == 0 && h.Valid()
    ensures multiset(out) == old(multiset(h.data[..h.size]))
    ensures forall i, j :: 0 <= i < j < |out| ==>
      if h.isMaxHeap then h.rank(out[i]) >= h.rank(out[j]) else h.rank(out[i]) <= h.rank(out[j])
  {
    out := [];
    ghost var key := h.Key();
    while h.size > 0
      invariant h.Valid() && h.Key() == key && Leads(out, key, h.data[..h.size])
      invariant multiset(out) + multiset(h.data[..h.size]) == old(multiset(h.data[..h.size]))
      decreases h.size
    {
      ghost var before := h.data[..h.size];
      var x := h.Pop();
      assert forall y :: y in h.data[..h.size] ==> key(x) >= key(y);
      LeadsOneMore(out, key, before, x, h.data[..h.size]);
      out := out + [x];
    }
  }
}
