/** The runtime's insertion sort: what it computes, and its in-place form on arrays.  The comparison of
    the element type is the order of a rank; SortReverse compares the other way round, so it is Sort with
    the opposite rank. */
module Sorting {
  /** The element joins from the back: it passes the greater ones and stops at the first that is not. */
  function Insert<T>(p: seq<T>, x: T, rank: T -> int): (r: seq<T>)
    ensures |r| == |p| + 1
  {
    if p == [] then [x]
    else if rank(p[|p| - 1]) > rank(x) then Insert(p[..|p| - 1], x, rank) + [p[|p| - 1]]
    else p + [x]
  }

  function InsertionSort<T>(s: seq<T>, rank: T -> int): (r: seq<T>)
    ensures |r| == |s|
  {
    if s == [] then [] else Insert(InsertionSort(s[..|s| - 1], rank), s[|s| - 1], rank)
  }

  ghost predicate Sorted<T>(s: seq<T>, rank: T -> int) {
    forall i, j :: 0 <= i < j < |s| ==> rank(s[i]) <= rank(s[j])
  }

  /** The elements of one rank, in order. */
  function OfRank<T>(s: seq<T>, rank: T -> int, k: int): seq<T> {
    if s == [] then [] else
    OfRank(s[..|s| - 1], rank, k) + (if rank(s[|s| - 1]) == k then [s[|s| - 1]] else [])
  }

  /** Sorted, and the elements of each rank are the same in the same order. */
  ghost predicate StablySorts<T>(r: seq<T>, s: seq<T>, rank: T -> int) {
    Sorted(r, rank) && forall k: int :: OfRank(r, rank, k) == OfRank(s, rank, k)
  }

  lemma {:induction false} InsertSorted<T(!new)>(p: seq<T>, x: T, rank: T -> int)
    requires Sorted(p, rank)
    ensures Sorted(Insert(p, x, rank), rank)
    ensures forall y :: y in Insert(p, x, rank) <==> y == x || y in p
  {
    if p != [] {
      var last := p[|p| - 1];
      var front := p[..|p| - 1];
      assert p == front + [last];
      if rank(last) > rank(x) {
        InsertSorted(front, x, rank);
        var r := Insert(front, x, rank);
        forall i | 0 <= i < |r| ensures rank(r[i]) <= rank(last) {
          var y: T := r[i];
          assert y in r;
          if y != x {
            assert y in front;
            var j :| 0 <= j < |front| && front[j] == y;
            assert p[j] == y && rank(p[j]) <= rank(p[|p| - 1]);
          }
        }
      }
    }
  }

  lemma OfRankAppend<T>(s: seq<T>, x: T, rank: T -> int, k: int)
    ensures OfRank(s + [x], rank, k) == OfRank(s, rank, k) + (if rank(x) == k then [x] else [])
  {
    assert (s + [x])[..|s|] == s;
  }

  lemma {:induction false} InsertStable<T>(p: seq<T>, x: T, rank: T -> int, k: int)
    requires Sorted(p, rank)
    ensures OfRank(Insert(p, x, rank), rank, k) == OfRank(p + [x], rank, k)
  {
    OfRankAppend(p, x, rank, k);
    if p != [] && rank(p[|p| - 1]) > rank(x) {
      var last := p[|p| - 1];
      var front := p[..|p| - 1];
      assert p == front + [last];
      InsertStable(front, x, rank, k);
      OfRankAppend(front, x, rank, k);
      OfRankAppend(front, last, rank, k);
      OfRankAppend(Insert(front, x, rank), last, rank, k);
    } else if p == [] {
      assert p + [x] == [x];
    }
  }

  /** Insertion sort sorts, and it is stable. */
  lemma {:induction false} SortsStably<T(!new)>(s: seq<T>, rank: T -> int)
    ensures StablySorts(InsertionSort(s, rank), s, rank)
  {
    if s != [] {
      var front, x := s[..|s| - 1], s[|s| - 1];
      SortsStably(front, rank);
      InsertSorted(InsertionSort(front, rank), x, rank);
      assert s == front + [x];
      forall k: int ensures OfRank(InsertionSort(s, rank), rank, k) == OfRank(s, rank, k) {
        InsertStable(InsertionSort(front, rank), x, rank, k);
        OfRankAppend(InsertionSort(front, rank), x, rank, k);
        OfRankAppend(front, x, rank, k);
      }
    }
  }

  lemma LastOfRank<T>(s: seq<T>, rank: T -> int)
    requires s != []
    ensures OfRank(s, rank, rank(s[|s| - 1])) != []
  {
  }

  /** Being sorted with the same elements of each rank in the same order leaves no choice. */
  lemma {:induction false} StableSortUnique<T>(a: seq<T>, b: seq<T>, rank: T -> int)
    requires Sorted(a, rank) && Sorted(b, rank)
    requires forall k: int :: OfRank(a, rank, k) == OfRank(b, rank, k)
    ensures a == b
    decreases |a|
  {
    if a == [] {
      if b != [] {
        LastOfRank(b, rank);
        assert false;
      }
    } else if b == [] {
      LastOfRank(a, rank);
      assert false;
    } else {
      var x, y := a[|a| - 1], b[|b| - 1];
      var p, q := a[..|a| - 1], b[..|b| - 1];
      assert a == p + [x] && b == q + [y];
      OfRankMember(a, rank, rank(y));
      OfRankMember(b, rank, rank(x));
      assert rank(x) == rank(y);
      assert OfRank(a, rank, rank(x)) == OfRank(b, rank, rank(x));
      assert OfRank(a, rank, rank(x))[|OfRank(p, rank, rank(x))|] == x;
      assert x == y && |OfRank(p, rank, rank(x))| == |OfRank(q, rank, rank(x))|;
      forall k: int ensures OfRank(p, rank, k) == OfRank(q, rank, k) {
        assert OfRank(a, rank, k) == OfRank(b, rank, k);
        assert OfRank(p, rank, k) == OfRank(a, rank, k)[..|OfRank(p, rank, k)|];
        assert OfRank(q, rank, k) == OfRank(b, rank, k)[..|OfRank(q, rank, k)|];
      }
      StableSortUnique(p, q, rank);
    }
  }

  /** Where some element of a rank is, the last element's rank is at least as great. */
  lemma {:induction false} OfRankMember<T>(s: seq<T>, rank: T -> int, k: int)
    requires Sorted(s, rank)
    ensures OfRank(s, rank, k) != [] ==> s != [] && k <= rank(s[|s| - 1])
  {
    if s != [] {
      OfRankMember(s[..|s| - 1], rank, k);
    }
  }

  /** The two loops of the sort leave the values of a permutation. */
  lemma {:induction false} InsertPermutes<T>(p: seq<T>, x: T, rank: T -> int)
    ensures multiset(Insert(p, x, rank)) == multiset(p) + multiset{x}
  {
    if p != [] {
      assert p == p[..|p| - 1] + [p[|p| - 1]];
      InsertPermutes(p[..|p| - 1], x, rank);
    }
  }

  lemma {:induction false} SortPermutes<T>(s: seq<T>, rank: T -> int)
    ensures multiset(InsertionSort(s, rank)) == multiset(s)
  {
    if s != [] {
      assert s == s[..|s| - 1] + [s[|s| - 1]];
      SortPermutes(s[..|s| - 1], rank);
      InsertPermutes(InsertionSort(s[..|s| - 1], rank), s[|s| - 1], rank);
    }
  }

  // ---------- the inner loop ----------

  /** The state of the inner loop: of the sorted prefix p the elements after position j have moved one
      place to the right, each greater than the key; position j + 1 may hold anything. */
  ghost predicate Shifting<T>(cur: seq<T>, p: seq<T>, rest: seq<T>, j: int, key: T, rank: T -> int) {
    && -1 <= j < |p|
    && |cur| == |p| + 1 + |rest|
    && cur[..j + 1] == p[..j + 1]
    && cur[j + 2..|p| + 1] == p[j + 1..]
    && cur[|p| + 1..] == rest
    && forall k :: j < k < |p| ==> rank(p[k]) > rank(key)
  }

  lemma ShiftStep<T>(cur: seq<T>, p: seq<T>, rest: seq<T>, j: int, key: T, rank: T -> int)
    requires Shifting(cur, p, rest, j, key, rank) && j >= 0 && rank(cur[j]) > rank(key)
    ensures Shifting(cur[j + 1 := cur[j]], p, rest, j - 1, key, rank)
  {
    var next := cur[j + 1 := cur[j]];
    assert cur[..j + 1][j] == p[..j + 1][j];
    assert next[..j] == cur[..j + 1][..j] == p[..j];
    assert next[j + 1..|p| + 1] == [cur[j]] + cur[j + 2..|p| + 1];
    assert p[j..] == [p[j]] + p[j + 1..];
    assert next[|p| + 1..] == cur[|p| + 1..];
  }

  lemma {:induction false} InsertAt<T>(p: seq<T>, j: int, key: T, rank: T -> int)
    requires -1 <= j < |p|
    requires j >= 0 ==> rank(p[j]) <= rank(key)
    requires forall k :: j < k < |p| ==> rank(p[k]) > rank(key)
    ensures Insert(p, key, rank) == p[..j + 1] + [key] + p[j + 1..]
    decreases |p|
  {
    var last := if p == [] then key else p[|p| - 1];
    if j < |p| - 1 {
      var front := p[..|p| - 1];
      assert rank(last) > rank(key);
      InsertAt(front, j, key, rank);
      Regroup(front[..j + 1], key, front[j + 1..], last);
      assert front[..j + 1] == p[..j + 1];
      assert front[j + 1..] + [last] == p[j + 1..];
    } else {
      assert p[..j + 1] == p && p[j + 1..] == [];
      assert p == [] ==> Insert(p, key, rank) == p + [key];
    }
  }

  lemma Regroup<T>(a: seq<T>, x: T, b: seq<T>, y: T)
    ensures a + [x] + b + [y] == a + [x] + (b + [y])
  {
  }

  lemma ShiftEnd<T>(cur: seq<T>, p: seq<T>, rest: seq<T>, j: int, key: T, rank: T -> int)
    requires Shifting(cur, p, rest, j, key, rank)
    requires j >= 0 ==> rank(cur[j]) <= rank(key)
    ensures cur[j + 1 := key] == Insert(p, key, rank) + rest
  {
    if j >= 0 {
      assert cur[..j + 1][j] == p[..j + 1][j];
    }
    InsertAt(p, j, key, rank);
    var next := cur[j + 1 := key];
    assert next == next[..j + 1] + [next[j + 1]] + next[j + 2..|p| + 1] + next[|p| + 1..];
    assert next[..j + 1] == cur[..j + 1] && next[j + 2..|p| + 1] == cur[j + 2..|p| + 1];
    assert next[|p| + 1..] == cur[|p| + 1..];
  }

  lemma ShiftStart<T>(cur: seq<T>, s: seq<T>, i: nat, rank: T -> int)
    requires i < |s| && cur == InsertionSort(s[..i], rank) + s[i..]
    ensures Shifting(cur, InsertionSort(s[..i], rank), s[i + 1..], i - 1, s[i], rank) && cur[i] == s[i]
    ensures Insert(InsertionSort(s[..i], rank), s[i], rank) == InsertionSort(s[..i + 1], rank)
  {
    assert s[..i + 1][..i] == s[..i];
  }

  lemma SortOfShort<T>(s: seq<T>, rank: T -> int)
    requires |s| <= 1
    ensures InsertionSort(s, rank) == s
  {
  }

  /** Sort on an array: both operands of its loop guard are evaluated, so the element before the first is
      read, with whatever value, and the answer is thrown away. */
  method Sort<T(0)>(a: array<T>, rank: T -> int)
    modifies a
    ensures a[..] == InsertionSort(old(a[..]), rank)
  {
    hide InsertionSort, Insert, Shifting;
    ghost var s := a[..];
    if a.Length > 0 {
      assert s[..1] == [s[0]] && s == s[..1] + s[1..];
      SortOfShort(s[..1], rank);
    }
    var i := 1;
    while i < a.Length
      invariant 1 <= i && (a.Length == 0 || i <= a.Length)
      invariant a.Length > 0 ==> a[..] == InsertionSort(s[..i], rank) + s[i..]
    {
      var key := a[i];
      var j := i - 1;
      ghost var p, rest := InsertionSort(s[..i], rank), s[i + 1..];
      ShiftStart(a[..], s, i, rank);
      var before: T := *;
      var greater := rank(if j >= 0 then a[j] else before) > rank(key);
      while j >= 0 && greater
        invariant Shifting(a[..], p, rest, j, key, rank)
        invariant j >= 0 ==> greater == (rank(a[j]) > rank(key))
      {
        ShiftStep(a[..], p, rest, j, key, rank);
        ghost var next := a[..][j + 1 := a[j]];
        a[j + 1] := a[j];
        assert a[..] == next;
        j := j - 1;
        before := *;
        greater := rank(if j >= 0 then a[j] else before) > rank(key);
      }
      ShiftEnd(a[..], p, rest, j, key, rank);
      ghost var next := a[..][j + 1 := key];
      a[j + 1] := key;
      assert a[..] == next;
      i := i + 1;
    }
    assert a.Length > 0 ==> s[..i] == s && s[i..] == [];
  }
}
