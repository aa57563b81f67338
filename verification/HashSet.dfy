/** The runtime's set, kept in a hash table whose values do not matter. */
module HashSet {
  import opened HashDict

  class Set<K(==, 0)> {
    const dict: HashDict<K, bool>

    ghost predicate Valid()
      reads this, dict, dict.buckets, dict.nodes
    {
      dict.Valid() && forall n, m :: n in dict.nodes && m in dict.nodes && n.key == m.key ==> n == m
    }

    ghost function Elements(): set<K>
      reads dict
    {
      set n | n in dict.nodes :: n.key
    }

    constructor (cast_: K -> int)
      ensures Valid() && Elements() == {} && dict.cast_ == cast_ && dict.nodes == {}
      ensures fresh(dict) && fresh(dict.buckets)
    {
      dict := new HashDict(cast_);
    }

    method Contains(element: K) returns (found: bool)
      requires Valid() && 0 <= HashIndex(dict.cast_, element) < SIZE
      ensures found <==> element in Elements()
    {
      hide Chain, Registered, HashDict.Valid, Set.Valid, HashIndex;
      SetDict();
      var index := HashIndex(dict.cast_, element);
      dict.Step(index, 0);
      ghost var s := dict.chains[index];
      var node := dict.buckets[index];
      ghost var j := 0;
      while node != null
        invariant 0 <= j <= |s| && node == At(s, j)
        invariant forall k :: 0 <= k < j ==> s[k].key != element
        decreases |s| - j
      {
        dict.Step(index, j);
        if node.key == element {
          return true;
        }
        node := node.next;
        j := j + 1;
      }
      dict.NoneWithKey(element, s);
      return false;
    }

    method Add(element: K)
      requires Valid() && 0 <= HashIndex(dict.cast_, element) < SIZE
      modifies dict`count, dict`nodes, dict`chains, dict.buckets
      ensures Valid() && Elements() == old(Elements()) + {element}
      ensures old(dict.nodes) <= dict.nodes && fresh(dict.nodes - old(dict.nodes))
    {
      hide HashDict.Valid;
      var found := Contains(element);
      if !found {
        ghost var before := dict.nodes;
        var node := dict.InsertNode(element, true);
        KeysOfMore(before, node);
      }
    }

    method Remove(element: K)
      requires Valid() && 0 <= HashIndex(dict.cast_, element) < SIZE
      modifies dict`count, dict`nodes, dict`chains, dict.buckets, dict.nodes
      ensures Valid() && Elements() == old(Elements()) - {element}
      ensures forall n :: n in old(dict.nodes) && n !in dict.nodes ==> n.freed
    {
      hide FirstGone;
      ghost var before := dict.nodes;
      var removed := dict.Remove(element);
      assert Elements() == (set n | n in before :: n.key) - {element} by {
        forall n | n in before ensures n.key != element <==> n in dict.nodes {
        }
      }
    }

    method IsEmpty() returns (empty: bool)
      requires Valid()
      ensures empty <==> Elements() == {}
    {
      empty := dict.count == 0;
      KeysCount(dict.nodes);
    }

    method Count() returns (count: int)
      requires Valid()
      ensures count == |Elements()|
    {
      count := dict.count;
      KeysCount(dict.nodes);
    }

    /** Adds the elements that the other set has, or has not, bucket after bucket, chain after chain. */
    method AddTo(result: Set<K>, other: Set<K>, wanted: bool)
      requires Valid() && other.Valid() && result.Valid()
      requires result.dict.cast_ == dict.cast_ == other.dict.cast_
      requires result.dict != dict && result.dict.buckets != dict.buckets
      requires result.dict != other.dict && result.dict.buckets != other.dict.buckets
      modifies result.dict`count, result.dict`nodes, result.dict`chains, result.dict.buckets
      ensures result.Valid() && Valid() && other.Valid()
      ensures result.Elements() == old(result.Elements()) + Kept(Elements(), other.Elements(), wanted)
      ensures old(result.dict.nodes) <= result.dict.nodes && fresh(result.dict.nodes - old(result.dict.nodes))
    {
      ghost var start, seen: set<K> := result.Elements(), {};
      var i := 0;
      while i < SIZE
        invariant 0 <= i <= SIZE && Valid() && other.Valid() && result.Valid() && seen <= Elements()
        invariant forall n :: n in dict.nodes && HashIndex(dict.cast_, n.key) < i ==> n.key in seen
        invariant result.Elements() == start + Kept(seen, other.Elements(), wanted)
        invariant old(result.dict.nodes) <= result.dict.nodes && fresh(result.dict.nodes - old(result.dict.nodes))
      {
        seen := AddBucket(result, other, wanted, i, start, seen);
        i := i + 1;
      }
      assert seen == Elements();
    }

    method AddKept(result: Set<K>, other: Set<K>, wanted: bool, key: K, ghost start: set<K>, ghost seen: set<K>)
      requires other.Valid() && result.Valid() && result.dict.cast_ == other.dict.cast_
      requires 0 <= HashIndex(result.dict.cast_, key) < SIZE
      requires result.dict != other.dict && result.dict.buckets != other.dict.buckets
      requires result.Elements() == start + Kept(seen, other.Elements(), wanted)
      modifies result.dict`count, result.dict`nodes, result.dict`chains, result.dict.buckets
      ensures result.Valid() && result.Elements() == start + Kept(seen + {key}, other.Elements(), wanted)
      ensures old(result.dict.nodes) <= result.dict.nodes && fresh(result.dict.nodes - old(result.dict.nodes))
    {
      hide Registered, HashIndex, Chain, HashDict.Valid, Set.Valid, Kept;
      var there := other.Contains(key);
      if there == wanted {
        result.Add(key);
      }
      KeptMore(seen, key, other.Elements(), wanted);
    }

    method AddBucket(result: Set<K>, other: Set<K>, wanted: bool, i: int, ghost start: set<K>,
        ghost before: set<K>) returns (ghost seen: set<K>)
      requires Valid() && other.Valid() && result.Valid() && 0 <= i < SIZE
      requires result.dict.cast_ == dict.cast_ == other.dict.cast_
      requires result.dict != dict && result.dict.buckets != dict.buckets
      requires result.dict != other.dict && result.dict.buckets != other.dict.buckets
      requires before <= Elements() && result.Elements() == start + Kept(before, other.Elements(), wanted)
      modifies result.dict`count, result.dict`nodes, result.dict`chains, result.dict.buckets
      ensures result.Valid() && Valid() && other.Valid() && before <= seen <= Elements()
      ensures result.Elements() == start + Kept(seen, other.Elements(), wanted)
      ensures forall n :: n in dict.nodes && HashIndex(dict.cast_, n.key) == i ==> n.key in seen
      ensures old(result.dict.nodes) <= result.dict.nodes && fresh(result.dict.nodes - old(result.dict.nodes))
    {
      hide Registered, HashIndex, Chain, HashDict.Valid, Set.Valid, Kept;
      SetDict();
      dict.Step(i, 0);
      ghost var s := dict.chains[i];
      seen := before;
      var node := dict.buckets[i];
      ghost var j := 0;
      while node != null
        invariant 0 <= j <= |s| && node == At(s, j)
        invariant Valid() && other.Valid() && result.Valid() && before <= seen <= Elements()
        invariant forall k :: 0 <= k < j ==> s[k].key in seen
        invariant result.Elements() == start + Kept(seen, other.Elements(), wanted)
        invariant old(result.dict.nodes) <= result.dict.nodes && fresh(result.dict.nodes - old(result.dict.nodes))
        decreases |s| - j
      {
        SetDict();
        dict.Step(i, j);
        AddKept(result, other, wanted, node.key, start, seen);
        seen := seen + {node.key};
        node := node.next;
        j := j + 1;
      }
      SetDict();
      dict.AllInBucket(i);
    }

    /** The operands stay as they are; the result is a set of its own. */
    method Union(other: Set<K>) returns (result: Set<K>)
      requires Valid() && other.Valid() && dict.cast_ == other.dict.cast_
      ensures result.Valid() && fresh(result) && fresh(result.dict)
      ensures result.Elements() == Elements() + other.Elements()
    {
      hide HashDict.Valid, Set.Valid;
      result := new Set(dict.cast_);
      AddTo(result, this, true);
      other.AddTo(result, other, true);
      assert Kept(Elements(), Elements(), true) == Elements();
    }

    method Intersection(other: Set<K>) returns (result: Set<K>)
      requires Valid() && other.Valid() && dict.cast_ == other.dict.cast_
      ensures result.Valid() && fresh(result) && fresh(result.dict)
      ensures result.Elements() == Elements() * other.Elements()
    {
      result := new Set(dict.cast_);
      AddTo(result, other, true);
    }

    method Difference(other: Set<K>) returns (result: Set<K>)
      requires Valid() && other.Valid() && dict.cast_ == other.dict.cast_
      ensures result.Valid() && fresh(result) && fresh(result.dict)
      ensures result.Elements() == Elements() - other.Elements()
    {
      result := new Set(dict.cast_);
      AddTo(result, other, false);
    }

    lemma SetDict()
      requires Valid()
      ensures dict.Valid()
    {
    }
  }

  /** The elements of a that b has, or has not. */
  ghost function Kept<K>(a: set<K>, b: set<K>, wanted: bool): set<K> {
    set x | x in a && (x in b) == wanted
  }

  lemma KeptMore<K>(a: set<K>, x: K, b: set<K>, wanted: bool)
    ensures Kept(a + {x}, b, wanted) == Kept(a, b, wanted) + (if (x in b) == wanted then {x} else {})
  {
  }

  lemma KeysOfMore<K(0), V(0)>(nodes: set<HashNode<K, V>>, node: HashNode<K, V>)
    ensures (set n | n in nodes + {node} :: n.key) == (set n | n in nodes :: n.key) + {node.key}
  {
  }

  /** Nodes with different keys have as many keys. */
  lemma {:induction false} KeysCount<K(0), V(0)>(nodes: set<HashNode<K, V>>)
    requires forall n, m :: n in nodes && m in nodes && n.key == m.key ==> n == m
    ensures |set n | n in nodes :: n.key| == |nodes|
    decreases |nodes|
  {
    if nodes != {} {
      var x :| x in nodes;
      var rest := nodes - {x};
      KeysCount(rest);
      assert nodes == rest + {x};
      assert (set n | n in nodes :: n.key) == (set n | n in rest :: n.key) + {x.key};
      assert x.key !in (set n | n in rest :: n.key);
    }
  }
}
