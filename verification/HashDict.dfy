/** The runtime's chained hash table with a fixed number of buckets. */
module HashDict {
  import opened Wrappers
  import opened I64

  const SIZE: int := 32

  class HashNode<K(0), V(0)> {
    const key: K
    const value: V
    var next: HashNode?<K, V>
    var freed: bool

    constructor (key: K, value: V)
      ensures this.key == key && this.value == value && next == null && !freed
    {
      this.key, this.value, next, freed := key, value, null, false;
    }

    method Free()
      requires !freed
      modifies this`freed
      ensures freed
    {
      freed := true;
    }
  }

  /** The node at a place of a chain; before and after it there is none. */
  ghost function At<K(0), V(0)>(s: seq<HashNode<K, V>>, j: int): HashNode?<K, V> {
    if 0 <= j < |s| then s[j] else null
  }

  /** A bucket: a chain of different live nodes whose keys belong there, ended by null. */
  ghost predicate Chain<K(0), V(0)>(head: HashNode?<K, V>, s: seq<HashNode<K, V>>, cast_: K -> int, index: int)
    reads s
  {
    && head == At(s, 0)
    && (forall j, k :: 0 <= j < k < |s| ==> s[j] != s[k])
    && (forall j :: 0 <= j < |s| ==> s[j].next == At(s, j + 1))
    && (forall j :: 0 <= j < |s| ==> !s[j].freed && HashIndex(cast_, s[j].key) == index)
  }

  /** The remainder truncates toward zero, as the source's does. */
  function HashIndex<K>(cast_: K -> int, key: K): int {
    TruncMod(cast_(key), SIZE)
  }

  /** The index is one of a bucket for exactly these casts: a negative one that is not a multiple of the
      number of buckets falls in front of the table. */
  lemma IndexInTable<K>(cast_: K -> int, key: K)
    ensures 0 <= HashIndex(cast_, key) < SIZE <==> (cast_(key) >= 0 || cast_(key) % SIZE == 0)
    ensures 0 <= HashIndex(cast_, key) < SIZE ==> HashIndex(cast_, key) == cast_(key) % SIZE
  {
    var x := cast_(key);
    if x < 0 {
      assert TruncDiv(x, SIZE) == -((-x) / SIZE);
      assert TruncMod(x, SIZE) == x + ((-x) / SIZE) * SIZE == -((-x) % SIZE);
      NegatedRemainder(x);
    }
  }

  lemma NegatedRemainder(x: int)
    ensures (-x) % SIZE == 0 <==> x % SIZE == 0
  {
  }

  lemma ChainFront<K(0), V(0)>(node: HashNode<K, V>, head: HashNode?<K, V>, s: seq<HashNode<K, V>>, cast_: K -> int,
      index: int)
    requires Chain(head, s, cast_, index) && node !in s && node.next == head && !node.freed
    requires HashIndex(cast_, node.key) == index
    ensures Chain(node, [node] + s, cast_, index)
  {
    var t := [node] + s;
    assert forall j :: 0 < j < |t| ==> t[j] == s[j - 1];
    assert forall j :: 0 < j < |t| ==> t[j] in s;
  }

  /** The nodes are those of the chains, each in the chain of its key. */
  ghost predicate Registered<K(0), V(0)>(nodes: set<HashNode<K, V>>, chains: seq<seq<HashNode<K, V>>>,
      cast_: K -> int) {
    && |chains| == SIZE
    && (forall i, n :: 0 <= i < SIZE && n in chains[i] ==> n in nodes && HashIndex(cast_, n.key) == i)
    && (forall n :: n in nodes ==> Filed(n, chains, cast_))
  }

  ghost predicate Filed<K(0), V(0)>(n: HashNode<K, V>, chains: seq<seq<HashNode<K, V>>>, cast_: K -> int)
    requires |chains| == SIZE
  {
    0 <= HashIndex(cast_, n.key) < SIZE && n in chains[HashIndex(cast_, n.key)]
  }

  lemma RegisteredPut<K(0), V(0)>(nodes: set<HashNode<K, V>>, chains: seq<seq<HashNode<K, V>>>, cast_: K -> int,
      i: int, node: HashNode<K, V>)
    requires Registered(nodes, chains, cast_) && 0 <= i < SIZE && HashIndex(cast_, node.key) == i
    ensures Registered(nodes + {node}, chains[i := [node] + chains[i]], cast_)
  {
    hide HashIndex;
    var after := chains[i := [node] + chains[i]];
    forall n | n in nodes + {node} ensures Filed(n, after, cast_) {
      assert n in nodes ==> Filed(n, chains, cast_);
    }
  }

  lemma RegisteredCut<K(0), V(0)>(nodes: set<HashNode<K, V>>, chains: seq<seq<HashNode<K, V>>>, cast_: K -> int,
      i: int, j: nat)
    requires Registered(nodes, chains, cast_) && 0 <= i < SIZE && j < |chains[i]|
    requires forall a, b :: 0 <= a < b < |chains[i]| ==> chains[i][a] != chains[i][b]
    ensures Registered(nodes - {chains[i][j]}, chains[i := Without(chains[i], j)], cast_) && chains[i][j] in nodes
  {
    hide HashIndex;
    var after := chains[i := Without(chains[i], j)];
    assert chains[i][j] in chains[i];
    assert chains[i][j] !in Without(chains[i], j);
    forall n | n in nodes && n != chains[i][j] ensures Filed(n, after, cast_) {
      assert Filed(n, chains, cast_);
      if HashIndex(cast_, n.key) == i {
        InWithout(chains[i], j, n);
      }
    }
    assert HashIndex(cast_, chains[i][j].key) == i;
    forall k, n | 0 <= k < SIZE && n in after[k] ensures n in nodes - {chains[i][j]} && HashIndex(cast_, n.key) == k {
      assert n in chains[k];
    }
  }

  lemma InWithout<T>(s: seq<T>, j: nat, x: T)
    requires j < |s| && x in s && x != s[j]
    ensures x in Without(s, j)
  {
    var k :| 0 <= k < |s| && s[k] == x;
    if k < j {
      assert Without(s, j)[k] == x;
    } else {
      assert Without(s, j)[k - 1] == x;
    }
  }

  /** The first node of a chain that has the key. */
  ghost predicate FirstWith<K(0), V(0)>(s: seq<HashNode<K, V>>, key: K, j: nat) {
    j < |s| && s[j].key == key && forall k :: 0 <= k < j ==> s[k].key != key
  }

  /** If a chain has a node with the key, the first one left it; nothing else changed. */
  ghost predicate FirstGone<K(0), V(0)>(before: seq<seq<HashNode<K, V>>>, after: seq<seq<HashNode<K, V>>>, index: int,
                                        key: K, removed: set<HashNode<K, V>>) {
    if removed == {} then after == before
    else
      && 0 <= index < |before|
      && exists j: nat :: FirstWith(before[index], key, j) && LeftAt(before, after, index, j, removed)
  }

  lemma NoneGone<K(0), V(0)>(chains: seq<seq<HashNode<K, V>>>, index: int, key: K)
    ensures FirstGone(chains, chains, index, key, {})
  {
  }

  lemma OneGone<K(0), V(0)>(before: seq<seq<HashNode<K, V>>>, index: int, key: K, j: nat)
    requires 0 <= index < |before| && FirstWith(before[index], key, j)
    ensures FirstGone(before, before[index := Without(before[index], j)], index, key, {before[index][j]})
  {
    assert LeftAt(before, before[index := Without(before[index], j)], index, j, {before[index][j]});
  }

  ghost predicate LeftAt<K(0), V(0)>(before: seq<seq<HashNode<K, V>>>, after: seq<seq<HashNode<K, V>>>, index: int,
                                     j: nat, removed: set<HashNode<K, V>>)
    requires 0 <= index < |before| && j < |before[index]|
  {
    removed == {before[index][j]} && after == before[index := Without(before[index], j)]
  }

  class HashDict<K(==, 0), V(0)> {
    const cast_: K -> int
    var buckets: array<HashNode?<K, V>>
    var count: int
    ghost var nodes: set<HashNode<K, V>>
    ghost var chains: seq<seq<HashNode<K, V>>>

    ghost predicate Valid()
      reads this, buckets, nodes
    {
      && buckets.Length == SIZE && count == |nodes|
      && Registered(nodes, chains, cast_)
      && forall i :: 0 <= i < SIZE ==> Chain(buckets[i], chains[i], cast_, i)
    }

    constructor (cast_: K -> int)
      ensures Valid() && nodes == {} && fresh(buckets) && this.cast_ == cast_
    {
      this.cast_ := cast_;
      count, nodes := 0, {};
      chains := seq(SIZE, i => []);
      buckets := new HashNode?<K, V>[SIZE](i => null);
    }

    lemma Bucket(i: int)
      requires Valid() && 0 <= i < SIZE
      ensures |chains| == SIZE && Chain(buckets[i], chains[i], cast_, i)
      ensures forall n :: n in chains[i] ==> n in nodes && HashIndex(cast_, n.key) == i
    {
    }

    lemma Step(i: int, j: nat)
      requires Valid() && 0 <= i < SIZE
      ensures |chains| == SIZE && buckets.Length == SIZE && buckets[i] == At(chains[i], 0)
      ensures j < |chains[i]| ==>
        (var n := chains[i][j]; n in nodes && n.next == At(chains[i], j + 1) && HashIndex(cast_, n.key) == i)
    {
      Bucket(i);
      if j < |chains[i]| {
        assert chains[i][j] in chains[i];
      }
    }

    lemma AllInBucket(i: int)
      requires Valid() && 0 <= i < SIZE
      ensures |chains| == SIZE && forall n :: n in nodes && HashIndex(cast_, n.key) == i ==> n in chains[i]
    {
      forall n | n in nodes && HashIndex(cast_, n.key) == i ensures n in chains[i] {
        assert Filed(n, chains, cast_);
      }
    }

    /** The node goes to the front of its bucket; a node with the key may be there already. */
    method InsertNode(key: K, value: V) returns (node: HashNode<K, V>)
      requires Valid() && 0 <= HashIndex(cast_, key) < SIZE
      modifies this`count, this`nodes, this`chains, buckets
      ensures Valid() && fresh(node) && nodes == old(nodes) + {node} && node.key == key && node.value == value
      ensures |chains| == |old(chains)| == SIZE
      ensures var index := HashIndex(cast_, key); chains == old(chains)[index := [node] + old(chains)[index]]
    {
      hide Chain, HashIndex, Registered;
      var index := HashIndex(cast_, key);
      node := new HashNode(key, value);
      ghost var before := chains;
      Bucket(index);
      node.next := buckets[index];
      ChainFront(node, buckets[index], before[index], cast_, index);
      RegisteredPut(nodes, chains, cast_, index, node);
      buckets[index] := node;
      count := count + 1;
      nodes := nodes + {node};
      chains := chains[index := [node] + before[index]];
    }

    /** The first node of a bucket that has the key, and the one before it. */
    method Find(key: K, index: int) returns (prev: HashNode?<K, V>, node: HashNode?<K, V>, ghost j: nat)
      requires Valid() && 0 <= index < SIZE
      ensures |chains| == SIZE
      ensures j <= |chains[index]| && node == At(chains[index], j)
      ensures prev == At(chains[index], j - 1)
      ensures node != null ==> node.key == key
      ensures forall k :: 0 <= k < j ==> chains[index][k].key != key
    {
      hide Chain, Registered, Valid, HashIndex;
      Step(index, 0);
      ghost var s := chains[index];
      prev, node, j := null, buckets[index], 0;
      while node != null && node.key != key
        invariant 0 <= j <= |s| && node == At(s, j)
        invariant prev == At(s, j - 1)
        invariant forall k :: 0 <= k < j ==> s[k].key != key
        decreases |s| - j
      {
        Step(index, j);
        prev := node;
        node := node.next;
        j := j + 1;
      }
    }

    /** A node leaves its bucket. */
    method Unlink(prev: HashNode?<K, V>, node: HashNode<K, V>, index: int, ghost j: nat)
      requires buckets.Length == SIZE && 0 <= index < SIZE && |chains| == SIZE && j < |chains[index]|
      requires Chain(buckets[index], chains[index], cast_, index) && node == chains[index][j]
      requires prev == At(chains[index], j - 1)
      modifies buckets, chains[index]
      ensures node.freed && Chain(buckets[index], Without(chains[index], j), cast_, index)
      ensures forall i :: 0 <= i < SIZE && i != index ==> buckets[i] == old(buckets[i])
    {
      ghost var s := chains[index];
      assert node.next == At(s, j + 1);
      if prev == null {
        buckets[index] := node.next;
      } else {
        prev.next := node.next;
      }
      node.Free();
      ChainCut(buckets[index], s, j, cast_, index);
    }

    /** The first node with the key, if there is one, leaves its bucket and is freed. */
    method Remove(key: K) returns (ghost removed: set<HashNode<K, V>>)
      requires Valid() && 0 <= HashIndex(cast_, key) < SIZE
      modifies this`count, this`nodes, this`chains, buckets, nodes
      ensures Valid() && nodes == old(nodes) - removed && removed <= old(nodes)
      ensures forall n :: n in removed ==> n.key == key && n.freed
      ensures removed == {} ==> forall n :: n in nodes ==> n.key != key
      ensures FirstGone(old(chains), chains, HashIndex(cast_, key), key, removed)
    {
      hide Chain, HashIndex, Registered, FirstGone;
      var index := HashIndex(cast_, key);
      var prev, node, j := Find(key, index);
      ghost var s := chains[index];
      if node == null {
        removed := {};
        NoneWithKey(key, s);
        NoneGone(chains, index, key);
        return;
      }
      removed := {node};
      Bucket(index);
      Distinct(index);
      RegisteredCut(nodes, chains, cast_, index, j);
      AllBuckets();
      OtherBuckets(index);
      ghost var before := chains;
      Unlink(prev, node, index, j);
      count := count - 1;
      nodes := nodes - {node};
      chains := before[index := Without(s, j)];
      OneGone(before, index, key, j);
      forall i | 0 <= i < SIZE ensures Chain(buckets[i], chains[i], cast_, i) {
        if i != index {
          assert old(Chain(buckets[i], chains[i], cast_, i));
          assert forall n :: n in before[i] ==> n !in s;
          assert buckets[i] == old(buckets[i]) && chains[i] == before[i];
        }
      }
    }

    /** Each node of a bucket is freed once, after the link to the next one is read; the later buckets stay. */
    method ClearBucket(index: int, ghost all: seq<seq<HashNode<K, V>>>)
      requires buckets.Length == SIZE == |all| && 0 <= index < SIZE
      requires forall c :: index <= c < SIZE ==> Chain(buckets[c], all[c], cast_, c)
      requires forall c, n :: index < c < SIZE && n in all[c] ==> n !in all[index]
      modifies buckets, all[index]
      ensures buckets[index] == null && forall n :: n in all[index] ==> n.freed
      ensures forall c :: 0 <= c < index ==> buckets[c] == old(buckets[c])
      ensures forall c :: index < c < SIZE ==> Chain(buckets[c], all[c], cast_, c)
    {
      hide HashIndex;
      ghost var s := all[index];
      var node := buckets[index];
      ghost var j := 0;
      while node != null
        invariant 0 <= j <= |s| && node == At(s, j)
        invariant forall k :: 0 <= k < |s| ==> s[k].next == At(s, k + 1) && (s[k].freed <==> k < j)
        invariant forall c :: 0 <= c < SIZE ==> buckets[c] == old(buckets[c])
        decreases |s| - j
      {
        assert node == s[j];
        var next := node.next;
        node.Free();
        node := next;
        j := j + 1;
      }
      buckets[index] := null;
      forall c | index < c < SIZE ensures Chain(buckets[c], all[c], cast_, c) {
        ghost var t := all[c];
        assert old(Chain(buckets[c], all[c], cast_, c));
        forall k | 0 <= k < |t|
          ensures t[k].next == old(t[k].next) && t[k].freed == old(t[k].freed)
        {
          assert t[k] in t && t[k] !in s;
        }
      }
    }

    /** Every node is freed, once, and none is left. */
    method Clear()
      requires Valid()
      modifies this`count, this`nodes, this`chains, buckets, nodes
      ensures Valid() && nodes == {} && forall n :: n in old(nodes) ==> n.freed
    {
      hide Chain, HashIndex, Registered;
      ghost var was := chains;
      AllBuckets();
      InSomeBucket();
      EachInOne();
      var i := 0;
      while i < SIZE
        invariant 0 <= i <= SIZE && chains == was && nodes == old(nodes)
        invariant forall c :: 0 <= c < i ==> buckets[c] == null
        invariant forall c, n: HashNode<K, V> :: 0 <= c < i && n in was[c] ==> n.freed
        invariant forall c :: i <= c < SIZE ==> Chain(buckets[c], was[c], cast_, c)
      {
        ClearBucket(i, was);
        i := i + 1;
      }
      count, nodes, chains := 0, {}, seq(SIZE, _ => []);
      EmptyValid();
    }

    lemma InSomeBucket()
      requires Valid()
      ensures |chains| == SIZE && forall n :: n in nodes ==> exists i :: 0 <= i < SIZE && n in chains[i]
    {
      forall n | n in nodes ensures exists i :: 0 <= i < SIZE && n in chains[i] {
        assert Filed(n, chains, cast_);
      }
    }

    lemma EachInOne()
      requires Valid()
      ensures |chains| == SIZE
      ensures forall i, n :: 0 <= i < SIZE && n in chains[i] ==> n in nodes
      ensures forall i, k, n :: 0 <= i < SIZE && 0 <= k < SIZE && n in chains[i] && n in chains[k] ==> i == k
    {
    }

    lemma EmptyValid()
      requires buckets.Length == SIZE && (forall i :: 0 <= i < SIZE ==> buckets[i] == null)
      requires count == 0 && nodes == {} && |chains| == SIZE && (forall i :: 0 <= i < SIZE ==> chains[i] == [])
      ensures Valid()
    {
    }

    lemma Distinct(i: int)
      requires Valid() && 0 <= i < SIZE
      ensures forall a, b :: 0 <= a < b < |chains[i]| ==> chains[i][a] != chains[i][b]
    {
    }

    lemma AllBuckets()
      requires Valid()
      ensures |chains| == SIZE && forall i :: 0 <= i < SIZE ==> Chain(buckets[i], chains[i], cast_, i)
    {
    }

    lemma OtherBuckets(i: int)
      requires Valid() && 0 <= i < SIZE
      ensures forall k, n :: 0 <= k < SIZE && k != i && n in chains[k] ==> n !in chains[i]
    {
    }

    lemma NoneWithKey(key: K, s: seq<HashNode<K, V>>)
      requires Valid() && 0 <= HashIndex(cast_, key) < SIZE && s == chains[HashIndex(cast_, key)]
      requires forall k :: 0 <= k < |s| ==> s[k].key != key
      ensures forall n :: n in nodes ==> n.key != key
    {
      forall n | n in nodes ensures n.key != key {
        assert Filed(n, chains, cast_);
      }
    }
  }

  /** A chain without one of its nodes, once the one before it skips it. */
  lemma ChainCut<K(0), V(0)>(head: HashNode?<K, V>, s: seq<HashNode<K, V>>, j: nat, cast_: K -> int, index: int)
    requires j < |s|
    requires head == At(s, if j > 0 then 0 else 1)
    requires forall a, b :: 0 <= a < b < |s| ==> s[a] != s[b]
    requires forall k :: 0 <= k < |s| && k != j && k != j - 1 ==> s[k].next == At(s, k + 1)
    requires j > 0 ==> s[j - 1].next == At(s, j + 1)
    requires forall k :: 0 <= k < |s| && k != j ==> !s[k].freed && HashIndex(cast_, s[k].key) == index
    ensures Chain(head, Without(s, j), cast_, index)
  {
    hide HashIndex;
    var t := Without(s, j);
    forall k | 0 <= k < |t|
      ensures t[k] == (if k < j then s[k] else s[k + 1])
      ensures t[k].next == At(t, k + 1)
      ensures !t[k].freed && HashIndex(cast_, t[k].key) == index
    {
      if k >= j {
        assert s[k + 1].next == At(s, k + 2);
      }
    }
    forall a, b | 0 <= a < b < |t| ensures t[a] != t[b] {
      assert s[if a < j then a else a + 1] != s[if b < j then b else b + 1];
    }
  }
}
