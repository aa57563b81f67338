/** The runtime's doubly linked list with its two sentinel nodes, and its sort. */
module List {
  import opened Wrappers
  import Sorting

  class Node<T(0)> {
    var next: Node?<T>
    var prev: Node?<T>
    var value: T
    /** Whether the node has been given back to the allocator. */
    var freed: bool

    constructor ()
      ensures next == null && prev == null && !freed
    {
      next, prev, freed := null, null, false;
    }

    /** Gives the node back, which may happen once. */
    method Free()
      requires !freed
      modifies this`freed
      ensures freed
    {
      freed := true;
    }

    /** The next node; the links of a node that was given back may not be followed. */
    function Next(): (node: Node<T>)
      requires !freed && next != null
      reads this`freed, this`next
    {
      next
    }

    function Prev(): (node: Node<T>)
      requires !freed && prev != null
      reads this`freed, this`prev
    {
      prev
    }

    method InsertBefore(value: T) returns (node: Node<T>)
      requires prev != null && prev != this
      modifies this`prev, prev`next
      ensures old(this.prev) != null
      ensures fresh(node) && !node.freed && node.value == value && node.next == this && node.prev == old(this.prev)
      ensures this.prev == node && old(this.prev).next == node
    {
      node := new Node();
      node.value := value;
      node.prev := this.prev;
      this.prev.next := node;
      node.next := this;
      this.prev := node;
    }

    method InsertAfter(value: T) returns (node: Node<T>)
      requires next != null && next != this
      modifies this`next, next`prev
      ensures old(this.next) != null
      ensures fresh(node) && !node.freed && node.value == value && node.prev == this && node.next == old(this.next)
      ensures this.next == node && old(this.next).prev == node
    {
      node := new Node();
      node.value := value;
      node.next := this.next;
      this.next.prev := node;
      node.prev := this;
      this.next := node;
    }

    method RemoveBefore()
      requires prev != null && prev.prev != null && prev != this
      modifies this`prev, prev.prev`next, prev`freed
      ensures old(prev) != null && old(prev.prev) != null
      ensures prev == old(prev.prev) && old(prev.prev).next == this && old(prev).freed
    {
      var prevNode := prev;
      var prevPrevNode := prevNode.prev;
      prevPrevNode.next := this;
      prev := prevPrevNode;
      prevNode.freed := true;
    }

    method RemoveAfter()
      requires next != null && next.next != null && next != this
      modifies this`next, next.next`prev, next`freed
      ensures old(next) != null && old(next.next) != null
      ensures next == old(next.next) && old(next.next).prev == this && old(next).freed
    {
      var nextNode := next;
      var nextNextNode := nextNode.next;
      next := nextNextNode;
      nextNextNode.prev := this;
      nextNode.freed := true;
    }
  }

  /** The nodes from one sentinel to the other: all different, none freed, next and prev inverse to each
      other, and null beyond the ends. */
  ghost predicate Chain<T(0)>(s: seq<Node<T>>)
    reads s
  {
    && |s| >= 2
    && s[0].prev == null && s[|s| - 1].next == null
    && (forall i :: 0 <= i < |s| ==> !s[i].freed)
    && (forall i, j :: 0 <= i < j < |s| ==> s[i] != s[j])
    && (forall i :: 0 <= i < |s| - 1 ==> s[i].next == s[i + 1])
    && (forall i :: 0 < i < |s| ==> s[i].prev == s[i - 1])
  }

  class List<T(0)> {
    var head: Node<T>
    var end: Node<T>
    /** Every node, sentinels included, in order. */
    ghost var chain: seq<Node<T>>

    ghost predicate Valid()
      reads this, chain
    {
      Chain(chain) && head == chain[0] && end == chain[|chain| - 1]
    }

    ghost function Values(): (s: seq<T>)
      requires |chain| >= 2
      reads this, chain
      ensures |s| == |chain| - 2
    {
      seq(|chain| - 2, i requires 0 <= i < |chain| - 2 reads this, chain => chain[i + 1].value)
    }

    constructor ()
      ensures Valid() && fresh(chain[0]) && fresh(chain[1]) && |chain| == 2
    {
      head := new Node();
      end := new Node();
      new;
      head.next := end;
      end.prev := head;
      chain := [head, end];
    }

    method PushFront(value: T)
      requires Valid()
      modifies this`chain, chain
      ensures Valid() && head == old(head) && end == old(end)
      ensures Values() == [value] + old(Values())
      ensures |chain| == |old(chain)| + 1 && fresh(chain[1]) && chain == old(chain[..1]) + [chain[1]] + old(chain[1..])
    {
      assert head.next == chain[1];
      var node := head.InsertAfter(value);
      chain := chain[..1] + [node] + chain[1..];
    }

    method PushBack(value: T)
      requires Valid()
      modifies this`chain, chain
      ensures Valid() && head == old(head) && end == old(end)
      ensures Values() == old(Values()) + [value]
      ensures |chain| == |old(chain)| + 1 && fresh(chain[|chain| - 2])
      ensures chain == old(chain[..|chain| - 1]) + [chain[|chain| - 2]] + old(chain[|chain| - 1..])
    {
      ghost var k := |chain| - 1;
      assert end.prev == chain[k - 1];
      var node := end.InsertBefore(value);
      chain := chain[..k] + [node] + chain[k..];
    }

    method PopFront()
      requires Valid() && Values() != []
      modifies this`chain, chain
      ensures Valid() && head == old(head) && end == old(end)
      ensures Values() == old(Values())[1..]
      ensures old(chain[1]).freed && chain == old(chain[..1]) + old(chain[2..])
    {
      assert head.next == chain[1] && chain[1].next == chain[2];
      head.RemoveAfter();
      chain := chain[..1] + chain[2..];
    }

    method PopBack()
      requires Valid() && Values() != []
      modifies this`chain, chain
      ensures Valid() && head == old(head) && end == old(end)
      ensures Values() == old(Values())[..|old(Values())| - 1]
      ensures old(chain[|chain| - 2]).freed
      ensures chain == old(chain[..|chain| - 2]) + old(chain[|chain| - 1..])
    {
      ghost var k := |chain| - 1;
      assert end.prev == chain[k - 1] && chain[k - 1].prev == chain[k - 2];
      end.RemoveBefore();
      chain := chain[..k - 1] + chain[k..];
    }

    method Begin() returns (node: Node<T>)
      requires Valid()
      ensures node == chain[1]
    {
      assert head.next == chain[1];
      node := head.next;
    }

    method Length() returns (count: nat)
      requires Valid()
      ensures count == |Values()|
    {
      count := 0;
      var current := Begin();
      while current != end
        invariant count <= |chain| - 2 && current == chain[count + 1]
        decreases |chain| - count
      {
        count := count + 1;
        current := current.next;
      }
    }

    /** What the last copy of a list does when it goes: the loop frees the node before the one it is at.
        Each node is freed once, in the order of the result, except the one before the end sentinel; that no
        link of a freed node is followed and no freed node is freed again is what Next, Prev and Free ask. */
    method FreeNodes() returns (ghost frees: seq<Node<T>>)
      requires Valid()
      modifies chain`freed
      ensures frees == chain[..|chain| - 2] + [end]
      ensures forall k :: 0 <= k < |chain| ==> (chain[k].freed <==> chain[k] in frees)
      ensures Distinct(frees) && chain[|chain| - 2] !in frees
    {
      var node := Begin();
      ghost var k := 1;
      frees := [];
      while node != end
        invariant 1 <= k <= |chain| - 1 && node == chain[k] && frees == chain[..k - 1]
        invariant forall i :: 0 <= i < |chain| ==> (chain[i].freed <==> i < k - 1)
        decreases |chain| - k
      {
        assert node.prev == chain[k - 1] && node.next == chain[k + 1];
        var before := node.Prev();
        before.Free();
        frees := frees + [before];
        node := node.Next();
        k := k + 1;
      }
      end.Free();
      frees := frees + [end];
    }

    lemma Neighbours(k: nat)
      requires Valid() && k < |chain|
      ensures k + 1 < |chain| ==> chain[k].next == chain[k + 1]
      ensures 0 < k ==> chain[k].prev == chain[k - 1]
      ensures (chain[k] == head <==> k == 0) && (chain[k] == end <==> k == |chain| - 1)
      ensures |chain| >= 2 && (0 < k < |chain| - 1 ==> Values()[k - 1] == chain[k].value)
    {
    }

    /** Writes the value of one node. */
    method Store(node: Node<T>, value: T, ghost k: nat)
      requires Valid() && k < |Values()| && node == chain[k + 1]
      modifies node`value
      ensures Valid() && Values() == old(Values())[k := value]
    {
      node.value := value;
    }

    /** One turn of the outer loop: the values before the node that are greater than its own move one node
        on, and its own takes the place left. */
    method Settle(current: Node<T>, rank: T -> int, ghost p: seq<T>, ghost rest: seq<T>)
      requires Valid() && |p| + 1 + |rest| == |Values()| && current == chain[|p| + 1]
      requires Sorting.Shifting(Values(), p, rest, |p| - 1, current.value, rank)
      modifies chain`value
      ensures Valid()
      ensures Values() == Sorting.Insert(p, old(current.value), rank) + rest
    {
      hide Valid, Chain, Values, Sorting.Insert, Sorting.Shifting;
      Neighbours(|p| + 1);
      Neighbours(|p|);
      var key := current.value;
      var j: Node<T> := current.prev;
      ghost var k := |p| - 1;
      var greater := rank(j.value) > rank(key);
      while j != head && greater
        invariant Valid() && -1 <= k < |p| && j == chain[k + 1] && (j == head <==> k < 0)
        invariant Sorting.Shifting(Values(), p, rest, k, key, rank)
        invariant k >= 0 ==> greater == (rank(Values()[k]) > rank(key))
        decreases k
      {
        Sorting.ShiftStep(Values(), p, rest, k, key, rank);
        Neighbours(k + 1);
        Neighbours(k);
        Store(j.next, j.value, k + 1);
        j := j.prev;
        k := k - 1;
        greater := rank(j.value) > rank(key);
        Neighbours(k + 1);
      }
      Sorting.ShiftEnd(Values(), p, rest, k, key, rank);
      Neighbours(k + 1);
      Store(j.next, key, k + 1);
    }

    /** Sort moves values between the nodes and leaves the nodes as they are.  Both operands of its loop
        guard are evaluated, so the value of the head sentinel is read, and the answer is thrown away. */
    method Sort(rank: T -> int)
      requires Valid()
      modifies chain`value
      ensures Valid()
      ensures Values() == Sorting.InsertionSort(old(Values()), rank)
    {
      hide Valid, Chain, Values, Sorting.InsertionSort, Sorting.Insert, Sorting.Shifting;
      TwoSentinels();
      ghost var s := Values();
      var length := Length();
      if length <= 1 {
        Sorting.SortOfShort(s, rank);
        return;
      }
      var current := Begin();
      Neighbours(1);
      current := current.next;
      ghost var i := 1;
      assert s[..1] == [s[0]] && s == s[..1] + s[1..];
      Sorting.SortOfShort(s[..1], rank);
      Neighbours(2);
      while current != end
        invariant Valid() && 1 <= i <= |s| == |chain| - 2 && current == chain[i + 1]
        invariant current == end <==> i == |s|
        invariant Values() == Sorting.InsertionSort(s[..i], rank) + s[i..]
        decreases |s| - i
      {
        Neighbours(i + 1);
        Neighbours(i);
        Sorting.ShiftStart(Values(), s, i, rank);
        Settle(current, rank, Sorting.InsertionSort(s[..i], rank), s[i + 1..]);
        Neighbours(i + 1);
        Neighbours(i + 2);
        current := current.next;
        i := i + 1;
      }
      assert s[..i] == s && s[i..] == [];
    }

    lemma TwoSentinels()
      requires Valid()
      ensures |chain| >= 2
    {
    }
  }
}
