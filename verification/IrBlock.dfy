/** The list of values of an IR block, and the edits the passes make to it. */
module IrBlock {
  /** A block of the IR: a list edited at iterators.  An iterator is the number of values before it. */
  class Block<T> {
    var values: seq<T>

    constructor (values: seq<T>)
      ensures this.values == values
    {
      this.values := values;
    }

    /** Inserts before the iterator and returns the iterator of the same value as before. */
    method Insert(iter: nat, value: T, ghost before: seq<T>, ghost made: seq<T>, ghost rest: seq<T>)
      returns (iter': nat)
      requires values == before + made + rest && iter == |before| + |made|
      modifies this
      ensures values == before + (made + [value]) + rest
      ensures iter' == iter + 1
    {
      values := values[..iter] + [value] + values[iter..];
      iter' := iter + 1;
    }

    method Erase(iter: nat)
      requires iter < |values|
      modifies this
      ensures values == old(values)[..iter] + old(values)[iter + 1..]
    {
      values := values[..iter] + values[iter + 1..];
    }

    /** Another value takes the place of one. */
    method ReplaceInBlock(iter: nat, value: T)
      requires iter < |values|
      modifies this
      ensures values == old(values)[iter := value]
    {
      var at := Insert(iter, value, values[..iter], [], values[iter..]);
      Erase(at);
    }

    method PushFront(value: T)
      modifies this
      ensures values == [value] + old(values)
    {
      values := [value] + values;
    }

    method PushBack(value: T)
      modifies this
      ensures values == old(values) + [value]
    {
      values := values + [value];
    }

    /** Moves every value of another block before the iterator, in order. */
    method InsertAll(iter: nat, from: Block<T>, ghost before: seq<T>, ghost made: seq<T>, ghost rest: seq<T>)
      returns (iter': nat)
      requires from != this
      requires values == before + made + rest && iter == |before| + |made|
      modifies this
      ensures values == before + (made + from.values) + rest
      ensures iter' == iter + |from.values|
    {
      iter' := iter;
      assert made + from.values[..0] == made;
      for i := 0 to |from.values|
        invariant iter' == iter + i
        invariant values == before + (made + from.values[..i]) + rest
      {
        iter' := Insert(iter', from.values[i], before, made + from.values[..i], rest);
        assert made + from.values[..i + 1] == made + from.values[..i] + [from.values[i]];
      }
      assert from.values[..|from.values|] == from.values;
    }
  }
}
