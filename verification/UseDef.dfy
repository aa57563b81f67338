/** The use lists that tie every IR value to the instructions whose operand it is. */
module UseDef {
  import opened Wrappers

  /** One entry of a use list: that operand of that instruction. */
  datatype Use = Use(instruction: Value, index: nat)

  /** The list without any entry equal to x, as std::list::remove leaves it. */
  function Remove<T(==)>(s: seq<T>, x: T): (r: seq<T>)
    ensures forall y :: y in r ==> y in s && y != x
    ensures forall y :: y in s && y != x ==> y in r
  {
    if s == [] then []
    else if s[0] == x then Remove(s[1..], x)
    else [s[0]] + Remove(s[1..], x)
  }

  lemma {:induction false} RemoveKeepsDistinct<T>(s: seq<T>, x: T)
    requires Distinct(s)
    ensures Distinct(Remove(s, x))
  {
    if s != [] {
      RemoveKeepsDistinct(s[1..], x);
      var r := Remove(s[1..], x);
      assert s[0] !in s[1..];
      assert s[0] !in r;
    }
  }

  lemma {:induction false} RemoveAbsent<T>(s: seq<T>, x: T)
    requires x !in s
    ensures Remove(s, x) == s
  {
    if s != [] {
      RemoveAbsent(s[1..], x);
    }
  }

  lemma RemoveHead<T>(s: seq<T>)
    requires s != [] && Distinct(s)
    ensures Remove(s, s[0]) == s[1..]
  {
    assert s[0] !in s[1..];
    RemoveAbsent(s[1..], s[0]);
  }

  /** The use list of a value w after operand (instruction, index) went from one value to another. */
  function UsesAfter(uses: seq<Use>, use: Use, wasOld: bool, isNew: bool): seq<Use> {
    var left := if wasOld then Remove(uses, use) else uses;
    if isNew then left + [use] else left
  }

  /** The operands and use lists of a set of values, as values. */
  datatype Graph = Graph(operands: map<Value, seq<Value?>>, uses: map<Value, seq<Use>>)

  ghost function GraphOf(values: set<Value>): Graph
    reads values
  {
    Graph(map v | v in values :: v.operands, map v | v in values :: v.uses)
  }

  /** Every operand is in its value's use list, every entry of a use list is an operand, and none is
      listed twice: (inst, i) is in v's list exactly once if inst's operand i is v, and not at all
      if it is not. */
  ghost predicate Linked(values: set<Value>, g: Graph) {
    && g.operands.Keys == values && g.uses.Keys == values
    && (forall v, i :: v in values && 0 <= i < |g.operands[v]| && g.operands[v][i] != null ==>
          g.operands[v][i] in values && Use(v, i) in g.uses[g.operands[v][i]])
    && (forall v, u :: v in values && u in g.uses[v] ==>
          u.instruction in values && u.index < |g.operands[u.instruction]| && g.operands[u.instruction][u.index] == v)
    && (forall v :: v in values ==> Distinct(g.uses[v]))
  }

  ghost predicate Consistent(values: set<Value>)
    reads values
  {
    Linked(values, GraphOf(values))
  }

  /** The graph after an operand is set: the old value loses the use and the new one gains it. */
  ghost function SetIn(g: Graph, inst: Value, i: nat, value: Value): Graph
    requires inst in g.operands && i < |g.operands[inst]|
  {
    Graph(g.operands[inst := g.operands[inst][i := value]],
          map w | w in g.uses :: UsesAfter(g.uses[w], Use(inst, i), w == g.operands[inst][i], w == value))
  }

  /** The graph with a new value of one empty operand. */
  ghost function AddIn(g: Graph, v: Value): Graph {
    Graph(g.operands[v := [null]], g.uses[v := []])
  }

  lemma SetInSame(values: set<Value>, g: Graph, g': Graph, inst: Value, i: nat, value: Value)
    requires inst in values && g.operands.Keys == values && g.uses.Keys == values && i < |g.operands[inst]|
    requires g'.operands == g.operands[inst := g.operands[inst][i := value]] && g'.uses.Keys == values
    requires forall w :: w in values ==>
               g'.uses[w] == UsesAfter(g.uses[w], Use(inst, i), w == g.operands[inst][i], w == value)
    ensures g' == SetIn(g, inst, i, value)
  {
    assert g'.uses == SetIn(g, inst, i, value).uses;
  }

  /** The use moves: the old value's list loses it and stays in order, the new value's gains it at its end, and
      nothing else changes. */
  lemma SetInLists(values: set<Value>, g: Graph, inst: Value, i: nat, value: Value, w: Value)
    requires Linked(values, g) && inst in values && value in values && i < |g.operands[inst]| && w in values
    ensures var g', old_ := SetIn(g, inst, i, value), g.operands[inst][i];
      && (w == value && value != old_ ==> g'.uses[w] == g.uses[w] + [Use(inst, i)])
      && (w == old_ && value != old_ ==>
          exists k :: 0 <= k < |g.uses[w]| && g.uses[w][k] == Use(inst, i) && g'.uses[w] == Without(g.uses[w], k))
      && (w != value && w != old_ ==> g'.uses[w] == g.uses[w])
      && |g'.operands[w]| == |g.operands[w]|
      && forall j :: 0 <= j < |g.operands[w]| ==>
          g'.operands[w][j] == if w == inst && j == i then value else g.operands[w][j]
  {
    if w == g.operands[inst][i] {
      assert Use(inst, i) in g.uses[w];
      var k := RemoveOne(g.uses[w], Use(inst, i));
    }
  }

  lemma {:induction false} RemoveOne<T>(s: seq<T>, x: T) returns (k: nat)
    requires Distinct(s) && x in s
    ensures k < |s| && s[k] == x && Remove(s, x) == Without(s, k)
  {
    if s[0] == x {
      RemoveHead(s);
      k := 0;
    } else {
      k := RemoveOne(s[1..], x);
      k := k + 1;
      assert Without(s, k) == [s[0]] + Without(s[1..], k - 1);
    }
  }

  lemma SetOperandLinked(values: set<Value>, g: Graph, inst: Value, i: nat, value: Value)
    requires Linked(values, g) && inst in values && value in values && i < |g.operands[inst]|
    ensures Linked(values, SetIn(g, inst, i, value))
  {
    var g' := SetIn(g, inst, i, value);
    var use := Use(inst, i);
    forall w | w in values ensures Distinct(g'.uses[w]) {
      RemoveKeepsDistinct(g.uses[w], use);
    }
    forall v, j | v in values && 0 <= j < |g'.operands[v]| && g'.operands[v][j] != null
      ensures g'.operands[v][j] in values && Use(v, j) in g'.uses[g'.operands[v][j]]
    {
      if v != inst || j != i {
        assert g'.operands[v][j] == g.operands[v][j];
        assert Use(v, j) in g.uses[g.operands[v][j]];
      }
    }
    forall v, u | v in values && u in g'.uses[v]
      ensures u.instruction in values && u.index < |g'.operands[u.instruction]|
      ensures g'.operands[u.instruction][u.index] == v
    {
      if u != use {
        assert u in g.uses[v];
      }
    }
  }

  /** A use list that has lost the uses by an instruction, and only those. */
  ghost predicate UsesWithout(before: seq<Use>, after: seq<Use>, inst: Value) {
    && Distinct(after)
    && (forall u :: u in after ==> u in before && u.instruction != inst)
    && (forall u :: u in before && u.instruction != inst ==> u in after)
  }

  /** UsesWithout an unused value's own uses and operands the graph stays linked. */
  lemma FinalizeLinked(values: set<Value>, g: Graph, g': Graph, inst: Value)
    requires Linked(values, g) && inst in values && g.uses[inst] == []
    requires g'.operands == g.operands[inst := []] && g'.uses.Keys == values
    requires forall w :: w in values ==> UsesWithout(g.uses[w], g'.uses[w], inst)
    ensures Linked(values, g')
  {
    forall v, j | v in values && 0 <= j < |g'.operands[v]| && g'.operands[v][j] != null
      ensures g'.operands[v][j] in values && Use(v, j) in g'.uses[g'.operands[v][j]]
    {
      assert Use(v, j) in g.uses[g.operands[v][j]];
    }
    forall v, u | v in values && u in g'.uses[v]
      ensures u.instruction in values && u.index < |g'.operands[u.instruction]|
      ensures g'.operands[u.instruction][u.index] == v
    {
      assert u in g.uses[v];
    }
  }

  /** A use list that has lost the uses by the first i operands of an instruction, and only those. */
  ghost predicate Left(before: seq<Use>, after: seq<Use>, inst: Value, i: nat) {
    && Distinct(after)
    && (forall u :: u in after ==> u in before && (u.instruction == inst ==> u.index >= i))
    && (forall u :: u in before && (u.instruction == inst ==> u.index >= i) ==> u in after)
  }

  lemma LeftNone(values: set<Value>, g: Graph, w: Value, inst: Value)
    requires Linked(values, g) && w in values
    ensures Left(g.uses[w], g.uses[w], inst, 0)
  {
  }

  lemma LeftOneMore(values: set<Value>, g: Graph, w: Value, uses: seq<Use>, inst: Value, i: nat)
    requires Linked(values, g) && inst in values && w in values && i < |g.operands[inst]|
    requires Left(g.uses[w], uses, inst, i)
    ensures Left(g.uses[w], if w == g.operands[inst][i] then Remove(uses, Use(inst, i)) else uses, inst, i + 1)
  {
    RemoveKeepsDistinct(uses, Use(inst, i));
    if Use(inst, i) in g.uses[w] {
      assert w == g.operands[inst][i];
    }
    forall u | u in uses && u.instruction == inst && u.index < i + 1
      ensures u == Use(inst, i)
    {
    }
  }

  lemma LeftAll(values: set<Value>, g: Graph, w: Value, uses: seq<Use>, inst: Value)
    requires Linked(values, g) && inst in values && w in values
    requires Left(g.uses[w], uses, inst, |g.operands[inst]|)
    ensures UsesWithout(g.uses[w], uses, inst)
  {
  }

  /** An IR value.  Values that are not instructions have no operands. */
  class Value {
    var operands: seq<Value?>
    var uses: seq<Use>
    var finalized: bool

    constructor (size: nat)
      ensures operands == seq(size, i => null) && uses == [] && !finalized
    {
      operands := seq(size, i => null);
      uses := [];
      finalized := false;
    }

    /** Puts a value in an operand: the old value loses the use and the new one gains it. */
    method SetOperand(i: nat, value: Value, ghost values: set<Value>)
      requires Consistent(values) && this in values && value in values
      requires i < |operands|
      modifies this`operands, values`uses
      ensures Consistent(values)
      ensures GraphOf(values) == SetIn(old(GraphOf(values)), this, i, value)
    {
      assert operands[i] != null ==> operands[i] in values;
      hide Linked, Remove, Distinct, SetIn, UsesAfter;
      ghost var g := GraphOf(values);
      MoveUse(i, value, values);
      SetInSame(values, g, GraphOf(values), this, i, value);
      SetOperandLinked(values, g, this, i, value);
    }

    method MoveUse(i: nat, value: Value, ghost values: set<Value>)
      requires this in values && value in values && i < |operands| && (operands[i] != null ==> operands[i] in values)
      modifies this`operands, values`uses
      ensures operands == old(operands)[i := value]
      ensures forall w :: w in values ==>
        w.uses == UsesAfter(old(w.uses), Use(this, i), w == old(operands[i]), w == value)
    {
      hide Remove;
      var oldValue := operands[i];
      if oldValue != null {
        oldValue.uses := Remove(oldValue.uses, Use(this, i));
      }
      operands := operands[i := value];
      value.uses := value.uses + [Use(this, i)];
    }

    /** Resizes the operand list without touching any use list.  The use lists stay consistent
        exactly when every operand dropped is empty; so growing always keeps them. */
    method OperandResize(size: nat, ghost values: set<Value>)
      requires Consistent(values) && this in values
      modifies this`operands
      ensures |operands| == size
      ensures forall i :: 0 <= i < size ==>
                operands[i] == if i < |old(operands)| then old(operands)[i] else null
      ensures Consistent(values) <==> forall i :: size <= i < |old(operands)| ==> old(operands)[i] == null
    {
      operands := if size <= |operands| then operands[..size]
                  else operands + seq(size - |operands|, i => null);
      forall i | size <= i < |old(operands)| && old(operands)[i] != null
        ensures !Consistent(values)
      {
        assert Use(this, i) in old(operands)[i].uses;
      }
    }

    /** Drops a value nothing uses: it leaves the use lists of its operands. */
    method Finalize(ghost values: set<Value>)
      requires Consistent(values) && this in values
      requires uses == []
      modifies this, values`uses
      ensures Consistent(values)
      ensures operands == [] && uses == [] && finalized
      ensures forall w :: w in values ==> UsesWithout(old(w.uses), w.uses, this)
    {
      hide UsesWithout, Left, Linked, Distinct;
      ghost var g := GraphOf(values);
      finalized := true;
      assert GraphOf(values) == g;
      DropUses(values);
      forall w | w in values
        ensures UsesWithout(g.uses[w], w.uses, this)
      {
        LeftAll(values, g, w, w.uses, this);
      }
      operands := [];
      FinalizeLinked(values, g, GraphOf(values), this);
    }

    /** Takes this instruction out of the use lists of its operands, one operand at a time. */
    method DropUses(ghost values: set<Value>)
      requires Consistent(values) && this in values && uses == []
      modifies values`uses
      ensures uses == []
      ensures forall w :: w in values ==> Left(old(w.uses), w.uses, this, |operands|)
    {
      assert forall i :: 0 <= i < |operands| && operands[i] != null ==> operands[i] in values;
      hide Left, Linked, Remove, Distinct;
      ghost var g := GraphOf(values);
      forall w | w in values ensures Left(g.uses[w], w.uses, this, 0) {
        LeftNone(values, g, w, this);
      }
      for i := 0 to |operands|
        invariant uses == []
        invariant forall w :: w in values ==> Left(g.uses[w], w.uses, this, i)
      {
        forall w | w in values
          ensures Left(g.uses[w], if w == operands[i] then Remove(w.uses, Use(this, i)) else w.uses, this, i + 1)
        {
          LeftOneMore(values, g, w, w.uses, this, i);
        }
        DropUse(i, values);
      }
    }

    method DropUse(i: nat, ghost values: set<Value>)
      requires i < |operands| && (operands[i] != null ==> operands[i] in values)
      modifies values`uses
      ensures forall w :: w in values ==>
        w.uses == if w == operands[i] then Remove(old(w.uses), Use(this, i)) else old(w.uses)
    {
      var oldValue := operands[i];
      if oldValue != null {
        oldValue.uses := Remove(oldValue.uses, Use(this, i));
      }
    }

    /** Makes every use of this value a use of another one, over a copy of its use list. */
    method ReplaceAllUses(value: Value, ghost values: set<Value>)
      requires Consistent(values) && this in values && value in values && value != this
      modifies values`operands, values`uses
      ensures Consistent(values)
      ensures uses == []
      ensures Replaced(values, old(GraphOf(values)), GraphOf(values), [], this, value)
    {
      ghost var g := GraphOf(values);
      var copy := uses;
      assert copy[0..] == copy;
      hide Linked, Distinct, Replaced, SetIn;
      ReplacedStart(values, g, this, value);
      for k := 0 to |copy|
        invariant Consistent(values)
        invariant uses == copy[k..]
        invariant Replaced(values, g, GraphOf(values), copy[k..], this, value)
      {
        var use := copy[k];
        ReplacedStep(values, g, GraphOf(values), copy, k, this, value);
        use.instruction.SetOperand(use.index, value, values);
      }
      assert copy[|copy|..] == [];
    }

    /** Gives every use of this value its own new dereference of a pointer, as the passes that lower
        variables do, and then drops this value: by then nothing uses it. */
    method ReplaceByDereferences(pointer: Value, ghost values: set<Value>)
      returns (ghost values': set<Value>, ghost made: seq<Value>)
      requires Consistent(values) && this in values && pointer in values && pointer != this
      modifies values
      ensures values <= values' && fresh(values' - values) && Consistent(values')
      ensures values' == values + set d | d in made
      ensures finalized && uses == [] && operands == []
      ensures Dereferenced(values, old(GraphOf(values)), values', GraphOf(values'), [], this, pointer)
      ensures Distinct(made) && |made| == |old(uses)|
      ensures forall k :: 0 <= k < |made| ==> made[k] !in values && fresh(made[k]) && made[k].operands == [pointer]
      ensures forall k :: 0 <= k < |made| && old(uses)[k].instruction != this ==>
        var use := old(uses)[k];
        && use.index < |use.instruction.operands| && use.instruction.operands[use.index] == made[k]
        && made[k].uses == [use]
    {
      hide Linked, Distinct, Dereferenced, SetIn, AddIn, UsesWithout, OwnDereferences;
      ghost var was := uses;
      values', made := DereferenceAllUses(pointer, values);
      ghost var g2 := GraphOf(values');
      Finalize(values');
      DereferencedDrop(values, old(GraphOf(values)), values', g2, GraphOf(values'), this, pointer);
      OwnAfterDrop(values, g2, GraphOf(values'), was, made, this, pointer);
    }

    method DereferenceAllUses(pointer: Value, ghost values: set<Value>)
      returns (ghost values': set<Value>, ghost made: seq<Value>)
      requires Consistent(values) && this in values && pointer in values && pointer != this
      modifies values`operands, values`uses
      ensures WithMade(values, values', made) && values <= values' && fresh(values' - values) && Consistent(values')
      ensures forall d :: d in made ==> d in values' && d !in values
      ensures uses == []
      ensures Dereferenced(values, old(GraphOf(values)), values', GraphOf(values'), [], this, pointer)
      ensures |made| == |old(uses)| && OwnDereferences(values, GraphOf(values'), old(uses), made, pointer)
    {
      ghost var g := GraphOf(values);
      values' := values;
      made := [];
      var copy := uses;
      assert copy[0..] == copy;
      DistinctUses(values, g, this);
      hide Linked, Distinct, Dereferenced, SetIn, AddIn, OwnDereferences, WithMade;
      DereferencedStart(values, g, this, pointer);
      OwnStart(values, g, copy, pointer);
      WithNone(values);
      for k := 0 to |copy|
        invariant values <= values' && fresh(values' - values) && WithMade(values, values', made) && Consistent(values')
        invariant uses == copy[k..] && |made| == k
        invariant Dereferenced(values, g, values', GraphOf(values'), copy[k..], this, pointer)
        invariant OwnDereferences(values, GraphOf(values'), copy, made, pointer)
      {
        UsesHead(values', GraphOf(values'), copy, k, this);
        ghost var before, g1 := values', GraphOf(values');
        ghost var d;
        values', d := DereferenceUse(copy[k], pointer, values');
        DereferencedStep(values, g, before, g1, copy, k, this, pointer, d);
        OwnStep(values, before, g1, copy, made, this, pointer, d);
        made := made + [d];
        assert uses == GraphOf(values').uses[this];
      }
      assert copy[|copy|..] == [];
      OnlyMade(values, values', made, GraphOf(values'), copy, pointer);
    }
  }

  /** Gives one use of a value a new dereference of a pointer. */
  method DereferenceUse(use: Use, pointer: Value, ghost values: set<Value>)
    returns (ghost values': set<Value>, ghost d: Value)
    requires Consistent(values) && pointer in values
    requires use.instruction in values && use.index < |use.instruction.operands|
    modifies values`operands, values`uses
    ensures fresh(d) && d !in values && values' == values + {d} && Consistent(values')
    ensures var g2 := SetIn(AddIn(old(GraphOf(values)), d), d, 0, pointer);
            use.instruction in g2.operands && use.index < |g2.operands[use.instruction]|
            && GraphOf(values') == SetIn(g2, use.instruction, use.index, d)
  {
    hide Linked;
    var dereference;
    dereference, values' := CreateDereference(pointer, values);
    d := dereference;
    use.instruction.SetOperand(use.index, dereference, values');
  }

  /** The first use left in a value's list is an operand that is the value. */
  lemma UsesHead(values: set<Value>, g: Graph, copy: seq<Use>, k: nat, v: Value)
    requires Linked(values, g) && v in values && k < |copy| && g.uses[v] == copy[k..]
    ensures var use := copy[k];
            use.instruction in values && use.index < |g.operands[use.instruction]|
            && g.operands[use.instruction][use.index] == v
    ensures Remove(copy[k..], copy[k]) == copy[k + 1..]
    ensures copy[k] in copy[k..] && copy[k] !in copy[k + 1..]
    ensures forall u :: u in copy[k..] && u != copy[k] ==> u in copy[k + 1..]
    ensures forall u :: u in copy[k + 1..] ==> u in copy[k..]
  {
    assert copy[k..][0] == copy[k] && copy[k..][1..] == copy[k + 1..];
    RemoveHead(copy[k..]);
    assert copy[k] in g.uses[v];
    assert copy[k..] == [copy[k]] + copy[k + 1..];
  }

  /** Every operand that was v, but for the pending uses, is the new value; every other operand is
      as it was. */
  ghost predicate Replaced(values: set<Value>, g: Graph, g': Graph, pending: seq<Use>, v: Value, value: Value) {
    && g.operands.Keys == values && g'.operands.Keys == values
    && (forall w :: w in values ==> |g'.operands[w]| == |g.operands[w]|)
    && (forall w, i :: w in values && 0 <= i < |g.operands[w]| ==>
          g'.operands[w][i] == if g.operands[w][i] == v && Use(w, i) !in pending then value else g.operands[w][i])
  }

  lemma ReplacedStart(values: set<Value>, g: Graph, v: Value, value: Value)
    requires Linked(values, g) && v in values
    ensures Replaced(values, g, g, g.uses[v], v, value)
  {
  }

  lemma ReplacedStep(values: set<Value>, g: Graph, g1: Graph, copy: seq<Use>, k: nat, v: Value, value: Value)
    requires Linked(values, g1) && v in values && value in values && value != v
    requires k < |copy| && g1.uses[v] == copy[k..]
    requires Replaced(values, g, g1, copy[k..], v, value)
    ensures copy[k].instruction in values && copy[k].index < |g1.operands[copy[k].instruction]|
    ensures var g2 := SetIn(g1, copy[k].instruction, copy[k].index, value);
            Replaced(values, g, g2, copy[k + 1..], v, value) && v in g2.uses && g2.uses[v] == copy[k + 1..]
  {
    UsesHead(values, g1, copy, k, v);
    var use := copy[k];
    var g2 := SetIn(g1, use.instruction, use.index, value);
    forall w, i | w in values && 0 <= i < |g.operands[w]|
      ensures g2.operands[w][i] ==
        if g.operands[w][i] == v && Use(w, i) !in copy[k + 1..] then value else g.operands[w][i]
    {
      if Use(w, i) != use {
        assert g2.operands[w][i] == g1.operands[w][i];
      }
    }
  }

  /** Every operand that was v, but for the pending uses, is a new dereference of the pointer; every
      other operand is as it was. */
  ghost predicate Dereferenced(values: set<Value>, g: Graph, values': set<Value>, g': Graph,
                               pending: seq<Use>, v: Value, pointer: Value)
  {
    && values <= values' && g.operands.Keys == values && g'.operands.Keys == values'
    && (forall u :: u in pending ==> u.instruction in values)
    && (forall w :: w in values && w != v ==> |g'.operands[w]| == |g.operands[w]|)
    && (forall w, i :: w in values && w != v && 0 <= i < |g.operands[w]| ==>
          if g.operands[w][i] == v && Use(w, i) !in pending then IsDereference(g', g'.operands[w][i], values, pointer)
          else g'.operands[w][i] == g.operands[w][i])
  }

  ghost predicate IsDereference(g: Graph, d: Value?, values: set<Value>, pointer: Value) {
    d != null && d !in values && d in g.operands && g.operands[d] == [pointer]
  }

  lemma DereferencedStart(values: set<Value>, g: Graph, v: Value, pointer: Value)
    requires Linked(values, g) && v in values
    ensures Dereferenced(values, g, values, g, g.uses[v], v, pointer)
  {
  }

  lemma DereferencedStep(values: set<Value>, g: Graph, values1: set<Value>, g1: Graph, copy: seq<Use>, k: nat,
                         v: Value, pointer: Value, d: Value)
    requires Linked(values1, g1) && v in values && pointer in values && pointer != v && d !in values1
    requires k < |copy| && v in g1.uses && g1.uses[v] == copy[k..]
    requires Dereferenced(values, g, values1, g1, copy[k..], v, pointer)
    ensures var g2 := SetIn(AddIn(g1, d), d, 0, pointer);
            copy[k].instruction in values1 && copy[k].index < |g2.operands[copy[k].instruction]|
    ensures var g3 := SetIn(SetIn(AddIn(g1, d), d, 0, pointer), copy[k].instruction, copy[k].index, d);
            Dereferenced(values, g, values1 + {d}, g3, copy[k + 1..], v, pointer)
            && v in g3.uses && g3.uses[v] == copy[k + 1..]
  {
    UsesHead(values1, g1, copy, k, v);
    hide Linked, Distinct, Remove, UsesAfter;
    var use := copy[k];
    var g2 := SetIn(AddIn(g1, d), d, 0, pointer);
    var g3 := SetIn(g2, use.instruction, use.index, d);
    assert g2.uses[v] == g1.uses[v];
    forall w, i | w in values && w != v && 0 <= i < |g.operands[w]|
      ensures if g.operands[w][i] == v && Use(w, i) !in copy[k + 1..]
        then IsDereference(g3, g3.operands[w][i], values, pointer)
        else g3.operands[w][i] == g.operands[w][i]
    {
      if Use(w, i) != use {
        assert g3.operands[w][i] == g1.operands[w][i];
      }
    }
  }

  lemma DereferencedDrop(values: set<Value>, g: Graph, values': set<Value>, g1: Graph, g2: Graph, v: Value,
      pointer: Value)
    requires Dereferenced(values, g, values', g1, [], v, pointer) && v in values
    requires g2.operands == g1.operands[v := []]
    ensures Dereferenced(values, g, values', g2, [], v, pointer)
  {
  }

  /** The first uses have a new dereference each, which nothing else uses. */
  ghost predicate OwnDereferences(values: set<Value>, g: Graph, copy: seq<Use>, made: seq<Value>, pointer: Value) {
    && |made| <= |copy| && Distinct(made) && Distinct(copy)
    && (forall u :: u in copy ==> u.instruction in values)
    && forall k :: 0 <= k < |made| ==> Owns(values, g, copy[k], made[k], pointer)
  }

  ghost predicate Owns(values: set<Value>, g: Graph, use: Use, d: Value, pointer: Value) {
    && d !in values && d in g.operands && d in g.uses && g.operands[d] == [pointer] && g.uses[d] == [use]
    && use.instruction in g.operands && use.index < |g.operands[use.instruction]|
    && g.operands[use.instruction][use.index] == d
  }

  /** The values with the new ones, and no others. */
  ghost predicate WithMade(values: set<Value>, values': set<Value>, made: seq<Value>) {
    values' == values + set d | d in made
  }

  lemma WithNone(values: set<Value>)
    ensures WithMade(values, values, [])
  {
  }

  lemma OnlyMade(values: set<Value>, values': set<Value>, made: seq<Value>, g: Graph, copy: seq<Use>, pointer: Value)
    requires WithMade(values, values', made) && OwnDereferences(values, g, copy, made, pointer)
    ensures forall d :: d in made ==> d in values' && d !in values
  {
    forall d | d in made ensures d !in values {
      var k :| 0 <= k < |made| && made[k] == d;
      assert Owns(values, g, copy[k], made[k], pointer);
    }
  }

  lemma DistinctUses(values: set<Value>, g: Graph, v: Value)
    requires Linked(values, g) && v in values
    ensures Distinct(g.uses[v]) && forall u :: u in g.uses[v] ==> u.instruction in values
  {
  }

  lemma OwnStart(values: set<Value>, g: Graph, copy: seq<Use>, pointer: Value)
    requires Distinct(copy) && forall u :: u in copy ==> u.instruction in values
    ensures OwnDereferences(values, g, copy, [], pointer)
  {
  }

  lemma OwnStep(values: set<Value>, values1: set<Value>, g1: Graph, copy: seq<Use>, made: seq<Value>, v: Value,
      pointer: Value, d: Value)
    requires Linked(values1, g1) && v in values && pointer in values && pointer != v
    requires WithMade(values, values1, made) && d !in values1
    requires |made| < |copy| && g1.uses[v] == copy[|made|..] && OwnDereferences(values, g1, copy, made, pointer)
    ensures WithMade(values, values1 + {d}, made + [d])
    ensures var g2 := SetIn(AddIn(g1, d), d, 0, pointer);
            var use := copy[|made|];
            use.instruction in values1 && use.index < |g2.operands[use.instruction]|
            && OwnDereferences(values, SetIn(g2, use.instruction, use.index, d), copy, made + [d], pointer)
  {
    var use, g2 := copy[|made|], SetIn(AddIn(g1, d), d, 0, pointer);
    UsesHead(values1, g1, copy, |made|, v);
    var g3 := SetIn(g2, use.instruction, use.index, d);
    GraphKeys(values1, g1);
    OnlyMade(values, values1, made, g1, copy, pointer);
    OwnNew(values, g1, use, v, pointer, d);
    hide Linked, Remove, Owns, SetIn, AddIn;
    assert use in copy;
    forall k | 0 <= k <= |made| ensures Owns(values, g3, copy[k], (made + [d])[k], pointer) {
      if k < |made| {
        assert (made + [d])[k] == made[k] && copy[k] in copy;
        OwnKept(values, g1, copy[k], made[k], use, v, pointer, d);
      }
    }
    DistinctMore(made, d);
  }

  lemma GraphKeys(values: set<Value>, g: Graph)
    requires Linked(values, g)
    ensures g.operands.Keys == values == g.uses.Keys
  {
  }

  lemma OwnNew(values: set<Value>, g1: Graph, use: Use, v: Value, pointer: Value, d: Value)
    requires v in values && pointer in values && values <= g1.operands.Keys && g1.operands.Keys == g1.uses.Keys
    requires d !in g1.operands && use.instruction in values && use.index < |g1.operands[use.instruction]|
    requires g1.operands[use.instruction][use.index] == v
    ensures Owns(values, SetIn(SetIn(AddIn(g1, d), d, 0, pointer), use.instruction, use.index, d), use, d, pointer)
  {
    var g2 := SetIn(AddIn(g1, d), d, 0, pointer);
    assert g2.operands[use.instruction] == g1.operands[use.instruction];
    assert g2.uses[d] == [];
    hide Remove;
  }

  lemma DistinctMore(made: seq<Value>, d: Value)
    requires Distinct(made) && d !in made
    ensures Distinct(made + [d])
  {
  }

  /** A dereference made before keeps its one use. */
  lemma OwnKept(values: set<Value>, g1: Graph, own: Use, made: Value, use: Use, v: Value, pointer: Value, d: Value)
    requires Owns(values, g1, own, made, pointer) && own != use && own.instruction in values
    requires v in values && pointer in values && values <= g1.operands.Keys && g1.operands.Keys == g1.uses.Keys
    requires d !in g1.operands && use.instruction in values && use.index < |g1.operands[use.instruction]|
    requires g1.operands[use.instruction][use.index] == v
    ensures Owns(values, SetIn(SetIn(AddIn(g1, d), d, 0, pointer), use.instruction, use.index, d), own, made, pointer)
  {
    var g2 := SetIn(AddIn(g1, d), d, 0, pointer);
    assert g2.operands[use.instruction] == g1.operands[use.instruction];
    assert g2.uses[made] == g1.uses[made];
    hide Remove;
  }

  /** Dropping the value leaves the uses by others. */
  lemma OwnAfterDrop(values: set<Value>, g: Graph, g': Graph, copy: seq<Use>, made: seq<Value>, v: Value,
      pointer: Value)
    requires OwnDereferences(values, g, copy, made, pointer) && v in values
    requires g.uses.Keys == g'.uses.Keys && g'.operands == g.operands[v := []]
    requires forall w :: w in g.uses ==> UsesWithout(g.uses[w], g'.uses[w], v)
    ensures Distinct(made)
    ensures forall k :: 0 <= k < |made| ==>
      made[k] !in values && made[k] in g'.operands && g'.operands[made[k]] == [pointer]
    ensures forall k :: 0 <= k < |made| && copy[k].instruction != v ==> Owns(values, g', copy[k], made[k], pointer)
  {
    forall k | 0 <= k < |made|
      ensures made[k] !in values && made[k] in g'.operands && g'.operands[made[k]] == [pointer]
      ensures copy[k].instruction != v ==> Owns(values, g', copy[k], made[k], pointer)
    {
      assert Owns(values, g, copy[k], made[k], pointer);
      if copy[k].instruction != v {
        OneUse(g'.uses[made[k]], copy[k], v);
      }
    }
  }

  lemma OneUse(after: seq<Use>, use: Use, v: Value)
    requires UsesWithout([use], after, v) && use.instruction != v
    ensures after == [use]
  {
    assert use in after;
    var n := |after| - 1;
    assert after[0] in after && after[n] in after;
  }

  /** A new instruction whose one operand is the pointer. */
  method CreateDereference(pointer: Value, ghost values: set<Value>)
    returns (dereference: Value, ghost values': set<Value>)
    requires Consistent(values) && pointer in values
    modifies values`uses
    ensures fresh(dereference) && values' == values + {dereference} && Consistent(values')
    ensures GraphOf(values') == SetIn(AddIn(old(GraphOf(values)), dereference), dereference, 0, pointer)
  {
    ghost var g := GraphOf(values);
    dereference := new Value(1);
    values' := values + {dereference};
    assert dereference.operands == [null];
    assert GraphOf(values').operands == AddIn(g, dereference).operands;
    assert GraphOf(values').uses == AddIn(g, dereference).uses;
    AddLinked(values, g, dereference);
    hide Linked, SetIn;
    dereference.SetOperand(0, pointer, values');
  }

  lemma AddLinked(values: set<Value>, g: Graph, v: Value)
    requires Linked(values, g) && v !in values
    ensures Linked(values + {v}, AddIn(g, v))
  {
  }
}
