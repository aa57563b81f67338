/** Which fields of a value the reference-counting calls go to, and in which order. */
module RefCountTypes {
  /** A type: the special member functions it has itself, and its fields. */
  datatype Type = Type(copies: bool, finalizes: bool, fields: seq<Type>)

  /** A field of a field of ... a value. */
  type Path = seq<nat>

  predicate HasCopy(t: Type) {
    t.copies || exists i :: 0 <= i < |t.fields| && HasCopy(t.fields[i])
  }

  predicate HasFinalize(t: Type) {
    t.finalizes || exists i :: 0 <= i < |t.fields| && HasFinalize(t.fields[i])
  }

  /** CopyVariableLikedCallback: the fields in order, then the value itself. */
  function CopyCalls(t: Type, path: Path): seq<Path>
    decreases t, |t.fields| + 1
  {
    if HasCopy(t) then CopyFields(t, |t.fields|, path) + (if t.copies then [path] else []) else []
  }

  function CopyFields(t: Type, n: nat, path: Path): seq<Path>
    requires n <= |t.fields|
    decreases t, n
  {
    if n == 0 then []
    else CopyFields(t, n - 1, path)
         + if HasCopy(t.fields[n - 1]) then CopyCalls(t.fields[n - 1], path + [n - 1]) else []
  }

  /** FinalizeVariableLikedCallback: the value itself, then its fields from the last to the first. */
  function FinalizeCalls(t: Type, path: Path): seq<Path>
    decreases t, |t.fields| + 1
  {
    if HasFinalize(t) then (if t.finalizes then [path] else []) + FinalizeFields(t, |t.fields|, path) else []
  }

  function FinalizeFields(t: Type, n: nat, path: Path): seq<Path>
    requires n <= |t.fields|
    decreases t, n
  {
    if n == 0 then []
    else (if HasFinalize(t.fields[n - 1]) then FinalizeCalls(t.fields[n - 1], path + [n - 1]) else [])
         + FinalizeFields(t, n - 1, path)
  }

  /** Types that copy what they finalize, all the way down. */
  ghost predicate Paired(t: Type) {
    t.copies == t.finalizes && forall i :: 0 <= i < |t.fields| ==> Paired(t.fields[i])
  }

  function Reversed(s: seq<Path>): seq<Path> {
    if s == [] then [] else Reversed(s[1..]) + [s[0]]
  }

  lemma {:induction false} ReversedAppend(a: seq<Path>, b: seq<Path>)
    ensures Reversed(a + b) == Reversed(b) + Reversed(a)
    decreases |a|
  {
    if a == [] {
      assert a + b == b;
    } else {
      assert (a + b)[1..] == a[1..] + b;
      ReversedAppend(a[1..], b);
    }
  }

  lemma {:induction false} PairedHas(t: Type)
    requires Paired(t)
    ensures HasCopy(t) == HasFinalize(t)
  {
    forall i | 0 <= i < |t.fields| ensures HasCopy(t.fields[i]) == HasFinalize(t.fields[i]) {
      PairedHas(t.fields[i]);
    }
  }

  /** Finalizing undoes copying: the same fields, in exactly the opposite order. */
  lemma {:induction false} FinalizeReversesCopy(t: Type, path: Path)
    requires Paired(t)
    ensures FinalizeCalls(t, path) == Reversed(CopyCalls(t, path))
    decreases t, |t.fields| + 1
  {
    PairedHas(t);
    FinalizeFieldsReverse(t, |t.fields|, path);
    var self := if t.copies then [path] else [];
    ReversedAppend(CopyFields(t, |t.fields|, path), self);
    if t.copies {
      assert self[1..] == [];
    }
  }

  lemma {:induction false} FinalizeFieldsReverse(t: Type, n: nat, path: Path)
    requires Paired(t) && n <= |t.fields|
    ensures FinalizeFields(t, n, path) == Reversed(CopyFields(t, n, path))
    decreases t, n
  {
    if n > 0 {
      FinalizeFieldsReverse(t, n - 1, path);
      PairedHas(t.fields[n - 1]);
      var c := if HasCopy(t.fields[n - 1]) then CopyCalls(t.fields[n - 1], path + [n - 1]) else [];
      ReversedAppend(CopyFields(t, n - 1, path), c);
      if HasCopy(t.fields[n - 1]) {
        FinalizeReversesCopy(t.fields[n - 1], path + [n - 1]);
      }
    }
  }

  /** The type of a field reached by a path, if there is one. */
  function At(t: Type, path: Path): (r: seq<Type>)
    decreases |path|
  {
    if path == [] then [t]
    else if path[0] < |t.fields| then At(t.fields[path[0]], path[1..])
    else []
  }

  /** Copying calls exactly the fields whose own type copies, at whatever depth. */
  lemma {:induction false} CopyCallsExactly(t: Type, prefix: Path, path: Path)
    ensures prefix + path in CopyCalls(t, prefix) <==> (At(t, path) != [] && At(t, path)[0].copies)
    decreases t, |t.fields| + 1
  {
    CopyFieldsExactly(t, |t.fields|, prefix, path);
    if path == [] {
      assert prefix + path == prefix;
    } else {
      assert prefix + path != prefix by { assert |prefix + path| > |prefix|; }
    }
    if !HasCopy(t) {
      NoCopyBelow(t, path);
    }
  }

  lemma {:induction false} NoCopyBelow(t: Type, path: Path)
    requires !HasCopy(t)
    ensures At(t, path) != [] ==> !At(t, path)[0].copies
    decreases |path|
  {
    if path != [] && path[0] < |t.fields| {
      NoCopyBelow(t.fields[path[0]], path[1..]);
    }
  }

  lemma {:induction false} CopyFieldsExactly(t: Type, n: nat, prefix: Path, path: Path)
    requires n <= |t.fields|
    ensures prefix + path in CopyFields(t, n, prefix)
       <==> (path != [] && path[0] < n && At(t, path) != [] && At(t, path)[0].copies)
    decreases t, n
  {
    if n > 0 {
      CopyFieldsExactly(t, n - 1, prefix, path);
      var f, deeper := t.fields[n - 1], prefix + [n - 1];
      if path != [] && path[0] == n - 1 {
        assert prefix + path == deeper + path[1..];
        CopyCallsExactly(f, deeper, path[1..]);
        if !HasCopy(f) {
          NoCopyBelow(f, path[1..]);
        }
      } else {
        assert deeper[|prefix|] == n - 1;
        if prefix + path in CopyCalls(f, deeper) {
          CopyCallsUnder(f, deeper, prefix + path);
          assert false;
        }
      }
    }
  }

  lemma {:induction false} CopyCallsUnder(t: Type, prefix: Path, path: Path)
    requires path in CopyCalls(t, prefix)
    ensures prefix <= path
    decreases t, |t.fields| + 1
  {
    if path != prefix {
      CopyFieldsUnder(t, |t.fields|, prefix, path);
    }
  }

  lemma {:induction false} CopyFieldsUnder(t: Type, n: nat, prefix: Path, path: Path)
    requires n <= |t.fields| && path in CopyFields(t, n, prefix)
    ensures prefix < path && path[|prefix|] < n
    decreases t, n
  {
    if path in CopyFields(t, n - 1, prefix) {
      CopyFieldsUnder(t, n - 1, prefix, path);
    } else {
      CopyCallsUnder(t.fields[n - 1], prefix + [n - 1], path);
      assert (prefix + [n - 1])[|prefix|] == n - 1;
    }
  }

  // ---------- finalizing, for every type ----------

  /** Finalizing calls exactly the fields whose own type finalizes, at whatever depth. */
  lemma {:induction false} FinalizeCallsExactly(t: Type, prefix: Path, path: Path)
    ensures prefix + path in FinalizeCalls(t, prefix) <==> (At(t, path) != [] && At(t, path)[0].finalizes)
    decreases t, |t.fields| + 1
  {
    FinalizeFieldsExactly(t, |t.fields|, prefix, path);
    if path == [] {
      assert prefix + path == prefix;
    } else {
      assert prefix + path != prefix by { assert |prefix + path| > |prefix|; }
    }
    if !HasFinalize(t) {
      NoFinalizeBelow(t, path);
    }
  }

  lemma {:induction false} NoFinalizeBelow(t: Type, path: Path)
    requires !HasFinalize(t)
    ensures At(t, path) != [] ==> !At(t, path)[0].finalizes
    decreases |path|
  {
    if path != [] && path[0] < |t.fields| {
      NoFinalizeBelow(t.fields[path[0]], path[1..]);
    }
  }

  lemma {:induction false} FinalizeFieldsExactly(t: Type, n: nat, prefix: Path, path: Path)
    requires n <= |t.fields|
    ensures prefix + path in FinalizeFields(t, n, prefix)
       <==> (path != [] && path[0] < n && At(t, path) != [] && At(t, path)[0].finalizes)
    decreases t, n
  {
    if n > 0 {
      FinalizeFieldsExactly(t, n - 1, prefix, path);
      var f, deeper := t.fields[n - 1], prefix + [n - 1];
      if path != [] && path[0] == n - 1 {
        assert prefix + path == deeper + path[1..];
        FinalizeCallsExactly(f, deeper, path[1..]);
        if !HasFinalize(f) {
          NoFinalizeBelow(f, path[1..]);
        }
      } else {
        assert deeper[|prefix|] == n - 1;
        if prefix + path in FinalizeCalls(f, deeper) {
          FinalizeCallsUnder(f, deeper, prefix + path);
          assert false;
        }
      }
    }
  }

  lemma {:induction false} FinalizeCallsUnder(t: Type, prefix: Path, path: Path)
    requires path in FinalizeCalls(t, prefix)
    ensures prefix <= path
    decreases t, |t.fields| + 1
  {
    if path != prefix {
      FinalizeFieldsUnder(t, |t.fields|, prefix, path);
    }
  }

  lemma {:induction false} FinalizeFieldsUnder(t: Type, n: nat, prefix: Path, path: Path)
    requires n <= |t.fields| && path in FinalizeFields(t, n, prefix)
    ensures prefix < path && path[|prefix|] < n
    decreases t, n
  {
    if path in FinalizeFields(t, n - 1, prefix) {
      FinalizeFieldsUnder(t, n - 1, prefix, path);
    } else {
      FinalizeCallsUnder(t.fields[n - 1], prefix + [n - 1], path);
      assert (prefix + [n - 1])[|prefix|] == n - 1;
    }
  }

  // ---------- the orders ----------

  /** A value is finalized before its fields, and a later field, with all in it, before an earlier one. */
  ghost predicate FinalizedFirst(a: Path, b: Path) {
    b != [] && (a == [] || a[0] > b[0] || (a[0] == b[0] && FinalizedFirst(a[1..], b[1..])))
  }

  /** The same below a common prefix. */
  ghost predicate FirstUnder(prefix: Path, a: Path, b: Path) {
    prefix <= a && prefix <= b && FinalizedFirst(a[|prefix|..], b[|prefix|..])
  }

  lemma {:induction false} NotFirstItself(a: Path)
    ensures !FinalizedFirst(a, a)
  {
    if a != [] {
      NotFirstItself(a[1..]);
    }
  }

  lemma {:induction false} FirstBelow(prefix: Path, a: Path, b: Path)
    requires FirstUnder(prefix, a, b)
    ensures FinalizedFirst(a, b)
    decreases prefix
  {
    if prefix == [] {
      assert a[0..] == a && b[0..] == b;
    } else {
      assert a[1..][|prefix| - 1..] == a[|prefix|..] && b[1..][|prefix| - 1..] == b[|prefix|..];
      assert a[0] == prefix[0] == b[0];
      FirstBelow(prefix[1..], a[1..], b[1..]);
    }
  }

  lemma FirstDeeper(prefix: Path, n: nat, a: Path, b: Path)
    requires FirstUnder(prefix + [n], a, b)
    ensures FirstUnder(prefix, a, b)
  {
    var deeper := prefix + [n];
    assert deeper[|prefix|] == n && prefix <= deeper;
    assert a[|prefix|..][1..] == a[|deeper|..] && b[|prefix|..][1..] == b[|deeper|..];
    assert a[|prefix|..][0] == n == b[|prefix|..][0];
  }

  /** Every value to finalize is finalized once, and before its fields; a later field goes before an earlier
      one. */
  lemma {:induction false} FinalizeOrder(t: Type, prefix: Path, i: nat, j: nat)
    requires i < j < |FinalizeCalls(t, prefix)|
    ensures FirstUnder(prefix, FinalizeCalls(t, prefix)[i], FinalizeCalls(t, prefix)[j])
    ensures FinalizedFirst(FinalizeCalls(t, prefix)[i], FinalizeCalls(t, prefix)[j])
    ensures FinalizeCalls(t, prefix)[i] != FinalizeCalls(t, prefix)[j]
    decreases t, |t.fields| + 1
  {
    var self := if t.finalizes then [prefix] else [];
    var fields := FinalizeFields(t, |t.fields|, prefix);
    var calls := FinalizeCalls(t, prefix);
    assert calls == self + fields;
    assert calls[j] == fields[j - |self|];
    FinalizeFieldsUnder(t, |t.fields|, prefix, calls[j]);
    if i < |self| {
      assert calls[i] == prefix;
    } else {
      FinalizeFieldsOrder(t, |t.fields|, prefix, i - |self|, j - |self|);
    }
    FirstBelow(prefix, calls[i], calls[j]);
    NotFirstItself(calls[i]);
  }

  lemma {:induction false} FinalizeFieldsOrder(t: Type, n: nat, prefix: Path, i: nat, j: nat)
    requires n <= |t.fields| && i < j < |FinalizeFields(t, n, prefix)|
    ensures FirstUnder(prefix, FinalizeFields(t, n, prefix)[i], FinalizeFields(t, n, prefix)[j])
    decreases t, n
  {
    var f, deeper := t.fields[n - 1], prefix + [n - 1];
    var last := if HasFinalize(f) then FinalizeCalls(f, deeper) else [];
    var calls := FinalizeFields(t, n, prefix);
    assert calls == last + FinalizeFields(t, n - 1, prefix);
    if j < |last| {
      FinalizeOrder(f, deeper, i, j);
      FirstDeeper(prefix, n - 1, calls[i], calls[j]);
    } else if i >= |last| {
      FinalizeFieldsOrder(t, n - 1, prefix, i - |last|, j - |last|);
    } else {
      assert calls[j] == FinalizeFields(t, n - 1, prefix)[j - |last|];
      FinalizeCallsUnder(f, deeper, calls[i]);
      FinalizeFieldsUnder(t, n - 1, prefix, calls[j]);
      assert deeper[|prefix|] == n - 1 && prefix <= deeper;
    }
  }

  /** Every value to copy is copied once, after its fields; an earlier field goes before a later one. */
  lemma {:induction false} CopyOrder(t: Type, prefix: Path, i: nat, j: nat)
    requires i < j < |CopyCalls(t, prefix)|
    ensures FirstUnder(prefix, CopyCalls(t, prefix)[j], CopyCalls(t, prefix)[i])
    ensures FinalizedFirst(CopyCalls(t, prefix)[j], CopyCalls(t, prefix)[i])
    ensures CopyCalls(t, prefix)[i] != CopyCalls(t, prefix)[j]
    decreases t, |t.fields| + 1
  {
    var self := if t.copies then [prefix] else [];
    var fields := CopyFields(t, |t.fields|, prefix);
    var calls := CopyCalls(t, prefix);
    assert calls == fields + self;
    assert calls[i] == fields[i];
    CopyFieldsUnder(t, |t.fields|, prefix, calls[i]);
    if j >= |fields| {
      assert calls[j] == prefix;
    } else {
      CopyFieldsOrder(t, |t.fields|, prefix, i, j);
    }
    FirstBelow(prefix, calls[j], calls[i]);
    NotFirstItself(calls[i]);
  }

  lemma {:induction false} CopyFieldsOrder(t: Type, n: nat, prefix: Path, i: nat, j: nat)
    requires n <= |t.fields| && i < j < |CopyFields(t, n, prefix)|
    ensures FirstUnder(prefix, CopyFields(t, n, prefix)[j], CopyFields(t, n, prefix)[i])
    decreases t, n
  {
    var f, deeper := t.fields[n - 1], prefix + [n - 1];
    var before := CopyFields(t, n - 1, prefix);
    var last := if HasCopy(f) then CopyCalls(f, deeper) else [];
    var calls := CopyFields(t, n, prefix);
    assert calls == before + last;
    if j < |before| {
      CopyFieldsOrder(t, n - 1, prefix, i, j);
    } else if i >= |before| {
      CopyOrder(f, deeper, i - |before|, j - |before|);
      FirstDeeper(prefix, n - 1, calls[j], calls[i]);
    } else {
      assert calls[j] == last[j - |before|] && calls[i] == before[i];
      CopyCallsUnder(f, deeper, calls[j]);
      CopyFieldsUnder(t, n - 1, prefix, calls[i]);
      assert deeper[|prefix|] == n - 1 && prefix <= deeper;
    }
  }
}
