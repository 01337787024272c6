/** Merging the contexts of the branches that reach a join (`deepMerge`, `mergeJoinContexts`), and
    when the result does not depend on which branch arrives first.  Objects are compared by their
    keys and values, not by the order their keys were inserted in. */
module ContextMerge {
  import opened Common

  /** A context value: a plain object, or anything else (scalars, null, arrays). */
  datatype Value = Leaf(text: string) | Arr(items: seq<Value>) | Obj(fields: map<string, Value>)

  const Empty := Obj(map[])

  /** `deepMerge(a, b)`: `b` wins, except that two objects are merged. */
  function Merge(a: Value, b: Value): (c: Value)
    requires a.Obj? && b.Obj?
    ensures c.Obj? && c.fields.Keys == a.fields.Keys + b.fields.Keys
    decreases b
  {
    Obj(map k | k in a.fields.Keys + b.fields.Keys ::
      if k !in b.fields then a.fields[k]
      else if k in a.fields && a.fields[k].Obj? && b.fields[k].Obj? then Merge(a.fields[k], b.fields[k])
      else b.fields[k])
  }

  /** The loop of `deepMerge` over the entries of `b`. */
  method DeepMerge(a: Value, b: Value) returns (out: Value)
    requires a.Obj? && b.Obj?
    ensures out == Merge(a, b)
    decreases b
  {
    var fields := a.fields;
    var todo := b.fields.Keys;
    while todo != {}
      invariant todo <= b.fields.Keys
      invariant fields.Keys == a.fields.Keys + (b.fields.Keys - todo)
      invariant forall k :: k in fields ==>
        fields[k] == if k in b.fields && k !in todo then Merge(a, b).fields[k] else a.fields[k]
      decreases todo
    {
      var k :| k in todo;
      var v := b.fields[k];
      if k in fields && fields[k].Obj? && v.Obj? {
        var merged := DeepMerge(fields[k], v);
        fields := fields[k := merged];
      } else {
        fields := fields[k := v];
      }
      todo := todo - {k};
    }
    out := Obj(fields);
  }

  // ---- What a merge holds, path by path -------------------------------------------------------------

  function Look(v: Value, path: seq<string>): Option<Value>
    decreases |path|
  {
    if path == [] then Some(v)
    else if v.Obj? && path[0] in v.fields then Look(v.fields[path[0]], path[1..])
    else None
  }

  /** The context has something at the path, or something other than an object above it. */
  ghost predicate Writes(v: Value, path: seq<string>)
    requires v.Obj? && path != []
    decreases |path|
  {
    && path[0] in v.fields
    && (|path| == 1 || !v.fields[path[0]].Obj? || Writes(v.fields[path[0]], path[1..]))
  }

  /** At every path: what `b` has there, or what `a` has if `b` does not write there. */
  lemma {:induction false} MergeAt(a: Value, b: Value, path: seq<string>, x: Value)
    requires a.Obj? && b.Obj? && path != [] && !x.Obj?
    ensures Look(Merge(a, b), path) == Some(x)
      <==> Look(b, path) == Some(x) || (Look(a, path) == Some(x) && !Writes(b, path))
    decreases |path|
  {
    var k, rest := path[0], path[1..];
    if k in b.fields && k in a.fields && a.fields[k].Obj? && b.fields[k].Obj? {
      if rest != [] { MergeAt(a.fields[k], b.fields[k], rest, x); }
    }
  }

  /** Two contexts have no conflict: where they share a path, both hold objects or equal values. */
  ghost predicate ConflictFree(a: Value, b: Value)
    requires a.Obj? && b.Obj?
    decreases b
  {
    forall k :: k in a.fields && k in b.fields ==>
      if a.fields[k].Obj? && b.fields[k].Obj? then ConflictFree(a.fields[k], b.fields[k])
      else a.fields[k] == b.fields[k]
  }

  /** Merging commutes exactly on contexts without conflicts. */
  lemma {:induction false} CommutesIff(a: Value, b: Value)
    requires a.Obj? && b.Obj?
    ensures Merge(a, b) == Merge(b, a) <==> ConflictFree(a, b)
    decreases b
  {
    forall k | k in a.fields && k in b.fields && a.fields[k].Obj? && b.fields[k].Obj?
      ensures Merge(a.fields[k], b.fields[k]) == Merge(b.fields[k], a.fields[k])
              <==> ConflictFree(a.fields[k], b.fields[k])
    {
      CommutesIff(a.fields[k], b.fields[k]);
    }
    if Merge(a, b) == Merge(b, a) {
      forall k | k in a.fields && k in b.fields ensures Merge(a, b).fields[k] == Merge(b, a).fields[k] {
      }
    }
  }

  // ---- Associativity --------------------------------------------------------------------------------

  /** Merging `a` below `c` changes nothing: every path of `a` is overwritten by `c`. */
  ghost predicate Covered(a: Value, c: Value)
    requires a.Obj? && c.Obj?
    decreases c
  {
    forall k :: k in a.fields ==>
      && k in c.fields
      && (a.fields[k].Obj? && c.fields[k].Obj? ==> Covered(a.fields[k], c.fields[k]))
  }

  lemma {:induction false} CoveredIff(a: Value, c: Value)
    requires a.Obj? && c.Obj?
    ensures Merge(a, c) == c <==> Covered(a, c)
    decreases c
  {
    forall k | k in a.fields && k in c.fields && a.fields[k].Obj? && c.fields[k].Obj?
      ensures Merge(a.fields[k], c.fields[k]) == c.fields[k] <==> Covered(a.fields[k], c.fields[k])
    {
      CoveredIff(a.fields[k], c.fields[k]);
    }
    if Merge(a, c) == c {
      forall k | k in a.fields ensures k in c.fields && Merge(a, c).fields[k] == c.fields[k] {
        assert k in Merge(a, c).fields;
      }
    }
  }

  /** At no path do `a` and `c` hold objects with something else from `b` in between them, unless
      `c` overwrites everything `a` has there. */
  ghost predicate Associates(a: Value, b: Value, c: Value)
    requires a.Obj? && b.Obj? && c.Obj?
    decreases c
  {
    forall k :: k in a.fields && k in b.fields && k in c.fields && a.fields[k].Obj? && c.fields[k].Obj? ==>
      if b.fields[k].Obj? then Associates(a.fields[k], b.fields[k], c.fields[k])
      else Covered(a.fields[k], c.fields[k])
  }

  /** Deep merge is not associative in general; this is exactly when it is. */
  lemma {:induction false} AssociatesIff(a: Value, b: Value, c: Value)
    requires a.Obj? && b.Obj? && c.Obj?
    ensures Merge(Merge(a, b), c) == Merge(a, Merge(b, c)) <==> Associates(a, b, c)
    decreases c
  {
    var left, right := Merge(Merge(a, b), c), Merge(a, Merge(b, c));
    forall k | k in a.fields && k in b.fields && k in c.fields && a.fields[k].Obj? && c.fields[k].Obj?
      ensures left.fields[k] == right.fields[k] <==>
              if b.fields[k].Obj? then Associates(a.fields[k], b.fields[k], c.fields[k])
              else Covered(a.fields[k], c.fields[k])
    {
      if b.fields[k].Obj? {
        AssociatesIff(a.fields[k], b.fields[k], c.fields[k]);
      } else {
        CoveredIff(a.fields[k], c.fields[k]);
      }
    }
    forall k | k in left.fields && !(k in a.fields && k in b.fields && k in c.fields
                                     && a.fields[k].Obj? && c.fields[k].Obj?)
      ensures left.fields[k] == right.fields[k]
    {
    }
    assert left.fields.Keys == right.fields.Keys;
  }

  /** A concrete failure: an object, then a scalar, then an object under one key. */
  lemma NotAssociative()
    ensures var a := Obj(map["k" := Obj(map["x" := Leaf("1")])]);
            var b, c := Obj(map["k" := Leaf("2")]), Obj(map["k" := Empty]);
            Merge(Merge(a, b), c) != Merge(a, Merge(b, c))
  {
    var a := Obj(map["k" := Obj(map["x" := Leaf("1")])]);
    var b, c := Obj(map["k" := Leaf("2")]), Obj(map["k" := Empty]);
    assert "x" in a.fields["k"].fields && !Covered(a.fields["k"], c.fields["k"]);
    assert !Associates(a, b, c);
    AssociatesIff(a, b, c);
  }

  // ---- Conflict-free contexts -----------------------------------------------------------------------

  lemma {:induction false} ConflictFreeSymmetric(a: Value, b: Value)
    requires a.Obj? && b.Obj? && ConflictFree(a, b)
    ensures ConflictFree(b, a)
    decreases b
  {
    forall k | k in a.fields && k in b.fields && a.fields[k].Obj? && b.fields[k].Obj?
      ensures ConflictFree(b.fields[k], a.fields[k])
    {
      ConflictFreeSymmetric(a.fields[k], b.fields[k]);
    }
  }

  lemma {:induction false} ConflictFreeAssociates(a: Value, b: Value, c: Value)
    requires a.Obj? && b.Obj? && c.Obj? && ConflictFree(a, b)
    ensures Associates(a, b, c)
    decreases c
  {
    forall k | k in a.fields && k in b.fields && k in c.fields && a.fields[k].Obj? && c.fields[k].Obj?
      ensures b.fields[k].Obj? && Associates(a.fields[k], b.fields[k], c.fields[k])
    {
      ConflictFreeAssociates(a.fields[k], b.fields[k], c.fields[k]);
    }
  }

  /** A merge has no conflict with a context that neither side has one with. */
  lemma {:induction false} ConflictFreeMerge(a: Value, b: Value, c: Value)
    requires a.Obj? && b.Obj? && c.Obj?
    requires ConflictFree(a, b) && ConflictFree(a, c) && ConflictFree(b, c)
    ensures ConflictFree(Merge(a, b), c)
    decreases c
  {
    forall k | k in a.fields && k in b.fields && k in c.fields && a.fields[k].Obj? && b.fields[k].Obj?
      ensures c.fields[k].Obj? && ConflictFree(Merge(a.fields[k], b.fields[k]), c.fields[k])
    {
      ConflictFreeMerge(a.fields[k], b.fields[k], c.fields[k]);
    }
  }

  // ---- The fold over all branches -------------------------------------------------------------------

  ghost predicate AllObjects(ctxs: seq<Value>) { forall c :: c in ctxs ==> c.Obj? }

  /** `mergeJoinContexts` with the deep-merge strategy: a fold from the empty object. */
  function MergeAll(ctxs: seq<Value>): (merged: Value)
    requires AllObjects(ctxs)
    ensures merged.Obj?
  {
    if ctxs == [] then Empty else Merge(MergeAll(ctxs[..|ctxs| - 1]), ctxs[|ctxs| - 1])
  }

  method MergeJoinContexts(ctxs: seq<Value>) returns (merged: Value)
    requires AllObjects(ctxs)
    ensures merged == MergeAll(ctxs)
  {
    merged := Empty;
    for i := 0 to |ctxs|
      invariant merged == MergeAll(ctxs[..i])
    {
      assert ctxs[..i + 1][..i] == ctxs[..i] && ctxs[i] in ctxs;
      merged := DeepMerge(merged, ctxs[i]);
    }
    assert ctxs[..|ctxs|] == ctxs;
  }

  ghost predicate LastWritten(ctxs: seq<Value>, path: seq<string>, x: Value, i: nat)
    requires AllObjects(ctxs) && path != [] && i < |ctxs|
  {
    Look(ctxs[i], path) == Some(x) && forall j :: i < j < |ctxs| ==> !Writes(ctxs[j], path)
  }

  /** Nothing is lost to a context that does not write there. */
  lemma WrittenBefore(front: seq<Value>, last: Value, path: seq<string>, x: Value, i: nat)
    requires AllObjects(front) && last.Obj? && path != [] && i < |front|
    ensures AllObjects(front + [last])
    ensures LastWritten(front + [last], path, x, i) <==> LastWritten(front, path, x, i) && !Writes(last, path)
  {
    var all := front + [last];
    assert forall j :: 0 <= j < |front| ==> all[j] == front[j];
    assert all[|front|] == last;
  }

  ghost predicate SomeoneWrote(ctxs: seq<Value>, path: seq<string>, x: Value)
    requires AllObjects(ctxs) && path != []
  {
    exists i :: 0 <= i < |ctxs| && LastWritten(ctxs, path, x, i)
  }

  lemma OneMoreWriter(front: seq<Value>, last: Value, path: seq<string>, x: Value)
    requires AllObjects(front) && last.Obj? && path != []
    ensures AllObjects(front + [last])
    ensures SomeoneWrote(front + [last], path, x)
      <==> Look(last, path) == Some(x) || (SomeoneWrote(front, path, x) && !Writes(last, path))
  {
    var all := front + [last];
    forall i | 0 <= i < |front|
      ensures LastWritten(all, path, x, i) <==> LastWritten(front, path, x, i) && !Writes(last, path)
    {
      WrittenBefore(front, last, path, x, i);
    }
    assert LastWritten(all, path, x, |front|) <==> Look(last, path) == Some(x);
  }

  /** The last writer wins: at every path the merged context holds what some context has there that no
      later one writes over. */
  lemma {:induction false} LastWriterWins(ctxs: seq<Value>, path: seq<string>, x: Value)
    requires AllObjects(ctxs) && path != [] && !x.Obj?
    ensures Look(MergeAll(ctxs), path) == Some(x) <==> SomeoneWrote(ctxs, path, x)
  {
    if ctxs != [] {
      var front, last := ctxs[..|ctxs| - 1], ctxs[|ctxs| - 1];
      assert ctxs == front + [last];
      LastWriterWins(front, path, x);
      MergeAt(MergeAll(front), last, path, x);
      OneMoreWriter(front, last, path, x);
    }
  }

  ghost predicate PairwiseConflictFree(ctxs: seq<Value>)
    requires AllObjects(ctxs)
  {
    forall i, j :: 0 <= i < j < |ctxs| ==> ConflictFree(ctxs[i], ctxs[j])
  }

  lemma {:induction false} ConflictFreeAll(ctxs: seq<Value>, c: Value)
    requires AllObjects(ctxs) && c.Obj? && PairwiseConflictFree(ctxs)
    requires forall i :: 0 <= i < |ctxs| ==> ConflictFree(ctxs[i], c)
    ensures ConflictFree(MergeAll(ctxs), c)
  {
    if ctxs != [] {
      var front, last := ctxs[..|ctxs| - 1], ctxs[|ctxs| - 1];
      ConflictFreeAll(front, c);
      ConflictFreeAll(front, last);
      ConflictFreeMerge(MergeAll(front), last, c);
    }
  }

  /** Two conflict-free contexts can be merged onto `a` in either order. */
  lemma Exchange(a: Value, b: Value, c: Value)
    requires a.Obj? && b.Obj? && c.Obj?
    requires ConflictFree(a, b) && ConflictFree(a, c) && ConflictFree(b, c)
    ensures Merge(Merge(a, b), c) == Merge(Merge(a, c), b)
  {
    ConflictFreeAssociates(a, b, c);
    AssociatesIff(a, b, c);
    CommutesIff(b, c);
    ConflictFreeAssociates(a, c, b);
    AssociatesIff(a, c, b);
  }

  function Drop(ctxs: seq<Value>, i: nat): seq<Value>
    requires i < |ctxs|
  {
    ctxs[..i] + ctxs[i + 1..]
  }

  lemma DropKeeps(ctxs: seq<Value>, i: nat)
    requires i < |ctxs| && AllObjects(ctxs) && PairwiseConflictFree(ctxs)
    ensures AllObjects(Drop(ctxs, i)) && PairwiseConflictFree(Drop(ctxs, i))
    ensures forall j :: 0 <= j < |Drop(ctxs, i)| ==> ConflictFree(Drop(ctxs, i)[j], ctxs[i])
  {
    var d := Drop(ctxs, i);
    forall j | 0 <= j < |d| ensures d[j] in ctxs && ConflictFree(d[j], ctxs[i]) {
      var j' := if j < i then j else j + 1;
      assert d[j] == ctxs[j'];
      if j' > i { ConflictFreeSymmetric(ctxs[i], ctxs[j']); }
    }
  }

  lemma DropFront(ctxs: seq<Value>, i: nat)
    requires i < |ctxs| - 1
    ensures Drop(ctxs, i) == Drop(ctxs[..|ctxs| - 1], i) + [ctxs[|ctxs| - 1]]
  {
  }

  lemma MergeAllAppend(ctxs: seq<Value>, c: Value)
    requires AllObjects(ctxs) && c.Obj?
    ensures AllObjects(ctxs + [c]) && MergeAll(ctxs + [c]) == Merge(MergeAll(ctxs), c)
  {
    assert (ctxs + [c])[..|ctxs|] == ctxs;
  }

  /** The last but one step of a merge can be exchanged with the last. */
  lemma ArriveLastStep(rest: seq<Value>, c: Value, last: Value)
    requires AllObjects(rest) && PairwiseConflictFree(rest) && c.Obj? && last.Obj? && ConflictFree(c, last)
    requires forall j :: 0 <= j < |rest| ==> ConflictFree(rest[j], c) && ConflictFree(rest[j], last)
    ensures Merge(Merge(MergeAll(rest), c), last) == Merge(Merge(MergeAll(rest), last), c)
  {
    ConflictFreeAll(rest, c);
    ConflictFreeAll(rest, last);
    Exchange(MergeAll(rest), c, last);
  }

  /** Any branch may as well have arrived last. */
  lemma {:induction false} ArriveLast(ctxs: seq<Value>, i: nat)
    requires i < |ctxs| && AllObjects(ctxs) && PairwiseConflictFree(ctxs)
    ensures AllObjects(Drop(ctxs, i)) && MergeAll(ctxs) == Merge(MergeAll(Drop(ctxs, i)), ctxs[i])
  {
    DropKeeps(ctxs, i);
    var front, last := ctxs[..|ctxs| - 1], ctxs[|ctxs| - 1];
    if i == |ctxs| - 1 {
      assert Drop(ctxs, i) == front;
    } else {
      var rest := Drop(front, i);
      ArriveLast(front, i);
      DropKeeps(front, i);
      forall j | 0 <= j < |rest| ensures ConflictFree(rest[j], last) {
        assert rest[j] == ctxs[if j < i then j else j + 1];
      }
      ArriveLastStep(rest, ctxs[i], last);
      DropFront(ctxs, i);
      MergeAllAppend(rest, last);
    }
  }

  lemma SameWithoutLast(a: seq<Value>, b: seq<Value>) returns (i: nat)
    requires multiset(a) == multiset(b) && b != []
    ensures i < |a| && a[i] == b[|b| - 1] && multiset(Drop(a, i)) == multiset(b[..|b| - 1])
  {
    var last := b[|b| - 1];
    assert b == b[..|b| - 1] + [last];
    assert last in multiset(a);
    i :| 0 <= i < |a| && a[i] == last;
    assert a == a[..i] + [last] + a[i + 1..];
    assert multiset(a) == multiset(Drop(a, i)) + multiset{last};
    assert multiset(Drop(a, i)) == multiset(a) - multiset{last} == multiset(b[..|b| - 1]);
  }

  lemma {:induction false} MergeIgnoresOrder(a: seq<Value>, b: seq<Value>)
    requires AllObjects(a) && AllObjects(b) && PairwiseConflictFree(a) && multiset(a) == multiset(b)
    ensures MergeAll(a) == MergeAll(b)
    decreases |b|
  {
    assert |a| == |multiset(a)| == |b|;
    if b != [] {
      var i := SameWithoutLast(a, b);
      ArriveLast(a, i);
      DropKeeps(a, i);
      MergeIgnoresOrder(Drop(a, i), b[..|b| - 1]);
    }
  }

  // ---- With a conflict, the order shows -------------------------------------------------------------

  lemma {:induction false} ExchangeNeedsConflictFree(r: Value, a: Value, b: Value)
    requires r.Obj? && a.Obj? && b.Obj?
    requires Merge(Merge(r, a), b) == Merge(Merge(r, b), a)
    ensures ConflictFree(a, b)
    decreases b
  {
    forall k | k in a.fields && k in b.fields
      ensures if a.fields[k].Obj? && b.fields[k].Obj? then ConflictFree(a.fields[k], b.fields[k])
              else a.fields[k] == b.fields[k]
    {
      assert Merge(Merge(r, a), b).fields[k] == Merge(Merge(r, b), a).fields[k];
      if a.fields[k].Obj? && b.fields[k].Obj? {
        if k in r.fields && r.fields[k].Obj? {
          ExchangeNeedsConflictFree(r.fields[k], a.fields[k], b.fields[k]);
        } else {
          CommutesIff(a.fields[k], b.fields[k]);
        }
      }
    }
  }

  /** Every arrival order gives the same merged context. */
  ghost predicate OrderFree(ctxs: seq<Value>)
    requires AllObjects(ctxs)
  {
    forall b :: AllObjects(b) && multiset(b) == multiset(ctxs) ==> MergeAll(b) == MergeAll(ctxs)
  }

  lemma LastTwo(r: seq<Value>, x: Value, y: Value)
    requires AllObjects(r) && x.Obj? && y.Obj?
    ensures AllObjects(r + [x, y]) && MergeAll(r + [x, y]) == Merge(Merge(MergeAll(r), x), y)
  {
    MergeAllAppend(r, x);
    MergeAllAppend(r + [x], y);
    assert r + [x] + [y] == r + [x, y];
  }

  lemma PairLast(ctxs: seq<Value>, i: nat, j: nat) returns (r: seq<Value>)
    requires i < j < |ctxs|
    ensures multiset(r + [ctxs[i], ctxs[j]]) == multiset(ctxs) == multiset(r + [ctxs[j], ctxs[i]])
    ensures forall c :: c in r ==> c in ctxs
  {
    r := ctxs[..i] + ctxs[i + 1..j] + ctxs[j + 1..];
    assert ctxs == ctxs[..i] + [ctxs[i]] + ctxs[i + 1..j] + [ctxs[j]] + ctxs[j + 1..];
  }

  lemma SameEitherWay(ctxs: seq<Value>, b: seq<Value>, c: seq<Value>)
    requires AllObjects(ctxs) && OrderFree(ctxs) && AllObjects(b) && AllObjects(c)
    requires multiset(b) == multiset(ctxs) == multiset(c)
    ensures MergeAll(b) == MergeAll(c)
  {
  }

  lemma PairMustAgree(ctxs: seq<Value>, i: nat, j: nat)
    requires i < j < |ctxs| && AllObjects(ctxs) && OrderFree(ctxs)
    ensures ConflictFree(ctxs[i], ctxs[j])
  {
    var r := PairLast(ctxs, i, j);
    var x, y := ctxs[i], ctxs[j];
    LastTwo(r, x, y);
    LastTwo(r, y, x);
    SameEitherWay(ctxs, r + [x, y], r + [y, x]);
    ExchangeNeedsConflictFree(MergeAll(r), x, y);
  }

  /** The merged context is independent of arrival order exactly when no two branches conflict. */
  lemma OrderFreeIff(ctxs: seq<Value>)
    requires AllObjects(ctxs)
    ensures OrderFree(ctxs) <==> PairwiseConflictFree(ctxs)
  {
    if PairwiseConflictFree(ctxs) {
      forall b | AllObjects(b) && multiset(b) == multiset(ctxs) ensures MergeAll(b) == MergeAll(ctxs) {
        MergeIgnoresOrder(ctxs, b);
      }
    }
    if OrderFree(ctxs) {
      forall i, j | 0 <= i < j < |ctxs| ensures ConflictFree(ctxs[i], ctxs[j]) { PairMustAgree(ctxs, i, j); }
    }
  }
}
