/**
 The right-biased recursive merge of configuration trees, and its algebra.
 `mergeValuesMap` builds it with loops over the two maps; `deepMerge` (module MapHeap)
 computes it in place.
 */
module MergeValues {
  import opened Wrappers
  import opened Values

  function Merge(l: Tree, r: Tree): Tree
    decreases Map(l)
  {
    map k | k in l.Keys + r.Keys ::
      if k in l && k in r && l[k].Map? && r[k].Map? then Map(Merge(l[k].entries, r[k].entries))
      else if k in r then r[k]
      else l[k]
  }

  /** Left fold of `Merge` over a list of documents. */
  function MergeAll(acc: Tree, docs: seq<Tree>): Tree
    decreases |docs|
  {
    if docs == [] then acc else MergeAll(Merge(acc, docs[0]), docs[1..])
  }

  /** The Go loops: one pass over the left map, one over the right, in any order. */
  method MergeValuesMap(lhs: Tree, rhs: Tree) returns (merged: Tree)
    ensures merged == Merge(lhs, rhs)
    decreases Map(lhs)
  {
    merged := map[];
    var todo := lhs.Keys;
    while todo != {}
      invariant todo <= lhs.Keys
      invariant merged.Keys == lhs.Keys - todo
      invariant forall k :: k in merged ==> merged[k] == Merge(lhs, rhs)[k]
    {
      var key :| key in todo;
      var value := lhs[key];
      if key in rhs {
        if value.Map? && rhs[key].Map? {
          var inner := MergeValuesMap(value.entries, rhs[key].entries);
          value := Map(inner);
        } else {
          value := rhs[key];
        }
      }
      merged := merged[key := value];
      todo := todo - {key};
    }
    todo := rhs.Keys;
    while todo != {}
      invariant todo <= rhs.Keys
      invariant merged.Keys == lhs.Keys + (rhs.Keys - todo)
      invariant forall k :: k in merged ==> merged[k] == Merge(lhs, rhs)[k]
    {
      var key :| key in todo;
      if key !in lhs {
        merged := merged[key := rhs[key]];
      }
      todo := todo - {key};
    }
  }

  /** What the merge holds at every path, told from the two inputs alone. */
  lemma {:induction false} MergeAtPath(l: Tree, r: Tree, p: Path)
    ensures Get(Map(Merge(l, r)), p) ==
            match Get(Map(r), p)
            case Some(y) =>
              if y.Map? && Get(Map(l), p).Some? && Get(Map(l), p).value.Map?
              then Some(Map(Merge(Get(Map(l), p).value.entries, y.entries)))
              else Some(y)
            case None => if Hides(Map(r), p) then None else Get(Map(l), p)
    decreases Map(l)
  {
    if p != [] && p[0] in l && p[0] in r && l[p[0]].Map? && r[p[0]].Map? {
      MergeAtPath(l[p[0]].entries, r[p[0]].entries, p[1..]);
    }
  }

  function At(t: Tree, k: string): Option<Value> {
    if k in t then Some(t[k]) else None
  }

  /** The merge of two entries, either of which may be absent. */
  function MergeEntry(x: Option<Value>, y: Option<Value>): Option<Value> {
    match (x, y)
    case (_, None) => x
    case (Some(Map(a)), Some(Map(b))) => Some(Map(Merge(a, b)))
    case _ => y
  }

  lemma MergeAt(l: Tree, r: Tree, k: string)
    ensures At(Merge(l, r), k) == MergeEntry(At(l, k), At(r, k))
  {
  }

  lemma SameEntries(a: Tree, b: Tree)
    requires forall k :: At(a, k) == At(b, k)
    ensures a == b
  {
    forall k
      ensures k in a <==> k in b
      ensures k in a ==> a[k] == b[k]
    {
      assert At(a, k) == At(b, k);
    }
  }

  lemma MergeUnits(t: Tree)
    ensures Merge(map[], t) == t && Merge(t, map[]) == t
  {
  }

  lemma {:induction false} MergeIdempotent(t: Tree)
    ensures Merge(t, t) == t
    decreases Map(t)
  {
    forall k | k in t && t[k].Map? {
      MergeIdempotent(t[k].entries);
    }
  }

  /** Merging the same document a second time changes nothing. */
  lemma {:induction false} MergeAbsorbs(x: Tree, p: Tree)
    ensures Merge(Merge(x, p), p) == Merge(x, p)
    decreases Map(x)
  {
    forall k | k in p && p[k].Map?
      ensures Merge(Merge(x, p), p)[k] == Merge(x, p)[k]
    {
      if k in x && x[k].Map? {
        MergeAbsorbs(x[k].entries, p[k].entries);
      } else {
        MergeIdempotent(p[k].entries);
      }
    }
  }

  /** The submap at `k`, or the empty map where there is none: what a later map at `k` is merged into. */
  function Sub(t: Tree, k: string): Tree {
    if k in t && t[k].Map? then t[k].entries else map[]
  }

  /** At a key where the right side holds a map, only the left side's submap matters. */
  lemma MergeAtMapKey(t: Tree, p: Tree, k: string)
    requires k in p && p[k].Map?
    ensures Merge(t, p)[k] == Map(Merge(Sub(t, k), p[k].entries))
  {
    MergeUnits(p[k].entries);
  }

  lemma SubMerge(l: Tree, d: Tree, k: string)
    ensures Sub(Merge(l, d), k) ==
            if k !in d then Sub(l, k) else if d[k].Map? then Merge(Sub(l, k), d[k].entries) else map[]
  {
    if k in d && d[k].Map? {
      MergeUnits(d[k].entries);
    }
  }

  /** Two bases that `p` cannot tell apart stay so after merging the same `d` into both. */
  lemma {:induction false} MergeCongruence(l: Tree, r: Tree, d: Tree, p: Tree)
    requires Merge(l, p) == Merge(r, p)
    ensures Merge(Merge(l, d), p) == Merge(Merge(r, d), p)
    decreases Map(p), 1
  {
    forall k
      ensures At(Merge(Merge(l, d), p), k) == At(Merge(Merge(r, d), p), k)
    {
      MergeCongruenceAt(l, r, d, p, k);
    }
    SameEntries(Merge(Merge(l, d), p), Merge(Merge(r, d), p));
  }

  lemma {:induction false} MergeCongruenceAt(l: Tree, r: Tree, d: Tree, p: Tree, k: string)
    requires Merge(l, p) == Merge(r, p)
    ensures At(Merge(Merge(l, d), p), k) == At(Merge(Merge(r, d), p), k)
    decreases Map(p), 0
  {
    MergeAt(l, p, k);
    MergeAt(r, p, k);
    MergeAt(l, d, k);
    MergeAt(r, d, k);
    MergeAt(Merge(l, d), p, k);
    MergeAt(Merge(r, d), p, k);
    if k in p && p[k].Map? {
      MergeAtMapKey(l, p, k);
      MergeAtMapKey(r, p, k);
      SubMerge(l, d, k);
      SubMerge(r, d, k);
      MergeAtMapKey(Merge(l, d), p, k);
      MergeAtMapKey(Merge(r, d), p, k);
      if k in d && d[k].Map? {
        MergeCongruence(Sub(l, k), Sub(r, k), d[k].entries, p[k].entries);
      }
    }
  }

  lemma {:induction false} MergeAllSplit(acc: Tree, xs: seq<Tree>, ys: seq<Tree>)
    ensures MergeAll(acc, xs + ys) == MergeAll(MergeAll(acc, xs), ys)
    decreases |xs|
  {
    if xs == [] {
      assert xs + ys == ys;
    } else {
      assert (xs + ys)[0] == xs[0] && (xs + ys)[1..] == xs[1..] + ys;
      MergeAllSplit(Merge(acc, xs[0]), xs[1..], ys);
    }
  }

  lemma {:induction false} MergeAllCongruence(l: Tree, r: Tree, ds: seq<Tree>, p: Tree)
    requires Merge(l, p) == Merge(r, p)
    ensures Merge(MergeAll(l, ds), p) == Merge(MergeAll(r, ds), p)
    decreases |ds|
  {
    if ds != [] {
      MergeCongruence(l, r, ds[0], p);
      MergeAllCongruence(Merge(l, ds[0]), Merge(r, ds[0]), ds[1..], p);
    }
  }

  /** In any fold, an occurrence of a document that occurs again later has no effect. */
  lemma EarlierOccurrenceAbsorbed(acc: Tree, before: seq<Tree>, between: seq<Tree>, after: seq<Tree>, p: Tree)
    ensures MergeAll(acc, before + [p] + between + [p] + after) == MergeAll(acc, before + between + [p] + after)
  {
    var x := MergeAll(acc, before);
    MergeAbsorbs(x, p);
    MergeAllCongruence(Merge(x, p), x, between, p);
    MergeAllSplit(acc, before + [p] + between + [p], after);
    MergeAllSplit(acc, before + [p] + between, [p]);
    MergeAllSplit(acc, before + [p], between);
    MergeAllSplit(acc, before, [p]);
    MergeAllSplit(acc, before + between + [p], after);
    MergeAllSplit(acc, before + between, [p]);
    MergeAllSplit(acc, before, between);
    assert forall t: Tree :: MergeAll(t, [p]) == MergeAll(Merge(t, p), []) == Merge(t, p);
  }

  // Regrouping

  /** Every entry of `a` is overridden or repeated by `c`. */
  ghost predicate Covered(a: Tree, c: Tree)
    decreases Map(a)
  {
    forall k :: k in a ==> k in c && (a[k].Map? && c[k].Map? ==> Covered(a[k].entries, c[k].entries))
  }

  lemma {:induction false} CoveredExactly(a: Tree, c: Tree)
    ensures Merge(a, c) == c <==> Covered(a, c)
    decreases Map(a)
  {
    forall k | k in a && k in c && a[k].Map? && c[k].Map? {
      CoveredExactly(a[k].entries, c[k].entries);
    }
    if Merge(a, c) == c {
      forall k | k in a
        ensures k in c
        ensures a[k].Map? && c[k].Map? ==> Covered(a[k].entries, c[k].entries)
      {
        assert k in Merge(a, c);
        assert Merge(a, c)[k] == c[k];
      }
    }
  }

  /** At `p` the outer two hold maps and the middle one a non-map. */
  ghost predicate ClashAt(a: Tree, b: Tree, c: Tree, p: Path) {
    && Get(Map(a), p).Some? && Get(Map(a), p).value.Map?
    && Get(Map(b), p).Some? && !Get(Map(b), p).value.Map?
    && Get(Map(c), p).Some? && Get(Map(c), p).value.Map?
  }

  /** Wherever there is a clash, the outer map covers what it would have overridden anyway. */
  ghost predicate Regroups(a: Tree, b: Tree, c: Tree) {
    forall p :: ClashAt(a, b, c, p) ==> Covered(Get(Map(a), p).value.entries, Get(Map(c), p).value.entries)
  }

  /** The same, key by key. */
  ghost predicate RegroupsByKey(a: Tree, b: Tree, c: Tree)
    decreases Map(a), 1
  {
    forall k :: k in a ==> RegroupsAt(a, b, c, k)
  }

  ghost predicate RegroupsAt(a: Tree, b: Tree, c: Tree, k: string)
    decreases Map(a), 0
  {
    k in a && k in b && k in c && a[k].Map? && c[k].Map? ==>
      if b[k].Map? then RegroupsByKey(a[k].entries, b[k].entries, c[k].entries)
      else Covered(a[k].entries, c[k].entries)
  }

  lemma {:induction false} RegroupsBothWays(a: Tree, b: Tree, c: Tree)
    ensures Regroups(a, b, c) <==> RegroupsByKey(a, b, c)
    decreases Map(a)
  {
    forall k | k in a && k in b && k in c && a[k].Map? && b[k].Map? && c[k].Map? {
      RegroupsBothWays(a[k].entries, b[k].entries, c[k].entries);
    }
    if Regroups(a, b, c) {
      forall k | k in a && k in b && k in c && a[k].Map? && c[k].Map?
        ensures RegroupsAt(a, b, c, k)
      {
        forall p
          ensures Get(Map(a), [k] + p) == Get(a[k], p)
          ensures Get(Map(b), [k] + p) == Get(b[k], p)
          ensures Get(Map(c), [k] + p) == Get(c[k], p)
        {
          assert ([k] + p)[1..] == p;
        }
        if b[k].Map? {
          forall p | ClashAt(a[k].entries, b[k].entries, c[k].entries, p)
            ensures Covered(Get(a[k], p).value.entries, Get(c[k], p).value.entries)
          {
            assert Map(a[k].entries) == a[k] && Map(b[k].entries) == b[k] && Map(c[k].entries) == c[k];
            assert ClashAt(a, b, c, [k] + p);
          }
        } else {
          assert ClashAt(a, b, c, [k] + []);
        }
      }
    }
    if RegroupsByKey(a, b, c) {
      forall p | ClashAt(a, b, c, p)
        ensures Covered(Get(Map(a), p).value.entries, Get(Map(c), p).value.entries)
      {
        var k := p[0];
        assert RegroupsAt(a, b, c, k);
        if p[1..] == [] {
          assert Get(a[k], []) == Some(a[k]);
        } else {
          assert Get(a[k], p[1..]).Some? && Get(b[k], p[1..]).Some? && Get(c[k], p[1..]).Some?;
          assert Map(a[k].entries) == a[k] && Map(b[k].entries) == b[k] && Map(c[k].entries) == c[k];
          assert ClashAt(a[k].entries, b[k].entries, c[k].entries, p[1..]);
        }
      }
    }
  }

  lemma {:induction false} RegroupAtKeyExactly(a: Tree, b: Tree, c: Tree, k: string)
    ensures At(Merge(Merge(a, b), c), k) == At(Merge(a, Merge(b, c)), k) <==> RegroupsAt(a, b, c, k)
    decreases Map(a), 0
  {
    MergeAt(a, b, k);
    MergeAt(b, c, k);
    MergeAt(Merge(a, b), c, k);
    MergeAt(a, Merge(b, c), k);
    if k in a && k in b && k in c && a[k].Map? && c[k].Map? {
      if b[k].Map? {
        RegroupByKeyExactly(a[k].entries, b[k].entries, c[k].entries);
      } else {
        CoveredExactly(a[k].entries, c[k].entries);
      }
    }
  }

  lemma {:induction false} RegroupByKeyExactly(a: Tree, b: Tree, c: Tree)
    ensures Merge(Merge(a, b), c) == Merge(a, Merge(b, c)) <==> RegroupsByKey(a, b, c)
    decreases Map(a), 1
  {
    forall k
      ensures At(Merge(Merge(a, b), c), k) == At(Merge(a, Merge(b, c)), k) <==> RegroupsAt(a, b, c, k)
    {
      RegroupAtKeyExactly(a, b, c, k);
    }
    if RegroupsByKey(a, b, c) {
      assert forall k :: RegroupsAt(a, b, c, k);
      SameEntries(Merge(Merge(a, b), c), Merge(a, Merge(b, c)));
    }
    if Merge(Merge(a, b), c) == Merge(a, Merge(b, c)) {
      assert forall k :: RegroupsAt(a, b, c, k);
    }
  }

  /** Regrouping a merge is sound exactly when every clash is covered. */
  lemma RegroupExactly(a: Tree, b: Tree, c: Tree)
    ensures Merge(Merge(a, b), c) == Merge(a, Merge(b, c)) <==> Regroups(a, b, c)
  {
    RegroupByKeyExactly(a, b, c);
    RegroupsBothWays(a, b, c);
  }
}
