/** Freezing overlays the nested resources on the release's values; unfreezing takes them out again. */
module FreezeUnfreeze {
  import opened Wrappers
  import opened Values
  import opened MergeValues
  import opened KeyRemoval
  import opened ResourceTree

  /** Helm's overlay of a second values file. */
  function Freeze(v: Tree, items: seq<Item>): Tree
    requires Proper(items)
  {
    Merge(v, Nested(items))
  }

  function Unfreeze(v: Tree, ps: seq<Path>): Value
    requires NonEmpty(ps)
  {
    RemoveAll(Map(v), ps)
  }

  /** No mapped key leads through another; the same key may be mapped twice. */
  predicate PrefixFreePaths(ps: seq<Path>) {
    NonEmpty(ps) && forall i, j :: 0 <= i < |ps| && 0 <= j < |ps| ==> ps[i] == ps[j] || Apart(ps[i], ps[j])
  }

  /** Every item lives at a mapped key. */
  predicate Drawn(items: seq<Item>, ps: seq<Path>) {
    forall m :: 0 <= m < |items| ==> items[m].path in ps
  }

  /**
   The values a freeze can be undone on: no mapped key is present, and what is present on the way
   to one is a non-empty dictionary, or a non-zero scalar that no frozen resource passes through.
   */
  predicate Restorable(v: Tree, items: seq<Item>, ps: seq<Path>) {
    forall j :: 0 <= j < |ps| ==> RestorableAt(v, items, ps[j])
  }

  predicate RestorableAt(v: Tree, items: seq<Item>, p: Path) {
    Get(Map(v), p) == None &&
    forall i :: 0 < i < |p| ==> Passable(Get(Map(v), p[..i]), items, p[..i])
  }

  predicate Passable(x: Option<Value>, items: seq<Item>, q: Path) {
    x.Some? ==> !Falsy(x.value) && (x.value.Map? || forall m :: 0 <= m < |items| ==> !(q <= items[m].path))
  }

  lemma {:induction false} NestedHidesNothing(items: seq<Item>, q: Path)
    requires Proper(items) && forall m :: 0 <= m < |items| ==> Apart(items[m].path, q)
    ensures !Hides(Map(Nested(items)), q)
    decreases |items|
  {
    if items != [] {
      var n := |items| - 1;
      NestedHidesNothing(items[..n], q);
      if Hides(Map(Nested(items)), q) {
        PutHidesNothing(Nested(items[..n]), items[n].path, items[n].leaf, q);
      }
    }
  }

  lemma {:induction false} NestedAbove(items: seq<Item>, m: nat, q: Path)
    requires Proper(items) && PrefixFree(items) && m < |items| && q < items[m].path
    ensures Get(Map(Nested(items)), q).Some? && Get(Map(Nested(items)), q).value.Map?
    decreases |items|
  {
    var n := |items| - 1;
    var init, last := items[..n], items[n];
    PutAtPath(Nested(init), last.path, last.leaf, q);
    if m < n {
      NestedAbove(init, m, q);
      NestedHidesNothing(init, last.path);
      assert Apart(items[m].path, last.path);
    }
  }

  lemma {:induction false} OverlayIsPutAll(v: Tree, items: seq<Item>)
    requires Proper(items) && PrefixFree(items)
    requires forall m :: 0 <= m < |items| ==> Clear(v, items[m].path)
    ensures Merge(v, Nested(items)) == PutAll(v, items)
    decreases |items|
  {
    if items == [] {
      MergeUnits(v);
    } else {
      var n := |items| - 1;
      OverlayIsPutAll(v, items[..n]);
      NestedHidesNothing(items[..n], items[n].path);
      assert Clear(v, items[n].path);
      MergePut(v, Nested(items[..n]), items[n].path, items[n].leaf);
    }
  }

  lemma {:induction false} ClearAfterPutAll(v: Tree, items: seq<Item>, q: Path)
    requires Proper(items) && q != [] && Clear(v, q) && forall m :: 0 <= m < |items| ==> Apart(items[m].path, q)
    ensures Clear(PutAll(v, items), q)
    decreases |items|
  {
    if items != [] {
      var n := |items| - 1;
      ClearAfterPutAll(v, items[..n], q);
      ClearAfterPut(PutAll(v, items[..n]), items[n].path, items[n].leaf, q);
    }
  }

  /** The items' paths, last put first. */
  function PathsBack(items: seq<Item>): (ps: seq<Path>)
    requires Proper(items)
    ensures NonEmpty(ps) && forall m :: 0 <= m < |ps| ==> exists i :: 0 <= i < |items| && ps[m] == items[i].path
  {
    if items == [] then []
    else
      var n := |items| - 1;
      var rest := PathsBack(items[..n]);
      assert forall m :: 0 <= m < |rest| ==> exists i :: 0 <= i < n && rest[m] == items[..n][i].path;
      [items[n].path] + rest
  }

  lemma {:induction false} UnputAll(v: Tree, items: seq<Item>)
    requires Proper(items) && PrefixFree(items)
    requires forall m :: 0 <= m < |items| ==> Clear(v, items[m].path)
    ensures RemoveAll(Map(PutAll(v, items)), PathsBack(items)) == Map(v)
    decreases |items|
  {
    if items != [] {
      var n := |items| - 1;
      assert Clear(v, items[n].path);
      ClearAfterPutAll(v, items[..n], items[n].path);
      RemoveUndoesPut(PutAll(v, items[..n]), items[n].path, items[n].leaf);
      UnputAll(v, items[..n]);
      assert PathsBack(items)[1..] == PathsBack(items[..n]);
    }
  }

  /** A removal that finds nothing at the key and nothing empty on the way does nothing. */
  lemma {:induction false} NothingToRemove(v: Value, p: Path)
    requires p != [] && Get(v, p) == None
    requires forall i :: 0 < i < |p| && Get(v, p[..i]).Some? ==> !Falsy(Get(v, p[..i]).value)
    ensures RemovePath(v, p) == v
    decreases |p|
  {
    if |p| > 1 && v.Map? && p[0] in v.entries {
      var c := v.entries[p[0]];
      assert p[..1][1..] == [] && Get(v, p[..1]) == Some(c);
      forall i | 0 < i < |p| - 1 && Get(c, p[1..][..i]).Some?
        ensures !Falsy(Get(c, p[1..][..i]).value)
      {
        assert p[..i + 1][1..] == p[1..][..i];
        assert Get(v, p[..i + 1]) == Get(c, p[1..][..i]);
      }
      NothingToRemove(c, p[1..]);
    } else {
      assert p[1..] == [] || !v.Map? || p[0] !in v.entries;
    }
  }

  lemma {:induction false} NothingToRemoveAll(v: Value, ps: seq<Path>)
    requires NonEmpty(ps) && forall j :: 0 <= j < |ps| ==> RemovePath(v, ps[j]) == v
    ensures RemoveAll(v, ps) == v
    decreases |ps|
  {
    if ps != [] {
      assert RemovePath(v, ps[0]) == v;
      forall j | 0 <= j < |ps| - 1
        ensures RemovePath(v, ps[1..][j]) == v
      {
        assert ps[1..][j] == ps[j + 1];
      }
      NothingToRemoveAll(v, ps[1..]);
    }
  }

  /** Removals never make a value appear, nor turn a dictionary into something else. */
  lemma {:induction false} RemovalOnlyShrinks(v: Value, ps: seq<Path>, q: Path)
    requires NonEmpty(ps) && Get(RemoveAll(v, ps), q).Some?
    ensures Get(v, q).Some? && (Get(v, q).value.Map? <==> Get(RemoveAll(v, ps), q).value.Map?)
    decreases |ps|
  {
    if ps != [] {
      RemovalOnlyShrinks(RemovePath(v, ps[0]), ps[1..], q);
      RemovedAtPath(v, ps[0], q);
    }
  }

  lemma RestorableSuffices(v: Tree, items: seq<Item>, ps: seq<Path>)
    requires Proper(items) && PrefixFree(items) && PrefixFreePaths(ps) && Drawn(items, ps)
    requires Restorable(v, items, ps)
    ensures Unfreeze(Freeze(v, items), ps) == Map(v)
  {
    forall m | 0 <= m < |items|
      ensures Clear(v, items[m].path)
    {
      var p := items[m].path;
      assert p in ps && RestorableAt(v, items, p);
      forall i | 0 < i < |p| && Get(Map(v), p[..i]).Some?
        ensures Get(Map(v), p[..i]).value.Map? && !Falsy(Get(Map(v), p[..i]).value)
      {
        assert Passable(Get(Map(v), p[..i]), items, p[..i]);
        assert p[..i] <= items[m].path;
      }
      ClearMeans(v, p);
    }
    forall j | 0 <= j < |ps|
      ensures RemovePath(Map(v), ps[j]) == Map(v)
    {
      assert RestorableAt(v, items, ps[j]);
      forall i | 0 < i < |ps[j]| && Get(Map(v), ps[j][..i]).Some?
        ensures !Falsy(Get(Map(v), ps[j][..i]).value)
      {
        assert Passable(Get(Map(v), ps[j][..i]), items, ps[j][..i]);
      }
      NothingToRemove(Map(v), ps[j]);
    }
    OverlayIsPutAll(v, items);
    UnputAll(v, items);
    NothingToRemoveAll(Map(v), ps);
    var back := PathsBack(items);
    RemoveAllSplit(Map(PutAll(v, items)), back, ps);
    assert SamePaths(ps, back + ps);
    RemovalOrderIrrelevant(Map(PutAll(v, items)), ps, back + ps);
  }

  lemma RestorableNeeded(v: Tree, items: seq<Item>, ps: seq<Path>, p: Path)
    requires Proper(items) && PrefixFree(items) && PrefixFreePaths(ps) && Drawn(items, ps) && p in ps
    requires Unfreeze(Freeze(v, items), ps) == Map(v)
    ensures RestorableAt(v, items, p)
  {
    var w := Map(Freeze(v, items));
    RemovedKeysGone(w, ps, p);
    forall i | 0 < i < |p|
      ensures Passable(Get(Map(v), p[..i]), items, p[..i])
    {
      var q := p[..i];
      AncestorsPruned(w, ps, p, q);
      forall m | Get(Map(v), q).Some? && !Get(Map(v), q).value.Map? && 0 <= m < |items|
        ensures !(q <= items[m].path)
      {
        if q <= items[m].path {
          assert items[m].path in ps;
          assert items[m].path == p || Apart(items[m].path, p);
          NestedAbove(items, m, q);
          MergeAtPath(v, Nested(items), q);
          RemovalOnlyShrinks(w, ps, q);
        }
      }
    }
  }

  /** Unfreezing restores the values exactly when nothing of theirs stood in the way. */
  lemma UnfreezeUndoesFreeze(v: Tree, items: seq<Item>, ps: seq<Path>)
    requires Proper(items) && PrefixFree(items) && PrefixFreePaths(ps) && Drawn(items, ps)
    ensures Unfreeze(Freeze(v, items), ps) == Map(v) <==> Restorable(v, items, ps)
  {
    if Restorable(v, items, ps) {
      RestorableSuffices(v, items, ps);
    }
    if Unfreeze(Freeze(v, items), ps) == Map(v) {
      forall j | 0 <= j < |ps|
        ensures RestorableAt(v, items, ps[j])
      {
        RestorableNeeded(v, items, ps, ps[j]);
      }
    }
  }
}
