/**
 Storing values at paths of nested dictionaries: what is found afterwards at every path, in which
 order one may store, and how storing relates to overlaying and to removing.
 */
module ResourceTree {
  import opened Wrappers
  import opened Sequences
  import opened Values
  import opened MergeValues
  import opened KeyRemoval

  /** A value to be put at a path. */
  datatype Item = Item(path: Path, leaf: Value)

  /** The tree with `v` at `p`; anything but a map on the way gives way to a new map. */
  function Put(t: Tree, p: Path, v: Value): Tree
    requires p != []
    decreases |p|, 0
  {
    t[p[0] := Below(Sub(t, p[0]), p[1..], v)]
  }

  /** The entry that `Put` makes, from the submap that was there. */
  function Below(sub: Tree, p: Path, v: Value): Value
    decreases |p|, 1
  {
    if p == [] then v else Map(Put(sub, p, v))
  }

  predicate Proper(items: seq<Item>) {
    forall i :: 0 <= i < |items| ==> items[i].path != []
  }

  function PutAll(t: Tree, items: seq<Item>): Tree
    requires Proper(items)
    decreases |items|
  {
    if items == [] then t
    else
      var last := items[|items| - 1];
      Put(PutAll(t, items[..|items| - 1]), last.path, last.leaf)
  }

  /** What the nesting builds. */
  function Nested(items: seq<Item>): Tree
    requires Proper(items)
  {
    PutAll(map[], items)
  }

  /** No item's path leads through another's. */
  predicate PrefixFree(items: seq<Item>) {
    forall i, j :: 0 <= i < j < |items| ==> Apart(items[i].path, items[j].path)
  }

  // Looking up what was put

  lemma {:induction false} PutAtPath(t: Tree, p: Path, v: Value, q: Path)
    requires p != []
    ensures p <= q ==> Get(Map(Put(t, p, v)), q) == Get(v, q[|p|..])
    ensures q < p ==> Get(Map(Put(t, p, v)), q).Some? && Get(Map(Put(t, p, v)), q).value.Map?
    ensures Apart(p, q) && !Hides(Map(t), p) ==> Get(Map(Put(t, p, v)), q) == Get(Map(t), q)
    decreases |p|
  {
    if q != [] && p[0] == q[0] {
      PrefixTail(p, q);
      PrefixTail(q, p);
      if |p| > 1 {
        PutAtPath(Sub(t, p[0]), p[1..], v, q[1..]);
        assert q[1..] < p[1..] <==> q < p;
        assert p <= q ==> q[1..][|p| - 1..] == q[|p|..];
        if p[0] !in t && q[1..] != [] {
          assert Get(Map(Sub(t, p[0])), q[1..]) == None;
        }
      } else {
        assert p <= q;
      }
    }
  }

  lemma {:induction false} PutHidesNothing(t: Tree, p: Path, v: Value, q: Path)
    requires p != [] && Apart(p, q) && Hides(Map(Put(t, p, v)), q)
    ensures Hides(Map(t), q)
    decreases |p|
  {
    if p[0] == q[0] {
      ApartTail(p, q);
      assert p[1..] != [] && q[1..] != [];
      var t' := t[p[0] := Map(Put(Sub(t, p[0]), p[1..], v))];
      assert Put(t, p, v) == t';
      assert Hides(t'[p[0]], q[1..]);
      PutHidesNothing(Sub(t, p[0]), p[1..], v, q[1..]);
    }
  }

  lemma PutElsewhere(t: Tree, p: Path, x: Value, q: Path, y: Value)
    requires p != [] && q != [] && p[0] != q[0]
    ensures Put(Put(t, p, x), q, y) == Put(Put(t, q, y), p, x)
  {
    var a, b := Below(Sub(t, p[0]), p[1..], x), Below(Sub(t, q[0]), q[1..], y);
    var tp, tq := t[p[0] := a], t[q[0] := b];
    assert Sub(tp, q[0]) == Sub(t, q[0]) && Sub(tq, p[0]) == Sub(t, p[0]);
    assert tp[q[0] := b] == tq[p[0] := a];
  }

  lemma PutSameHead(t: Tree, p: Path, x: Value, q: Path, y: Value)
    requires |p| > 1 && |q| > 1 && p[0] == q[0]
    ensures Put(Put(t, p, x), q, y) == t[p[0] := Map(Put(Put(Sub(t, p[0]), p[1..], x), q[1..], y))]
  {
    var tp := t[p[0] := Map(Put(Sub(t, p[0]), p[1..], x))];
    assert Put(t, p, x) == tp;
    assert Sub(tp, q[0]) == Put(Sub(t, p[0]), p[1..], x);
  }

  /** Putting at paths apart from each other commutes, even where a scalar gives way to both. */
  lemma {:induction false} PutCommute(t: Tree, p: Path, x: Value, q: Path, y: Value)
    requires p != [] && q != [] && Apart(p, q)
    ensures Put(Put(t, p, x), q, y) == Put(Put(t, q, y), p, x)
    decreases |p|
  {
    if p[0] == q[0] {
      ApartTail(p, q);
      assert p[1..] != [] && q[1..] != [];
      PutCommute(Sub(t, p[0]), p[1..], x, q[1..], y);
      PutSameHead(t, p, x, q, y);
      PutSameHead(t, q, y, p, x);
    } else {
      PutElsewhere(t, p, x, q, y);
    }
  }

  // Order of insertion

  lemma DropAtPrefixFree(items: seq<Item>, i: nat)
    requires i < |items| && Proper(items) && PrefixFree(items)
    ensures Proper(DropAt(items, i)) && PrefixFree(DropAt(items, i))
  {
    var rest := DropAt(items, i);
    forall j, k | 0 <= j < k < |rest|
      ensures Apart(rest[j].path, rest[k].path)
    {
      assert rest[j] == items[if j < i then j else j + 1] && rest[k] == items[if k < i then k else k + 1];
    }
  }

  lemma PutAllAppend(t: Tree, items: seq<Item>, x: Item)
    requires Proper(items) && x.path != []
    ensures Proper(items + [x]) && PutAll(t, items + [x]) == Put(PutAll(t, items), x.path, x.leaf)
  {
    assert (items + [x])[..|items|] == items;
  }

  lemma {:induction false} PutLast(t: Tree, items: seq<Item>, i: nat)
    requires Proper(items) && PrefixFree(items) && i < |items|
    ensures Proper(DropAt(items, i))
    ensures PutAll(t, items) == Put(PutAll(t, DropAt(items, i)), items[i].path, items[i].leaf)
    decreases |items|
  {
    var init, last := items[..|items| - 1], items[|items| - 1];
    DropAtPrefixFree(items, i);
    if i == |items| - 1 {
      assert DropAt(items, i) == init;
    } else {
      PutLast(t, init, i);
      DropAtInit(items, i);
      DropAtPrefixFree(init, i);
      PutAllAppend(t, DropAt(init, i), last);
      PutCommute(PutAll(t, DropAt(init, i)), items[i].path, items[i].leaf, last.path, last.leaf);
    }
  }

  /** The tree does not depend on the order of the items. */
  lemma {:induction false} OrderIrrelevant(t: Tree, items: seq<Item>, items': seq<Item>)
    requires Proper(items) && PrefixFree(items) && multiset(items) == multiset(items')
    ensures Proper(items') && PutAll(t, items') == PutAll(t, items)
    decreases |items'|
  {
    SameLength(items, items');
    if items' != [] {
      var n := |items'| - 1;
      var i := IndexOf(items, items'[n], items');
      SameAfterDrop(items, items', i);
      DropAtPrefixFree(items, i);
      OrderIrrelevant(t, DropAt(items, i), items'[..n]);
      PutLast(t, items, i);
      AppendProper(items'[..n], items'[n]);
      assert items'[..n] + [items'[n]] == items';
    }
  }

  lemma AppendProper(items: seq<Item>, item: Item)
    requires Proper(items) && item.path != []
    ensures Proper(items + [item])
  {
  }

  // Overlay and removal

  /** Nothing stands at `p` or in the way, and no dictionary on the way is empty. */
  predicate Clear(t: Tree, p: Path)
    requires p != []
    decreases |p|
  {
    if |p| == 1 then p[0] !in t
    else p[0] in t ==> t[p[0]].Map? && !Falsy(t[p[0]]) && Clear(t[p[0]].entries, p[1..])
  }

  /** The same, path by path. */
  lemma {:induction false} ClearMeans(t: Tree, p: Path)
    requires p != []
    ensures Clear(t, p) <==>
            Get(Map(t), p) == None &&
            forall i :: 0 < i < |p| && Get(Map(t), p[..i]).Some? ==>
              Get(Map(t), p[..i]).value.Map? && !Falsy(Get(Map(t), p[..i]).value)
    decreases |p|
  {
    if |p| > 1 && p[0] in t {
      forall i | 0 < i < |p|
        ensures Get(Map(t), p[..i]) == Get(t[p[0]], p[1..][..i - 1])
      {
        assert p[..i][1..] == p[1..][..i - 1];
      }
      assert p[1..][..0] == [];
      assert Get(Map(t), p[..1]) == Some(t[p[0]]);
      if t[p[0]].Map? {
        var c := t[p[0]].entries;
        assert Map(c) == t[p[0]];
        ClearMeans(c, p[1..]);
        forall i | 0 < i < |p| - 1
          ensures Get(Map(c), p[1..][..i]) == Get(Map(t), p[..i + 1])
        {
          assert p[1..][..i + 1 - 1] == p[1..][..i];
        }
      }
    } else if |p| > 1 {
      forall i | 0 < i < |p|
        ensures Get(Map(t), p[..i]) == None
      {
        assert p[..i][0] == p[0];
      }
    }
  }

  lemma {:induction false} MergePut(v: Tree, t: Tree, p: Path, x: Value)
    requires p != [] && Clear(v, p) && !Hides(Map(t), p)
    ensures Merge(v, Put(t, p, x)) == Put(Merge(v, t), p, x)
    decreases |p|, 1
  {
    if |p| > 1 {
      MergePutBelow(v, t, p, x);
    }
    forall j
      ensures At(Merge(v, Put(t, p, x)), j) == At(Put(Merge(v, t), p, x), j)
    {
      MergeAt(v, Put(t, p, x), j);
      if j != p[0] {
        MergeAt(v, t, j);
      }
    }
    SameEntries(Merge(v, Put(t, p, x)), Put(Merge(v, t), p, x));
  }

  lemma {:induction false} MergePutBelow(v: Tree, t: Tree, p: Path, x: Value)
    requires |p| > 1 && Clear(v, p) && !Hides(Map(t), p)
    ensures MergeEntry(At(v, p[0]), At(Put(t, p, x), p[0])) == At(Put(Merge(v, t), p, x), p[0])
    decreases |p|, 0
  {
    var k := p[0];
    PutBelow(t, p, x);
    PutBelow(Merge(v, t), p, x);
    SubMergeMaps(v, t, k);
    if k in v {
      MergePut(Sub(v, k), Sub(t, k), p[1..], x);
    } else {
      MergeUnits(Sub(t, k));
    }
  }

  lemma PutBelow(t: Tree, p: Path, x: Value)
    requires |p| > 1
    ensures At(Put(t, p, x), p[0]) == Some(Map(Put(Sub(t, p[0]), p[1..], x)))
  {
  }

  lemma SubMergeMaps(v: Tree, t: Tree, k: string)
    requires k in t ==> t[k].Map?
    ensures Sub(Merge(v, t), k) == Merge(Sub(v, k), Sub(t, k))
  {
    SubMerge(v, t, k);
    MergeUnits(Sub(v, k));
  }

  lemma {:induction false} ClearAfterPut(t: Tree, p: Path, x: Value, q: Path)
    requires p != [] && q != [] && Apart(p, q) && Clear(t, q)
    ensures Clear(Put(t, p, x), q)
    decreases |p|
  {
    if p[0] == q[0] {
      ApartTail(p, q);
      assert p[1..] != [] && q[1..] != [];
      ClearAfterPut(Sub(t, p[0]), p[1..], x, q[1..]);
      assert p[1] in Put(Sub(t, p[0]), p[1..], x);
    }
  }

  /** Removing what was just put restores the tree. */
  lemma {:induction false} RemoveUndoesPut(t: Tree, p: Path, x: Value)
    requires p != [] && Clear(t, p)
    ensures RemovePath(Map(Put(t, p, x)), p) == Map(t)
    decreases |p|
  {
    if |p| > 1 {
      RemoveUndoesPut(Sub(t, p[0]), p[1..], x);
    }
  }
}
