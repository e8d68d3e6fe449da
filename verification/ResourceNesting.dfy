/** Turning a table of dotted keys into nested dictionaries, and reading it back. */
module ResourceNesting {
  import opened Wrappers
  import opened Sequences
  import opened Values
  import opened MergeValues
  import opened DottedKeys
  import opened Decimals
  import opened MapHeap
  import opened ResourceTree
  import opened KeyRemoval
  import opened ResourceMapping
  import opened FreezeUnfreeze

  /** A Python dictionary's items, in insertion order. */
  type Table = seq<(string, Resource)>

  function Amounts(cpu: int, memory: int): Tree {
    map["cpu" := Str(Decimal(cpu) + "m"), "memory" := Str(Decimal(memory) + "Mi")]
  }

  function LeafOf(r: Resource): Tree {
    map["requests" := Map(Amounts(r.cpuRequest, r.memoryRequest)),
        "limits" := Map(Amounts(r.cpuLimit, r.memoryLimit))]
  }

  function ItemOf(key: string, r: Resource): (item: Item)
    ensures item.path != []
  {
    Item(Split(key, '.'), Map(LeafOf(r)))
  }

  function Items(table: Table): (items: seq<Item>)
    ensures |items| == |table| && Proper(items)
  {
    seq(|table|, i requires 0 <= i < |table| => ItemOf(table[i].0, table[i].1))
  }

  /**
   What storing the entries one after the other makes of `t`. `None` where a key leads through a
   value that is no dictionary, which Python reports as a TypeError.
   */
  function Nest(t: Tree, table: Table): Option<Tree>
    decreases |table|
  {
    if table == [] then Some(t)
    else
      var keys := Split(table[0].0, '.');
      if Hides(Map(t), keys) then None else Nest(Put(t, keys, Map(LeafOf(table[0].1))), table[1..])
  }

  /** A key of several parts is stored below the dictionary at its first part, once that is there. */
  lemma PutThrough(t: Tree, p: Path, v: Value)
    requires |p| > 1
    ensures var t' := if p[0] in t then t else t[p[0] := Map(map[])];
            && (Hides(Map(t), p) <==> !t'[p[0]].Map? || Hides(Map(Sub(t', p[0])), p[1..]))
            && t'[p[0] := Map(Put(Sub(t', p[0]), p[1..], v))] == Put(t, p, v)
  {
  }

  // The program

  /** Walks down from `d`, making missing dictionaries, and stores the leaf at the end. */
  method StoreAt(d: MapNode, keys: Path, leaf: Tree) returns (ok: bool)
    requires d.Valid() && keys != []
    modifies d.repr
    ensures d.Valid() && fresh(d.repr - old(d.repr))
    ensures ok <==> !Hides(Map(old(d.abs)), keys)
    ensures ok ==> d.abs == Put(old(d.abs), keys, Map(leaf))
    decreases |keys|, 0
  {
    var k := keys[0];
    if |keys| == 1 {
      StoreLeaf(d, k, leaf);
      return true;
    }
    PutThrough(d.abs, keys, Map(leaf));
    MakeRoom(d, k);
    if d.entries[k].Leaf? {
      return false;
    }
    ok := StoreBelow(d, k, keys[1..], leaf);
  }

  method StoreLeaf(d: MapNode, k: string, leaf: Tree)
    requires d.Valid()
    modifies d
    ensures d.Valid() && fresh(d.repr - old(d.repr))
    ensures d.abs == old(d.abs)[k := Map(leaf)]
  {
    d.FootInside();
    var node := Decode(leaf);
    d.InstallRef(k, node);
  }

  /** Makes an empty dictionary at `k` where there is nothing yet. */
  method MakeRoom(d: MapNode, k: string)
    requires d.Valid()
    modifies d
    ensures d.Valid() && fresh(d.repr - old(d.repr))
    ensures k in d.entries && d.EntryValid(k)
    ensures d.abs == if k in old(d.abs) then old(d.abs) else old(d.abs)[k := Map(map[])]
  {
    if k !in d.entries {
      d.FootInside();
      var empty := new MapNode();
      d.InstallRef(k, empty);
    }
    assert d.EntryValid(k);
  }

  /** Moves the cursor to the dictionary at `k` and goes on from there. */
  method StoreBelow(d: MapNode, k: string, keys: Path, leaf: Tree) returns (ok: bool)
    requires d.Valid() && k in d.entries && d.entries[k].Ref? && keys != []
    modifies d.repr
    ensures d.Valid() && fresh(d.repr - old(d.repr))
    ensures ok <==> !Hides(Map(Sub(old(d.abs), k)), keys)
    ensures ok ==> d.abs == old(d.abs)[k := Map(Put(Sub(old(d.abs), k), keys, Map(leaf)))]
    decreases |keys|, 1
  {
    var n := d.entries[k].node;
    assert d.EntryValid(k);
    d.FootInside();
    ok := StoreAt(n, keys, leaf);
    forall j | j in d.entries && j != k
      ensures d.EntryValid(j)
    {
      assert old(d.EntryValid(j));
      d.EntryKept(j);
    }
    d.Refresh(k);
  }

  method ConvertToNestedDict(table: Table) returns (nested: Option<MapNode>)
    ensures nested.None? ==> Nest(map[], table) == None
    ensures nested.Some? ==> fresh(nested.value.repr) && nested.value.Valid()
    ensures nested.Some? ==> Nest(map[], table) == Some(nested.value.abs)
  {
    var root := new MapNode();
    for i := 0 to |table|
      invariant fresh(root.repr) && root.Valid()
      invariant Nest(map[], table) == Nest(root.abs, table[i..])
    {
      assert table[i..][1..] == table[i + 1..];
      var ok := StoreAt(root, Split(table[i].0, '.'), LeafOf(table[i].1));
      if !ok {
        return None;
      }
    }
    return Some(root);
  }

  // What the nesting denotes

  /** Whether and where the first entry is stored, told by its item. */
  lemma NestStep(t: Tree, table: Table)
    requires table != []
    ensures Items(table)[1..] == Items(table[1..])
    ensures var first := Items(table)[0];
            Nest(t, table) ==
            if Hides(Map(t), first.path) then None else Nest(Put(t, first.path, first.leaf), table[1..])
  {
    ItemsOfPart(table, 1, table[1..]);
    assert Items(table)[1..1 + |table[1..]|] == Items(table)[1..];
  }

  lemma {:induction false} NestIsPutAll(t: Tree, table: Table)
    requires Nest(t, table).Some?
    ensures Nest(t, table).value == PutAll(t, Items(table))
    decreases |table|
  {
    if table != [] {
      var items := Items(table);
      NestStep(t, table);
      NestIsPutAll(Put(t, items[0].path, items[0].leaf), table[1..]);
      PutFirst(t, items);
    }
  }

  /** Nothing hides the place of any item. */
  predicate AllOpen(t: Tree, items: seq<Item>) {
    forall i :: 0 <= i < |items| ==> !Hides(Map(t), items[i].path)
  }

  lemma OpenAfterPut(t: Tree, items: seq<Item>)
    requires items != [] && Proper(items) && PrefixFree(items) && AllOpen(t, items)
    ensures PrefixFree(items[1..]) && AllOpen(Put(t, items[0].path, items[0].leaf), items[1..])
  {
    var t' := Put(t, items[0].path, items[0].leaf);
    forall i | 1 <= i < |items|
      ensures !Hides(Map(t'), items[i].path)
    {
      if Hides(Map(t'), items[i].path) {
        PutHidesNothing(t, items[0].path, items[0].leaf, items[i].path);
      }
    }
  }

  /** Keys that do not lead through each other can all be stored. */
  lemma {:induction false} PrefixFreeNests(t: Tree, table: Table)
    requires PrefixFree(Items(table)) && AllOpen(t, Items(table))
    ensures Nest(t, table).Some?
    decreases |table|
  {
    if table != [] {
      var items := Items(table);
      NestStep(t, table);
      OpenAfterPut(t, items);
      PrefixFreeNests(Put(t, items[0].path, items[0].leaf), table[1..]);
    }
  }

  lemma {:induction false} PutFirst(t: Tree, items: seq<Item>)
    requires Proper(items) && items != []
    ensures PutAll(t, items) == PutAll(Put(t, items[0].path, items[0].leaf), items[1..])
    decreases |items|
  {
    var n := |items| - 1;
    if n == 0 {
      assert items[..0] == [] == items[1..];
    } else {
      PutFirst(t, items[..n]);
      assert items[..n][1..] == items[1..][..n - 1];
      assert items[1..][n - 1] == items[n];
    }
  }

  // Reading the table back

  predicate EndsWith(s: string, unit: string) {
    |unit| <= |s| && s[|s| - |unit|..] == unit
  }

  function ReadAmount(v: Value, unit: string): Option<int> {
    if v.Str? && EndsWith(v.s, unit) then ReadDecimal(v.s[..|v.s| - |unit|]) else None
  }

  /** The pair of amounts under `requests` or `limits`. */
  function ReadAmounts(v: Value): Option<(int, int)> {
    if v.Map? && v.entries.Keys == {"cpu", "memory"} then
      match (ReadAmount(v.entries["cpu"], "m"), ReadAmount(v.entries["memory"], "Mi"))
      case (Some(c), Some(m)) => Some((c, m))
      case _ => None
    else None
  }

  /** The resource a dictionary spells out, if it is such a dictionary. */
  function ReadLeaf(v: Value): Option<Resource> {
    if v.Map? && v.entries.Keys == {"requests", "limits"} then
      match (ReadAmounts(v.entries["requests"]), ReadAmounts(v.entries["limits"]))
      case (Some(r), Some(l)) => Some(Resource(r.0, r.1, l.0, l.1))
      case _ => None
    else None
  }

  /** Every path into a value. */
  function AllPaths(v: Value): set<Path> {
    {[]} + if v.Map? then set k, p | k in v.entries && p in AllPaths(v.entries[k]) :: [k] + p else {}
  }

  /** The resources found anywhere in a tree, by the dotted form of their path. */
  function Flatten(t: Tree): map<string, Resource> {
    map key | key in (set p | p in AllPaths(Map(t)) && p != [] && ReadLeafAt(t, p).Some? :: Join(p, '.')) &&
              ReadLeafAt(t, Split(key, '.')).Some? ::
      ReadLeafAt(t, Split(key, '.')).value
  }

  function ReadLeafAt(t: Tree, p: Path): Option<Resource> {
    match Get(Map(t), p)
    case None => None
    case Some(v) => ReadLeaf(v)
  }

  lemma ReadAmountRoundTrip(n: int, unit: string)
    ensures ReadAmount(Str(Decimal(n) + unit), unit) == Some(n)
  {
    var s := Decimal(n) + unit;
    assert s[..|s| - |unit|] == Decimal(n) && s[|s| - |unit|..] == unit;
    DecimalRoundTrip(n);
  }

  lemma ReadLeafRoundTrip(r: Resource)
    ensures ReadLeaf(Map(LeafOf(r))) == Some(r)
  {
    ReadAmountsRoundTrip(r.cpuRequest, r.memoryRequest);
    ReadAmountsRoundTrip(r.cpuLimit, r.memoryLimit);
    assert LeafOf(r).Keys == {"requests", "limits"};
  }

  lemma ReadAmountsRoundTrip(cpu: int, memory: int)
    ensures ReadAmounts(Map(Amounts(cpu, memory))) == Some((cpu, memory))
  {
    ReadAmountRoundTrip(cpu, "m");
    ReadAmountRoundTrip(memory, "Mi");
    assert Amounts(cpu, memory).Keys == {"cpu", "memory"};
  }

  /** Strings sit one level below a pair of amounts, and two below a leaf. */
  lemma StringsInAmounts(cpu: int, memory: int, q: Path)
    requires Get(Map(Amounts(cpu, memory)), q).Some? && Get(Map(Amounts(cpu, memory)), q).value.Str?
    ensures |q| == 1
  {
    assert q != [];
    var amount := Amounts(cpu, memory)[q[0]];
    assert amount.Str? && Get(amount, q[1..]).Some?;
  }

  lemma StringsInLeaf(r: Resource, q: Path)
    requires Get(Map(LeafOf(r)), q).Some? && Get(Map(LeafOf(r)), q).value.Str?
    ensures |q| == 2
  {
    assert q != [];
    if q[0] == "requests" {
      StringsInAmounts(r.cpuRequest, r.memoryRequest, q[1..]);
    } else {
      assert q[0] == "limits";
      StringsInAmounts(r.cpuLimit, r.memoryLimit, q[1..]);
    }
  }

  /** The strings of a nested tree lie two levels below one of its items. */
  ghost predicate BelowItem(items: seq<Item>, s: Path) {
    exists i :: 0 <= i < |items| && items[i].path <= s && |s| == |items[i].path| + 2
  }

  ghost predicate AllLeaves(items: seq<Item>) {
    forall i :: 0 <= i < |items| ==> exists r :: items[i].leaf == Map(LeafOf(r))
  }

  lemma BelowInit(items: seq<Item>, s: Path)
    requires items != [] && BelowItem(items[..|items| - 1], s)
    ensures BelowItem(items, s)
  {
    var init := items[..|items| - 1];
    var i :| 0 <= i < |init| && init[i].path <= s && |s| == |init[i].path| + 2;
    assert items[i] == init[i];
  }

  lemma BelowLast(items: seq<Item>, s: Path)
    requires items != [] && AllLeaves(items) && items[|items| - 1].path <= s
    requires var last := items[|items| - 1];
             Get(last.leaf, s[|last.path|..]).Some? && Get(last.leaf, s[|last.path|..]).value.Str?
    ensures BelowItem(items, s)
  {
    var last := items[|items| - 1];
    var r :| last.leaf == Map(LeafOf(r));
    StringsInLeaf(r, s[|last.path|..]);
  }

  lemma {:induction false} StringsInNested(items: seq<Item>, s: Path)
    requires Proper(items) && PrefixFree(items) && AllLeaves(items)
    requires Get(Map(Nested(items)), s).Some? && Get(Map(Nested(items)), s).value.Str?
    ensures BelowItem(items, s)
    decreases |items|
  {
    if items != [] {
      var init, last := items[..|items| - 1], items[|items| - 1];
      PutAtPath(Nested(init), last.path, last.leaf, s);
      if last.path <= s {
        BelowLast(items, s);
      } else {
        NestedHidesNothing(init, last.path);
        StringsInNested(init, s);
        BelowInit(items, s);
      }
    }
  }

  /** A resource can be read only where one was stored. */
  lemma LeavesOnlyAtKeys(table: Table, q: Path)
    requires PrefixFree(Items(table)) && ReadLeafAt(Nested(Items(table)), q).Some?
    ensures exists i :: 0 <= i < |table| && Items(table)[i].path == q
  {
    var items := Items(table);
    var v := Get(Map(Nested(items)), q).value;
    var s := q + ["requests", "cpu"];
    GetExtend(Map(Nested(items)), q, ["requests", "cpu"]);
    CpuOfLeaf(v);
    assert forall i :: 0 <= i < |items| ==> items[i].leaf == Map(LeafOf(table[i].1));
    StringsInNested(items, s);
    var i :| 0 <= i < |items| && items[i].path <= s && |s| == |items[i].path| + 2;
    assert items[i].path == s[..|q|] == q;
  }

  lemma CpuOfLeaf(v: Value)
    requires ReadLeaf(v).Some?
    ensures Get(v, ["requests", "cpu"]).Some? && Get(v, ["requests", "cpu"]).value.Str?
  {
    assert "requests" in v.entries;
    var half := v.entries["requests"];
    assert "cpu" in half.entries;
    assert ["requests", "cpu"][1..] == ["cpu"] && ["cpu"][1..] == [];
    assert Get(half, ["cpu"]) == Some(half.entries["cpu"]);
  }

  lemma {:induction false} NestedHolds(items: seq<Item>, i: nat)
    requires Proper(items) && PrefixFree(items) && i < |items|
    ensures Get(Map(Nested(items)), items[i].path) == Some(items[i].leaf)
    decreases |items|
  {
    var n := |items| - 1;
    var init, last := items[..n], items[n];
    PutAtPath(Nested(init), last.path, last.leaf, items[i].path);
    if i < n {
      assert Apart(items[i].path, last.path);
      NestedHidesNothing(init, last.path);
      NestedHolds(init, i);
    } else {
      assert last.path[|last.path|..] == [];
    }
  }

  lemma {:induction false} AllPathsComplete(v: Value, p: Path)
    ensures Get(v, p).Some? ==> p in AllPaths(v)
  {
    if p != [] && v.Map? && p[0] in v.entries {
      AllPathsComplete(v.entries[p[0]], p[1..]);
      assert p == [p[0]] + p[1..];
    }
  }

  /** Flattening the nested dictionaries gives back the table that was nested, no more and no less. */
  lemma {:induction false} FlattenUndoesNest(table: Table)
    requires PrefixFree(Items(table))
    ensures Nest(map[], table).Some?
    ensures var t := Nest(map[], table).value;
            (forall key :: key in Flatten(t) ==> exists i :: 0 <= i < |table| && table[i].0 == key) &&
            (forall i :: 0 <= i < |table| ==> table[i].0 in Flatten(t) && Flatten(t)[table[i].0] == table[i].1)
  {
    var items := Items(table);
    PrefixFreeNests(map[], table);
    NestIsPutAll(map[], table);
    var t := Nested(items);
    forall i | 0 <= i < |table|
      ensures table[i].0 in Flatten(t) && Flatten(t)[table[i].0] == table[i].1
    {
      NestedHolds(items, i);
      ReadLeafRoundTrip(table[i].1);
      AllPathsComplete(Map(t), items[i].path);
      JoinSplit(table[i].0, '.');
    }
    forall key | key in Flatten(t)
      ensures exists i :: 0 <= i < |table| && table[i].0 == key
    {
      var p :| p in AllPaths(Map(t)) && p != [] && ReadLeafAt(t, p).Some? && Join(p, '.') == key;
      LeavesOnlyAtKeys(table, p);
      var i :| 0 <= i < |table| && items[i].path == p;
      JoinSplit(table[i].0, '.');
    }
  }

  lemma {:induction false} ItemsPermuted(a: Table, b: Table)
    requires multiset(a) == multiset(b)
    ensures multiset(Items(a)) == multiset(Items(b))
    decreases |a|
  {
    SameLength(a, b);
    if a == [] {
      assert Items(a) == Items(b);
    } else {
      var n := |a| - 1;
      var i := IndexOf(b, a[n], a);
      SameAfterDrop(b, a, i);
      ItemsPermuted(a[..n], DropAt(b, i));
      ItemsDropAt(b, i);
      ItemsDropAt(a, n);
      assert DropAt(a, n) == a[..n];
    }
  }

  lemma SameItem(a: Table, i: nat, b: Table, j: nat)
    requires i < |a| && j < |b| && a[i] == b[j]
    ensures Items(a)[i] == Items(b)[j]
  {
  }

  lemma ItemsOfPart(whole: Table, from: nat, part: Table)
    requires from + |part| <= |whole| && forall i :: 0 <= i < |part| ==> whole[from + i] == part[i]
    ensures Items(whole)[from..from + |part|] == Items(part)
  {
    forall i | 0 <= i < |part|
      ensures Items(whole)[from + i] == Items(part)[i]
    {
      SameItem(whole, from + i, part, i);
    }
  }

  lemma ItemsAppend(a: Table, b: Table)
    ensures Items(a + b) == Items(a) + Items(b)
  {
    ItemsOfPart(a + b, 0, a);
    ItemsOfPart(a + b, |a|, b);
    Rejoin(Items(a + b), |a|);
  }

  lemma ItemsDropAt(table: Table, i: nat)
    requires i < |table|
    ensures multiset(Items(table)) == multiset(Items(DropAt(table, i))) + multiset{ItemOf(table[i].0, table[i].1)}
  {
    var l, x, r := table[..i], [table[i]], table[i + 1..];
    assert table == l + (x + r);
    ItemsAppend(l, x + r);
    ItemsAppend(x, r);
    ItemsAppend(l, r);
    assert Items(x) == [ItemOf(table[i].0, table[i].1)];
  }

  /** The nested dictionaries do not depend on the order of the table. */
  lemma NestOrderIrrelevant(a: Table, b: Table)
    requires PrefixFree(Items(a)) && multiset(a) == multiset(b)
    ensures Nest(map[], a).Some? && Nest(map[], b) == Nest(map[], a)
  {
    ItemsPermuted(a, b);
    PermutedPrefixFree(Items(a), Items(b));
    PrefixFreeNests(map[], a);
    PrefixFreeNests(map[], b);
    NestIsPutAll(map[], a);
    NestIsPutAll(map[], b);
    OrderIrrelevant(map[], Items(a), Items(b));
  }

  lemma ApartFromDropped(items: seq<Item>, i: nat, x: Item)
    requires PrefixFree(items) && i < |items| && x in DropAt(items, i)
    ensures Apart(x.path, items[i].path)
  {
    var k :| 0 <= k < |DropAt(items, i)| && DropAt(items, i)[k] == x;
    assert x == items[if k < i then k else k + 1];
  }

  lemma AppendPrefixFree(items: seq<Item>, x: Item)
    requires PrefixFree(items) && forall y :: y in items ==> Apart(y.path, x.path)
    ensures PrefixFree(items + [x])
  {
  }

  lemma {:induction false} PermutedPrefixFree(a: seq<Item>, b: seq<Item>)
    requires PrefixFree(a) && Proper(a) && multiset(a) == multiset(b)
    ensures PrefixFree(b)
    decreases |b|
  {
    if b != [] {
      var init, last := b[..|b| - 1], b[|b| - 1];
      var i := IndexOf(a, last, b);
      SameAfterDrop(a, b, i);
      DropAtPrefixFree(a, i);
      PermutedPrefixFree(DropAt(a, i), init);
      forall y | y in init
        ensures Apart(y.path, last.path)
      {
        SameMembers(init, DropAt(a, i), y);
        ApartFromDropped(a, i, y);
      }
      AppendPrefixFree(init, last);
      assert b == init + [last];
    }
  }

  /** Distinct keys drawn from a prefix-free mapping make a prefix-free table. */
  lemma MappedTablePrefixFree(table: Table, keys: seq<string>)
    requires PrefixFreePaths(Paths(keys)) && MappedTable(table, keys)
    ensures PrefixFree(Items(table)) && Drawn(Items(table), Paths(keys))
  {
    forall i | 0 <= i < |table|
      ensures Items(table)[i].path in Paths(keys)
    {
      var j :| 0 <= j < |keys| && keys[j] == table[i].0;
      assert Paths(keys)[j] == Items(table)[i].path;
    }
    forall i, j | 0 <= i < j < |table|
      ensures Apart(Items(table)[i].path, Items(table)[j].path)
    {
      JoinSplit(table[i].0, '.');
      JoinSplit(table[j].0, '.');
    }
  }

  predicate MappedTable(table: Table, keys: seq<string>) {
    (forall i :: 0 <= i < |table| ==> table[i].0 in keys) &&
    (forall i, j :: 0 <= i < j < |table| ==> table[i].0 != table[j].0)
  }

  /** The two commands one after the other, from dotted keys to values and back. */
  lemma UnfreezeUndoesFreezeCommand(v: Tree, table: Table, keys: seq<string>)
    requires PrefixFreePaths(Paths(keys)) && MappedTable(table, keys)
    ensures Nest(map[], table).Some?
    ensures RemoveAll(Map(Merge(v, Nest(map[], table).value)), Paths(keys)) == Map(v) <==>
            Restorable(v, Items(table), Paths(keys))
  {
    MappedTablePrefixFree(table, keys);
    PrefixFreeNests(map[], table);
    NestIsPutAll(map[], table);
    UnfreezeUndoesFreeze(v, Items(table), Paths(keys));
  }
}
