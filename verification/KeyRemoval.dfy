/**
 Removing dotted keys from a tree of nested dictionaries, pruning every dictionary that the
 removal leaves empty: the unfreeze command of the resource-limit tool.
 */
module KeyRemoval {
  import opened Wrappers
  import opened Values
  import opened DottedKeys
  import opened ResourceMapping
  import opened MapHeap

  /** What the recursive delete leaves of `v`. */
  function RemovePath(v: Value, p: Path): (r: Value)
    requires p != []
    ensures v.Map? <==> r.Map?
  {
    if !v.Map? || p[0] !in v.entries then v
    else if |p| == 1 then Map(v.entries - {p[0]})
    else
      var c := RemovePath(v.entries[p[0]], p[1..]);
      Map(if Falsy(c) then v.entries - {p[0]} else v.entries[p[0] := c])
  }

  predicate NonEmpty(ps: seq<Path>) {
    forall i :: 0 <= i < |ps| ==> ps[i] != []
  }

  function RemoveAll(v: Value, ps: seq<Path>): Value
    requires NonEmpty(ps)
    decreases |ps|
  {
    if ps == [] then v else RemoveAll(RemovePath(v, ps[0]), ps[1..])
  }

  // The program

  ghost predicate Live(d: Slot)
    reads if d.Ref? then {d.node} + d.node.repr else {}
  {
    if d.Ref? then d.node.Valid() else !d.v.Map?
  }

  ghost function Denotes(d: Slot): Value
    reads if d.Ref? then {d.node} else {}
  {
    if d.Ref? then Map(d.node.abs) else d.v
  }

  /** Python's `not x`. */
  predicate IsFalsy(d: Slot)
    reads if d.Ref? then {d.node} else {}
  {
    match d
    case Leaf(v) => Falsy(v)
    case Ref(n) => n.entries == map[]
  }

  lemma FalsyDenotes(d: Slot)
    requires Live(d)
    ensures IsFalsy(d) <==> Falsy(Denotes(d))
  {
    if d.Ref? {
      assert d.node.abs.Keys == d.node.entries.Keys;
      if d.node.abs == map[] {
        assert d.node.entries.Keys == {};
      }
      if d.node.entries == map[] {
        assert d.node.abs.Keys == {};
      }
    }
  }

  method RecursivelyDelete(d: Slot, keys: Path)
    requires keys != [] && Live(d)
    modifies if d.Ref? then d.node.repr else {}
    ensures Live(d) && (d.Ref? ==> d.node.repr == old(d.node.repr))
    ensures Denotes(d) == RemovePath(old(Denotes(d)), keys)
    decreases |keys|, 0
  {
    if d.Leaf? {
      return;
    }
    var n := d.node;
    if n.entries == map[] {
      return;
    }
    if keys[0] !in n.entries {
      return;
    }
    if |keys| == 1 {
      n.Remove(keys[0]);
    } else {
      assert n.EntryValid(keys[0]);
      DeleteBelow(n, keys[0], keys[1..]);
      assert n.EntryValid(keys[0]);
      FalsyDenotes(n.entries[keys[0]]);
      if IsFalsy(n.entries[keys[0]]) {
        n.Remove(keys[0]);
      }
    }
  }

  /** The recursive call, on the value at `key` of `n`. */
  method DeleteBelow(n: MapNode, key: string, keys: Path)
    requires n.Valid() && key in n.entries && keys != []
    modifies n.repr
    ensures n.Valid() && n.entries == old(n.entries) && n.repr == old(n.repr)
    ensures n.abs == old(n.abs)[key := RemovePath(old(n.abs)[key], keys)]
    decreases |keys|, 1
  {
    assert n.EntryValid(key);
    RecursivelyDelete(n.entries[key], keys);
    if n.entries[key].Ref? {
      forall k | k in n.entries && k != key
        ensures n.EntryValid(k)
      {
        assert old(n.EntryValid(k));
        n.EntryKept(k);
      }
      n.Refresh(key);
    }
  }

  // Algebra

  lemma RemoveFalsy(v: Value, p: Path)
    requires p != [] && Falsy(v)
    ensures RemovePath(v, p) == v
  {
  }

  /** Removing a key twice is removing it once. */
  lemma {:induction false} RemoveIdempotent(v: Value, p: Path)
    requires p != []
    ensures RemovePath(RemovePath(v, p), p) == RemovePath(v, p)
  {
    if v.Map? && p[0] in v.entries && |p| > 1 {
      RemoveIdempotent(v.entries[p[0]], p[1..]);
    }
  }

  /** Any two removals commute, also where one path leads through the other. */
  lemma {:induction false} RemoveCommute(v: Value, p: Path, q: Path)
    requires p != [] && q != []
    ensures RemovePath(RemovePath(v, p), q) == RemovePath(RemovePath(v, q), p)
  {
    if v.Map? && p[0] in v.entries && q[0] in v.entries {
      if p[0] == q[0] {
        if |p| > 1 && |q| > 1 {
          var c := v.entries[p[0]];
          RemoveCommute(c, p[1..], q[1..]);
          var cp, cq := RemovePath(c, p[1..]), RemovePath(c, q[1..]);
          if Falsy(cp) {
            RemoveFalsy(cp, q[1..]);
          }
          if Falsy(cq) {
            RemoveFalsy(cq, p[1..]);
          }
        }
      }
    }
  }

  /** The pruned remains of the ancestor at `q` of a removed key. */
  function Pruned(v: Value, p: Path, q: Path): Option<Value>
    requires q < p && Get(v, q).Some?
  {
    var y := RemovePath(Get(v, q).value, p[|q|..]);
    if q != [] && Falsy(y) then None else Some(y)
  }

  lemma {:induction false} RemovedAbove(v: Value, p: Path, q: Path)
    requires q < p && Get(v, q).Some?
    ensures Get(RemovePath(v, p), q) == Pruned(v, p, q)
  {
    if q == [] {
      assert p[0..] == p;
    } else {
      PrefixTail(q, p);
      var c := v.entries[q[0]];
      assert q[1..] < p[1..] && p[|q|..] == p[1..][|q| - 1..];
      RemovedAbove(c, p[1..], q[1..]);
      if q[1..] != [] && Falsy(RemovePath(c, p[1..])) {
        assert Get(RemovePath(c, p[1..]), q[1..]) == None;
      }
    }
  }

  lemma {:induction false} RemovedElsewhere(v: Value, p: Path, q: Path)
    requires p != [] && (Apart(p, q) || (q < p && Get(v, q) == None))
    ensures Get(RemovePath(v, p), q) == Get(v, q)
  {
    if q != [] && p[0] == q[0] && v.Map? && p[0] in v.entries {
      PrefixTail(p, q);
      PrefixTail(q, p);
      assert |p| > 1;
      RemovedElsewhere(v.entries[p[0]], p[1..], q[1..]);
    }
  }

  lemma {:induction false} RemovedUnder(v: Value, p: Path, q: Path)
    requires p != [] && p <= q
    ensures Get(RemovePath(v, p), q) == None
  {
    if |p| > 1 && v.Map? && p[0] in v.entries {
      PrefixTail(p, q);
      RemovedUnder(v.entries[p[0]], p[1..], q[1..]);
    }
  }

  /**
   What a removal leaves at every path, exactly: nothing at or under the removed key, the pruned
   remains at an ancestor of it, and everything else untouched.
   */
  lemma RemovedAtPath(v: Value, p: Path, q: Path)
    requires p != []
    ensures Get(RemovePath(v, p), q) ==
            if p <= q then None
            else if q < p && Get(v, q).Some? then Pruned(v, p, q)
            else Get(v, q)
  {
    if p <= q {
      RemovedUnder(v, p, q);
    } else if q < p && Get(v, q).Some? {
      RemovedAbove(v, p, q);
    } else {
      RemovedElsewhere(v, p, q);
    }
  }

  lemma {:induction false} RemoveAllSplit(v: Value, ps: seq<Path>, qs: seq<Path>)
    requires NonEmpty(ps) && NonEmpty(qs)
    ensures RemoveAll(v, ps + qs) == RemoveAll(RemoveAll(v, ps), qs)
    decreases |ps|
  {
    if ps == [] {
      assert ps + qs == qs;
    } else {
      assert (ps + qs)[0] == ps[0] && (ps + qs)[1..] == ps[1..] + qs;
      RemoveAllSplit(RemovePath(v, ps[0]), ps[1..], qs);
    }
  }

  /** One removal moves past any number of others. */
  lemma {:induction false} RemoveMoves(v: Value, p: Path, qs: seq<Path>)
    requires p != [] && NonEmpty(qs)
    ensures RemoveAll(RemovePath(v, p), qs) == RemovePath(RemoveAll(v, qs), p)
    decreases |qs|
  {
    if qs != [] {
      RemoveCommute(v, p, qs[0]);
      RemoveMoves(RemovePath(v, qs[0]), p, qs[1..]);
    }
  }

  lemma {:induction false} RemoveAllCommute(v: Value, ps: seq<Path>, qs: seq<Path>)
    requires NonEmpty(ps) && NonEmpty(qs)
    ensures RemoveAll(RemoveAll(v, ps), qs) == RemoveAll(RemoveAll(v, qs), ps)
    decreases |ps|
  {
    if ps != [] {
      RemoveMoves(v, ps[0], qs);
      RemoveAllCommute(RemovePath(v, ps[0]), ps[1..], qs);
    }
  }

  /** Removing again a key that was among those removed changes nothing. */
  lemma {:induction false} RemoveAgain(v: Value, ps: seq<Path>, p: Path)
    requires NonEmpty(ps) && p in ps
    ensures p != [] && RemovePath(RemoveAll(v, ps), p) == RemoveAll(v, ps)
    decreases |ps|
  {
    if ps[0] == p {
      RemoveMoves(RemovePath(v, p), p, ps[1..]);
      RemoveIdempotent(v, p);
    } else {
      RemoveAgain(RemovePath(v, ps[0]), ps[1..], p);
    }
  }

  lemma {:induction false} RemoveAllAgain(v: Value, ps: seq<Path>, qs: seq<Path>)
    requires NonEmpty(ps) && forall i :: 0 <= i < |qs| ==> qs[i] in ps
    ensures NonEmpty(qs) && RemoveAll(RemoveAll(v, ps), qs) == RemoveAll(v, ps)
    decreases |qs|
  {
    if qs != [] {
      assert qs[0] in ps;
      RemoveAgain(v, ps, qs[0]);
      RemoveAllAgain(v, ps, qs[1..]);
    }
  }

  predicate SamePaths(ps: seq<Path>, qs: seq<Path>) {
    (forall i :: 0 <= i < |ps| ==> ps[i] in qs) && (forall i :: 0 <= i < |qs| ==> qs[i] in ps)
  }

  /** Neither the order nor the repetition of keys in the mapping matters. */
  lemma RemovalOrderIrrelevant(v: Value, ps: seq<Path>, qs: seq<Path>)
    requires NonEmpty(ps) && SamePaths(ps, qs)
    ensures NonEmpty(qs) && RemoveAll(v, ps) == RemoveAll(v, qs)
  {
    RemoveAllAgain(v, ps, qs);
    RemoveAllAgain(v, qs, ps);
    RemoveAllCommute(v, ps, qs);
  }

  /** A value that is neither above, at nor under a removed key stays as it was. */
  lemma {:induction false} UnrelatedPathsKept(v: Value, ps: seq<Path>, q: Path)
    requires NonEmpty(ps) && forall i :: 0 <= i < |ps| ==> Apart(ps[i], q)
    ensures Get(RemoveAll(v, ps), q) == Get(v, q)
    decreases |ps|
  {
    if ps != [] {
      RemovedAtPath(v, ps[0], q);
      UnrelatedPathsKept(RemovePath(v, ps[0]), ps[1..], q);
    }
  }

  /** No removed key is left. */
  lemma RemovedKeysGone(v: Value, ps: seq<Path>, p: Path)
    requires NonEmpty(ps) && p in ps
    ensures Get(RemoveAll(v, ps), p) == None
  {
    RemoveAgain(v, ps, p);
    RemovedAtPath(RemoveAll(v, ps), p, p);
  }

  /** On the way to a removed key nothing empty or zero is left. */
  lemma AncestorsPruned(v: Value, ps: seq<Path>, p: Path, q: Path)
    requires NonEmpty(ps) && p in ps && q != [] && q < p
    ensures Get(RemoveAll(v, ps), q).Some? ==> !Falsy(Get(RemoveAll(v, ps), q).value)
  {
    RemoveAgain(v, ps, p);
    RemovedAtPath(RemoveAll(v, ps), p, q);
  }

  // The command

  function KeySet(keys: seq<string>): set<string> {
    set key | key in keys
  }

  lemma {:induction false} RuleKeysAppend(rules: seq<PodRule>, i: nat)
    requires i < |rules|
    ensures RuleKeys(rules[..i + 1]) == RuleKeys(rules[..i]) + rules[i].containers.Values
  {
    if i > 0 {
      assert rules[..i + 1][1..] == rules[1..][..i] && rules[..i][1..] == rules[1..][..i - 1];
      RuleKeysAppend(rules[1..], i - 1);
    } else {
      assert rules[..1][1..] == [];
    }
  }

  method NamespaceKeys(rules: seq<PodRule>) returns (keys: seq<string>)
    ensures KeySet(keys) == RuleKeys(rules)
  {
    keys := [];
    for i := 0 to |rules|
      invariant KeySet(keys) == RuleKeys(rules[..i])
    {
      var todo := rules[i].containers.Keys;
      ghost var before := KeySet(keys);
      while todo != {}
        invariant todo <= rules[i].containers.Keys
        invariant forall key :: key in keys <==>
          key in before || exists c :: c in rules[i].containers && c !in todo && rules[i].containers[c] == key
      {
        var c :| c in todo;
        keys := keys + [rules[i].containers[c]];
        todo := todo - {c};
      }
      RuleKeysAppend(rules, i);
    }
    assert rules[..|rules|] == rules;
  }

  /** Collects the keys namespace by namespace, in whatever order the dictionaries are visited. */
  method ResourceKeys(mapping: Mapping) returns (keys: seq<string>)
    ensures KeySet(keys) == MappedKeys(mapping)
  {
    keys := [];
    var todo := mapping.Keys;
    while todo != {}
      invariant todo <= mapping.Keys
      invariant forall key :: key in keys <==> exists ns :: ns in mapping && ns !in todo && key in RuleKeys(mapping[ns])
    {
      var ns :| ns in todo;
      var more := NamespaceKeys(mapping[ns]);
      assert forall key :: key in RuleKeys(mapping[ns]) <==> key in more;
      keys := keys + more;
      todo := todo - {ns};
    }
  }

  function Paths(keys: seq<string>): (ps: seq<Path>)
    ensures |ps| == |keys| && NonEmpty(ps)
  {
    seq(|keys|, i requires 0 <= i < |keys| => Split(keys[i], '.'))
  }

  /** The whole removal, whatever order the dictionaries of the mapping are visited in. */
  method RemoveResourceKeys(root: Slot, mapping: Mapping)
    requires Live(root)
    modifies if root.Ref? then root.node.repr else {}
    ensures Live(root)
    ensures forall keys: seq<string> :: KeySet(keys) == MappedKeys(mapping) ==>
              Denotes(root) == RemoveAll(old(Denotes(root)), Paths(keys))
  {
    var found := ResourceKeys(mapping);
    for i := 0 to |found|
      invariant Live(root) && (root.Ref? ==> root.node.repr == old(root.node.repr))
      invariant RemoveAll(Denotes(root), Paths(found)[i..]) == RemoveAll(old(Denotes(root)), Paths(found))
    {
      ghost var rest := Paths(found)[i..];
      assert rest[0] == Split(found[i], '.') && rest[1..] == Paths(found)[i + 1..];
      RecursivelyDelete(root, Split(found[i], '.'));
    }
    forall keys: seq<string> | KeySet(keys) == MappedKeys(mapping)
      ensures Denotes(root) == RemoveAll(old(Denotes(root)), Paths(keys))
    {
      SameKeysSamePaths(found, keys);
      RemovalOrderIrrelevant(old(Denotes(root)), Paths(found), Paths(keys));
    }
  }

  lemma SameKeysSamePaths(a: seq<string>, b: seq<string>)
    requires KeySet(a) == KeySet(b)
    ensures SamePaths(Paths(a), Paths(b))
  {
    HalfOfSamePaths(a, b);
    HalfOfSamePaths(b, a);
  }

  lemma HalfOfSamePaths(a: seq<string>, b: seq<string>)
    requires KeySet(a) == KeySet(b)
    ensures forall i :: 0 <= i < |a| ==> Paths(a)[i] in Paths(b)
  {
    forall i | 0 <= i < |a|
      ensures Paths(a)[i] in Paths(b)
    {
      assert a[i] in KeySet(a);
      assert a[i] in KeySet(b);
      var j :| 0 <= j < |b| && b[j] == a[i];
      assert Paths(b)[j] == Paths(a)[i];
    }
  }
}
