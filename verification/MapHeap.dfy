/**
 Nested maps on the heap: Go's `map[string]interface{}` and Python's `dict` as a decoder leaves
 them. Submaps are references, so a map may be changed through any reference to it.
 */
module MapHeap {
  import opened Wrappers
  import opened Values
  import opened MergeValues

  /** An entry: a reference to a submap, or a value that is no map and is never changed in place. */
  datatype Slot = Leaf(v: Value) | Ref(node: MapNode)

  /** The nodes below each submap entry of a map. */
  type Feet = map<string, set<MapNode>>

  /** Submaps under different keys share no node. */
  ghost predicate Separate(foot: Feet) {
    forall i, j :: i in foot && j in foot && i != j ==> foot[i] !! foot[j]
  }

  lemma SeparateUpdate(foot: Feet, key: string, s: set<MapNode>)
    requires Separate(foot)
    requires forall k :: k in foot && k != key ==> foot[k] !! s
    ensures Separate(foot[key := s]) && Separate(foot - {key})
  {
  }

  class MapNode {
    var entries: map<string, Slot>
    ghost var abs: Tree                          // the tree this node denotes
    ghost var repr: set<MapNode>                 // covers every node reachable from this one
    ghost var foot: Feet                         // the nodes below each submap entry

    constructor ()
      ensures fresh(repr) && Valid()
      ensures abs == map[] && entries == map[] && repr == {this}
    {
      entries, abs, repr, foot := map[], map[], {this}, map[];
    }

    /** The node is the root of a proper tree: no sharing between entries and no cycle. */
    ghost predicate Valid()
      reads this, repr
      decreases repr, 1
    {
      && this in repr
      && abs.Keys == entries.Keys
      && Separate(foot)
      && (forall k :: k in foot ==> k in entries)
      && (forall k :: k in entries ==> EntryValid(k))
    }

    ghost predicate EntryValid(k: string)
      requires this in repr && k in entries && k in abs
      reads this, repr
      decreases repr, 0
    {
      match entries[k]
      case Leaf(v) => !v.Map? && abs[k] == v && k !in foot
      case Ref(n) =>
        && n in repr && n.repr <= repr && this !in n.repr
        && k in foot && foot[k] == n.repr && n.Valid() && abs[k] == Map(n.abs)
    }

    /** An entry stays valid when neither it nor anything below it is written. */
    twostate lemma EntryKept(k: string)
      requires old(this in repr && k in entries && k in abs && EntryValid(k))
      requires this in repr && k in entries && k in abs && old(repr) <= repr
      requires entries[k] == old(entries[k]) && abs[k] == old(abs[k])
      requires k in foot <==> k in old(foot)
      requires k in foot ==> foot[k] == old(foot)[k] && unchanged(foot[k])
      ensures EntryValid(k)
    {
    }

    lemma FootInside()
      requires Valid()
      ensures forall k :: k in foot ==> foot[k] <= repr && this !in foot[k]
    {
      forall k | k in foot
        ensures foot[k] <= repr && this !in foot[k]
      {
        assert EntryValid(k);
      }
    }

    /** Valid, but for the bookkeeping of the submap at `key`. */
    ghost predicate ValidBut(key: string)
      reads this, repr
    {
      && this in repr
      && abs.Keys <= entries.Keys && entries.Keys <= abs.Keys + {key}
      && Separate(foot)
      && (forall k :: k in foot ==> k in entries)
      && (forall k :: k in entries && k != key ==> EntryValid(k))
    }

    /** Brings the bookkeeping up to date after the submap at `key` was replaced or written. */
    ghost method Refresh(key: string)
      requires ValidBut(key) && key in entries && entries[key].Ref?
      requires entries[key].node.Valid() && this !in entries[key].node.repr
      requires forall k :: k in foot && k != key ==> foot[k] !! entries[key].node.repr
      modifies this`abs, this`repr, this`foot
      ensures Valid()
      ensures abs == old(abs)[key := Map(entries[key].node.abs)]
      ensures repr == old(repr) + entries[key].node.repr
      ensures foot == old(foot)[key := entries[key].node.repr]
    {
      var n := entries[key].node;
      SeparateUpdate(foot, key, n.repr);
      abs := abs[key := Map(n.abs)];
      repr := repr + n.repr;
      foot := foot[key := n.repr];
      forall k | k in entries && k != key
        ensures EntryValid(k)
      {
        EntryKept(k);
      }
    }

    /** Makes `key` refer to `n`, replacing what was there. */
    method InstallRef(key: string, n: MapNode)
      requires Valid()
      requires n.Valid() && this !in n.repr
      requires forall k :: k in foot && k != key ==> foot[k] !! n.repr
      modifies this
      ensures Valid()
      ensures entries == old(entries)[key := Ref(n)]
      ensures abs == old(abs)[key := Map(n.abs)]
      ensures repr == old(repr) + n.repr
      ensures foot == old(foot)[key := n.repr]
    {
      entries := entries[key := Ref(n)];
      forall k | k in entries && k != key
        ensures EntryValid(k)
      {
        assert old(EntryValid(k));
        EntryKept(k);
      }
      Refresh(key);
    }

    /** Go's `delete` and Python's `del`. */
    method Remove(key: string)
      requires Valid()
      modifies this
      ensures Valid()
      ensures entries == old(entries) - {key}
      ensures abs == old(abs) - {key}
      ensures repr == old(repr)
      ensures foot == old(foot) - {key}
    {
      SeparateUpdate(foot, key, {});
      entries := entries - {key};
      abs := abs - {key};
      foot := foot - {key};
      forall k | k in entries
        ensures EntryValid(k)
      {
        assert old(EntryValid(k));
        EntryKept(k);
      }
    }

    method InstallLeaf(key: string, v: Value)
      requires Valid() && !v.Map?
      modifies this
      ensures Valid()
      ensures entries == old(entries)[key := Leaf(v)]
      ensures abs == old(abs)[key := v]
      ensures repr == old(repr)
      ensures foot == old(foot) - {key}
    {
      SeparateUpdate(foot, key, {});
      entries := entries[key := Leaf(v)];
      abs := abs[key := v];
      foot := foot - {key};
      forall k | k in entries && k != key
        ensures EntryValid(k)
      {
        assert old(EntryValid(k));
        EntryKept(k);
      }
    }
  }

  /** A decoder builds a tree of new nodes. */
  method Decode(t: Tree) returns (n: MapNode)
    ensures fresh(n.repr) && n.Valid() && n.abs == t
    decreases Map(t)
  {
    n := new MapNode();
    var todo := t.Keys;
    while todo != {}
      invariant todo <= t.Keys
      invariant fresh(n.repr) && n.Valid()
      invariant n.abs.Keys == t.Keys - todo
      invariant forall k :: k in n.abs ==> n.abs[k] == t[k]
    {
      var key :| key in todo;
      if t[key].Map? {
        var child := Decode(t[key].entries);
        forall k | k in n.foot
          ensures n.foot[k] !! child.repr
        {
          assert n.EntryValid(k);
        }
        n.InstallRef(key, child);
      } else {
        n.InstallLeaf(key, t[key]);
      }
      todo := todo - {key};
    }
  }

  /** The nodes under `k` in `m`, none where there is no submap. */
  ghost function Under(m: Feet, k: string): set<MapNode> {
    if k in m then m[k] else {}
  }

  /** Every submap of `now` uses only nodes that `was` and `other` had at the same key. */
  ghost predicate KeyByKey(now: Feet, was: Feet, other: Feet) {
    forall k :: k in now ==> now[k] <= Under(was, k) + Under(other, k)
  }

  /** Merging key by key never lets the nodes of one key reach those of another. */
  lemma OtherKeysApart(now: Feet, was: Feet, other: Feet,
                       key: string, all: set<MapNode>, others: set<MapNode>)
    requires KeyByKey(now, was, other) && Separate(other) && all !! others
    requires forall k :: k in was ==> was[k] <= all
    requires forall k :: k in other ==> other[k] <= others
    ensures forall k :: k in now && k != key ==> now[k] !! Under(other, key)
    ensures Under(was, key) !! others && Under(was, key) <= all
  {
    forall k | k in now && k != key
      ensures now[k] !! Under(other, key)
    {
      assert now[k] <= Under(was, k) + Under(other, k);
    }
  }

  /** The step of the merge at a key where both sides have a submap. */
  method MergeSubmap(base: MapNode, key: string, other: MapNode)
    requires base.Valid() && key in base.entries && base.entries[key].Ref?
    requires other.Valid() && base !in other.repr && Under(base.foot, key) !! other.repr
    requires forall k :: k in base.foot && k != key ==> base.foot[k] !! other.repr
    modifies base, Under(base.foot, key)
    ensures base.Valid() && base.entries == old(base.entries)
    ensures SameBut(key, old(base.abs), base.abs, old(base.foot), base.foot)
    ensures At(base.abs, key) == MergeEntry(At(old(base.abs), key), Some(Map(old(other.abs))))
    ensures Under(base.foot, key) <= Under(old(base.foot), key) + other.repr
    ensures base.repr == old(base.repr) + Under(base.foot, key)
    ensures unchanged(other.repr)
    decreases other.repr, 3
  {
    var n := base.entries[key].node;
    assert base.EntryValid(key);
    DeepMerge(n, other);
    forall k | k in base.entries && k != key
      ensures base.EntryValid(k)
    {
      assert old(base.EntryValid(k));
      base.EntryKept(k);
    }
    base.Refresh(key);
    InstallKeepsOthers(key, old(base.abs), Map(n.abs), old(base.foot), n.repr);
  }

  /** Two nodes' worth of bookkeeping agree except at `key`. */
  ghost predicate SameBut(key: string, abs: Tree, abs': Tree, foot: Feet, foot': Feet) {
    forall k :: k != key ==> At(abs', k) == At(abs, k) && Under(foot', k) == Under(foot, k)
  }

  lemma InstallKeepsOthers(key: string, abs: Tree, v: Value, foot: Feet, s: set<MapNode>)
    ensures SameBut(key, abs, abs[key := v], foot, foot[key := s])
    ensures SameBut(key, abs, abs[key := v], foot, foot - {key})
  {
  }

  /**
   Where both have a submap the base keeps its own; any other entry of `other` is taken over as it
   is, by reference.
   */
  ghost predicate Grafted(was: map<string, Slot>, other: map<string, Slot>, now: map<string, Slot>, todo: set<string>) {
    && now.Keys == was.Keys + (other.Keys - todo)
    && forall k :: k in now ==>
         now[k] == if k in other && k !in todo && !(k in was && was[k].Ref? && other[k].Ref?) then other[k] else was[k]
  }

  lemma GraftStep(
    key: string, todo: set<string>, was: map<string, Slot>, other: map<string, Slot>, now: map<string, Slot>)
    requires key in todo && todo <= other.Keys && Grafted(was, other, now, todo)
    ensures var now' := if key in now && now[key].Ref? && other[key].Ref? then now else now[key := other[key]];
            Grafted(was, other, now', todo - {key})
  {
    assert key in now ==> key in was && now[key] == was[key];
  }

  /** One turn of the loop: brings the entry of `other` at `key` into `base`. */
  method MergeKey(base: MapNode, other: MapNode, key: string)
    requires base.Valid() && other.Valid() && key in other.entries
    requires base !in other.repr && Under(base.foot, key) !! other.repr
    requires forall k :: k in base.foot && k != key ==> base.foot[k] !! Under(other.foot, key)
    modifies base, Under(base.foot, key)
    ensures base.Valid() && base.repr <= old(base.repr) + other.repr
    ensures SameBut(key, old(base.abs), base.abs, old(base.foot), base.foot)
    ensures At(base.abs, key) == MergeEntry(At(old(base.abs), key), At(old(other.abs), key))
    ensures Under(base.foot, key) <= Under(old(base.foot), key) + Under(other.foot, key)
    ensures unchanged(other.repr)
    ensures base.entries == if key in old(base.entries) && old(base.entries)[key].Ref? && old(other.entries)[key].Ref?
                            then old(base.entries) else old(base.entries)[key := old(other.entries)[key]]
    decreases other.repr, 0
  {
    assert other.EntryValid(key);
    assert key in base.entries ==> base.EntryValid(key);
    if key in base.entries && base.entries[key].Ref? && other.entries[key].Ref? {
      MergeSubmap(base, key, other.entries[key].node);
    } else {
      Graft(base, other, key);
    }
  }

  /** Takes the entry of `other` at `key` over as it is. */
  method Graft(base: MapNode, other: MapNode, key: string)
    requires base.Valid() && other.Valid() && key in other.entries && other.EntryValid(key)
    requires key in base.entries ==> base.EntryValid(key) && (base.entries[key].Leaf? || other.entries[key].Leaf?)
    requires base !in other.repr
    requires forall k :: k in base.foot && k != key ==> base.foot[k] !! Under(other.foot, key)
    modifies base
    ensures base.Valid() && base.repr <= old(base.repr) + other.repr
    ensures SameBut(key, old(base.abs), base.abs, old(base.foot), base.foot)
    ensures At(base.abs, key) == MergeEntry(At(old(base.abs), key), At(old(other.abs), key))
    ensures Under(base.foot, key) == Under(old(other.foot), key)
    ensures base.entries == old(base.entries)[key := old(other.entries)[key]]
  {
    match other.entries[key]
    case Ref(n) =>
      base.InstallRef(key, n);
      InstallKeepsOthers(key, old(base.abs), Map(n.abs), old(base.foot), n.repr);
    case Leaf(v) =>
      base.InstallLeaf(key, v);
      InstallKeepsOthers(key, old(base.abs), v, old(base.foot), {});
  }

  /** How far the loop has come: `todo` still holds the entries of before, the rest the merged ones. */
  ghost predicate Progress(todo: set<string>, abs: Tree, was: Tree, other: Tree,
                           foot: Feet, wasFoot: Feet, otherFoot: Feet)
  {
    && (forall k :: k in todo || k !in other ==> At(abs, k) == At(was, k) && Under(foot, k) == Under(wasFoot, k))
    && (forall k :: k in other && k !in todo ==> At(abs, k) == MergeEntry(At(was, k), At(other, k)))
    && KeyByKey(foot, wasFoot, otherFoot)
  }

  lemma ProgressStep(key: string, todo: set<string>, was: Tree, other: Tree, abs: Tree, abs': Tree,
                     wasFoot: Feet, otherFoot: Feet,
                     foot: Feet, foot': Feet)
    requires key in todo && key in other && Progress(todo, abs, was, other, foot, wasFoot, otherFoot)
    requires SameBut(key, abs, abs', foot, foot')
    requires At(abs', key) == MergeEntry(At(abs, key), At(other, key))
    requires Under(foot', key) <= Under(foot, key) + Under(otherFoot, key)
    ensures Progress(todo - {key}, abs', was, other, foot', wasFoot, otherFoot)
  {
    forall k | k in foot'
      ensures foot'[k] <= Under(wasFoot, k) + Under(otherFoot, k)
    {
      assert foot'[k] == Under(foot', k);
      if k != key && k in foot {
        assert foot[k] <= Under(wasFoot, k) + Under(otherFoot, k);
      }
    }
  }

  lemma ProgressDone(abs: Tree, was: Tree, other: Tree,
                     foot: Feet, wasFoot: Feet, otherFoot: Feet)
    requires Progress({}, abs, was, other, foot, wasFoot, otherFoot)
    ensures abs == Merge(was, other)
  {
    forall k
      ensures At(abs, k) == At(Merge(was, other), k)
    {
      MergeAt(was, other, k);
    }
    SameEntries(abs, Merge(was, other));
  }

  /** One turn of the loop, with what it does for the merge as a whole. */
  method MergeNext(base: MapNode, other: MapNode, key: string, ghost todo: set<string>, ghost all: set<MapNode>,
                   ghost was: Tree, ghost foot: Feet, ghost slots: map<string, Slot>)
    requires base.Valid() && other.Valid() && base !in other.repr && key in todo && todo <= other.entries.Keys
    requires all !! other.repr && forall k :: k in foot ==> foot[k] <= all
    requires Progress(todo, base.abs, was, other.abs, base.foot, foot, other.foot)
    requires Grafted(slots, other.entries, base.entries, todo)
    modifies base, Under(foot, key)
    ensures base.Valid() && base.repr <= old(base.repr) + other.repr
    ensures unchanged(other.repr)
    ensures Progress(todo - {key}, base.abs, was, other.abs, base.foot, foot, other.foot)
    ensures Grafted(slots, other.entries, base.entries, todo - {key})
    decreases other.repr, 1
  {
    other.FootInside();
    GraftStep(key, todo, slots, other.entries, base.entries);
    OtherKeysApart(base.foot, foot, other.foot, key, all, other.repr);
    assert Under(base.foot, key) == Under(foot, key);
    MergeKey(base, other, key);
    ProgressStep(key, todo, was, other.abs, old(base.abs), base.abs, foot, other.foot, old(base.foot), base.foot);
  }

  /**
   Merges `other` into `base` in place. Submaps of `other` are grafted by reference;
   only nodes of `base` are written, so `other` keeps its meaning.
   */
  method DeepMerge(base: MapNode, other: MapNode)
    requires base.Valid() && other.Valid() && base.repr !! other.repr
    modifies base.repr
    ensures base.Valid() && base.repr <= old(base.repr) + other.repr
    ensures base.abs == Merge(old(base.abs), old(other.abs))
    ensures Grafted(old(base.entries), old(other.entries), base.entries, {})
    ensures unchanged(other.repr)
    decreases other.repr, 2
  {
    var todo := other.entries.Keys;
    ghost var was, foot, slots := base.abs, base.foot, base.entries;
    base.FootInside();
    while todo != {}
      invariant todo <= other.entries.Keys
      invariant base.Valid() && base.repr <= old(base.repr) + other.repr
      invariant unchanged(other.repr)
      invariant Progress(todo, base.abs, was, other.abs, base.foot, foot, other.foot)
      invariant Grafted(slots, other.entries, base.entries, todo)
    {
      var key :| key in todo;
      MergeNext(base, other, key, todo, old(base.repr), was, foot, slots);
      todo := todo - {key};
    }
    ProgressDone(base.abs, was, other.abs, base.foot, foot, other.foot);
  }
}
