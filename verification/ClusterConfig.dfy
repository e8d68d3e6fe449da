/**
 Loading a cluster file together with the profile files it lists under `root.clusterValues`.
 `ParseClusterValues` accumulates on the heap, `LoadClusterConfig` on values.
 */
module ClusterConfig {
  import opened Wrappers
  import opened Values
  import opened MergeValues
  import opened MapHeap

  datatype Document = Unreadable | Malformed | Parsed(tree: Tree)

  /** The file system as the loaders see it; a missing path cannot be read. */
  type Files = map<string, Document>

  datatype ConfigError =
    | CannotRead(path: string)
    | CannotParse(path: string)
    | NoRoot
    | NoClusterValues
    | BadEntry(entry: Value)

  function Read(files: Files, path: string): Document {
    if path in files then files[path] else Unreadable
  }

  function Load(files: Files, path: string): Result<Tree, ConfigError> {
    match Read(files, path)
    case Unreadable => Err(CannotRead(path))
    case Malformed => Err(CannotParse(path))
    case Parsed(t) => Ok(t)
  }

  /** The `root.clusterValues` list of a cluster file. */
  function Listed(doc: Tree): Result<seq<Value>, ConfigError> {
    if "root" !in doc || !doc["root"].Map? then Err(NoRoot)
    else
      var root := doc["root"].entries;
      if "clusterValues" !in root || !root["clusterValues"].List? then Err(NoClusterValues)
      else Ok(root["clusterValues"].items)
  }

  /** The document without `root.clusterValues`. */
  function Strip(doc: Tree): Tree {
    if "root" in doc && doc["root"].Map? then doc["root" := Map(doc["root"].entries - {"clusterValues"})] else doc
  }

  /** What one list entry contributes: the cluster file itself comes without its list. */
  function Profile(files: Files, path: string, entry: Value): Result<Tree, ConfigError> {
    if !entry.Str? then Err(BadEntry(entry))
    else
      match Load(files, entry.s)
      case Err(e) => Err(e)
      case Ok(t) => Ok(if entry.s == path then Strip(t) else t)
  }

  function FoldProfiles(files: Files, path: string, acc: Tree, items: seq<Value>): Result<Tree, ConfigError>
    decreases |items|
  {
    if items == [] then Ok(acc)
    else
      match Profile(files, path, items[0])
      case Err(e) => Err(e)
      case Ok(t) => FoldProfiles(files, path, Merge(acc, t), items[1..])
  }

  /** What `parseClusterValues` returns. */
  function ParseSpec(files: Files, path: string): Result<Tree, ConfigError> {
    match Load(files, path)
    case Err(e) => Err(e)
    case Ok(doc) =>
      match Listed(doc)
      case Err(e) => Err(e)
      case Ok(items) =>
        match FoldProfiles(files, path, map[], items)
        case Err(e) => Err(e)
        case Ok(acc) => Ok(Merge(acc, Strip(doc)))
  }

  /** What `loadClusterConfig` accumulates: entries that do not load are skipped. */
  function LoadAll(files: Files, acc: Tree, items: seq<Value>): Tree
    decreases |items|
  {
    if items == [] then acc
    else
      LoadAll(files,
              if items[0].Str? && Load(files, items[0].s).Ok? then Merge(acc, Load(files, items[0].s).value) else acc,
              items[1..])
  }

  function LoadSpec(files: Files, path: string): Result<Tree, ConfigError> {
    match Load(files, path)
    case Err(e) => Err(e)
    case Ok(doc) =>
      match Listed(doc)
      case Err(e) => Err(e)
      case Ok(items) => Ok(LoadAll(files, map[], items))
  }

  /** Where a cluster file lists its profiles. */
  const LIST: Path := ["root", "clusterValues"]

  /** `after` lacks the list of `before`, and is otherwise the same at every path. */
  ghost predicate OnlyListGone(before: Tree, after: Tree) {
    && (forall p :: LIST <= p ==> Get(Map(after), p) == None)
    && (forall p :: p < LIST ==> SameKind(Get(Map(before), p), Get(Map(after), p)))
    && (forall p :: !(p <= LIST) && !(LIST <= p) ==> Get(Map(after), p) == Get(Map(before), p))
  }

  /** Both hold a map, or both the same non-map, or neither anything. */
  predicate SameKind(x: Option<Value>, y: Option<Value>) {
    x == y || (x.Some? && y.Some? && x.value.Map? && y.value.Map?)
  }

  lemma StripRemovesOnlyList(doc: Tree)
    ensures OnlyListGone(doc, Strip(doc))
  {
    forall p
      ensures LIST <= p ==> Get(Map(Strip(doc)), p) == None
      ensures p < LIST ==> SameKind(Get(Map(doc), p), Get(Map(Strip(doc)), p))
      ensures !(p <= LIST) && !(LIST <= p) ==> Get(Map(Strip(doc)), p) == Get(Map(doc), p)
    {
      StripAtPath(doc, p);
    }
  }

  lemma StripAtPath(doc: Tree, p: Path)
    ensures LIST <= p ==> Get(Map(Strip(doc)), p) == None
    ensures p < LIST ==> SameKind(Get(Map(doc), p), Get(Map(Strip(doc)), p))
    ensures !(p <= LIST) && !(LIST <= p) ==> Get(Map(Strip(doc)), p) == Get(Map(doc), p)
  {
    if p != [] && p[0] == "root" {
      PrefixTail(p, LIST);
      PrefixTail(LIST, p);
      if "root" in doc && doc["root"].Map? && p[1..] != [] {
        var root := doc["root"].entries;
        assert Strip(doc)["root"] == Map(root - {"clusterValues"});
        if p[1] == "clusterValues" {
          assert p == LIST + p[2..];
        } else {
          assert Get(Map(root - {"clusterValues"}), p[1..]) == Get(Map(root), p[1..]);
        }
      }
    }
  }

  /** Deletes `root.clusterValues` in place. */
  method StripClusterValues(n: MapNode)
    requires n.Valid()
    modifies n.repr
    ensures n.Valid() && n.repr == old(n.repr)
    ensures n.abs == Strip(old(n.abs)) && OnlyListGone(old(n.abs), n.abs)
  {
    StripRemovesOnlyList(n.abs);
    if "root" in n.entries && n.entries["root"].Ref? {
      var root := n.entries["root"].node;
      assert n.EntryValid("root");
      root.Remove("clusterValues");
      forall k | k in n.entries && k != "root"
        ensures n.EntryValid(k)
      {
        assert old(n.EntryValid(k));
        n.EntryKept(k);
      }
      n.Refresh("root");
    } else {
      assert "root" in n.entries ==> n.EntryValid("root");
    }
  }

  method DecodeProfile(doc: Tree, isClusterFile: bool) returns (n: MapNode)
    ensures fresh(n.repr) && n.Valid()
    ensures n.abs == if isClusterFile then Strip(doc) else doc
  {
    n := Decode(doc);
    if isClusterFile {
      StripClusterValues(n);
    }
  }

  /** Every value of the cluster file but its list is in the result, at its own path. */
  ghost predicate KeepsOwnValues(doc: Tree, result: Tree) {
    forall p :: !(LIST <= p) && Get(Map(doc), p).Some? && !Get(Map(doc), p).value.Map? ==>
      Get(Map(result), p) == Get(Map(doc), p)
  }

  lemma MergeKeepsOwnValues(acc: Tree, doc: Tree)
    ensures KeepsOwnValues(doc, Merge(acc, Strip(doc)))
  {
    forall p | !(LIST <= p) && Get(Map(doc), p).Some? && !Get(Map(doc), p).value.Map?
      ensures Get(Map(Merge(acc, Strip(doc))), p) == Get(Map(doc), p)
    {
      StripAtPath(doc, p);
      MergeAtPath(acc, Strip(doc), p);
    }
  }

  /** Accumulates the listed profiles, then the cluster file itself, into one map on the heap. */
  method ParseClusterValues(files: Files, path: string) returns (r: Result<MapNode, ConfigError>)
    ensures r.Err? ==> ParseSpec(files, path) == Err(r.error)
    ensures r.Ok? ==> fresh(r.value.repr) && r.value.Valid() && ParseSpec(files, path) == Ok(r.value.abs)
    ensures r.Ok? ==> path in files && files[path].Parsed? && KeepsOwnValues(files[path].tree, r.value.abs)
  {
    var loaded := Load(files, path);
    if loaded.Err? {
      return Err(loaded.error);
    }
    var listed := Listed(loaded.value);
    if listed.Err? {
      return Err(listed.error);
    }
    var items := listed.value;
    var clusterValues := new MapNode();
    var i := 0;
    while i < |items|
      invariant 0 <= i <= |items|
      invariant fresh(clusterValues.repr) && clusterValues.Valid()
      invariant FoldProfiles(files, path, map[], items) == FoldProfiles(files, path, clusterValues.abs, items[i..])
    {
      if !items[i].Str? {
        return Err(BadEntry(items[i]));
      }
      var filePath := items[i].s;
      var file := Load(files, filePath);
      if file.Err? {
        return Err(file.error);
      }
      var fileValues := DecodeProfile(file.value, filePath == path);
      assert items[i..][1..] == items[i + 1..];
      DeepMerge(clusterValues, fileValues);
      i := i + 1;
    }
    var own := DecodeProfile(loaded.value, true);
    MergeKeepsOwnValues(clusterValues.abs, loaded.value);
    DeepMerge(clusterValues, own);
    return Ok(clusterValues);
  }

  method LoadClusterConfig(files: Files, path: string) returns (r: Result<Tree, ConfigError>)
    ensures r == LoadSpec(files, path)
  {
    var loaded := Load(files, path);
    if loaded.Err? {
      return Err(loaded.error);
    }
    var listed := Listed(loaded.value);
    if listed.Err? {
      return Err(listed.error);
    }
    var items := listed.value;
    var returnValues: Tree := map[];
    var i := 0;
    while i < |items|
      invariant 0 <= i <= |items|
      invariant LoadAll(files, map[], items) == LoadAll(files, returnValues, items[i..])
    {
      assert items[i..][1..] == items[i + 1..];
      if items[i].Str? {
        var profile := Load(files, items[i].s);
        if profile.Ok? {
          returnValues := MergeValuesMap(returnValues, profile.value);
        }
      }
      i := i + 1;
    }
    return Ok(returnValues);
  }

  // What the loaders compute

  predicate Loads(files: Files, path: string, items: seq<Value>) {
    forall i :: 0 <= i < |items| ==> Profile(files, path, items[i]).Ok?
  }

  function Profiles(files: Files, path: string, items: seq<Value>): (docs: seq<Tree>)
    requires Loads(files, path, items)
    ensures |docs| == |items|
  {
    seq(|items|, i requires 0 <= i < |items| => Profile(files, path, items[i]).value)
  }

  lemma {:induction false} FoldIsMergeAll(files: Files, path: string, acc: Tree, items: seq<Value>)
    ensures FoldProfiles(files, path, acc, items).Ok? <==> Loads(files, path, items)
    ensures Loads(files, path, items) ==>
              FoldProfiles(files, path, acc, items) == Ok(MergeAll(acc, Profiles(files, path, items)))
    decreases |items|
  {
    if items != [] {
      match Profile(files, path, items[0])
      case Err(_) =>
      case Ok(t) =>
        FoldIsMergeAll(files, path, Merge(acc, t), items[1..]);
        if Loads(files, path, items[1..]) {
          forall i | 0 <= i < |items|
            ensures Profile(files, path, items[i]).Ok?
          {
            if i > 0 {
              assert items[i] == items[1..][i - 1];
            }
          }
          assert Profiles(files, path, items)[1..] == Profiles(files, path, items[1..]);
        }
    }
  }

  /** Parsing succeeds exactly when the file, its list and every listed profile are there. */
  lemma ParseSucceedsExactly(files: Files, path: string)
    ensures ParseSpec(files, path).Ok? <==>
              Load(files, path).Ok? && Listed(Load(files, path).value).Ok? &&
              Loads(files, path, Listed(Load(files, path).value).value)
    ensures ParseSpec(files, path).Ok? ==>
              var doc := Load(files, path).value;
              ParseSpec(files, path).value ==
              Merge(MergeAll(map[], Profiles(files, path, Listed(doc).value)), Strip(doc))
  {
    if Load(files, path).Ok? && Listed(Load(files, path).value).Ok? {
      FoldIsMergeAll(files, path, map[], Listed(Load(files, path).value).value);
    }
  }

  /** Which entry of the list, if any, cannot be loaded first, and why. */
  predicate FailsFirst(files: Files, items: seq<Value>, i: nat, e: ConfigError) {
    && i < |items|
    && (forall k :: 0 <= k < i ==> LoadsEntry(files, items[k]))
    && match items[i]
       case Str(s) =>
         if s !in files || files[s].Unreadable? then e == CannotRead(s) else files[s].Malformed? && e == CannotParse(s)
       case _ => e == BadEntry(items[i])
  }

  predicate LoadsEntry(files: Files, entry: Value) {
    entry.Str? && entry.s in files && files[entry.s].Parsed?
  }

  lemma {:induction false} FoldFails(files: Files, path: string, acc: Tree, items: seq<Value>, i: nat, e: ConfigError)
    requires FailsFirst(files, items, i, e)
    ensures FoldProfiles(files, path, acc, items) == Err(e)
    decreases |items|
  {
    if i > 0 {
      assert LoadsEntry(files, items[0]);
      var t := Profile(files, path, items[0]).value;
      forall k | 0 <= k < i - 1
        ensures LoadsEntry(files, items[1..][k])
      {
        assert items[1..][k] == items[k + 1];
      }
      assert items[1..][i - 1] == items[i];
      FoldFails(files, path, Merge(acc, t), items[1..], i - 1, e);
    }
  }

  /** The errors of the cluster file itself, told from the files and the paths in the document. */
  predicate OwnError(files: Files, path: string, e: ConfigError) {
    if path !in files || files[path].Unreadable? then e == CannotRead(path)
    else if files[path].Malformed? then e == CannotParse(path)
    else
      var root, list := Get(Map(files[path].tree), ["root"]), Get(Map(files[path].tree), LIST);
      if root.None? || !root.value.Map? then e == NoRoot
      else (list.None? || !list.value.List?) && e == NoClusterValues
  }

  lemma ListedAtPath(doc: Tree)
    ensures Get(Map(doc), ["root"]) == At(doc, "root")
    ensures Get(Map(doc), LIST) ==
            if "root" in doc && doc["root"].Map? then At(doc["root"].entries, "clusterValues") else None
  {
    assert ["root"][1..] == [] && ["clusterValues"][1..] == [];
    GetExtend(Map(doc), ["root"], ["clusterValues"]);
    assert LIST == ["root"] + ["clusterValues"];
  }

  /** Both loaders fail alike over the cluster file itself. */
  lemma OwnErrors(files: Files, path: string, e: ConfigError)
    requires OwnError(files, path, e)
    ensures ParseSpec(files, path) == Err(e) && LoadSpec(files, path) == Err(e)
  {
    if path in files && files[path].Parsed? {
      ListedAtPath(files[path].tree);
    }
  }

  /** The first loader also fails over the first entry that cannot be loaded; the second one never does. */
  lemma EntryErrors(files: Files, path: string, items: seq<Value>, i: nat, e: ConfigError)
    requires path in files && files[path].Parsed? && Get(Map(files[path].tree), LIST) == Some(List(items))
    requires FailsFirst(files, items, i, e)
    ensures ParseSpec(files, path) == Err(e) && LoadSpec(files, path).Ok?
  {
    ListedAtPath(files[path].tree);
    FoldFails(files, path, map[], items, i, e);
  }

  /** The documents of the entries that are texts and load, in the order of the list. */
  function Loaded(files: Files, items: seq<Value>): seq<Tree> {
    if items == [] then []
    else (if LoadsEntry(files, items[0]) then [files[items[0].s].tree] else []) + Loaded(files, items[1..])
  }

  lemma {:induction false} LoadAllFolds(files: Files, acc: Tree, items: seq<Value>)
    ensures LoadAll(files, acc, items) == MergeAll(acc, Loaded(files, items))
    decreases |items|
  {
    if items != [] {
      var rest := Loaded(files, items[1..]);
      if LoadsEntry(files, items[0]) {
        var t := files[items[0].s].tree;
        assert ([t] + rest)[1..] == rest;
        LoadAllFolds(files, Merge(acc, t), items[1..]);
      } else {
        assert [] + rest == rest;
        LoadAllFolds(files, acc, items[1..]);
      }
    }
  }

  /** Entries that do not load leave no trace, wherever they stand. */
  lemma SkippedEntries(files: Files, path: string, items: seq<Value>)
    requires path in files && files[path].Parsed? && Get(Map(files[path].tree), LIST) == Some(List(items))
    ensures LoadSpec(files, path) == Ok(MergeAll(map[], Loaded(files, items)))
  {
    ListedAtPath(files[path].tree);
    LoadAllFolds(files, map[], items);
  }

  /** One entry at a time: it adds its document at the end, or nothing. */
  lemma {:induction false} LoadedAppend(files: Files, items: seq<Value>, entry: Value)
    ensures Loaded(files, items + [entry]) ==
            Loaded(files, items) + (if LoadsEntry(files, entry) then [files[entry.s].tree] else [])
    decreases |items|
  {
    if items == [] {
      assert ([] + [entry])[1..] == [] && [] + [entry] == [entry];
    } else {
      assert (items + [entry])[0] == items[0] && (items + [entry])[1..] == items[1..] + [entry];
      LoadedAppend(files, items[1..], entry);
    }
  }

  lemma {:induction false} FoldAgreesWithLoadAll(files: Files, path: string, acc: Tree, items: seq<Value>)
    requires Loads(files, path, items) && Str(path) !in items
    ensures FoldProfiles(files, path, acc, items) == Ok(LoadAll(files, acc, items))
    decreases |items|
  {
    if items != [] {
      assert items[0] in items;
      var t := Profile(files, path, items[0]).value;
      FoldAgreesWithLoadAll(files, path, Merge(acc, t), items[1..]);
    }
  }

  /** The two loaders agree up to the cluster file's own values, which only the first one adds. */
  lemma ParseExtendsLoad(files: Files, path: string)
    requires ParseSpec(files, path).Ok?
    requires Str(path) !in Listed(Load(files, path).value).value
    ensures LoadSpec(files, path).Ok?
    ensures ParseSpec(files, path) == Ok(Merge(LoadSpec(files, path).value, Strip(Load(files, path).value)))
  {
    ParseSucceedsExactly(files, path);
    FoldAgreesWithLoadAll(files, path, map[], Listed(Load(files, path).value).value);
  }

  // A cluster file that lists itself

  function Without(items: seq<Value>, x: Value): (r: seq<Value>)
    ensures x !in r
  {
    if items == [] then [] else (if items[0] == x then [] else [items[0]]) + Without(items[1..], x)
  }

  /** The same cluster file with every mention of itself taken off its list. */
  function Unlisted(doc: Tree, path: string): Tree
    requires Listed(doc).Ok?
  {
    var root := doc["root"].entries;
    doc["root" := Map(root["clusterValues" := List(Without(root["clusterValues"].items, Str(path)))])]
  }

  lemma {:induction false} SelfListingFold(
    files: Files, path: string, doc: Tree, files': Files, l: Tree, r: Tree, items: seq<Value>)
    requires Load(files, path) == Ok(doc)
    requires forall p :: p != path ==> Read(files', p) == Read(files, p)
    requires Merge(l, Strip(doc)) == Merge(r, Strip(doc))
    ensures var a := FoldProfiles(files, path, l, items);
            var b := FoldProfiles(files', path, r, Without(items, Str(path)));
            if a.Ok? then b.Ok? && Merge(a.value, Strip(doc)) == Merge(b.value, Strip(doc)) else a == b
    decreases |items|
  {
    if items != [] {
      if items[0] == Str(path) {
        MergeAbsorbs(l, Strip(doc));
        assert Without(items, Str(path)) == Without(items[1..], Str(path));
        SelfListingFold(files, path, doc, files', Merge(l, Strip(doc)), r, items[1..]);
      } else {
        var rest := Without(items[1..], Str(path));
        assert Without(items, Str(path)) == [items[0]] + rest;
        assert ([items[0]] + rest)[1..] == rest;
        assert Profile(files, path, items[0]) == Profile(files', path, items[0]);
        if Profile(files, path, items[0]).Ok? {
          var t := Profile(files, path, items[0]).value;
          MergeCongruence(l, r, t, Strip(doc));
          SelfListingFold(files, path, doc, files', Merge(l, t), Merge(r, t), items[1..]);
        }
      }
    }
  }

  /** A cluster file may list itself, any number of times and anywhere: nothing changes. */
  lemma SelfListingIrrelevant(files: Files, path: string)
    requires Load(files, path).Ok? && Listed(Load(files, path).value).Ok?
    ensures ParseSpec(files[path := Parsed(Unlisted(Load(files, path).value, path))], path) == ParseSpec(files, path)
  {
    var doc := Load(files, path).value;
    var doc' := Unlisted(doc, path);
    var files' := files[path := Parsed(doc')];
    var items := Listed(doc).value;
    assert Strip(doc') == Strip(doc) by {
      var root := doc["root"].entries;
      assert root["clusterValues" := List(Without(items, Str(path)))] - {"clusterValues"} == root - {"clusterValues"};
      assert Strip(doc') == doc["root" := Map(root - {"clusterValues"})];
    }
    SelfListingFold(files, path, doc, files', map[], map[], items);
  }

  lemma {:induction false} FoldSplit(files: Files, path: string, acc: Tree, xs: seq<Value>, ys: seq<Value>)
    ensures FoldProfiles(files, path, acc, xs + ys) ==
            match FoldProfiles(files, path, acc, xs)
            case Err(e) => Err(e)
            case Ok(t) => FoldProfiles(files, path, t, ys)
    decreases |xs|
  {
    if xs == [] {
      assert xs + ys == ys;
    } else {
      assert (xs + ys)[0] == xs[0] && (xs + ys)[1..] == xs[1..] + ys;
      if Profile(files, path, xs[0]).Ok? {
        FoldSplit(files, path, Merge(acc, Profile(files, path, xs[0]).value), xs[1..], ys);
      }
    }
  }

  lemma {:induction false} FoldCongruence(files: Files, path: string, l: Tree, r: Tree, items: seq<Value>, p: Tree)
    requires Merge(l, p) == Merge(r, p)
    ensures var a, b := FoldProfiles(files, path, l, items), FoldProfiles(files, path, r, items);
            if a.Ok? then b.Ok? && Merge(a.value, p) == Merge(b.value, p) else a == b
    decreases |items|
  {
    if items != [] && Profile(files, path, items[0]).Ok? {
      var t := Profile(files, path, items[0]).value;
      MergeCongruence(l, r, t, p);
      FoldCongruence(files, path, Merge(l, t), Merge(r, t), items[1..], p);
    }
  }

  /** Of a profile listed several times only the last mention counts, errors included. */
  lemma RepeatedProfile(
    files: Files, path: string, acc: Tree, before: seq<Value>, between: seq<Value>, after: seq<Value>, x: Value)
    requires Profile(files, path, x).Ok?
    ensures FoldProfiles(files, path, acc, before + [x] + between + [x] + after) ==
            FoldProfiles(files, path, acc, before + between + [x] + after)
  {
    var tail := [x] + after;
    var p := Profile(files, path, x).value;
    assert before + [x] + between + [x] + after == before + ([x] + (between + tail));
    assert before + between + [x] + after == before + (between + tail);
    FoldSplit(files, path, acc, before, [x] + (between + tail));
    FoldSplit(files, path, acc, before, between + tail);
    if FoldProfiles(files, path, acc, before).Ok? {
      var a := FoldProfiles(files, path, acc, before).value;
      assert ([x] + (between + tail))[1..] == between + tail;
      MergeAbsorbs(a, p);
      FoldCongruence(files, path, Merge(a, p), a, between, p);
      FoldSplit(files, path, Merge(a, p), between, tail);
      FoldSplit(files, path, a, between, tail);
      assert tail[0] == x && tail[1..] == after;
    }
  }
}
