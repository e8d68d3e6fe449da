/** Which RKE2 versions to go through from the current one to the target. */
module UpgradePath {
  import opened Sequences
  import opened DottedKeys
  import opened Decimals

  /** A release of RKE2 1.x: its minor number, and what follows that in its name. */
  datatype Release = Release(minor: nat, patch: string)

  /** The name of a release, such as `v1.30.14+rke2r2`. */
  function Version(r: Release): string {
    MinorText(r.minor) + "." + r.patch
  }

  function MinorText(minor: nat): string {
    "v1." + Digits(minor)
  }

  const RELEASES: seq<Release> := [
    Release(30, "14+rke2r2"),
    Release(31, "13+rke2r1"),
    Release(32, "9+rke2r1"),
    Release(33, "5+rke2r1"),
    Release(34, "1+rke2r1"),
    Release(34, "4+rke2r1")
  ]

  /** The names of a list of releases, as the planner sees them. */
  function Versions(releases: seq<Release>): (all: seq<string>)
    ensures |all| == |releases| && forall i :: 0 <= i < |all| ==> all[i] == Version(releases[i])
  {
    seq(|releases|, i requires 0 <= i < |releases| => Version(releases[i]))
  }

  predicate WellFormed(r: Release) {
    10 <= r.minor < 100 && '.' !in r.patch && 'v' !in r.patch && '-' !in r.patch
  }

  /** No release is listed twice, and none is more than one minor release after the one before. */
  ghost predicate Stepwise(releases: seq<Release>) {
    && (forall i :: 0 <= i < |releases| ==> WellFormed(releases[i]))
    && (forall i, j :: 0 <= i < j < |releases| ==> releases[i] != releases[j])
    && (forall i, j :: 0 <= i < j < |releases| && j == i + 1 ==>
          releases[i].minor <= releases[j].minor <= releases[i].minor + 1)
  }

  lemma ReleasesStepwise()
    ensures Stepwise(RELEASES)
  {
    var rs := RELEASES;
    assert |rs| == 6;
    forall i | 0 <= i < |rs|
      ensures WellFormed(rs[i])
    {
      if i < 3 {
        EarlyReleasesWellFormed(i);
      } else {
        LateReleasesWellFormed(i);
      }
    }
    LastReleasesDiffer();
    assert rs[0].minor == 30 && rs[1].minor == 31 && rs[2].minor == 32;
    assert rs[3].minor == 33 && rs[4].minor == 34 && rs[5].minor == 34;
  }

  lemma EarlyReleasesWellFormed(i: nat)
    requires i < 3
    ensures WellFormed(RELEASES[i])
  {
    assert RELEASES[i].patch == if i == 0 then "14+rke2r2" else if i == 1 then "13+rke2r1" else "9+rke2r1";
  }

  lemma LateReleasesWellFormed(i: nat)
    requires 3 <= i < 6
    ensures WellFormed(RELEASES[i])
  {
    assert RELEASES[i].patch == if i == 3 then "5+rke2r1" else if i == 4 then "1+rke2r1" else "4+rke2r1";
  }

  lemma LastReleasesDiffer()
    ensures RELEASES[4] != RELEASES[5]
  {
    assert RELEASES[4].patch[0] == '1' && RELEASES[5].patch[0] == '4';
  }

  /** The major and minor part of a version, such as `v1.30`. */
  function MinorOf(version: string): string {
    var parts := Split(version, '.');
    if |parts| >= 2 then parts[0] + "." + parts[1] else version
  }

  predicate Contains(s: string, sub: string) {
    exists i :: 0 <= i <= |s| - |sub| && s[i..][..|sub|] == sub
  }

  function FirstEqual(all: seq<string>, v: string, from: nat): int
    requires from <= |all|
    decreases |all| - from
  {
    if from == |all| then -1 else if all[from] == v then from else FirstEqual(all, v, from + 1)
  }

  function FirstLike(all: seq<string>, minor: string, from: nat): int
    requires from <= |all|
    decreases |all| - from
  {
    if from == |all| then -1 else if Contains(all[from], minor) then from else FirstLike(all, minor, from + 1)
  }

  function LastLike(all: seq<string>, minor: string, to: nat): int
    requires to <= |all|
  {
    if to == 0 then -1 else if Contains(all[to - 1], minor) then to - 1 else LastLike(all, minor, to - 1)
  }

  /** The listed position of `current`, or that of the first version of its minor release, or -1. */
  function Start(all: seq<string>, current: string): int {
    if current in all then FirstEqual(all, current, 0) else FirstLike(all, MinorOf(current), 0)
  }

  /** The listed position of `target`, or that of the last version of its minor release, or -1. */
  function End(all: seq<string>, target: string): int {
    if target in all then FirstEqual(all, target, 0) else LastLike(all, MinorOf(target), |all|)
  }

  lemma {:induction false} FirstEqualMeans(all: seq<string>, v: string, from: nat)
    requires from <= |all|
    ensures var i := FirstEqual(all, v, from);
            if v in all[from..] then from <= i < |all| && all[i] == v && v !in all[from..i] else i == -1
    decreases |all| - from
  {
    if from < |all| && all[from] != v {
      FirstEqualMeans(all, v, from + 1);
      assert all[from..] == [all[from]] + all[from + 1..];
      var i := FirstEqual(all, v, from + 1);
      if v in all[from + 1..] {
        assert all[from..i] == [all[from]] + all[from + 1..i];
      }
    }
  }

  lemma {:induction false} FirstLikeMeans(all: seq<string>, minor: string, from: nat)
    requires from <= |all|
    ensures var i := FirstLike(all, minor, from);
            if i == -1 then forall j :: from <= j < |all| ==> !Contains(all[j], minor)
            else from <= i < |all| && Contains(all[i], minor) && forall j :: from <= j < i ==> !Contains(all[j], minor)
    decreases |all| - from
  {
    if from < |all| && !Contains(all[from], minor) {
      FirstLikeMeans(all, minor, from + 1);
    }
  }

  lemma {:induction false} LastLikeMeans(all: seq<string>, minor: string, to: nat)
    requires to <= |all|
    ensures var i := LastLike(all, minor, to);
            if i == -1 then forall j :: 0 <= j < to ==> !Contains(all[j], minor)
            else 0 <= i < to && Contains(all[i], minor) && forall j :: i < j < to ==> !Contains(all[j], minor)
  {
    if to > 0 && !Contains(all[to - 1], minor) {
      LastLikeMeans(all, minor, to - 1);
    }
  }

  /** The versions after the start, up to and including the end. */
  function PathBetween(all: seq<string>, start: int, end: int): seq<string>
    requires -1 <= start < |all| && -1 <= end < |all|
  {
    var first := start + 1;
    var last := if end == -1 then |all| - 1 else end;
    if first <= last then all[first..last + 1] else []
  }

  lemma StartEndInRange(all: seq<string>, current: string, target: string)
    ensures -1 <= Start(all, current) < |all| && -1 <= End(all, target) < |all|
  {
    FirstEqualMeans(all, current, 0);
    FirstEqualMeans(all, target, 0);
    FirstLikeMeans(all, MinorOf(current), 0);
    LastLikeMeans(all, MinorOf(target), |all|);
    assert all[0..] == all;
  }

  function Path(all: seq<string>, current: string, target: string): seq<string> {
    StartEndInRange(all, current, target);
    PathBetween(all, Start(all, current), End(all, target))
  }

  lemma {:induction false} FirstEqualFrom(all: seq<string>, v: string, i: nat, from: nat)
    requires from <= i < |all| && all[i] == v && forall j :: from <= j < i ==> all[j] != v
    ensures FirstEqual(all, v, from) == i
    decreases i - from
  {
    if from < i {
      FirstEqualFrom(all, v, i, from + 1);
    }
  }

  lemma FirstEqualAt(all: seq<string>, v: string, i: nat)
    requires i < |all| && all[i] == v && v !in all[..i]
    ensures FirstEqual(all, v, 0) == i
  {
    forall j | 0 <= j < i
      ensures all[j] != v
    {
      assert all[j] == all[..i][j];
    }
    FirstEqualFrom(all, v, i, 0);
  }

  method FindStart(all: seq<string>, current: string) returns (startIdx: int)
    ensures startIdx == Start(all, current)
  {
    var currentMinor := MinorOf(current);
    startIdx := -1;
    for i := 0 to |all|
      invariant current !in all[..i]
      invariant startIdx == -1 ==> FirstLike(all, currentMinor, 0) == FirstLike(all, currentMinor, i)
      invariant startIdx != -1 ==> startIdx == FirstLike(all, currentMinor, 0)
    {
      if all[i] == current {
        FirstEqualAt(all, current, i);
        return i;
      }
      if Contains(all[i], currentMinor) && startIdx == -1 {
        startIdx := i;
      }
      assert all[..i + 1] == all[..i] + [all[i]];
    }
    assert all[..|all|] == all;
  }

  method FindEnd(all: seq<string>, target: string) returns (endIdx: int)
    ensures endIdx == End(all, target)
  {
    var targetMinor := MinorOf(target);
    endIdx := -1;
    for i := 0 to |all|
      invariant target !in all[..i]
      invariant endIdx == LastLike(all, targetMinor, i)
    {
      if all[i] == target {
        FirstEqualAt(all, target, i);
        return i;
      }
      if Contains(all[i], targetMinor) {
        endIdx := i;
      }
      assert all[..i + 1] == all[..i] + [all[i]];
    }
    assert all[..|all|] == all;
  }

  method DetermineUpgradePath(all: seq<string>, current: string, target: string) returns (path: seq<string>)
    ensures path == Path(all, current, target)
  {
    StartEndInRange(all, current, target);
    var startIdx := FindStart(all, current);
    if startIdx == -1 {
      startIdx := 0;
    } else {
      startIdx := startIdx + 1;
    }
    var endIdx := FindEnd(all, target);
    if endIdx == -1 {
      endIdx := |all| - 1;
    }
    path := [];
    if startIdx <= endIdx {
      path := all[startIdx..endIdx + 1];
    }
  }

  /** Between two listed versions the path is exactly what lies after the one up to the other. */
  lemma ListedPath(all: seq<string>, i: nat, j: nat)
    requires i < |all| && j < |all| && Distinct(all)
    ensures Path(all, all[i], all[j]) == if i < j then all[i + 1..j + 1] else []
  {
    FirstEqualAt(all, all[i], i);
    FirstEqualAt(all, all[j], j);
  }

  /** From an unlisted version of a listed minor release it starts after that release's first version. */
  lemma UnlistedPath(all: seq<string>, current: string, j: nat, k: nat)
    requires j < |all| && Distinct(all) && current !in all
    requires k < |all| && Contains(all[k], MinorOf(current))
    requires forall m :: 0 <= m < k ==> !Contains(all[m], MinorOf(current))
    ensures Path(all, current, all[j]) == if k < j then all[k + 1..j + 1] else []
  {
    FirstEqualAt(all, all[j], j);
    FirstLikeMeans(all, MinorOf(current), 0);
  }

  /** `v` is at `i` and nowhere before. */
  predicate FirstAt(all: seq<string>, v: string, i: int) {
    0 <= i < |all| && all[i] == v && forall j :: 0 <= j < i ==> all[j] != v
  }

  /** Where the search for the current version ends: at it, or at the first version of its minor release, or at -1. */
  predicate Starts(all: seq<string>, current: string, i: int) {
    var minor := MinorOf(current);
    if current in all then FirstAt(all, current, i)
    else if i == -1 then forall j :: 0 <= j < |all| ==> !Contains(all[j], minor)
    else 0 <= i < |all| && Contains(all[i], minor) && forall j :: 0 <= j < i ==> !Contains(all[j], minor)
  }

  /** Where the path ends: at the target, or at the last version of its minor release, or at the end of the list. */
  predicate Ends(all: seq<string>, target: string, i: int) {
    var minor := MinorOf(target);
    if target in all then FirstAt(all, target, i)
    else
      || (0 <= i < |all| && Contains(all[i], minor) && forall j :: i < j < |all| ==> !Contains(all[j], minor))
      || (i == |all| - 1 && forall j :: 0 <= j < |all| ==> !Contains(all[j], minor))
  }

  /** For any two versions the path is the stretch after the one position up to the other. */
  lemma PathExactly(all: seq<string>, current: string, target: string, i: int, j: int)
    requires Starts(all, current, i) && Ends(all, target, j)
    ensures Path(all, current, target) == if i < j then all[i + 1..j + 1] else []
  {
    StartExactly(all, current, i);
    EndExactly(all, target, j);
    BetweenExactly(all, i, End(all, target), j);
    StartEndInRange(all, current, target);
  }

  lemma BetweenExactly(all: seq<string>, i: int, end: int, j: int)
    requires -1 <= i < |all| && -1 <= end < |all| && ((0 <= j && end == j) || (end == -1 && j == |all| - 1))
    ensures PathBetween(all, i, end) == if i < j then all[i + 1..j + 1] else []
  {
  }

  lemma StartExactly(all: seq<string>, current: string, i: int)
    requires Starts(all, current, i)
    ensures Start(all, current) == i
  {
    if current in all {
      FirstEqualFrom(all, current, i, 0);
    } else {
      FirstLikeMeans(all, MinorOf(current), 0);
    }
  }

  lemma EndExactly(all: seq<string>, target: string, i: int)
    requires Ends(all, target, i)
    ensures (0 <= i && End(all, target) == i) || (End(all, target) == -1 && i == |all| - 1)
  {
    if target in all {
      FirstEqualFrom(all, target, i, 0);
    } else {
      LastLikeMeans(all, MinorOf(target), |all|);
    }
  }

  /** The minor release of a version is what comes before its second dot, or all of it if there is none. */
  lemma MinorOfMeans(a: string, b: string, rest: string)
    requires '.' !in a && '.' !in b
    ensures MinorOf(a) == a && MinorOf(a + "." + b) == a + "." + b
    ensures MinorOf(a + "." + b + "." + rest) == a + "." + b
  {
    SplitPart(a, b, '.');
    SplitPart(b, rest, '.');
    SplitPart(a, b + "." + rest, '.');
    assert a + "." + b + "." + rest == a + "." + (b + "." + rest);
  }

  // The repository's list

  /** The planner reads the minor release back from a name, whatever follows it there. */
  lemma SplitVersion(r: Release)
    ensures Split(Version(r), '.') == ["v1", Digits(r.minor)] + Split(r.patch, '.')
    ensures MinorOf(Version(r)) == MinorText(r.minor)
  {
    var rest := Digits(r.minor) + "." + r.patch;
    assert Version(r) == "v1" + "." + rest;
    SplitPart("v1", rest, '.');
    SplitPart(Digits(r.minor), r.patch, '.');
    assert "v1" + "." + Digits(r.minor) == MinorText(r.minor);
  }

  lemma TwoDigits(n: nat)
    requires 10 <= n < 100
    ensures |Digits(n)| == 2
  {
    assert |Digits(n / 10)| == 1;
  }

  lemma DigitsInjective(a: nat, b: nat)
    requires Digits(a) == Digits(b)
    ensures a == b
  {
    DigitsRoundTrip(a);
    DigitsRoundTrip(b);
  }

  /** Searching for the text of a two-digit minor release finds the versions of that release only. */
  lemma ContainsMinorExactly(r: Release, m: nat)
    requires 10 <= r.minor < 100 && 10 <= m < 100 && 'v' !in r.patch
    ensures Contains(Version(r), MinorText(m)) <==> r.minor == m
  {
    TwoDigits(r.minor);
    TwoDigits(m);
    var s, sub := Version(r), MinorText(m);
    if r.minor == m {
      assert s[0..][..|sub|] == sub;
    }
    if i :| 0 <= i <= |s| - |sub| && s[i..][..|sub|] == sub {
      assert sub[0] == 'v' && s[i] == s[i..][..|sub|][0];
      assert s == ['v'] + ("1." + Digits(r.minor) + "." + r.patch);
      assert i == 0;
      assert Digits(m) == sub[3..] == s[3..5] == Digits(r.minor);
      DigitsInjective(m, r.minor);
    }
  }

  lemma VersionsDistinct(releases: seq<Release>)
    requires Stepwise(releases)
    ensures Distinct(Versions(releases))
  {
    forall i, j | 0 <= i < j < |releases|
      ensures Version(releases[i]) != Version(releases[j])
    {
      VersionInjective(releases[i], releases[j]);
    }
  }

  lemma VersionInjective(a: Release, b: Release)
    ensures Version(a) == Version(b) ==> a == b
  {
    SplitVersion(a);
    SplitVersion(b);
    if Version(a) == Version(b) {
      var parts := Split(Version(a), '.');
      assert parts[1] == Digits(a.minor) == Digits(b.minor);
      DigitsInjective(a.minor, b.minor);
      assert parts[2..] == Split(a.patch, '.') == Split(b.patch, '.');
      JoinSplit(a.patch, '.');
      JoinSplit(b.patch, '.');
    }
  }

  lemma MinorTextInjective(a: nat, b: nat)
    requires MinorText(a) == MinorText(b)
    ensures a == b
  {
    assert Digits(a) == MinorText(a)[3..] == MinorText(b)[3..] == Digits(b);
    DigitsInjective(a, b);
  }

  /** The minor release of a version is `minor` or the one after it. */
  predicate SameOrNext(minor: nat, version: string) {
    MinorOf(version) == MinorText(minor) || MinorOf(version) == MinorText(minor + 1)
  }

  predicate MinorListed(releases: seq<Release>, m: nat) {
    exists i :: 0 <= i < |releases| && releases[i].minor == m
  }

  /** Where the path from a version of a listed minor release begins. */
  lemma StartOfListedMinor(releases: seq<Release>, current: string, m: nat) returns (k: nat)
    requires Stepwise(releases) && MinorOf(current) == MinorText(m) && MinorListed(releases, m)
    ensures k < |releases| && Start(Versions(releases), current) == k && releases[k].minor == m
  {
    var all := Versions(releases);
    if current in all {
      FirstEqualMeans(all, current, 0);
      assert all[0..] == all;
      k := FirstEqual(all, current, 0);
      assert WellFormed(releases[k]);
      SplitVersion(releases[k]);
      MinorTextInjective(releases[k].minor, m);
    } else {
      FirstLikeMeans(all, MinorText(m), 0);
      forall i | 0 <= i < |releases|
        ensures Contains(all[i], MinorText(m)) <==> releases[i].minor == m
      {
        assert WellFormed(releases[i]);
        ContainsMinorExactly(releases[i], m);
      }
      k := FirstLike(all, MinorText(m), 0);
    }
  }

  /** Consecutive versions of a path never skip a minor release. */
  ghost predicate NoSkips(path: seq<string>) {
    forall h, i :: 0 <= h < i < |path| && i == h + 1 ==> OneHop(path[h], path[i])
  }

  ghost predicate OneHop(before: string, after: string) {
    exists a {:trigger SameOrNext(a, after)} :: MinorOf(before) == MinorText(a) && SameOrNext(a, after)
  }

  lemma ListDoesNotSkip(releases: seq<Release>)
    requires Stepwise(releases)
    ensures NoSkips(Versions(releases))
  {
    var all := Versions(releases);
    forall h, i | 0 <= h < i < |all| && i == h + 1
      ensures OneHop(all[h], all[i])
    {
      assert WellFormed(releases[h]);
      SplitVersion(releases[h]);
      HopToNext(releases, h);
    }
  }

  lemma StretchDoesNotSkip(all: seq<string>, a: nat, b: nat)
    requires NoSkips(all) && a <= b <= |all|
    ensures NoSkips(all[a..b])
  {
    var path := all[a..b];
    forall h, i | 0 <= h < i < |path| && i == h + 1
      ensures OneHop(path[h], path[i])
    {
      assert OneHop(all[a + h], all[a + i]);
    }
  }

  lemma HopToNext(releases: seq<Release>, k: nat)
    requires Stepwise(releases) && k + 1 < |releases|
    ensures SameOrNext(releases[k].minor, Versions(releases)[k + 1])
  {
    assert WellFormed(releases[k + 1]);
    SplitVersion(releases[k + 1]);
  }

  lemma PathIsStretch(all: seq<string>, current: string, k: nat, j: nat)
    requires Distinct(all) && k < |all| && j < |all| && Start(all, current) == k
    ensures Path(all, current, all[j]) == if k < j then all[k + 1..j + 1] else []
  {
    FirstEqualAt(all, all[j], j);
  }

  /** A path that ends at the target and skips no minor release, not even with its first hop. */
  ghost predicate GoodPath(path: seq<string>, m: nat, target: string) {
    path != [] ==> path[|path| - 1] == target && SameOrNext(m, path[0]) && NoSkips(path)
  }

  lemma StretchIsGood(releases: seq<Release>, k: nat, j: nat)
    requires Stepwise(releases) && k < j < |releases|
    ensures GoodPath(Versions(releases)[k + 1..j + 1], releases[k].minor, Versions(releases)[j])
  {
    ListDoesNotSkip(releases);
    StretchDoesNotSkip(Versions(releases), k + 1, j + 1);
    HopToNext(releases, k);
    GoodFromEnds(Versions(releases), k, j, releases[k].minor);
  }

  lemma GoodFromEnds(all: seq<string>, k: nat, j: nat, m: nat)
    requires k < j < |all| && SameOrNext(m, all[k + 1]) && NoSkips(all[k + 1..j + 1])
    ensures GoodPath(all[k + 1..j + 1], m, all[j])
  {
    assert all[k + 1..j + 1][0] == all[k + 1];
  }

  /** From any version of a listed minor release to any listed target, no hop skips a minor release. */
  lemma NoHopSkipsAMinorRelease(releases: seq<Release>, current: string, m: nat, j: nat)
    requires Stepwise(releases) && MinorOf(current) == MinorText(m) && MinorListed(releases, m) && j < |releases|
    ensures GoodPath(Path(Versions(releases), current, Versions(releases)[j]), m, Versions(releases)[j])
  {
    var k := StartOfListedMinor(releases, current, m);
    VersionsDistinct(releases);
    PathIsStretch(Versions(releases), current, k, j);
    if k < j {
      StretchIsGood(releases, k, j);
    }
  }

  /** A path is a stretch of the list that begins after the current version. */
  lemma PathIsLaterStretch(all: seq<string>, current: string, target: string) returns (first: nat)
    requires Distinct(all)
    ensures first + |Path(all, current, target)| <= |all|
    ensures Path(all, current, target) == all[first..first + |Path(all, current, target)|]
    ensures current !in Path(all, current, target)
  {
    StartEndInRange(all, current, target);
    first := 0;
    var path := Path(all, current, target);
    if path != [] {
      first := Start(all, current) + 1;
      assert path == all[first..first + |path|];
      if current in all {
        FirstEqualMeans(all, current, 0);
        assert all[0..] == all;
        assert all[first - 1] == current;
      }
    }
  }
}
