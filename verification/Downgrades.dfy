/** When the planner goes back to an older patch of the release that the node already has. */
module Downgrades {
  import opened Wrappers
  import opened Sequences
  import opened Decimals
  import opened UpgradePath

  predicate IsDigit(c: char) {
    '0' <= c <= '9'
  }

  function LeadingDigits(s: string): (d: string)
    ensures forall i :: 0 <= i < |d| ==> IsDigit(d[i])
  {
    if s == "" || !IsDigit(s[0]) then "" else [s[0]] + LeadingDigits(s[1..])
  }

  function TrailingDigits(s: string): (d: string)
    ensures forall i :: 0 <= i < |d| ==> IsDigit(d[i])
  {
    if s == "" || !IsDigit(s[|s| - 1]) then "" else TrailingDigits(s[..|s| - 1]) + [s[|s| - 1]]
  }

  /** The patch number and the RKE2 revision, such as 14 and 2 in `14+rke2r2`. */
  function PatchNumber(patch: string): nat {
    DigitsValue(LeadingDigits(patch))
  }

  function Revision(patch: string): nat {
    DigitsValue(TrailingDigits(patch))
  }

  predicate Newer(a: Release, b: Release) {
    || a.minor > b.minor
    || (a.minor == b.minor && PatchNumber(a.patch) > PatchNumber(b.patch))
    || (a.minor == b.minor && PatchNumber(a.patch) == PatchNumber(b.patch) && Revision(a.patch) > Revision(b.patch))
  }

  ghost predicate Ascending(releases: seq<Release>) {
    forall i, j :: 0 <= i < j < |releases| ==> !Newer(releases[i], releases[j])
  }

  lemma OnePatch()
    ensures PatchNumber("1+rke2r1") == 1 && PatchNumber("4+rke2r1") == 4
  {
    assert LeadingDigits("+rke2r1") == "";
    assert "1+rke2r1"[1..] == "+rke2r1" && "4+rke2r1"[1..] == "+rke2r1";
    assert LeadingDigits("1+rke2r1") == "1" && LeadingDigits("4+rke2r1") == "4";
    assert "1"[..0] == "" && "4"[..0] == "";
  }

  lemma ReleasesAscending()
    ensures Ascending(RELEASES)
  {
    var rs := RELEASES;
    OnePatch();
    assert rs[4] == Release(34, "1+rke2r1") && rs[5] == Release(34, "4+rke2r1");
    assert rs[0].minor == 30 && rs[1].minor == 31 && rs[2].minor == 32 && rs[3].minor == 33;
  }

  /** Some hop from `current` along the releases leads to an older one. */
  ghost predicate GoesDown(current: Release, along: seq<Release>) {
    || (along != [] && Newer(current, along[0]))
    || exists i, j :: 0 <= i < j < |along| && j == i + 1 && Newer(along[i], along[j])
  }

  lemma VersionsAt(releases: seq<Release>, a: nat, b: nat)
    requires a <= b <= |releases|
    ensures Versions(releases)[a..b] == Versions(releases[a..b])
  {
  }

  lemma Listed(releases: seq<Release>, r: Release)
    ensures Version(r) in Versions(releases) <==> r in releases
  {
    if Version(r) in Versions(releases) {
      var i :| 0 <= i < |releases| && Versions(releases)[i] == Version(r);
      VersionInjective(r, releases[i]);
    }
    if r in releases {
      var i :| 0 <= i < |releases| && releases[i] == r;
      assert Versions(releases)[i] == Version(r);
    }
  }

  /** The position after which the path begins: that of `current`, or else of the first release of its minor. */
  lemma BeginsAfter(releases: seq<Release>, current: Release, first: nat) returns (k: nat)
    requires Stepwise(releases) && WellFormed(current)
    requires first < |releases| && releases[first].minor == current.minor
    requires forall i :: 0 <= i < first ==> releases[i].minor != current.minor
    ensures k < |releases| && Start(Versions(releases), Version(current)) == k
    ensures if current in releases then releases[k] == current else k == first
  {
    var all := Versions(releases);
    SplitVersion(current);
    Listed(releases, current);
    k := StartOfListedMinor(releases, Version(current), current.minor);
    if current in releases {
      FirstEqualMeans(all, Version(current), 0);
      assert all[0..] == all;
      VersionInjective(releases[k], current);
    } else {
      FirstLikeMeans(all, MinorText(current.minor), 0);
      forall i | 0 <= i < |releases|
        ensures Contains(all[i], MinorText(current.minor)) <==> releases[i].minor == current.minor
      {
        assert WellFormed(releases[i]);
        ContainsMinorExactly(releases[i], current.minor);
      }
    }
  }

  /**
   On an ascending list the path goes down exactly when the current version is not listed and newer
   than the release that follows the first one of its minor, where the target is not before that.
   */
  lemma DowngradesExactly(releases: seq<Release>, current: Release, first: nat, j: nat) returns (along: seq<Release>)
    requires Stepwise(releases) && Ascending(releases) && WellFormed(current) && j < |releases|
    requires first < |releases| && releases[first].minor == current.minor
    requires forall i :: 0 <= i < first ==> releases[i].minor != current.minor
    ensures Path(Versions(releases), Version(current), Version(releases[j])) == Versions(along)
    ensures GoesDown(current, along) <==> current !in releases && first < j && Newer(current, releases[first + 1])
  {
    var k := BeginsAfter(releases, current, first);
    PathAlong(releases, Version(current), k, j);
    along := if k < j then releases[k + 1..j + 1] else [];
    if k < j {
      DownOnlyAtFirst(releases, current, k, j);
    }
  }

  lemma PathAlong(releases: seq<Release>, current: string, k: nat, j: nat)
    requires Stepwise(releases) && k < |releases| && j < |releases| && Start(Versions(releases), current) == k
    ensures Path(Versions(releases), current, Version(releases[j])) ==
            Versions(if k < j then releases[k + 1..j + 1] else [])
  {
    VersionsDistinct(releases);
    PathIsStretch(Versions(releases), current, k, j);
    if k < j {
      VersionsAt(releases, k + 1, j + 1);
    }
  }

  lemma DownOnlyAtFirst(releases: seq<Release>, current: Release, k: nat, j: nat)
    requires Ascending(releases) && k < j < |releases|
    ensures GoesDown(current, releases[k + 1..j + 1]) <==> Newer(current, releases[k + 1])
  {
    StretchAscends(releases, k + 1, j + 1);
    assert releases[k + 1..j + 1][0] == releases[k + 1];
  }

  lemma StretchAscends(releases: seq<Release>, a: nat, b: nat)
    requires Ascending(releases) && a <= b <= |releases|
    ensures Ascending(releases[a..b])
  {
    forall i, j | 0 <= i < j < b - a
      ensures !Newer(releases[a..b][i], releases[a..b][j])
    {
      assert releases[a..b][i] == releases[a + i] && releases[a..b][j] == releases[a + j];
    }
  }

  /** The failing case on the repository's list: from 1.34.9 the command goes back to 1.34.4. */
  lemma GoesBackToOlderPatch()
    ensures var current := Release(34, "9+rke2r1");
            && Path(Versions(RELEASES), Version(current), Version(RELEASES[5])) == [Version(RELEASES[5])]
            && Newer(current, RELEASES[5])
  {
    var rs, current := RELEASES, Release(34, "9+rke2r1");
    ReleasesStepwise();
    NinePatch();
    assert rs[4] == Release(34, "1+rke2r1") && rs[5] == Release(34, "4+rke2r1");
    assert rs[0].minor == 30 && rs[1].minor == 31 && rs[2].minor == 32 && rs[3].minor == 33;
    assert current !in rs;
    var k := BeginsAfter(rs, current, 4);
    VersionsDistinct(rs);
    PathIsStretch(Versions(rs), Version(current), k, 5);
  }

  lemma NinePatch()
    ensures PatchNumber("9+rke2r1") == 9 && PatchNumber("4+rke2r1") == 4 && WellFormed(Release(34, "9+rke2r1"))
    ensures "9+rke2r1" != "1+rke2r1" && "9+rke2r1" != "4+rke2r1"
  {
    OnePatch();
    assert LeadingDigits("+rke2r1") == "";
    assert "9+rke2r1"[1..] == "+rke2r1";
    assert LeadingDigits("9+rke2r1") == "9";
    assert "9"[..0] == "";
    assert "9+rke2r1"[0] == '9' && "1+rke2r1"[0] == '1' && "4+rke2r1"[0] == '4';
  }
}
