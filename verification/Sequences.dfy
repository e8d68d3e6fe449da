/** Facts about sequences: distinct elements, and sequences that are permutations of each other. */
module Sequences {
  predicate Distinct<T(==)>(s: seq<T>) {
    forall i, j :: 0 <= i < j < |s| ==> s[i] != s[j]
  }

  function Last<T>(s: seq<T>): T
    requires s != []
  {
    s[|s| - 1]
  }

  function DropAt<T>(s: seq<T>, i: nat): seq<T>
    requires i < |s|
  {
    s[..i] + s[i + 1..]
  }

  lemma DropAtInit<T>(s: seq<T>, i: nat)
    requires i < |s| - 1
    ensures DropAt(s, i) == DropAt(s[..|s| - 1], i) + [s[|s| - 1]]
  {
  }

  lemma DropAtMultiset<T>(s: seq<T>, i: nat)
    requires i < |s|
    ensures multiset(DropAt(s, i)) == multiset(s) - multiset{s[i]}
  {
    assert s == s[..i] + [s[i]] + s[i + 1..];
  }

  lemma SameLength<T>(s: seq<T>, s': seq<T>)
    requires multiset(s) == multiset(s')
    ensures |s| == |s'|
  {
    assert |s| == |multiset(s)| == |multiset(s')| == |s'|;
  }

  lemma SameAfterDrop<T>(s: seq<T>, s': seq<T>, i: nat)
    requires multiset(s) == multiset(s') && s' != [] && i < |s| && s[i] == s'[|s'| - 1]
    ensures multiset(DropAt(s, i)) == multiset(s'[..|s'| - 1])
  {
    DropAtMultiset(s, i);
    DropAtMultiset(s', |s'| - 1);
    assert DropAt(s', |s'| - 1) == s'[..|s'| - 1];
  }

  lemma IndexOf<T>(s: seq<T>, x: T, s': seq<T>) returns (i: nat)
    requires multiset(s) == multiset(s') && x in s'
    ensures i < |s| && s[i] == x
  {
    assert x in multiset(s');
    i :| i < |s| && s[i] == x;
  }

  lemma SameMembers<T>(s: seq<T>, s': seq<T>, x: T)
    requires multiset(s) == multiset(s') && x in s
    ensures x in s'
  {
    assert x in multiset(s');
  }

  lemma Rejoin<T>(s: seq<T>, i: nat)
    requires i <= |s|
    ensures s == s[..i] + s[i..]
  {
  }
}
