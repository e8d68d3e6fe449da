/** Deciding that all watchers registered for a project are active and idle, by counting. */
module Watchers {
  import opened Sequences

  const IDLE := "STATUS_INDICATION_IDLE"

  /** An active watcher: its display name and its status. */
  datatype Watcher = Watcher(name: string, status: string)

  function Names(active: seq<Watcher>): (names: seq<string>)
    ensures |names| == |active|
  {
    seq(|active|, i requires 0 <= i < |active| => active[i].name)
  }

  /** The active watchers whose names are registered. */
  function Known(active: seq<Watcher>, registered: seq<string>): seq<Watcher> {
    if active == [] then []
    else (if active[0].name in registered then [active[0]] else []) + Known(active[1..], registered)
  }

  /** The names of known watchers that are not idle. */
  function NotReady(active: seq<Watcher>, registered: seq<string>): seq<string> {
    if active == [] then []
    else
      (if active[0].name in registered && active[0].status != IDLE then [active[0].name] else []) +
      NotReady(active[1..], registered)
  }

  method CheckReady(registered: seq<string>, active: seq<Watcher>) returns (ready: bool)
    ensures ready <==> |registered| <= |active| && NotReady(active, registered) == []
  {
    if |active| < |registered| {
      return false;
    }
    var notReadyList: seq<string> := [];
    for i := 0 to |active|
      invariant NotReady(active, registered) == notReadyList + NotReady(active[i..], registered)
    {
      assert active[i..][0] == active[i] && active[i..][1..] == active[i + 1..];
      if active[i].name in registered {
        if active[i].status != IDLE {
          notReadyList := notReadyList + [active[i].name];
        }
      }
    }
    assert active[|active|..] == [];
    return notReadyList == [];
  }

  /** Every registered watcher is active, and idle wherever it is. */
  ghost predicate AllReady(registered: seq<string>, active: seq<Watcher>) {
    (forall i :: 0 <= i < |registered| ==> registered[i] in Names(active)) &&
    (forall i :: 0 <= i < |active| && active[i].name in registered ==> active[i].status == "STATUS_INDICATION_IDLE")
  }

  /** Nobody is reported exactly if every known watcher is idle, wherever it stands. */
  lemma {:induction false} NotReadyMeans(active: seq<Watcher>, registered: seq<string>)
    ensures NotReady(active, registered) == [] <==>
            forall i :: 0 <= i < |active| && active[i].name in registered ==> active[i].status == IDLE
  {
    if active != [] {
      NotReadyMeans(active[1..], registered);
      if NotReady(active, registered) == [] {
        forall i | 0 <= i < |active| && active[i].name in registered
          ensures active[i].status == IDLE
        {
          if i > 0 {
            assert active[1..][i - 1] == active[i];
          }
        }
      } else if NotReady(active[1..], registered) != [] {
        var i :| 0 <= i < |active[1..]| && active[1..][i].name in registered && active[1..][i].status != IDLE;
        assert active[i + 1] == active[1..][i];
      }
    }
  }

  function ToSet(names: seq<string>): set<string> {
    set x | x in names
  }

  lemma {:induction false} DistinctCount(names: seq<string>)
    ensures |ToSet(names)| <= |names|
    ensures Distinct(names) ==> |ToSet(names)| == |names|
  {
    if names != [] {
      DistinctCount(names[1..]);
      assert ToSet(names) == {names[0]} + ToSet(names[1..]);
      if Distinct(names) {
        assert names[0] !in names[1..];
      }
    }
  }

  lemma {:induction false} KnownMeans(active: seq<Watcher>, registered: seq<string>, x: string)
    ensures x in Names(Known(active, registered)) <==> x in Names(active) && x in registered
    ensures Distinct(Names(active)) ==> Distinct(Names(Known(active, registered)))
  {
    if active != [] {
      var a, rest := active[0], Known(active[1..], registered);
      assert Names(active) == [a.name] + Names(active[1..]);
      KnownMeans(active[1..], registered, x);
      KnownMeans(active[1..], registered, a.name);
      if a.name in registered {
        assert Names(Known(active, registered)) == [a.name] + Names(rest);
      } else {
        assert Known(active, registered) == rest;
      }
      if Distinct(Names(active)) {
        TailDistinct(a.name, Names(active[1..]));
        if a.name in registered {
          ConsDistinct(a.name, Names(rest));
        }
      }
    }
  }

  lemma TailDistinct(x: string, names: seq<string>)
    requires Distinct([x] + names)
    ensures Distinct(names) && x !in names
  {
    var all := [x] + names;
    forall i, j | 0 <= i < j < |names|
      ensures names[i] != names[j]
    {
      assert all[i + 1] != all[j + 1];
    }
    forall i | 0 <= i < |names|
      ensures names[i] != x
    {
      assert all[0] != all[i + 1];
    }
  }

  lemma ConsDistinct(x: string, names: seq<string>)
    requires Distinct(names) && x !in names
    ensures Distinct([x] + names)
  {
  }

  /**
   With distinct names, all registered watchers are active and idle exactly when none is reported
   and the known ones alone make up the count.
   */
  lemma ReadyExactly(registered: seq<string>, active: seq<Watcher>)
    requires Distinct(registered) && Distinct(Names(active))
    ensures AllReady(registered, active) <==>
            NotReady(active, registered) == [] && |registered| <= |Known(active, registered)|
  {
    NotReadyMeans(active, registered);
    var known := Names(Known(active, registered));
    forall x
      ensures x in known <==> x in Names(active) && x in registered
    {
      KnownMeans(active, registered, x);
    }
    KnownMeans(active, registered, "");
    DistinctCount(registered);
    DistinctCount(known);
    assert ToSet(known) <= ToSet(registered);
    if |registered| <= |known| {
      SubsetOfSameSize(ToSet(known), ToSet(registered));
      forall i | 0 <= i < |registered|
        ensures registered[i] in Names(active)
      {
        assert registered[i] in ToSet(registered);
      }
    }
    if AllReady(registered, active) {
      assert ToSet(registered) == ToSet(known);
    }
  }

  lemma SubsetOfSameSize(a: set<string>, b: set<string>)
    requires a <= b && |b| <= |a|
    ensures a == b
  {
    assert b == a + (b - a);
    assert |b| == |a| + |b - a|;
  }

  /** When active watchers come from the registered ones, passing the check suffices. */
  lemma CheckSuffices(registered: seq<string>, active: seq<Watcher>)
    requires Distinct(registered) && Distinct(Names(active))
    requires forall i :: 0 <= i < |active| ==> active[i].name in registered
    requires |registered| <= |active| && NotReady(active, registered) == []
    ensures AllReady(registered, active)
  {
    AllKnown(active, registered);
    ReadyExactly(registered, active);
  }

  lemma {:induction false} AllKnown(active: seq<Watcher>, registered: seq<string>)
    requires forall i :: 0 <= i < |active| ==> active[i].name in registered
    ensures Known(active, registered) == active
  {
    if active != [] {
      AllKnown(active[1..], registered);
    }
  }

  /** Without that, an unregistered watcher can stand in for a registered one. */
  lemma CheckCanBeFooled()
    ensures var registered, active := ["a"], [Watcher("b", IDLE)];
            |registered| <= |active| && NotReady(active, registered) == [] && !AllReady(registered, active)
  {
    var registered, active := ["a"], [Watcher("b", IDLE)];
    assert "a" != "b";
    assert Names(active) == ["b"];
    assert registered[0] !in Names(active);
  }
}
