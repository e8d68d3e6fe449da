/** How long an RKE2 upgrade may take: its time stays within the shared budget, and every run ends. */
module UpgradeBounds {
  import opened Wrappers
  import opened Clock
  import opened Retry
  import opened TimeBudget
  import opened UpgradePath
  import opened UpgradeLog
  import opened UpgradeRun

  // Time

  /** How long the last of the first `n` queries took. */
  function LastTook(w: World, n: int): nat {
    if 0 < n <= |w.script| then w.script[n - 1].took else 0
  }

  /** From `w` to `w'` some queries were made, none of them without a budget. */
  ghost predicate Reaches(w: World, w': World) {
    && 0 <= Queries(w, w') && w'.script == w.script[Queries(w, w')..]
    && w.now <= w'.now
    && (Budget(w) <= 0 ==> Queries(w, w') == 0)
  }

  /** The time from `w` to `w'` exceeds the budget by no more than the last query took. */
  ghost predicate InBudget(w: World, w': World) {
    Reaches(w, w') && w'.now - w.now <= Later(0, Budget(w)) + LastTook(w, Queries(w, w'))
  }

  /** Time and remaining budget together do not grow, but for the last query once the budget is used up. */
  ghost predicate Charged(w: World, w': World) {
    && Reaches(w, w')
    && w'.now - w.now + Later(0, Budget(w')) <=
       Later(0, Budget(w)) + (if Budget(w') > 0 then 0 else LastTook(w, Queries(w, w')))
  }

  lemma ChargedThen(w: World, w': World, w'': World)
    requires Charged(w, w')
    ensures InBudget(w', w'') ==> InBudget(w, w'')
    ensures Charged(w', w'') ==> Charged(w, w'')
  {
    if Reaches(w', w'') {
      assert w''.script == w.script[Queries(w, w')..][Queries(w', w'')..] == w.script[Queries(w, w'')..];
      if Queries(w', w'') > 0 {
        assert w'.script[Queries(w', w'') - 1] == w.script[Queries(w, w'') - 1];
      }
    }
  }

  /** How many queries fit into the budget, one begun at its end included. */
  function Allowed(w: World): int {
    CeilDiv(Later(0, Budget(w)), RETRY_INTERVAL)
  }

  /** The queries from `w` to `w'` are at most `most`, and fewer if the script ended the run. */
  ghost predicate FewQueries(w: World, w': World, most: int, stillRunning: bool) {
    && Queries(w, w') <= most
    && (stillRunning ==> w'.script == [] && Queries(w, w') < most)
  }

  lemma RetryBounds(w: World, action: Action)
    ensures var r := Retried(w, action, w.now + Budget(w), RETRY_INTERVAL);
            && InBudget(w, r.world)
            && (r.outcome.Succeeded? ==> Budget(w) > 0)
            && FewQueries(w, r.world, Allowed(w), r.outcome.Running?)
  {
    RetriedAdvances(w, action, w.now + Budget(w), RETRY_INTERVAL);
    BoundsOf(w, Retried(w, action, w.now + Budget(w), RETRY_INTERVAL), Tries(w, action));
  }

  lemma BoundsOf(w: World, r: Retrial, tries: seq<Try>)
    requires |tries| == |w.script| && forall k :: 0 <= k < |tries| ==> tries[k].took == w.script[k].took
    requires 0 <= Queries(w, r.world) && r.world.script == w.script[Queries(w, r.world)..]
    requires UntilItSucceeds(w.now, w.now + Budget(w), RETRY_INTERVAL, tries) ==
             Run(r.outcome, r.world.now, Queries(w, r.world))
    ensures InBudget(w, r.world) && (r.outcome.Succeeded? ==> Budget(w) > 0)
    ensures FewQueries(w, r.world, Allowed(w), r.outcome.Running?)
  {
    RunBounds(w.now, Budget(w), tries);
  }

  /** The time and the number of attempts of a run that has `budget` left. */
  lemma RunBounds(now: int, budget: int, tries: seq<Try>)
    ensures var r := UntilItSucceeds(now, now + budget, RETRY_INTERVAL, tries);
            && now <= r.end && 0 <= r.attempts <= |tries|
            && r.end - now <= Later(0, budget) + (if r.attempts > 0 then tries[r.attempts - 1].took else 0)
            && (budget <= 0 ==> r.attempts == 0 && r.outcome.Expired?)
            && r.attempts <= CeilDiv(Later(0, budget), RETRY_INTERVAL)
            && (r.outcome.Running? ==>
                  r.attempts == |tries| && r.attempts < CeilDiv(Later(0, budget), RETRY_INTERVAL))
  {
    OverrunBounded(now, now + budget, RETRY_INTERVAL, tries);
    SucceedsOnlyAtTheEnd(now, now + budget, RETRY_INTERVAL, tries);
    FewTries(now, now + budget, tries);
  }

  /** What storing the remainder of a successful wait does to the budget. */
  lemma RemainderCharged(w: World, r: World, clamped: bool)
    requires InBudget(w, r) && Budget(w) > 0
    ensures Charged(w, r.(timeout := Some(Remaining(w.now + Budget(w), r.now, clamped))))
  {
    WholeSecondsShrinks(w.now + Budget(w) - r.now);
  }

  lemma WaitBounds(w: World, action: Action, clamped: bool)
    ensures var r := Waited(w, action, clamped);
            && InBudget(w, r.world)
            && (r.outcome.Succeeded? ==> Charged(w, r.world))
            && FewQueries(w, r.world, Allowed(w), r.outcome.Running?)
  {
    var r := Retried(w, action, w.now + Budget(w), RETRY_INTERVAL);
    RetryBounds(w, action);
    if r.outcome.Succeeded? {
      RemainderCharged(w, r.world, clamped);
    }
  }

  lemma FewTries(now: int, done: int, tries: seq<Try>)
    ensures var r := UntilItSucceeds(now, done, RETRY_INTERVAL, tries);
            && r.attempts <= CeilDiv(Later(0, done - now), RETRY_INTERVAL)
            && (r.outcome.Running? ==> r.attempts < CeilDiv(Later(0, done - now), RETRY_INTERVAL))
  {
    var r := UntilItSucceeds(now, done, RETRY_INTERVAL, tries);
    if now < done {
      AttemptsBounded(now, done, RETRY_INTERVAL, tries);
      if r.outcome.Running? {
        SucceedsOnlyAtTheEnd(now, done, RETRY_INTERVAL, tries);
        RunningTakesTime(now, done, RETRY_INTERVAL, tries);
        MultiplesBelow(r.attempts + 1, done - now, RETRY_INTERVAL);
      }
    }
  }

  /** A smaller budget allows no more queries. */
  lemma AllowedShrinks(w: World, w': World)
    requires Charged(w, w')
    ensures 0 <= Allowed(w') <= Allowed(w)
  {
    assert Later(0, Budget(w')) <= Later(0, Budget(w));
  }

  lemma HopBounds(w: World, version: string, refused: bool)
    ensures var hop := Hop(w, version, refused);
            && InBudget(w, hop.world)
            && (hop.result == Completed ==> Charged(w, hop.world))
            && FewQueries(w, hop.world, 2 * Allowed(w), hop.result == StillRunning)
  {
    if !refused {
      var planned := Planned(w, version);
      var seen := WaitedForVersion(w, version);
      WaitBounds(planned, VersionIs(Kubelet(version)), false);
      SameBounds(w, version, seen.world);
      if seen.outcome.Succeeded? {
        var cleared := Waited(seen.world, StatusIs("Ready"), true);
        WaitBounds(seen.world, StatusIs("Ready"), true);
        ChargedThen(w, seen.world, cleared.world);
        AllowedShrinks(w, seen.world);
      }
    }
  }

  /** Applying a plan takes neither budget nor script. */
  lemma SameBounds(w: World, version: string, w': World)
    ensures InBudget(Planned(w, version), w') <==> InBudget(w, w')
    ensures Charged(Planned(w, version), w') <==> Charged(w, w')
    ensures Allowed(Planned(w, version)) == Allowed(w) >= 0
    ensures Queries(Planned(w, version), w') == Queries(w, w')
  {
  }

  lemma {:induction false} AlongBounds(w: World, path: seq<string>, refused: set<nat>, i: nat)
    requires i <= |path|
    ensures var end := Along(w, path, refused, i);
            && InBudget(w, end.world)
            && FewQueries(w, end.world, 2 * (|path| - i) * Allowed(w), end.result == StillRunning)
    decreases |path| - i
  {
    SameBounds(w, "", w);
    if i < |path| {
      var hop := Hop(w, path[i], i in refused);
      HopBounds(w, path[i], i in refused);
      OneHopMore(|path| - i, Allowed(w), Allowed(w));
      if hop.result == Completed {
        AlongBounds(hop.world, path, refused, i + 1);
        ChargedThen(w, hop.world, Along(hop.world, path, refused, i + 1).world);
        AllowedShrinks(w, hop.world);
        OneHopMore(|path| - i, Allowed(hop.world), Allowed(w));
      }
    }
  }

  lemma OneHopMore(hops: nat, a: int, b: int)
    requires hops > 0 && 0 <= a <= b
    ensures 2 * b + 2 * (hops - 1) * a <= 2 * hops * b
    ensures 2 * b <= 2 * hops * b
  {
    ScalingKeepsOrder(a, b, 2 * (hops - 1));
    ScalingKeepsOrder(0, b, 2 * (hops - 1));
    assert 2 * hops * b == 2 * b + b * (2 * (hops - 1));
  }

  /** Every run of the command takes at most its budget and the time of its last query. */
  lemma UpgradeStaysInBudget(w: World, releases: seq<Release>, target: string, calls: Calls)
    ensures InBudget(w, Upgraded(w, releases, target, calls).world)
  {
    AlongBounds(w, Path(Versions(releases), w.node, target), calls.refused, 0);
  }

  /**
   Every run of the command ends: it makes at most two waits' worth of queries for each hop, so a
   script of that length is enough to bring it to its end.
   */
  lemma UpgradeEnds(w: World, releases: seq<Release>, target: string, calls: Calls)
    ensures var end := Upgraded(w, releases, target, calls);
            var most := 2 * |Path(Versions(releases), w.node, target)| * Allowed(w);
            && Queries(w, end.world) <= most
            && (end.result == StillRunning ==> end.world.script == [])
            && (|w.script| >= most ==> end.result != StillRunning)
  {
    SameBounds(w, "", w);
    var path := Path(Versions(releases), w.node, target);
    AlongBounds(w, path, calls.refused, 0);
    if path != [] {
      OneHopMore(|path|, 0, Allowed(w));
    }
  }
}
