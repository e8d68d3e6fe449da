/** When an RKE2 upgrade completes, and why it fails otherwise. */
module UpgradeOutcome {
  import opened Wrappers
  import opened Clock
  import opened Sequences
  import opened Retry
  import opened TimeBudget
  import opened UpgradePath
  import opened UpgradeLog
  import opened UpgradeRun

  // Told from the log

  /** No call but queries fails on the way along `path`. */
  predicate AllGranted(calls: Calls, path: seq<string>) {
    calls.ready && calls.cleaned && forall k :: 0 <= k < |path| ==> k !in calls.refused
  }

  /** The versions whose plans were applied, in order. */
  function Plans(log: seq<Event>): seq<string> {
    if log == [] then []
    else
      match log[0]
      case Applied(version) => [version] + Plans(log[1..])
      case _ => Plans(log[1..])
  }

  lemma {:induction false} PlansAppend(log: seq<Event>, e: Event)
    ensures Plans(log + [e]) == Plans(log) + (if e.Applied? then [e.version] else [])
    decreases |log|
  {
    if log == [] {
      assert ([] + [e])[1..] == [];
    } else {
      assert (log + [e])[0] == log[0] && (log + [e])[1..] == log[1..] + [e];
      PlansAppend(log[1..], e);
    }
  }

  /** The plans in a safe log are those of the path, as far as the log goes. */
  lemma {:induction false} SafePlans(log: seq<Event>, path: seq<string>)
    requires SafeLog(log, path)
    ensures CountApplied(log) <= |path| && Plans(log) == path[..CountApplied(log)]
  {
    if log != [] {
      var n := |log| - 1;
      assert log == log[..n] + [log[n]];
      forall j | 0 <= j < n && log[..n][j].Applied?
        ensures SafeToApply(log[..n][..j], log[..n][j].version, path)
      {
        assert log[..n][..j] == log[..j];
      }
      SafePlans(log[..n], path);
      PlansAppend(log[..n], log[n]);
      if log[n].Applied? {
        assert SafeToApply(log[..n], log[n].version, path);
        var h := CountApplied(log[..n]);
        assert path[..h + 1] == path[..h] + [path[h]];
      }
    }
  }

  /** A hop that fails ends in an observation that does not let the node through. */
  lemma FailedHopEnds(w: World, version: string)
    requires Hop(w, version, false).result != Completed
    ensures var log := Hop(w, version, false).world.log; log != [] && !Accepted(Last(log))
  {
    var planned, seen := Planned(w, version), WaitedForVersion(w, version);
    WaitObserves(planned, VersionIs(Kubelet(version)), false);
    if !seen.outcome.Succeeded? {
      FailedWaitEnds(planned, VersionIs(Kubelet(version)), false);
    } else {
      WaitObserves(seen.world, StatusIs("Ready"), true);
      FailedWaitEnds(seen.world, StatusIs("Ready"), true);
    }
  }

  lemma FailedWaitEnds(w: World, action: Action, clamped: bool)
    requires !Waited(w, action, clamped).outcome.Succeeded? && w.log != [] && !Accepted(Last(w.log))
    requires action == StatusIs("Ready") || action.VersionIs?
    ensures var log := Waited(w, action, clamped).world.log; log != [] && !Accepted(Last(log))
  {
    var log := Waited(w, action, clamped).world.log;
    WaitObserves(w, action, clamped);
    if |log| > |w.log| {
      FailedWaitSaw(w, action, clamped, |log| - |w.log| - 1);
    } else {
      assert log == w.log;
    }
  }

  ghost predicate AllDone(log: seq<Event>, path: seq<string>) {
    path != [] && CountApplied(log) == |path| && HopDone(log, Last(path))
  }

  lemma NotAccepted(log: seq<Event>, path: seq<string>)
    requires log != [] && !Accepted(Last(log))
    ensures !AllDone(log, path)
  {
  }

  lemma SafeUpToEnd(start: string, w: World, path: seq<string>, i: nat)
    requires i <= |path| && path != [] && SafeUpTo(start, w, path, i)
    ensures AllDone(w.log, path) <==> i == |path|
  {
  }

  lemma {:induction false} AlongCompletesExactly(start: string, w: World, path: seq<string>, refused: set<nat>, i: nat)
    requires i <= |path| && path != [] && Fresh(start, path) && SafeUpTo(start, w, path, i)
    ensures Along(w, path, refused, i).result == Completed <==> AllDone(Along(w, path, refused, i).world.log, path)
    decreases |path| - i
  {
    if i == |path| || i in refused {
      SafeUpToEnd(start, w, path, i);
    } else {
      var hop := Hop(w, path[i], false);
      HopObserves(w, path[i], false);
      if hop.result == Completed {
        SafeAfter(start, w, path, i, hop.world);
        AlongCompletesExactly(start, hop.world, path, refused, i + 1);
      } else {
        FailedHopEnds(w, path[i]);
        NotAccepted(hop.world.log, path);
      }
    }
  }

  lemma FirstNotRefused(w: World, path: seq<string>, refused: set<nat>, i: nat)
    requires i < |path| && Along(w, path, refused, i).result == Completed
    ensures i !in refused && Along(Hop(w, path[i], false).world, path, refused, i + 1).result == Completed
  {
    var hop := Hop(w, path[i], i in refused);
    assert Along(w, path, refused, i) ==
           if hop.result == Completed then Along(hop.world, path, refused, i + 1) else hop;
  }

  lemma {:induction false} NoneRefused(w: World, path: seq<string>, refused: set<nat>, i: nat, k: nat)
    requires i <= k < |path| && Along(w, path, refused, i).result == Completed
    ensures k !in refused
    decreases k - i
  {
    FirstNotRefused(w, path, refused, i);
    if i < k {
      NoneRefused(Hop(w, path[i], false).world, path, refused, i + 1, k);
    }
  }

  lemma PlansComplete(log: seq<Event>, path: seq<string>)
    requires SafeLog(log, path) && path != []
    ensures AllDone(log, path) <==> Plans(log) == path && HopDone(log, Last(path))
  {
    SafePlans(log, path);
    assert path[..|path|] == path;
  }

  lemma AlongOutcome(w: World, path: seq<string>, refused: set<nat>)
    requires Untouched(w) && path != [] && Fresh(w.node, path)
    ensures var end := Along(w, path, refused, 0);
            && end.result in {Completed, Failed, StillRunning}
            && (end.result == Completed <==> Plans(end.world.log) == path && HopDone(end.world.log, Last(path)))
            && (end.result == Completed ==> forall k :: 0 <= k < |path| ==> k !in refused)
  {
    var end := Along(w, path, refused, 0);
    SafeAtRest(w, path, Failed);
    AlongIsSafe(w.node, w, path, refused, 0);
    AlongCompletesExactly(w.node, w, path, refused, 0);
    PlansComplete(end.world.log, path);
    if end.result == Completed {
      forall k | 0 <= k < |path|
        ensures k !in refused
      {
        NoneRefused(w, path, refused, 0, k);
      }
    }
  }

  /** There was something to do, no call failed, and every plan of the path was applied and its hop done. */
  ghost predicate AllWell(node: string, target: string, path: seq<string>, calls: Calls, log: seq<Event>) {
    && node != target && path != [] && AllGranted(calls, path)
    && Plans(log) == path && HopDone(log, Last(path))
  }

  /**
   The command reports success exactly if there was something to do, no call failed, every plan of the
   path was applied, in order, and the log is done for the last one. It reports that there is nothing to
   do, or no way, exactly if there is none.
   */
  lemma CompletesExactly(w: World, releases: seq<Release>, target: string, calls: Calls)
    requires Stepwise(releases) && Untouched(w)
    ensures var path := Path(Versions(releases), w.node, target);
            var end := Upgraded(w, releases, target, calls);
            && (end.result == AlreadyThere <==> w.node == target)
            && (end.result == NoPath <==> w.node != target && path == [])
            && (end.result == Completed <==> AllWell(w.node, target, path, calls, end.world.log))
  {
    var path := Path(Versions(releases), w.node, target);
    if w.node != target && path != [] && calls.ready {
      PathIsFresh(releases, w.node, target);
      AlongOutcome(w, path, calls.refused);
    }
  }

  // Told from the script

  /** The node moves at once, and is ready when it has. */
  predicate PromptHop(script: seq<Tick>) {
    && 2 <= |script|
    && script[0].moves && script[0].answers
    && script[1].ready == Some("True") && script[1].schedulable == Some("True")
  }

  predicate Prompt(script: seq<Tick>, hops: nat)
    decreases hops
  {
    hops == 0 || (PromptHop(script) && Prompt(script[2..], hops - 1))
  }

  /** What a prompt script needs: the time of its queries, and a second for each. */
  function Needed(script: seq<Tick>, hops: nat): int
    decreases hops
  {
    if hops == 0 || |script| < 2 then 0
    else script[0].took + script[1].took + 2 * SECOND + Needed(script[2..], hops - 1)
  }

  lemma {:induction false} NeededGrows(script: seq<Tick>, hops: nat)
    ensures 0 <= Needed(script, hops)
    decreases hops
  {
    if hops > 0 && |script| >= 2 {
      NeededGrows(script[2..], hops - 1);
    }
  }

  /** A wait whose first query succeeds costs its time and less than a second. */
  lemma PromptWait(w: World, action: Action, clamped: bool, left: int)
    requires w.script != [] && Satisfies(Last(Query(w, action).log), action)
    requires 0 <= left && w.script[0].took + SECOND + left <= Budget(w)
    ensures var r := Waited(w, action, clamped);
            && r.outcome.Succeeded? && r.world.script == w.script[1..] && left <= Budget(r.world)
  {
    FirstTryPasses(w, action, clamped);
    WholeSecondsShrinks(Budget(w) - w.script[0].took);
  }

  lemma PromptHopCompletes(w: World, version: string, left: int)
    requires PromptHop(w.script)
    requires 0 <= left && w.script[0].took + w.script[1].took + 2 * SECOND + left <= Budget(w)
    ensures var hop := Hop(w, version, false);
            hop.result == Completed && hop.world.script == w.script[2..] && left <= Budget(hop.world)
  {
    var planned := Planned(w, version);
    PromptWait(planned, VersionIs(Kubelet(version)), false, w.script[1].took + SECOND + left);
    var seen := WaitedForVersion(w, version).world;
    assert "True" != "False" by {
      assert "True"[0] == 'T' && "False"[0] == 'F';
    }
    PromptWait(seen, StatusIs("Ready"), true, left);
    assert w.script[1..][1..] == w.script[2..];
  }

  lemma {:induction false} PromptAlong(w: World, path: seq<string>, refused: set<nat>, i: nat)
    requires i <= |path| && forall k :: i <= k < |path| ==> k !in refused
    requires Prompt(w.script, |path| - i) && Needed(w.script, |path| - i) <= Budget(w)
    ensures Along(w, path, refused, i).result == Completed
    decreases |path| - i
  {
    if i < |path| {
      NeededGrows(w.script[2..], |path| - i - 1);
      PromptHopCompletes(w, path[i], Needed(w.script[2..], |path| - i - 1));
      PromptAlong(Hop(w, path[i], false).world, path, refused, i + 1);
    }
  }

  /** On a prompt cluster and with enough of a budget the upgrade completes, and the node has taken the whole path. */
  lemma PromptUpgradeCompletes(w: World, releases: seq<Release>, target: string, calls: Calls)
    requires Stepwise(releases) && Untouched(w) && w.node != target
    requires Path(Versions(releases), w.node, target) != []
    requires var path := Path(Versions(releases), w.node, target);
             AllGranted(calls, path) && Prompt(w.script, |path|) && Needed(w.script, |path|) <= Budget(w)
    ensures var end := Upgraded(w, releases, target, calls);
            end.result == Completed && end.world.taken == [w.node] + Path(Versions(releases), w.node, target)
  {
    PromptAlong(w, Path(Versions(releases), w.node, target), calls.refused, 0);
    UpgradeIsSafe(w, releases, target, calls);
  }

  // What is stored

  /** `stored` is what is left in whole seconds, counted towards zero. */
  predicate InSeconds(left: int, stored: int) {
    && stored % SECOND == 0
    && (if left >= 0 then 0 <= stored <= left < stored + SECOND else stored - SECOND < left <= stored <= 0)
  }

  /** A wait that succeeds stores what is left, nothing below zero if it clamps; another one stores nothing. */
  lemma WaitStores(w: World, action: Action, clamped: bool)
    ensures var r := Waited(w, action, clamped); var left := w.now + Budget(w) - r.world.now;
            if !r.outcome.Succeeded? then r.world.timeout == w.timeout
            else
              && r.world.timeout.Some?
              && (if clamped && left < 0 then r.world.timeout.value == 0 else InSeconds(left, r.world.timeout.value))
  {
    var done := w.now + Budget(w);
    RetriedAdvances(w, action, done, RETRY_INTERVAL);
    RemainingInSeconds(done, Retried(w, action, done, RETRY_INTERVAL).world.now, clamped);
  }

  lemma RemainingInSeconds(done: int, end: int, clamped: bool)
    ensures if clamped && done < end then Remaining(done, end, clamped) == 0
            else InSeconds(done - end, Remaining(done, end, clamped))
  {
    WholeSecondsShrinks(done - end);
  }

  /** The wait for the version does not clamp, the one for the status does: a hop leaves no negative budget. */
  lemma HopStores(w: World, version: string)
    ensures var seen := WaitedForVersion(w, version);
            seen.outcome.Succeeded? ==> InSeconds(w.now + Budget(w) - seen.world.now, Budget(seen.world))
    ensures var hop := Hop(w, version, false);
            hop.result == Completed ==> hop.world.timeout.Some? && hop.world.timeout.value >= 0
  {
    var seen := WaitedForVersion(w, version);
    WaitStores(Planned(w, version), VersionIs(Kubelet(version)), false);
    WaitStores(seen.world, StatusIs("Ready"), true);
  }

  // Failing late

  /** A wait that succeeds loses less than a second of the budget, and one that expires has used it up. */
  lemma WaitUsesBudget(w: World, action: Action, clamped: bool)
    ensures var r := Waited(w, action, clamped); var spent := r.world.now - w.now;
            && spent >= 0
            && (r.outcome.Succeeded? ==> spent + Budget(r.world) > Budget(w) - SECOND)
            && (r.outcome.Expired? ==> spent >= Budget(w))
  {
    var done := w.now + Budget(w);
    var r := Retried(w, action, done, RETRY_INTERVAL);
    RetriedAdvances(w, action, done, RETRY_INTERVAL);
    OverrunBounded(w.now, done, RETRY_INTERVAL, Tries(w, action));
    SucceedsOnlyAtTheEnd(w.now, done, RETRY_INTERVAL, Tries(w, action));
    WholeSecondsShrinks(done - r.world.now);
  }

  lemma HopUsesBudget(w: World, version: string)
    ensures var hop := Hop(w, version, false); var spent := hop.world.now - w.now;
            && spent >= 0
            && (hop.result == Completed ==> spent + Budget(hop.world) > Budget(w) - 2 * SECOND)
            && (hop.result == Failed ==> spent > Budget(w) - SECOND)
  {
    var seen := WaitedForVersion(w, version);
    WaitUsesBudget(Planned(w, version), VersionIs(Kubelet(version)), false);
    if seen.outcome.Succeeded? {
      WaitUsesBudget(seen.world, StatusIs("Ready"), true);
    }
  }

  lemma {:induction false} AlongUsesBudget(w: World, path: seq<string>, refused: set<nat>, i: nat)
    requires i <= |path| && forall k :: i <= k < |path| ==> k !in refused
    ensures var end := Along(w, path, refused, i);
            end.result == Failed ==> end.world.now - w.now > Budget(w) - 2 * (|path| - i) * SECOND
    decreases |path| - i
  {
    if i < |path| {
      HopUsesBudget(w, path[i]);
      AlongUsesBudget(Hop(w, path[i], false).world, path, refused, i + 1);
    }
  }

  /** If no other call fails, the upgrade fails only when its budget is used up, but for a second for each wait. */
  lemma FailsOnlyLate(w: World, releases: seq<Release>, target: string, calls: Calls)
    requires AllGranted(calls, Path(Versions(releases), w.node, target))
    ensures var path := Path(Versions(releases), w.node, target);
            var end := Upgraded(w, releases, target, calls);
            end.result == Failed ==> end.world.now - w.now > Budget(w) - 2 * |path| * SECOND
  {
    AlongUsesBudget(w, Path(Versions(releases), w.node, target), calls.refused, 0);
  }
}
