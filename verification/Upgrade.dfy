/**
 The RKE2 upgrade as the installer carries it out. Each method leaves the cluster in the one state,
 and with the one result, that the machine in UpgradeRun has for it.
 */
module Upgrade {
  import opened Wrappers
  import opened Clock
  import opened Sequences
  import opened Retry
  import opened TimeBudget
  import opened UpgradePath
  import opened UpgradeLog
  import opened UpgradeRun
  import opened UpgradeBounds
  import opened UpgradeOutcome

  class Cluster {
    var script: seq<Tick>           // what the world still has in store
    var now: int
    var node: string                // the version the node runs
    var plan: Option<string>        // the version of the applied plan
    var timeout: Option<int>        // DEPLOYMENT_TIMEOUT, if it is set
    ghost var log: seq<Event>       // what was applied and observed
    ghost var taken: seq<string>    // every version the node has run, oldest first

    ghost function State(): World
      reads this
    {
      World(script, now, node, plan, timeout, log, taken)
    }

    /** One query of the node, during which the node may move to the planned version. */
    method Attempt(action: Action) returns (ok: bool)
      requires script != []
      modifies this
      ensures State() == Query(old(State()), action).(now := old(now) + old(script)[0].took)
      ensures ok == Tries(old(State()), action)[0].ok
    {
      TriesHead(State(), action);
      var tick := script[0];
      script := script[1..];
      now := now + tick.took;
      var moved := tick.moves && plan.Some? && node != Kubelet(plan.value);
      if moved {
        node := Kubelet(plan.value);
        taken := taken + [node];
      }
      log := log + [Observation(tick, action, node)];
      match action
      case VersionIs(v) =>
        ok := tick.answers && node == v;
      case StatusIs(s) =>
        if tick.ready.None? {
          return false;
        }
        if s == "NotReady" {
          return tick.ready.value != "True";
        }
        if tick.schedulable.None? {
          return false;
        }
        ok := tick.ready.value != "False" && tick.schedulable.value != "False";
    }

    /** Retries the query until it succeeds or `done` has come. */
    method RetryUntil(action: Action, done: int, interval: nat) returns (outcome: Outcome)
      modifies this
      ensures Retrial(State(), outcome) == Retried(old(State()), action, done, interval)
    {
      ghost var start := State();
      while true
        invariant Retried(start, action, done, interval) == Retried(State(), action, done, interval)
        decreases |script|
      {
        ghost var turn := State();
        RetriedStops(turn, action, done, interval);
        if done <= now {
          return Expired;
        }
        if script == [] {
          return Running;
        }
        RetriedTurn(turn, action, done, interval);
        var ok := Attempt(action);
        if ok {
          return Succeeded;
        }
        if done <= now + interval {
          now := Later(now, done);
          return Expired;
        }
        now := now + interval;
        assert State() == Query(turn, action).(now := now);
      }
    }

    function ParseDeploymentTimeout(): (budget: int)
      reads this
      ensures budget == Budget(State())
    {
      if timeout.None? then DEFAULT_TIMEOUT else timeout.value
    }

    /** Waits until the node reports the version, and stores what is left of the budget. */
    method WaitForNewVersion(version: string) returns (outcome: Outcome)
      modifies this
      ensures Retrial(State(), outcome) == Waited(old(State()), VersionIs(version), false)
    {
      var expireTime := now + ParseDeploymentTimeout();
      outcome := RetryUntil(VersionIs(version), expireTime, RETRY_INTERVAL);
      if outcome.Succeeded? {
        timeout := Some(Remaining(expireTime, now, false));
      }
    }

    /** Waits until the node has the status, and stores what is left of the budget, at least zero. */
    method WaitForNodeStatus(status: string) returns (outcome: Outcome)
      modifies this
      ensures Retrial(State(), outcome) == Waited(old(State()), StatusIs(status), true)
    {
      var expireTime := now + ParseDeploymentTimeout();
      outcome := RetryUntil(StatusIs(status), expireTime, RETRY_INTERVAL);
      if outcome.Succeeded? {
        timeout := Some(Remaining(expireTime, now, true));
      }
    }

    /** Applies the plan for one version and waits for the node to get there and to be let through. */
    method ApplyAndWait(version: string, refused: bool) returns (result: UpgradeResult)
      modifies this
      ensures End(State(), result) == Hop(old(State()), version, refused)
    {
      if refused {
        return Failed;
      }
      plan := Some(version);
      log := log + [Applied(version)];
      var outcome := WaitForNewVersion(Kubelet(version));
      if !outcome.Succeeded? {
        return ResultOf(outcome);
      }
      outcome := WaitForNodeStatus("Ready");
      result := ResultOf(outcome);
    }

    /** Goes through the versions one after the other. */
    method UpgradeAlong(path: seq<string>, refused: set<nat>) returns (result: UpgradeResult)
      modifies this
      ensures End(State(), result) == Along(old(State()), path, refused, 0)
    {
      for i := 0 to |path|
        invariant Along(State(), path, refused, i) == Along(old(State()), path, refused, 0)
      {
        result := ApplyAndWait(path[i], i in refused);
        if result != Completed {
          return;
        }
      }
      result := Completed;
    }

    /** The whole upgrade. */
    method Rke2Cluster(releases: seq<Release>, target: string, calls: Calls) returns (result: UpgradeResult)
      modifies this
      ensures End(State(), result) == Upgraded(old(State()), releases, target, calls)
      ensures InBudget(old(State()), State()) && (result == StillRunning ==> script == [])
      ensures Stepwise(releases) && Untouched(old(State())) ==>
                var path := Path(Versions(releases), old(node), target);
                && (result == AlreadyThere <==> old(node) == target)
                && (result == NoPath <==> old(node) != target && path == [])
                && (result == Completed <==> AllWell(old(node), target, path, calls, log))
      ensures Stepwise(releases) && Untouched(old(State())) ==>
                SafeLog(log, Path(Versions(releases), old(node), target))
    {
      UpgradeStaysInBudget(State(), releases, target, calls);
      UpgradeEnds(State(), releases, target, calls);
      if Stepwise(releases) && Untouched(State()) {
        UpgradeIsSafe(State(), releases, target, calls);
        CompletesExactly(State(), releases, target, calls);
      }
      if node == target {
        return AlreadyThere;
      }
      var path := DetermineUpgradePath(Versions(releases), node, target);
      if path == [] {
        return NoPath;
      }
      if !calls.ready {
        return Failed;
      }
      result := UpgradeAlong(path, calls.refused);
      if result == Completed && !calls.cleaned {
        result := Failed;
      }
    }
  }
}
