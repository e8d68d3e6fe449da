/**
 The stepwise RKE2 upgrade as a state machine: apply a plan, wait for the node to report its version,
 wait for the node to be ready, go on to the next version. The program (module Upgrade) takes these
 steps; what is proved here of all runs is therefore true of the program.
 */
module UpgradeRun {
  import opened Wrappers
  import opened Clock
  import opened Sequences
  import opened Retry
  import opened TimeBudget
  import opened UpgradePath
  import opened UpgradeLog

  const DEFAULT_TIMEOUT := 1200 * SECOND
  const RETRY_INTERVAL: nat := 5 * SECOND

  /**
   What the cluster does while one query runs: how long that takes, whether the node moves to the
   applied version meanwhile, and what the queries answer. `None` is a failed query.
   */
  datatype Tick = Tick(took: nat, moves: bool, answers: bool, ready: Option<string>, schedulable: Option<string>)

  /**
   The cluster and the installer's view of it: what the world still has in store, the time, the
   version the node runs, that of the applied plan, DEPLOYMENT_TIMEOUT if it is set, what was
   applied and observed so far, and every version the node has run, oldest first.
   */
  datatype World = World(
    script: seq<Tick>, now: int, node: string, plan: Option<string>, timeout: Option<int>,
    log: seq<Event>, taken: seq<string>)

  datatype UpgradeResult = AlreadyThere | NoPath | Completed | Failed | StillRunning

  /** A world, and how the wait that led there ended. */
  datatype Retrial = Retrial(world: World, outcome: Outcome)

  /** A world, and how the upgrade that led there ended. */
  datatype End = End(world: World, result: UpgradeResult)

  /**
   How the calls other than queries go: everything before the first plan, the application of each
   plan by its position in the path, and the clean-up after the last hop.
   */
  datatype Calls = Calls(ready: bool, refused: set<nat>, cleaned: bool)

  function Budget(w: World): int {
    if w.timeout.None? then DEFAULT_TIMEOUT else w.timeout.value
  }

  function Moved(node: string, plan: Option<string>, tick: Tick): string {
    if tick.moves && plan.Some? then Kubelet(plan.value) else node
  }

  function Observation(tick: Tick, action: Action, node: string): Event {
    match action
    case VersionIs(_) => SawVersion(if tick.answers then Some(node) else None)
    case StatusIs(_) => SawStatus(tick.ready, tick.schedulable)
  }

  /** The world after one query, but for the time it took. */
  function Query(w: World, action: Action): World
    requires w.script != []
  {
    var node := Moved(w.node, w.plan, w.script[0]);
    w.(script := w.script[1..], node := node,
       taken := if node == w.node then w.taken else w.taken + [node],
       log := w.log + [Observation(w.script[0], action, node)])
  }

  /** How the queries for an action would go, for as long as the script lasts. */
  function Tries(w: World, action: Action): (tries: seq<Try>)
    ensures |tries| == |w.script| && forall k :: 0 <= k < |tries| ==> tries[k].took == w.script[k].took
    decreases |w.script|
  {
    if w.script == [] then []
    else
      var w' := Query(w, action);
      [Try(w.script[0].took, Satisfies(Last(w'.log), action))] + Tries(w', action)
  }

  function Queried(w: World, action: Action, n: nat): World
    requires n <= |w.script|
    decreases n
  {
    if n == 0 then w else Queried(Query(w, action), action, n - 1)
  }

  /** Querying for an action, as often as the retry loop does. */
  function Retried(w: World, action: Action, done: int, interval: nat): Retrial {
    var run := UntilItSucceeds(w.now, done, interval, Tries(w, action));
    SucceedsOnlyAtTheEnd(w.now, done, interval, Tries(w, action));
    Retrial(Queried(w, action, run.attempts).(now := run.end), run.outcome)
  }

  /** A wait under the budget; if it succeeds, what is left of the budget is stored. */
  function Waited(w: World, action: Action, clamped: bool): Retrial {
    var done := w.now + Budget(w);
    var r := Retried(w, action, done, RETRY_INTERVAL);
    if r.outcome.Succeeded?
    then Retrial(r.world.(timeout := Some(Remaining(done, r.world.now, clamped))), Succeeded)
    else r
  }

  function ResultOf(outcome: Outcome): UpgradeResult {
    match outcome
    case Succeeded => Completed
    case Expired => Failed
    case Running => StillRunning
  }

  function Planned(w: World, version: string): World {
    w.(plan := Some(version), log := w.log + [Applied(version)])
  }

  function WaitedForVersion(w: World, version: string): Retrial {
    Waited(Planned(w, version), VersionIs(Kubelet(version)), false)
  }

  function Hop(w: World, version: string, refused: bool): End {
    if refused then End(w, Failed)
    else
      var seen := WaitedForVersion(w, version);
      if !seen.outcome.Succeeded? then End(seen.world, ResultOf(seen.outcome))
      else
        var cleared := Waited(seen.world, StatusIs("Ready"), true);
        End(cleared.world, ResultOf(cleared.outcome))
  }

  /** The hops of the path from position `i` on. */
  function Along(w: World, path: seq<string>, refused: set<nat>, i: nat): End
    requires i <= |path|
    decreases |path| - i
  {
    if i == |path| then End(w, Completed)
    else
      var hop := Hop(w, path[i], i in refused);
      if hop.result == Completed then Along(hop.world, path, refused, i + 1) else hop
  }

  function Upgraded(w: World, releases: seq<Release>, target: string, calls: Calls): End {
    var path := Path(Versions(releases), w.node, target);
    if w.node == target then End(w, AlreadyThere)
    else if path == [] then End(w, NoPath)
    else if !calls.ready then End(w, Failed)
    else
      var end := Along(w, path, calls.refused, 0);
      if end.result == Completed && !calls.cleaned then end.(result := Failed) else end
  }

  // One turn of the retry loop

  lemma {:induction false} TriesIgnoreTime(w: World, action: Action, now: int)
    ensures Tries(w.(now := now), action) == Tries(w, action)
    decreases |w.script|
  {
    if w.script != [] {
      TriesIgnoreTime(Query(w, action), action, now);
    }
  }

  lemma {:induction false} QueriedIgnoresTime(w: World, action: Action, n: nat, now: int)
    requires n <= |w.script|
    ensures Queried(w.(now := now), action, n) == Queried(w, action, n).(now := now)
    decreases n
  {
    if n > 0 {
      QueriedIgnoresTime(Query(w, action), action, n - 1, now);
    }
  }

  lemma TriesHead(w: World, action: Action)
    requires w.script != []
    ensures var tries := Tries(w, action);
            && tries[0] == Try(w.script[0].took, Satisfies(Last(Query(w, action).log), action))
            && tries[1..] == Tries(Query(w, action), action)
  {
  }

  lemma RetriedStops(w: World, action: Action, done: int, interval: nat)
    ensures done <= w.now ==> Retried(w, action, done, interval) == Retrial(w, Expired)
    ensures w.now < done && w.script == [] ==> Retried(w, action, done, interval) == Retrial(w, Running)
  {
  }

  lemma RetriedTurn(w: World, action: Action, done: int, interval: nat)
    requires w.now < done && w.script != []
    ensures var w', t := Query(w, action), w.now + w.script[0].took;
            Retried(w, action, done, interval) ==
            if Tries(w, action)[0].ok then Retrial(w'.(now := t), Succeeded)
            else if done <= t + interval then Retrial(w'.(now := Later(t, done)), Expired)
            else Retried(w'.(now := t + interval), action, done, interval)
  {
    var w', t := Query(w, action), w.now + w.script[0].took;
    var tries := Tries(w, action);
    assert Queried(w, action, 1) == Queried(w', action, 0) == w';
    if !tries[0].ok && t + interval < done {
      RetriedLater(w, action, done, interval, t + interval);
    }
  }

  lemma RetriedLater(w: World, action: Action, done: int, interval: nat, now: int)
    requires w.script != []
    ensures var w' := Query(w, action);
            var run := UntilItSucceeds(now, done, interval, Tries(w, action)[1..]);
            run.attempts < |w.script| && Retried(w'.(now := now), action, done, interval) ==
            Retrial(Queried(w, action, run.attempts + 1).(now := run.end), run.outcome)
  {
    var w' := Query(w, action);
    var tries := Tries(w', action);
    assert Tries(w, action)[1..] == tries;
    TriesIgnoreTime(w', action, now);
    var run := UntilItSucceeds(now, done, interval, tries);
    SucceedsOnlyAtTheEnd(now, done, interval, tries);
    QueriedIgnoresTime(w', action, run.attempts, now);
    assert Queried(w, action, run.attempts + 1) == Queried(w', action, run.attempts);
  }

  // What a wait does

  /** The event is what the tick answers to the action. */
  predicate Observes(e: Event, tick: Tick, action: Action) {
    match action
    case VersionIs(_) => e.SawVersion? && (e.found.Some? <==> tick.answers)
    case StatusIs(_) => e == SawStatus(tick.ready, tick.schedulable)
  }

  /** The node stays at its version or moves once, to the planned one. */
  ghost predicate StaysOrMoves(w: World, w': World) {
    || (w'.node == w.node && w'.taken == w.taken)
    || (w.plan.Some? && w.node != Kubelet(w.plan.value) && w'.node == Kubelet(w.plan.value) &&
        w'.taken == w.taken + [w'.node])
  }

  /** `w'` differs from `w` by the observations of the first `n` ticks. */
  ghost predicate Follows(w: World, action: Action, w': World, n: nat)
    requires n <= |w.script|
  {
    && w'.script == w.script[n..] && w'.plan == w.plan
    && |w'.log| == |w.log| + n && w'.log[..|w.log|] == w.log
    && (forall k :: 0 <= k < n ==> Observes(w'.log[|w.log| + k], w.script[k], action))
    && (forall k :: 0 <= k < n ==> (Satisfies(w'.log[|w.log| + k], action) <==> Tries(w, action)[k].ok))
    && StaysOrMoves(w, w')
    && (n > 0 && action.VersionIs? && Satisfies(Last(w'.log), action) ==> w'.node == action.version)
  }

  lemma MovesOnce(w: World, w1: World, w': World)
    requires StaysOrMoves(w, w1) && StaysOrMoves(w1, w') && w1.plan == w.plan
    ensures StaysOrMoves(w, w')
  {
  }

  /** Where the observations after the first one are found. */
  lemma QueryShifts(w: World, action: Action, w': World, n: nat, k: nat)
    requires k < n <= |w.script| && Follows(Query(w, action), action, w', n - 1)
    ensures |w.log| + k < |w'.log|
    ensures w'.log[|w.log| + k] ==
            if k == 0 then Last(Query(w, action).log) else w'.log[|Query(w, action).log| + (k - 1)]
    ensures k > 0 ==> Query(w, action).script[k - 1] == w.script[k]
  {
    var w1 := Query(w, action);
    assert w'.log[|w.log|] == w'.log[..|w1.log|][|w.log|];
  }

  lemma QueryObserves(w: World, action: Action, w': World, n: nat, k: nat)
    requires k < n <= |w.script| && Follows(Query(w, action), action, w', n - 1)
    ensures |w.log| + k < |w'.log| && Observes(w'.log[|w.log| + k], w.script[k], action)
  {
    QueryShifts(w, action, w', n, k);
  }

  lemma QuerySatisfies(w: World, action: Action, w': World, n: nat, k: nat)
    requires k < n <= |w.script| && Follows(Query(w, action), action, w', n - 1)
    ensures |w.log| + k < |w'.log|
    ensures Satisfies(w'.log[|w.log| + k], action) <==> Tries(w, action)[k].ok
  {
    QueryShifts(w, action, w', n, k);
    TriesHead(w, action);
    if k > 0 {
      assert Tries(w, action)[1..][k - 1] == Tries(w, action)[k];
    }
  }

  lemma {:induction false} QueriedFollows(w: World, action: Action, n: nat)
    requires n <= |w.script|
    ensures Follows(w, action, Queried(w, action, n), n)
    ensures Queried(w, action, n).timeout == w.timeout
    decreases n
  {
    if n > 0 {
      var w1, w' := Query(w, action), Queried(w, action, n);
      QueriedFollows(w1, action, n - 1);
      forall k | 0 <= k < n
        ensures Observes(w'.log[|w.log| + k], w.script[k], action)
        ensures Satisfies(w'.log[|w.log| + k], action) <==> Tries(w, action)[k].ok
      {
        QueryObserves(w, action, w', n, k);
        QuerySatisfies(w, action, w', n, k);
      }
      MovesOnce(w, w1, w');
      assert w'.log[..|w.log|] == w'.log[..|w1.log|][..|w.log|];
      if n == 1 {
        assert Queried(w1, action, 0) == w1;
      }
    }
  }

  /** How many ticks lie between two worlds. */
  function Queries(w: World, w': World): int {
    |w.script| - |w'.script|
  }

  lemma RetriedFollows(w: World, action: Action, done: int, interval: nat)
    ensures var r := Retried(w, action, done, interval); var n := Queries(w, r.world);
            && 0 <= n && Follows(w, action, r.world, n) && r.world.timeout == w.timeout
            && UntilItSucceeds(w.now, done, interval, Tries(w, action)) == Run(r.outcome, r.world.now, n)
  {
    var tries := Tries(w, action);
    var run := UntilItSucceeds(w.now, done, interval, tries);
    SucceedsOnlyAtTheEnd(w.now, done, interval, tries);
    QueriedFollows(w, action, run.attempts);
  }

  /** The same, without the observations. */
  lemma RetriedAdvances(w: World, action: Action, done: int, interval: nat)
    ensures var r := Retried(w, action, done, interval); var n := Queries(w, r.world);
            && 0 <= n && r.world.script == w.script[n..] && r.world.timeout == w.timeout
            && UntilItSucceeds(w.now, done, interval, Tries(w, action)) == Run(r.outcome, r.world.now, n)
  {
    RetriedFollows(w, action, done, interval);
  }

  lemma FollowsPolled(w: World, action: Action, w': World, n: nat)
    requires n <= |w.script| && Follows(w, action, w', n)
    ensures OnlyObserved(w.log, w'.log)
    ensures n > 0 && (forall k :: 0 <= k < n ==> (Tries(w, action)[k].ok <==> k == n - 1)) ==>
              Polled(w.log, w'.log, action)
  {
    forall k | |w.log| <= k < |w'.log|
      ensures (w'.log[k].SawVersion? <==> action.VersionIs?) && !w'.log[k].Applied?
      ensures Satisfies(w'.log[k], action) <==> Tries(w, action)[k - |w.log|].ok
    {
      assert Observes(w'.log[|w.log| + (k - |w.log|)], w.script[k - |w.log|], action);
    }
  }

  /**
   Observations were added to the log, one for each query, and the node may have moved; success is
   the last observation, and no other.
   */
  ghost predicate Observed(w: World, action: Action, r: Retrial) {
    && r.world.plan == w.plan && OnlyObserved(w.log, r.world.log) && StaysOrMoves(w, r.world)
    && |r.world.log| - |w.log| == Queries(w, r.world)
    && (r.outcome.Succeeded? ==>
          Polled(w.log, r.world.log, action) && (action.VersionIs? ==> r.world.node == action.version))
  }

  lemma RetryObserves(w: World, action: Action, done: int, interval: nat)
    ensures Observed(w, action, Retried(w, action, done, interval))
  {
    var r := Retried(w, action, done, interval);
    RetriedFollows(w, action, done, interval);
    OnlyLastOk(w.now, done, interval, Tries(w, action));
    FollowsPolled(w, action, r.world, Queries(w, r.world));
  }

  lemma OnlyLastOk(now: int, done: int, interval: nat, tries: seq<Try>)
    ensures var r := UntilItSucceeds(now, done, interval, tries);
            r.outcome.Succeeded? ==>
              0 < r.attempts <= |tries| && forall k :: 0 <= k < r.attempts ==> (tries[k].ok <==> k == r.attempts - 1)
  {
    SucceedsOnlyAtTheEnd(now, done, interval, tries);
  }

  lemma WaitObserves(w: World, action: Action, clamped: bool)
    ensures Observed(w, action, Waited(w, action, clamped))
  {
    RetryObserves(w, action, w.now + Budget(w), RETRY_INTERVAL);
  }

  /** The observation is not one that was waited for. */
  predicate NotSatisfying(e: Event, action: Action) {
    !Satisfies(e, action) && !e.Applied? && (e.SawVersion? <==> action.VersionIs?)
  }

  /** A wait that does not succeed saw nothing that would have satisfied it. */
  lemma FailedWaitSaw(w: World, action: Action, clamped: bool, i: nat)
    requires !Waited(w, action, clamped).outcome.Succeeded?
    requires i < Queries(w, Waited(w, action, clamped).world)
    ensures var log := Waited(w, action, clamped).world.log;
            |w.log| + i < |log| && NotSatisfying(log[|w.log| + i], action)
  {
    FailedRetrySaw(w, action, w.now + Budget(w), RETRY_INTERVAL, i);
  }

  lemma FailedRetrySaw(w: World, action: Action, done: int, interval: nat, i: nat)
    requires !Retried(w, action, done, interval).outcome.Succeeded?
    requires i < Queries(w, Retried(w, action, done, interval).world)
    ensures var log := Retried(w, action, done, interval).world.log;
            |w.log| + i < |log| && NotSatisfying(log[|w.log| + i], action)
  {
    RetriedFollows(w, action, done, interval);
    FailedTry(w, action, done, interval, i);
    FollowsAt(w, action, Retried(w, action, done, interval).world, i);
  }

  lemma FailedTry(w: World, action: Action, done: int, interval: nat, i: nat)
    requires !Retried(w, action, done, interval).outcome.Succeeded?
    requires i < Queries(w, Retried(w, action, done, interval).world)
    ensures i < |w.script| && !Tries(w, action)[i].ok
  {
    RetriedAdvances(w, action, done, interval);
    SucceedsOnlyAtTheEnd(w.now, done, interval, Tries(w, action));
  }

  lemma FollowsAt(w: World, action: Action, w': World, i: nat)
    requires i < Queries(w, w') && Follows(w, action, w', Queries(w, w')) && !Tries(w, action)[i].ok
    ensures NotSatisfying(w'.log[|w.log| + i], action)
  {
    assert Observes(w'.log[|w.log| + i], w.script[i], action);
  }

  /** One of the first `n` ticks moves the node. */
  predicate SomeMoves(script: seq<Tick>, n: nat)
    requires n <= |script|
  {
    exists k :: 0 <= k < n && script[k].moves
  }

  /** The version of the node after `n` ticks. */
  function NodeAfter(w: World, n: nat): string
    requires n <= |w.script|
  {
    if w.plan.Some? && SomeMoves(w.script, n) then Kubelet(w.plan.value) else w.node
  }

  lemma NodeAfterQuery(w: World, action: Action, n: nat)
    requires n < |w.script|
    ensures NodeAfter(Query(w, action), n) == NodeAfter(w, n + 1)
  {
    var w1 := Query(w, action);
    if k :| 0 <= k < n && w1.script[k].moves {
      assert w.script[k + 1].moves;
    }
    if k :| 0 <= k < n + 1 && w.script[k].moves {
      if k > 0 {
        assert w1.script[k - 1].moves;
      }
    }
  }

  /** What the query of tick `k` sees: the answers of the tick, of the version the node has then. */
  function Seen(w: World, action: Action, k: nat): Event
    requires k < |w.script|
  {
    match action
    case VersionIs(_) => SawVersion(if w.script[k].answers then Some(NodeAfter(w, k + 1)) else None)
    case StatusIs(_) => SawStatus(w.script[k].ready, w.script[k].schedulable)
  }

  lemma SeenFirst(w: World, action: Action)
    requires w.script != []
    ensures Last(Query(w, action).log) == Seen(w, action, 0)
  {
    NodeAfterQuery(w, action, 0);
  }

  lemma SeenLater(w: World, action: Action, k: nat)
    requires 0 < k < |w.script|
    ensures Seen(Query(w, action), action, k - 1) == Seen(w, action, k)
  {
    NodeAfterQuery(w, action, k);
  }

  /** The log holds what the query of tick `k` sees. */
  predicate SeesAt(w: World, action: Action, log: seq<Event>, k: nat)
    requires k < |w.script|
  {
    |w.log| + k < |log| && log[|w.log| + k] == Seen(w, action, k)
  }

  lemma SeesOneMore(w: World, action: Action, w': World, n: nat, k: nat)
    requires k < n <= |w.script| && Follows(Query(w, action), action, w', n - 1)
    requires k > 0 ==> SeesAt(Query(w, action), action, w'.log, k - 1)
    ensures SeesAt(w, action, w'.log, k)
  {
    QueryShifts(w, action, w', n, k);
    if k == 0 {
      SeenFirst(w, action);
    } else {
      SeenLater(w, action, k);
    }
  }

  /** Queries see what their ticks answer, one after the other. */
  lemma {:induction false} QueriesSee(w: World, action: Action, n: nat, k: nat)
    requires k < n <= |w.script|
    ensures SeesAt(w, action, Queried(w, action, n).log, k)
    decreases n
  {
    QueriedFollows(Query(w, action), action, n - 1);
    if k > 0 {
      QueriesSee(Query(w, action), action, n - 1, k - 1);
    }
    SeesOneMore(w, action, Queried(w, action, n), n, k);
  }

  lemma {:induction false} QueriesMove(w: World, action: Action, n: nat)
    requires n <= |w.script|
    ensures Queried(w, action, n).node == NodeAfter(w, n)
    decreases n
  {
    if n > 0 {
      NodeAfterQuery(w, action, n - 1);
      QueriesMove(Query(w, action), action, n - 1);
      assert Queried(w, action, n) == Queried(Query(w, action), action, n - 1);
    } else {
      assert !SomeMoves(w.script, 0);
    }
  }

  /** The same of a wait: what it saw is what the ticks it used answer, no more and no less. */
  lemma WaitSees(w: World, action: Action, clamped: bool)
    ensures var w' := Waited(w, action, clamped).world; var n := Queries(w, w');
            && 0 <= n && |w'.log| == |w.log| + n && w'.node == NodeAfter(w, n)
            && forall k :: 0 <= k < n ==> SeesAt(w, action, w'.log, k)
  {
    RetrySees(w, action, w.now + Budget(w), RETRY_INTERVAL);
  }

  lemma RetrySees(w: World, action: Action, done: int, interval: nat)
    ensures var w' := Retried(w, action, done, interval).world; var n := Queries(w, w');
            && 0 <= n && |w'.log| == |w.log| + n && w'.node == NodeAfter(w, n)
            && forall k :: 0 <= k < n ==> SeesAt(w, action, w'.log, k)
  {
    RetriedFollows(w, action, done, interval);
    var n := Queries(w, Retried(w, action, done, interval).world);
    QueriesMove(w, action, n);
    forall k | 0 <= k < n
      ensures SeesAt(w, action, Queried(w, action, n).log, k)
    {
      QueriesSee(w, action, n, k);
    }
  }

  // Safety

  /** The node went through all applied versions, but perhaps the last one. */
  ghost predicate TakesPath(start: string, path: seq<string>, applied: nat, taken: seq<string>) {
    applied <= |path| &&
    exists m :: applied - 1 <= m <= applied && 0 <= m && taken == [start] + Kubelets(path[..m])
  }

  function Kubelets(path: seq<string>): (r: seq<string>)
    ensures |r| == |path| && forall i :: 0 <= i < |path| ==> r[i] == Kubelet(path[i])
  {
    seq(|path|, i requires 0 <= i < |path| => Kubelet(path[i]))
  }

  /** Every hop of the path changes the version. */
  ghost predicate Fresh(node: string, path: seq<string>) {
    && (path != [] ==> Kubelet(path[0]) != node)
    && (forall i, j :: 0 <= i < j < |path| && j == i + 1 ==> Kubelet(path[i]) != Kubelet(path[j]))
  }

  /** The run has just begun. */
  predicate Untouched(w: World) {
    w.log == [] && w.taken == [w.node] && w.plan == None
  }

  /** What a hop does to the cluster and to the log. */
  lemma HopObserves(w: World, version: string, refused: bool)
    ensures var hop := Hop(w, version, refused); var w' := hop.world;
            && hop.result in {Completed, Failed, StillRunning}
            && |w'.log| - |w.log| == Queries(w, w') + (if refused then 0 else 1)
            && (if refused then hop == End(w, Failed)
                else OneHopLog(w.log, version, w'.log) && StaysOrMoves(w.(plan := Some(version)), w'))
            && (hop.result == Completed ==> Cleared(w.log, version, w'.log) && w'.node == Kubelet(version))
  {
    if !refused {
      var planned := Planned(w, version);
      var seen := WaitedForVersion(w, version);
      WaitObserves(planned, VersionIs(Kubelet(version)), false);
      HopLog(w.log, version, planned.log, seen.world.log);
      if seen.outcome.Succeeded? {
        var cleared := Waited(seen.world, StatusIs("Ready"), true);
        WaitObserves(seen.world, StatusIs("Ready"), true);
        ObservedTransitive(planned.log, seen.world.log, cleared.world.log);
        HopLog(w.log, version, planned.log, cleared.world.log);
        if cleared.outcome.Succeeded? {
          ClearedByWaits(w.log, version, seen.world.log, cleared.world.log);
        }
      }
    }
  }

  /** The first `i` hops are done and the node is where they led. */
  ghost predicate SafeUpTo(start: string, w: World, path: seq<string>, i: nat)
    requires i <= |path|
  {
    && CountApplied(w.log) == i && SafeLog(w.log, path) && (i > 0 ==> HopDone(w.log, path[i - 1]))
    && w.taken == [start] + Kubelets(path[..i]) && w.node == w.taken[i]
  }

  /** What a run along the path has kept to, wherever it ends. */
  ghost predicate SafeEnd(start: string, path: seq<string>, end: End) {
    && end.result in {Completed, Failed, StillRunning}
    && SafeLog(end.world.log, path)
    && TakesPath(start, path, CountApplied(end.world.log), end.world.taken)
    && end.world.taken != [] && end.world.node == end.world.taken[|end.world.taken| - 1]
    && (end.result == Completed && path != [] ==> HopDone(end.world.log, path[|path| - 1]))
    && (end.result == Completed ==>
          CountApplied(end.world.log) == |path| && end.world.taken == [start] + Kubelets(path))
  }

  lemma KubeletsAppend(path: seq<string>, version: string)
    ensures Kubelets(path + [version]) == Kubelets(path) + [Kubelet(version)]
  {
  }

  /** Where the node is after hop `i`. */
  lemma TakenAfterHop(start: string, w: World, path: seq<string>, i: nat, w': World)
    requires i < |path| && Fresh(start, path) && SafeUpTo(start, w, path, i)
    requires StaysOrMoves(w.(plan := Some(path[i])), w')
    ensures TakesPath(start, path, i + 1, w'.taken)
    ensures w'.taken != [] && w'.node == w'.taken[|w'.taken| - 1]
    ensures w'.node == Kubelet(path[i]) ==> w'.taken == [start] + Kubelets(path[..i + 1])
  {
    assert path[..i + 1] == path[..i] + [path[i]];
    KubeletsAppend(path[..i], path[i]);
    if i > 0 {
      assert w.taken[i] == Kubelets(path[..i])[i - 1] == Kubelet(path[..i][i - 1]);
      assert path[..i][i - 1] == path[i - 1];
      assert w.node == Kubelet(path[i - 1]);
    }
    assert w.node != Kubelet(path[i]);
    assert w.taken + [Kubelet(path[i])] == [start] + Kubelets(path[..i + 1]);
  }

  lemma HopKeepsSafe(start: string, w: World, path: seq<string>, i: nat, w': World)
    requires i < |path| && Fresh(start, path) && SafeUpTo(start, w, path, i)
    requires OneHopLog(w.log, path[i], w'.log) && StaysOrMoves(w.(plan := Some(path[i])), w')
    ensures CountApplied(w'.log) == i + 1 && SafeLog(w'.log, path) && TakesPath(start, path, i + 1, w'.taken)
    ensures w'.taken != [] && w'.node == w'.taken[|w'.taken| - 1]
    ensures w'.node == Kubelet(path[i]) ==> w'.taken == [start] + Kubelets(path[..i + 1])
  {
    CountHop(w.log, path[i], w'.log);
    SafeHop(w.log, path[i], w'.log, path);
    TakenAfterHop(start, w, path, i, w');
  }

  lemma SafeBefore(start: string, w: World, path: seq<string>, i: nat)
    requires i <= |path| && SafeUpTo(start, w, path, i)
    ensures SafeEnd(start, path, End(w, if i == |path| then Completed else Failed))
  {
    assert path[..|path|] == path;
    assert TakesPath(start, path, i, w.taken);
  }

  lemma SafeInside(start: string, w: World, path: seq<string>, i: nat, hop: End)
    requires i < |path| && Fresh(start, path) && SafeUpTo(start, w, path, i)
    requires OneHopLog(w.log, path[i], hop.world.log) && StaysOrMoves(w.(plan := Some(path[i])), hop.world)
    requires hop.result in {Failed, StillRunning}
    ensures SafeEnd(start, path, hop)
  {
    HopKeepsSafe(start, w, path, i, hop.world);
  }

  lemma SafeAfter(start: string, w: World, path: seq<string>, i: nat, w': World)
    requires i < |path| && Fresh(start, path) && SafeUpTo(start, w, path, i)
    requires Cleared(w.log, path[i], w'.log) && StaysOrMoves(w.(plan := Some(path[i])), w')
    requires w'.node == Kubelet(path[i])
    ensures SafeUpTo(start, w', path, i + 1)
  {
    HopKeepsSafe(start, w, path, i, w');
    ClearedIsDone(w.log, path[i], w'.log);
  }

  lemma {:induction false} AlongIsSafe(start: string, w: World, path: seq<string>, refused: set<nat>, i: nat)
    requires i <= |path| && Fresh(start, path) && SafeUpTo(start, w, path, i)
    ensures SafeEnd(start, path, Along(w, path, refused, i))
    decreases |path| - i
  {
    if i == |path| || i in refused {
      SafeBefore(start, w, path, i);
    } else {
      var hop := Hop(w, path[i], false);
      HopObserves(w, path[i], false);
      if hop.result == Completed {
        SafeAfter(start, w, path, i, hop.world);
        AlongIsSafe(start, hop.world, path, refused, i + 1);
      } else {
        SafeInside(start, w, path, i, hop);
      }
    }
  }

  // Versions

  lemma {:induction false} NoDashKept(version: string)
    requires '-' !in version
    ensures Kubelet(version) == version
  {
    if version != "" {
      assert '-' !in version[1..];
      NoDashKept(version[1..]);
      assert version == [version[0]] + version[1..];
    }
  }

  lemma VersionKept(r: Release)
    requires WellFormed(r)
    ensures Kubelet(Version(r)) == Version(r)
  {
    assert '-' !in MinorText(r.minor);
    NoDashKept(Version(r));
  }

  lemma VersionsKept(releases: seq<Release>, a: nat, b: nat)
    requires Stepwise(releases) && a <= b <= |releases|
    ensures Kubelets(Versions(releases)[a..b]) == Versions(releases)[a..b]
  {
    forall i | a <= i < b
      ensures Kubelet(Version(releases[i])) == Version(releases[i])
    {
      assert WellFormed(releases[i]);
      VersionKept(releases[i]);
    }
  }

  lemma StretchIsFresh(node: string, path: seq<string>)
    requires Kubelets(path) == path && Distinct(path) && node !in path
    ensures Fresh(node, path)
  {
    forall i | 0 <= i < |path|
      ensures Kubelet(path[i]) == path[i]
    {
      assert Kubelets(path)[i] == path[i];
    }
  }

  /** The planner never lists the version the node already has, nor one version twice. */
  lemma PathIsFresh(releases: seq<Release>, current: string, target: string)
    requires Stepwise(releases)
    ensures Fresh(current, Path(Versions(releases), current, target))
    ensures Kubelets(Path(Versions(releases), current, target)) == Path(Versions(releases), current, target)
  {
    VersionsDistinct(releases);
    var first := PathIsLaterStretch(Versions(releases), current, target);
    var path := Path(Versions(releases), current, target);
    VersionsKept(releases, first, first + |path|);
    StretchIsFresh(current, path);
  }

  // The command

  /**
   The plans of the path were applied in order, each later one only after the node was observed at the
   version before and then let through; the node took a prefix of the path; and completion means that
   all of this has happened for the whole path.
   */
  ghost predicate SafeRun(start: string, path: seq<string>, end: End) {
    var log, taken := end.world.log, end.world.taken;
    && SafeLog(log, path)
    && TakesPath(start, path, CountApplied(log), taken)
    && taken != [] && end.world.node == Last(taken)
    && (end.result == Completed ==> path != [] && taken == [start] + path && HopDone(log, Last(path)))
  }

  lemma SafeAtRest(w: World, path: seq<string>, result: UpgradeResult)
    requires Untouched(w) && result != Completed
    ensures SafeRun(w.node, path, End(w, result))
    ensures SafeUpTo(w.node, w, path, 0)
  {
    assert path[..0] == [];
    assert TakesPath(w.node, path, 0, w.taken);
  }

  lemma SafeAlong(w: World, path: seq<string>, refused: set<nat>)
    requires Untouched(w) && path != [] && Fresh(w.node, path) && Kubelets(path) == path
    ensures SafeRun(w.node, path, Along(w, path, refused, 0))
  {
    SafeAtRest(w, path, Failed);
    AlongIsSafe(w.node, w, path, refused, 0);
  }

  /** Every run of the command is safe. */
  lemma UpgradeIsSafe(w: World, releases: seq<Release>, target: string, calls: Calls)
    requires Stepwise(releases) && Untouched(w)
    ensures SafeRun(w.node, Path(Versions(releases), w.node, target), Upgraded(w, releases, target, calls))
  {
    var path := Path(Versions(releases), w.node, target);
    if w.node == target || path == [] || !calls.ready {
      SafeAtRest(w, path, Upgraded(w, releases, target, calls).result);
    } else {
      PathIsFresh(releases, w.node, target);
      SafeAlong(w, path, calls.refused);
    }
  }

  // Readiness

  ghost predicate PlainScript(script: seq<Tick>) {
    forall k :: 0 <= k < |script| ==> Plain(script[k].ready) && Plain(script[k].schedulable)
  }

  lemma FollowsPlain(w: World, action: Action, w': World, n: nat)
    requires n <= |w.script| && Follows(w, action, w', n) && PlainScript(w.script) && PlainLog(w.log)
    ensures PlainScript(w'.script) && PlainLog(w'.log)
  {
    forall j | 0 <= j < |w'.log| && w'.log[j].SawStatus?
      ensures Plain(w'.log[j].ready) && Plain(w'.log[j].schedulable)
    {
      if j < |w.log| {
        assert w'.log[j] == w'.log[..|w.log|][j] == w.log[j];
      } else {
        assert Observes(w'.log[|w.log| + (j - |w.log|)], w.script[j - |w.log|], action);
      }
    }
  }

  lemma RetryIsPlain(w: World, action: Action, done: int, interval: nat)
    requires PlainScript(w.script) && PlainLog(w.log)
    ensures var w' := Retried(w, action, done, interval).world; PlainScript(w'.script) && PlainLog(w'.log)
  {
    RetriedFollows(w, action, done, interval);
    var w' := Retried(w, action, done, interval).world;
    FollowsPlain(w, action, w', Queries(w, w'));
  }

  lemma WaitIsPlain(w: World, action: Action, clamped: bool)
    requires PlainScript(w.script) && PlainLog(w.log)
    ensures var w' := Waited(w, action, clamped).world; PlainScript(w'.script) && PlainLog(w'.log)
  {
    RetryIsPlain(w, action, w.now + Budget(w), RETRY_INTERVAL);
  }

  lemma HopIsPlain(w: World, version: string, refused: bool)
    requires PlainScript(w.script) && PlainLog(w.log)
    ensures var w' := Hop(w, version, refused).world; PlainScript(w'.script) && PlainLog(w'.log)
  {
    var seen := WaitedForVersion(w, version);
    WaitIsPlain(Planned(w, version), VersionIs(Kubelet(version)), false);
    WaitIsPlain(seen.world, StatusIs("Ready"), true);
  }

  lemma {:induction false} AlongIsPlain(w: World, path: seq<string>, refused: set<nat>, i: nat)
    requires i <= |path| && PlainScript(w.script) && PlainLog(w.log)
    ensures PlainLog(Along(w, path, refused, i).world.log)
    decreases |path| - i
  {
    if i < |path| {
      var hop := Hop(w, path[i], i in refused);
      HopIsPlain(w, path[i], i in refused);
      if hop.result == Completed {
        AlongIsPlain(hop.world, path, refused, i + 1);
      }
    }
  }

  /** A run goes on from ready nodes only exactly if it never rests on an unexpected answer. */
  lemma OnReadyExactly(w: World, releases: seq<Release>, target: string, calls: Calls)
    requires Stepwise(releases) && Untouched(w)
    ensures var path := Path(Versions(releases), w.node, target);
            var end := Upgraded(w, releases, target, calls);
            && (AllOnReady(end.world.log, path) <==> AllRestOnPlain(end.world.log))
            && (end.result == Completed ==>
                  path != [] && (ReadyFor(end.world.log, Last(path)) <==> PlainAtEnd(end.world.log)))
  {
    var path := Path(Versions(releases), w.node, target);
    var end := Upgraded(w, releases, target, calls);
    UpgradeIsSafe(w, releases, target, calls);
    AllOnReadyExactly(end.world.log, path);
    if end.result == Completed {
      DoneOnReady(end.world.log, Last(path));
    }
  }

  /** On a cluster that answers as expected every plan but the first finds a ready node, and so does completion. */
  lemma PlainAnswersSuffice(w: World, releases: seq<Release>, target: string, calls: Calls)
    requires Stepwise(releases) && Untouched(w) && PlainScript(w.script)
    ensures var path := Path(Versions(releases), w.node, target);
            var end := Upgraded(w, releases, target, calls);
            && AllOnReady(end.world.log, path)
            && (end.result == Completed ==> path != [] && ReadyFor(end.world.log, Last(path)))
  {
    var path := Path(Versions(releases), w.node, target);
    UpgradeIsSafe(w, releases, target, calls);
    AlongIsPlain(w, path, calls.refused, 0);
    PlainLogSuffices(Upgraded(w, releases, target, calls).world.log, path);
  }

  lemma FirstTryPasses(w: World, action: Action, clamped: bool)
    requires w.script != [] && Budget(w) > 0 && Satisfies(Last(Query(w, action).log), action)
    ensures var w' := Query(w, action).(now := w.now + w.script[0].took);
            Waited(w, action, clamped) ==
            Retrial(w'.(timeout := Some(Remaining(w.now + Budget(w), w'.now, clamped))), Succeeded)
  {
    TriesHead(w, action);
    RetriedTurn(w, action, w.now + Budget(w), RETRY_INTERVAL);
  }

  /** A script on which the node is at the first version at once, and then of unknown state. */
  function UnknownScript(): seq<Tick> {
    [Tick(0, true, true, None, None), Tick(0, false, false, Some("Unknown"), Some("True"))]
  }

  function UnknownLog(a: string): seq<Event> {
    [Applied(a), SawVersion(Some(Kubelet(a))), SawStatus(Some("Unknown"), Some("True"))]
  }

  lemma UnknownLogIsNotReady(a: string)
    ensures CountApplied(UnknownLog(a)) == 1 && !ReadyFor(UnknownLog(a), a)
  {
    var log := UnknownLog(a);
    assert OneHopLog([], a, log) by {
      assert log[..0] == [];
    }
    CountHop([], a, log);
    UnknownIsAccepted();
    assert !Ready(log[2]);
  }

  /** The failing case: the second plan goes to a node that was never seen ready at the first version. */
  lemma UnknownIsUpgraded(node: string, a: string, b: string)
    ensures var w := World(UnknownScript(), 0, node, None, None, [], [node]);
            var log := Along(w, [a, b], {}, 0).world.log;
            log == UnknownLog(a) + [Applied(b)] && LaterPlan(log, 3) && !AllOnReady(log, [a, b])
  {
    var w := World(UnknownScript(), 0, node, None, None, [], [node]);
    UnknownHop(w, a);
    var w' := Hop(w, a, false).world;
    UnknownEnds(Planned(w', b), VersionIs(Kubelet(b)));
    assert Hop(w', b, false) == End(Planned(w', b), StillRunning);
    assert Along(w, [a, b], {}, 0) == Along(w', [a, b], {}, 1);
    NotAllOnReady(UnknownLog(a) + [Applied(b)], a, b);
  }

  lemma NotAllOnReady(log: seq<Event>, a: string, b: string)
    requires log == UnknownLog(a) + [Applied(b)]
    ensures LaterPlan(log, 3) && !AllOnReady(log, [a, b])
  {
    assert log[..3] == UnknownLog(a);
    UnknownLogIsNotReady(a);
  }

  lemma UnknownHop(w: World, a: string)
    requires w.script == UnknownScript() && w.timeout == None && w.log == []
    ensures var hop := Hop(w, a, false);
            && hop.result == Completed && hop.world.script == [] && hop.world.timeout == Some(DEFAULT_TIMEOUT)
            && hop.world.log == UnknownLog(a)
  {
    var planned := Planned(w, a);
    FirstTryPasses(planned, VersionIs(Kubelet(a)), false);
    var seen := WaitedForVersion(w, a).world;
    UnknownIsAccepted();
    FirstTryPasses(seen, StatusIs("Ready"), true);
  }

  lemma UnknownEnds(w: World, action: Action)
    requires w.script == [] && Budget(w) > 0
    ensures Waited(w, action, false) == Retrial(w, Running)
  {
  }
}
