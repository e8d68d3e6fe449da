/**
 Waiting for a deployment to complete: the applications are polled until all of them are synced
 and healthy, or one of them has been unfinished for longer than it may. Times are in nanoseconds.
 */
module Completion {
  import opened Wrappers
  import opened Clock

  const MINUTE := 60 * SECOND
  const POLL_PERIOD: nat := 10 * SECOND
  const DEFAULT_MAX_DURATION := 60 * MINUTE

  const MAX_DURATION_OVERRIDES: map<string, int> := map[
    "istiod" := 30 * MINUTE,
    "kiali" := 35 * MINUTE,
    "kube-prometheus-stack" := 25 * MINUTE,
    "kyverno" := 15 * MINUTE,
    "mimir" := 20 * MINUTE,
    "orchestrator-observability" := 40 * MINUTE,
    "postgresql-operator" := 10 * MINUTE,
    "postgresql-cluster" := 30 * MINUTE,
    "postgresql" := 30 * MINUTE,
    "edgenode-observability" := 40 * MINUTE,
    "root-app" := 120 * MINUTE,
    "secrets-config" := 90 * MINUTE,
    "sre-exporter" := 20 * MINUTE,
    "traefik" := 20 * MINUTE
  ]

  /** An ArgoCD application; the timestamps may be unset. */
  datatype App = App(name: string, created: Option<int>, sync: string, health: string, reconciled: Option<int>)

  function MaxDuration(name: string): int {
    if name in MAX_DURATION_OVERRIDES then MAX_DURATION_OVERRIDES[name] else DEFAULT_MAX_DURATION
  }

  predicate Finished(a: App) {
    a.sync == "Synced" && a.health == "Healthy"
  }

  predicate Unfinished(a: App) {
    a.created.Some? && !Finished(a)
  }

  /** The moment an unfinished application is timed from. */
  function Since(a: App): int
    requires a.created.Some?
  {
    if a.reconciled.Some? && a.health != "Degraded" then a.reconciled.value else a.created.value
  }

  predicate Overdue(a: App, now: int) {
    Unfinished(a) && now - Since(a) > MaxDuration(a.name)
  }

  datatype Verdict = Empty | NotReady | Exceeded(app: App) | Ready

  /** The first application past its own limit. */
  function FirstOverdue(items: seq<App>, now: int): Option<App> {
    if items == [] then None else if Overdue(items[0], now) then Some(items[0]) else FirstOverdue(items[1..], now)
  }

  /** What one scan of the applications finds. */
  function VerdictOf(items: seq<App>, now: int): Verdict {
    if items == [] then Empty
    else if FirstOverdue(items, now).Some? then Exceeded(FirstOverdue(items, now).value)
    else if exists i :: 0 <= i < |items| && Unfinished(items[i]) then NotReady
    else Ready
  }

  method CheckApps(items: seq<App>, now: int) returns (v: Verdict)
    ensures v == VerdictOf(items, now)
  {
    if items == [] {
      return Empty;
    }
    var notReady: seq<App> := [];
    for i := 0 to |items|
      invariant FirstOverdue(items, now) == FirstOverdue(items[i..], now)
      invariant notReady != [] <==> exists j :: 0 <= j < i && Unfinished(items[j])
    {
      var app := items[i];
      if app.created.None? || Finished(app) {
        continue;
      }
      notReady := notReady + [app];
      var deployMax := DEFAULT_MAX_DURATION;
      if app.name in MAX_DURATION_OVERRIDES {
        deployMax := MAX_DURATION_OVERRIDES[app.name];
      }
      var since := app.created.value;
      if app.reconciled.Some? && app.health != "Degraded" {
        since := app.reconciled.value;
      }
      if now - since > deployMax {
        return Exceeded(app);
      }
    }
    v := if notReady != [] then NotReady else Ready;
  }

  lemma {:induction false} FirstOverdueMeans(items: seq<App>, now: int)
    ensures FirstOverdue(items, now).Some? <==> exists a :: a in items && Overdue(a, now)
    ensures FirstOverdue(items, now).Some? ==>
              FirstOverdue(items, now).value in items && Overdue(FirstOverdue(items, now).value, now)
  {
    if items != [] {
      FirstOverdueMeans(items[1..], now);
      assert items == [items[0]] + items[1..];
    }
  }

  /** The limit of an application is its override in the table, or an hour. */
  lemma LimitMeans(name: string)
    ensures name in MAX_DURATION_OVERRIDES ==> MaxDuration(name) == MAX_DURATION_OVERRIDES[name]
    ensures name !in MAX_DURATION_OVERRIDES ==> MaxDuration(name) == 3600 * SECOND
  {
  }

  /**
   An application is late that was created, is not both synced and healthy, and has been so for longer
   than its limit: since it was reconciled, or, if it never was or is degraded, since it was created.
   */
  predicate Late(a: App, now: int) {
    && a.created.Some? && (a.sync != "Synced" || a.health != "Healthy")
    && (a.reconciled.Some? && a.health != "Degraded" ==> now - a.reconciled.value > MaxDuration(a.name))
    && (a.reconciled.None? || a.health == "Degraded" ==> now - a.created.value > MaxDuration(a.name))
  }

  lemma OverdueIsLate(a: App, now: int)
    ensures Overdue(a, now) <==> Late(a, now)
  {
    var limit := MaxDuration(a.name);
  }

  /** The four verdicts, told from the fields of the applications alone. */
  lemma VerdictMeans(items: seq<App>, now: int)
    ensures VerdictOf(items, now).Empty? <==> items == []
    ensures VerdictOf(items, now).Exceeded? <==> exists a :: a in items && Late(a, now)
    ensures VerdictOf(items, now).Exceeded? ==>
              VerdictOf(items, now).app in items && Late(VerdictOf(items, now).app, now)
    ensures VerdictOf(items, now).Ready? <==>
              items != [] && forall a :: a in items && a.created.Some? ==> a.sync == "Synced" && a.health == "Healthy"
  {
    FirstOverdueMeans(items, now);
    forall a
      ensures Overdue(a, now) <==> Late(a, now)
    {
      OverdueIsLate(a, now);
    }
    ReadyMeans(items, now);
  }

  lemma ReadyMeans(items: seq<App>, now: int)
    ensures VerdictOf(items, now).Ready? <==>
              items != [] && forall a :: a in items && a.created.Some? ==> a.sync == "Synced" && a.health == "Healthy"
  {
    FirstOverdueMeans(items, now);
    if exists i :: 0 <= i < |items| && Unfinished(items[i]) {
      var i :| 0 <= i < |items| && Unfinished(items[i]);
      assert items[i] in items;
    }
  }

  /** The order of the applications decides which overdue one is named, but not the verdict. */
  lemma OrderIrrelevant(items: seq<App>, items': seq<App>, now: int)
    requires forall a :: a in items <==> a in items'
    ensures var v, w := VerdictOf(items, now), VerdictOf(items', now);
            && (v.Empty? <==> w.Empty?) && (v.Exceeded? <==> w.Exceeded?)
            && (v.Ready? <==> w.Ready?) && (v.NotReady? <==> w.NotReady?)
  {
    VerdictMeans(items, now);
    VerdictMeans(items', now);
    if items' != [] {
      assert items'[0] in items;
    }
    if items != [] {
      assert items[0] in items';
    }
  }

  // The loop

  /** One poll: how long it took, and the applications it found, unless it failed. */
  datatype Poll = Poll(took: nat, items: Option<seq<App>>)

  /** `Running`: the observed part of the run ends before the loop does. */
  datatype Ending = Complete | TooLong(app: App) | Cancelled | Running

  /** The verdict of a poll that ends at `t`; a failed poll says as little as an empty one. */
  function PollVerdict(p: Poll, t: int): Verdict {
    match p.items
    case None => Empty
    case Some(items) => VerdictOf(items, t)
  }

  /** The context is done by time `t`. */
  predicate DoneBy(done: Option<int>, t: int) {
    done.Some? && done.value <= t
  }

  /** The loop begun at `now`, under a context that is done at `done`, if ever. */
  function Loop(now: int, done: Option<int>, polls: seq<Poll>): Run<Ending>
    decreases |polls|
  {
    if polls == [] then Run(Running, now, 0)
    else
      var t := now + polls[0].took;
      match PollVerdict(polls[0], t)
      case Exceeded(app) => Run(TooLong(app), t, 1)
      case Ready => Run(Complete, t, 1)
      case _ =>
        if DoneBy(done, t + POLL_PERIOD) then Run(Cancelled, Later(t, done.value), 1)
        else
          var rest := Loop(t + POLL_PERIOD, done, polls[1..]);
          rest.(attempts := rest.attempts + 1)
  }

  method WaitUntilComplete(start: int, done: Option<int>, polls: seq<Poll>) returns (r: Run<Ending>)
    ensures r == Loop(start, done, polls)
  {
    var now, i := start, 0;
    while i < |polls|
      invariant 0 <= i <= |polls|
      invariant Loop(start, done, polls) == var r := Loop(now, done, polls[i..]); r.(attempts := r.attempts + i)
    {
      assert polls[i..][1..] == polls[i + 1..];
      now := now + polls[i].took;
      if polls[i].items.Some? {
        var v := CheckApps(polls[i].items.value, now);
        match v
        case Exceeded(app) => return Run(TooLong(app), now, i + 1);
        case Ready => return Run(Complete, now, i + 1);
        case _ =>
      }
      if DoneBy(done, now + POLL_PERIOD) {
        return Run(Cancelled, Later(now, done.value), i + 1);
      }
      now := now + POLL_PERIOD;
      i := i + 1;
    }
    return Run(Running, now, i);
  }

  /** When poll `i` ends, if the loop gets that far. */
  function CheckedAt(now: int, polls: seq<Poll>, i: nat): int
    requires i < |polls|
    decreases i
  {
    if i == 0 then now + polls[0].took else CheckedAt(now + polls[0].took + POLL_PERIOD, polls[1..], i - 1)
  }

  /** Some poll up to the end of the run found an application past its own limit. */
  ghost predicate SawLate(now: int, polls: seq<Poll>, n: nat)
    requires n <= |polls|
  {
    exists i, a :: 0 <= i < n && FoundLate(polls[i], CheckedAt(now, polls, i), a)
  }

  ghost predicate FoundLate(p: Poll, t: int, a: App) {
    p.items.Some? && a in p.items.value && Late(a, t)
  }

  lemma PollExceeded(p: Poll, t: int)
    ensures PollVerdict(p, t).Exceeded? <==> exists a :: FoundLate(p, t, a)
    ensures PollVerdict(p, t).Exceeded? ==> FoundLate(p, t, PollVerdict(p, t).app)
  {
    if p.items.Some? {
      VerdictMeans(p.items.value, t);
      if PollVerdict(p, t).Exceeded? {
        assert FoundLate(p, t, PollVerdict(p, t).app);
      }
      if a :| FoundLate(p, t, a) {
        assert a in p.items.value && Late(a, t);
      }
    }
  }

  /** The loop reports success or failure for its last poll only, and exactly when that poll says so. */
  lemma {:induction false} VerdictsDecide(now: int, done: Option<int>, polls: seq<Poll>)
    ensures var r := Loop(now, done, polls);
            && r.attempts <= |polls|
            && (r.outcome.Complete? <==>
                  r.attempts > 0 && PollVerdict(polls[r.attempts - 1], CheckedAt(now, polls, r.attempts - 1)).Ready?)
            && (r.outcome.TooLong? <==>
                  r.attempts > 0 && PollVerdict(polls[r.attempts - 1], CheckedAt(now, polls, r.attempts - 1)).Exceeded?)
            && (forall i :: 0 <= i < r.attempts - 1 ==>
                  PollVerdict(polls[i], CheckedAt(now, polls, i)) in {Empty, NotReady})
    decreases |polls|
  {
    if polls != [] {
      var t := now + polls[0].took;
      if PollVerdict(polls[0], t) in {Empty, NotReady} && !DoneBy(done, t + POLL_PERIOD) {
        VerdictsDecide(t + POLL_PERIOD, done, polls[1..]);
        var r := Loop(t + POLL_PERIOD, done, polls[1..]);
        forall i | 0 <= i < r.attempts
          ensures PollVerdict(polls[i], CheckedAt(now, polls, i)) in {Empty, NotReady} || i == r.attempts
        {
          if i > 0 {
            assert polls[i] == polls[1..][i - 1];
          }
        }
      }
    }
  }

  /** The run fails exactly when some poll of it found an application past its own limit, and names such a one. */
  lemma FailsExactlyWhenOverdue(now: int, done: Option<int>, polls: seq<Poll>)
    ensures var r := Loop(now, done, polls);
            && r.attempts <= |polls|
            && (r.outcome.TooLong? <==> SawLate(now, polls, r.attempts))
            && (r.outcome.TooLong? ==>
                  r.attempts > 0 &&
                  FoundLate(polls[r.attempts - 1], CheckedAt(now, polls, r.attempts - 1), r.outcome.app))
  {
    var r := Loop(now, done, polls);
    VerdictsDecide(now, done, polls);
    EndsExactly(now, done, polls);
    forall i | 0 <= i < r.attempts
      ensures PollVerdict(polls[i], CheckedAt(now, polls, i)).Exceeded? <==>
              exists a :: FoundLate(polls[i], CheckedAt(now, polls, i), a)
    {
      PollExceeded(polls[i], CheckedAt(now, polls, i));
    }
    if r.attempts > 0 {
      PollExceeded(polls[r.attempts - 1], CheckedAt(now, polls, r.attempts - 1));
    }
  }

  /** A poll is checked a period after the one before, and then for as long as it takes. */
  lemma {:induction false} CheckedNext(now: int, polls: seq<Poll>, i: nat)
    requires i < |polls|
    ensures CheckedAt(now, polls, i) ==
            polls[i].took + if i == 0 then now else CheckedAt(now, polls, i - 1) + POLL_PERIOD
    decreases i
  {
    if i > 0 {
      CheckedNext(now + polls[0].took + POLL_PERIOD, polls[1..], i - 1);
    }
  }

  /** Poll `i` says that the loop goes on, and nothing cancels it before the next one. */
  predicate GoesOn(now: int, done: Option<int>, polls: seq<Poll>, i: nat)
    requires i < |polls|
  {
    && PollVerdict(polls[i], CheckedAt(now, polls, i)) in {Empty, NotReady}
    && (done.None? || CheckedAt(now, polls, i) + POLL_PERIOD < done.value)
  }

  /** How and when the loop ends: at its first poll that does not go on. */
  lemma {:induction false} EndsExactly(now: int, done: Option<int>, polls: seq<Poll>)
    ensures var r := Loop(now, done, polls);
            && r.attempts <= |polls|
            && (forall i :: 0 <= i < r.attempts - 1 ==> GoesOn(now, done, polls, i))
            && if r.attempts == 0 then r == Run(Running, now, 0) && polls == []
               else
                 var t := CheckedAt(now, polls, r.attempts - 1);
                 if GoesOn(now, done, polls, r.attempts - 1)
                 then r == Run(Running, t + POLL_PERIOD, |polls|)
                 else
                   match PollVerdict(polls[r.attempts - 1], t)
                   case Exceeded(app) => r.outcome == TooLong(app) && r.end == t
                   case Ready => r.outcome == Complete && r.end == t
                   case _ => r.outcome == Cancelled && done.Some? && r.end == Later(t, done.value)
    decreases |polls|
  {
    if polls != [] {
      var t := now + polls[0].took;
      if GoesOn(now, done, polls, 0) {
        EndsExactly(t + POLL_PERIOD, done, polls[1..]);
        var r := Loop(t + POLL_PERIOD, done, polls[1..]);
        forall i | 0 <= i < r.attempts
          ensures GoesOn(now, done, polls, i)
        {
          if i > 0 {
            assert GoesOn(t + POLL_PERIOD, done, polls[1..], i - 1);
            GoesOnLater(now, done, polls, i);
          }
        }
        if r.attempts > 0 {
          GoesOnLater(now, done, polls, r.attempts);
        }
      }
    }
  }

  lemma GoesOnLater(now: int, done: Option<int>, polls: seq<Poll>, i: nat)
    requires 0 < i < |polls|
    ensures var now' := now + polls[0].took + POLL_PERIOD;
            && CheckedAt(now, polls, i) == CheckedAt(now', polls[1..], i - 1)
            && (GoesOn(now, done, polls, i) <==> GoesOn(now', done, polls[1..], i - 1))
  {
  }

  /** The run succeeds exactly if its last poll found applications, every created one synced and healthy. */
  lemma CompletesExactlyWhenFinished(now: int, done: Option<int>, polls: seq<Poll>)
    ensures var n := Loop(now, done, polls).attempts;
            && n <= |polls|
            && (Loop(now, done, polls).outcome.Complete? <==>
                  && 0 < n && polls[n - 1].items.Some? && polls[n - 1].items.value != []
                  && forall a :: a in polls[n - 1].items.value && a.created.Some? ==>
                       a.sync == "Synced" && a.health == "Healthy")
  {
    VerdictsDecide(now, done, polls);
    var n := Loop(now, done, polls).attempts;
    if n > 0 && polls[n - 1].items.Some? {
      VerdictMeans(polls[n - 1].items.value, CheckedAt(now, polls, n - 1));
    }
  }

  /** Every poll succeeds and finds an application of this name and age degraded. */
  predicate StaysDegraded(polls: seq<Poll>, name: string, created: int) {
    forall i :: 0 <= i < |polls| ==>
      polls[i].items.Some? &&
      exists a :: a in polls[i].items.value && a.name == name && a.created == Some(created) && a.health == "Degraded"
  }

  /** No poll is content, and any poll that ends after `due` finds an application past its limit. */
  ghost predicate DueAt(polls: seq<Poll>, due: int) {
    forall i, t :: 0 <= i < |polls| ==>
      !PollVerdict(polls[i], t).Ready? && (t > due ==> PollVerdict(polls[i], t).Exceeded?)
  }

  lemma DegradedIsDue(items: seq<App>, a: App, t: int)
    requires a in items && a.created.Some? && a.health == "Degraded"
    ensures !VerdictOf(items, t).Ready?
    ensures t > a.created.value + MaxDuration(a.name) ==> VerdictOf(items, t).Exceeded?
  {
    VerdictMeans(items, t);
    var limit := MaxDuration(a.name);
    assert Late(a, t) <==> t - a.created.value > limit;
  }

  lemma {:induction false} EndsWhenDue(now: int, done: Option<int>, polls: seq<Poll>, due: int)
    requires DueAt(polls, due)
    ensures var r := Loop(now, done, polls);
            && r.attempts <= |polls|
            && !r.outcome.Complete?
            && r.end <= Later(now, due + POLL_PERIOD) +
                        (if 0 < r.attempts && !r.outcome.Running? then polls[r.attempts - 1].took else 0)
    decreases |polls|
  {
    if polls != [] {
      var t := now + polls[0].took;
      assert DueAt(polls[1..], due);
      if t <= due {
        EndsWhenDue(t + POLL_PERIOD, done, polls[1..], due);
      } else {
        assert PollVerdict(polls[0], t).Exceeded?;
      }
    }
  }

  /** A deployment stuck on a degraded application is given up within its limit and one poll more. */
  lemma DegradedEndsInTime(now: int, done: Option<int>, polls: seq<Poll>, name: string, created: int)
    requires StaysDegraded(polls, name, created)
    ensures var r := Loop(now, done, polls);
            && r.attempts <= |polls|
            && !r.outcome.Complete?
            && r.end <= Later(now, created + MaxDuration(name) + POLL_PERIOD) +
                        (if 0 < r.attempts && !r.outcome.Running? then polls[r.attempts - 1].took else 0)
  {
    var due := created + MaxDuration(name);
    forall i, t | 0 <= i < |polls|
      ensures !PollVerdict(polls[i], t).Ready? && (t > due ==> PollVerdict(polls[i], t).Exceeded?)
    {
      var items := polls[i].items.value;
      var a :| a in items && a.name == name && a.created == Some(created) && a.health == "Degraded";
      DegradedIsDue(items, a, t);
    }
    EndsWhenDue(now, done, polls, due);
  }

  /** A run still going after some polls has been going for as many periods. */
  lemma {:induction false} PollingTakesTime(now: int, done: Option<int>, polls: seq<Poll>)
    requires Loop(now, done, polls).outcome.Running?
    ensures now + |polls| * POLL_PERIOD <= Loop(now, done, polls).end
    decreases |polls|
  {
    if polls != [] {
      PollingTakesTime(now + polls[0].took + POLL_PERIOD, done, polls[1..]);
    }
  }

  /** Once the polls alone outlast the limit by more than a period, a stuck deployment has been given up. */
  lemma StuckIsGivenUp(now: int, done: Option<int>, polls: seq<Poll>, name: string, created: int)
    requires StaysDegraded(polls, name, created)
    requires |polls| > 0 && (|polls| - 1) * POLL_PERIOD > created + MaxDuration(name) - now
    ensures Loop(now, done, polls).outcome.TooLong? || Loop(now, done, polls).outcome.Cancelled?
  {
    DegradedEndsInTime(now, done, polls, name, created);
    if Loop(now, done, polls).outcome.Running? {
      PollingTakesTime(now, done, polls);
    }
  }
}
