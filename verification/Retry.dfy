/** Retrying an action until it succeeds or its context is done, and the time that takes. */
module Retry {
  import opened Clock

  /** One call of the action: how long it took, and whether it succeeded. */
  datatype Try = Try(took: nat, ok: bool)

  /** `Running`: the observed part of the run ends before the retry loop does. */
  datatype Outcome = Succeeded | Expired | Running

  /**
   The retry loop begun at `now` under a context that is done at `done`, when the calls of the
   action go as in `tries`.
   */
  function UntilItSucceeds(now: int, done: int, interval: nat, tries: seq<Try>): Run<Outcome>
    decreases |tries|
  {
    if done <= now then Run(Expired, now, 0)
    else if tries == [] then Run(Running, now, 0)
    else
      var t := now + tries[0].took;
      if tries[0].ok then Run(Succeeded, t, 1)
      else if done <= t + interval then Run(Expired, Later(t, done), 1)
      else
        var rest := UntilItSucceeds(t + interval, done, interval, tries[1..]);
        rest.(attempts := rest.attempts + 1)
  }

  /** One more attempt at the end of a run that is still going. */
  lemma {:induction false} OneMoreTry(start: int, done: int, interval: nat, tries: seq<Try>, now: int, t: Try)
    requires UntilItSucceeds(start, done, interval, tries) == Run(Running, now, |tries|)
    ensures UntilItSucceeds(start, done, interval, tries + [t]) ==
            if t.ok then Run(Succeeded, now + t.took, |tries| + 1)
            else if done <= now + t.took + interval then Run(Expired, Later(now + t.took, done), |tries| + 1)
            else Run(Running, now + t.took + interval, |tries| + 1)
    decreases |tries|
  {
    if tries == [] {
      assert tries + [t] == [t];
    } else {
      assert (tries + [t])[0] == tries[0] && (tries + [t])[1..] == tries[1..] + [t];
      OneMoreTry(start + tries[0].took + interval, done, interval, tries[1..], now, t);
    }
  }

  /** Success means that the last attempt succeeded and no other did; anything else that none did. */
  lemma {:induction false} SucceedsOnlyAtTheEnd(now: int, done: int, interval: nat, tries: seq<Try>)
    ensures var r := UntilItSucceeds(now, done, interval, tries);
            && r.attempts <= |tries|
            && (forall i :: 0 <= i < r.attempts && (i < r.attempts - 1 || !r.outcome.Succeeded?) ==> !tries[i].ok)
            && (r.outcome.Succeeded? ==> r.attempts > 0 && tries[r.attempts - 1].ok)
            && (r.outcome.Expired? ==> done <= r.end)
            && (r.outcome.Running? ==> r.attempts == |tries| && r.end < done)
    decreases |tries|
  {
    if now < done && tries != [] && !tries[0].ok && now + tries[0].took + interval < done {
      SucceedsOnlyAtTheEnd(now + tries[0].took + interval, done, interval, tries[1..]);
    }
  }

  /** When attempt `i` begins, if it is made. */
  function StartOf(now: int, interval: nat, tries: seq<Try>, i: nat): int
    requires i <= |tries|
    decreases i
  {
    if i == 0 then now else StartOf(now + tries[0].took + interval, interval, tries[1..], i - 1)
  }

  predicate AllFail(tries: seq<Try>, n: nat)
    requires n <= |tries|
  {
    forall k :: 0 <= k < n ==> !tries[k].ok
  }

  /** Between the beginnings of two attempts lie the first of them and an interval. */
  lemma {:induction false} AttemptsSpaced(now: int, interval: nat, tries: seq<Try>, i: nat)
    requires i < |tries|
    ensures StartOf(now, interval, tries, i + 1) == StartOf(now, interval, tries, i) + tries[i].took + interval
    ensures now + i * interval <= StartOf(now, interval, tries, i)
    decreases i
  {
    if i > 0 {
      AttemptsSpaced(now + tries[0].took + interval, interval, tries[1..], i - 1);
      assert i * interval == (i - 1) * interval + interval;
    }
  }

  /** An attempt is made exactly if all before it failed and its time to begin comes before the deadline. */
  lemma {:induction false} AttemptMadeExactly(now: int, done: int, interval: nat, tries: seq<Try>, i: nat)
    requires i < |tries|
    ensures i < UntilItSucceeds(now, done, interval, tries).attempts <==>
            StartOf(now, interval, tries, i) < done && AllFail(tries, i)
    decreases i
  {
    if i > 0 {
      var t := now + tries[0].took + interval;
      AttemptsSpaced(t, interval, tries[1..], i - 1);
      AttemptsSpaced(now, interval, tries, i);
      ScalingKeepsOrder(0, i - 1, interval);
      if now < done && !tries[0].ok && t < done {
        AttemptMadeExactly(t, done, interval, tries[1..], i - 1);
        assert AllFail(tries, i) <==> AllFail(tries[1..], i - 1) by {
          assert forall k :: 0 < k < i ==> tries[k] == tries[1..][k - 1];
          assert forall k :: 0 <= k < i - 1 ==> tries[1..][k] == tries[k + 1];
        }
      }
    }
  }

  function CeilDiv(a: int, b: nat): int
    requires b > 0
  {
    (a + b - 1) / b
  }

  lemma MultiplesBelow(n: int, a: int, b: nat)
    requires b > 0 && (n - 1) * b < a
    ensures n <= CeilDiv(a, b)
  {
    var c := CeilDiv(a, b);
    assert c * b >= a by {
      assert a + b - 1 == c * b + (a + b - 1) % b;
    }
    ScalingKeepsOrder(c, n - 1, b);
  }

  lemma ScalingKeepsOrder(x: int, y: int, b: nat)
    ensures x <= y ==> x * b <= y * b
  {
    if x <= y {
      assert y * b == x * b + (y - x) * b;
    }
  }

  /** A wait makes at most as many attempts as intervals, begun ones included, fit into its time. */
  lemma AttemptsBounded(now: int, done: int, interval: nat, tries: seq<Try>)
    requires interval > 0 && now < done
    ensures UntilItSucceeds(now, done, interval, tries).attempts <= CeilDiv(done - now, interval)
  {
    var n := UntilItSucceeds(now, done, interval, tries).attempts;
    SucceedsOnlyAtTheEnd(now, done, interval, tries);
    if n > 0 {
      AttemptMadeExactly(now, done, interval, tries, n - 1);
      AttemptsSpaced(now, interval, tries, n - 1);
      MultiplesBelow(n, done - now, interval);
    } else {
      MultiplesBelow(0, done - now, interval);
    }
  }

  /** A run still going after some attempts has been going for as many intervals. */
  lemma {:induction false} RunningTakesTime(now: int, done: int, interval: nat, tries: seq<Try>)
    requires UntilItSucceeds(now, done, interval, tries).outcome.Running?
    ensures now + |tries| * interval <= UntilItSucceeds(now, done, interval, tries).end < done
    decreases |tries|
  {
    if tries != [] {
      RunningTakesTime(now + tries[0].took + interval, done, interval, tries[1..]);
      assert |tries| * interval == (|tries| - 1) * interval + interval;
    }
  }

  /** No run goes on for ever: after as many attempts as intervals fit into its time it has ended. */
  lemma Ends(now: int, done: int, interval: nat, tries: seq<Try>)
    requires interval > 0 && |tries| >= CeilDiv(done - now, interval)
    ensures !UntilItSucceeds(now, done, interval, tries).outcome.Running?
  {
    if UntilItSucceeds(now, done, interval, tries).outcome.Running? {
      RunningTakesTime(now, done, interval, tries);
      MultiplesBelow(|tries| + 1, done - now, interval);
    }
  }

  /** How long the last attempt took. */
  function LastTook(now: int, done: int, interval: nat, tries: seq<Try>): nat {
    var n := UntilItSucceeds(now, done, interval, tries).attempts;
    if 0 < n <= |tries| then tries[n - 1].took else 0
  }

  /** The loop overruns its deadline by no more than its last attempt took, and an expired one did nothing. */
  lemma {:induction false} OverrunBounded(now: int, done: int, interval: nat, tries: seq<Try>)
    ensures var r := UntilItSucceeds(now, done, interval, tries);
            && now <= r.end
            && (done <= now ==> r == Run(Expired, now, 0))
            && (now < done ==> r.end <= done + LastTook(now, done, interval, tries))
    decreases |tries|
  {
    if now < done && tries != [] {
      var t := now + tries[0].took;
      if !tries[0].ok && t + interval < done {
        OverrunBounded(t + interval, done, interval, tries[1..]);
        SucceedsOnlyAtTheEnd(t + interval, done, interval, tries[1..]);
      }
    }
  }
}
