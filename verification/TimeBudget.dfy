/** The DEPLOYMENT_TIMEOUT budget, handed from wait to wait. Times are in nanoseconds. */
module TimeBudget {
  import opened Clock
  import opened Retry

  /** Go's conversion of a duration to whole seconds: towards zero. */
  function WholeSeconds(d: int): int {
    if d >= 0 then d / SECOND * SECOND else -(-d / SECOND * SECOND)
  }

  /** A wait, how its attempts go, and whether it stores negative remainders as zero. */
  datatype Wait = Wait(interval: nat, clamped: bool, tries: seq<Try>)

  /** What a successful wait stores: the time left until its deadline. */
  function Remaining(done: int, end: int, clamped: bool): int {
    var left := WholeSeconds(done - end);
    if clamped && left < 0 then 0 else left
  }

  function RunOf(budget: int, w: Wait): Run<Outcome> {
    UntilItSucceeds(0, budget, w.interval, w.tries)
  }

  /** `spent` counts the time inside waits; the gaps between them are not charged. */
  datatype Session = Session(spent: int, budget: int, failed: bool, lastTook: nat)

  /** A session of waits; the first one that does not succeed ends it. */
  function Perform(s: Session, waits: seq<Wait>): Session
    decreases |waits|
  {
    if waits == [] || s.failed then s
    else
      var run := RunOf(s.budget, waits[0]);
      var took := if run.attempts > 0 then LastTook(0, s.budget, waits[0].interval, waits[0].tries) else s.lastTook;
      var next :=
        if run.outcome.Succeeded?
        then Session(s.spent + run.end, Remaining(s.budget, run.end, waits[0].clamped), false, took)
        else Session(s.spent + run.end, s.budget, true, took);
      Perform(next, waits[1..])
  }

  /** A multiple of a second, less than a second away and not farther from zero. */
  lemma WholeSecondsShrinks(d: int)
    ensures d >= 0 ==> 0 <= WholeSeconds(d) <= d < WholeSeconds(d) + SECOND
    ensures d < 0 ==> WholeSeconds(d) - SECOND < d <= WholeSeconds(d) <= 0
    ensures WholeSeconds(d) % SECOND == 0
  {
  }

  /** Without the clamp, the stored remainder is negative exactly from a second past the deadline on. */
  lemma NegativeExactly(done: int, end: int)
    ensures Remaining(done, end, false) < 0 <==> done + SECOND <= end
    ensures 0 <= Remaining(done, end, true)
  {
  }

  /** With or without the clamp, the next wait makes an attempt exactly if a whole second is left. */
  lemma NextWaitTriesExactly(done: int, end: int, clamped: bool, interval: nat, tries: seq<Try>)
    requires tries != []
    ensures UntilItSucceeds(0, Remaining(done, end, clamped), interval, tries).attempts > 0 <==> SECOND <= done - end
  {
  }

  /** Every wait of the session ended before its deadline. */
  predicate AllInTime(s: Session, waits: seq<Wait>)
    decreases |waits|
  {
    waits == [] || s.failed ||
    var run := RunOf(s.budget, waits[0]);
    run.end <= s.budget && run.outcome.Succeeded? &&
    AllInTime(Perform(s, waits[..1]), waits[1..])
  }

  lemma PerformOne(s: Session, waits: seq<Wait>)
    requires waits != []
    ensures Perform(s, waits) == Perform(Perform(s, waits[..1]), waits[1..])
  {
    if !s.failed {
      assert waits[..1][1..] == [];
      assert forall t: Session :: Perform(t, []) == t;
    }
  }

  /**
   As long as waits end in time, what they spent and what is left never exceed the initial budget, and
   fall short of it by less than a second for each wait.
   */
  lemma {:induction false} BudgetConserved(s: Session, waits: seq<Wait>)
    requires !s.failed && AllInTime(s, waits)
    ensures var e := Perform(s, waits);
            && !e.failed && (waits != [] ==> 0 <= e.budget)
            && e.spent + e.budget <= s.spent + s.budget
            && s.spent + s.budget <= e.spent + e.budget + |waits| * (SECOND - 1)
    decreases |waits|
  {
    if waits != [] {
      var run := RunOf(s.budget, waits[0]);
      WholeSecondsShrinks(s.budget - run.end);
      PerformOne(s, waits);
      assert waits[..1][1..] == [];
      BudgetConserved(Perform(s, waits[..1]), waits[1..]);
    }
  }

  /** Without any assumption, a session overspends by no more than its last attempt took. */
  lemma {:induction false} OverspendBounded(s: Session, waits: seq<Wait>)
    requires !s.failed
    ensures var e := Perform(s, waits);
            e.spent <= s.spent + Later(0, s.budget) + (if waits == [] then 0 else e.lastTook)
    decreases |waits|
  {
    if waits != [] {
      var run := RunOf(s.budget, waits[0]);
      OverrunBounded(0, s.budget, waits[0].interval, waits[0].tries);
      SucceedsOnlyAtTheEnd(0, s.budget, waits[0].interval, waits[0].tries);
      WholeSecondsShrinks(s.budget - run.end);
      PerformOne(s, waits);
      assert waits[..1][1..] == [];
      var next := Perform(s, waits[..1]);
      if run.outcome.Succeeded? {
        OverspendBounded(next, waits[1..]);
        if next.budget <= 0 && waits[1..] != [] {
          NothingAfterOverrun(next, waits[1..]);
        }
      }
    }
  }

  /** Once a wait has used the budget up, the next one makes no attempt and fails at once. */
  lemma NothingAfterOverrun(s: Session, waits: seq<Wait>)
    requires !s.failed && s.budget <= 0 && waits != []
    ensures RunOf(s.budget, waits[0]) == Run(Expired, 0, 0)
    ensures Perform(s, waits) == s.(failed := true)
  {
    assert Perform(s.(failed := true), waits[1..]) == s.(failed := true);
  }
}
