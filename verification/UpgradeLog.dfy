/** What an RKE2 upgrade did to the cluster and saw of it, and which logs are safe. */
module UpgradeLog {
  import opened Wrappers

  /** `None` is a query that failed. */
  datatype Event =
    | Applied(version: string)
    | SawVersion(found: Option<string>)
    | SawStatus(ready: Option<string>, schedulable: Option<string>)

  datatype Action = VersionIs(version: string) | StatusIs(status: string)

  /** The version as the kubelet reports it. */
  function Kubelet(version: string): string {
    if version == "" then "" else [if version[0] == '-' then '+' else version[0]] + Kubelet(version[1..])
  }

  /** Every dash has become a plus, and nothing else has changed. */
  lemma {:induction false} KubeletMeans(version: string, i: nat)
    requires i < |version|
    ensures |Kubelet(version)| == |version|
    ensures Kubelet(version)[i] == if version[i] == '-' then '+' else version[i]
  {
    if |version| > 1 {
      KubeletMeans(version[1..], if i == 0 then 0 else i - 1);
    }
  }

  /** The observation makes the action succeed. */
  predicate Satisfies(e: Event, action: Action) {
    match action
    case VersionIs(v) => e == SawVersion(Some(v))
    case StatusIs(s) =>
      e.SawStatus? && e.ready.Some? &&
      if s == "NotReady" then e.ready.value != "True"
      else e.schedulable.Some? && e.ready.value != "False" && e.schedulable.value != "False"
  }

  /** The wait for `Ready` lets the node pass: it was seen neither un-ready nor unschedulable. */
  predicate Accepted(e: Event) {
    Satisfies(e, StatusIs("Ready"))
  }

  /** The node was seen ready and schedulable. */
  predicate Ready(e: Event) {
    e == SawStatus(Some("True"), Some("True"))
  }

  /** An answer to a query that has only two answers, if the query does not fail. */
  predicate Plain(answer: Option<string>) {
    answer.Some? ==> answer.value in {"True", "False"}
  }

  /** Being let through is being ready exactly if every answer is one of the two expected ones. */
  lemma AcceptedButNotReady(e: Event)
    requires Accepted(e)
    ensures Ready(e) <==> Plain(e.ready) && Plain(e.schedulable)
  {
  }

  /** What makes the three waits of the installer succeed, query by query. */
  lemma ActionsMean(found: Option<string>, version: string, ready: Option<string>, schedulable: Option<string>)
    ensures Satisfies(SawVersion(found), VersionIs(version)) <==> found == Some(version)
    ensures Satisfies(SawStatus(ready, schedulable), StatusIs("NotReady")) <==> ready.Some? && ready.value != "True"
    ensures Satisfies(SawStatus(ready, schedulable), StatusIs("Ready")) <==>
            ready.Some? && schedulable.Some? && "False" !in [ready.value, schedulable.value]
  {
    assert |"Ready"| != |"NotReady"|;
    if ready.Some? && schedulable.Some? {
      var both := [ready.value, schedulable.value];
      assert "False" in both <==> both[0] == "False" || both[1] == "False";
    }
  }

  /** A node whose state is not known is let through, and so is one without any answer. */
  lemma UnknownIsAccepted()
    ensures var e := SawStatus(Some("Unknown"), Some("True")); Accepted(e) && !Ready(e)
    ensures var e := SawStatus(Some(""), Some("")); Accepted(e) && !Ready(e)
  {
    assert "Unknown"[0] == 'U' && "False"[0] == 'F' && "True"[0] == 'T';
  }

  function CountApplied(log: seq<Event>): nat {
    if log == [] then 0 else CountApplied(log[..|log| - 1]) + (if log[|log| - 1].Applied? then 1 else 0)
  }

  predicate NothingApplied(log: seq<Event>) {
    forall i :: 0 <= i < |log| ==> !log[i].Applied?
  }

  /** From `before` to `after` nothing but observations was added. */
  ghost predicate OnlyObserved(before: seq<Event>, after: seq<Event>) {
    |before| <= |after| && after[..|before|] == before && NothingApplied(after[|before|..])
  }

  /** The node was observed at `version`, at `s`, and nothing was applied since. */
  ghost predicate SeenAt(log: seq<Event>, version: string, s: nat) {
    s < |log| && log[s] == SawVersion(Some(Kubelet(version))) && NothingApplied(log[s..])
  }

  /** The node was observed at `version` and after that let through. */
  ghost predicate ClearedFor(log: seq<Event>, version: string) {
    exists s, r :: 0 <= s < r < |log| && SeenAt(log, version, s) && Accepted(log[r])
  }

  /** The node was observed at `version` and after that ready. */
  ghost predicate ReadyFor(log: seq<Event>, version: string) {
    exists s, r :: 0 <= s < r < |log| && SeenAt(log, version, s) && Ready(log[r])
  }

  /** The last status answers are of the two expected texts. */
  ghost predicate PlainAtEnd(log: seq<Event>) {
    log != [] && log[|log| - 1].SawStatus? && Plain(log[|log| - 1].ready) && Plain(log[|log| - 1].schedulable)
  }

  ghost predicate ReadyAtEnd(log: seq<Event>) {
    log != [] && Ready(log[|log| - 1])
  }

  /** The hop to `version` is done. Whether the node was ready then hangs on the last answer alone. */
  ghost predicate HopDone(log: seq<Event>, version: string) {
    && ClearedFor(log, version)
    && log != [] && Accepted(log[|log| - 1])
    && (ReadyFor(log, version) <==> ReadyAtEnd(log))
  }

  /** What may be applied after `log`: the next version of the path, once the hop to the one before is done. */
  ghost predicate SafeToApply(log: seq<Event>, version: string, path: seq<string>) {
    var h := CountApplied(log);
    h < |path| && version == path[h] && (h > 0 ==> HopDone(log, path[h - 1]))
  }

  ghost predicate SafeLog(log: seq<Event>, path: seq<string>) {
    forall j :: 0 <= j < |log| && log[j].Applied? ==> SafeToApply(log[..j], log[j].version, path)
  }

  /** The plan at `j` is not the first one. */
  predicate LaterPlan(log: seq<Event>, j: nat) {
    j < |log| && log[j].Applied? && CountApplied(log[..j]) > 0
  }

  /** Every plan but the first was applied to a node observed ready at the version before. */
  ghost predicate AllOnReady(log: seq<Event>, path: seq<string>) {
    forall j: nat :: LaterPlan(log, j) ==>
      CountApplied(log[..j]) <= |path| && ReadyFor(log[..j], path[CountApplied(log[..j]) - 1])
  }

  /** The status answer that each such plan rests on is of the expected texts. */
  ghost predicate AllRestOnPlain(log: seq<Event>) {
    forall j: nat :: LaterPlan(log, j) ==> PlainAtEnd(log[..j])
  }

  lemma DoneOnReady(log: seq<Event>, version: string)
    requires HopDone(log, version)
    ensures ReadyFor(log, version) <==> PlainAtEnd(log)
  {
    AcceptedButNotReady(log[|log| - 1]);
  }

  /**
   All later plans were applied to a node seen ready exactly if none of them rests on an answer
   other than the two expected ones.
   */
  lemma AllOnReadyExactly(log: seq<Event>, path: seq<string>)
    requires SafeLog(log, path)
    ensures AllOnReady(log, path) <==> AllRestOnPlain(log)
  {
    forall j: nat | LaterPlan(log, j)
      ensures CountApplied(log[..j]) <= |path|
      ensures ReadyFor(log[..j], path[CountApplied(log[..j]) - 1]) <==> PlainAtEnd(log[..j])
    {
      assert SafeToApply(log[..j], log[j].version, path);
      DoneOnReady(log[..j], path[CountApplied(log[..j]) - 1]);
    }
  }

  /** Every status query was answered by one of the expected texts, if at all. */
  ghost predicate PlainLog(log: seq<Event>) {
    forall j :: 0 <= j < |log| && log[j].SawStatus? ==> Plain(log[j].ready) && Plain(log[j].schedulable)
  }

  lemma PlainLogSuffices(log: seq<Event>, path: seq<string>)
    requires SafeLog(log, path) && PlainLog(log)
    ensures AllOnReady(log, path)
    ensures forall version :: HopDone(log, version) ==> ReadyFor(log, version)
  {
    forall j: nat | LaterPlan(log, j)
      ensures PlainAtEnd(log[..j])
    {
      assert SafeToApply(log[..j], log[j].version, path);
      assert log[..j][j - 1] == log[j - 1];
    }
    AllOnReadyExactly(log, path);
    forall version | HopDone(log, version)
      ensures ReadyFor(log, version)
    {
      DoneOnReady(log, version);
    }
  }

  // Hops

  /** What one hop adds to the log: the plan, then observations. */
  ghost predicate OneHopLog(before: seq<Event>, version: string, after: seq<Event>) {
    && |before| < |after|
    && after[..|before|] == before
    && after[|before|] == Applied(version)
    && NothingApplied(after[|before| + 1..])
  }

  /** A hop that went well: its last observation, and no earlier one, let the node through. */
  ghost predicate Cleared(before: seq<Event>, version: string, after: seq<Event>) {
    && OneHopLog(before, version, after)
    && (exists s :: |before| < s < |after| - 1 && after[s] == SawVersion(Some(Kubelet(version))))
    && Accepted(after[|after| - 1])
    && (forall k :: |before| < k < |after| - 1 ==> !Accepted(after[k]))
  }

  lemma {:induction false} CountObserved(before: seq<Event>, after: seq<Event>)
    requires OnlyObserved(before, after)
    ensures CountApplied(after) == CountApplied(before)
    decreases |after|
  {
    if |after| > |before| {
      var n := |after| - 1;
      assert after[n] == after[|before|..][n - |before|];
      assert after[..n][..|before|] == before;
      assert after[..n][|before|..] == after[|before|..][..n - |before|];
      CountObserved(before, after[..n]);
    } else {
      assert after == before;
    }
  }

  lemma CountHop(before: seq<Event>, version: string, after: seq<Event>)
    requires OneHopLog(before, version, after)
    ensures CountApplied(after) == CountApplied(before) + 1
  {
    var mid := after[..|before| + 1];
    assert mid[..|before|] == before;
    CountObserved(mid, after);
  }

  lemma NothingAppliedLater(before: seq<Event>, version: string, after: seq<Event>)
    requires OneHopLog(before, version, after)
    ensures forall j :: |before| < j < |after| ==> !after[j].Applied?
  {
    forall j | |before| < j < |after|
      ensures !after[j].Applied?
    {
      assert after[j] == after[|before| + 1..][j - |before| - 1];
    }
  }

  /** A hop from a safe position keeps the log safe. */
  lemma SafeHop(before: seq<Event>, version: string, after: seq<Event>, path: seq<string>)
    requires OneHopLog(before, version, after) && SafeLog(before, path) && SafeToApply(before, version, path)
    ensures SafeLog(after, path)
  {
    NothingAppliedLater(before, version, after);
    forall j | 0 <= j < |after| && after[j].Applied?
      ensures SafeToApply(after[..j], after[j].version, path)
    {
      if j < |before| {
        assert after[j] == before[j] && after[..j] == before[..j];
      }
    }
  }

  lemma NothingSince(log: seq<Event>, version: string, s: nat, i: nat)
    requires SeenAt(log, version, s) && s <= i < |log|
    ensures !log[i].Applied?
  {
    assert log[s..][i - s] == log[i];
  }

  /** Since the hop stopped at the first observation that let the node through, that one decides. */
  lemma ClearedIsDone(before: seq<Event>, version: string, after: seq<Event>)
    requires Cleared(before, version, after)
    ensures HopDone(after, version)
  {
    NothingAppliedLater(before, version, after);
    var s :| |before| < s < |after| - 1 && after[s] == SawVersion(Some(Kubelet(version)));
    var last := |after| - 1;
    assert SeenAt(after, version, s);
    assert s < last && Accepted(after[last]);
    if ReadyFor(after, version) {
      var s', r' :| 0 <= s' < r' < |after| && SeenAt(after, version, s') && Ready(after[r']);
      if s' <= |before| {
        NothingSince(after, version, s', |before|);
        assert false;
      }
      assert Accepted(after[r']);
      assert r' == last;
    }
  }

  lemma ObservedTransitive(a: seq<Event>, b: seq<Event>, c: seq<Event>)
    requires OnlyObserved(a, b) && OnlyObserved(b, c)
    ensures OnlyObserved(a, c)
  {
    assert c[..|a|] == c[..|b|][..|a|];
    assert c[|a|..] == b[|a|..] + c[|b|..];
  }

  lemma HopLog(before: seq<Event>, version: string, applied: seq<Event>, after: seq<Event>)
    requires applied == before + [Applied(version)] && OnlyObserved(applied, after)
    ensures OneHopLog(before, version, after)
  {
    assert after[..|before|] == after[..|applied|][..|before|];
    assert after[|before|] == after[..|applied|][|before|];
  }

  /** The observations from `before` to `after` are for one action, and only the last one satisfies it. */
  ghost predicate Polled(before: seq<Event>, after: seq<Event>, action: Action) {
    && OnlyObserved(before, after) && |before| < |after|
    && (forall k :: |before| <= k < |after| ==> (after[k].SawVersion? <==> action.VersionIs?))
    && (forall k :: |before| <= k < |after| ==> (Satisfies(after[k], action) <==> k == |after| - 1))
  }

  /** The two waits of a hop, put together. */
  lemma ClearedByWaits(before: seq<Event>, version: string, seen: seq<Event>, after: seq<Event>)
    requires Polled(before + [Applied(version)], seen, VersionIs(Kubelet(version)))
    requires Polled(seen, after, StatusIs("Ready"))
    ensures Cleared(before, version, after)
  {
    var applied := before + [Applied(version)];
    ObservedTransitive(applied, seen, after);
    HopLog(before, version, applied, after);
    assert forall k :: |before| < k < |seen| ==> after[k] == after[..|seen|][k] == seen[k];
    var s := |seen| - 1;
    assert after[s] == SawVersion(Some(Kubelet(version)));
  }
}
