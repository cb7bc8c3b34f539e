/** Resolving the status of every finding of an audit run from structured verdicts and validation attempts. */
module Judgement {
  import opened Prelude
  import opened Text
  import FanOut = ValidatorFanOut

  datatype Finding = Finding(id: string, run: string, status: string)

  /** A structured decision; empty strings stand for missing fields. */
  datatype Verdict = Verdict(
    findingId: string, id: string, status: string, judgement: string, reason: string, description: string,
    rationale: string)

  datatype AttemptRow = AttemptRow(findingId: string, run: string, status: string)

  datatype Decision =
    | ByJudge(findingId: string, status: string, reason: string)
    | ByRules(findingId: string, status: string, completedAttempts: nat, failedAttempts: nat)

  function OrElse(text: string, fallback: string): string { if text != "" then text else fallback }

  function Subject(v: Verdict): string { OrElse(v.findingId, v.id) }

  function Reason(v: Verdict): string { OrElse(v.reason, OrElse(v.description, v.rationale)) }

  function Ruling(v: Verdict): string { Lower(OrElse(v.status, v.judgement)) }

  predicate Allowed(status: string) {
    status == "confirmed" || status == "false_positive" || status == "needs_review"
  }

  predicate IsValid(v: Verdict) { Subject(v) != "" && Allowed(Ruling(v)) }

  predicate Undecided(status: string) { status == "candidate" || status == "validating" }

  /** v is a valid verdict on finding id. */
  predicate Rules(v: Verdict, id: string) { IsValid(v) && Subject(v) == id }

  /** The last valid verdict on finding id, reading the list backwards. */
  function LastVerdict(verdicts: seq<Verdict>, id: string): (v: Option<Verdict>)
    ensures v.Some? ==> Rules(v.value, id)
  {
    if verdicts == [] then None
    else
      var last := verdicts[|verdicts| - 1];
      if Rules(last, id) then Some(last) else LastVerdict(verdicts[..|verdicts| - 1], id)
  }

  /** Index the valid verdicts by finding, later ones replacing earlier ones. */
  function ByFinding(verdicts: seq<Verdict>): map<string, Verdict> {
    if verdicts == [] then map[]
    else
      var last := verdicts[|verdicts| - 1];
      var earlier := ByFinding(verdicts[..|verdicts| - 1]);
      if IsValid(last) then earlier[Subject(last) := last] else earlier
  }

  lemma {:induction false} LastVerdictWins(verdicts: seq<Verdict>, id: string)
    ensures LastVerdict(verdicts, id) == if id in ByFinding(verdicts) then Some(ByFinding(verdicts)[id]) else None
  {
    if verdicts != [] {
      LastVerdictWins(verdicts[..|verdicts| - 1], id);
    }
  }

  function CountAttempts(attempts: seq<AttemptRow>, run: string, id: string, status: string): nat {
    Count(attempts, (a: AttemptRow) => a.run == run && a.findingId == id && a.status == status)
  }

  function RuleStatus(f: Finding, completed: nat, failed: nat): string {
    if completed > 0 then "confirmed"
    else if failed > 0 then "needs_review"
    else if Undecided(f.status) then "needs_review"
    else f.status
  }

  function Decide(f: Finding, index: map<string, Verdict>, attempts: seq<AttemptRow>): Decision {
    if f.id in index then ByJudge(f.id, Ruling(index[f.id]), Reason(index[f.id]))
    else
      var completed := CountAttempts(attempts, f.run, f.id, "completed");
      var failed := CountAttempts(attempts, f.run, f.id, "failed");
      ByRules(f.id, RuleStatus(f, completed, failed), completed, failed)
  }

  /** The findings table after judgement of one audit run. */
  function Judged(
    findings: seq<Finding>, run: string, verdicts: seq<Verdict>, attempts: seq<AttemptRow>): (judged: seq<Finding>)
    ensures |judged| == |findings|
  {
    seq(|findings|, k requires 0 <= k < |findings| =>
      if findings[k].run == run
      then findings[k].(status := Decide(findings[k], ByFinding(verdicts), attempts).status)
      else findings[k])
  }

  /** The findings of an audit run, in order. */
  function OfRun(findings: seq<Finding>, run: string): seq<Finding> {
    if findings == [] then []
    else
      var last := findings[|findings| - 1];
      OfRun(findings[..|findings| - 1], run) + (if last.run == run then [last] else [])
  }

  function Decisions(
    findings: seq<Finding>, run: string, verdicts: seq<Verdict>, attempts: seq<AttemptRow>): seq<Decision> {
    var own := OfRun(findings, run);
    seq(|own|, k requires 0 <= k < |own| => Decide(own[k], ByFinding(verdicts), attempts))
  }

  class Judge {
    var findings: seq<Finding>

    constructor (initial: seq<Finding>)
      ensures findings == initial
    {
      findings := initial;
    }

    method MarkStatus(ids: seq<string>, status: string)
      modifies this
      ensures findings == Marked(old(findings), ids, status)
    {
      for k := 0 to |findings|
        invariant |findings| == |old(findings)|
        invariant forall j :: k <= j < |findings| ==> findings[j] == old(findings)[j]
        invariant forall j :: 0 <= j < k ==> findings[j] == Marked(old(findings), ids, status)[j]
      {
        if findings[k].id in ids {
          findings := findings[k := findings[k].(status := status)];
        }
      }
    }

    method ApplyJudgement(run: string, verdicts: seq<Verdict>, attempts: seq<AttemptRow>)
      returns (decisions: seq<Decision>)
      modifies this
      ensures findings == Judged(old(findings), run, verdicts, attempts)
      ensures decisions == Decisions(old(findings), run, verdicts, attempts)
    {
      var index := IndexVerdicts(verdicts);
      decisions := [];
      ghost var all := findings;
      ghost var judged := Judged(all, run, verdicts, attempts);
      for k := 0 to |findings|
        invariant |findings| == |all|
        invariant forall j :: 0 <= j < |all| ==> findings[j] == if j < k then judged[j] else all[j]
        invariant decisions == Decisions(all[..k], run, verdicts, attempts)
      {
        DecisionsSoFar(all, k, run, verdicts, attempts);
        if findings[k].run == run {
          var decision := Decide(findings[k], index, attempts);
          decisions := decisions + [decision];
          findings := findings[k := findings[k].(status := decision.status)];
        }
      }
      assert all[..|all|] == all;
    }
  }

  method IndexVerdicts(verdicts: seq<Verdict>) returns (index: map<string, Verdict>)
    ensures index == ByFinding(verdicts)
  {
    index := map[];
    for k := 0 to |verdicts|
      invariant index == ByFinding(verdicts[..k])
    {
      assert verdicts[..k + 1][..k] == verdicts[..k];
      if IsValid(verdicts[k]) {
        index := index[Subject(verdicts[k]) := verdicts[k]];
      }
    }
    assert verdicts[..|verdicts|] == verdicts;
  }

  lemma DecisionsSoFar(findings: seq<Finding>, k: nat, run: string, verdicts: seq<Verdict>, attempts: seq<AttemptRow>)
    requires k < |findings|
    ensures Decisions(findings[..k + 1], run, verdicts, attempts) ==
      Decisions(findings[..k], run, verdicts, attempts) +
      (if findings[k].run == run then [Decide(findings[k], ByFinding(verdicts), attempts)] else [])
  {
    assert findings[..k + 1][..k] == findings[..k];
  }

  function Marked(findings: seq<Finding>, ids: seq<string>, status: string): (marked: seq<Finding>)
    ensures |marked| == |findings|
  {
    seq(|findings|, k requires 0 <= k < |findings| =>
      if findings[k].id in ids then findings[k].(status := status) else findings[k])
  }

  // ---------------------------------------------------------------- what judgement achieves

  /** No finding of the run is left undecided; findings of other runs are untouched. */
  lemma NothingStaysUndecided(
    findings: seq<Finding>, run: string, verdicts: seq<Verdict>, attempts: seq<AttemptRow>, k: nat)
    requires k < |findings|
    ensures var f := Judged(findings, run, verdicts, attempts)[k];
      if findings[k].run == run then f == findings[k].(status := f.status) && !Undecided(f.status) else f == findings[k]
  {
    LastVerdictWins(verdicts, findings[k].id);
  }

  /** A verdict settles the status, the last valid one if there are several; without one, the attempts do. */
  lemma JudgedStatus(findings: seq<Finding>, run: string, verdicts: seq<Verdict>, attempts: seq<AttemptRow>, k: nat)
    requires k < |findings| && findings[k].run == run
    ensures var before, after := findings[k].status, Judged(findings, run, verdicts, attempts)[k].status;
      match LastVerdict(verdicts, findings[k].id)
      case Some(v) => after == Ruling(v)
      case None =>
        && (after == "confirmed" <==>
              Completes(attempts, run, findings[k].id)
                || (before == "confirmed" && !Fails(attempts, run, findings[k].id)))
        && (after != "confirmed" && after != "needs_review" ==> after == before)
  {
    var id := findings[k].id;
    LastVerdictWins(verdicts, id);
    CountZero(attempts, (a: AttemptRow) => a.run == run && a.findingId == id && a.status == "completed");
    CountZero(attempts, (a: AttemptRow) => a.run == run && a.findingId == id && a.status == "failed");
  }

  predicate Completes(attempts: seq<AttemptRow>, run: string, id: string) {
    exists a :: a in attempts && a.run == run && a.findingId == id && a.status == "completed"
  }

  predicate Fails(attempts: seq<AttemptRow>, run: string, id: string) {
    exists a :: a in attempts && a.run == run && a.findingId == id && a.status == "failed"
  }

  lemma {:induction false} OfRunJudged(
    findings: seq<Finding>, run: string, verdicts: seq<Verdict>, attempts: seq<AttemptRow>)
    ensures var own := OfRun(findings, run); var after := OfRun(Judged(findings, run, verdicts, attempts), run);
      && |after| == |own|
      && (forall k :: 0 <= k < |own| ==> own[k].run == run)
      && (forall k :: 0 <= k < |own| ==>
        after[k] == own[k].(status := Decide(own[k], ByFinding(verdicts), attempts).status))
  {
    if findings != [] {
      var n := |findings| - 1;
      var last, judged := findings[n], Judged(findings, run, verdicts, attempts);
      assert judged[..n] == Judged(findings[..n], run, verdicts, attempts);
      OfRunJudged(findings[..n], run, verdicts, attempts);
      assert judged[n].run == last.run;
      assert OfRun(findings, run) == OfRun(findings[..n], run) + (if last.run == run then [last] else []);
      assert OfRun(judged, run) == OfRun(judged[..n], run) + (if last.run == run then [judged[n]] else []);
    }
  }

  /** One decision per finding of the run, in order, each reporting the status the finding now has. */
  lemma OneDecisionPerFinding(findings: seq<Finding>, run: string, verdicts: seq<Verdict>, attempts: seq<AttemptRow>)
    ensures var after := OfRun(Judged(findings, run, verdicts, attempts), run);
      var decisions := Decisions(findings, run, verdicts, attempts);
      && |decisions| == |after| == |OfRun(findings, run)|
      && forall k :: 0 <= k < |after| ==>
        decisions[k].findingId == after[k].id && decisions[k].status == after[k].status
  {
    OfRunJudged(findings, run, verdicts, attempts);
  }

  lemma DecideIsStable(f: Finding, verdicts: seq<Verdict>, attempts: seq<AttemptRow>)
    ensures var decision := Decide(f, ByFinding(verdicts), attempts);
      Decide(f.(status := decision.status), ByFinding(verdicts), attempts) == decision
  {
  }

  /** Judging again with the same verdicts and attempts changes nothing and decides the same. */
  lemma JudgementIsIdempotent(findings: seq<Finding>, run: string, verdicts: seq<Verdict>, attempts: seq<AttemptRow>)
    ensures var after := Judged(findings, run, verdicts, attempts);
      && Judged(after, run, verdicts, attempts) == after
      && Decisions(after, run, verdicts, attempts) == Decisions(findings, run, verdicts, attempts)
  {
    var after := Judged(findings, run, verdicts, attempts);
    forall k | 0 <= k < |findings| ensures Judged(after, run, verdicts, attempts)[k] == after[k] {
      DecideIsStable(findings[k], verdicts, attempts);
    }
    OfRunJudged(findings, run, verdicts, attempts);
    var own := OfRun(findings, run);
    forall k | 0 <= k < |own|
      ensures Decisions(after, run, verdicts, attempts)[k] == Decisions(findings, run, verdicts, attempts)[k]
    {
      DecideIsStable(own[k], verdicts, attempts);
    }
  }

  // ---------------------------------------------------------------- from fan-out to judgement

  function StatusName(status: FanOut.Status): string {
    match status
    case Queued => "queued"
    case Running => "running"
    case Completed => "completed"
    case Failed => "failed"
    case Cancelled => "cancelled"
  }

  /** The attempt rows a fan-out has written, for its first n attempts. */
  function AttemptRows(s: FanOut.State, scheduled: seq<FanOut.Attempt>, run: string, n: nat): seq<AttemptRow>
    requires n <= |scheduled|
  {
    if n == 0 then []
    else
      var row := FanOut.Row(s, n - 1);
      AttemptRows(s, scheduled, run, n - 1) +
      (if row == None then [] else [AttemptRow(scheduled[n - 1].findingId, run, StatusName(row.value))])
  }

  predicate WritesRow(s: FanOut.State, scheduled: seq<FanOut.Attempt>, run: string, i: nat, row: AttemptRow)
    requires i < |scheduled|
  {
    FanOut.Row(s, i).Some? && row == AttemptRow(scheduled[i].findingId, run, StatusName(FanOut.Row(s, i).value))
  }

  lemma {:induction false} AttemptRowsAre(
    s: FanOut.State, scheduled: seq<FanOut.Attempt>, run: string, n: nat, row: AttemptRow)
    requires n <= |scheduled|
    ensures row in AttemptRows(s, scheduled, run, n) <==>
      exists i :: 0 <= i < n && WritesRow(s, scheduled, run, i, row)
  {
    if n > 0 {
      AttemptRowsAre(s, scheduled, run, n - 1, row);
      assert row in AttemptRows(s, scheduled, run, n) <==>
        row in AttemptRows(s, scheduled, run, n - 1) || WritesRow(s, scheduled, run, n - 1, row);
    }
  }

  /** Some attempt at the finding got an agent run back, whatever the run's status. */
  predicate SomeAttemptReturned(s: FanOut.State, scheduled: seq<FanOut.Attempt>, id: string)
    requires |s.pcs| == |scheduled|
  {
    exists i :: 0 <= i < |scheduled| && scheduled[i].findingId == id
      && s.pcs[i] == FanOut.Ended(FanOut.Returned(FanOut.Completed))
  }

  /** The completed rows that judgement counts exist exactly when some attempt's agent call returned. */
  lemma CompletedRowsAreReturnedAttempts(
    s: FanOut.State, scheduled: seq<FanOut.Attempt>, run: string, id: string, limit: nat)
    requires FanOut.Invariant(s, |scheduled|, limit) && FanOut.AllEnded(s) && FanOut.Faultless(s)
    ensures Completes(AttemptRows(s, scheduled, run, |scheduled|), run, id) <==> SomeAttemptReturned(s, scheduled, id)
  {
    if Completes(AttemptRows(s, scheduled, run, |scheduled|), run, id) {
      CompletedRowIsReturned(s, scheduled, run, id, limit);
    }
    if SomeAttemptReturned(s, scheduled, id) {
      ReturnedRowIsCompleted(s, scheduled, run, id, limit);
    }
  }

  lemma CompletedRowIsReturned(s: FanOut.State, scheduled: seq<FanOut.Attempt>, run: string, id: string, limit: nat)
    requires FanOut.Invariant(s, |scheduled|, limit) && FanOut.AllEnded(s) && FanOut.Faultless(s)
    requires Completes(AttemptRows(s, scheduled, run, |scheduled|), run, id)
    ensures SomeAttemptReturned(s, scheduled, id)
  {
    var rows := AttemptRows(s, scheduled, run, |scheduled|);
    var row :| row in rows && row.run == run && row.findingId == id && row.status == "completed";
    AttemptRowsAre(s, scheduled, run, |scheduled|, row);
    var i :| 0 <= i < |scheduled| && WritesRow(s, scheduled, run, i, row);
    NamedCompleted(FanOut.Row(s, i).value);
    FanOut.CompletedRowsAreReturns(s, i, |scheduled|, limit);
  }

  lemma NamedCompleted(status: FanOut.Status)
    ensures StatusName(status) == "completed" <==> status == FanOut.Completed
  {
    assert "queued"[0] == 'q' && "running"[0] == 'r' && "failed"[0] == 'f' && "cancelled"[1] == 'a'
      && "completed"[1] == 'o';
  }

  lemma ReturnedRowIsCompleted(s: FanOut.State, scheduled: seq<FanOut.Attempt>, run: string, id: string, limit: nat)
    requires FanOut.Invariant(s, |scheduled|, limit) && FanOut.AllEnded(s) && FanOut.Faultless(s)
    requires SomeAttemptReturned(s, scheduled, id)
    ensures Completes(AttemptRows(s, scheduled, run, |scheduled|), run, id)
  {
    var i :| 0 <= i < |scheduled| && scheduled[i].findingId == id
      && s.pcs[i] == FanOut.Ended(FanOut.Returned(FanOut.Completed));
    FanOut.CompletedRowsAreReturns(s, i, |scheduled|, limit);
    var row := AttemptRow(id, run, "completed");
    assert WritesRow(s, scheduled, run, i, row);
    AttemptRowsAre(s, scheduled, run, |scheduled|, row);
  }

  lemma CompletesEither(xs: seq<AttemptRow>, ys: seq<AttemptRow>, run: string, id: string)
    ensures Completes(xs + ys, run, id) <==> Completes(xs, run, id) || Completes(ys, run, id)
  {
  }

  /** From end to end: a finding the fan-out marked validating, left alone until judgement and without a
      verdict, becomes confirmed exactly when the agent call of one of its attempts returned, or a row of an
      earlier fan-out says completed, and needs review otherwise; over every interleaving of the fan-out in
      which no table access failed. */
  lemma ValidatedFindingsAreConfirmed(
    findings: seq<Finding>, k: nat, run: string, verdicts: seq<Verdict>, marked: seq<string>, earlier: seq<AttemptRow>,
    scheduled: seq<FanOut.Attempt>, maxParallel: int, interleaving: seq<FanOut.Action>)
    requires k < |findings| && findings[k].run == run && LastVerdict(verdicts, findings[k].id) == None
    requires findings[k].id in marked
    requires FanOut.Legal(FanOut.Initial(|scheduled|, Max(1, maxParallel)), interleaving)
    requires var s := FanOut.Execute(FanOut.Initial(|scheduled|, Max(1, maxParallel)), interleaving);
      FanOut.AllEnded(s) && FanOut.Faultless(s)
    ensures var s := FanOut.Execute(FanOut.Initial(|scheduled|, Max(1, maxParallel)), interleaving);
      var attempts := earlier + AttemptRows(s, scheduled, run, |scheduled|);
      var after := Judged(Marked(findings, marked, "validating"), run, verdicts, attempts)[k];
      && |s.pcs| == |scheduled|
      && after.status ==
        if SomeAttemptReturned(s, scheduled, findings[k].id) || Completes(earlier, run, findings[k].id)
          then "confirmed" else "needs_review"
  {
    var limit := Max(1, maxParallel);
    var s := FanOut.Execute(FanOut.Initial(|scheduled|, limit), interleaving);
    FanOut.InitialInvariant(|scheduled|, limit);
    FanOut.RunKeepsInvariant(FanOut.Initial(|scheduled|, limit), interleaving, |scheduled|, limit);
    assert Marked(findings, marked, "validating")[k].status == "validating";
    var attempts := earlier + AttemptRows(s, scheduled, run, |scheduled|);
    var id := findings[k].id;
    CompletedRowsAreReturnedAttempts(s, scheduled, run, id, limit);
    CompletesEither(earlier, AttemptRows(s, scheduled, run, |scheduled|), run, id);
    LastVerdictWins(verdicts, id);
    CountZero(attempts, (a: AttemptRow) => a.run == run && a.findingId == id && a.status == "completed");
  }

  // ---------------------------------------------------------------- what a confirmation means

  /** Some attempt at the finding got a completed agent run back. */
  predicate SomeRunCompleted(s: FanOut.State, scheduled: seq<FanOut.Attempt>, id: string) {
    exists i :: 0 <= i < |scheduled| && scheduled[i].findingId == id && FanOut.RunCompleted(s, i)
  }

  /** Attempts at the finding got agent runs back, and none of these had completed. */
  predicate OnlyOtherRuns(s: FanOut.State, scheduled: seq<FanOut.Attempt>, id: string) {
    && (exists i :: 0 <= i < |scheduled| && scheduled[i].findingId == id && i in s.agents)
    && forall i :: 0 <= i < |scheduled| && scheduled[i].findingId == id && i in s.agents ==>
      s.agents[i] == FanOut.AgentNotCompleted
  }

  lemma ReturnedAttemptsHaveRuns(s: FanOut.State, scheduled: seq<FanOut.Attempt>, id: string, limit: nat)
    requires FanOut.Invariant(s, |scheduled|, limit) && FanOut.AllEnded(s) && FanOut.Faultless(s)
    ensures SomeAttemptReturned(s, scheduled, id) <==>
      exists i :: 0 <= i < |scheduled| && scheduled[i].findingId == id && i in s.agents
  {
    forall i: nat | i < |scheduled|
      ensures i in s.agents <==> s.pcs[i] == FanOut.Ended(FanOut.Returned(FanOut.Completed))
    {
      FanOut.CompletedRowsAreReturns(s, i, |scheduled|, limit);
    }
  }

  /** The same finding should be confirmed only if some agent run at it completed. It is confirmed without one,
      over every interleaving in which no table access failed, if and only if agent runs at it were returned,
      none of them had completed, and no row of an earlier fan-out says completed; otherwise it is confirmed
      exactly when a run completed or such a row exists. */
  lemma ConfirmedWithoutCompletedRunExactlyWhen(
    findings: seq<Finding>, k: nat, run: string, verdicts: seq<Verdict>, marked: seq<string>, earlier: seq<AttemptRow>,
    scheduled: seq<FanOut.Attempt>, maxParallel: int, interleaving: seq<FanOut.Action>)
    requires k < |findings| && findings[k].run == run && LastVerdict(verdicts, findings[k].id) == None
    requires findings[k].id in marked
    requires FanOut.Legal(FanOut.Initial(|scheduled|, Max(1, maxParallel)), interleaving)
    requires var s := FanOut.Execute(FanOut.Initial(|scheduled|, Max(1, maxParallel)), interleaving);
      FanOut.AllEnded(s) && FanOut.Faultless(s)
    ensures var s := FanOut.Execute(FanOut.Initial(|scheduled|, Max(1, maxParallel)), interleaving);
      var attempts := earlier + AttemptRows(s, scheduled, run, |scheduled|);
      var after := Judged(Marked(findings, marked, "validating"), run, verdicts, attempts)[k];
      var id := findings[k].id;
      (after.status == "confirmed" <==> SomeRunCompleted(s, scheduled, id) || Completes(earlier, run, id))
      <==> !OnlyOtherRuns(s, scheduled, id) || Completes(earlier, run, id)
  {
    var limit := Max(1, maxParallel);
    var s := FanOut.Execute(FanOut.Initial(|scheduled|, limit), interleaving);
    FanOut.InitialInvariant(|scheduled|, limit);
    FanOut.RunKeepsInvariant(FanOut.Initial(|scheduled|, limit), interleaving, |scheduled|, limit);
    ValidatedFindingsAreConfirmed(findings, k, run, verdicts, marked, earlier, scheduled, maxParallel, interleaving);
    ReturnedAttemptsHaveRuns(s, scheduled, findings[k].id, limit);
    RunsSplit(s, scheduled, findings[k].id);
  }

  lemma RunsSplit(s: FanOut.State, scheduled: seq<FanOut.Attempt>, id: string)
    ensures (exists i :: 0 <= i < |scheduled| && scheduled[i].findingId == id && i in s.agents) <==>
      SomeRunCompleted(s, scheduled, id) || OnlyOtherRuns(s, scheduled, id)
    ensures !(SomeRunCompleted(s, scheduled, id) && OnlyOtherRuns(s, scheduled, id))
  {
    if i :|
      0 <= i < |scheduled| && scheduled[i].findingId == id && i in s.agents && s.agents[i] == FanOut.AgentCompleted
    {
      assert FanOut.RunCompleted(s, i);
    }
  }

  /** A finding whose only validation session failed is confirmed. */
  lemma FailedSessionConfirms(id: string, run: string, status: string)
    ensures FanOut.Legal(FanOut.Initial(1, 1), FanOut.FailedSession())
    ensures var s := FanOut.Execute(FanOut.Initial(1, 1), FanOut.FailedSession());
      var scheduled := [FanOut.Attempt(id, 1)];
      && OnlyOtherRuns(s, scheduled, id)
      && Judged(Marked([Finding(id, run, status)], [id], "validating"), run, [],
        AttemptRows(s, scheduled, run, 1))[0].status
          == "confirmed"
  {
    FanOut.FailedSessionIsCompleted();
    var s := FanOut.Execute(FanOut.Initial(1, 1), FanOut.FailedSession());
    var scheduled := [FanOut.Attempt(id, 1)];
    OneFailedSession(s, id);
    assert Max(1, 1) == 1 && |scheduled| == 1;
    ValidatedFindingsAreConfirmed([Finding(id, run, status)], 0, run, [], [id], [], scheduled, 1,
      FanOut.FailedSession());
    assert [] + AttemptRows(s, scheduled, run, 1) == AttemptRows(s, scheduled, run, 1);
  }

  lemma OneFailedSession(s: FanOut.State, id: string)
    requires s.pcs == [FanOut.Ended(FanOut.Returned(FanOut.Completed))]
    requires s.agents == map[0 := FanOut.AgentNotCompleted]
    ensures FanOut.AllEnded(s) && FanOut.Faultless(s)
    ensures var scheduled := [FanOut.Attempt(id, 1)];
      OnlyOtherRuns(s, scheduled, id) && SomeAttemptReturned(s, scheduled, id)
  {
    var scheduled := [FanOut.Attempt(id, 1)];
    assert scheduled[0].findingId == id && 0 in s.agents;
  }
}
