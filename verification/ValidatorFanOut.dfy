/** The validator fan-out: findings x rounds attempts run as concurrent tasks behind a semaphore.

    A task is suspended at one awaited operation at a time; `Pc` names that operation. One
    `Action` completes (or raises from) the operation at which some task is suspended, or changes
    the cancellation flag. Everything the source does between two awaits happens in one action, so
    the runs of this transition system are the interleavings an event loop can produce. */
module ValidatorFanOut {
  import opened Prelude

  datatype Status = Queued | Running | Completed | Failed | Cancelled

  datatype EvidenceKind = ValidatorCancelled | ValidatorError | ValidatorAgentRun

  /** How a task ends. AgentFailed re-raises after recording the failure; Faulted is any other
      awaited call (a table write, a flag read) that raised. */
  datatype Outcome = Returned(status: Status) | AgentFailed | Faulted

  datatype Pc =
    | InsertQueued
    | FirstCheck
    | Waiting
    | SecondCheck
    | WriteCancelled(holding: bool)
    | CancelEvidence(holding: bool)
    | WriteRunning
    | AwaitAgent
    | WriteCompleted
    | CompletedEvidence
    | WriteFailed
    | FailedEvidence
    | Ended(outcome: Outcome)

  datatype Evidence = Evidence(attempt: nat, kind: EvidenceKind)

  datatype TaskResult = TaskResult(attempt: nat, status: Status)

  /** The status of an agent run that was returned rather than raised. */
  datatype AgentStatus = AgentCompleted | AgentNotCompleted

  /** `agents` remembers the status of the agent run each attempt got back; the source reads it nowhere. */
  datatype State = State(
    pcs: seq<Pc>,
    rows: map<nat, Status>,
    evidence: seq<Evidence>,
    permits: nat,
    cancelRequested: bool,
    results: seq<TaskResult>,
    agents: map<nat, AgentStatus>)

  /** ReturnOther is the agent call returning a run that did not complete; where a task awaits the agent,
      Succeed returns one that did. */
  datatype Action =
    | Succeed(task: nat) | ReturnOther(task: nat) | Raise(task: nat) | RequestCancel | WithdrawCancel

  function Initial(attempts: nat, limit: nat): State {
    State(seq(attempts, _ => InsertQueued), map[], [], limit, false, [], map[])
  }

  predicate Holds(pc: Pc) {
    match pc
    case SecondCheck | WriteRunning | AwaitAgent => true
    case WriteCompleted | CompletedEvidence | WriteFailed | FailedEvidence => true
    case WriteCancelled(holding) => holding
    case CancelEvidence(holding) => holding
    case InsertQueued | FirstCheck | Waiting | Ended(_) => false
  }

  predicate Enabled(s: State, a: Action) {
    match a
    case Succeed(i) => i < |s.pcs| && !s.pcs[i].Ended? && (s.pcs[i].Waiting? ==> s.permits > 0)
    case ReturnOther(i) => i < |s.pcs| && s.pcs[i].AwaitAgent?
    case Raise(i) => i < |s.pcs| && !s.pcs[i].Ended? && !s.pcs[i].Waiting?
    case RequestCancel => true
    case WithdrawCancel => true
  }

  predicate AllEnded(s: State) {
    forall i :: 0 <= i < |s.pcs| ==> s.pcs[i].Ended?
  }

  /** The result the drain loop lists for a task: what it returned, or "failed" for an exception. */
  function DrainStatus(outcome: Outcome): Status {
    if outcome.Returned? then outcome.status else Failed
  }

  function Goto(s: State, i: nat, pc: Pc): State
    requires i < |s.pcs|
  {
    s.(pcs := s.pcs[i := pc])
  }

  function Write(s: State, i: nat, status: Status, pc: Pc): State
    requires i < |s.pcs|
  {
    Goto(s, i, pc).(rows := s.rows[i := status])
  }

  /** Leave the semaphore's block, if inside it, and end the task. */
  function End(s: State, i: nat, outcome: Outcome): State
    requires i < |s.pcs|
  {
    Goto(s, i, Ended(outcome)).(
      permits := s.permits + (if Holds(s.pcs[i]) then 1 else 0),
      results := s.results + [TaskResult(i, DrainStatus(outcome))])
  }

  function Got(s: State, i: nat, status: AgentStatus): State
    requires i < |s.pcs|
  {
    Goto(s, i, WriteCompleted).(agents := s.agents[i := status])
  }

  function Record(s: State, i: nat, kind: EvidenceKind): State {
    s.(evidence := s.evidence + [Evidence(i, kind)])
  }

  function Apply(s: State, a: Action): State
    requires Enabled(s, a)
  {
    match a
    case RequestCancel => s.(cancelRequested := true)
    case WithdrawCancel => s.(cancelRequested := false)
    case Raise(i) =>
      if s.pcs[i].AwaitAgent? then Goto(s, i, WriteFailed) else End(s, i, Faulted)
    case ReturnOther(i) => Got(s, i, AgentNotCompleted)
    case Succeed(i) =>
      match s.pcs[i]
      case InsertQueued => Write(s, i, Queued, FirstCheck)
      case FirstCheck => Goto(s, i, if s.cancelRequested then WriteCancelled(false) else Waiting)
      case Waiting => Goto(s, i, SecondCheck).(permits := s.permits - 1)
      case SecondCheck => Goto(s, i, if s.cancelRequested then WriteCancelled(true) else WriteRunning)
      case WriteCancelled(holding) => Write(s, i, Cancelled, CancelEvidence(holding))
      case CancelEvidence(_) => End(Record(s, i, ValidatorCancelled), i, Returned(Cancelled))
      case WriteRunning => Write(s, i, Running, AwaitAgent)
      case AwaitAgent => Got(s, i, AgentCompleted)
      case WriteCompleted => Write(s, i, Completed, CompletedEvidence)
      case CompletedEvidence => End(Record(s, i, ValidatorAgentRun), i, Returned(Completed))
      case WriteFailed => Write(s, i, Failed, FailedEvidence)
      case FailedEvidence => End(Record(s, i, ValidatorError), i, AgentFailed)
  }

  /** The actions can be taken one after the other from s. */
  predicate Legal(s: State, run: seq<Action>)
    decreases run
  {
    run == [] || (Enabled(s, run[0]) && Legal(Apply(s, run[0]), run[1..]))
  }

  function Execute(s: State, run: seq<Action>): State
    requires Legal(s, run)
    decreases run
  {
    if run == [] then s else Execute(Apply(s, run[0]), run[1..])
  }

  // ---------------------------------------------------------------- the global invariant

  function Row(s: State, i: nat): Option<Status> {
    if i in s.rows then Some(s.rows[i]) else None
  }

  /** The evidence kinds recorded for attempt i, oldest first. */
  function EvidenceOf(evidence: seq<Evidence>, i: nat): seq<EvidenceKind> {
    if evidence == [] then []
    else
      var last := evidence[|evidence| - 1];
      EvidenceOf(evidence[..|evidence| - 1], i) + (if last.attempt == i then [last.kind] else [])
  }

  /** What the tables say about attempt i while its task is at pc. */
  predicate Recorded(pc: Pc, row: Option<Status>, kinds: seq<EvidenceKind>) {
    match pc
    case InsertQueued => row == None && kinds == []
    case FirstCheck | Waiting | SecondCheck | WriteCancelled(_) | WriteRunning => row == Some(Queued) && kinds == []
    case CancelEvidence(_) => row == Some(Cancelled) && kinds == []
    case AwaitAgent | WriteCompleted | WriteFailed => row == Some(Running) && kinds == []
    case CompletedEvidence => row == Some(Completed) && kinds == []
    case FailedEvidence => row == Some(Failed) && kinds == []
    case Ended(Returned(status)) =>
      || (status == Cancelled && row == Some(Cancelled) && kinds == [ValidatorCancelled])
      || (status == Completed && row == Some(Completed) && kinds == [ValidatorAgentRun])
    case Ended(AgentFailed) => row == Some(Failed) && kinds == [ValidatorError]
    case Ended(Faulted) => kinds == []
  }

  /** Whether attempt i has got an agent run back while its task is at pc and its row is as given. */
  predicate AgentKnown(pc: Pc, row: Option<Status>, known: bool) {
    match pc
    case WriteCompleted | CompletedEvidence => known
    case Ended(Returned(status)) => known <==> status == Completed
    case Ended(Faulted) => row == Some(Completed) ==> known
    case _ => !known
  }

  predicate Listed(results: seq<TaskResult>, i: nat) {
    exists k :: 0 <= k < |results| && results[k].attempt == i
  }

  /** The results list exactly the ended tasks, each once, with what the drain loop makes of its outcome. */
  predicate ListsEnded(s: State, attempts: nat)
    requires |s.pcs| == attempts
  {
    && OnePerAttempt(s.results)
    && (forall k :: 0 <= k < |s.results| ==>
          var r := s.results[k];
          r.attempt < attempts && s.pcs[r.attempt].Ended? && r.status == DrainStatus(s.pcs[r.attempt].outcome))
    && (forall i: nat :: i < attempts && s.pcs[i].Ended? ==> Listed(s.results, i))
  }

  ghost predicate Invariant(s: State, attempts: nat, limit: nat) {
    && |s.pcs| == attempts
    && s.permits + Count(s.pcs, Holds) == limit
    && (forall i :: i in s.rows ==> i < attempts)
    && (forall i: nat :: i < attempts ==> Recorded(s.pcs[i], Row(s, i), EvidenceOf(s.evidence, i)))
    && AgentsKnown(s, attempts)
    && ListsEnded(s, attempts)
  }

  predicate AgentsKnown(s: State, attempts: nat)
    requires |s.pcs| == attempts
  {
    && (forall i :: i in s.agents ==> i < attempts)
    && (forall i: nat :: i < attempts ==> AgentKnown(s.pcs[i], Row(s, i), i in s.agents))
  }

  lemma InitialInvariant(attempts: nat, limit: nat)
    ensures Invariant(Initial(attempts, limit), attempts, limit)
  {
    CountZero(Initial(attempts, limit).pcs, Holds);
  }

  lemma EvidenceAppend(evidence: seq<Evidence>, x: Evidence, i: nat)
    ensures EvidenceOf(evidence + [x], i) == EvidenceOf(evidence, i) + (if x.attempt == i then [x.kind] else [])
  {
    assert (evidence + [x])[..|evidence|] == evidence;
  }

  lemma ListedAppend(results: seq<TaskResult>, x: TaskResult)
    ensures forall i: nat :: Listed(results + [x], i) <==> (Listed(results, i) || x.attempt == i)
  {
    forall i: nat ensures Listed(results + [x], i) <==> (Listed(results, i) || x.attempt == i) {
      if Listed(results, i) {
        var k :| 0 <= k < |results| && results[k].attempt == i;
        assert (results + [x])[k].attempt == i;
      }
      if x.attempt == i {
        assert (results + [x])[|results|].attempt == i;
      }
    }
  }

  lemma EndLists(s: State, i: nat, outcome: Outcome, attempts: nat)
    requires |s.pcs| == attempts && i < attempts && !s.pcs[i].Ended? && ListsEnded(s, attempts)
    ensures ListsEnded(End(s, i, outcome), attempts)
  {
    ListedAppend(s.results, TaskResult(i, DrainStatus(outcome)));
  }

  lemma EndKeepsInvariant(s: State, i: nat, outcome: Outcome, attempts: nat, limit: nat)
    requires |s.pcs| == attempts && i < attempts && !s.pcs[i].Ended?
    requires s.permits + Count(s.pcs, Holds) == limit
    requires forall j :: j in s.rows ==> j < attempts
    requires forall j: nat :: j < attempts && j != i ==> Recorded(s.pcs[j], Row(s, j), EvidenceOf(s.evidence, j))
    requires Recorded(Ended(outcome), Row(s, i), EvidenceOf(s.evidence, i))
    requires AgentsKnown(s, attempts) && AgentKnown(Ended(outcome), Row(s, i), i in s.agents)
    requires ListsEnded(s, attempts)
    ensures Invariant(End(s, i, outcome), attempts, limit)
  {
    CountUpdate(s.pcs, i, Ended(outcome), Holds);
    var t := End(s, i, outcome);
    EndLists(s, i, outcome, attempts);
    forall j: nat | j < attempts
      ensures Recorded(t.pcs[j], Row(t, j), EvidenceOf(t.evidence, j)) && AgentKnown(t.pcs[j], Row(t, j), j in t.agents)
    {
      assert Row(t, j) == Row(s, j);
    }
  }

  /** t is s after a step of task i that does not end the task. */
  predicate MovesTask(s: State, i: nat, t: State)
    requires i < |s.pcs|
  {
    && |t.pcs| == |s.pcs| && t.pcs == s.pcs[i := t.pcs[i]] && !t.pcs[i].Ended?
    && t.permits + (if Holds(t.pcs[i]) then 1 else 0) == s.permits + (if Holds(s.pcs[i]) then 1 else 0)
    && (t.rows == s.rows || (i in t.rows && t.rows == s.rows[i := t.rows[i]]))
    && (t.agents == s.agents || (i in t.agents && t.agents == s.agents[i := t.agents[i]]))
    && t.evidence == s.evidence && t.results == s.results
  }

  lemma RaiseFacts(s: State, i: nat, kinds: seq<EvidenceKind>)
    requires Enabled(s, Raise(i)) && Recorded(s.pcs[i], Row(s, i), kinds)
      && AgentKnown(s.pcs[i], Row(s, i), i in s.agents)
    ensures s.pcs[i].AwaitAgent? ==> MovesTask(s, i, Apply(s, Raise(i)))
    ensures s.pcs[i].AwaitAgent? ==> Recorded(Apply(s, Raise(i)).pcs[i], Row(Apply(s, Raise(i)), i), kinds)
    ensures s.pcs[i].AwaitAgent? ==>
      AgentKnown(Apply(s, Raise(i)).pcs[i], Row(Apply(s, Raise(i)), i), i in Apply(s, Raise(i)).agents)
    ensures !s.pcs[i].AwaitAgent? ==> AgentKnown(Ended(Faulted), Row(s, i), i in s.agents)
    ensures !s.pcs[i].AwaitAgent? ==> Apply(s, Raise(i)) == End(s, i, Faulted) && kinds == []
  {}

  predicate Ending(pc: Pc) { pc.CancelEvidence? || pc.CompletedEvidence? || pc.FailedEvidence? }

  lemma SucceedFacts(s: State, i: nat, kinds: seq<EvidenceKind>)
    requires Enabled(s, Succeed(i)) && Recorded(s.pcs[i], Row(s, i), kinds) && !Ending(s.pcs[i])
    ensures MovesTask(s, i, Apply(s, Succeed(i)))
    ensures Recorded(Apply(s, Succeed(i)).pcs[i], Row(Apply(s, Succeed(i)), i), kinds)
    ensures AgentKnown(s.pcs[i], Row(s, i), i in s.agents) ==>
      AgentKnown(Apply(s, Succeed(i)).pcs[i], Row(Apply(s, Succeed(i)), i), i in Apply(s, Succeed(i)).agents)
  {
    var t := Apply(s, Succeed(i));
    match s.pcs[i]
    case InsertQueued => assert i in t.rows;
    case WriteCancelled(_) => assert i in t.rows;
    case WriteRunning => assert i in t.rows;
    case WriteCompleted => assert i in t.rows;
    case WriteFailed => assert i in t.rows;
    case AwaitAgent => assert i in t.agents;
    case _ =>
  }

  lemma ReturnFacts(s: State, i: nat, kinds: seq<EvidenceKind>)
    requires Enabled(s, ReturnOther(i)) && Recorded(s.pcs[i], Row(s, i), kinds)
    ensures var t := Apply(s, ReturnOther(i));
      MovesTask(s, i, t) && Recorded(t.pcs[i], Row(t, i), kinds) && AgentKnown(t.pcs[i], Row(t, i), i in t.agents)
  {
    assert i in Apply(s, ReturnOther(i)).agents;
  }

  function LastKind(pc: Pc): EvidenceKind
    requires Ending(pc)
  {
    match pc
    case CancelEvidence(_) => ValidatorCancelled
    case CompletedEvidence => ValidatorAgentRun
    case FailedEvidence => ValidatorError
  }

  function LastOutcome(pc: Pc): Outcome
    requires Ending(pc)
  {
    match pc
    case CancelEvidence(_) => Returned(Cancelled)
    case CompletedEvidence => Returned(Completed)
    case FailedEvidence => AgentFailed
  }

  lemma EndingFacts(pc: Pc, row: Option<Status>, kinds: seq<EvidenceKind>, ran: bool)
    requires Ending(pc) && Recorded(pc, row, kinds) && AgentKnown(pc, row, ran)
    ensures Recorded(Ended(LastOutcome(pc)), row, kinds + [LastKind(pc)])
    ensures AgentKnown(Ended(LastOutcome(pc)), row, ran)
  {
  }

  lemma EndingKeepsInvariant(s: State, i: nat, attempts: nat, limit: nat)
    requires Invariant(s, attempts, limit) && i < attempts && Ending(s.pcs[i])
    ensures Invariant(End(Record(s, i, LastKind(s.pcs[i])), i, LastOutcome(s.pcs[i])), attempts, limit)
  {
    var kind := LastKind(s.pcs[i]);
    var mid := Record(s, i, kind);
    forall j: nat
      ensures EvidenceOf(mid.evidence, j) == EvidenceOf(s.evidence, j) + (if j == i then [kind] else [])
      ensures Row(mid, j) == Row(s, j)
    {
      EvidenceAppend(s.evidence, Evidence(i, kind), j);
    }
    EndingFacts(s.pcs[i], Row(s, i), EvidenceOf(s.evidence, i), i in s.agents);
    forall j: nat | j < attempts && j != i
      ensures Recorded(mid.pcs[j], Row(mid, j), EvidenceOf(mid.evidence, j))
    {
      assert Recorded(s.pcs[j], Row(s, j), EvidenceOf(s.evidence, j));
      assert EvidenceOf(mid.evidence, j) == EvidenceOf(s.evidence, j);
    }
    EndKeepsInvariant(mid, i, LastOutcome(s.pcs[i]), attempts, limit);
  }

  lemma StepKeepsInvariant(s: State, a: Action, attempts: nat, limit: nat)
    requires Invariant(s, attempts, limit) && Enabled(s, a)
    ensures Invariant(Apply(s, a), attempts, limit)
  {
    if a.Raise? {
      var i := a.task;
      RaiseFacts(s, i, EvidenceOf(s.evidence, i));
      if s.pcs[i].AwaitAgent? {
        MoveKeepsInvariant(s, i, Apply(s, a), attempts, limit);
      } else {
        EndKeepsInvariant(s, i, Faulted, attempts, limit);
      }
    } else if a.ReturnOther? {
      ReturnFacts(s, a.task, EvidenceOf(s.evidence, a.task));
      MoveKeepsInvariant(s, a.task, Apply(s, a), attempts, limit);
    } else if a.Succeed? {
      var i := a.task;
      if Ending(s.pcs[i]) {
        EndingKeepsInvariant(s, i, attempts, limit);
        assert Apply(s, a) == End(Record(s, i, LastKind(s.pcs[i])), i, LastOutcome(s.pcs[i]));
      } else {
        SucceedFacts(s, i, EvidenceOf(s.evidence, i));
        MoveKeepsInvariant(s, i, Apply(s, a), attempts, limit);
      }
    } else {
      assert forall i: nat :: Row(Apply(s, a), i) == Row(s, i);
    }
  }

  lemma MoveKeepsInvariant(s: State, i: nat, t: State, attempts: nat, limit: nat)
    requires Invariant(s, attempts, limit) && i < attempts && !s.pcs[i].Ended? && MovesTask(s, i, t)
    requires Recorded(t.pcs[i], Row(t, i), EvidenceOf(t.evidence, i)) && AgentKnown(t.pcs[i], Row(t, i), i in t.agents)
    ensures Invariant(t, attempts, limit)
  {
    CountUpdate(s.pcs, i, t.pcs[i], Holds);
    forall j: nat | j < attempts
      ensures Recorded(t.pcs[j], Row(t, j), EvidenceOf(t.evidence, j)) && AgentKnown(t.pcs[j], Row(t, j), j in t.agents)
    {
      if j != i {
        assert Row(t, j) == Row(s, j) && t.pcs[j] == s.pcs[j];
      }
    }
    MoveKeepsListed(s, i, t, attempts);
  }

  lemma MoveKeepsListed(s: State, i: nat, t: State, attempts: nat)
    requires |s.pcs| == attempts && i < attempts && !s.pcs[i].Ended? && MovesTask(s, i, t) && ListsEnded(s, attempts)
    ensures ListsEnded(t, attempts)
  {
    assert forall j: nat :: j < attempts && j != i ==> t.pcs[j] == s.pcs[j];
  }

  lemma {:induction false} RunKeepsInvariant(s: State, run: seq<Action>, attempts: nat, limit: nat)
    requires Invariant(s, attempts, limit) && Legal(s, run)
    ensures Invariant(Execute(s, run), attempts, limit)
    decreases run
  {
    if run != [] {
      StepKeepsInvariant(s, run[0], attempts, limit);
      RunKeepsInvariant(Apply(s, run[0]), run[1..], attempts, limit);
    }
  }

  // ---------------------------------------------------------------- safety over every run

  /** In every interleaving, at every point, at most max(1, maxParallel) attempts are inside the semaphore. */
  lemma AtMostLimitInside(attempts: nat, maxParallel: int, run: seq<Action>)
    requires Legal(Initial(attempts, Max(1, maxParallel)), run)
    ensures Count(Execute(Initial(attempts, Max(1, maxParallel)), run).pcs, Holds) <= Max(1, maxParallel)
  {
    InitialInvariant(attempts, Max(1, maxParallel));
    RunKeepsInvariant(Initial(attempts, Max(1, maxParallel)), run, attempts, Max(1, maxParallel));
  }

  /** The status an action writes to the row of attempt i, if it writes one. */
  function Written(s: State, a: Action, i: nat): seq<Status>
    requires Enabled(s, a)
  {
    if !a.Succeed? || a.task != i then []
    else match s.pcs[i]
      case InsertQueued => [Queued]
      case WriteCancelled(_) => [Cancelled]
      case WriteRunning => [Running]
      case WriteCompleted => [Completed]
      case WriteFailed => [Failed]
      case _ => []
  }

  /** Every status written to the row of attempt i along a run, in order. */
  function History(s: State, run: seq<Action>, i: nat): seq<Status>
    requires Legal(s, run)
    decreases run
  {
    if run == [] then [] else Written(s, run[0], i) + History(Apply(s, run[0]), run[1..], i)
  }

  predicate IsTerminal(status: Status) {
    status == Completed || status == Failed || status == Cancelled
  }

  /** The lifecycle of a row: which status may be written over which. */
  predicate Follows(row: Option<Status>, next: Status) {
    match row
    case None => next == Queued
    case Some(Queued) => next == Cancelled || next == Running
    case Some(Running) => next == Completed || next == Failed
    case Some(_) => false
  }

  /** h continues the lifecycle of a row whose present status is row. */
  predicate Continues(row: Option<Status>, h: seq<Status>)
    decreases h
  {
    h == [] || (Follows(row, h[0]) && Continues(Some(h[0]), h[1..]))
  }

  lemma WrittenContinues(s: State, a: Action, i: nat, kinds: seq<EvidenceKind>)
    requires Enabled(s, a) && i < |s.pcs| && Recorded(s.pcs[i], Row(s, i), kinds)
    ensures var w := Written(s, a, i);
      && |w| <= 1
      && Row(Apply(s, a), i) == (if w == [] then Row(s, i) else Some(w[0]))
      && (w != [] ==> Follows(Row(s, i), w[0]))
  {
    if IsTaskAction(a) && a.task == i {
      if !a.Succeed? {
        assert Apply(s, a).rows == s.rows;
      } else {
        match s.pcs[i]
        case CancelEvidence(_) => assert Apply(s, a).rows == s.rows;
        case CompletedEvidence => assert Apply(s, a).rows == s.rows;
        case FailedEvidence => assert Apply(s, a).rows == s.rows;
        case _ => SucceedFacts(s, i, kinds);
      }
    }
  }

  lemma {:induction false} HistoryContinues(s: State, run: seq<Action>, i: nat, attempts: nat, limit: nat)
    requires Invariant(s, attempts, limit) && Legal(s, run) && i < attempts
    ensures Continues(Row(s, i), History(s, run, i))
    ensures var h := History(s, run, i);
      Row(Execute(s, run), i) == if h == [] then Row(s, i) else Some(h[|h| - 1])
    decreases run
  {
    if run != [] {
      var t := Apply(s, run[0]);
      StepKeepsInvariant(s, run[0], attempts, limit);
      HistoryContinues(t, run[1..], i, attempts, limit);
      WrittenContinues(s, run[0], i, EvidenceOf(s.evidence, i));
      var w := Written(s, run[0], i);
      var h := History(t, run[1..], i);
      if w == [] {
        assert w + h == h;
      } else {
        assert (w + h)[0] == w[0] && (w + h)[1..] == h;
      }
    }
  }

  /** The complete list of row histories: queued, then cancelled, or running and one of its two ends. */
  predicate LawfulHistory(h: seq<Status>) {
    || h == []
    || h == [Queued]
    || h == [Queued, Cancelled]
    || h == [Queued, Running]
    || h == [Queued, Running, Completed]
    || h == [Queued, Running, Failed]
  }

  /** In every run from the start, every row goes through a lawful history and ends with its last entry. */
  lemma RowHistoriesAreLawful(attempts: nat, limit: nat, run: seq<Action>, i: nat)
    requires Legal(Initial(attempts, limit), run) && i < attempts
    ensures var h := History(Initial(attempts, limit), run, i);
      && LawfulHistory(h)
      && Row(Execute(Initial(attempts, limit), run), i) == if h == [] then None else Some(h[|h| - 1])
  {
    InitialInvariant(attempts, limit);
    HistoryContinues(Initial(attempts, limit), run, i, attempts, limit);
    var h := History(Initial(attempts, limit), run, i);
    if |h| > 1 {
      assert Continues(Some(h[0]), h[1..]) && Continues(Some(h[1]), h[1..][1..]);
      if |h| > 2 {
        assert Continues(Some(h[2]), h[1..][1..][1..]);
      }
    }
  }

  /** Terminal rows stay as they are, whatever happens afterwards. */
  lemma TerminalIsForever(s: State, run: seq<Action>, i: nat, attempts: nat, limit: nat)
    requires Invariant(s, attempts, limit) && Legal(s, run) && i < attempts
    requires Row(s, i).Some? && IsTerminal(Row(s, i).value)
    ensures Row(Execute(s, run), i) == Row(s, i) && History(s, run, i) == []
  {
    HistoryContinues(s, run, i, attempts, limit);
  }

  // ---------------------------------------------------------------- cancellation

  predicate PassedBothChecks(pc: Pc) { pc.WriteRunning? }

  /** How many attempts enter running along a run. */
  function Entries(s: State, run: seq<Action>): nat
    requires Legal(s, run)
    decreases run
  {
    if run == [] then 0
    else
      (if run[0].Succeed? && s.pcs[run[0].task].WriteRunning? then 1 else 0) + Entries(Apply(s, run[0]), run[1..])
  }

  predicate NeverWithdrawn(run: seq<Action>) {
    forall k :: 0 <= k < |run| ==> !run[k].WithdrawCancel?
  }

  lemma {:induction false} EntriesWerePastBothChecks(s: State, run: seq<Action>)
    requires Legal(s, run) && s.cancelRequested && NeverWithdrawn(run)
    ensures Entries(s, run) + Count(Execute(s, run).pcs, PassedBothChecks) <= Count(s.pcs, PassedBothChecks)
    decreases run
  {
    if run != [] {
      var t := Apply(s, run[0]);
      if IsTaskAction(run[0]) {
        TaskMovesOn(s, run[0]);
        CountUpdate(s.pcs, run[0].task, t.pcs[run[0].task], PassedBothChecks);
        NonePastAnew(s, run[0]);
      }
      EntriesWerePastBothChecks(t, run[1..]);
    }
  }

  /** While the flag is set no task gets past both checks, and one that was leaves only by entering running. */
  lemma NonePastAnew(s: State, a: Action)
    requires Enabled(s, a) && IsTaskAction(a) && s.cancelRequested
    ensures Apply(s, a).cancelRequested && !PassedBothChecks(Apply(s, a).pcs[a.task])
    ensures a.Succeed? && s.pcs[a.task].WriteRunning? ==> PassedBothChecks(s.pcs[a.task])
  {
  }

  lemma {:induction false} PastChecksHold(pcs: seq<Pc>)
    ensures Count(pcs, PassedBothChecks) <= Count(pcs, Holds)
  {
    if pcs != [] {
      PastChecksHold(pcs[..|pcs| - 1]);
    }
  }

  /** Once the flag is set and stays set, at most max(1, maxParallel) further attempts enter running. */
  lemma CancellationBound(attempts: nat, maxParallel: int, before: seq<Action>, after: seq<Action>)
    requires var limit := Max(1, maxParallel);
      && Legal(Initial(attempts, limit), before)
      && Execute(Initial(attempts, limit), before).cancelRequested
      && Legal(Execute(Initial(attempts, limit), before), after)
      && NeverWithdrawn(after)
    ensures Entries(Execute(Initial(attempts, Max(1, maxParallel)), before), after) <= Max(1, maxParallel)
  {
    var s := Execute(Initial(attempts, Max(1, maxParallel)), before);
    AtMostLimitInside(attempts, maxParallel, before);
    PastChecksHold(s.pcs);
    EntriesWerePastBothChecks(s, after);
  }

  /** The first k tasks have passed both checks, one after the other; the others have not begun. */
  function Entering(attempts: nat, k: nat): (s: State)
    requires k <= attempts
    ensures |s.pcs| == attempts
  {
    State(seq(attempts, i => if i < k then WriteRunning else InsertQueued), map i | i in Indices(k) :: Queued, [],
          attempts - k, false, [], map[])
  }

  /** The four steps that bring task k past both checks. */
  function Enter(k: nat): seq<Action> { [Succeed(k), Succeed(k), Succeed(k), Succeed(k)] }

  function EnterAll(k: nat): seq<Action> { if k == 0 then [] else EnterAll(k - 1) + Enter(k - 1) }

  lemma EnterOne(attempts: nat, k: nat)
    requires k < attempts
    ensures Legal(Entering(attempts, k), Enter(k))
      && Execute(Entering(attempts, k), Enter(k)) == Entering(attempts, k + 1)
  {
    var s0 := Entering(attempts, k);
    var s1 := Apply(s0, Succeed(k));
    var s2 := Apply(s1, Succeed(k));
    var s3 := Apply(s2, Succeed(k));
    var s4 := Apply(s3, Succeed(k));
    assert s4.pcs == Entering(attempts, k + 1).pcs;
    assert s4 == Entering(attempts, k + 1);
    FourSteps(s0, s1, s2, s3, s4, Succeed(k));
  }

  lemma FourSteps(s0: State, s1: State, s2: State, s3: State, s4: State, a: Action)
    requires Enabled(s0, a) && s1 == Apply(s0, a) && Enabled(s1, a) && s2 == Apply(s1, a)
    requires Enabled(s2, a) && s3 == Apply(s2, a) && Enabled(s3, a) && s4 == Apply(s3, a)
    ensures Legal(s0, [a, a, a, a]) && Execute(s0, [a, a, a, a]) == s4
  {
    ExecuteAppend(s0, [], a);
    ExecuteAppend(s0, [a], a);
    ExecuteAppend(s0, [a, a], a);
    ExecuteAppend(s0, [a, a, a], a);
    assert [] + [a] == [a] && [a] + [a] == [a, a] && [a, a] + [a] == [a, a, a] && [a, a, a] + [a] == [a, a, a, a];
  }

  lemma {:induction false} ExecuteConcat(s: State, run: seq<Action>, more: seq<Action>)
    requires Legal(s, run) && Legal(Execute(s, run), more)
    ensures Legal(s, run + more) && Execute(s, run + more) == Execute(Execute(s, run), more)
    decreases run
  {
    if run == [] {
      assert run + more == more;
    } else {
      assert (run + more)[0] == run[0] && (run + more)[1..] == run[1..] + more;
      ExecuteConcat(Apply(s, run[0]), run[1..], more);
    }
  }

  lemma {:induction false} EnterSome(attempts: nat, k: nat)
    requires k <= attempts
    ensures Legal(Initial(attempts, attempts), EnterAll(k))
      && Execute(Initial(attempts, attempts), EnterAll(k)) == Entering(attempts, k)
  {
    if k == 0 {
      assert Initial(attempts, attempts) == Entering(attempts, 0);
    } else {
      EnterSome(attempts, k - 1);
      EnterOne(attempts, k - 1);
      ExecuteConcat(Initial(attempts, attempts), EnterAll(k - 1), Enter(k - 1));
    }
  }

  /** One step of each task from k on. */
  function StepEach(k: nat, n: nat): seq<Action>
    requires k <= n
    decreases n - k
  {
    if k == n then [] else [Succeed(k)] + StepEach(k + 1, n)
  }

  lemma {:induction false} EachEnters(s: State, k: nat)
    requires k <= |s.pcs| && forall i :: k <= i < |s.pcs| ==> s.pcs[i] == WriteRunning
    ensures Legal(s, StepEach(k, |s.pcs|)) && Entries(s, StepEach(k, |s.pcs|)) == |s.pcs| - k
    ensures NeverWithdrawn(StepEach(k, |s.pcs|))
    decreases |s.pcs| - k
  {
    if k < |s.pcs| {
      var run := StepEach(k, |s.pcs|);
      assert run[0] == Succeed(k) && run[1..] == StepEach(k + 1, |s.pcs|);
      EachEnters(Apply(s, Succeed(k)), k + 1);
    }
  }

  /** The bound is attained: with as many attempts as permits, all of them can have passed both checks when
      the flag is set, and all of them then enter running. */
  lemma CancellationBoundIsAttained(limit: nat) returns (before: seq<Action>, after: seq<Action>)
    requires limit >= 1
    ensures Legal(Initial(limit, limit), before)
    ensures var s := Execute(Initial(limit, limit), before);
      s.cancelRequested && Legal(s, after) && NeverWithdrawn(after) && Entries(s, after) == limit
  {
    EnterSome(limit, limit);
    var s := Entering(limit, limit);
    ExecuteAppend(Initial(limit, limit), EnterAll(limit), RequestCancel);
    before, after := EnterAll(limit) + [RequestCancel], StepEach(0, limit);
    EachEnters(Apply(s, RequestCancel), 0);
  }

  // ---------------------------------------------------------------- progress

  /** Awaits a task still has before it, at most. */
  function Remaining(pc: Pc): nat {
    match pc
    case InsertQueued => 8
    case FirstCheck => 7
    case Waiting => 6
    case SecondCheck => 5
    case WriteRunning => 4
    case AwaitAgent => 3
    case WriteCancelled(_) | WriteCompleted | WriteFailed => 2
    case CancelEvidence(_) | CompletedEvidence | FailedEvidence => 1
    case Ended(_) => 0
  }

  predicate IsTaskAction(a: Action) { a.Succeed? || a.ReturnOther? || a.Raise? }

  /** The step moves task i on, and no other task. */
  predicate MovesOn(s: State, i: nat, t: State)
    requires i < |s.pcs|
  {
    |t.pcs| == |s.pcs| && t.pcs == s.pcs[i := t.pcs[i]] && Remaining(t.pcs[i]) < Remaining(s.pcs[i])
  }

  lemma SucceedMovesOn(s: State, i: nat)
    requires Enabled(s, Succeed(i))
    ensures MovesOn(s, i, Apply(s, Succeed(i)))
  {
    var t := Apply(s, Succeed(i));
    match s.pcs[i]
    case InsertQueued => assert t.pcs[i] == FirstCheck;
    case FirstCheck => assert t.pcs[i] == if s.cancelRequested then WriteCancelled(false) else Waiting;
    case Waiting => assert t.pcs[i] == SecondCheck;
    case SecondCheck => assert t.pcs[i] == if s.cancelRequested then WriteCancelled(true) else WriteRunning;
    case WriteCancelled(holding) => assert t.pcs[i] == CancelEvidence(holding);
    case CancelEvidence(_) => assert t.pcs[i].Ended?;
    case WriteRunning => assert t.pcs[i] == AwaitAgent;
    case AwaitAgent => assert t.pcs[i] == WriteCompleted;
    case WriteCompleted => assert t.pcs[i] == CompletedEvidence;
    case CompletedEvidence => assert t.pcs[i].Ended?;
    case WriteFailed => assert t.pcs[i] == FailedEvidence;
    case FailedEvidence => assert t.pcs[i].Ended?;
  }

  lemma TaskMovesOn(s: State, a: Action)
    requires Enabled(s, a) && IsTaskAction(a)
    ensures MovesOn(s, a.task, Apply(s, a))
  {
    if a.Succeed? {
      SucceedMovesOn(s, a.task);
    } else if a.ReturnOther? {
      assert Apply(s, a).pcs[a.task] == WriteCompleted;
    } else {
      assert Apply(s, a).pcs[a.task] == if s.pcs[a.task].AwaitAgent? then WriteFailed else Ended(Faulted);
    }
  }

  lemma TaskActionsDecrease(s: State, a: Action)
    requires Enabled(s, a)
    ensures IsTaskAction(a) ==> Sum(Apply(s, a).pcs, Remaining) < Sum(s.pcs, Remaining)
    ensures !IsTaskAction(a) ==> Apply(s, a).pcs == s.pcs
  {
    if IsTaskAction(a) {
      TaskMovesOn(s, a);
      SumUpdate(s.pcs, a.task, Apply(s, a).pcs[a.task], Remaining);
    }
  }

  lemma {:induction false} RemainingBound(pcs: seq<Pc>)
    ensures Sum(pcs, Remaining) <= 8 * |pcs|
  {
    if pcs != [] {
      RemainingBound(pcs[..|pcs| - 1]);
    }
  }

  lemma {:induction false} TaskActionsAreBounded(s: State, run: seq<Action>)
    requires Legal(s, run)
    ensures Count(run, IsTaskAction) + Sum(Execute(s, run).pcs, Remaining) <= Sum(s.pcs, Remaining)
    decreases run
  {
    if run != [] {
      TaskActionsDecrease(s, run[0]);
      TaskActionsAreBounded(Apply(s, run[0]), run[1..]);
      assert run == [run[0]] + run[1..];
      CountConcat([run[0]], run[1..], IsTaskAction);
      assert Count([run[0]], IsTaskAction) == if IsTaskAction(run[0]) then 1 else 0 by {
        assert [run[0]] == [] + [run[0]];
        CountAppend([], run[0], IsTaskAction);
      }
    }
  }

  /** No run takes more than eight task actions per attempt, so every fair run drains. */
  lemma RunsTerminate(attempts: nat, limit: nat, run: seq<Action>)
    requires Legal(Initial(attempts, limit), run)
    ensures Count(run, IsTaskAction) <= 8 * attempts
  {
    TaskActionsAreBounded(Initial(attempts, limit), run);
    RemainingBound(Initial(attempts, limit).pcs);
  }

  /** Some task can always move on by succeeding, until all tasks have ended. */
  lemma NeverStuck(s: State, attempts: nat, limit: nat) returns (i: nat)
    requires Invariant(s, attempts, limit) && limit > 0 && !AllEnded(s)
    ensures Enabled(s, Succeed(i))
  {
    if j :| 0 <= j < |s.pcs| && !s.pcs[j].Ended? && !s.pcs[j].Waiting? {
      i := j;
    } else {
      CountZero(s.pcs, Holds);
      i :| 0 <= i < |s.pcs| && !s.pcs[i].Ended?;
    }
  }

  // ---------------------------------------------------------------- the drained fan-out

  /** Attempts whose row has the given status. */
  function RowsWith(rows: map<nat, Status>, status: Status): set<nat> {
    set i | i in rows && rows[i] == status
  }

  function WithStatus(status: Status): TaskResult -> bool {
    (r: TaskResult) => r.status == status
  }

  predicate Faultless(s: State) {
    forall i :: 0 <= i < |s.pcs| ==> s.pcs[i] != Ended(Faulted)
  }

  function ExpectedKind(status: Status): EvidenceKind
    requires IsTerminal(status)
  {
    match status
    case Completed => ValidatorAgentRun
    case Failed => ValidatorError
    case Cancelled => ValidatorCancelled
  }

  /** When all tasks have ended, every attempt none of whose table or flag accesses raised has a
      terminal row, that row's one evidence record, and that row's status in the drained results. */
  lemma DrainedAttempt(s: State, i: nat, attempts: nat, limit: nat)
    requires Invariant(s, attempts, limit) && AllEnded(s) && i < attempts && s.pcs[i] != Ended(Faulted)
    ensures i in s.rows && IsTerminal(s.rows[i])
    ensures EvidenceOf(s.evidence, i) == [ExpectedKind(s.rows[i])]
    ensures exists k :: 0 <= k < |s.results| && s.results[k] == TaskResult(i, s.rows[i])
  {
    assert Recorded(s.pcs[i], Row(s, i), EvidenceOf(s.evidence, i));
    assert Listed(s.results, i);
    var k :| 0 <= k < |s.results| && s.results[k].attempt == i;
    assert s.results[k] == TaskResult(i, s.rows[i]);
  }

  lemma DrainedAttempts(s: State, attempts: nat, limit: nat)
    requires Invariant(s, attempts, limit) && AllEnded(s) && Faultless(s)
    ensures forall i: nat :: i < attempts ==>
      i in s.rows && IsTerminal(s.rows[i]) && EvidenceOf(s.evidence, i) == [ExpectedKind(s.rows[i])]
  {
    forall i: nat | i < attempts
      ensures i in s.rows && IsTerminal(s.rows[i]) && EvidenceOf(s.evidence, i) == [ExpectedKind(s.rows[i])]
    {
      DrainedAttempt(s, i, attempts, limit);
    }
  }

  lemma ResultsAreTerminal(s: State, attempts: nat, limit: nat)
    requires Invariant(s, attempts, limit)
    ensures forall k :: 0 <= k < |s.results| ==> IsTerminal(s.results[k].status)
  {
    forall k | 0 <= k < |s.results| ensures IsTerminal(s.results[k].status) {
      assert Recorded(s.pcs[s.results[k].attempt], Row(s, s.results[k].attempt),
        EvidenceOf(s.evidence, s.results[k].attempt));
    }
  }

  /** Once all tasks have ended, a row says completed exactly if its task got an agent run back, whatever that
      run's status. */
  lemma CompletedRowsAreReturns(s: State, i: nat, attempts: nat, limit: nat)
    requires Invariant(s, attempts, limit) && AllEnded(s) && Faultless(s) && i < attempts
    ensures Row(s, i) == Some(Completed) <==> s.pcs[i] == Ended(Returned(Completed))
    ensures Row(s, i) == Some(Completed) <==> i in s.agents
  {
    assert Recorded(s.pcs[i], Row(s, i), EvidenceOf(s.evidence, i));
    assert AgentKnown(s.pcs[i], Row(s, i), i in s.agents);
  }

  // ---------------------------------------------------------------- what a completed row means

  /** The agent run that attempt i got back had completed. */
  predicate RunCompleted(s: State, i: nat) { i in s.agents && s.agents[i] == AgentCompleted }

  /** Some attempt got back an agent run that had not completed. */
  predicate GotOther(s: State) { exists i :: i in s.agents && s.agents[i] == AgentNotCompleted }

  predicate NoneReturnsOther(run: seq<Action>) { forall k :: 0 <= k < |run| ==> !run[k].ReturnOther? }

  /** What an attempt got back is never forgotten or replaced. */
  lemma StepKeepsAgents(s: State, a: Action, attempts: nat, limit: nat)
    requires Invariant(s, attempts, limit) && Enabled(s, a)
    ensures forall i :: i in s.agents ==> i in Apply(s, a).agents && Apply(s, a).agents[i] == s.agents[i]
    ensures GotOther(Apply(s, a)) <==> GotOther(s) || a.ReturnOther?
  {
    if IsTaskAction(a) {
      assert AgentKnown(s.pcs[a.task], Row(s, a.task), a.task in s.agents);
    }
    var t := Apply(s, a);
    if i :| i in s.agents && s.agents[i] == AgentNotCompleted {
      assert i in t.agents && t.agents[i] == AgentNotCompleted;
    }
    if a.ReturnOther? {
      assert a.task in t.agents && t.agents[a.task] == AgentNotCompleted;
    }
  }

  lemma {:induction false} GotOtherExactlyWhen(s: State, run: seq<Action>, attempts: nat, limit: nat)
    requires Invariant(s, attempts, limit) && Legal(s, run)
    ensures GotOther(Execute(s, run)) <==> GotOther(s) || !NoneReturnsOther(run)
    decreases run
  {
    if run != [] {
      StepKeepsInvariant(s, run[0], attempts, limit);
      StepKeepsAgents(s, run[0], attempts, limit);
      GotOtherExactlyWhen(Apply(s, run[0]), run[1..], attempts, limit);
      assert NoneReturnsOther(run) <==> !run[0].ReturnOther? && NoneReturnsOther(run[1..]) by {
        assert run == [run[0]] + run[1..];
      }
    }
  }

  predicate CompletedRowsAreCompletedRuns(s: State, attempts: nat) {
    forall i: nat :: i < attempts && Row(s, i) == Some(Completed) ==> RunCompleted(s, i)
  }

  /** Over every run without table faults that drains, every completed row means a completed agent run if and
      only if no agent call returned a run of another status. */
  lemma CompletedRowsMeanCompletedRunsExactlyWhen(attempts: nat, limit: nat, run: seq<Action>)
    requires Legal(Initial(attempts, limit), run)
    requires var s := Execute(Initial(attempts, limit), run); AllEnded(s) && Faultless(s)
    ensures CompletedRowsAreCompletedRuns(Execute(Initial(attempts, limit), run), attempts) <==> NoneReturnsOther(run)
  {
    var s := Execute(Initial(attempts, limit), run);
    InitialInvariant(attempts, limit);
    RunKeepsInvariant(Initial(attempts, limit), run, attempts, limit);
    GotOtherExactlyWhen(Initial(attempts, limit), run, attempts, limit);
    forall i: nat | i < attempts ensures Row(s, i) == Some(Completed) <==> i in s.agents {
      CompletedRowsAreReturns(s, i, attempts, limit);
    }
    if i :| i in s.agents && s.agents[i] == AgentNotCompleted {
      assert i < attempts && Row(s, i) == Some(Completed) && !RunCompleted(s, i);
    }
  }

  /** One attempt whose agent session fails, run through to its end. */
  function FailedSession(): seq<Action> {
    Enter(0) + [Succeed(0), ReturnOther(0), Succeed(0), Succeed(0)]
  }

  /** The attempt is recorded as completed, with the evidence of an agent run, although its run had failed. */
  lemma FailedSessionIsCompleted()
    ensures Legal(Initial(1, 1), FailedSession())
    ensures var s := Execute(Initial(1, 1), FailedSession());
      && s.pcs == [Ended(Returned(Completed))] && Row(s, 0) == Some(Completed)
      && EvidenceOf(s.evidence, 0) == [ValidatorAgentRun] && s.agents == map[0 := AgentNotCompleted]
  {
    assert Initial(1, 1) == Entering(1, 0);
    EnterOne(1, 0);
    var s0, rest := Entering(1, 1), [Succeed(0), ReturnOther(0), Succeed(0), Succeed(0)];
    assert s0 == State([WriteRunning], map[0 := Queued], [], 0, false, [], map[]);
    SessionFails(s0);
    ExecuteConcat(Initial(1, 1), Enter(0), rest);
    assert Execute(Initial(1, 1), FailedSession()) == Execute(s0, rest);
    OneEvidence(0, ValidatorAgentRun);
  }

  lemma OneEvidence(i: nat, kind: EvidenceKind)
    ensures EvidenceOf([Evidence(i, kind)], i) == [kind]
  {
    EvidenceAppend([], Evidence(i, kind), i);
    assert [] + [Evidence(i, kind)] == [Evidence(i, kind)];
  }

  lemma SessionFails(s0: State)
    requires s0 == State([WriteRunning], map[0 := Queued], [], 0, false, [], map[])
    ensures var rest := [Succeed(0), ReturnOther(0), Succeed(0), Succeed(0)];
      Legal(s0, rest) && Execute(s0, rest) == State(
        [Ended(Returned(Completed))], map[0 := Completed], [Evidence(0, ValidatorAgentRun)], 1, false,
        [TaskResult(0, Completed)], map[0 := AgentNotCompleted])
  {
    var s1 := State([AwaitAgent], map[0 := Running], [], 0, false, [], map[]);
    var s2 := State([WriteCompleted], map[0 := Running], [], 0, false, [], map[0 := AgentNotCompleted]);
    var s3 := State([CompletedEvidence], map[0 := Completed], [], 0, false, [], map[0 := AgentNotCompleted]);
    var s4 := State([Ended(Returned(Completed))], map[0 := Completed], [Evidence(0, ValidatorAgentRun)], 1, false,
                    [TaskResult(0, Completed)], map[0 := AgentNotCompleted]);
    assert Apply(s0, Succeed(0)) == s1;
    assert Apply(s1, ReturnOther(0)) == s2;
    assert Apply(s2, Succeed(0)) == s3;
    assert Apply(s3, Succeed(0)) == s4;
    OneStep(s3, s4, Succeed(0), []);
    OneStep(s2, s3, Succeed(0), [Succeed(0)]);
    OneStep(s1, s2, ReturnOther(0), [Succeed(0), Succeed(0)]);
    OneStep(s0, s1, Succeed(0), [ReturnOther(0), Succeed(0), Succeed(0)]);
  }

  lemma OneStep(s: State, t: State, a: Action, rest: seq<Action>)
    requires Enabled(s, a) && Apply(s, a) == t && Legal(t, rest)
    ensures Legal(s, [a] + rest) && Execute(s, [a] + rest) == Execute(t, rest)
  {
    assert ([a] + rest)[0] == a && ([a] + rest)[1..] == rest;
  }

  /** At any point of any run, faults included, a completed row is of an attempt that got an agent run back. */
  lemma CompletedRowsHaveRuns(s: State, i: nat, attempts: nat, limit: nat)
    requires Invariant(s, attempts, limit) && i < attempts && Row(s, i) == Some(Completed)
    ensures i in s.agents
  {
    assert Recorded(s.pcs[i], Row(s, i), EvidenceOf(s.evidence, i));
    assert AgentKnown(s.pcs[i], Row(s, i), i in s.agents);
  }

  /** The attempts of the results that satisfy p. */
  function AttemptsWhere(results: seq<TaskResult>, p: TaskResult -> bool): (attempts: set<nat>)
    ensures forall i: nat :: i in attempts <==>
      exists k :: 0 <= k < |results| && results[k].attempt == i && p(results[k])
  {
    if results == [] then {}
    else
      var n := |results| - 1;
      var rest := AttemptsWhere(results[..n], p);
      assert forall k :: 0 <= k < n ==> results[..n][k] == results[k];
      if p(results[n]) then rest + {results[n].attempt} else rest
  }

  predicate OnePerAttempt(results: seq<TaskResult>) {
    forall j, k :: 0 <= j < k < |results| ==> results[j].attempt != results[k].attempt
  }

  /** As results are listed once per attempt, counting results is counting attempts. */
  lemma {:induction false} CountAttempts(results: seq<TaskResult>, p: TaskResult -> bool)
    requires OnePerAttempt(results)
    ensures |AttemptsWhere(results, p)| == Count(results, p)
  {
    if results != [] {
      var n := |results| - 1;
      CountAttempts(results[..n], p);
      assert results[n].attempt !in AttemptsWhere(results[..n], p);
    }
  }

  function Indices(n: nat): (indices: set<nat>)
    ensures |indices| == n && forall i: nat :: i in indices <==> i < n
  {
    if n == 0 then {} else Indices(n - 1) + {n - 1}
  }

  lemma ResultsAreAllAttempts(s: State, attempts: nat, limit: nat)
    requires Invariant(s, attempts, limit) && AllEnded(s)
    ensures |s.results| == attempts
  {
    var any := (r: TaskResult) => true;
    CountAttempts(s.results, any);
    CountAll(s.results, any);
    forall i: nat ensures i in AttemptsWhere(s.results, any) <==> i < attempts {
      if i < attempts {
        assert Listed(s.results, i);
      }
    }
    assert AttemptsWhere(s.results, any) == Indices(attempts);
  }

  lemma ResultsMatchRows(s: State, status: Status, attempts: nat, limit: nat)
    requires Invariant(s, attempts, limit) && AllEnded(s) && Faultless(s)
    ensures Count(s.results, WithStatus(status)) == |RowsWith(s.rows, status)|
  {
    CountAttempts(s.results, WithStatus(status));
    forall i: nat ensures i in AttemptsWhere(s.results, WithStatus(status)) <==> i in RowsWith(s.rows, status) {
      if i < attempts {
        DrainedAttempt(s, i, attempts, limit);
        var m :| 0 <= m < |s.results| && s.results[m] == TaskResult(i, s.rows[i]);
      }
    }
    assert AttemptsWhere(s.results, WithStatus(status)) == RowsWith(s.rows, status);
  }

  /** The drained fan-out as a whole: one row and one result per attempt, and per status as many
      results as rows. */
  lemma Drained(s: State, attempts: nat, limit: nat)
    requires Invariant(s, attempts, limit) && AllEnded(s)
    ensures |s.results| == attempts && s.permits == limit
    ensures Faultless(s) ==> s.rows.Keys == Indices(attempts) && |s.rows| == attempts
    ensures Faultless(s) ==> forall status :: Count(s.results, WithStatus(status)) == |RowsWith(s.rows, status)|
  {
    CountZero(s.pcs, Holds);
    ResultsAreAllAttempts(s, attempts, limit);
    if Faultless(s) {
      forall i: nat | i < attempts ensures i in s.rows { DrainedAttempt(s, i, attempts, limit); }
      assert s.rows.Keys == Indices(attempts);
      forall status ensures Count(s.results, WithStatus(status)) == |RowsWith(s.rows, status)| {
        ResultsMatchRows(s, status, attempts, limit);
      }
    }
  }

  // ---------------------------------------------------------------- the method

  datatype Attempt = Attempt(findingId: string, round: int)

  lemma {:induction false} ExecuteAppend(s: State, run: seq<Action>, a: Action)
    requires Legal(s, run) && Enabled(Execute(s, run), a)
    ensures Legal(s, run + [a]) && Execute(s, run + [a]) == Apply(Execute(s, run), a)
    decreases run
  {
    if run == [] {
      assert run + [a] == [a];
    } else {
      ExecuteAppend(Apply(s, run[0]), run[1..], a);
      assert (run + [a])[0] == run[0] && (run + [a])[1..] == run[1..] + [a];
    }
  }

  /** Attempt r of finding g stands at position g * rounds + r - 1, for the first n findings. */
  predicate Covers(scheduled: seq<Attempt>, findings: seq<string>, n: nat, rounds: int)
    requires n <= |findings|
  {
    forall g, r {:trigger Attempt(findings[g], r)} :: 0 <= g < n && 1 <= r <= rounds ==>
      0 <= g * rounds + r - 1 < |scheduled| && scheduled[g * rounds + r - 1] == Attempt(findings[g], r)
  }

  lemma CoversNext(before: seq<Attempt>, after: seq<Attempt>, findings: seq<string>, f: nat, rounds: int)
    requires f < |findings| && Covers(before, findings, f, rounds) && |before| == f * Max(0, rounds)
    requires |after| == |before| + Max(0, rounds) && before <= after
    requires forall k {:trigger after[k]} :: |before| <= k < |after| ==>
      after[k] == Attempt(findings[f], k - |before| + 1)
    ensures Covers(after, findings, f + 1, rounds) && |after| == (f + 1) * Max(0, rounds)
  {
    forall g, r | 0 <= g < f + 1 && 1 <= r <= rounds
      ensures 0 <= g * rounds + r - 1 < |after| && after[g * rounds + r - 1] == Attempt(findings[g], r)
    {
      if g < f {
        StillThere(before, after, findings, f, rounds, g, r);
      } else {
        InLastRow(before, after, findings, f, rounds, r);
      }
    }
    OneMoreRow(f, Max(0, rounds));
  }

  lemma StillThere(
    before: seq<Attempt>, after: seq<Attempt>, findings: seq<string>, f: nat, rounds: int, g: nat, r: int)
    requires g < f <= |findings| && 1 <= r <= rounds && Covers(before, findings, f, rounds) && before <= after
    ensures 0 <= g * rounds + r - 1 < |after| && after[g * rounds + r - 1] == Attempt(findings[g], r)
  {
    var a := Attempt(findings[g], r);
    assert 0 <= g * rounds + r - 1 < |before| && before[g * rounds + r - 1] == a;
  }

  lemma InLastRow(before: seq<Attempt>, after: seq<Attempt>, findings: seq<string>, f: nat, rounds: int, r: int)
    requires f < |findings| && 1 <= r <= rounds && |before| == f * Max(0, rounds)
      && |after| == |before| + Max(0, rounds)
    requires forall k {:trigger after[k]} :: |before| <= k < |after| ==>
      after[k] == Attempt(findings[f], k - |before| + 1)
    ensures 0 <= f * rounds + r - 1 < |after| && after[f * rounds + r - 1] == Attempt(findings[f], r)
  {
    assert Max(0, rounds) == rounds;
    var k := |before| + r - 1;
    assert after[k] == Attempt(findings[f], k - |before| + 1);
  }

  lemma OneMoreRow(f: nat, m: nat)
    ensures (f + 1) * m == f * m + m
  {
  }

  /** One attempt per finding and round, finding by finding. */
  method Schedule(findings: seq<string>, rounds: int) returns (scheduled: seq<Attempt>)
    ensures |scheduled| == |findings| * Max(0, rounds)
    ensures Covers(scheduled, findings, |findings|, rounds)
  {
    scheduled := [];
    for f := 0 to |findings|
      invariant |scheduled| == f * Max(0, rounds)
      invariant Covers(scheduled, findings, f, rounds)
    {
      var round := 1;
      ghost var before := scheduled;
      while round <= rounds
        invariant 1 <= round <= Max(0, rounds) + 1
        invariant |scheduled| == |before| + round - 1 && before <= scheduled
        invariant forall k {:trigger scheduled[k]} :: |before| <= k < |scheduled| ==>
          scheduled[k] == Attempt(findings[f], k - |before| + 1)
      {
        scheduled := scheduled + [Attempt(findings[f], round)];
        round := round + 1;
      }
      CoversNext(before, scheduled, findings, f, rounds);
    }
  }

  /** Tally the drained results. */
  method TallyStatuses(results: seq<TaskResult>) returns (counts: map<Status, nat>)
    ensures forall status :: Count(results, WithStatus(status)) == if status in counts then counts[status] else 0
  {
    counts := map[];
    for k := 0 to |results|
      invariant forall status ::
        Count(results[..k], WithStatus(status)) == if status in counts then counts[status] else 0
    {
      var status := results[k].status;
      assert results[..k + 1] == results[..k] + [results[k]];
      forall other ensures
        Count(results[..k + 1], WithStatus(other)) ==
        Count(results[..k], WithStatus(other)) + (if other == status then 1 else 0)
      {
        CountAppend(results[..k], results[k], WithStatus(other));
      }
      counts := counts[status := (if status in counts then counts[status] else 0) + 1];
    }
    assert results[..|results|] == results;
  }

  lemma {:induction false} TerminalCountsSum(results: seq<TaskResult>)
    requires forall k :: 0 <= k < |results| ==> IsTerminal(results[k].status)
    ensures Count(results, WithStatus(Completed)) + Count(results, WithStatus(Failed))
      + Count(results, WithStatus(Cancelled)) == |results|
  {
    if results != [] {
      TerminalCountsSum(results[..|results| - 1]);
    }
  }

  function Tallied(counts: map<Status, nat>, status: Status): nat {
    if status in counts then counts[status] else 0
  }

  /** Schedule the attempts and, if asked to wait, let an arbitrary scheduler, an arbitrary
      environment and arbitrary failures interleave them until the drain loop has seen them all. */
  method ScaleValidators(findings: seq<string>, rounds: int, maxParallel: int, waitForCompletion: bool)
    returns (scheduled: seq<Attempt>, s: State, statusCounts: map<Status, nat>, ghost run: seq<Action>)
    ensures |scheduled| == |findings| * Max(0, rounds)
    ensures var start := Initial(|scheduled|, Max(1, maxParallel)); Legal(start, run) && s == Execute(start, run)
    ensures !waitForCompletion ==> statusCounts == map[]
    ensures waitForCompletion ==> AllEnded(s) && s.permits == Max(1, maxParallel)
    ensures waitForCompletion ==>
      Tallied(statusCounts, Completed) + Tallied(statusCounts, Failed) + Tallied(statusCounts, Cancelled) == |scheduled|
    ensures waitForCompletion && Faultless(s) ==>
      && |s.rows| == |findings| * Max(0, rounds)
      && (forall status :: Tallied(statusCounts, status) == |RowsWith(s.rows, status)|)
      && (forall i: nat :: i < |scheduled| ==>
            i in s.rows && IsTerminal(s.rows[i]) && EvidenceOf(s.evidence, i) == [ExpectedKind(s.rows[i])])
  {
    scheduled := Schedule(findings, rounds);
    var limit := Max(1, maxParallel);
    ghost var start := Initial(|scheduled|, limit);
    s := Initial(|scheduled|, limit);
    run := [];
    statusCounts := map[];
    InitialInvariant(|scheduled|, limit);
    if waitForCompletion {
      while !AllEnded(s)
        invariant Legal(start, run) && s == Execute(start, run)
        invariant Invariant(s, |scheduled|, limit)
        decreases Sum(s.pcs, Remaining)
      {
        ghost var witnessTask := NeverStuck(s, |scheduled|, limit);
        var toggled: bool := *;
        var requested: bool := *;
        if toggled {
          var change := if requested then RequestCancel else WithdrawCancel;
          ExecuteAppend(start, run, change);
          StepKeepsInvariant(s, change, |scheduled|, limit);
          s, run := Apply(s, change), run + [change];
        }
        var i :| 0 <= i < |s.pcs| && Enabled(s, Succeed(i));
        var raises: bool := *;
        var other: bool := *;
        var action := if raises && Enabled(s, Raise(i)) then Raise(i)
          else if other && Enabled(s, ReturnOther(i)) then ReturnOther(i) else Succeed(i);
        ExecuteAppend(start, run, action);
        StepKeepsInvariant(s, action, |scheduled|, limit);
        TaskActionsDecrease(s, action);
        s, run := Apply(s, action), run + [action];
      }
      Drained(s, |scheduled|, limit);
      statusCounts := TallyStatuses(s.results);
      ResultsAreTerminal(s, |scheduled|, limit);
      TerminalCountsSum(s.results);
      if Faultless(s) {
        DrainedAttempts(s, |scheduled|, limit);
      }
    }
  }
}
