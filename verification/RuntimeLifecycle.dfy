/** Run-scoped agent runtimes: the runtime table, and the containers, networks and API keys that
    belong to audit runs, under ensure, cleanup and reconcile. */
module RuntimeLifecycle {
  import opened Prelude

  datatype RuntimeStatus = Starting | Running | Cleaned

  datatype Runtime = Runtime(
    id: nat, run: string, status: RuntimeStatus, cleaned: bool, expiresAt: Option<int>, containers: seq<nat>)

  datatype AuditRun = AuditRun(status: string, retainOnFailure: bool)

  datatype Key = Key(run: string, active: bool)

  /** Starting one sidecar or the runner: a running container is found, a new one comes up, or the call
      raises having created a key, a container, both or neither. */
  datatype Launch = Finds(container: nat) | Launches(withKey: bool) | Raises(withKey: bool, created: bool)

  /** Preparing the run's network: done, or raised with the network already made or not. */
  datatype Preparation = Ready | Unready(made: bool)

  /** How an ensure ends: the row is written and read back, or the write or the read raises. */
  datatype Ending = Recorded | WriteRaises | ReadRaises

  /** What the container engine and the database answer during one ensure. */
  datatype Script = Script(preparation: Preparation, launches: seq<Launch>, ending: Ending)

  /** What the tables and the container engine hold. Identifiers are fresh; a counter stands for their
      generator. */
  datatype Tables = Tables(
    runtimes: seq<Runtime>, containers: map<nat, string>, networks: map<string, string>, keys: map<nat, Key>,
    nextId: nat)

  const DAY: int := 24 * 60 * 60

  function NetworkName(run: string): string { "dieaudit-run-" + run }

  predicate IsActive(r: Runtime) { (r.status == Starting || r.status == Running) && !r.cleaned }

  predicate HasActive(rows: seq<Runtime>, run: string) {
    exists i :: 0 <= i < |rows| && rows[i].run == run && IsActive(rows[i])
  }

  predicate OneActivePerRun(rows: seq<Runtime>) {
    forall i, j :: 0 <= i < j < |rows| && IsActive(rows[i]) && IsActive(rows[j]) ==> rows[i].run != rows[j].run
  }

  /** The global invariant. Besides at most one active runtime per run: no container is live and no key
      active unless its run has an active runtime row, so reconciliation, which walks uncleaned rows,
      reaches all of them. */
  predicate Consistent(t: Tables) {
    && OneActivePerRun(t.runtimes)
    && (forall i :: 0 <= i < |t.runtimes| ==>
          (t.runtimes[i].cleaned <==> t.runtimes[i].status == Cleaned) && t.runtimes[i].id < t.nextId)
    && (forall i, j :: 0 <= i < j < |t.runtimes| ==> t.runtimes[i].id != t.runtimes[j].id)
    && (forall c :: c in t.containers ==> c < t.nextId && HasActive(t.runtimes, t.containers[c]))
    && (forall k :: k in t.keys ==> k < t.nextId && (t.keys[k].active ==> HasActive(t.runtimes, t.keys[k].run)))
    && (forall n :: n in t.networks ==> n == NetworkName(t.networks[n]))
  }

  // ---------------------------------------------------------------- one audit run's share

  /** The part of the tables that belongs to one audit run. */
  datatype Share = Share(runtimes: seq<Runtime>, containers: set<nat>, networks: set<string>, keys: map<nat, Key>)

  function RowsOf(rows: seq<Runtime>, run: string): seq<Runtime> {
    if rows == [] then []
    else RowsOf(rows[..|rows| - 1], run) + (if rows[|rows| - 1].run == run then [rows[|rows| - 1]] else [])
  }

  function ShareOf(t: Tables, run: string): Share {
    Share(RowsOf(t.runtimes, run),
          set c | c in t.containers && t.containers[c] == run,
          set n | n in t.networks && t.networks[n] == run,
          map k | k in t.keys && t.keys[k].run == run :: t.keys[k])
  }

  /** Only the share of `run` differs. */
  ghost predicate OthersUnchanged(t: Tables, t': Tables, run: string) {
    forall other :: other != run ==> ShareOf(t', other) == ShareOf(t, other)
  }

  lemma RowsOfAppend(rows: seq<Runtime>, row: Runtime, run: string)
    ensures RowsOf(rows + [row], run) == RowsOf(rows, run) + (if row.run == run then [row] else [])
  {
    assert (rows + [row])[..|rows|] == rows;
  }

  lemma {:induction false} RowsOfUpdate(rows: seq<Runtime>, index: nat, row: Runtime, run: string)
    requires index < |rows| && rows[index].run == row.run != run
    ensures RowsOf(rows[index := row], run) == RowsOf(rows, run)
  {
    var last := |rows| - 1;
    if index == last {
      assert rows[index := row][..last] == rows[..last];
    } else {
      assert rows[index := row][..last] == rows[..last][index := row];
      RowsOfUpdate(rows[..last], index, row, run);
    }
  }

  // ---------------------------------------------------------------- cleanup, on tables

  /** The runtime table after the rows of some audit runs have been marked cleaned. */
  function MarkCleaned(rows: seq<Runtime>, runs: set<string>): (marked: seq<Runtime>)
    ensures |marked| == |rows|
  {
    seq(|rows|, i requires 0 <= i < |rows| =>
      if rows[i].run in runs then rows[i].(status := Cleaned, cleaned := true) else rows[i])
  }

  function Dropped<K>(owners: map<K, string>, runs: set<string>): map<K, string> {
    map k | k in owners && owners[k] !in runs :: owners[k]
  }

  function Deactivated(keys: map<nat, Key>, runs: set<string>): map<nat, Key> {
    map k | k in keys :: if keys[k].run in runs then keys[k].(active := false) else keys[k]
  }

  function CleanedUp(t: Tables, runs: set<string>): Tables {
    Tables(MarkCleaned(t.runtimes, runs), Dropped(t.containers, runs), Dropped(t.networks, runs),
      Deactivated(t.keys, runs), t.nextId)
  }

  lemma CleanupKeepsConsistent(t: Tables, runs: set<string>)
    requires Consistent(t)
    ensures Consistent(CleanedUp(t, runs))
  {
    forall run | HasActive(t.runtimes, run) && run !in runs ensures HasActive(MarkCleaned(t.runtimes, runs), run) {
      var i :| 0 <= i < |t.runtimes| && t.runtimes[i].run == run && IsActive(t.runtimes[i]);
      assert MarkCleaned(t.runtimes, runs)[i] == t.runtimes[i];
    }
  }

  lemma {:induction false} MarkedRowsOf(rows: seq<Runtime>, runs: set<string>, run: string)
    requires run !in runs
    ensures RowsOf(MarkCleaned(rows, runs), run) == RowsOf(rows, run)
  {
    if rows != [] {
      var last := |rows| - 1;
      assert MarkCleaned(rows, runs)[..last] == MarkCleaned(rows[..last], runs);
      MarkedRowsOf(rows[..last], runs, run);
    }
  }

  /** Cleaning up some runs leaves the shares of all others as they were. */
  lemma CleanupIsLocal(t: Tables, runs: set<string>, run: string)
    requires run !in runs
    ensures ShareOf(CleanedUp(t, runs), run) == ShareOf(t, run)
  {
    MarkedRowsOf(t.runtimes, runs, run);
  }

  lemma CleanupsCompose(t: Tables, runs: set<string>, run: string)
    ensures CleanedUp(CleanedUp(t, runs), {run}) == CleanedUp(t, runs + {run})
  {
  }

  lemma NothingCleanedUp(t: Tables)
    ensures CleanedUp(t, {}) == t
  {
  }

  /** A cleanup that raises midway has removed some of the run's containers and networks. */
  function PartlyCleaned(t: Tables, gone: set<nat>, cut: set<string>): Tables {
    t.(containers := t.containers - gone, networks := t.networks - cut)
  }

  lemma PartialCleanup(t: Tables, run: string, gone: set<nat>, cut: set<string>)
    requires Consistent(t)
    requires forall c :: c in gone ==> c in t.containers && t.containers[c] == run
    requires forall n :: n in cut ==> n in t.networks && t.networks[n] == run
    ensures Consistent(PartlyCleaned(t, gone, cut)) && OthersUnchanged(t, PartlyCleaned(t, gone, cut), run)
  {
  }

  lemma DeactivationIsSafe(t: Tables, run: string)
    requires Consistent(t)
    ensures var t' := t.(keys := Deactivated(t.keys, {run})); Consistent(t') && OthersUnchanged(t, t', run)
  {
  }

  lemma CompleteRemoval(t: Tables, run: string)
    ensures var removed := PartlyCleaned(t, ShareOf(t, run).containers, ShareOf(t, run).networks);
      removed.containers == Dropped(t.containers, {run}) && removed.networks == Dropped(t.networks, {run})
  {
  }

  // ---------------------------------------------------------------- launching, on tables

  function WithKey(t: Tables, run: string): Tables {
    t.(keys := t.keys[t.nextId := Key(run, true)], nextId := t.nextId + 1)
  }

  function WithContainer(t: Tables, run: string): Tables {
    t.(containers := t.containers[t.nextId := run], nextId := t.nextId + 1)
  }

  function AfterLaunch(t: Tables, run: string, launch: Launch): Tables {
    if launch.Finds? then t
    else
      var keyed := if launch.withKey then WithKey(t, run) else t;
      if launch.Launches? || launch.created then WithContainer(keyed, run) else keyed
  }

  /** The tables after launching in order, up to and including the first launch that raises. */
  function AfterLaunches(t: Tables, run: string, launches: seq<Launch>): Tables
    decreases launches
  {
    if launches == [] then t
    else if launches[0].Raises? then AfterLaunch(t, run, launches[0])
    else AfterLaunches(AfterLaunch(t, run, launches[0]), run, launches[1..])
  }

  lemma KeyIsSafe(t: Tables, run: string)
    requires Consistent(t) && HasActive(t.runtimes, run)
    ensures Consistent(WithKey(t, run)) && OthersUnchanged(t, WithKey(t, run), run)
  {
  }

  lemma ContainerIsSafe(t: Tables, run: string)
    requires Consistent(t) && HasActive(t.runtimes, run)
    ensures Consistent(WithContainer(t, run)) && OthersUnchanged(t, WithContainer(t, run), run)
  {
  }

  lemma LaunchIsSafe(t: Tables, run: string, launch: Launch)
    requires Consistent(t) && HasActive(t.runtimes, run)
    ensures var t' := AfterLaunch(t, run, launch);
      Consistent(t') && OthersUnchanged(t, t', run) && t'.runtimes == t.runtimes && t'.networks == t.networks
  {
    if !launch.Finds? {
      var keyed := if launch.withKey then WithKey(t, run) else t;
      if launch.withKey {
        KeyIsSafe(t, run);
      }
      if launch.Launches? || launch.created {
        ContainerIsSafe(keyed, run);
      }
    }
  }

  lemma {:induction false} LaunchesAreSafe(t: Tables, run: string, launches: seq<Launch>)
    requires Consistent(t) && HasActive(t.runtimes, run)
    ensures var t' := AfterLaunches(t, run, launches);
      Consistent(t') && OthersUnchanged(t, t', run) && t'.runtimes == t.runtimes && t'.networks == t.networks
    decreases launches
  {
    if launches != [] {
      LaunchIsSafe(t, run, launches[0]);
      if !launches[0].Raises? {
        LaunchesAreSafe(AfterLaunch(t, run, launches[0]), run, launches[1..]);
      }
    }
  }

  /** The container one launch found or brought up, given the next fresh identifier. */
  function StartedBy(nextId: nat, launch: Launch): seq<nat> {
    if launch.Finds? then [launch.container]
    else if launch.Launches? || launch.created then [if launch.withKey then nextId + 1 else nextId]
    else []
  }

  /** The containers found or brought up, in order, up to and including the first launch that raises. */
  function Started(t: Tables, run: string, launches: seq<Launch>): seq<nat>
    decreases launches
  {
    if launches == [] then []
    else if launches[0].Raises? then StartedBy(t.nextId, launches[0])
    else StartedBy(t.nextId, launches[0]) + Started(AfterLaunch(t, run, launches[0]), run, launches[1..])
  }

  /** t is t0 after the first k launches, none of which raised, and `started` are their containers. */
  predicate LaunchedSoFar(t0: Tables, t: Tables, run: string, launches: seq<Launch>, k: nat, started: seq<nat>)
    requires k <= |launches|
  {
    && AfterLaunches(t, run, launches[k..]) == AfterLaunches(t0, run, launches)
    && started + Started(t, run, launches[k..]) == Started(t0, run, launches)
  }

  lemma LaunchStep(t0: Tables, t: Tables, run: string, launches: seq<Launch>, k: nat, started: seq<nat>)
    requires k < |launches| && LaunchedSoFar(t0, t, run, launches, k, started)
    ensures var t', more := AfterLaunch(t, run, launches[k]), started + StartedBy(t.nextId, launches[k]);
      if launches[k].Raises? then t' == AfterLaunches(t0, run, launches) && more == Started(t0, run, launches)
      else LaunchedSoFar(t0, t', run, launches, k + 1, more)
  {
    assert launches[k..][0] == launches[k] && launches[k..][1..] == launches[k + 1..];
    var found := StartedBy(t.nextId, launches[k]);
    if !launches[k].Raises? {
      var rest := Started(AfterLaunch(t, run, launches[k]), run, launches[k + 1..]);
      assert started + (found + rest) == (started + found) + rest;
    }
  }

  predicate NoneRaises(launches: seq<Launch>) {
    forall k :: 0 <= k < |launches| ==> !launches[k].Raises?
  }

  // ---------------------------------------------------------------- row changes, on tables

  lemma InsertRow(t: Tables, row: Runtime)
    requires Consistent(t) && row.id == t.nextId && IsActive(row) && !HasActive(t.runtimes, row.run)
    ensures var t' := t.(runtimes := t.runtimes + [row], nextId := t.nextId + 1);
      Consistent(t') && OthersUnchanged(t, t', row.run) && HasActive(t'.runtimes, row.run)
  {
    InsertedActive(t.runtimes, row);
    InsertedRows(t.runtimes, row, t.nextId);
    InsertedElsewhere(t, row);
  }

  lemma InsertedActive(rows: seq<Runtime>, row: Runtime)
    requires IsActive(row)
    ensures HasActive(rows + [row], row.run)
    ensures forall run :: HasActive(rows, run) ==> HasActive(rows + [row], run)
  {
    assert (rows + [row])[|rows|] == row;
    forall run | HasActive(rows, run) ensures HasActive(rows + [row], run) {
      var i :| 0 <= i < |rows| && rows[i].run == run && IsActive(rows[i]);
      assert (rows + [row])[i] == rows[i];
    }
  }

  lemma InsertedElsewhere(t: Tables, row: Runtime)
    ensures OthersUnchanged(t, t.(runtimes := t.runtimes + [row], nextId := t.nextId + 1), row.run)
  {
    forall other | other != row.run ensures RowsOf(t.runtimes + [row], other) == RowsOf(t.runtimes, other) {
      RowsOfAppend(t.runtimes, row, other);
    }
  }

  lemma InsertedRows(rows: seq<Runtime>, row: Runtime, nextId: nat)
    requires OneActivePerRun(rows) && !HasActive(rows, row.run) && row.id == nextId
    requires forall i :: 0 <= i < |rows| ==> rows[i].id < nextId
    requires forall i, j :: 0 <= i < j < |rows| ==> rows[i].id != rows[j].id
    ensures OneActivePerRun(rows + [row])
    ensures forall i, j :: 0 <= i < j < |rows + [row]| ==> (rows + [row])[i].id != (rows + [row])[j].id
  {
  }

  lemma RewriteRow(t: Tables, index: nat, row: Runtime)
    requires Consistent(t) && index < |t.runtimes| && IsActive(t.runtimes[index]) && IsActive(row)
    requires row.id == t.runtimes[index].id && row.run == t.runtimes[index].run
    ensures var t' := t.(runtimes := t.runtimes[index := row]);
      Consistent(t') && OthersUnchanged(t, t', row.run) && HasActive(t'.runtimes, row.run)
  {
    var t' := t.(runtimes := t.runtimes[index := row]);
    forall run | HasActive(t.runtimes, run) ensures HasActive(t'.runtimes, run) {
      var i :| 0 <= i < |t.runtimes| && t.runtimes[i].run == run && IsActive(t.runtimes[i]);
      assert t'.runtimes[i].run == run && IsActive(t'.runtimes[i]);
    }
    assert t'.runtimes[index] == row;
    forall other | other != row.run ensures ShareOf(t', other) == ShareOf(t, other) {
      RowsOfUpdate(t.runtimes, index, row, other);
    }
  }

  lemma AddNetwork(t: Tables, run: string)
    requires Consistent(t)
    ensures var t' := t.(networks := t.networks[NetworkName(run) := run]);
      Consistent(t') && OthersUnchanged(t, t', run)
  {
    NetworkNamesDiffer(run);
  }

  lemma NetworkNamesDiffer(run: string)
    ensures forall other :: other != run ==> NetworkName(other) != NetworkName(run)
  {
    var n := |"dieaudit-run-"|;
    forall other | other != run ensures NetworkName(other) != NetworkName(run) {
      assert NetworkName(other)[n..] == other && NetworkName(run)[n..] == run;
    }
  }

  /** The same runtimes with the same containers listed; none has gone back to starting. */
  predicate SameStarts(rows: seq<Runtime>, rows': seq<Runtime>) {
    |rows'| == |rows| && forall i :: 0 <= i < |rows| ==>
      rows'[i].id == rows[i].id && rows'[i].containers == rows[i].containers
        && (rows'[i].status == Starting ==> rows[i].status == Starting)
  }

  // ---------------------------------------------------------------- the class

  function WithNetwork(t: Tables, run: string): Tables { t.(networks := t.networks[NetworkName(run) := run]) }

  /** From t to t', the newest active runtime of the run has been marked running, unless the write raised. */
  predicate Reuses(t: Tables, t': Tables, run: string, ending: Ending, runtime: Option<nat>) {
    exists i :: 0 <= i < |t.runtimes| && t.runtimes[i].run == run && IsActive(t.runtimes[i])
      && (forall j :: i < j < |t.runtimes| ==> !(t.runtimes[j].run == run && IsActive(t.runtimes[j])))
      && runtime == (if ending.WriteRaises? then None else Some(t.runtimes[i].id))
      && t' == if ending.WriteRaises? then t else t.(runtimes := t.runtimes[i := t.runtimes[i].(status := Running)])
  }

  /** From t to t', a runtime has been started: its row comes first, then its launches, and the row is
      marked running with its containers only if none of them raised and the write succeeded. */
  predicate Starts(t: Tables, t': Tables, run: string, now: int, script: Script, runtime: Option<nat>) {
    var row := Runtime(t.nextId, run, Starting, false, Some(now + DAY), []);
    var inserted := t.(runtimes := t.runtimes + [row], nextId := t.nextId + 1);
    var launched := AfterLaunches(inserted, run, script.launches);
    var complete := NoneRaises(script.launches) && !script.ending.WriteRaises?;
    && t' == launched.(runtimes := t.runtimes + [
         if complete then row.(status := Running, containers := Started(inserted, run, script.launches)) else row])
    && runtime == if complete && script.ending.Recorded? then Some(t.nextId) else None
  }

  lemma MarkedSameStarts(rows: seq<Runtime>, runs: set<string>)
    ensures SameStarts(rows, rows) && SameStarts(rows, MarkCleaned(rows, runs))
  {
  }

  lemma SweptSameStarts(rows: seq<Runtime>, runs: set<string>, rows': seq<Runtime>)
    requires SameStarts(MarkCleaned(rows, runs), rows')
    ensures SameStarts(rows, rows')
  {
  }

  lemma UnchangedChain(t: Tables, t': Tables, t'': Tables, run: string)
    requires OthersUnchanged(t, t', run) && OthersUnchanged(t', t'', run)
    ensures OthersUnchanged(t, t'', run)
  {
    forall other | other != run ensures ShareOf(t'', other) == ShareOf(t, other) {
      assert ShareOf(t', other) == ShareOf(t, other);
    }
  }

  class RuntimeOrchestrator {
    var runtimes: seq<Runtime>
    var containers: map<nat, string>
    var networks: map<string, string>
    var keys: map<nat, Key>
    var nextId: nat

    function State(): Tables
      reads this
    {
      Tables(runtimes, containers, networks, keys, nextId)
    }

    constructor ()
      ensures State() == Tables([], map[], map[], map[], 0) && Consistent(State())
    {
      runtimes, containers, networks, keys, nextId := [], map[], map[], map[], 0;
    }

    /** The newest active row of a run. */
    method ActiveAgentRuntime(run: string) returns (index: Option<nat>)
      ensures index.Some? ==>
        index.value < |runtimes| && runtimes[index.value].run == run && IsActive(runtimes[index.value])
      ensures index.Some? ==> forall j :: index.value < j < |runtimes| ==>
        !(runtimes[j].run == run && IsActive(runtimes[j]))
      ensures index == None <==> !HasActive(runtimes, run)
    {
      var i := |runtimes|;
      while i > 0
        invariant 0 <= i <= |runtimes|
        invariant forall j :: i <= j < |runtimes| ==> !(runtimes[j].run == run && IsActive(runtimes[j]))
      {
        i := i - 1;
        if runtimes[i].run == run && IsActive(runtimes[i]) {
          return Some(i);
        }
      }
      index := None;
    }

    method LaunchOne(run: string, launch: Launch) returns (found: seq<nat>)
      modifies this`containers, this`keys, this`nextId
      ensures State() == AfterLaunch(old(State()), run, launch)
      ensures found == StartedBy(old(nextId), launch)
    {
      if launch.Finds? {
        return [launch.container];
      }
      if launch.withKey {
        keys, nextId := keys[nextId := Key(run, true)], nextId + 1;
      }
      if launch.Raises? && !launch.created {
        return [];
      }
      found := [nextId];
      containers, nextId := containers[nextId := run], nextId + 1;
    }

    /** Start the sidecars and the runner of a new runtime, stopping at the first that raises. */
    method LaunchAll(run: string, launches: seq<Launch>) returns (ok: bool, started: seq<nat>)
      modifies this`containers, this`keys, this`nextId
      ensures State() == AfterLaunches(old(State()), run, launches)
      ensures ok <==> NoneRaises(launches)
      ensures started == Started(old(State()), run, launches)
    {
      ok, started := true, [];
      for k := 0 to |launches|
        invariant ok && NoneRaises(launches[..k])
        invariant LaunchedSoFar(old(State()), State(), run, launches, k, started)
      {
        LaunchStep(old(State()), State(), run, launches, k, started);
        var found := LaunchOne(run, launches[k]);
        started := started + found;
        if launches[k].Raises? {
          assert !NoneRaises(launches);
          return false, started;
        }
      }
      assert launches[..|launches|] == launches;
    }

    /** Reuse the run's active runtime, or start one. Whatever was created before a call raised stays. */
    method EnsureAgentRuntime(run: string, now: int, script: Script) returns (runtime: Option<nat>)
      requires Consistent(State())
      modifies this
      ensures Consistent(State()) && OthersUnchanged(old(State()), State(), run)
      ensures script.preparation.Unready? ==>
        runtime == None && State() == if script.preparation.made then WithNetwork(old(State()), run) else old(State())
      ensures script.preparation.Ready? && HasActive(old(runtimes), run) ==>
        Reuses(WithNetwork(old(State()), run), State(), run, script.ending, runtime)
      ensures script.preparation.Ready? && !HasActive(old(runtimes), run) ==>
        Starts(WithNetwork(old(State()), run), State(), run, now, script, runtime)
    {
      ghost var start := State();
      AddNetwork(State(), run);
      match script.preparation {
        case Unready(made) =>
          if made {
            networks := networks[NetworkName(run) := run];
          }
          return None;
        case Ready =>
      }
      networks := networks[NetworkName(run) := run];
      var existing := ActiveAgentRuntime(run);
      if existing.Some? {
        runtime := Reuse(run, existing.value, script.ending);
      } else {
        runtime := Start(run, now, script);
      }
      UnchangedChain(start, WithNetwork(start, run), State(), run);
    }

    method Reuse(run: string, index: nat, ending: Ending) returns (runtime: Option<nat>)
      requires Consistent(State()) && index < |runtimes| && runtimes[index].run == run && IsActive(runtimes[index])
      requires forall j :: index < j < |runtimes| ==> !(runtimes[j].run == run && IsActive(runtimes[j]))
      modifies this`runtimes
      ensures Consistent(State()) && OthersUnchanged(old(State()), State(), run)
      ensures Reuses(old(State()), State(), run, ending, runtime)
    {
      if ending.WriteRaises? {
        return None;
      }
      var row := runtimes[index];
      RewriteRow(State(), index, row.(status := Running));
      runtimes := runtimes[index := row.(status := Running)];
      runtime := Some(row.id);
    }

    method Start(run: string, now: int, script: Script) returns (runtime: Option<nat>)
      requires Consistent(State()) && !HasActive(runtimes, run)
      modifies this
      ensures Consistent(State()) && OthersUnchanged(old(State()), State(), run)
      ensures Starts(old(State()), State(), run, now, script, runtime)
    {
      ghost var start := State();
      var index := |runtimes|;
      var row := Insert(run, now);
      ghost var inserted := State();
      LaunchesAreSafe(inserted, run, script.launches);
      var ok, started := LaunchAll(run, script.launches);
      UnchangedChain(start, inserted, State(), run);
      if !ok || script.ending.WriteRaises? {
        return None;
      }
      ghost var launched := State();
      Complete(index, row, started);
      UnchangedChain(start, launched, State(), run);
      runtime := if script.ending.ReadRaises? then None else Some(row.id);
    }

    /** The row of a runtime that is being started. */
    method Insert(run: string, now: int) returns (row: Runtime)
      requires Consistent(State()) && !HasActive(runtimes, run)
      modifies this`runtimes, this`nextId
      ensures row == Runtime(old(nextId), run, Starting, false, Some(now + DAY), [])
      ensures State() == old(State()).(runtimes := old(runtimes) + [row], nextId := old(nextId) + 1)
      ensures Consistent(State()) && OthersUnchanged(old(State()), State(), run) && HasActive(runtimes, run)
    {
      row := Runtime(nextId, run, Starting, false, Some(now + DAY), []);
      InsertRow(State(), row);
      runtimes, nextId := runtimes + [row], nextId + 1;
    }

    /** The row once everything has been launched. */
    method Complete(index: nat, row: Runtime, started: seq<nat>)
      requires Consistent(State()) && index < |runtimes| && runtimes[index] == row && IsActive(row)
      modifies this`runtimes
      ensures runtimes == old(runtimes)[index := row.(status := Running, containers := started)]
      ensures Consistent(State()) && OthersUnchanged(old(State()), State(), row.run)
    {
      RewriteRow(State(), index, row.(status := Running, containers := started));
      runtimes := runtimes[index := row.(status := Running, containers := started)];
    }

    /** Remove the run's containers one by one; `calls` docker calls succeed, the next one raises. */
    method RemoveContainers(run: string, calls: nat) returns (ok: bool, left: nat, ghost gone: set<nat>)
      modifies this`containers
      ensures State() == PartlyCleaned(old(State()), gone, {})
      ensures gone <= ShareOf(old(State()), run).containers
      ensures ok <==> calls >= |ShareOf(old(State()), run).containers|
      ensures ok ==> gone == ShareOf(old(State()), run).containers && left == calls - |gone|
    {
      var owned := set c | c in containers && containers[c] == run;
      assert owned == ShareOf(State(), run).containers;
      ok, left := true, calls;
      var removed: set<nat> := {};
      gone := {};
      while removed != owned
        invariant removed <= owned && left == calls - |removed| && gone == removed
        invariant State() == PartlyCleaned(old(State()), gone, {})
        decreases owned - removed
      {
        ProperSubsetSize(removed, owned);
        if left == 0 {
          return false, left, gone;
        }
        var c :| c in owned - removed;
        containers := containers - {c};
        removed := removed + {c};
        gone := gone + {c};
        left := left - 1;
      }
    }

    /** Remove the run's networks; when it has none, one call still tries the default name. */
    method RemoveNetworks(run: string, calls: nat) returns (ok: bool, left: nat, ghost cut: set<string>)
      requires forall n :: n in networks ==> n == NetworkName(networks[n])
      modifies this`networks
      ensures State() == PartlyCleaned(old(State()), {}, cut)
      ensures cut <= ShareOf(old(State()), run).networks
      ensures ok <==> calls >= Max(1, |ShareOf(old(State()), run).networks|)
      ensures ok ==> cut == ShareOf(old(State()), run).networks && left == calls - Max(1, |cut|)
    {
      var names := set n | n in networks && networks[n] == run;
      assert names == ShareOf(State(), run).networks;
      left := calls;
      var removed: set<string> := {};
      cut := {};
      if names == {} {
        if left == 0 {
          return false, left, cut;
        }
        NetworkNamesDiffer(run);
        assert NetworkName(run) in networks ==> NetworkName(run) in names;
        networks := networks - {NetworkName(run)};
        return true, left - 1, cut;
      }
      while removed != names
        invariant removed <= names && left == calls - |removed| && cut == removed
        invariant State() == PartlyCleaned(old(State()), {}, cut)
        decreases names - removed
      {
        ProperSubsetSize(removed, names);
        if left == 0 {
          return false, left, cut;
        }
        var n :| n in names - removed;
        networks := networks - {n};
        removed := removed + {n};
        cut := cut + {n};
        left := left - 1;
      }
      ok := true;
    }

    /** Remove everything a run owns, deactivate its keys and mark its runtimes cleaned, in this order.
        `calls` of these steps succeed; the next one, if still needed, raises, and what was done stays. */
    method CleanupRun(run: string, calls: nat) returns (ok: bool)
      requires Consistent(State())
      modifies this`runtimes, this`containers, this`networks, this`keys
      ensures Consistent(State())
      ensures ok ==> State() == CleanedUp(old(State()), {run})
      ensures !ok ==>
        && OthersUnchanged(old(State()), State(), run) && runtimes == old(runtimes)
        && (keys == old(keys) || keys == Deactivated(old(keys), {run}))
      ensures ok <==>
        calls >= |ShareOf(old(State()), run).containers| + Max(1, |ShareOf(old(State()), run).networks|) + 2
      ensures SameStarts(old(runtimes), runtimes)
    {
      ghost var start := State();
      var left;
      ghost var gone, cut;
      ok, left, gone := RemoveContainers(run, calls);
      if !ok {
        PartialCleanup(start, run, gone, {});
        return false;
      }
      ok, left, cut := RemoveNetworks(run, left);
      assert State() == PartlyCleaned(start, gone, cut);
      PartialCleanup(start, run, gone, cut);
      if !ok || left == 0 {
        return false;
      }
      CompleteRemoval(start, run);
      UnchangedChain(start, State(), State().(keys := Deactivated(keys, {run})), run) by {
        DeactivationIsSafe(State(), run);
      }
      ok := Retire(run, left);
      CleanupKeepsConsistent(start, {run});
      MarkedSameStarts(start.runtimes, {run});
    }

    /** The last two steps of a cleanup. */
    method Retire(run: string, left: nat) returns (ok: bool)
      requires Consistent(State()) && left > 0
      modifies this`runtimes, this`keys
      ensures ok <==> left > 1
      ensures keys == Deactivated(old(keys), {run})
      ensures runtimes == if ok then MarkCleaned(old(runtimes), {run}) else old(runtimes)
      ensures !ok ==> Consistent(State())
    {
      DeactivationIsSafe(State(), run);
      keys := Deactivated(keys, {run});
      if left == 1 {
        return false;
      }
      runtimes := MarkCleaned(runtimes, {run});
      ok := true;
    }

    /** Clean up the run of every qualifying row; `last` is the run whose cleanup raised, if one did. */
    method Sweep(rows: seq<Runtime>, now: int, auditRuns: map<string, AuditRun>, calls: seq<nat>)
      returns (ok: bool, cleaned: nat, ghost swept: set<string>, ghost last: string)
      requires Consistent(State())
      modifies this`runtimes, this`containers, this`networks, this`keys
      ensures Consistent(State())
      ensures swept <= QualifyingRuns(rows, now, auditRuns)
      ensures ok ==> State() == CleanedUp(old(State()), swept) && swept == QualifyingRuns(rows, now, auditRuns)
      ensures !ok ==>
        last in QualifyingRuns(rows, now, auditRuns) && OthersUnchanged(CleanedUp(old(State()), swept), State(), last)
      ensures ok ==> cleaned == Count(rows, QualifiesAt(now, auditRuns))
      ensures SameStarts(old(runtimes), runtimes)
    {
      cleaned, swept, last := 0, {}, "";
      NothingCleanedUp(State());
      for k := 0 to |rows|
        invariant Consistent(State()) && State() == CleanedUp(old(State()), swept)
        invariant SweptSoFar(rows, k, now, auditRuns, swept, cleaned)
      {
        SweptNext(rows, k, now, auditRuns, swept, cleaned);
        if Qualifies(rows[k], now, auditRuns) {
          last := rows[k].run;
          ok := CleanupRun(rows[k].run, if k < |calls| then calls[k] else |containers| + |networks| + 3);
          if !ok {
            SweptSameStarts(old(runtimes), swept, runtimes);
            return;
          }
          CleanupsCompose(old(State()), swept, last);
          swept := swept + {last};
          cleaned := cleaned + 1;
        }
      }
      assert rows[..|rows|] == rows;
      MarkedSameStarts(old(runtimes), swept);
      ok := true;
    }

    /** Clean up every run one of whose uncleaned runtimes has expired, has no audit run, or belongs to a
        finished run that does not retain its runtime. A cleanup that raises ends the sweep. */
    method ReconcileRunRuntimes(now: int, auditRuns: map<string, AuditRun>, calls: seq<nat>)
      returns (ok: bool, checked: nat, cleaned: nat)
      requires Consistent(State())
      modifies this`runtimes, this`containers, this`networks, this`keys
      ensures Consistent(State())
      ensures UntouchedUnlessCondemned(old(State()), State(), now, auditRuns)
      ensures SameStarts(old(runtimes), runtimes)
      ensures ok ==>
        && State() == CleanedUp(old(State()), CondemnedRuns(old(State()), now, auditRuns))
        && Settled(State(), now, auditRuns)
        && checked == Count(old(runtimes), Uncleaned)
        && cleaned == Count(UncleanedRows(old(runtimes)), QualifiesAt(now, auditRuns))
    {
      ghost var start := State();
      var rows := UncleanedRows(runtimes);
      checked := |rows|;
      ghost var swept, last;
      ok, cleaned, swept, last := Sweep(rows, now, auditRuns, calls);
      if ok {
        SweepIsLocal(start, swept, now, auditRuns);
        SweepSettles(start, now, auditRuns);
        UncleanedRowsCount(start.runtimes);
      } else {
        PartialSweepIsLocal(start, State(), swept, last, now, auditRuns);
      }
    }
  }

  lemma ProperSubsetSize<T>(a: set<T>, b: set<T>)
    requires a <= b && a != b
    ensures b - a != {} && |a| < |b|
  {
    assert b == a + (b - a);
  }

  // ---------------------------------------------------------------- reconcile's verdicts

  predicate Uncleaned(r: Runtime) { !r.cleaned }

  predicate Terminal(status: string) { status == "completed" || status == "failed" || status == "cancelled" }

  predicate Qualifies(r: Runtime, now: int, auditRuns: map<string, AuditRun>) {
    || (r.expiresAt.Some? && r.expiresAt.value < now)
    || r.run !in auditRuns
    || (Terminal(auditRuns[r.run].status) && !auditRuns[r.run].retainOnFailure)
  }

  function QualifiesAt(now: int, auditRuns: map<string, AuditRun>): Runtime -> bool {
    (r: Runtime) => Qualifies(r, now, auditRuns)
  }

  /** The audit runs of the rows that qualify. */
  function QualifyingRuns(rows: seq<Runtime>, now: int, auditRuns: map<string, AuditRun>): set<string> {
    if rows == [] then {}
    else
      var last := rows[|rows| - 1];
      QualifyingRuns(rows[..|rows| - 1], now, auditRuns) + (if Qualifies(last, now, auditRuns) then {last.run} else {})
  }

  lemma {:induction false} QualifyingRunsGrow(rows: seq<Runtime>, k: nat, now: int, auditRuns: map<string, AuditRun>)
    requires k < |rows|
    ensures QualifyingRuns(rows[..k], now, auditRuns) <= QualifyingRuns(rows, now, auditRuns)
    ensures Qualifies(rows[k], now, auditRuns) ==> rows[k].run in QualifyingRuns(rows, now, auditRuns)
  {
    var n := |rows| - 1;
    if k < n {
      assert rows[..n][..k] == rows[..k] && rows[..n][k] == rows[k];
      QualifyingRunsGrow(rows[..n], k, now, auditRuns);
    }
  }

  /** The first k rows have been swept: `swept` are their qualifying runs, `cleaned` how many qualified. */
  predicate SweptSoFar(
    rows: seq<Runtime>, k: nat, now: int, auditRuns: map<string, AuditRun>, swept: set<string>, cleaned: nat)
    requires k <= |rows|
  {
    swept == QualifyingRuns(rows[..k], now, auditRuns) && cleaned == Count(rows[..k], QualifiesAt(now, auditRuns))
  }

  lemma SweptNext(
    rows: seq<Runtime>, k: nat, now: int, auditRuns: map<string, AuditRun>, swept: set<string>, cleaned: nat)
    requires k < |rows| && SweptSoFar(rows, k, now, auditRuns, swept, cleaned)
    ensures swept <= QualifyingRuns(rows, now, auditRuns)
    ensures if Qualifies(rows[k], now, auditRuns)
      then rows[k].run in QualifyingRuns(rows, now, auditRuns)
        && SweptSoFar(rows, k + 1, now, auditRuns, swept + {rows[k].run}, cleaned + 1)
      else SweptSoFar(rows, k + 1, now, auditRuns, swept, cleaned)
  {
    QualifyingRunsGrow(rows, k, now, auditRuns);
    QualifyingRunsNext(rows, k, now, auditRuns);
    QualifyingCountNext(rows, k, now, auditRuns);
    assert swept + {} == swept;
  }

  lemma QualifyingRunsNext(rows: seq<Runtime>, k: nat, now: int, auditRuns: map<string, AuditRun>)
    requires k < |rows|
    ensures QualifyingRuns(rows[..k + 1], now, auditRuns) ==
      QualifyingRuns(rows[..k], now, auditRuns) + (if Qualifies(rows[k], now, auditRuns) then {rows[k].run} else {})
  {
    assert rows[..k + 1][..k] == rows[..k];
  }

  lemma QualifyingCountNext(rows: seq<Runtime>, k: nat, now: int, auditRuns: map<string, AuditRun>)
    requires k < |rows|
    ensures Count(rows[..k + 1], QualifiesAt(now, auditRuns)) ==
      Count(rows[..k], QualifiesAt(now, auditRuns)) + (if Qualifies(rows[k], now, auditRuns) then 1 else 0)
  {
    assert rows[..k + 1] == rows[..k] + [rows[k]];
    CountAppend(rows[..k], rows[k], QualifiesAt(now, auditRuns));
  }

  lemma {:induction false} QualifyingRunsHaveRows(
    rows: seq<Runtime>, now: int, auditRuns: map<string, AuditRun>, run: string)
    requires run in QualifyingRuns(rows, now, auditRuns)
    ensures exists row :: row in rows && row.run == run && Qualifies(row, now, auditRuns)
  {
    var n := |rows| - 1;
    if run in QualifyingRuns(rows[..n], now, auditRuns) {
      QualifyingRunsHaveRows(rows[..n], now, auditRuns, run);
      var row :| row in rows[..n] && row.run == run && Qualifies(row, now, auditRuns);
      assert row in rows;
    } else {
      assert rows[n] in rows;
    }
  }

  function CondemnedRuns(t: Tables, now: int, auditRuns: map<string, AuditRun>): set<string> {
    QualifyingRuns(UncleanedRows(t.runtimes), now, auditRuns)
  }

  /** Some uncleaned runtime of the run qualifies. */
  predicate Condemned(t: Tables, now: int, auditRuns: map<string, AuditRun>, run: string) {
    exists i :: 0 <= i < |t.runtimes| && t.runtimes[i].run == run && Qualifies(t.runtimes[i], now, auditRuns)
      && Uncleaned(t.runtimes[i])
  }

  lemma CondemnedRunsAre(t: Tables, now: int, auditRuns: map<string, AuditRun>, run: string)
    ensures run in CondemnedRuns(t, now, auditRuns) <==> Condemned(t, now, auditRuns, run)
  {
    var rows := UncleanedRows(t.runtimes);
    if run in CondemnedRuns(t, now, auditRuns) {
      QualifyingRunsHaveRows(rows, now, auditRuns, run);
      var row :| row in rows && row.run == run && Qualifies(row, now, auditRuns);
      UncleanedRowsOf(t.runtimes, row);
    }
    if Condemned(t, now, auditRuns, run) {
      var i :| 0 <= i < |t.runtimes| && t.runtimes[i].run == run && Qualifies(t.runtimes[i], now, auditRuns)
        && Uncleaned(t.runtimes[i]);
      UncleanedRowsOf(t.runtimes, t.runtimes[i]);
      var j :| 0 <= j < |rows| && rows[j] == t.runtimes[i];
      QualifyingRunsGrow(rows, j, now, auditRuns);
    }
  }

  /** Audit runs none of whose uncleaned runtimes qualifies keep everything they own. */
  ghost predicate UntouchedUnlessCondemned(t: Tables, t': Tables, now: int, auditRuns: map<string, AuditRun>) {
    forall run :: !Condemned(t, now, auditRuns, run) ==> ShareOf(t', run) == ShareOf(t, run)
  }

  function UncleanedRows(rows: seq<Runtime>): seq<Runtime> {
    if rows == [] then []
    else UncleanedRows(rows[..|rows| - 1]) + (if Uncleaned(rows[|rows| - 1]) then [rows[|rows| - 1]] else [])
  }

  lemma {:induction false} UncleanedRowsOf(rows: seq<Runtime>, row: Runtime)
    ensures row in UncleanedRows(rows) <==> row in rows && Uncleaned(row)
  {
    if rows != [] {
      UncleanedRowsOf(rows[..|rows| - 1], row);
      assert rows == rows[..|rows| - 1] + [rows[|rows| - 1]];
    }
  }

  lemma {:induction false} UncleanedRowsCount(rows: seq<Runtime>)
    ensures |UncleanedRows(rows)| == Count(rows, Uncleaned)
  {
    if rows != [] {
      UncleanedRowsCount(rows[..|rows| - 1]);
    }
  }

  lemma SweepIsLocal(t: Tables, swept: set<string>, now: int, auditRuns: map<string, AuditRun>)
    requires swept <= CondemnedRuns(t, now, auditRuns)
    ensures UntouchedUnlessCondemned(t, CleanedUp(t, swept), now, auditRuns)
  {
    forall run | !Condemned(t, now, auditRuns, run) ensures ShareOf(CleanedUp(t, swept), run) == ShareOf(t, run) {
      CondemnedRunsAre(t, now, auditRuns, run);
      CleanupIsLocal(t, swept, run);
    }
  }

  lemma PartialSweepIsLocal(
    t: Tables, t': Tables, swept: set<string>, last: string, now: int, auditRuns: map<string, AuditRun>)
    requires swept <= CondemnedRuns(t, now, auditRuns) && last in CondemnedRuns(t, now, auditRuns)
    requires OthersUnchanged(CleanedUp(t, swept), t', last)
    ensures UntouchedUnlessCondemned(t, t', now, auditRuns)
  {
    SweepIsLocal(t, swept, now, auditRuns);
    CondemnedRunsAre(t, now, auditRuns, last);
  }

  /** After a complete sweep every uncleaned runtime is unexpired and its audit run exists and is either
      unfinished or retained; and every live container and active key belongs to a run with such a
      runtime, so nothing is left behind. */
  predicate Settled(t: Tables, now: int, auditRuns: map<string, AuditRun>) {
    && (forall i :: 0 <= i < |t.runtimes| && Uncleaned(t.runtimes[i]) ==> !Qualifies(t.runtimes[i], now, auditRuns))
    && (forall c :: c in t.containers ==> LegitimatelyUp(t, now, auditRuns, t.containers[c]))
    && (forall k :: k in t.keys && t.keys[k].active ==> LegitimatelyUp(t, now, auditRuns, t.keys[k].run))
  }

  predicate LegitimatelyUp(t: Tables, now: int, auditRuns: map<string, AuditRun>, run: string) {
    exists i :: 0 <= i < |t.runtimes| && t.runtimes[i].run == run && IsActive(t.runtimes[i])
      && !Qualifies(t.runtimes[i], now, auditRuns)
  }

  predicate HasUncleaned(t: Tables, run: string) {
    exists i :: 0 <= i < |t.runtimes| && t.runtimes[i].run == run && Uncleaned(t.runtimes[i])
  }

  /** A complete reconcile removes exactly the networks of condemned runs. Those that stay belong to a run with a
      legitimate runtime, or to one without any uncleaned runtime, such as a run whose ensure raised between
      making its network and inserting its row. */
  lemma NetworksAfterSweep(t: Tables, now: int, auditRuns: map<string, AuditRun>, n: string)
    requires Consistent(t)
    ensures var t' := CleanedUp(t, CondemnedRuns(t, now, auditRuns));
      && (n in t'.networks <==> n in t.networks && !Condemned(t, now, auditRuns, t.networks[n]))
      && (n in t'.networks ==> t'.networks[n] == t.networks[n])
      && (n in t'.networks ==> (LegitimatelyUp(t', now, auditRuns, t.networks[n]) <==> HasUncleaned(t, t.networks[n])))
  {
    var runs := CondemnedRuns(t, now, auditRuns);
    var t' := CleanedUp(t, runs);
    if n in t.networks {
      var run := t.networks[n];
      CondemnedRunsAre(t, now, auditRuns, run);
      if run !in runs {
        UpIsUncleaned(t, now, auditRuns, run);
      }
    }
  }

  lemma UpIsUncleaned(t: Tables, now: int, auditRuns: map<string, AuditRun>, run: string)
    requires Consistent(t) && !Condemned(t, now, auditRuns, run) && run !in CondemnedRuns(t, now, auditRuns)
    ensures LegitimatelyUp(CleanedUp(t, CondemnedRuns(t, now, auditRuns)), now, auditRuns, run) <==>
      HasUncleaned(t, run)
  {
    var rows, rows' := t.runtimes, MarkCleaned(t.runtimes, CondemnedRuns(t, now, auditRuns));
    forall i | 0 <= i < |rows| && rows[i].run == run
      ensures rows'[i] == rows[i] && (IsActive(rows[i]) <==> Uncleaned(rows[i]))
    {
    }
    if HasUncleaned(t, run) {
      var i :| 0 <= i < |rows| && rows[i].run == run && Uncleaned(rows[i]);
      assert !Qualifies(rows[i], now, auditRuns) && rows'[i] == rows[i];
    }
    if LegitimatelyUp(CleanedUp(t, CondemnedRuns(t, now, auditRuns)), now, auditRuns, run) {
      var i :| 0 <= i < |rows'| && rows'[i].run == run && IsActive(rows'[i]) && !Qualifies(rows'[i], now, auditRuns);
      assert rows[i].run == run;
    }
  }

  /** Every network left by a complete reconcile belongs to a run with a legitimate runtime if and only if every
      network belonged to a run with an uncleaned runtime. */
  lemma NoStrayNetworkExactlyWhen(t: Tables, now: int, auditRuns: map<string, AuditRun>)
    requires Consistent(t)
    ensures var t' := CleanedUp(t, CondemnedRuns(t, now, auditRuns));
      (forall n :: n in t'.networks ==> LegitimatelyUp(t', now, auditRuns, t'.networks[n])) <==>
      (forall n :: n in t.networks ==> HasUncleaned(t, t.networks[n]))
  {
    var t' := CleanedUp(t, CondemnedRuns(t, now, auditRuns));
    forall n | n in t.networks
      ensures n in t'.networks ==>
        t'.networks[n] == t.networks[n]
          && (LegitimatelyUp(t', now, auditRuns, t.networks[n]) <==> HasUncleaned(t, t.networks[n]))
      ensures !HasUncleaned(t, t.networks[n]) ==> n in t'.networks
    {
      NetworksAfterSweep(t, now, auditRuns, n);
    }
    forall n | n in t'.networks ensures n in t.networks {
      NetworksAfterSweep(t, now, auditRuns, n);
    }
  }

  /** An ensure that raises with the network made and no row inserted leaves a network that the reconcile after it
      does not remove. */
  lemma UnreadyNetworkStays(t: Tables, run: string, now: int, auditRuns: map<string, AuditRun>)
    requires Consistent(t) && !HasUncleaned(t, run)
    ensures var made := WithNetwork(t, run);
      Consistent(made) && NetworkName(run) in CleanedUp(made, CondemnedRuns(made, now, auditRuns)).networks
  {
    AddNetwork(t, run);
    NetworksAfterSweep(WithNetwork(t, run), now, auditRuns, NetworkName(run));
  }

  lemma SweepSettles(t: Tables, now: int, auditRuns: map<string, AuditRun>)
    requires Consistent(t)
    ensures Settled(CleanedUp(t, CondemnedRuns(t, now, auditRuns)), now, auditRuns)
  {
    var runs := CondemnedRuns(t, now, auditRuns);
    var t' := CleanedUp(t, runs);
    CleanupKeepsConsistent(t, runs);
    forall i | 0 <= i < |t'.runtimes| && Uncleaned(t'.runtimes[i]) ensures !Qualifies(t'.runtimes[i], now, auditRuns) {
      CondemnedRunsAre(t, now, auditRuns, t.runtimes[i].run);
      assert t'.runtimes[i] == t.runtimes[i];
    }
    forall run | HasActive(t'.runtimes, run) ensures LegitimatelyUp(t', now, auditRuns, run) {
      var i :| 0 <= i < |t'.runtimes| && t'.runtimes[i].run == run && IsActive(t'.runtimes[i]);
      assert Uncleaned(t'.runtimes[i]);
    }
  }

  // ---------------------------------------------------------------- runs of operations

  datatype Operation =
    | Ensure(run: string, now: int, script: Script)
    | Cleanup(run: string, calls: nat)
    | Reconcile(now: int, auditRuns: map<string, AuditRun>, budgets: seq<nat>)

  /** What a runtime's start brought up or found, and whether it was completed and written down. */
  datatype Outcome = Outcome(brought: seq<nat>, completed: bool)

  function OutcomeOf(t: Tables, run: string, now: int, script: Script): Outcome {
    var row := Runtime(t.nextId, run, Starting, false, Some(now + DAY), []);
    var inserted := t.(runtimes := t.runtimes + [row], nextId := t.nextId + 1);
    Outcome(Started(inserted, run, script.launches), NoneRaises(script.launches) && !script.ending.WriteRaises?)
  }

  /** Every row lists what its start brought up if the start was completed, and nothing otherwise; a row that
      still says starting was not completed. */
  predicate Tells(rows: seq<Runtime>, starts: map<nat, Outcome>, nextId: nat) {
    && (forall id :: id in starts ==> id < nextId)
    && (forall i :: 0 <= i < |rows| ==>
          && rows[i].id in starts
          && rows[i].containers == (if starts[rows[i].id].completed then starts[rows[i].id].brought else [])
          && (rows[i].status == Starting ==> !starts[rows[i].id].completed))
  }

  /** The row lists what its start brought up. */
  predicate ListsItsStart(row: Runtime, starts: map<nat, Outcome>)
    requires row.id in starts
  {
    row.containers == starts[row.id].brought
  }

  /** Among runtimes of any history, a row lists what its start brought up exactly when that start was
      completed or brought nothing up. */
  lemma RowsListTheirStartExactlyWhen(rows: seq<Runtime>, starts: map<nat, Outcome>, nextId: nat, i: nat)
    requires Tells(rows, starts, nextId) && i < |rows|
    ensures ListsItsStart(rows[i], starts) <==> starts[rows[i].id].completed || starts[rows[i].id].brought == []
  {
  }

  lemma StartTells(
    t: Tables, t': Tables, run: string, now: int, script: Script, runtime: Option<nat>, starts: map<nat, Outcome>)
    requires Tells(t.runtimes, starts, t.nextId) && Starts(t, t', run, now, script, runtime)
    ensures t'.nextId > t.nextId && Tells(t'.runtimes, starts[t.nextId := OutcomeOf(t, run, now, script)], t'.nextId)
  {
    var row := Runtime(t.nextId, run, Starting, false, Some(now + DAY), []);
    LaunchesUseIds(t.(runtimes := t.runtimes + [row], nextId := t.nextId + 1), run, script.launches);
  }

  lemma {:induction false} LaunchesUseIds(t: Tables, run: string, launches: seq<Launch>)
    ensures AfterLaunches(t, run, launches).nextId >= t.nextId
    decreases launches
  {
    if launches != [] && !launches[0].Raises? {
      LaunchesUseIds(AfterLaunch(t, run, launches[0]), run, launches[1..]);
    }
  }

  lemma ReuseTells(t: Tables, t': Tables, run: string, ending: Ending, runtime: Option<nat>, starts: map<nat, Outcome>)
    requires Tells(t.runtimes, starts, t.nextId) && Reuses(t, t', run, ending, runtime)
    ensures Tells(t'.runtimes, starts, t'.nextId) && t'.nextId == t.nextId
  {
  }

  /** The outcomes on record after an ensure: one more if it started a runtime. */
  function StartsAfter(t: Tables, starts: map<nat, Outcome>, run: string, now: int, script: Script): map<nat, Outcome> {
    if script.preparation.Ready? && !HasActive(t.runtimes, run) then
      starts[t.nextId := OutcomeOf(WithNetwork(t, run), run, now, script)]
    else starts
  }

  /** Whatever came before, the runtime an ensure hands out is a running one of the run, and its row lists
      what its start brought up exactly when that start was completed or brought nothing up. */
  method EnsureAfter(o: RuntimeOrchestrator, ghost starts: map<nat, Outcome>, run: string, now: int, script: Script)
    returns (runtime: Option<nat>)
    requires Consistent(o.State()) && Tells(o.runtimes, starts, o.nextId)
    modifies o
    ensures Consistent(o.State()) && Tells(o.runtimes, StartsAfter(old(o.State()), starts, run, now, script), o.nextId)
    ensures runtime.Some? ==>
      exists i :: 0 <= i < |o.runtimes|
        && HandedOut(o.runtimes[i], run, runtime.value, StartsAfter(old(o.State()), starts, run, now, script))
  {
    ghost var before := o.State();
    runtime := o.EnsureAgentRuntime(run, now, script);
    ghost var prepared, after := WithNetwork(before, run), StartsAfter(before, starts, run, now, script);
    if script.preparation.Ready? {
      if HasActive(before.runtimes, run) {
        ReuseTells(prepared, o.State(), run, script.ending, runtime, starts);
        ReusedIsHandedOut(prepared, o.State(), run, script.ending, runtime, after);
      } else {
        StartTells(prepared, o.State(), run, now, script, runtime, starts);
        StartedIsHandedOut(prepared, o.State(), run, now, script, runtime, after);
      }
    }
  }

  predicate HandedOut(row: Runtime, run: string, id: nat, starts: map<nat, Outcome>) {
    && row.id == id && row.run == run && row.status == Running && id in starts
    && (ListsItsStart(row, starts) <==> starts[id].completed || starts[id].brought == [])
  }

  lemma ReusedIsHandedOut(
    t: Tables, t': Tables, run: string, ending: Ending, runtime: Option<nat>, starts: map<nat, Outcome>)
    requires Reuses(t, t', run, ending, runtime) && Tells(t'.runtimes, starts, t'.nextId)
    ensures runtime.Some? ==>
      exists i :: 0 <= i < |t'.runtimes| && HandedOut(t'.runtimes[i], run, runtime.value, starts)
  {
    if runtime.Some? {
      var i :| 0 <= i < |t.runtimes| && t.runtimes[i].run == run && runtime == Some(t.runtimes[i].id)
        && t' == t.(runtimes := t.runtimes[i := t.runtimes[i].(status := Running)]);
      assert HandedOut(t'.runtimes[i], run, runtime.value, starts);
    }
  }

  lemma StartedIsHandedOut(
    t: Tables, t': Tables, run: string, now: int, script: Script, runtime: Option<nat>, starts: map<nat, Outcome>)
    requires Starts(t, t', run, now, script, runtime) && Tells(t'.runtimes, starts, t'.nextId)
    ensures runtime.Some? ==>
      exists i :: 0 <= i < |t'.runtimes| && HandedOut(t'.runtimes[i], run, runtime.value, starts)
  {
    if runtime.Some? {
      assert HandedOut(t'.runtimes[|t.runtimes|], run, runtime.value, starts);
    }
  }

  /** Any serial run of operations, each of which may raise midway, keeps the invariant: in particular
      no audit run ever has two runtimes that are starting or running and not cleaned. It also keeps every
      row telling what its start came to, so `EnsureAfter` and `RowsListTheirStartExactlyWhen` hold of every
      history. */
  method Operate(o: RuntimeOrchestrator, operations: seq<Operation>, ghost known: map<nat, Outcome>)
    returns (ghost starts: map<nat, Outcome>)
    requires Consistent(o.State()) && Tells(o.runtimes, known, o.nextId)
    modifies o
    ensures Consistent(o.State())
    ensures OneActivePerRun(o.runtimes)
    ensures Tells(o.runtimes, starts, o.nextId)
  {
    starts := known;
    for k := 0 to |operations|
      invariant Consistent(o.State()) && Tells(o.runtimes, starts, o.nextId)
    {
      match operations[k] {
        case Ensure(run, now, script) =>
          ghost var before := o.State();
          var runtime := EnsureAfter(o, starts, run, now, script);
          starts := StartsAfter(before, starts, run, now, script);
        case Cleanup(run, calls) =>
          var ok := o.CleanupRun(run, calls);
        case Reconcile(now, auditRuns, budgets) =>
          var ok, checked, cleaned := o.ReconcileRunRuntimes(now, auditRuns, budgets);
      }
    }
  }

  /** A runtime started by one ensure and handed out by the next: its row lists what the start brought up if
      and only if every launch and the final write succeeded, or nothing was brought up. */
  method ReusedRuntimeListsItsStartExactlyWhen(
    o: RuntimeOrchestrator, run: string, now: int, first: Script, again: Script)
    returns (runtime: Option<nat>)
    requires Consistent(o.State()) && !HasActive(o.runtimes, run)
    requires first.preparation.Ready? && again.preparation.Ready? && again.ending.Recorded?
    modifies o
    ensures Consistent(o.State()) && runtime == Some(old(o.nextId))
    ensures var start := OutcomeOf(WithNetwork(old(o.State()), run), run, now, first);
      var row :=
        Runtime(old(o.nextId), run, Running, false, Some(now + DAY), if start.completed then start.brought else []);
      && o.runtimes == old(o.runtimes) + [row]
      && (row.containers == start.brought <==> start.completed || start.brought == [])
  {
    var started := o.EnsureAgentRuntime(run, now, first);
    ghost var between := o.runtimes;
    assert IsActive(between[|old(o.runtimes)|]) && between[|old(o.runtimes)|].run == run;
    runtime := o.EnsureAgentRuntime(run, now, again);
    assert forall i :: 0 <= i < |old(o.runtimes)| ==> between[i] == old(o.runtimes)[i];
  }

  /** A runtime whose start raised midway, at a launch or at the final write, is handed out as running by the
      next ensure, although its row lists no containers and nothing more has been launched. */
  method HalfStartedRuntimeIsReused(o: RuntimeOrchestrator, run: string, now: int, first: Script)
    returns (runtime: Option<nat>)
    requires Consistent(o.State()) && !HasActive(o.runtimes, run)
    requires first.preparation.Ready? && (!NoneRaises(first.launches) || first.ending.WriteRaises?)
    modifies o
    ensures Consistent(o.State())
    ensures o.runtimes == old(o.runtimes) + [Runtime(old(o.nextId), run, Running, false, Some(now + DAY), [])]
    ensures runtime == Some(old(o.nextId))
  {
    runtime := ReusedRuntimeListsItsStartExactlyWhen(o, run, now, first, Script(Ready, [], Recorded));
  }
}
