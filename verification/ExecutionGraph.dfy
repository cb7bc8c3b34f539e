/** The execution graph of an audit run, assembled from its events, agents, tasks, containers and cards. */
module ExecutionGraph {
  import opened Prelude
  import opened Text
  import opened Dedupe

  /** What a node stands for. The graph names it by a string, see `IdText`. */
  datatype Id =
    | AuditNode(id: string) | StepNode(id: string) | AgentNode(id: string)
    | TaskNode(id: string) | ContainerNode(id: string) | CardNode(id: string)

  function IdText(id: Id): string {
    match id
    case AuditNode(id) => "audit:" + id
    case StepNode(id) => "step:" + id
    case AgentNode(id) => "agent:" + id
    case TaskNode(id) => "whiteboard-task:" + id
    case ContainerNode(id) => "container:" + id
    case CardNode(id) => "whiteboard-card:" + id
  }

  datatype Node = Node(id: Id, kind: string, status: string)

  datatype Edge = Edge(source: Id, target: Id, edgeType: string)

  datatype Event = Event(step: string, eventType: string)

  /** Empty agent identifiers stand for none. */
  datatype Agent = Agent(id: string, name: string, status: string)
  datatype Task = Task(id: string, status: string, agent: string)
  datatype Container = Container(id: string, status: string, agent: string)
  datatype Card = Card(id: string, status: string, cardType: string, agent: string)
  datatype CardEdge = CardEdge(source: string, target: string, edgeType: string)

  /** The rows of one audit run that the graph shows, each table in the order of its query: events newest
      first, the others oldest first. */
  datatype Rows = Rows(
    auditRun: string, status: string, events: seq<Event>, agents: seq<Agent>, tasks: seq<Task>,
    containers: seq<Container>, cards: seq<Card>, cardEdges: seq<CardEdge>)

  /** Different nodes have different names, so comparing names is comparing nodes. */
  lemma IdTextIsInjective(a: Id, b: Id)
    ensures IdText(a) == IdText(b) <==> a == b
  {
    var s, t := IdText(a), IdText(b);
    if s == t {
      assert s[0] == t[0] && s[1] == t[1];
      assert (a.TaskNode? || a.CardNode?) && (b.TaskNode? || b.CardNode?) ==> s[11] == t[11];
      var n := |s| - |a.id|;
      assert s[n..] == a.id;
      assert t[|t| - |b.id|..] == b.id;
    }
  }

  // ---------------------------------------------------------------- graphs

  function NodeId(n: Node): Id { n.id }

  function Itself<T>(x: T): T { x }

  function Ids(nodes: seq<Node>): set<Id> { Keys(nodes, NodeId) }

  predicate DistinctIds(nodes: seq<Node>) { DistinctKeys(nodes, NodeId) }

  predicate DistinctEdges(edges: seq<Edge>) { DistinctKeys(edges, Itself) }

  predicate NoneDangling(nodes: seq<Node>, edges: seq<Edge>) {
    forall e :: e in edges ==> e.source in Ids(nodes) && e.target in Ids(nodes)
  }

  predicate Linked(edges: seq<Edge>, a: Id, b: Id) {
    exists e :: e in edges && e.source == a && e.target == b
  }

  predicate IsPath(edges: seq<Edge>, path: seq<Id>) {
    path != [] && forall k :: 0 <= k < |path| - 1 ==> Linked(edges, path[k], path[k + 1])
  }

  /** b can be reached from a along edges. */
  ghost predicate Reachable(edges: seq<Edge>, a: Id, b: Id) {
    exists path :: IsPath(edges, path) && path[0] == a && path[|path| - 1] == b
  }

  lemma ReachesItself(edges: seq<Edge>, a: Id)
    ensures Reachable(edges, a, a)
  {
    assert IsPath(edges, [a]);
  }

  lemma ReachesAlong(edges: seq<Edge>, a: Id, b: Id, c: Id)
    requires Reachable(edges, a, b) && Linked(edges, b, c)
    ensures Reachable(edges, a, c)
  {
    var path :| IsPath(edges, path) && path[0] == a && path[|path| - 1] == b;
    assert IsPath(edges, path + [c]);
  }

  // ---------------------------------------------------------------- steps

  function StepStatus(eventType: string): string {
    if EndsWith(eventType, "_completed") then "completed"
    else if EndsWith(eventType, "_skipped") then "skipped"
    else if EndsWith(eventType, "_failed") then "failed"
    else if EndsWith(eventType, "_started") then "running"
    else "unknown"
  }

  /** What an event says: the step it names, "" if it names none, and a status. */
  datatype Mark = Mark(step: string, status: string)

  function Read(e: Event): Mark { Mark(Strip(e.step), StepStatus(e.eventType)) }

  function Marks(events: seq<Event>): seq<Mark> { Mapped(events, Read) }

  function StepText(step: string): string { IdText(StepNode(step)) }

  /** The steps the loop over the events appends, in order and with repetitions: its test looks the name of
      the step's node up among the names of steps. */
  function StepOrder(marks: seq<Mark>): seq<string> {
    if marks == [] then []
    else
      var before := StepOrder(marks[..|marks| - 1]);
      var step := marks[|marks| - 1].step;
      before + (if step != "" && StepText(step) !in before then [step] else [])
  }

  predicate Occurs(marks: seq<Mark>, step: string) { step in StepOrder(marks) }

  /** The status a step's node has after the events: that of the first event naming the step, overwritten by
      later ones only from where the test takes the step for known. None while there is no node. */
  function NodeStatus(marks: seq<Mark>, step: string): Option<string> {
    if marks == [] then None
    else
      var done, e := marks[..|marks| - 1], marks[|marks| - 1];
      var before := NodeStatus(done, step);
      if e.step != step || step == "" then before
      else if !Occurs(done, StepText(step)) then (if before == None then Some(e.status) else before)
      else if before.Some? && e.status != "unknown" then Some(e.status)
      else before
  }

  function ShownStatus(marks: seq<Mark>, step: string): string {
    var status := NodeStatus(marks, step);
    if status.Some? then status.value else "unknown"
  }

  function StepNodeOf(marks: seq<Mark>, step: string): Node {
    Node(StepNode(step), "pipeline-step", ShownStatus(marks, step))
  }

  function StepNodeFor(marks: seq<Mark>): string -> Node { (step: string) => StepNodeOf(marks, step) }

  function StepNodes(marks: seq<Mark>): seq<Node> { Mapped(Deduped(StepOrder(marks), Itself), StepNodeFor(marks)) }

  function Steps(marks: seq<Mark>): map<string, Id> { map step | step in StepOrder(marks) :: StepNode(step) }

  lemma {:induction false} StatusesAreOfSteps(marks: seq<Mark>, step: string)
    ensures NodeStatus(marks, step).Some? <==> Occurs(marks, step)
    ensures Occurs(marks, step) ==> step != ""
  {
    if marks != [] {
      StatusesAreOfSteps(marks[..|marks| - 1], step);
    }
  }

  /** A step has a node if and only if some event names it at a point where no step is named like its node. */
  lemma {:induction false} NamedStepsOccur(marks: seq<Mark>, step: string)
    ensures Occurs(marks, step) <==>
      exists k :: 0 <= k < |marks| && marks[k].step == step && step != "" && !Occurs(marks[..k], StepText(step))
  {
    if marks != [] {
      var n := |marks| - 1;
      var done := marks[..n];
      NamedStepsOccur(done, step);
      forall k | 0 <= k < n ensures done[k] == marks[k] && done[..k] == marks[..k] {
      }
    }
  }

  predicate FirstNaming(marks: seq<Mark>, step: string, f: nat) {
    f < |marks| && marks[f].step == step && forall j :: 0 <= j < f ==> marks[j].step != step
  }

  lemma {:induction false} OccursStays(marks: seq<Mark>, k: nat, step: string)
    requires k <= |marks| && Occurs(marks[..k], step)
    ensures Occurs(marks, step)
  {
    if k == |marks| {
      assert marks[..k] == marks;
    } else {
      assert marks[..|marks| - 1][..k] == marks[..k];
      OccursStays(marks[..|marks| - 1], k, step);
    }
  }

  /** A step that is named at all has a node unless, where it is first named, a step named like its node has
      come before. */
  lemma StepOccursExactlyWhen(marks: seq<Mark>, step: string, f: nat)
    requires step != "" && FirstNaming(marks, step, f)
    ensures Occurs(marks, step) <==> !Occurs(marks[..f], StepText(step))
  {
    NamedStepsOccur(marks, step);
    if Occurs(marks, step) {
      var k :| 0 <= k < |marks| && marks[k].step == step && !Occurs(marks[..k], StepText(step));
      assert f <= k && marks[..k][..f] == marks[..f];
      if Occurs(marks[..f], StepText(step)) {
        OccursStays(marks[..k], f, StepText(step));
      }
    }
  }

  // ---------------------------------------------------------------- which event a status is of

  /** marks[k] names the step with a status that says something. */
  predicate Tells(marks: seq<Mark>, step: string, k: nat) {
    k < |marks| && marks[k].step == step && marks[k].status != "unknown"
  }

  /** marks[k] overwrites the status of the step's node. */
  predicate Overwrites(marks: seq<Mark>, step: string, k: nat) {
    Tells(marks, step, k) && Occurs(marks[..k], StepText(step))
  }

  /** marks[k] is the last that overwrites the status first told by marks[f]. */
  predicate LastOverwrite(marks: seq<Mark>, step: string, f: nat, k: nat) {
    f < k < |marks| && Overwrites(marks, step, k) && forall j :: k < j < |marks| ==> !Overwrites(marks, step, j)
  }

  predicate NeverOverwritten(marks: seq<Mark>, step: string, f: nat) {
    forall j :: f < j < |marks| ==> !Overwrites(marks, step, j)
  }

  /** Where the status of a step's node comes from. */
  predicate IsStatusSource(marks: seq<Mark>, step: string, f: nat, k: nat) {
    if k == f then NeverOverwritten(marks, step, f) else LastOverwrite(marks, step, f, k)
  }

  lemma PrefixOverwrites(marks: seq<Mark>, step: string, k: nat)
    requires k + 1 < |marks|
    ensures Overwrites(marks[..|marks| - 1], step, k) <==> Overwrites(marks, step, k)
  {
    var done := marks[..|marks| - 1];
    assert done[k] == marks[k] && done[..k] == marks[..k];
  }

  lemma SourceStays(marks: seq<Mark>, step: string, f: nat, k: nat)
    requires marks != [] && f < |marks| - 1 && k < |marks| - 1 && IsStatusSource(marks[..|marks| - 1], step, f, k)
    requires !Overwrites(marks, step, |marks| - 1)
    ensures IsStatusSource(marks, step, f, k)
  {
    var n := |marks| - 1;
    forall j: nat | j < n ensures Overwrites(marks[..n], step, j) <==> Overwrites(marks, step, j) {
      PrefixOverwrites(marks, step, j);
    }
  }

  /** The status of a step's node is that of the last event overwriting it, or of the first naming it. */
  lemma {:induction false} StatusSource(marks: seq<Mark>, step: string, f: nat) returns (k: nat)
    requires step != "" && FirstNaming(marks, step, f) && !Occurs(marks[..f], StepText(step))
    ensures f <= k < |marks| && IsStatusSource(marks, step, f, k)
    ensures NodeStatus(marks, step) == Some(marks[k].status)
  {
    var n := |marks| - 1;
    var done := marks[..n];
    if f < n {
      assert FirstNaming(done, step, f) && done[..f] == marks[..f];
      k := StatusSource(done, step, f);
      if Overwrites(marks, step, n) {
        k := n;
      } else {
        SourceStays(marks, step, f, k);
      }
    } else {
      k := f;
      NamedStepsOccur(done, step);
      StatusesAreOfSteps(done, step);
    }
  }

  /** As events are listed newest first, a step's node should show the status of the first event that names
      it. It does if and only if no older event overwrote it, or the last that did says the same. */
  lemma NewestStatusExactlyWhen(marks: seq<Mark>, step: string, f: nat)
    requires step != "" && FirstNaming(marks, step, f) && Occurs(marks, step)
    ensures ShownStatus(marks, step) == marks[f].status <==>
      forall k: nat :: LastOverwrite(marks, step, f, k) ==> marks[k].status == marks[f].status
  {
    StepOccursExactlyWhen(marks, step, f);
    var source := StatusSource(marks, step, f);
    forall k: nat | LastOverwrite(marks, step, f, k) ensures k == source {
      assert Overwrites(marks, step, k);
      if source != f {
        assert Overwrites(marks, step, source);
      }
    }
  }

  /** No status is overwritten unless an event names a step like the node of another. */
  lemma NothingOverwritten(marks: seq<Mark>, step: string, k: nat)
    requires Overwrites(marks, step, k)
    ensures exists j :: 0 <= j < k && marks[j].step == StepText(step)
  {
    NamedStepsOccur(marks[..k], StepText(step));
    var j :| 0 <= j < k && marks[..k][j].step == StepText(step);
    assert marks[j] == marks[..k][j];
  }

  predicate LastTelling(marks: seq<Mark>, step: string, f: nat, k: nat) {
    f < k < |marks| && Tells(marks, step, k) && forall j :: k < j < |marks| ==> !Tells(marks, step, j)
  }

  /** The loop means to let the events of a step overwrite its status one after the other. Where the last of
      them that tells a status is not the first naming the step, the node shows it if a step named like the
      node is known by then; otherwise it goes on showing the first, and both agree only if they are equal. */
  lemma LastToldExactlyWhen(marks: seq<Mark>, step: string, f: nat, k: nat)
    requires step != "" && FirstNaming(marks, step, f) && Occurs(marks, step) && LastTelling(marks, step, f, k)
    ensures ShownStatus(marks, step) == marks[k].status <==>
      Occurs(marks[..k], StepText(step)) || marks[f].status == marks[k].status
  {
    StepOccursExactlyWhen(marks, step, f);
    var source := StatusSource(marks, step, f);
    if Occurs(marks[..k], StepText(step)) {
      assert Overwrites(marks, step, k);
      assert source == k;
    } else if source != f {
      assert Overwrites(marks, step, source) && source <= k;
      assert marks[..k][..source] == marks[..source];
      OccursStays(marks[..k], source, StepText(step));
    }
  }

  /** The second of two events that name a step changes nothing, whatever it tells. */
  lemma SecondEventIsIgnored(first: Mark, second: Mark, step: string)
    requires step != "" && first.step == step && second.step == step
    ensures ShownStatus([first, second], step) == first.status
  {
    var marks := [first, second];
    assert marks[..1] == [first] && [first][..0] == [];
    assert NodeStatus([first], step) == Some(first.status);
    assert |StepText(step)| == 5 + |step|;
    assert StepOrder([first]) == [step] && !Occurs([first], StepText(step));
  }

  // ---------------------------------------------------------------- what each row contributes

  function Flat<T>(items: seq<T>, f: T -> seq<Edge>): seq<Edge> {
    if items == [] then [] else Flat(items[..|items| - 1], f) + f(items[|items| - 1])
  }

  lemma FlatAppend<T>(items: seq<T>, f: T -> seq<Edge>, x: T)
    ensures Flat(items + [x], f) == Flat(items, f) + f(x)
  {
    assert (items + [x])[..|items|] == items;
  }

  lemma {:induction false} FlatAre<T>(items: seq<T>, f: T -> seq<Edge>, e: Edge)
    ensures e in Flat(items, f) <==> exists x :: x in items && e in f(x)
  {
    if items != [] {
      var n := |items| - 1;
      FlatAre(items[..n], f, e);
      assert items == items[..n] + [items[n]];
    }
  }

  function RootNode(rows: Rows): Node { Node(AuditNode(rows.auditRun), "audit-run", rows.status) }

  function ContainsEdge(root: Id): string -> Edge { (step: string) => Edge(root, StepNode(step), "contains") }

  /** One edge from each step appended to the next. */
  function NextEdges(order: seq<string>): seq<Edge> {
    var n := |order| - 1;
    if n < 1 then [] else NextEdges(order[..n]) + [Edge(StepNode(order[n - 1]), StepNode(order[n]), "next")]
  }

  const AGENT_STEPS: seq<(string, string)> := [
    ("code-auditor", "code-analysis"), ("validator", "validation-judgement"), ("judger", "validation-judgement"),
    ("poc-writer", "poc-writing"), ("poc-verifier", "poc-verification"), ("orchestrator", "agent-audit")]

  /** The step an agent belongs to by its name, if that step has occurred, or else the audit run. */
  function AgentSource(name: string, root: Id, steps: map<string, Id>, table: seq<(string, string)>): (source: Id)
    ensures source == root || source in steps.Values
  {
    if table == [] then root
    else if Contains(Lower(name), table[0].0) && table[0].1 in steps then steps[table[0].1]
    else AgentSource(name, root, steps, table[1..])
  }

  /** The node that stands for a step, or the audit run if the step has not occurred. */
  function StepOrRoot(step: string, root: Id, steps: map<string, Id>): Id {
    if step in steps then steps[step] else root
  }

  predicate AgentLoaded(agents: seq<Agent>, id: string) { exists agent :: agent in agents && agent.id == id }

  predicate IsLoaded(cards: seq<Card>, id: string) { exists card :: card in cards && card.id == id }

  function NodeOfAgent(a: Agent): Node { Node(AgentNode(a.id), "agent-run", a.status) }

  function NodeOfTask(t: Task): Node { Node(TaskNode(t.id), "whiteboard-task", t.status) }

  function NodeOfContainer(c: Container): Node { Node(ContainerNode(c.id), "container", c.status) }

  function NodeOfCard(c: Card): Node { Node(CardNode(c.id), "whiteboard-card", c.status) }

  function AgentEdges(root: Id, steps: map<string, Id>): Agent -> seq<Edge> {
    (a: Agent) => [Edge(AgentSource(a.name, root, steps, AGENT_STEPS), AgentNode(a.id), "runs")]
  }

  /** A task hangs off the swarm step, and has an edge to the agent run started on it if that is loaded. */
  function TaskEdges(root: Id, steps: map<string, Id>, agents: seq<Agent>): Task -> seq<Edge> {
    (t: Task) =>
      [Edge(StepOrRoot("whiteboard-swarm", root, steps), TaskNode(t.id), "schedules")]
      + (if t.agent != "" && AgentLoaded(agents, t.agent)
        then [Edge(TaskNode(t.id), AgentNode(t.agent), "started")] else [])
  }

  /** A container hangs off its agent run, if that is loaded, or off the audit run, if it has none. */
  function ContainerEdges(root: Id, agents: seq<Agent>): Container -> seq<Edge> {
    (c: Container) =>
      if c.agent == "" then [Edge(root, ContainerNode(c.id), "container")]
      else if AgentLoaded(agents, c.agent) then [Edge(AgentNode(c.agent), ContainerNode(c.id), "container")]
      else []
  }

  /** A card hangs off the agent run that wrote it, if that is loaded, or as a gap off the swarm step. */
  function CardEdges(root: Id, steps: map<string, Id>, agents: seq<Agent>): Card -> seq<Edge> {
    (c: Card) =>
      if c.agent != ""
        then (if AgentLoaded(agents, c.agent) then [Edge(AgentNode(c.agent), CardNode(c.id), "writes")] else [])
      else if c.cardType == "gap" then [Edge(StepOrRoot("whiteboard-swarm", root, steps), CardNode(c.id), "tracks")]
      else []
  }

  function EdgeOf(e: CardEdge): Edge { Edge(CardNode(e.source), CardNode(e.target), "whiteboard:" + e.edgeType) }

  /** A whiteboard edge between loaded cards. */
  function LinkEdges(cards: seq<Card>): CardEdge -> seq<Edge> {
    (e: CardEdge) => if IsLoaded(cards, e.source) && IsLoaded(cards, e.target) then [EdgeOf(e)] else []
  }

  /** Every node the source tries to add, in order. */
  function AllNodes(rows: Rows): seq<Node> {
    [RootNode(rows)] + StepNodes(Marks(rows.events)) + Mapped(rows.agents, NodeOfAgent) + Mapped(rows.tasks, NodeOfTask)
    + Mapped(rows.containers, NodeOfContainer) + Mapped(rows.cards, NodeOfCard)
  }

  /** Every edge it tries to add with both ends present, in order. */
  function AllEdges(rows: Rows): seq<Edge> {
    var root, order, steps := AuditNode(rows.auditRun), StepOrder(Marks(rows.events)), Steps(Marks(rows.events));
    Mapped(order, ContainsEdge(root)) + NextEdges(order)
    + Flat(rows.agents, AgentEdges(root, steps)) + Flat(rows.tasks, TaskEdges(root, steps, rows.agents))
    + Flat(rows.containers, ContainerEdges(root, rows.agents)) + Flat(rows.cards, CardEdges(root, steps, rows.agents))
    + Flat(rows.cardEdges, LinkEdges(rows.cards))
  }

  // ---------------------------------------------------------------- the builder

  /** The nodes with the status of one of them overwritten. */
  function Restatused(nodes: seq<Node>, id: Id, status: string): (r: seq<Node>)
    ensures |r| == |nodes|
    ensures forall k :: 0 <= k < |nodes| ==>
      r[k] == if nodes[k].id == id && status != "unknown" then nodes[k].(status := status) else nodes[k]
  {
    seq(|nodes|, k requires 0 <= k < |nodes| =>
      if nodes[k].id == id && status != "unknown" then nodes[k].(status := status) else nodes[k])
  }

  lemma RestatusedIds(nodes: seq<Node>, id: Id, status: string)
    ensures Ids(Restatused(nodes, id, status)) == Ids(nodes)
  {
    SameKeys(nodes, Restatused(nodes, id, status), NodeId);
  }

  class GraphBuilder {
    const root: Id
    var nodes: seq<Node>
    var edges: seq<Edge>
    var seenNodes: set<Id>
    var seenEdges: set<Edge>
    var steps: map<string, Id>        // the node of each step that has occurred

    ghost predicate Valid()
      reads this
    {
      && seenNodes == Ids(nodes) && (forall e :: e in seenEdges <==> e in edges)
      && (forall e :: e in edges ==> e.source in seenNodes && e.target in seenNodes)
      && root in seenNodes
      && (forall step :: step in steps ==> steps[step] in seenNodes)
    }

    constructor (rows: Rows)
      ensures Valid() && root == AuditNode(rows.auditRun) && steps == map[]
      ensures nodes == [RootNode(rows)] && edges == []
    {
      root := AuditNode(rows.auditRun);
      nodes, edges := [RootNode(rows)], [];
      seenNodes, seenEdges := {AuditNode(rows.auditRun)}, {};
      steps := map[];
      new;
      KeysAppend([], RootNode(rows), NodeId);
      assert [] + [RootNode(rows)] == [RootNode(rows)];
    }

    /** The edge is added when both ends are present and it is new; nothing else changes. */
    method AddEdge(source: Id, target: Id, edgeType: string)
      requires Valid()
      modifies this`edges, this`seenEdges
      ensures Valid()
      ensures edges == old(edges) +
        (if source in seenNodes && target in seenNodes
          then Fresh(old(edges), Edge(source, target, edgeType), Itself) else [])
    {
      var key := Edge(source, target, edgeType);
      FreshEdge(edges, key);
      if source !in seenNodes || target !in seenNodes || key in seenEdges {
        return;
      }
      seenEdges := seenEdges + {key};
      edges := edges + [key];
    }

    /** The node is added when its identifier is new; nothing else changes. */
    method AddNode(node: Node)
      requires Valid()
      modifies this`nodes, this`seenNodes
      ensures Valid() && seenNodes == old(seenNodes) + {node.id}
      ensures nodes == old(nodes) + Fresh(old(nodes), node, NodeId)
    {
      if node.id in seenNodes {
        return;
      }
      KeysAppend(nodes, node, NodeId);
      seenNodes := seenNodes + {node.id};
      nodes := nodes + [node];
    }

    /** Overwrite the status of the node with the given id, if the new status says anything. */
    method Restatus(id: Id, status: string)
      requires Valid() && DistinctIds(nodes)
      modifies this`nodes
      ensures Valid() && nodes == Restatused(old(nodes), id, status)
    {
      RestatusedIds(nodes, id, status);
      Overwrite(id, status);
    }

    method Overwrite(id: Id, status: string)
      requires DistinctIds(nodes)
      modifies this`nodes
      ensures nodes == Restatused(old(nodes), id, status)
    {
      for k := 0 to |nodes|
        invariant nodes == old(nodes)
        invariant status == "unknown" || forall j :: 0 <= j < k ==> nodes[j].id != id
      {
        if nodes[k].id == id && status != "unknown" {
          assert forall j :: k < j < |nodes| ==> NodeId(nodes[k]) != NodeId(nodes[j]);
          nodes := nodes[k := nodes[k].(status := status)];
          return;
        }
      }
    }

    /** One event: the test looks the name of the step's node up among the names of steps. */
    method AddStep(
      event: Event, ghost first: Node, ghost done: seq<Mark>, order: seq<string>)
      returns (order': seq<string>)
      requires Valid() && root.AuditNode? && AfterSteps(first, done, order, root, nodes, steps, edges)
      modifies this`nodes, this`edges, this`seenNodes, this`seenEdges, this`steps
      ensures Valid() && AfterSteps(first, done + [Read(event)], order', root, nodes, steps, edges)
    {
      order' := order;
      var step := Strip(event.step);
      if step == "" {
        OrderNext(done, Read(event));
        StepsNext(done, Read(event));
        UnnamedStep(done, Read(event));
        assert StepOrder(done) + [] == StepOrder(done);
        return;
      }
      var status := StepStatus(event.eventType);
      if StepText(step) !in steps {
        AppendStep(first, done, Mark(step, status), order);
        order' := order + [step];
      } else {
        OverwriteStep(first, done, Mark(step, status), order);
      }
    }

    method AppendStep(ghost first: Node, ghost done: seq<Mark>, mark: Mark, order: seq<string>)
      requires Valid() && root.AuditNode? && AfterSteps(first, done, order, root, nodes, steps, edges)
      requires mark.step != "" && !Occurs(done, StepText(mark.step))
      modifies this`nodes, this`edges, this`seenNodes, this`seenEdges, this`steps
      ensures Valid() && AfterSteps(first, done + [mark], order + [mark.step], root, nodes, steps, edges)
    {
      StepAppended(first, done, order, root, nodes, steps, edges, mark);
      HangStep(mark);
    }

    method HangStep(mark: Mark)
      requires Valid()
      modifies this`nodes, this`edges, this`seenNodes, this`seenEdges, this`steps
      ensures Valid() && steps == old(steps)[mark.step := StepNode(mark.step)]
      ensures nodes == old(nodes) + Fresh(old(nodes), Node(StepNode(mark.step), "pipeline-step", mark.status), NodeId)
      ensures var key := Edge(root, StepNode(mark.step), "contains");
        edges == old(edges) + Fresh(old(edges), key, Itself)
    {
      AddNode(Node(StepNode(mark.step), "pipeline-step", mark.status));
      steps := steps[mark.step := StepNode(mark.step)];
      AddEdge(root, StepNode(mark.step), "contains");
    }

    method OverwriteStep(ghost first: Node, ghost done: seq<Mark>, mark: Mark, ghost order: seq<string>)
      requires Valid() && root.AuditNode? && AfterSteps(first, done, order, root, nodes, steps, edges)
      requires mark.step != "" && Occurs(done, StepText(mark.step))
      modifies this`nodes
      ensures Valid() && AfterSteps(first, done + [mark], order, root, nodes, steps, edges)
    {
      OrderNext(done, mark);
      StepsNext(done, mark);
      OverwrittenStep(done, mark);
      assert StepOrder(done) + [] == StepOrder(done);
      StepNodesAreDistinct(first, done);
      Restatus(StepNode(mark.step), mark.status);
      RestatusedTail(first, StepNodes(done), StepNode(mark.step), mark.status);
    }

    /** All events: the steps, the edges that hang them off the audit run, and those from one to the next. */
    method AddSteps(events: seq<Event>)
      requires Valid() && root.AuditNode? && steps == map[] && |nodes| == 1 && nodes[0].id == root && edges == []
      modifies this`nodes, this`edges, this`seenNodes, this`seenEdges, this`steps
      ensures Valid() && steps == Steps(Marks(events))
      ensures nodes == [old(nodes)[0]] + StepNodes(Marks(events))
      ensures var order := StepOrder(Marks(events));
        edges == Extended(Deduped(Mapped(order, ContainsEdge(root)), Itself), NextEdges(order), Itself)
    {
      ghost var first := nodes[0];
      assert nodes == [first] + StepNodes(Marks([]));
      var order := GoThrough(events, first);
      StepsHave(Marks(events));
      AddNextEdges(order);
    }

    method GoThrough(events: seq<Event>, ghost first: Node) returns (order: seq<string>)
      requires Valid() && root.AuditNode? && AfterSteps(first, [], [], root, nodes, steps, edges)
      modifies this`nodes, this`edges, this`seenNodes, this`seenEdges, this`steps
      ensures Valid() && AfterSteps(first, Marks(events), order, root, nodes, steps, edges)
    {
      ghost var done: seq<Mark> := [];
      order := [];
      for k := 0 to |events|
        invariant done == Marks(events[..k])
        invariant Valid() && AfterSteps(first, done, order, root, nodes, steps, edges)
      {
        order := AddStep(events[k], first, done, order);
        MarksNext(events, k);
        done := done + [Read(events[k])];
      }
      assert events[..|events|] == events;
    }

    method AddNextEdges(order: seq<string>)
      requires Valid() && forall step :: step in order ==> step in steps && steps[step] == StepNode(step)
      modifies this`edges, this`seenEdges
      ensures Valid() && edges == Extended(old(edges), NextEdges(order), Itself)
    {
      var k := 1;
      assert NextEdges(order[..Min(1, |order|)]) == [];
      while k < |order|
        invariant k >= 1
        invariant Valid() && edges == Extended(old(edges), NextEdges(order[..Min(k, |order|)]), Itself)
      {
        assert order[k - 1] in order && order[k] in order;
        NextEdgesAppend(order, k);
        ExtendedAppend(old(edges), NextEdges(order[..k]),
          Edge(StepNode(order[k - 1]), StepNode(order[k]), "next"), Itself);
        AddEdge(steps[order[k - 1]], steps[order[k]], "next");
        k := k + 1;
      }
      assert order[..Min(k, |order|)] == order;
    }

    method AddAgents(agents: seq<Agent>)
      requires Valid() && SeesAgents(seenNodes, []) && SeesCards(seenNodes, [])
      modifies this`nodes, this`edges, this`seenNodes, this`seenEdges
      ensures Valid() && SeesAgents(seenNodes, agents) && SeesCards(seenNodes, [])
      ensures nodes == Extended(old(nodes), Mapped(agents, NodeOfAgent), NodeId)
      ensures edges == Extended(old(edges), Flat(agents, AgentEdges(root, steps)), Itself)
    {
      for k := 0 to |agents|
        invariant Valid() && SeesAgents(seenNodes, agents[..k]) && SeesCards(seenNodes, [])
        invariant RowsDone(old(nodes), old(edges), nodes, edges, agents, k, NodeOfAgent, AgentEdges(root, steps))
      {
        RowNext(old(nodes), old(edges), nodes, edges, agents, k, NodeOfAgent, AgentEdges(root, steps));
        assert agents[..k + 1] == agents[..k] + [agents[k]];
        AgentSeen(seenNodes, agents[..k], agents[k]);
        AddAgent(agents[k]);
      }
      assert agents[..|agents|] == agents;
    }

    method AddAgent(row: Agent)
      requires Valid()
      modifies this`nodes, this`edges, this`seenNodes, this`seenEdges
      ensures Valid() && seenNodes == old(seenNodes) + {AgentNode(row.id)}
      ensures nodes == old(nodes) + Fresh(old(nodes), NodeOfAgent(row), NodeId)
      ensures edges == Extended(old(edges), AgentEdges(root, steps)(row), Itself)
    {
      ExtendedOnce(edges, Edge(AgentSource(row.name, root, steps, AGENT_STEPS), AgentNode(row.id), "runs"), Itself);
      AddNode(Node(AgentNode(row.id), "agent-run", row.status));
      AddEdge(AgentSource(row.name, root, steps, AGENT_STEPS), AgentNode(row.id), "runs");
    }

    method AddTasks(tasks: seq<Task>, ghost agents: seq<Agent>)
      requires Valid() && SeesAgents(seenNodes, agents) && SeesCards(seenNodes, [])
      modifies this`nodes, this`edges, this`seenNodes, this`seenEdges
      ensures Valid() && SeesAgents(seenNodes, agents) && SeesCards(seenNodes, [])
      ensures nodes == Extended(old(nodes), Mapped(tasks, NodeOfTask), NodeId)
      ensures edges == Extended(old(edges), Flat(tasks, TaskEdges(root, steps, agents)), Itself)
    {
      for k := 0 to |tasks|
        invariant Valid() && SeesAgents(seenNodes, agents) && SeesCards(seenNodes, [])
        invariant RowsDone(old(nodes), old(edges), nodes, edges, tasks, k, NodeOfTask, TaskEdges(root, steps, agents))
      {
        RowNext(old(nodes), old(edges), nodes, edges, tasks, k, NodeOfTask, TaskEdges(root, steps, agents));
        AddTask(tasks[k], agents);
      }
      assert tasks[..|tasks|] == tasks;
    }

    method AddTask(row: Task, ghost agents: seq<Agent>)
      requires Valid() && SeesAgents(seenNodes, agents)
      modifies this`nodes, this`edges, this`seenNodes, this`seenEdges
      ensures Valid() && seenNodes == old(seenNodes) + {TaskNode(row.id)}
      ensures nodes == old(nodes) + Fresh(old(nodes), NodeOfTask(row), NodeId)
      ensures edges == Extended(old(edges), TaskEdges(root, steps, agents)(row), Itself)
    {
      TwoLinks(edges, Edge(StepOrRoot("whiteboard-swarm", root, steps), TaskNode(row.id), "schedules"),
               if row.agent != "" && AgentLoaded(agents, row.agent)
                 then [Edge(TaskNode(row.id), AgentNode(row.agent), "started")] else []);
      AddNode(Node(TaskNode(row.id), "whiteboard-task", row.status));
      AddEdge(StepOrRoot("whiteboard-swarm", root, steps), TaskNode(row.id), "schedules");
      if row.agent != "" {
        AddEdge(TaskNode(row.id), AgentNode(row.agent), "started");
      }
    }

    method AddContainers(containers: seq<Container>, ghost agents: seq<Agent>)
      requires Valid() && SeesAgents(seenNodes, agents) && SeesCards(seenNodes, [])
      modifies this`nodes, this`edges, this`seenNodes, this`seenEdges
      ensures Valid() && SeesAgents(seenNodes, agents) && SeesCards(seenNodes, [])
      ensures nodes == Extended(old(nodes), Mapped(containers, NodeOfContainer), NodeId)
      ensures edges == Extended(old(edges), Flat(containers, ContainerEdges(root, agents)), Itself)
    {
      for k := 0 to |containers|
        invariant Valid() && SeesAgents(seenNodes, agents) && SeesCards(seenNodes, [])
        invariant RowsDone(old(nodes), old(edges), nodes, edges, containers, k, NodeOfContainer,
          ContainerEdges(root, agents))
      {
        RowNext(old(nodes), old(edges), nodes, edges, containers, k, NodeOfContainer, ContainerEdges(root, agents));
        AddContainer(containers[k], agents);
      }
      assert containers[..|containers|] == containers;
    }

    method AddContainer(row: Container, ghost agents: seq<Agent>)
      requires Valid() && SeesAgents(seenNodes, agents)
      modifies this`nodes, this`edges, this`seenNodes, this`seenEdges
      ensures Valid() && seenNodes == old(seenNodes) + {ContainerNode(row.id)}
      ensures nodes == old(nodes) + Fresh(old(nodes), NodeOfContainer(row), NodeId)
      ensures edges == Extended(old(edges), ContainerEdges(root, agents)(row), Itself)
    {
      var source := if row.agent != "" then AgentNode(row.agent) else root;
      ExtendedOnce(edges, Edge(source, ContainerNode(row.id), "container"), Itself);
      AddNode(Node(ContainerNode(row.id), "container", row.status));
      AddEdge(source, ContainerNode(row.id), "container");
    }

    method AddCards(cards: seq<Card>, ghost agents: seq<Agent>)
      requires Valid() && SeesAgents(seenNodes, agents) && SeesCards(seenNodes, [])
      modifies this`nodes, this`edges, this`seenNodes, this`seenEdges
      ensures Valid() && SeesCards(seenNodes, cards)
      ensures nodes == Extended(old(nodes), Mapped(cards, NodeOfCard), NodeId)
      ensures edges == Extended(old(edges), Flat(cards, CardEdges(root, steps, agents)), Itself)
    {
      for k := 0 to |cards|
        invariant Valid() && SeesAgents(seenNodes, agents) && SeesCards(seenNodes, cards[..k])
        invariant RowsDone(old(nodes), old(edges), nodes, edges, cards, k, NodeOfCard, CardEdges(root, steps, agents))
      {
        RowNext(old(nodes), old(edges), nodes, edges, cards, k, NodeOfCard, CardEdges(root, steps, agents));
        assert cards[..k + 1] == cards[..k] + [cards[k]];
        AddCard(cards[k], agents, cards[..k]);
      }
      assert cards[..|cards|] == cards;
    }

    method AddCard(row: Card, ghost agents: seq<Agent>, ghost before: seq<Card>)
      requires Valid() && SeesAgents(seenNodes, agents) && SeesCards(seenNodes, before)
      modifies this`nodes, this`edges, this`seenNodes, this`seenEdges
      ensures Valid() && SeesAgents(seenNodes, agents) && SeesCards(seenNodes, before + [row])
      ensures nodes == old(nodes) + Fresh(old(nodes), NodeOfCard(row), NodeId)
      ensures edges == Extended(old(edges), CardEdges(root, steps, agents)(row), Itself)
    {
      CardSeen(seenNodes, before, row);
      ExtendedOnce(edges, Edge(AgentNode(row.agent), CardNode(row.id), "writes"), Itself);
      ExtendedOnce(edges, Edge(StepOrRoot("whiteboard-swarm", root, steps), CardNode(row.id), "tracks"), Itself);
      AddNode(Node(CardNode(row.id), "whiteboard-card", row.status));
      if row.agent != "" {
        AddEdge(AgentNode(row.agent), CardNode(row.id), "writes");
      } else if row.cardType == "gap" {
        AddEdge(StepOrRoot("whiteboard-swarm", root, steps), CardNode(row.id), "tracks");
      }
    }

    method AddCardEdges(cardEdges: seq<CardEdge>, ghost cards: seq<Card>)
      requires Valid() && SeesCards(seenNodes, cards)
      modifies this`edges, this`seenEdges
      ensures Valid() && edges == Extended(old(edges), Flat(cardEdges, LinkEdges(cards)), Itself)
    {
      for k := 0 to |cardEdges|
        invariant Valid() && edges == Extended(old(edges), Flat(cardEdges[..k], LinkEdges(cards)), Itself)
      {
        LinksNext(old(edges), edges, cardEdges, k, LinkEdges(cards));
        ExtendedOnce(edges, EdgeOf(cardEdges[k]), Itself);
        AddEdge(CardNode(cardEdges[k].source), CardNode(cardEdges[k].target), "whiteboard:" + cardEdges[k].edgeType);
      }
      assert cardEdges[..|cardEdges|] == cardEdges;
    }

    /** All rows of the audit run, table by table. */
    method Populate(rows: Rows)
      requires Valid() && root == AuditNode(rows.auditRun) && steps == map[] && nodes == [RootNode(rows)] && edges == []
      modifies this
      ensures Valid() && nodes == Nodes(rows) && edges == Edges(rows)
    {
      var marks := Marks(rows.events);
      AddSteps(rows.events);
      StepsAreNoAgents(RootNode(rows), marks);
      StepNodesAreDistinct(RootNode(rows), marks);
      ghost var nodes1, edges1 := nodes, edges;
      AddAgents(rows.agents);
      AddTasks(rows.tasks, rows.agents);
      AddContainers(rows.containers, rows.agents);
      AddCards(rows.cards, rows.agents);
      AddCardEdges(rows.cardEdges, rows.cards);
      AllTables(rows);
    }
  }

  lemma StepsHave(marks: seq<Mark>)
    ensures forall step :: step in StepOrder(marks) ==> step in Steps(marks) && Steps(marks)[step] == StepNode(step)
  {
  }

  lemma MarksNext(events: seq<Event>, k: nat)
    requires k < |events|
    ensures Marks(events[..k + 1]) == Marks(events[..k]) + [Read(events[k])]
  {
    assert events[..k + 1] == events[..k] + [events[k]];
    MappedAppend(events[..k], Read, events[k]);
  }

  lemma RestatusedTail(first: Node, rest: seq<Node>, id: Id, status: string)
    requires first.id != id
    ensures Restatused([first] + rest, id, status) == [first] + Restatused(rest, id, status)
  {
  }

  lemma NextEdgesAppend(order: seq<string>, k: nat)
    requires 1 <= k < |order|
    ensures NextEdges(order[..k + 1]) ==
      NextEdges(order[..k]) + [Edge(StepNode(order[k - 1]), StepNode(order[k]), "next")]
  {
    assert order[..k + 1][..k] == order[..k];
  }

  lemma FreshEdge(edges: seq<Edge>, e: Edge)
    ensures Fresh(edges, e, Itself) == if e in edges then [] else [e]
  {
    assert Itself(e) == e;
  }

  lemma TwoLinks(edges: seq<Edge>, e: Edge, more: seq<Edge>)
    requires |more| <= 1
    ensures Extended(edges, [e] + more, Itself) ==
      if more == [] then edges + Fresh(edges, e, Itself)
      else edges + Fresh(edges, e, Itself) + Fresh(edges + Fresh(edges, e, Itself), more[0], Itself)
  {
    ExtendedOnce(edges, e, Itself);
    if more == [] {
      assert [e] + more == [e];
    } else {
      assert [e] + more == [e] + [more[0]];
      ExtendedAppend(edges, [e], more[0], Itself);
    }
  }

  /** The first k rows of a table have been gone through. */
  predicate RowsDone<T(==)>(
    nodes0: seq<Node>, edges0: seq<Edge>, nodes: seq<Node>, edges: seq<Edge>, rows: seq<T>, k: nat, node: T -> Node,
    link: T -> seq<Edge>)
    requires k <= |rows|
  {
    && nodes == Extended(nodes0, Mapped(rows[..k], node), NodeId)
    && edges == Extended(edges0, Flat(rows[..k], link), Itself)
  }

  lemma RowNext<T>(
    nodes0: seq<Node>, edges0: seq<Edge>, nodes: seq<Node>, edges: seq<Edge>, rows: seq<T>, k: nat, node: T -> Node,
    link: T -> seq<Edge>)
    requires k < |rows| && RowsDone(nodes0, edges0, nodes, edges, rows, k, node, link)
    ensures RowsDone(
      nodes0, edges0, nodes + Fresh(nodes, node(rows[k]), NodeId), Extended(edges, link(rows[k]), Itself),
      rows, k + 1, node, link)
  {
    assert rows[..k + 1] == rows[..k] + [rows[k]];
    MappedAppend(rows[..k], node, rows[k]);
    ExtendedAppend(nodes0, Mapped(rows[..k], node), node(rows[k]), NodeId);
    LinksNext(edges0, edges, rows, k, link);
  }

  lemma LinksNext<T>(edges0: seq<Edge>, edges: seq<Edge>, rows: seq<T>, k: nat, link: T -> seq<Edge>)
    requires k < |rows| && edges == Extended(edges0, Flat(rows[..k], link), Itself)
    ensures Extended(edges, link(rows[k]), Itself) == Extended(edges0, Flat(rows[..k + 1], link), Itself)
  {
    assert rows[..k + 1] == rows[..k] + [rows[k]];
    FlatAppend(rows[..k], link, rows[k]);
    ExtendedConcat(edges0, Flat(rows[..k], link), link(rows[k]), Itself);
  }

  ghost predicate SeesAgents(seen: set<Id>, agents: seq<Agent>) {
    forall id :: AgentNode(id) in seen <==> AgentLoaded(agents, id)
  }

  ghost predicate SeesCards(seen: set<Id>, cards: seq<Card>) {
    forall id :: CardNode(id) in seen <==> IsLoaded(cards, id)
  }

  lemma AgentSeen(seen: set<Id>, agents: seq<Agent>, agent: Agent)
    requires SeesAgents(seen, agents)
    ensures SeesAgents(seen + {AgentNode(agent.id)}, agents + [agent])
  {
    assert agent in agents + [agent];
  }

  lemma CardSeen(seen: set<Id>, cards: seq<Card>, card: Card)
    requires SeesCards(seen, cards)
    ensures SeesCards(seen + {CardNode(card.id)}, cards + [card])
  {
    assert card in cards + [card];
  }

  /** Until the other tables are gone through there are only the audit run and its steps. */
  lemma StepsAreNoAgents(first: Node, done: seq<Mark>)
    requires first.id.AuditNode?
    ensures SeesAgents(Keys([first] + StepNodes(done), NodeId), [])
      && SeesCards(Keys([first] + StepNodes(done), NodeId), [])
  {
    StepIds(done);
    KeysConcat([first], StepNodes(done), NodeId);
  }

  /** The events in `done` have been gone through: the order of the steps, the nodes, and the edges to them. */
  ghost predicate AfterSteps(
    first: Node, done: seq<Mark>, order: seq<string>, root: Id, nodes: seq<Node>, steps: map<string, Id>,
    edges: seq<Edge>)
  {
    && first.id == root && order == StepOrder(done) && steps == Steps(done)
    && nodes == [first] + StepNodes(done)
    && edges == Deduped(Mapped(order, ContainsEdge(root)), Itself)
  }

  lemma StepAppended(
    first: Node, done: seq<Mark>, order: seq<string>, root: Id, nodes: seq<Node>, steps: map<string, Id>,
    edges: seq<Edge>, mark: Mark)
    requires AfterSteps(first, done, order, root, nodes, steps, edges) && root.AuditNode?
    requires mark.step != "" && !Occurs(done, StepText(mark.step))
    ensures AfterSteps(
      first, done + [mark], order + [mark.step], root,
      nodes + Fresh(nodes, Node(StepNode(mark.step), "pipeline-step", mark.status), NodeId),
      steps[mark.step := StepNode(mark.step)],
      edges + Fresh(edges, Edge(root, StepNode(mark.step), "contains"), Itself))
  {
    var node, edge := Node(StepNode(mark.step), "pipeline-step", mark.status),
      Edge(root, StepNode(mark.step), "contains");
    OrderNext(done, mark);
    StepsNext(done, mark);
    AppendedStep(done, mark);
    StepsOnly(first, done, mark.step);
    assert nodes + Fresh(nodes, node, NodeId) == [first] + StepNodes(done + [mark]);
    MappedAppend(order, ContainsEdge(root), mark.step);
    FreshDeduped(Mapped(order, ContainsEdge(root)), edge);
  }

  lemma FreshDeduped(linked: seq<Edge>, e: Edge)
    ensures Deduped(linked + [e], Itself) == Deduped(linked, Itself) + Fresh(Deduped(linked, Itself), e, Itself)
  {
    DedupedAppend(linked, e, Itself);
    DedupedKeys(linked, Itself);
  }

  lemma StepNodesAreDistinct(first: Node, done: seq<Mark>)
    requires first.id.AuditNode?
    ensures DistinctIds([first] + StepNodes(done))
      && Deduped([first] + StepNodes(done), NodeId) == [first] + StepNodes(done)
  {
    StepIds(done);
    StepsApart(done);
    FirstApart(first, StepNodes(done));
    DistinctIsDeduped([first] + StepNodes(done), NodeId);
  }

  lemma StepsApart(done: seq<Mark>)
    ensures DistinctIds(StepNodes(done))
  {
    var order := Deduped(StepOrder(done), Itself);
    DedupedKeys(StepOrder(done), Itself);
    forall i, j | 0 <= i < j < |order| ensures NodeId(StepNodes(done)[i]) != NodeId(StepNodes(done)[j]) {
      assert Itself(order[i]) != Itself(order[j]);
    }
  }

  lemma FirstApart(first: Node, rest: seq<Node>)
    requires DistinctIds(rest) && first.id !in Ids(rest)
    ensures DistinctIds([first] + rest)
  {
    forall k | 0 <= k < |rest| ensures NodeId(rest[k]) != NodeId(first) {
      assert rest[k] in rest;
    }
  }

  function Nodes(rows: Rows): seq<Node> { Deduped(AllNodes(rows), NodeId) }

  function Edges(rows: Rows): seq<Edge> { Deduped(AllEdges(rows), Itself) }

  /** Going through the tables one after the other is deduplicating everything they contribute. */
  lemma AllTables(rows: Rows)
    ensures var nodes := [RootNode(rows)] + StepNodes(Marks(rows.events));
      Extended(Extended(Extended(Extended(nodes,
        Mapped(rows.agents, NodeOfAgent), NodeId), Mapped(rows.tasks, NodeOfTask), NodeId),
        Mapped(rows.containers, NodeOfContainer), NodeId), Mapped(rows.cards, NodeOfCard), NodeId) == Nodes(rows)
    ensures var root, order, steps :=
      AuditNode(rows.auditRun), StepOrder(Marks(rows.events)), Steps(Marks(rows.events));
      Extended(Extended(Extended(Extended(Extended(Extended(Deduped(Mapped(order, ContainsEdge(root)), Itself),
        NextEdges(order), Itself),
        Flat(rows.agents, AgentEdges(root, steps)), Itself),
        Flat(rows.tasks, TaskEdges(root, steps, rows.agents)), Itself),
        Flat(rows.containers, ContainerEdges(root, rows.agents)), Itself),
        Flat(rows.cards, CardEdges(root, steps, rows.agents)), Itself),
        Flat(rows.cardEdges, LinkEdges(rows.cards)), Itself) == Edges(rows)
  {
    var nodes := [RootNode(rows)] + StepNodes(Marks(rows.events));
    StepNodesAreDistinct(RootNode(rows), Marks(rows.events));
    FourMore(nodes, Mapped(rows.agents, NodeOfAgent), Mapped(rows.tasks, NodeOfTask),
             Mapped(rows.containers, NodeOfContainer), Mapped(rows.cards, NodeOfCard), NodeId);
    var root, order, steps := AuditNode(rows.auditRun), StepOrder(Marks(rows.events)), Steps(Marks(rows.events));
    var hung := Mapped(order, ContainsEdge(root));
    FourMore(hung, NextEdges(order), Flat(rows.agents, AgentEdges(root, steps)),
      Flat(rows.tasks, TaskEdges(root, steps, rows.agents)),
             Flat(rows.containers, ContainerEdges(root, rows.agents)), Itself);
    var four := hung + NextEdges(order) + Flat(rows.agents, AgentEdges(root, steps))
      + Flat(rows.tasks, TaskEdges(root, steps, rows.agents))
      + Flat(rows.containers, ContainerEdges(root, rows.agents));
    ExtendedDeduped(four, Flat(rows.cards, CardEdges(root, steps, rows.agents)), Itself);
    ExtendedDeduped(four + Flat(rows.cards, CardEdges(root, steps, rows.agents)),
      Flat(rows.cardEdges, LinkEdges(rows.cards)), Itself);
  }

  lemma FourMore<T, K>(xs: seq<T>, a: seq<T>, b: seq<T>, c: seq<T>, d: seq<T>, key: T -> K)
    ensures Extended(Extended(Extended(Extended(Deduped(xs, key), a, key), b, key), c, key), d, key) ==
      Deduped(xs + a + b + c + d, key)
  {
    ExtendedDeduped(xs, a, key);
    ExtendedDeduped(xs + a, b, key);
    ExtendedDeduped(xs + a + b, c, key);
    ExtendedDeduped(xs + a + b + c, d, key);
  }

  lemma StepsOnly(first: Node, done: seq<Mark>, step: string)
    requires first.id.AuditNode?
    ensures StepNode(step) in Ids([first] + StepNodes(done)) <==> Occurs(done, step)
  {
    StepIds(done);
    KeysConcat([first], StepNodes(done), NodeId);
  }

  lemma StepIds(done: seq<Mark>)
    ensures Ids(StepNodes(done)) == set step | step in StepOrder(done) :: StepNode(step)
  {
    var order := Deduped(StepOrder(done), Itself);
    DedupedKeys(StepOrder(done), Itself);
    forall id ensures id in Ids(StepNodes(done)) <==> id in set step | step in StepOrder(done) :: StepNode(step) {
      if id in Ids(StepNodes(done)) {
        var n :| n in StepNodes(done) && n.id == id;
        MappedAre(order, StepNodeFor(done), n);
        var step :| step in order && StepNodeFor(done)(step) == n;
        assert step in Keys(order, Itself);
      }
      if step :| step in StepOrder(done) && StepNode(step) == id {
        assert Itself(step) in Keys(StepOrder(done), Itself);
        assert step in order;
        MappedAre(order, StepNodeFor(done), StepNodeFor(done)(step));
      }
    }
  }

  lemma EdgesKept(linked: seq<Edge>, e: Edge)
    ensures e in Deduped(linked, Itself) <==> e in linked
    ensures e in Keys(linked, Itself) <==> e in linked
  {
    assert Itself(e) == e;
    DedupedAreFirst(linked, Itself, e);
    DedupedKeys(linked, Itself);
    if e in linked {
      assert Itself(e) in Keys(linked, Itself);
      var x :| x in Deduped(linked, Itself) && Itself(x) == e;
    }
  }

  lemma KeptSteps(order: seq<string>)
    ensures forall step :: step in Deduped(order, Itself) <==> step in order
  {
    DedupedKeys(order, Itself);
    forall step ensures step in Deduped(order, Itself) <==> step in order {
      assert Itself(step) == step;
      if step in order {
        assert Itself(step) in Keys(order, Itself);
      }
      if step in Deduped(order, Itself) {
        assert Itself(step) in Keys(Deduped(order, Itself), Itself);
      }
    }
  }

  lemma MappedSame<T, U>(items: seq<T>, f: T -> U, g: T -> U)
    requires forall x :: x in items ==> f(x) == g(x)
    ensures Mapped(items, f) == Mapped(items, g)
  {
    assert forall k :: 0 <= k < |items| ==> items[k] in items;
  }

  /** How one more event changes the order of the steps and the status of one of them. */
  lemma OrderNext(done: seq<Mark>, mark: Mark)
    ensures StepOrder(done + [mark]) ==
      StepOrder(done) + (if mark.step != "" && !Occurs(done, StepText(mark.step)) then [mark.step] else [])
  {
    assert (done + [mark])[..|done|] == done;
  }

  lemma StatusNext(done: seq<Mark>, mark: Mark, step: string)
    ensures NodeStatus(done + [mark], step) ==
      if mark.step != step || step == "" then NodeStatus(done, step)
      else if !Occurs(done, StepText(step))
        then (if Occurs(done, step) then NodeStatus(done, step) else Some(mark.status))
      else if Occurs(done, step) && mark.status != "unknown" then Some(mark.status)
      else NodeStatus(done, step)
  {
    assert (done + [mark])[..|done|] == done;
    StatusesAreOfSteps(done, step);
  }

  lemma StepsNext(done: seq<Mark>, mark: Mark)
    ensures Steps(done + [mark]) ==
      if mark.step != "" && !Occurs(done, StepText(mark.step)) then Steps(done)[mark.step := StepNode(mark.step)]
        else Steps(done)
  {
    OrderNext(done, mark);
  }

  /** An event that names no step changes no node. */
  lemma UnnamedStep(done: seq<Mark>, mark: Mark)
    requires mark.step == ""
    ensures StepNodes(done + [mark]) == StepNodes(done)
  {
    OrderNext(done, mark);
    assert StepOrder(done) + [] == StepOrder(done);
    forall step ensures StepNodeFor(done + [mark])(step) == StepNodeFor(done)(step) {
      StatusNext(done, mark, step);
    }
    MappedSame(Deduped(StepOrder(done), Itself), StepNodeFor(done + [mark]), StepNodeFor(done));
  }

  /** An event appended to the order adds its step's node, if there is none yet. */
  lemma AppendedStep(done: seq<Mark>, mark: Mark)
    requires mark.step != "" && !Occurs(done, StepText(mark.step))
    ensures StepNodes(done + [mark]) == StepNodes(done)
      + (if Occurs(done, mark.step) then [] else [Node(StepNode(mark.step), "pipeline-step", mark.status)])
  {
    var step, more, order := mark.step, done + [mark], StepOrder(done);
    OrderNext(done, mark);
    KeptSteps(order);
    DedupedAppend(order, step, Itself);
    assert step in Keys(order, Itself) <==> step in order by {
      assert Itself(step) == step;
    }
    var kept := Deduped(order, Itself);
    forall x | x in kept ensures StepNodeFor(more)(x) == StepNodeFor(done)(x) {
      StatusNext(done, mark, x);
    }
    MappedSame(kept, StepNodeFor(more), StepNodeFor(done));
    if Occurs(done, step) {
      assert kept + [] == kept && StepNodes(done) + [] == StepNodes(done);
    } else {
      StatusNext(done, mark, step);
      MappedAppend(kept, StepNodeFor(more), step);
    }
  }

  /** Any other event overwrites the status of its step's node. */
  lemma OverwrittenStep(done: seq<Mark>, mark: Mark)
    requires mark.step != "" && Occurs(done, StepText(mark.step))
    ensures StepNodes(done + [mark]) == Restatused(StepNodes(done), StepNode(mark.step), mark.status)
  {
    var order := StepOrder(done);
    OrderNext(done, mark);
    assert order + [] == order;
    var kept := Deduped(order, Itself);
    KeptSteps(order);
    forall k | 0 <= k < |kept|
      ensures StepNodes(done + [mark])[k] == Restatused(StepNodes(done), StepNode(mark.step), mark.status)[k]
    {
      assert kept[k] in kept;
      StatusNext(done, mark, kept[k]);
    }
  }
  // ---------------------------------------------------------------- what the graph shows

  /** The first row of its identifier in a table has this node. */
  predicate FirstRow<T(==)>(rows: seq<T>, node: T -> Node, n: Node) { First(Mapped(rows, node), NodeId, n) }

  /** Exactly what the node is: the audit run's, a step's with the status of `ShownStatus`, or that of the
      first row with its identifier, with the kind of its table and the status of the row. */
  predicate Stands(rows: Rows, n: Node) {
    match n.id
    case AuditNode(_) => n == RootNode(rows)
    case StepNode(step) => Occurs(Marks(rows.events), step) && n == StepNodeOf(Marks(rows.events), step)
    case AgentNode(_) => FirstRow(rows.agents, NodeOfAgent, n)
    case TaskNode(_) => FirstRow(rows.tasks, NodeOfTask, n)
    case ContainerNode(_) => FirstRow(rows.containers, NodeOfContainer, n)
    case CardNode(_) => FirstRow(rows.cards, NodeOfCard, n)
  }

  /** A part of the tables that has no node of this identifier does not matter. */
  lemma BackIsOther(xs: seq<Node>, ys: seq<Node>, n: Node)
    requires n.id !in Ids(ys)
    ensures First(xs + ys, NodeId, n) <==> First(xs, NodeId, n)
  {
    FirstConcat(xs, ys, NodeId, n);
    FirstIsMember(ys, n);
  }

  lemma FrontIsOther(xs: seq<Node>, ys: seq<Node>, n: Node)
    requires n.id !in Ids(xs)
    ensures First(xs + ys, NodeId, n) <==> First(ys, NodeId, n)
  {
    FirstConcat(xs, ys, NodeId, n);
    FirstIsMember(xs, n);
  }

  lemma FirstIsMember(xs: seq<Node>, n: Node)
    ensures First(xs, NodeId, n) ==> n in xs && n.id in Ids(xs)
  {
    if First(xs, NodeId, n) {
      var i :| 0 <= i < |xs| && xs[i] == n && IsFirst(xs, NodeId, i);
      assert NodeId(xs[i]) in Ids(xs);
    }
  }

  /** The identifiers of each table's nodes are of the table's own kind. */
  lemma KindsApart(rows: Rows)
    ensures Ids([RootNode(rows)]) == {AuditNode(rows.auditRun)}
    ensures forall id :: id in Ids(StepNodes(Marks(rows.events))) ==> id.StepNode?
    ensures forall id :: id in Ids(Mapped(rows.agents, NodeOfAgent)) ==> id.AgentNode?
    ensures forall id :: id in Ids(Mapped(rows.tasks, NodeOfTask)) ==> id.TaskNode?
    ensures forall id :: id in Ids(Mapped(rows.containers, NodeOfContainer)) ==> id.ContainerNode?
    ensures forall id :: id in Ids(Mapped(rows.cards, NodeOfCard)) ==> id.CardNode?
  {
    StepIds(Marks(rows.events));
    assert NodeId(RootNode(rows)) == AuditNode(rows.auditRun);
  }

  /** The graph's nodes are exactly those that stand for the audit run, an occurring step, or the first row
      of an identifier, each with its kind and status. */
  lemma NodesStandForRows(rows: Rows, n: Node)
    ensures n in Nodes(rows) <==> Stands(rows, n)
  {
    DedupedAreFirst(AllNodes(rows), NodeId, n);
    KindsApart(rows);
    var p0, p1, p2 := [RootNode(rows)], StepNodes(Marks(rows.events)), Mapped(rows.agents, NodeOfAgent);
    var p3, p4, p5 := Mapped(rows.tasks, NodeOfTask), Mapped(rows.containers, NodeOfContainer),
      Mapped(rows.cards, NodeOfCard);
    SixParts(p0, p1, p2, p3, p4, p5, n);
    match n.id
    case AuditNode(_) =>
      OnlyFirst(RootNode(rows), n);
    case StepNode(_) =>
      StepsStand(rows, n);
    case _ =>
  }

  lemma OnlyFirst(root: Node, n: Node)
    ensures First([root], NodeId, n) <==> n == root
  {
    assert [root][0] == root && IsFirst([root], NodeId, 0);
  }

  lemma DistinctAreFirst(nodes: seq<Node>, n: Node)
    requires DistinctIds(nodes)
    ensures First(nodes, NodeId, n) <==> n in nodes
  {
    DistinctIsDeduped(nodes, NodeId);
    DedupedAreFirst(nodes, NodeId, n);
  }

  lemma StepsStand(rows: Rows, n: Node)
    requires n.id.StepNode?
    ensures First(StepNodes(Marks(rows.events)), NodeId, n) <==> Stands(rows, n)
  {
    var marks := Marks(rows.events);
    StepsApart(marks);
    DistinctAreFirst(StepNodes(marks), n);
    KeptSteps(StepOrder(marks));
    MappedAre(Deduped(StepOrder(marks), Itself), StepNodeFor(marks), n);
    if Stands(rows, n) {
      assert StepNodeFor(marks)(n.id.id) == n;
    }
  }

  /** Only the part with identifiers of n's kind can have n first. */
  lemma SixParts(p0: seq<Node>, p1: seq<Node>, p2: seq<Node>, p3: seq<Node>, p4: seq<Node>, p5: seq<Node>, n: Node)
    requires forall id :: id in Ids(p0) ==> id.AuditNode?
    requires forall id :: id in Ids(p1) ==> id.StepNode?
    requires forall id :: id in Ids(p2) ==> id.AgentNode?
    requires forall id :: id in Ids(p3) ==> id.TaskNode?
    requires forall id :: id in Ids(p4) ==> id.ContainerNode?
    requires forall id :: id in Ids(p5) ==> id.CardNode?
    ensures First(p0 + p1 + p2 + p3 + p4 + p5, NodeId, n) <==>
      match n.id
      case AuditNode(_) => First(p0, NodeId, n)
      case StepNode(_) => First(p1, NodeId, n)
      case AgentNode(_) => First(p2, NodeId, n)
      case TaskNode(_) => First(p3, NodeId, n)
      case ContainerNode(_) => First(p4, NodeId, n)
      case CardNode(_) => First(p5, NodeId, n)
  {
    OtherPart(p0, p1, n);
    OtherPart(p0 + p1, p2, n);
    OtherPart(p0 + p1 + p2, p3, n);
    OtherPart(p0 + p1 + p2 + p3, p4, n);
    OtherPart(p0 + p1 + p2 + p3 + p4, p5, n);
    FirstIsMember(p0, n);
  }

  lemma OtherPart(xs: seq<Node>, ys: seq<Node>, n: Node)
    ensures Ids(xs + ys) == Ids(xs) + Ids(ys)
    ensures n.id !in Ids(ys) ==> (First(xs + ys, NodeId, n) <==> First(xs, NodeId, n))
    ensures n.id !in Ids(xs) ==> (First(xs + ys, NodeId, n) <==> First(ys, NodeId, n))
  {
    KeysConcat(xs, ys, NodeId);
    if n.id !in Ids(ys) {
      BackIsOther(xs, ys, n);
    }
    if n.id !in Ids(xs) {
      FrontIsOther(xs, ys, n);
    }
  }

  /** Two steps follow one another in the order. */
  predicate Adjacent(order: seq<string>, e: Edge) {
    exists k :: 0 <= k < |order| - 1 && e == Edge(StepNode(order[k]), StepNode(order[k + 1]), "next")
  }

  lemma {:induction false} NextEdgesAre(order: seq<string>, e: Edge)
    ensures e in NextEdges(order) <==> Adjacent(order, e)
  {
    var n := |order| - 1;
    if n >= 1 {
      NextEdgesAre(order[..n], e);
      assert forall k :: 0 <= k < n ==> order[..n][k] == order[k];
      if Adjacent(order[..n], e) {
        var k :| 0 <= k < n - 1 && e == Edge(StepNode(order[..n][k]), StepNode(order[..n][k + 1]), "next");
        assert order[..n][k + 1] == order[k + 1];
      }
      if k :| 0 <= k < n && e == Edge(StepNode(order[k]), StepNode(order[k + 1]), "next") {
        assert k < n - 1 ==> order[..n][k + 1] == order[k + 1];
      }
    }
  }

  /** Exactly what an edge is: from the audit run to an occurring step, from a step to the next of the order,
      or one a row of some table contributes. */
  ghost predicate Links(rows: Rows, e: Edge) {
    var root, order, steps := AuditNode(rows.auditRun), StepOrder(Marks(rows.events)), Steps(Marks(rows.events));
    || (exists step :: step in order && e == Edge(root, StepNode(step), "contains"))
    || Adjacent(order, e)
    || (exists a :: a in rows.agents && e in AgentEdges(root, steps)(a))
    || (exists t :: t in rows.tasks && e in TaskEdges(root, steps, rows.agents)(t))
    || (exists c :: c in rows.containers && e in ContainerEdges(root, rows.agents)(c))
    || (exists c :: c in rows.cards && e in CardEdges(root, steps, rows.agents)(c))
    || (exists l :: l in rows.cardEdges && e in LinkEdges(rows.cards)(l))
  }

  /** The graph's edges are exactly the links of its rows, each once. */
  lemma EdgesLinkRows(rows: Rows, e: Edge)
    ensures e in Edges(rows) <==> Links(rows, e)
  {
    var root, order, steps := AuditNode(rows.auditRun), StepOrder(Marks(rows.events)), Steps(Marks(rows.events));
    EdgesKept(AllEdges(rows), e);
    MappedAre(order, ContainsEdge(root), e);
    NextEdgesAre(order, e);
    FlatAre(rows.agents, AgentEdges(root, steps), e);
    FlatAre(rows.tasks, TaskEdges(root, steps, rows.agents), e);
    FlatAre(rows.containers, ContainerEdges(root, rows.agents), e);
    FlatAre(rows.cards, CardEdges(root, steps, rows.agents), e);
    FlatAre(rows.cardEdges, LinkEdges(rows.cards), e);
  }

  /** A step has a node in the graph if and only if it occurs. */
  lemma StepHasNodeExactlyWhen(rows: Rows, step: string)
    ensures StepNode(step) in Ids(Nodes(rows)) <==> Occurs(Marks(rows.events), step)
  {
    if Occurs(Marks(rows.events), step) {
      var n := StepNodeOf(Marks(rows.events), step);
      NodesStandForRows(rows, n);
      assert NodeId(n) in Ids(Nodes(rows));
    }
    if StepNode(step) in Ids(Nodes(rows)) {
      var n :| n in Nodes(rows) && NodeId(n) == StepNode(step);
      NodesStandForRows(rows, n);
    }
  }

  /** After a step named like its node, a step has no node of its own. */
  lemma StepIsHidden(rows: Rows, step: string, f: nat)
    requires var marks := Marks(rows.events);
      step != "" && FirstNaming(marks, step, f) && Occurs(marks[..f], StepText(step))
    ensures StepNode(step) !in Ids(Nodes(rows))
  {
    StepOccursExactlyWhen(Marks(rows.events), step, f);
    StepHasNodeExactlyWhen(rows, step);
  }

  // ---------------------------------------------------------------- reachability

  /** The graph has a node with this identifier, and it can be reached from the audit run. */
  ghost predicate Hangs(nodes: seq<Node>, edges: seq<Edge>, root: Id, id: Id) {
    id in Ids(nodes) && Reachable(edges, root, id)
  }

  lemma HangsBy(rows: Rows, e: Edge)
    requires e in Edges(rows) && Reachable(Edges(rows), AuditNode(rows.auditRun), e.source)
    ensures Reachable(Edges(rows), AuditNode(rows.auditRun), e.target)
  {
    assert Linked(Edges(rows), e.source, e.target);
    ReachesAlong(Edges(rows), AuditNode(rows.auditRun), e.source, e.target);
  }

  lemma StepHangs(rows: Rows, step: string)
    requires Occurs(Marks(rows.events), step)
    ensures Hangs(Nodes(rows), Edges(rows), AuditNode(rows.auditRun), StepNode(step))
  {
    var e := Edge(AuditNode(rows.auditRun), StepNode(step), "contains");
    StepHasNodeExactlyWhen(rows, step);
    EdgesLinkRows(rows, e);
    ReachesItself(Edges(rows), AuditNode(rows.auditRun));
    HangsBy(rows, e);
  }

  lemma SourceHangs(rows: Rows, id: Id)
    requires id == AuditNode(rows.auditRun) || id in Steps(Marks(rows.events)).Values
    ensures Reachable(Edges(rows), AuditNode(rows.auditRun), id)
  {
    ReachesItself(Edges(rows), AuditNode(rows.auditRun));
    if id != AuditNode(rows.auditRun) {
      var step :| step in StepOrder(Marks(rows.events)) && StepNode(step) == id;
      StepHangs(rows, step);
    }
  }

  lemma RowHasNode<T>(rows: Rows, table: seq<T>, node: T -> Node, row: T)
    requires row in table && forall n :: n in Mapped(table, node) ==> n in AllNodes(rows)
    ensures node(row).id in Ids(Nodes(rows))
  {
    MappedAre(table, node, node(row));
    assert NodeId(node(row)) in Keys(AllNodes(rows), NodeId);
    DedupedKeys(AllNodes(rows), NodeId);
  }

  lemma AgentHangs(rows: Rows, a: Agent)
    requires a in rows.agents
    ensures Hangs(Nodes(rows), Edges(rows), AuditNode(rows.auditRun), AgentNode(a.id))
  {
    var root, steps := AuditNode(rows.auditRun), Steps(Marks(rows.events));
    var e := Edge(AgentSource(a.name, root, steps, AGENT_STEPS), AgentNode(a.id), "runs");
    RowHasNode(rows, rows.agents, NodeOfAgent, a);
    assert e in AgentEdges(root, steps)(a);
    EdgesLinkRows(rows, e);
    SourceHangs(rows, e.source);
    HangsBy(rows, e);
  }

  lemma TaskHangs(rows: Rows, t: Task)
    requires t in rows.tasks
    ensures Hangs(Nodes(rows), Edges(rows), AuditNode(rows.auditRun), TaskNode(t.id))
  {
    var root, steps := AuditNode(rows.auditRun), Steps(Marks(rows.events));
    var e := Edge(StepOrRoot("whiteboard-swarm", root, steps), TaskNode(t.id), "schedules");
    RowHasNode(rows, rows.tasks, NodeOfTask, t);
    assert e in TaskEdges(root, steps, rows.agents)(t);
    EdgesLinkRows(rows, e);
    SourceHangs(rows, e.source);
    HangsBy(rows, e);
  }

  /** Kinds of nodes that hang off the audit run. */
  predicate IsAnchoredKind(kind: string) {
    kind == "pipeline-step" || kind == "agent-run" || kind == "whiteboard-task"
  }

  ghost predicate Anchored(nodes: seq<Node>, edges: seq<Edge>, root: Id) {
    forall n :: n in nodes && IsAnchoredKind(n.kind) ==> Reachable(edges, root, n.id)
  }

  lemma RowOf<T>(table: seq<T>, node: T -> Node, n: Node) returns (row: T)
    requires FirstRow(table, node, n)
    ensures row in table && node(row) == n
  {
    FirstIsMember(Mapped(table, node), n);
    MappedAre(table, node, n);
    row :| row in table && node(row) == n;
  }

  lemma NodeIsAnchored(rows: Rows, n: Node)
    requires n in Nodes(rows) && IsAnchoredKind(n.kind)
    ensures Reachable(Edges(rows), AuditNode(rows.auditRun), n.id)
  {
    NodesStandForRows(rows, n);
    match n.id
    case AuditNode(_) =>
      ReachesItself(Edges(rows), n.id);
    case StepNode(step) =>
      StepHangs(rows, step);
    case AgentNode(_) =>
      var a := RowOf(rows.agents, NodeOfAgent, n);
      AgentHangs(rows, a);
    case TaskNode(_) =>
      var t := RowOf(rows.tasks, NodeOfTask, n);
      TaskHangs(rows, t);
    case ContainerNode(_) =>
      var c := RowOf(rows.containers, NodeOfContainer, n);
    case CardNode(_) =>
      var c := RowOf(rows.cards, NodeOfCard, n);
  }

  lemma GraphIsAnchored(rows: Rows)
    ensures Anchored(Nodes(rows), Edges(rows), AuditNode(rows.auditRun))
  {
    forall n | n in Nodes(rows) && IsAnchoredKind(n.kind)
      ensures Reachable(Edges(rows), AuditNode(rows.auditRun), n.id)
    {
      NodeIsAnchored(rows, n);
    }
  }

  // ---------------------------------------------------------------- the whole graph

  datatype Graph = Graph(nodes: seq<Node>, edges: seq<Edge>, summary: Summary)

  /** The graph has exactly the nodes and edges its rows contribute, without duplicates and dangling edges;
      every step, agent and task node can be reached from the audit run; and the summary counts its nodes. */
  method BuildExecutionGraph(rows: Rows) returns (graph: Graph)
    ensures graph.nodes == Nodes(rows) && graph.edges == Edges(rows)
    ensures DistinctIds(graph.nodes) && DistinctEdges(graph.edges) && NoneDangling(graph.nodes, graph.edges)
    ensures Anchored(graph.nodes, graph.edges, AuditNode(rows.auditRun))
    ensures Tallies(graph.summary.byKind, graph.nodes, KindOf) && Tallies(graph.summary.byStatus, graph.nodes, StatusOf)
    ensures Total(graph.summary.byKind) == Total(graph.summary.byStatus) == graph.summary.nodeCount == |graph.nodes|
    ensures graph.summary.completed + graph.summary.unfinished + graph.summary.failed <= graph.summary.nodeCount
  {
    var builder := new GraphBuilder(rows);
    builder.Populate(rows);
    DedupedKeys(AllNodes(rows), NodeId);
    DedupedKeys(AllEdges(rows), Itself);
    GraphIsAnchored(rows);
    var summary := ExecutionGraphSummary(builder.nodes);
    graph := Graph(builder.nodes, builder.edges, summary);
  }

  /** Every row has its node, every step, agent and task hangs off the audit run, and every started task,
      container and whiteboard edge whose ends are loaded has its edge. */
  lemma GraphShowsRows(rows: Rows)
    ensures RootNode(rows) in Nodes(rows)
    ensures forall step :: Occurs(Marks(rows.events), step) ==>
      Hangs(Nodes(rows), Edges(rows), AuditNode(rows.auditRun), StepNode(step))
    ensures forall a :: a in rows.agents ==> Hangs(Nodes(rows), Edges(rows), AuditNode(rows.auditRun), AgentNode(a.id))
    ensures forall t :: t in rows.tasks ==> Hangs(Nodes(rows), Edges(rows), AuditNode(rows.auditRun), TaskNode(t.id))
    ensures forall c :: c in rows.containers ==> ContainerNode(c.id) in Ids(Nodes(rows))
    ensures forall c :: c in rows.cards ==> CardNode(c.id) in Ids(Nodes(rows))
    ensures forall e :: e in rows.cardEdges && IsLoaded(rows.cards, e.source) && IsLoaded(rows.cards, e.target) ==>
      EdgeOf(e) in Edges(rows)
    ensures forall t :: t in rows.tasks && t.agent != "" && AgentLoaded(rows.agents, t.agent) ==>
      Edge(TaskNode(t.id), AgentNode(t.agent), "started") in Edges(rows)
    ensures forall c :: c in rows.containers && c.agent != "" && AgentLoaded(rows.agents, c.agent) ==>
      Edge(AgentNode(c.agent), ContainerNode(c.id), "container") in Edges(rows)
  {
    var root, steps := AuditNode(rows.auditRun), Steps(Marks(rows.events));
    NodesStandForRows(rows, RootNode(rows));
    forall step | Occurs(Marks(rows.events), step)
      ensures Hangs(Nodes(rows), Edges(rows), root, StepNode(step))
    {
      StepHangs(rows, step);
    }
    forall a | a in rows.agents ensures Hangs(Nodes(rows), Edges(rows), root, AgentNode(a.id)) { AgentHangs(rows, a); }
    forall t | t in rows.tasks ensures Hangs(Nodes(rows), Edges(rows), root, TaskNode(t.id)) { TaskHangs(rows, t); }
    forall c | c in rows.containers
      ensures ContainerNode(c.id) in Ids(Nodes(rows))
    {
      RowHasNode(rows, rows.containers, NodeOfContainer, c);
    }
    forall c | c in rows.cards
      ensures CardNode(c.id) in Ids(Nodes(rows))
    {
      RowHasNode(rows, rows.cards, NodeOfCard, c);
    }
    forall e | e in rows.cardEdges && IsLoaded(rows.cards, e.source) && IsLoaded(rows.cards, e.target)
      ensures EdgeOf(e) in Edges(rows)
    {
      assert EdgeOf(e) in LinkEdges(rows.cards)(e);
      EdgesLinkRows(rows, EdgeOf(e));
    }
    forall t | t in rows.tasks && t.agent != "" && AgentLoaded(rows.agents, t.agent)
      ensures Edge(TaskNode(t.id), AgentNode(t.agent), "started") in Edges(rows)
    {
      assert Edge(TaskNode(t.id), AgentNode(t.agent), "started") in TaskEdges(root, steps, rows.agents)(t);
      EdgesLinkRows(rows, Edge(TaskNode(t.id), AgentNode(t.agent), "started"));
    }
    forall c | c in rows.containers && c.agent != "" && AgentLoaded(rows.agents, c.agent)
      ensures Edge(AgentNode(c.agent), ContainerNode(c.id), "container") in Edges(rows)
    {
      assert Edge(AgentNode(c.agent), ContainerNode(c.id), "container") in ContainerEdges(root, rows.agents)(c);
      EdgesLinkRows(rows, Edge(AgentNode(c.agent), ContainerNode(c.id), "container"));
    }
  }

  // ---------------------------------------------------------------- the summary

  /** A counter dictionary, in insertion order. */
  datatype Tally = Tally(key: string, count: nat)

  datatype Summary = Summary(
    nodeCount: nat, byKind: seq<Tally>, byStatus: seq<Tally>, completed: nat, unfinished: nat, failed: nat)

  function Bump(counts: seq<Tally>, key: string): seq<Tally> {
    if counts == [] then [Tally(key, 1)]
    else if counts[0].key == key then [Tally(key, counts[0].count + 1)] + counts[1..]
    else [counts[0]] + Bump(counts[1..], key)
  }

  /** The sum of the counts whose key satisfies p. */
  function SumIf(counts: seq<Tally>, p: string -> bool): nat {
    if counts == [] then 0 else (if p(counts[0].key) then counts[0].count else 0) + SumIf(counts[1..], p)
  }

  predicate AnyKey(key: string) { true }

  function Total(counts: seq<Tally>): nat { SumIf(counts, AnyKey) }

  /** How many nodes have a key that satisfies p. */
  function CountBy(nodes: seq<Node>, key: Node -> string, p: string -> bool): nat {
    if nodes == [] then 0
    else CountBy(nodes[..|nodes| - 1], key, p) + (if p(key(nodes[|nodes| - 1])) then 1 else 0)
  }

  function OrUnknown(text: string): string { if text != "" then text else "unknown" }

  function KindOf(n: Node): string { OrUnknown(n.kind) }

  function StatusOf(n: Node): string { OrUnknown(n.status) }

  predicate IsCompleted(status: string) { status == "completed" || status == "confirmed" || status == "closed" }

  predicate IsUnfinished(status: string) {
    || status == "created" || status == "starting" || status == "queued" || status == "running" || status == "open"
    || status == "needs_agent" || status == "agent_queued"
  }

  predicate IsFailed(status: string) { status == "failed" || status == "cancelled" }

  lemma {:induction false} BumpAddsOne(counts: seq<Tally>, key: string, p: string -> bool)
    ensures SumIf(Bump(counts, key), p) == SumIf(counts, p) + (if p(key) then 1 else 0)
  {
    if counts != [] && counts[0].key != key {
      BumpAddsOne(counts[1..], key, p);
    }
  }

  /** counts tallies the keys of nodes: every group of keys adds up to the nodes that have one of them. */
  ghost predicate Tallies(counts: seq<Tally>, nodes: seq<Node>, key: Node -> string) {
    forall p: string -> bool :: SumIf(counts, p) == CountBy(nodes, key, p)
  }

  lemma TallyNext(counts: seq<Tally>, nodes: seq<Node>, k: nat, key: Node -> string)
    requires k < |nodes| && Tallies(counts, nodes[..k], key)
    ensures Tallies(Bump(counts, key(nodes[k])), nodes[..k + 1], key)
  {
    assert nodes[..k + 1][..k] == nodes[..k];
    forall p: string -> bool ensures SumIf(Bump(counts, key(nodes[k])), p) == CountBy(nodes[..k + 1], key, p) {
      BumpAddsOne(counts, key(nodes[k]), p);
    }
  }

  lemma {:induction false} StatusGroups(nodes: seq<Node>)
    ensures CountBy(nodes, StatusOf, IsCompleted) + CountBy(nodes, StatusOf, IsUnfinished)
      + CountBy(nodes, StatusOf, IsFailed) <= |nodes|
    ensures CountBy(nodes, StatusOf, AnyKey) == CountBy(nodes, KindOf, AnyKey) == |nodes|
  {
    if nodes != [] {
      StatusGroups(nodes[..|nodes| - 1]);
    }
  }

  method ExecutionGraphSummary(nodes: seq<Node>) returns (summary: Summary)
    ensures summary.nodeCount == |nodes|
    ensures Tallies(summary.byKind, nodes, KindOf) && Tallies(summary.byStatus, nodes, StatusOf)
    ensures Total(summary.byKind) == Total(summary.byStatus) == |nodes|
    ensures summary.completed == CountBy(nodes, StatusOf, IsCompleted)
    ensures summary.unfinished == CountBy(nodes, StatusOf, IsUnfinished)
    ensures summary.failed == CountBy(nodes, StatusOf, IsFailed)
    ensures summary.completed + summary.unfinished + summary.failed <= |nodes|
  {
    var byKind: seq<Tally>, byStatus: seq<Tally> := [], [];
    for k := 0 to |nodes|
      invariant Tallies(byKind, nodes[..k], KindOf) && Tallies(byStatus, nodes[..k], StatusOf)
    {
      TallyNext(byKind, nodes, k, KindOf);
      TallyNext(byStatus, nodes, k, StatusOf);
      byKind := Bump(byKind, KindOf(nodes[k]));
      byStatus := Bump(byStatus, StatusOf(nodes[k]));
    }
    assert nodes[..|nodes|] == nodes;
    StatusGroups(nodes);
    summary := Summary(|nodes|, byKind, byStatus, SumIf(byStatus, IsCompleted), SumIf(byStatus, IsUnfinished),
      SumIf(byStatus, IsFailed));
  }
}
