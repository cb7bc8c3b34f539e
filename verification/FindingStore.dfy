/** Findings of audit runs and the whiteboard cards and tool results they come from. */
module FindingStore {
  import opened Prelude
  import opened Text
  import opened FindingIdentity

  datatype Finding = Finding(id: nat, run: string, identity: Identity, status: string)

  datatype Card = Card(
    id: nat, run: string, cardType: string, title: string, author: string, filePath: Option<string>,
    lineStart: Option<int>, metadataSource: Value, metadataRule: Value, finding: Option<nat>)

  datatype Evidence = Evidence(finding: nat, kind: string)

  /** One entry of a tool's result list. */
  datatype Item =
    | NotADict
    | Item(title: Value, ruleId: Value, source: Value, filePath: Value, lineStart: Value, status: Value)

  /** The tables, rows in creation order. Identifiers are fresh; a counter stands for their generator. */
  datatype Tables = Tables(findings: seq<Finding>, cards: seq<Card>, evidence: seq<Evidence>, nextId: nat)

  predicate IsCandidate(card: Card, run: string) {
    card.run == run && (card.cardType == "candidate_vulnerability" || card.cardType == "candidate-vulnerability")
  }

  function CardIdentity(card: Card): Identity {
    var source := Truncate(Printed(Or(card.metadataSource, Or(Str(card.author), Str("whiteboard")))), 64);
    var rule := Printed(Or(card.metadataRule, Str("")));
    FindingIdentity.FindingIdentity(Str(card.title), Str(source), TextValue(card.filePath),
      IntValue(card.lineStart), Str(rule))
  }

  function ItemIdentity(item: Item, tool: string): Identity
    requires item.Item?
  {
    var title := Truncate(Printed(Or(Or(item.title, item.ruleId), Str(tool + " finding"))), 255);
    FindingIdentity.FindingIdentity(Str(title), Or(item.source, Str(tool)), item.filePath, item.lineStart, item.ruleId)
  }

  // ---------------------------------------------------------------- look-up

  predicate Matches(f: Finding, run: string, identity: Identity) { f.run == run && f.identity == identity }

  predicate Known(findings: seq<Finding>, run: string, identity: Identity) {
    exists i :: 0 <= i < |findings| && Matches(findings[i], run, identity)
  }

  /** A finding of the run with this identity, if there is one. */
  function FindExisting(findings: seq<Finding>, run: string, identity: Identity): (found: Option<Finding>)
    ensures found.Some? ==> found.value in findings && Matches(found.value, run, identity)
    ensures found == None <==> !Known(findings, run, identity)
  {
    if findings == [] then None
    else
      var last := findings[|findings| - 1];
      var earlier := FindExisting(findings[..|findings| - 1], run, identity);
      assert forall i :: 0 <= i < |findings| - 1 ==> findings[..|findings| - 1][i] == findings[i];
      assert earlier.Some? ==> earlier.value in findings;
      if earlier.Some? then earlier else if Matches(last, run, identity) then Some(last) else None
  }

  /** No audit run has two findings with the same identity, identifiers are distinct, and every stored
      identity is canonical, hence a fixed point of its own computation. */
  ghost predicate UniqueIdentities(findings: seq<Finding>, nextId: nat) {
    && (forall i, j :: 0 <= i < j < |findings| && findings[i].run == findings[j].run ==>
      findings[i].identity != findings[j].identity)
    && (forall i, j :: 0 <= i < j < |findings| ==> findings[i].id != findings[j].id)
    && (forall i :: 0 <= i < |findings| ==> findings[i].id < nextId && Canonical(findings[i].identity))
  }


  /** With unique identities, whichever match a look-up returns is the same one. */
  lemma MatchIsUnique(findings: seq<Finding>, nextId: nat, f: Finding, g: Finding, run: string, identity: Identity)
    requires UniqueIdentities(findings, nextId)
    requires f in findings && g in findings && Matches(f, run, identity) && Matches(g, run, identity)
    ensures f == g
  {
  }

  function Create(t: Tables, run: string, identity: Identity, status: string, kind: string): Tables {
    t.(findings := t.findings + [Finding(t.nextId, run, identity, status)],
       evidence := t.evidence + [Evidence(t.nextId, kind)],
       nextId := t.nextId + 1)
  }

  // ---------------------------------------------------------------- tool ingest

  function IngestItem(t: Tables, run: string, tool: string, kind: string, item: Item): Tables {
    if item.NotADict? || Known(t.findings, run, ItemIdentity(item, tool)) then t
    else Create(t, run, ItemIdentity(item, tool), Printed(Or(item.status, Str("candidate"))), kind)
  }

  function Ingested(t: Tables, run: string, tool: string, kind: string, items: seq<Item>): Tables {
    if items == [] then t
    else IngestItem(Ingested(t, run, tool, kind, items[..|items| - 1]), run, tool, kind, items[|items| - 1])
  }

  // ---------------------------------------------------------------- whiteboard sync

  /** Link one card: to an existing finding with its identity, or to a new one. */
  function SyncCard(t: Tables, run: string, index: nat): Tables
    requires index < |t.cards|
  {
    var card := t.cards[index];
    if !IsCandidate(card, run) || card.finding.Some? then t
    else
      var existing := FindExisting(t.findings, run, CardIdentity(card));
      if existing.Some? then t.(cards := t.cards[index := card.(finding := Some(existing.value.id))])
      else
        var t' := Create(t, run, CardIdentity(card), "candidate", "whiteboard-card");
        t'.(cards := t.cards[index := card.(finding := Some(t.nextId))])
  }

  /** The tables after the first n cards have been gone through. */
  function Synced(t: Tables, run: string, n: nat): (t': Tables)
    requires n <= |t.cards|
    ensures |t'.cards| == |t.cards|
  {
    if n == 0 then t else SyncCard(Synced(t, run, n - 1), run, n - 1)
  }

  function CountCandidates(cards: seq<Card>, run: string): nat {
    Count(cards, (card: Card) => IsCandidate(card, run))
  }

  // ---------------------------------------------------------------- the store

  class FindingStore {
    var findings: seq<Finding>
    var cards: seq<Card>
    var evidence: seq<Evidence>
    var nextId: nat

    function State(): Tables
      reads this
    {
      Tables(findings, cards, evidence, nextId)
    }

    constructor (initialCards: seq<Card>)
      ensures State() == Tables([], initialCards, [], 0) && UniqueIdentities(findings, nextId)
    {
      findings, cards, evidence, nextId := [], initialCards, [], 0;
    }

    method IngestToolFindings(run: string, tool: string, kind: string, items: seq<Item>) returns (created: nat)
      modifies this
      ensures State() == Ingested(old(State()), run, tool, kind, items)
      ensures created == |findings| - |old(findings)|
    {
      created := 0;
      for k := 0 to |items|
        invariant State() == Ingested(old(State()), run, tool, kind, items[..k])
        invariant created == |findings| - |old(findings)|
      {
        assert items[..k + 1][..k] == items[..k];
        var item := items[k];
        if item.NotADict? {
          continue;
        }
        var identity := ItemIdentity(item, tool);
        if FindExisting(findings, run, identity).Some? {
          continue;
        }
        findings := findings + [Finding(nextId, run, identity, Printed(Or(item.status, Str("candidate"))))];
        evidence := evidence + [Evidence(nextId, kind)];
        nextId := nextId + 1;
        created := created + 1;
      }
      assert items[..|items|] == items;
    }

    /** One turn of the sync loop, on a candidate card without a finding. */
    method LinkCard(run: string, k: nat) returns (isNew: bool)
      requires k < |cards| && IsCandidate(cards[k], run) && cards[k].finding == None
      modifies this
      ensures State() == SyncCard(old(State()), run, k)
      ensures |findings| == |old(findings)| + (if isNew then 1 else 0)
      ensures |cards| == |old(cards)| && forall j :: k < j < |cards| ==> cards[j] == old(cards)[j]
    {
      var card := cards[k];
      var identity := CardIdentity(card);
      var existing := FindExisting(findings, run, identity);
      if existing.Some? {
        cards := cards[k := card.(finding := Some(existing.value.id))];
        return false;
      }
      findings := findings + [Finding(nextId, run, identity, "candidate")];
      evidence := evidence + [Evidence(nextId, "whiteboard-card")];
      cards := cards[k := card.(finding := Some(nextId))];
      nextId := nextId + 1;
      isNew := true;
    }

    method SyncWhiteboardCandidateFindings(run: string) returns (created: nat, linked: nat)
      modifies this
      ensures State() == Synced(old(State()), run, |old(cards)|)
      ensures created == |findings| - |old(findings)|
      ensures created + linked == CountCandidates(old(cards), run)
    {
      created, linked := 0, 0;
      ghost var all := cards;
      for k := 0 to |cards|
        invariant |cards| == |all| && forall j :: k <= j < |all| ==> cards[j] == all[j]
        invariant State() == Synced(old(State()), run, k)
        invariant created == |findings| - |old(findings)|
        invariant created + linked == CountCandidates(all[..k], run)
      {
        CandidatesSoFar(all, run, k);
        if !IsCandidate(cards[k], run) {
          continue;
        }
        if cards[k].finding.Some? {
          linked := linked + 1;
          continue;
        }
        var isNew := LinkCard(run, k);
        if isNew {
          created := created + 1;
        } else {
          linked := linked + 1;
        }
      }
      assert all[..|all|] == all;
    }
  }

  lemma CandidatesSoFar(cards: seq<Card>, run: string, k: nat)
    requires k < |cards|
    ensures CountCandidates(cards[..k + 1], run) ==
      CountCandidates(cards[..k], run) + (if IsCandidate(cards[k], run) then 1 else 0)
  {
    assert cards[..k + 1] == cards[..k] + [cards[k]];
    CountAppend(cards[..k], cards[k], (card: Card) => IsCandidate(card, run));
  }

  // ---------------------------------------------------------------- uniqueness over every run

  lemma CreateKeepsUnique(t: Tables, run: string, identity: Identity, status: string, kind: string)
    requires UniqueIdentities(t.findings, t.nextId) && !Known(t.findings, run, identity) && Canonical(identity)
    ensures UniqueIdentities(Create(t, run, identity, status, kind).findings, t.nextId + 1)
  {
  }

  lemma {:induction false} IngestKeepsUnique(t: Tables, run: string, tool: string, kind: string, items: seq<Item>)
    requires UniqueIdentities(t.findings, t.nextId)
    ensures var t' := Ingested(t, run, tool, kind, items);
      UniqueIdentities(t'.findings, t'.nextId) && t.findings <= t'.findings && t'.cards == t.cards
  {
    if items != [] {
      IngestKeepsUnique(t, run, tool, kind, items[..|items| - 1]);
      var item := items[|items| - 1];
      var before := Ingested(t, run, tool, kind, items[..|items| - 1]);
      if item.Item? && !Known(before.findings, run, ItemIdentity(item, tool)) {
        CreateKeepsUnique(before, run, ItemIdentity(item, tool), Printed(Or(item.status, Str("candidate"))), kind);
      }
    }
  }

  /** What going through the first n cards keeps and establishes. */
  ghost predicate SyncInvariant(t: Tables, t': Tables, run: string, n: nat)
    requires n <= |t.cards| == |t'.cards|
  {
    && UniqueIdentities(t'.findings, t'.nextId)
    && t.findings <= t'.findings && t.nextId <= t'.nextId
    && (forall i :: |t.findings| <= i < |t'.findings| ==>
      t'.findings[i].run == run && t'.findings[i].status == "candidate")
    && (forall j :: 0 <= j < |t.cards| ==> t'.cards[j] == t.cards[j].(finding := t'.cards[j].finding))
    && (forall j :: 0 <= j < |t.cards| && !NewlyLinked(t, run, n, j) ==> t'.cards[j] == t.cards[j])
    && (forall j :: 0 <= j < |t.cards| && NewlyLinked(t, run, n, j) ==> LinkedToIdentity(t', run, j))
  }

  predicate NewlyLinked(t: Tables, run: string, n: nat, j: nat)
    requires j < |t.cards|
  {
    j < n && WasUnlinked(t, run, j)
  }

  predicate WasUnlinked(t: Tables, run: string, j: nat)
    requires j < |t.cards|
  {
    IsCandidate(t.cards[j], run) && t.cards[j].finding == None
  }

  /** Card j is linked to a finding of the run that has the card's identity. */
  predicate LinkedToIdentity(t: Tables, run: string, j: nat)
    requires j < |t.cards|
  {
    exists i :: 0 <= i < |t.findings| && t.cards[j].finding == Some(t.findings[i].id)
      && Matches(t.findings[i], run, CardIdentity(t.cards[j]))
  }

  /** Linking card n to finding i, which has the card's identity and may have just been created. */
  lemma LinkStep(t: Tables, t': Tables, t'': Tables, run: string, n: nat, i: nat)
    requires n < |t.cards| == |t'.cards| && SyncInvariant(t, t', run, n) && WasUnlinked(t, run, n)
    requires i < |t''.findings| && Matches(t''.findings[i], run, CardIdentity(t.cards[n]))
    requires t''.cards == t'.cards[n := t'.cards[n].(finding := Some(t''.findings[i].id))]
    requires UniqueIdentities(t''.findings, t''.nextId) && t'.findings <= t''.findings && t'.nextId <= t''.nextId
    requires forall k :: |t'.findings| <= k < |t''.findings| ==>
      t''.findings[k].run == run && t''.findings[k].status == "candidate"
    ensures SyncInvariant(t, t'', run, n + 1)
  {
    forall j | 0 <= j < |t.cards| && NewlyLinked(t, run, n + 1, j) ensures LinkedToIdentity(t'', run, j) {
      if j == n {
        assert CardIdentity(t''.cards[n]) == CardIdentity(t.cards[n]);
        assert t''.cards[n].finding == Some(t''.findings[i].id);
      } else {
        assert NewlyLinked(t, run, n, j) && LinkedToIdentity(t', run, j);
        var k :| 0 <= k < |t'.findings| && t'.cards[j].finding == Some(t'.findings[k].id)
          && Matches(t'.findings[k], run, CardIdentity(t'.cards[j]));
        assert t''.findings[k] == t'.findings[k] && t''.cards[j] == t'.cards[j];
      }
    }
  }

  lemma SyncCardStep(t: Tables, t': Tables, run: string, n: nat)
    requires n < |t.cards| == |t'.cards| && SyncInvariant(t, t', run, n)
    ensures SyncInvariant(t, SyncCard(t', run, n), run, n + 1)
  {
    assert !NewlyLinked(t, run, n, n);
    var card := t'.cards[n];
    assert card == t.cards[n];
    var t'' := SyncCard(t', run, n);
    if !WasUnlinked(t, run, n) {
      assert t'' == t';
      assert forall j :: 0 <= j < |t.cards| ==> (NewlyLinked(t, run, n + 1, j) <==> NewlyLinked(t, run, n, j));
    } else {
      var existing := FindExisting(t'.findings, run, CardIdentity(card));
      if existing == None {
        CreateKeepsUnique(t', run, CardIdentity(card), "candidate", "whiteboard-card");
        LinkStep(t, t', t'', run, n, |t'.findings|);
      } else {
        var i :| 0 <= i < |t'.findings| && t'.findings[i] == existing.value;
        LinkStep(t, t', t'', run, n, i);
      }
    }
  }

  lemma NothingSynced(t: Tables, t': Tables, run: string)
    requires UniqueIdentities(t.findings, t.nextId) && t' == t
    ensures SyncInvariant(t, t', run, 0)
  {
    assert forall j :: 0 <= j < |t.cards| ==> t.cards[j] == t.cards[j].(finding := t.cards[j].finding);
  }

  /** Going through the first n cards keeps identities unique and links exactly the unlinked candidates
      among them. */
  lemma {:induction false} SyncKeepsInvariant(t: Tables, run: string, n: nat)
    requires UniqueIdentities(t.findings, t.nextId) && n <= |t.cards|
    ensures SyncInvariant(t, Synced(t, run, n), run, n)
  {
    if n == 0 {
      NothingSynced(t, Synced(t, run, n), run);
    } else {
      SyncKeepsInvariant(t, run, n - 1);
      SyncStepTo(t, Synced(t, run, n - 1), Synced(t, run, n), run, n);
    }
  }

  lemma SyncStepTo(t: Tables, t': Tables, t'': Tables, run: string, n: nat)
    requires 0 < n <= |t.cards| == |t'.cards| && SyncInvariant(t, t', run, n - 1) && t'' == SyncCard(t', run, n - 1)
    ensures |t''.cards| == |t.cards| && SyncInvariant(t, t'', run, n)
  {
    SyncCardStep(t, t', run, n - 1);
  }

  /** After a sync every candidate card is linked, cards that were linked keep their finding, and two
      cards that were not share one finding exactly when their identities are equal. */
  lemma SyncLinksByIdentity(t: Tables, run: string)
    requires UniqueIdentities(t.findings, t.nextId)
    ensures var t' := Synced(t, run, |t.cards|);
      && (forall j :: 0 <= j < |t.cards| && IsCandidate(t.cards[j], run) ==> t'.cards[j].finding.Some?)
      && (forall j :: 0 <= j < |t.cards| && t.cards[j].finding.Some? ==> t'.cards[j] == t.cards[j])
      && (forall j, k | 0 <= j < |t.cards| && 0 <= k < |t.cards| && WasUnlinked(t, run, j) && WasUnlinked(t, run, k) ::
            t'.cards[j].finding == t'.cards[k].finding <==> CardIdentity(t.cards[j]) == CardIdentity(t.cards[k]))
  {
    var n := |t.cards|;
    var t' := Synced(t, run, n);
    SyncKeepsInvariant(t, run, n);
    forall j | 0 <= j < n && WasUnlinked(t, run, j)
      ensures LinkedToIdentity(t', run, j) && CardIdentity(t'.cards[j]) == CardIdentity(t.cards[j])
    {
      assert NewlyLinked(t, run, n, j);
    }
    forall j, k | 0 <= j < n && 0 <= k < n && WasUnlinked(t, run, j) && WasUnlinked(t, run, k)
      ensures t'.cards[j].finding == t'.cards[k].finding <==> CardIdentity(t.cards[j]) == CardIdentity(t.cards[k])
    {
      SharedByIdentity(t', run, j, k);
    }
    forall j | 0 <= j < n && t.cards[j].finding.Some? ensures t'.cards[j] == t.cards[j] {
      assert !NewlyLinked(t, run, n, j);
    }
  }

  lemma SharedByIdentity(t: Tables, run: string, j: nat, k: nat)
    requires UniqueIdentities(t.findings, t.nextId) && j < |t.cards| && k < |t.cards|
    requires LinkedToIdentity(t, run, j) && LinkedToIdentity(t, run, k)
    ensures t.cards[j].finding == t.cards[k].finding <==> CardIdentity(t.cards[j]) == CardIdentity(t.cards[k])
  {
    var a :| 0 <= a < |t.findings| && t.cards[j].finding == Some(t.findings[a].id)
      && Matches(t.findings[a], run, CardIdentity(t.cards[j]));
    var b :| 0 <= b < |t.findings| && t.cards[k].finding == Some(t.findings[b].id)
      && Matches(t.findings[b], run, CardIdentity(t.cards[k]));
  }

  lemma {:induction false} SyncOfLinkedIsIdentity(t: Tables, run: string, n: nat)
    requires n <= |t.cards|
    requires forall j :: 0 <= j < |t.cards| && IsCandidate(t.cards[j], run) ==> t.cards[j].finding.Some?
    ensures Synced(t, run, n) == t
  {
    if n > 0 {
      SyncOfLinkedIsIdentity(t, run, n - 1);
    }
  }

  /** A second sync changes nothing at all. */
  lemma SyncIsIdempotent(t: Tables, run: string)
    requires UniqueIdentities(t.findings, t.nextId)
    ensures var t' := Synced(t, run, |t.cards|); Synced(t', run, |t'.cards|) == t'
  {
    var t' := Synced(t, run, |t.cards|);
    SyncKeepsInvariant(t, run, |t.cards|);
    SyncLinksByIdentity(t, run);
    SyncOfLinkedIsIdentity(t', run, |t'.cards|);
  }

  /** Ingesting the same tool result twice adds nothing the second time. */
  lemma {:induction false} IngestKnows(t: Tables, run: string, tool: string, kind: string, items: seq<Item>, k: nat)
    requires k < |items| && items[k].Item?
    ensures Known(Ingested(t, run, tool, kind, items).findings, run, ItemIdentity(items[k], tool))
  {
    var n := |items| - 1;
    var before := Ingested(t, run, tool, kind, items[..n]);
    var after := Ingested(t, run, tool, kind, items);
    if k < n {
      assert items[..n][k] == items[k];
      IngestKnows(t, run, tool, kind, items[..n], k);
      var i :| 0 <= i < |before.findings| && Matches(before.findings[i], run, ItemIdentity(items[k], tool));
      assert after.findings[i] == before.findings[i];
    } else if !Known(before.findings, run, ItemIdentity(items[k], tool)) {
      assert Matches(after.findings[|before.findings|], run, ItemIdentity(items[k], tool));
    }
  }

  lemma {:induction false} IngestOfKnownIsIdentity(t: Tables, run: string, tool: string, kind: string, items: seq<Item>)
    requires forall k :: 0 <= k < |items| && items[k].Item? ==> Known(t.findings, run, ItemIdentity(items[k], tool))
    ensures Ingested(t, run, tool, kind, items) == t
  {
    if items != [] {
      IngestOfKnownIsIdentity(t, run, tool, kind, items[..|items| - 1]);
    }
  }

  lemma IngestIsIdempotent(t: Tables, run: string, tool: string, kind: string, items: seq<Item>)
    ensures var t' := Ingested(t, run, tool, kind, items); Ingested(t', run, tool, kind, items) == t'
  {
    var t' := Ingested(t, run, tool, kind, items);
    forall k | 0 <= k < |items| && items[k].Item? ensures Known(t'.findings, run, ItemIdentity(items[k], tool)) {
      IngestKnows(t, run, tool, kind, items, k);
    }
    IngestOfKnownIsIdentity(t', run, tool, kind, items);
  }

  datatype Operation = Ingest(run: string, tool: string, kind: string, items: seq<Item>) | Sync(run: string)

  function Perform(t: Tables, op: Operation): Tables {
    match op
    case Ingest(run, tool, kind, items) => Ingested(t, run, tool, kind, items)
    case Sync(run) => Synced(t, run, |t.cards|)
  }

  function PerformAll(t: Tables, operations: seq<Operation>): Tables
    decreases operations
  {
    if operations == [] then t else PerformAll(Perform(t, operations[0]), operations[1..])
  }

  /** The tool item that repeats a stored finding's own columns. */
  function Restated(f: Finding): Item {
    Item(Str(f.identity.title), TextValue(f.identity.ruleId), Str(f.identity.source), TextValue(f.identity.filePath),
         IntValue(f.identity.lineStart), Str(f.status))
  }

  /** Ingesting any stored findings again, whatever tool reports them, creates nothing. */
  lemma StoredFindingsAreRecognised(t: Tables, run: string, tool: string, kind: string, again: seq<Finding>)
    requires UniqueIdentities(t.findings, t.nextId)
    requires forall k :: 0 <= k < |again| ==> again[k] in t.findings && again[k].run == run
    ensures Ingested(t, run, tool, kind, seq(|again|, k requires 0 <= k < |again| => Restated(again[k]))) == t
  {
    forall k | 0 <= k < |again| ensures Known(t.findings, run, ItemIdentity(Restated(again[k]), tool)) {
      assert again[k] in t.findings && again[k].run == run;
      var i :| 0 <= i < |t.findings| && t.findings[i] == again[k];
      IdentityIsFixedPoint(Null, Null, Null, Null, Null, again[k].identity);
      assert ItemIdentity(Restated(again[k]), tool) == again[k].identity;
      assert Matches(t.findings[i], run, again[k].identity);
    }
    IngestOfKnownIsIdentity(t, run, tool, kind, seq(|again|, k requires 0 <= k < |again| => Restated(again[k])));
  }

  /** Any sequence of tool ingests and whiteboard syncs keeps identities unique within each audit run,
      never changes a finding that exists, and only ever stores canonical identities. */
  lemma {:induction false} PipelinesKeepIdentitiesUnique(t: Tables, operations: seq<Operation>)
    requires UniqueIdentities(t.findings, t.nextId)
    ensures var t' := PerformAll(t, operations); UniqueIdentities(t'.findings, t'.nextId) && t.findings <= t'.findings
    decreases operations
  {
    if operations != [] {
      match operations[0] {
        case Ingest(run, tool, kind, items) => IngestKeepsUnique(t, run, tool, kind, items);
        case Sync(run) => SyncKeepsInvariant(t, run, |t.cards|);
      }
      PipelinesKeepIdentitiesUnique(Perform(t, operations[0]), operations[1..]);
    }
  }
}
