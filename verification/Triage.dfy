/** Triage of candidate whiteboard cards, and the finding filters that read its decisions. */
module Triage {
  import opened Prelude
  import opened Text

  /** An empty finding stands for an unlinked card. */
  datatype Card = Card(
    id: string, run: string, cardType: string, title: string, content: string, filePath: string, category: string,
    impact: string, severity: string, risk: string, finding: string)

  datatype Decision = DeepDive | EvidenceOnly | AppendixOnly | NeedsHuman

  datatype Row = Row(
    run: string, card: string, finding: string, status: Decision, deepDiveAllowed: bool, pocAllowed: bool)

  datatype Weight = Weight(pattern: string, points: nat)

  const HIGH_VALUE: seq<Weight> := [
    Weight("auth bypass", 45), Weight("authentication bypass", 45), Weight("rbac bypass", 40), Weight("idor", 40),
    Weight("ownership", 25), Weight("missing authorization", 35), Weight("sql injection", 45), Weight("raw sql", 25),
    Weight("arbitrary file write", 45), Weight("file upload rce", 50), Weight("webshell", 50), Weight("ssrf", 30),
    Weight("deserialization", 35), Weight("unserialize", 35), Weight("jwt forgery", 40), Weight("jwt secret", 25),
    Weight("mass assignment", 35), Weight("remote sql execution", 50), Weight("dynamic table", 25)]

  const LOW_VALUE: seq<string> := [
    "ssl/tls verification", "ssl verification", "tls verification", "weak password", "double md5", "md5",
    "cookie security", "httponly", "samesite", "csrf", "debug mode", "default database credentials",
    "hardcoded default", "rate limiting"]

  const ATTACK_CHAIN: seq<string> := [
    "attack chain", "privilege escalation", "account takeover", "auth bypass", "rce", "remote code execution",
    "data exfiltration", "source-sink"]

  // ---------------------------------------------------------------- scoring

  predicate AnyOccurs(text: string, patterns: seq<string>) {
    exists k :: 0 <= k < |patterns| && Contains(text, patterns[k])
  }

  /** The points of the table's patterns that occur in the text. */
  function Points(text: string, table: seq<Weight>): nat {
    if table == [] then 0
    else
      var last := table[|table| - 1];
      Points(text, table[..|table| - 1]) + (if Contains(text, last.pattern) then last.points else 0)
  }

  function SeverityPoints(severity: string): nat {
    if severity == "critical" || severity == "high" then 15 else if severity == "medium" then 5 else 0
  }

  function Score(text: string, severity: string): int {
    var low := AnyOccurs(text, LOW_VALUE);
    Points(text, HIGH_VALUE) - (if low then 40 else 0) + SeverityPoints(severity)
      + (if low && AnyOccurs(text, ATTACK_CHAIN) then 50 else 0)
  }

  function Classify(score: int, low: bool): Decision {
    if score >= 55 then DeepDive else if score >= 30 then EvidenceOnly else if low then AppendixOnly else NeedsHuman
  }

  function CardText(card: Card): string {
    Lower(card.title + " " + card.content + " " + card.filePath + " " + card.category + " " + card.impact)
  }

  function CardSeverity(card: Card): string { Lower(if card.severity != "" then card.severity else card.risk) }

  function CardScore(card: Card): int { Score(CardText(card), CardSeverity(card)) }

  function CardDecision(card: Card): Decision { Classify(CardScore(card), AnyOccurs(CardText(card), LOW_VALUE)) }

  method SwarmCandidateValueDecision(card: Card) returns (decision: Decision, score: int)
    ensures score == CardScore(card) && decision == CardDecision(card)
    ensures decision == DeepDive <==> score >= 55
  {
    var text := CardText(card);
    score := 0;
    for k := 0 to |HIGH_VALUE|
      invariant score == Points(text, HIGH_VALUE[..k])
    {
      assert HIGH_VALUE[..k + 1][..k] == HIGH_VALUE[..k];
      if Contains(text, HIGH_VALUE[k].pattern) {
        score := score + HIGH_VALUE[k].points;
      }
    }
    assert HIGH_VALUE[..|HIGH_VALUE|] == HIGH_VALUE;
    var lowHits := AnyOccurs(text, LOW_VALUE);
    if lowHits {
      score := score - 40;
    }
    var severity := CardSeverity(card);
    if severity == "critical" || severity == "high" {
      score := score + 15;
    } else if severity == "medium" {
      score := score + 5;
    }
    if lowHits && AnyOccurs(text, ATTACK_CHAIN) {
      score := score + 50;
    }
    decision := if score >= 55 then DeepDive else if score >= 30 then EvidenceOnly
                else if lowHits then AppendixOnly else NeedsHuman;
  }

  /** How much agent work a decision grants. */
  function Rank(decision: Decision): nat {
    match decision
    case DeepDive => 2
    case EvidenceOnly => 1
    case AppendixOnly => 0
    case NeedsHuman => 0
  }

  /** Every pattern of the table that occurs in text also occurs in text'. */
  predicate OccursToo(text: string, text': string, table: seq<Weight>) {
    forall k :: 0 <= k < |table| && Contains(text, table[k].pattern) ==> Contains(text', table[k].pattern)
  }

  lemma {:induction false} PointsGrow(text: string, text': string, table: seq<Weight>)
    requires OccursToo(text, text', table)
    ensures Points(text, table) <= Points(text', table)
  {
    if table != [] {
      var n := |table| - 1;
      assert Contains(text, table[n].pattern) ==> Contains(text', table[n].pattern);
      assert OccursToo(text, text', table[..n]) by {
        forall k | 0 <= k < n && Contains(text, table[..n][k].pattern) ensures Contains(text', table[..n][k].pattern) {
          assert table[..n][k] == table[k];
        }
      }
      PointsGrow(text, text', table[..n]);
    }
  }

  /** A text that matches further high-value patterns, and no other low-value ones, is never ranked lower. */
  lemma MoreHighValueNeverDemotes(text: string, text': string, severity: string)
    requires OccursToo(text, text', HIGH_VALUE)
    requires AnyOccurs(text, LOW_VALUE) == AnyOccurs(text', LOW_VALUE)
    requires AnyOccurs(text, ATTACK_CHAIN) ==> AnyOccurs(text', ATTACK_CHAIN)
    ensures Score(text, severity) <= Score(text', severity)
    ensures Rank(Classify(Score(text, severity), AnyOccurs(text, LOW_VALUE))) <=
      Rank(Classify(Score(text', severity), AnyOccurs(text', LOW_VALUE)))
  {
    PointsGrow(text, text', HIGH_VALUE);
  }

  // ---------------------------------------------------------------- the decision table

  predicate IsCandidate(card: Card, run: string) {
    card.run == run && (card.cardType == "candidate_vulnerability" || card.cardType == "candidate-vulnerability")
  }

  function RowFor(card: Card): Row {
    var deep := CardDecision(card) == DeepDive;
    Row(card.run, card.id, card.finding, CardDecision(card), deep, deep)
  }

  predicate SameKey(a: Row, b: Row) { a.run == b.run && a.card == b.card }

  /** Overwrite the row of the same run and card, or append. */
  function Upsert(rows: seq<Row>, row: Row): seq<Row> {
    if rows == [] then [row]
    else if SameKey(rows[0], row) then [row] + rows[1..]
    else [rows[0]] + Upsert(rows[1..], row)
  }

  predicate OneRowPerCard(rows: seq<Row>) {
    forall i, j :: 0 <= i < j < |rows| ==> !SameKey(rows[i], rows[j])
  }

  lemma {:induction false} UpsertContents(rows: seq<Row>, row: Row)
    requires OneRowPerCard(rows)
    ensures OneRowPerCard(Upsert(rows, row))
    ensures forall other :: other in Upsert(rows, row) <==> other == row || (other in rows && !SameKey(other, row))
    ensures |Upsert(rows, row)| == |rows| + (if exists other :: other in rows && SameKey(other, row) then 0 else 1)
  {
    if rows != [] {
      assert rows == [rows[0]] + rows[1..];
      if SameKey(rows[0], row) {
        assert forall other :: other in rows[1..] ==> !SameKey(other, row);
        assert rows[0] in rows;
      } else {
        UpsertContents(rows[1..], row);
        var rest := Upsert(rows[1..], row);
        forall j | 0 <= j < |rest| ensures !SameKey(rows[0], rest[j]) {
          assert rest[j] in rest;
        }
        assert (exists other :: other in rows && SameKey(other, row)) <==>
          (exists other :: other in rows[1..] && SameKey(other, row));
      }
    }
  }

  function Triaged(rows: seq<Row>, cards: seq<Card>, run: string): seq<Row> {
    if cards == [] then rows
    else
      var before := Triaged(rows, cards[..|cards| - 1], run);
      var last := cards[|cards| - 1];
      if IsCandidate(last, run) then Upsert(before, RowFor(last)) else before
  }

  /** The identifiers of the candidate cards with the given eligibility, in order. */
  function CardIds(cards: seq<Card>, run: string, eligible: bool): seq<string> {
    if cards == [] then []
    else
      var last := cards[|cards| - 1];
      CardIds(cards[..|cards| - 1], run, eligible)
      + (if IsCandidate(last, run) && (CardDecision(last) == DeepDive) == eligible then [last.id] else [])
  }

  class TriageStore {
    var rows: seq<Row>

    constructor ()
      ensures rows == [] && OneRowPerCard(rows)
    {
      rows := [];
    }

    method TriageWhiteboardSwarmCandidates(cards: seq<Card>, run: string)
      returns (eligible: seq<string>, excluded: seq<string>)
      modifies this
      ensures rows == Triaged(old(rows), cards, run)
      ensures eligible == CardIds(cards, run, true) && excluded == CardIds(cards, run, false)
    {
      eligible, excluded := [], [];
      for k := 0 to |cards|
        invariant rows == Triaged(old(rows), cards[..k], run)
        invariant eligible == CardIds(cards[..k], run, true) && excluded == CardIds(cards[..k], run, false)
      {
        assert cards[..k + 1][..k] == cards[..k];
        var card := cards[k];
        if !IsCandidate(card, run) {
          continue;
        }
        var decision, score := SwarmCandidateValueDecision(card);
        var deepDiveAllowed := decision == DeepDive;
        var pocAllowed := deepDiveAllowed && decision == DeepDive;
        rows := Upsert(rows, Row(card.run, card.id, card.finding, decision, deepDiveAllowed, pocAllowed));
        if decision == DeepDive {
          eligible := eligible + [card.id];
        } else {
          excluded := excluded + [card.id];
        }
      }
      assert cards[..|cards|] == cards;
    }
  }

  /** Every candidate card is listed exactly once, as eligible if it scores at least 55 and as excluded
      otherwise. */
  lemma {:induction false} TriagePartitions(cards: seq<Card>, run: string)
    ensures |CardIds(cards, run, true)| + |CardIds(cards, run, false)| ==
      Count(cards, (card: Card) => IsCandidate(card, run))
    ensures forall id, eligible :: id in CardIds(cards, run, eligible) <==> Lists(cards, run, id, eligible)
  {
    if cards != [] {
      var n := |cards| - 1;
      TriagePartitions(cards[..n], run);
      assert cards == cards[..n] + [cards[n]];
      CardIdsNext(cards[..n], cards[n], run);
      CardCountNext(cards, run);
    }
  }

  lemma CardCountNext(cards: seq<Card>, run: string)
    requires cards != []
    ensures var n := |cards| - 1;
      |CardIds(cards, run, true)| + |CardIds(cards, run, false)| ==
      |CardIds(cards[..n], run, true)| + |CardIds(cards[..n], run, false)|
        + (if IsCandidate(cards[n], run) then 1 else 0)
  {
  }

  ghost predicate Lists(cards: seq<Card>, run: string, id: string, eligible: bool) {
    exists card :: card in cards && card.id == id && IsCandidate(card, run) && (CardScore(card) >= 55) == eligible
  }

  lemma CardIdsNext(before: seq<Card>, card: Card, run: string)
    requires forall id, eligible :: id in CardIds(before, run, eligible) <==> Lists(before, run, id, eligible)
    ensures forall id, eligible :: id in CardIds(before + [card], run, eligible) <==>
      Lists(before + [card], run, id, eligible)
  {
    var cards := before + [card];
    assert cards[..|cards| - 1] == before;
    forall id, eligible ensures id in CardIds(cards, run, eligible) <==> Lists(cards, run, id, eligible) {
      assert id in CardIds(cards, run, eligible) <==>
        id in CardIds(before, run, eligible)
          || (id == card.id && IsCandidate(card, run) && (CardDecision(card) == DeepDive) == eligible);
      ListsNext(before, card, run, id, eligible);
    }
  }

  lemma ListsNext(before: seq<Card>, card: Card, run: string, id: string, eligible: bool)
    ensures Lists(before + [card], run, id, eligible) <==>
      Lists(before, run, id, eligible)
        || (card.id == id && IsCandidate(card, run) && (CardScore(card) >= 55) == eligible)
  {
    assert card in before + [card];
  }

  predicate DistinctIds(cards: seq<Card>) {
    forall i, j :: 0 <= i < j < |cards| ==> cards[i].id != cards[j].id
  }

  predicate Concerns(row: Row, card: Card) { row.run == card.run && row.card == card.id }

  /** After triage the table has exactly one row for each candidate card, saying what the card says now,
      and every other row is as it was. */
  lemma {:induction false} TriageContents(rows: seq<Row>, cards: seq<Card>, run: string)
    requires OneRowPerCard(rows) && DistinctIds(cards)
    ensures OneRowPerCard(Triaged(rows, cards, run))
    ensures forall row :: row in Triaged(rows, cards, run) <==>
      || (exists card :: card in cards && IsCandidate(card, run) && row == RowFor(card))
      || (row in rows && forall card :: card in cards && IsCandidate(card, run) ==> !Concerns(row, card))
  {
    if cards != [] {
      var n := |cards| - 1;
      var last := cards[n];
      var before := Triaged(rows, cards[..n], run);
      TriageContents(rows, cards[..n], run);
      assert cards == cards[..n] + [last];
      if IsCandidate(last, run) {
        UpsertContents(before, RowFor(last));
        forall card | card in cards[..n] && IsCandidate(card, run) ensures !SameKey(RowFor(card), RowFor(last)) {
          var i :| 0 <= i < n && cards[..n][i] == card;
          assert cards[i] == card;
        }
      }
    }
  }

  /** Triaging the same cards again changes no row and adds none. */
  lemma RetriageKeepsOneRow(rows: seq<Row>, cards: seq<Card>, run: string)
    requires OneRowPerCard(rows) && DistinctIds(cards)
    ensures var once := Triaged(rows, cards, run); var twice := Triaged(once, cards, run);
      OneRowPerCard(twice) && forall row :: row in twice <==> row in once
  {
    var once := Triaged(rows, cards, run);
    TriageContents(rows, cards, run);
    TriageContents(once, cards, run);
  }

  // ---------------------------------------------------------------- the filters

  function FilterBy(rows: seq<Row>, run: string, findings: seq<string>, allowed: Row -> bool): seq<string> {
    if findings == [] then []
    else
      var last := findings[|findings| - 1];
      var some := exists row ::
        row in rows && row.run == run && row.finding == last && row.status == DeepDive && allowed(row);
      FilterBy(rows, run, findings[..|findings| - 1], allowed) + (if last != "" && some then [last] else [])
  }

  function FilterDeepDiveFindings(rows: seq<Row>, run: string, findings: seq<string>): seq<string> {
    FilterBy(rows, run, findings, (row: Row) => row.deepDiveAllowed)
  }

  function FilterPocAllowedFindings(rows: seq<Row>, run: string, findings: seq<string>): seq<string> {
    FilterBy(rows, run, findings, (row: Row) => row.pocAllowed)
  }

  /** Some candidate card linked to the finding scores at least 55. */
  predicate WorthDeepDive(cards: seq<Card>, run: string, finding: string) {
    finding != ""
      && exists card :: card in cards && IsCandidate(card, run) && card.finding == finding && CardScore(card) >= 55
  }

  function Worthwhile(cards: seq<Card>, run: string, findings: seq<string>): seq<string> {
    if findings == [] then []
    else
      var last := findings[|findings| - 1];
      Worthwhile(cards, run, findings[..|findings| - 1]) + (if WorthDeepDive(cards, run, last) then [last] else [])
  }

  /** The run's rows all come from triaging (earlier versions of) these candidate cards. */
  predicate WrittenByTriage(rows: seq<Row>, cards: seq<Card>, run: string) {
    forall row :: row in rows && row.run == run ==>
      && row.deepDiveAllowed == row.pocAllowed == (row.status == DeepDive)
      && exists card :: card in cards && IsCandidate(card, run) && Concerns(row, card)
  }

  lemma {:induction false} FiltersReadTheLastTriage(
    rows: seq<Row>, cards: seq<Card>, run: string, findings: seq<string>)
    requires OneRowPerCard(rows) && DistinctIds(cards) && WrittenByTriage(rows, cards, run)
    ensures FilterDeepDiveFindings(Triaged(rows, cards, run), run, findings) == Worthwhile(cards, run, findings)
    ensures FilterPocAllowedFindings(Triaged(rows, cards, run), run, findings) == Worthwhile(cards, run, findings)
  {
    if findings != [] {
      FiltersReadTheLastTriage(rows, cards, run, findings[..|findings| - 1]);
      TriageContents(rows, cards, run);
      var after := Triaged(rows, cards, run);
      var last := findings[|findings| - 1];
      if WorthDeepDive(cards, run, last) {
        var card :| card in cards && IsCandidate(card, run) && card.finding == last && CardScore(card) >= 55;
        assert RowFor(card) in after;
      }
    }
  }

  /** Successive states of the whiteboard: cards may be edited, relinked and added, but a card's
      identifier, run and type are fixed. */
  predicate Evolves(tables: seq<seq<Card>>, run: string) {
    && (forall k :: 0 <= k < |tables| ==> DistinctIds(tables[k]))
    && (forall j, k, card :: 0 <= j < k < |tables| && card in tables[j] && IsCandidate(card, run) ==>
          exists later :: later in tables[k] && later.id == card.id && IsCandidate(later, run))
  }

  function TriagedAll(tables: seq<seq<Card>>, run: string): seq<Row> {
    if tables == [] then [] else Triaged(TriagedAll(tables[..|tables| - 1], run), tables[|tables| - 1], run)
  }

  lemma {:induction false} TriageHistory(tables: seq<seq<Card>>, run: string)
    requires Evolves(tables, run)
    ensures OneRowPerCard(TriagedAll(tables, run))
    ensures tables != [] ==> WrittenByTriage(TriagedAll(tables, run), tables[|tables| - 1], run)
    ensures tables == [] ==> TriagedAll(tables, run) == []
  {
    if tables != [] {
      var n := |tables| - 1;
      var earlier := tables[..n];
      assert forall k :: 0 <= k < n ==> earlier[k] == tables[k];
      TriageHistory(earlier, run);
      TriageContents(TriagedAll(earlier, run), tables[n], run);
      assert WrittenByTriage(TriagedAll(earlier, run), tables[n], run) by {
        CarriedOver(tables, run);
      }
    }
  }

  lemma CarriedOver(tables: seq<seq<Card>>, run: string)
    requires tables != [] && Evolves(tables, run)
    requires |tables| > 1 ==> WrittenByTriage(TriagedAll(tables[..|tables| - 1], run), tables[|tables| - 2], run)
    ensures WrittenByTriage(TriagedAll(tables[..|tables| - 1], run), tables[|tables| - 1], run)
  {
    var n := |tables| - 1;
    forall row | row in TriagedAll(tables[..n], run) && row.run == run
      ensures exists card :: card in tables[n] && IsCandidate(card, run) && Concerns(row, card)
    {
      var card :| card in tables[n - 1] && IsCandidate(card, run) && Concerns(row, card);
      var later :| later in tables[n] && later.id == card.id && IsCandidate(later, run);
      assert Concerns(row, later);
    }
  }

  /** With rows written only by triage and card types fixed: after any number of triages, a finding passes
      the deep-dive filter exactly when a candidate card linked to it at the last triage scored at least
      55, and the PoC filter selects the same findings. */
  lemma FiltersSelectWorthwhileFindings(tables: seq<seq<Card>>, run: string, findings: seq<string>)
    requires tables != [] && Evolves(tables, run)
    ensures var rows := TriagedAll(tables, run); var cards := tables[|tables| - 1];
      && FilterDeepDiveFindings(rows, run, findings) == Worthwhile(cards, run, findings)
      && FilterPocAllowedFindings(rows, run, findings) == Worthwhile(cards, run, findings)
  {
    var n := |tables| - 1;
    assert forall k :: 0 <= k < n ==> tables[..n][k] == tables[k];
    TriageHistory(tables[..n], run);
    CarriedOver(tables, run);
    FiltersReadTheLastTriage(TriagedAll(tables[..n], run), tables[n], run, findings);
  }
}
