/** Retention of platform audit events: by age, then by number. */
module AuditRetention {
  import opened Prelude

  datatype Event = Event(id: nat, createdAt: int)

  predicate Newer(a: Event, b: Event) { a.createdAt > b.createdAt || (a.createdAt == b.createdAt && a.id > b.id) }

  predicate DistinctIds(events: seq<Event>) {
    forall i, j :: 0 <= i < j < |events| ==> events[i].id != events[j].id
  }

  /** The rows a deletion leaves. */
  function Filter(events: seq<Event>, keep: Event -> bool): (kept: seq<Event>)
    ensures forall e :: e in kept <==> e in events && keep(e)
    ensures |kept| == Count(events, keep)
  {
    if events == [] then []
    else
      var n := |events| - 1;
      assert events == events[..n] + [events[n]];
      Filter(events[..n], keep) + (if keep(events[n]) then [events[n]] else [])
  }

  // ---------------------------------------------------------------- newest first

  function Insert(e: Event, sorted: seq<Event>): seq<Event> {
    if sorted == [] || Newer(e, sorted[0]) then [e] + sorted else [sorted[0]] + Insert(e, sorted[1..])
  }

  function NewestFirst(events: seq<Event>): seq<Event> {
    if events == [] then [] else Insert(events[|events| - 1], NewestFirst(events[..|events| - 1]))
  }

  predicate Descending(events: seq<Event>) {
    forall i, j :: 0 <= i < j < |events| ==> Newer(events[i], events[j])
  }

  /** How many of the events are newer than e. */
  function Rank(events: seq<Event>, e: Event): nat { Count(events, (other: Event) => Newer(other, e)) }

  lemma {:induction false} InsertSorts(e: Event, sorted: seq<Event>)
    requires Descending(sorted) && forall other :: other in sorted ==> other.id != e.id
    requires DistinctIds(sorted)
    ensures var r := Insert(e, sorted);
      Descending(r) && DistinctIds(r) && |r| == |sorted| + 1 && forall x :: x in r <==> x == e || x in sorted
  {
    if sorted != [] {
      assert sorted == [sorted[0]] + sorted[1..];
      if !Newer(e, sorted[0]) {
        InsertSorts(e, sorted[1..]);
        var rest := Insert(e, sorted[1..]);
        forall j | 0 <= j < |rest| ensures Newer(sorted[0], rest[j]) && sorted[0].id != rest[j].id {
          assert rest[j] in rest;
        }
      }
    }
  }

  lemma {:induction false} CountFront(events: seq<Event>, p: Event -> bool)
    requires events != []
    ensures Count(events, p) == (if p(events[0]) then 1 else 0) + Count(events[1..], p)
  {
    CountConcat(events[..1], events[1..], p);
    assert events == events[..1] + events[1..];
    CountAppend([], events[0], p);
    assert [] + [events[0]] == events[..1];
  }

  lemma {:induction false} NewestFirstSorts(events: seq<Event>)
    requires DistinctIds(events)
    ensures var r := NewestFirst(events);
      Descending(r) && DistinctIds(r) && |r| == |events| && (forall x :: x in r <==> x in events)
  {
    if events != [] {
      var n := |events| - 1;
      NewestFirstSorts(events[..n]);
      assert events == events[..n] + [events[n]];
      forall other | other in NewestFirst(events[..n]) ensures other.id != events[n].id {
        assert other in events[..n];
      }
      InsertSorts(events[n], NewestFirst(events[..n]));
    }
  }

  lemma {:induction false} InsertCount(e: Event, sorted: seq<Event>, p: Event -> bool)
    ensures Count(Insert(e, sorted), p) == Count(sorted, p) + (if p(e) then 1 else 0)
  {
    var r := Insert(e, sorted);
    CountFront(r, p);
    if sorted == [] || Newer(e, sorted[0]) {
      assert r[1..] == sorted;
    } else {
      InsertCount(e, sorted[1..], p);
      CountFront(sorted, p);
      assert r[1..] == Insert(e, sorted[1..]);
    }
  }

  /** Sorting changes no count. */
  lemma {:induction false} SortedCount(events: seq<Event>, p: Event -> bool)
    ensures Count(NewestFirst(events), p) == Count(events, p)
  {
    if events != [] {
      SortedCount(events[..|events| - 1], p);
      InsertCount(events[|events| - 1], NewestFirst(events[..|events| - 1]), p);
    }
  }

  lemma NewestFirstRanks(events: seq<Event>, x: Event)
    ensures Rank(NewestFirst(events), x) == Rank(events, x)
  {
    SortedCount(events, (other: Event) => Newer(other, x));
  }

  /** In a descending list an event's rank is its position. */
  lemma {:induction false} RankIsPosition(sorted: seq<Event>, i: nat)
    requires Descending(sorted) && i < |sorted|
    ensures Rank(sorted, sorted[i]) == i
  {
    var p := (other: Event) => Newer(other, sorted[i]);
    assert sorted == sorted[..i] + sorted[i..];
    CountConcat(sorted[..i], sorted[i..], p);
    CountAll(sorted[..i], p);
    forall e | e in sorted[i..] ensures !p(e) {
      var j :| 0 <= j < |sorted[i..]| && sorted[i..][j] == e;
      assert j > 0 ==> Newer(sorted[i], sorted[i + j]);
    }
    CountZero(sorted[i..], p);
  }

  function Ids(events: seq<Event>): set<nat> { set e | e in events :: e.id }

  /** The identifiers of the newest `keep` events, as the query selects them. */
  function RetainedIds(events: seq<Event>, keep: nat): set<nat> {
    Ids(NewestFirst(events)[..Min(|NewestFirst(events)|, keep)])
  }

  /** An event is retained exactly when fewer than `keep` events are newer. */
  lemma RetainedAreTheNewest(events: seq<Event>, keep: nat, e: Event)
    requires DistinctIds(events) && e in events
    ensures e.id in RetainedIds(events, keep) <==> Rank(events, e) < keep
  {
    var sorted := NewestFirst(events);
    NewestFirstSorts(events);
    var i :| 0 <= i < |sorted| && sorted[i] == e;
    RankIsPosition(sorted, i);
    NewestFirstRanks(events, e);
    var top := sorted[..Min(|sorted|, keep)];
    if i < keep {
      assert top[i] == e && e in top;
    }
    if e.id in Ids(top) {
      var other :| other in top && other.id == e.id;
      SameIdSameEvent(events, e, other);
      var k :| 0 <= k < |top| && top[k] == e;
      assert sorted[k].id == sorted[i].id && k == i;
    }
  }

  lemma SameIdSameEvent(events: seq<Event>, a: Event, b: Event)
    requires DistinctIds(events) && a in events && b in events && a.id == b.id
    ensures a == b
  {
  }

  // ---------------------------------------------------------------- the clean-up

  /** The event is not expired and fewer than `keep` unexpired events are newer. */
  predicate Survives(events: seq<Event>, cutoff: int, keep: nat, e: Event) {
    e.createdAt >= cutoff && Rank(Unexpired(events, cutoff), e) < keep
  }

  function Unexpired(events: seq<Event>, cutoff: int): seq<Event> {
    Filter(events, (e: Event) => e.createdAt >= cutoff)
  }

  class AuditEventTable {
    var events: seq<Event>

    constructor (initial: seq<Event>)
      ensures events == initial
    {
      events := initial;
    }

    /** DELETE with a condition: what does not satisfy it stays. */
    method Delete(keep: Event -> bool) returns (deleted: nat)
      modifies this
      ensures events == Filter(old(events), keep)
      ensures deleted + |events| == |old(events)|
    {
      var kept := Filter(events, keep);
      deleted := |events| - |kept|;
      events := kept;
    }

    method CleanupPlatformAuditEvents(cutoff: int, keep: nat) returns (byAge: nat, byOverflow: nat)
      requires DistinctIds(events)
      modifies this
      ensures forall e :: e in events <==> e in old(events) && Survives(old(events), cutoff, keep, e)
      ensures |events| == Min(keep, |Unexpired(old(events), cutoff)|) && DistinctIds(events)
      ensures byAge == |old(events)| - |Unexpired(old(events), cutoff)|
      ensures byAge + byOverflow + |events| == |old(events)|
    {
      byAge := Delete((e: Event) => e.createdAt >= cutoff);
      ghost var unexpired := events;
      FilterKeepsDistinct(old(events), (e: Event) => e.createdAt >= cutoff);
      byOverflow := 0;
      if keep == 0 {
        byOverflow := Delete((e: Event) => false);
        CountZero(unexpired, (e: Event) => false);
      } else {
        var retained := RetainedIds(events, keep);
        KeptCount(events, keep);
        if retained != {} {
          byOverflow := Delete(Among(retained));
          FilterKeepsDistinct(unexpired, Among(retained));
        } else {
          NothingRetained(events, keep);
        }
        forall e | e in unexpired ensures e.id in retained <==> Rank(unexpired, e) < keep {
          RetainedAreTheNewest(unexpired, keep, e);
        }
      }
    }
  }

  lemma {:induction false} FilterKeepsDistinct(events: seq<Event>, keep: Event -> bool)
    requires DistinctIds(events)
    ensures DistinctIds(Filter(events, keep))
  {
    if events != [] {
      var n := |events| - 1;
      FilterKeepsDistinct(events[..n], keep);
      var earlier := Filter(events[..n], keep);
      forall i | 0 <= i < |earlier| ensures earlier[i].id != events[n].id {
        assert earlier[i] in earlier;
      }
    }
  }

  lemma NothingRetained(events: seq<Event>, keep: nat)
    requires DistinctIds(events) && keep > 0
    ensures RetainedIds(events, keep) == {} ==> events == []
  {
    NewestFirstSorts(events);
    if events != [] {
      RetainsNewest(NewestFirst(events), keep);
    }
  }

  lemma RetainsNewest(sorted: seq<Event>, keep: nat)
    requires sorted != [] && keep > 0
    ensures sorted[0].id in Ids(sorted[..Min(|sorted|, keep)])
  {
    var top := sorted[..Min(|sorted|, keep)];
    assert top[0] == sorted[0] && top[0] in top;
  }

  function Among(ids: set<nat>): Event -> bool { (e: Event) => e.id in ids }

  /** Filtering by the retained identifiers keeps as many rows as were selected. */
  lemma KeptCount(events: seq<Event>, keep: nat)
    requires DistinctIds(events)
    ensures Count(events, Among(RetainedIds(events, keep))) == Min(keep, |events|)
  {
    NewestFirstSorts(events);
    SortedCount(events, Among(RetainedIds(events, keep)));
    TopCount(NewestFirst(events), Min(|events|, keep));
  }

  lemma TopCount(sorted: seq<Event>, m: nat)
    requires DistinctIds(sorted) && m <= |sorted|
    ensures Count(sorted, Among(Ids(sorted[..m]))) == m
  {
    var top, rest, p := sorted[..m], sorted[m..], Among(Ids(sorted[..m]));
    assert sorted == top + rest;
    CountConcat(top, rest, p);
    CountAll(top, p);
    forall e | e in rest ensures !p(e) {
      BelowTheTop(sorted, m, e);
    }
    CountZero(rest, p);
  }

  lemma BelowTheTop(sorted: seq<Event>, m: nat, e: Event)
    requires DistinctIds(sorted) && m <= |sorted| && e in sorted[m..]
    ensures e.id !in Ids(sorted[..m])
  {
    var j :| m <= j < |sorted| && sorted[j] == e;
    forall other | other in sorted[..m] ensures other.id != e.id {
      var i :| 0 <= i < m && sorted[i] == other;
    }
  }
}
