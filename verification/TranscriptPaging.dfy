/** Reading the transcript of an agent run page by page, while it grows. */
module TranscriptPaging {
  import opened Prelude

  datatype Event = Event(id: nat, agentRun: string)

  datatype Page = Page(events: seq<Event>, lastId: nat, hasMore: bool)

  /** A table in the order of its auto-increment key. */
  predicate Ascending(rows: seq<Event>) {
    forall i, j :: 0 <= i < j < |rows| ==> rows[i].id < rows[j].id
  }

  predicate IsSelected(e: Event, run: string, after: nat) { e.agentRun == run && e.id > after }

  function Selected(rows: seq<Event>, run: string, after: nat): seq<Event> {
    if rows == [] then []
    else (if IsSelected(rows[0], run, after) then [rows[0]] else []) + Selected(rows[1..], run, after)
  }

  function TranscriptEvents(rows: seq<Event>, run: string, after: nat, limit: nat): Page {
    var selected := Selected(rows, run, after);
    var events := selected[..Min(|selected|, limit)];
    Page(events, if events != [] then events[|events| - 1].id else after, |events| == limit)
  }

  /** What a reader has after following `last_id` until `has_more` is false, or until the tables run out:
      the k-th request sees the table as it is in tables[k]. */
  datatype Reading = Reading(events: seq<Event>, requests: nat, ended: bool)

  function Follow(tables: seq<seq<Event>>, run: string, after: nat, limit: nat): (reading: Reading)
    ensures reading.requests <= |tables|
    decreases tables
  {
    if tables == [] then Reading([], 0, false)
    else
      var page := TranscriptEvents(tables[0], run, after, limit);
      if !page.hasMore then Reading(page.events, 1, true)
      else
        var rest := Follow(tables[1..], run, page.lastId, limit);
        Reading(page.events + rest.events, 1 + rest.requests, rest.ended)
  }

  /** Rows are only ever added, under greater identifiers. */
  predicate Grows(tables: seq<seq<Event>>) {
    && (forall k :: 0 <= k < |tables| ==> Ascending(tables[k]))
    && (forall j, k :: 0 <= j <= k < |tables| ==> tables[j] <= tables[k])
  }

  lemma {:induction false} SelectedAre(rows: seq<Event>, run: string, after: nat)
    requires Ascending(rows)
    ensures Ascending(Selected(rows, run, after))
    ensures forall e :: e in Selected(rows, run, after) <==> e in rows && IsSelected(e, run, after)
  {
    if rows != [] {
      SelectedAre(rows[1..], run, after);
      var rest := Selected(rows[1..], run, after);
      assert rows == [rows[0]] + rows[1..];
      forall j | 0 <= j < |rest| ensures rows[0].id < rest[j].id {
        assert rest[j] in rows[1..];
      }
    }
  }

  lemma {:induction false} SelectedConcat(xs: seq<Event>, ys: seq<Event>, run: string, after: nat)
    ensures Selected(xs + ys, run, after) == Selected(xs, run, after) + Selected(ys, run, after)
  {
    if xs == [] {
      assert xs + ys == ys;
    } else {
      assert (xs + ys)[0] == xs[0] && (xs + ys)[1..] == xs[1..] + ys;
      SelectedConcat(xs[1..], ys, run, after);
      var head := if IsSelected(xs[0], run, after) then [xs[0]] else [];
      var front, back := Selected(xs[1..], run, after), Selected(ys, run, after);
      assert (head + front) + back == head + (front + back);
    }
  }

  lemma SelectedGrows(xs: seq<Event>, ys: seq<Event>, run: string, after: nat)
    requires xs <= ys
    ensures Selected(xs, run, after) <= Selected(ys, run, after)
  {
    assert ys == xs + ys[|xs|..];
    SelectedConcat(xs, ys[|xs|..], run, after);
  }

  lemma {:induction false} AscendingIsUnique(a: seq<Event>, b: seq<Event>)
    requires Ascending(a) && Ascending(b) && forall e :: e in a <==> e in b
    ensures a == b
  {
    assert a != [] ==> a[0] in b;
    assert b != [] ==> b[0] in a;
    if a != [] && b != [] {
      assert a == [a[0]] + a[1..] && b == [b[0]] + b[1..];
      assert a[0] in b && b[0] in a;
      assert a[0] == b[0];
      forall e ensures e in a[1..] <==> e in b[1..] {
        TailMembers(a, 1, e);
        TailMembers(b, 1, e);
      }
      AscendingIsUnique(a[1..], b[1..]);
    }
  }

  /** Asking for what comes after the m-th selected row gives the rest of the selection. */
  lemma SelectedAfter(rows: seq<Event>, run: string, after: nat, m: nat)
    requires Ascending(rows) && 1 <= m <= |Selected(rows, run, after)|
    ensures Selected(rows, run, Selected(rows, run, after)[m - 1].id) == Selected(rows, run, after)[m..]
  {
    var all := Selected(rows, run, after);
    var last := all[m - 1];
    SelectedAre(rows, run, after);
    SelectedAre(rows, run, last.id);
    assert last in all;
    forall e ensures e in all[m..] <==> e in rows && IsSelected(e, run, last.id) {
      TailMembers(all, m, e);
    }
    AscendingIsUnique(all[m..], Selected(rows, run, last.id));
  }

  lemma TailMembers(all: seq<Event>, m: nat, e: Event)
    requires Ascending(all) && 1 <= m <= |all|
    ensures e in all[m..] <==> e in all && e.id > all[m - 1].id
  {
    if e in all {
      var k :| 0 <= k < |all| && all[k] == e;
      assert k >= m ==> all[m..][k - m] == e;
      assert k < m ==> k == m - 1 || all[k].id < all[m - 1].id;
    }
  }

  /** What has been read is the beginning of what the latest table holds after the starting point, and all
      of it when the reading has ended; otherwise every request has brought `limit` rows. */
  predicate ReadsAll(r: Reading, tables: seq<seq<Event>>, run: string, after: nat, limit: nat)
    requires r.requests <= |tables|
  {
    && (r.requests > 0 ==> r.events <= Selected(tables[r.requests - 1], run, after))
    && (r.requests > 0 && r.ended ==> r.events == Selected(tables[r.requests - 1], run, after))
    && (!r.ended ==> r.requests == |tables| && |r.events| == |tables| * limit)
  }

  /** Following the pages of a growing transcript, every row after the starting point is read exactly once,
      in order of identifiers, and none is left when the last page says so. */
  lemma {:induction false} FollowingReadsEverything(tables: seq<seq<Event>>, run: string, after: nat, limit: nat)
    requires limit >= 1 && Grows(tables)
    ensures ReadsAll(Follow(tables, run, after, limit), tables, run, after, limit)
    decreases tables
  {
    if tables != [] {
      var page := TranscriptEvents(tables[0], run, after, limit);
      if page.hasMore {
        assert Grows(tables[1..]) by {
          assert forall k :: 0 <= k < |tables[1..]| ==> tables[1..][k] == tables[k + 1];
        }
        FollowingReadsEverything(tables[1..], run, page.lastId, limit);
        FirstPage(tables, run, after, limit);
      }
    }
  }

  lemma FirstPage(tables: seq<seq<Event>>, run: string, after: nat, limit: nat)
    requires limit >= 1 && tables != [] && Grows(tables)
    requires TranscriptEvents(tables[0], run, after, limit).hasMore
    requires var lastId := TranscriptEvents(tables[0], run, after, limit).lastId;
      ReadsAll(Follow(tables[1..], run, lastId, limit), tables[1..], run, lastId, limit)
    ensures ReadsAll(Follow(tables, run, after, limit), tables, run, after, limit)
  {
    var page := TranscriptEvents(tables[0], run, after, limit);
    var rest := Follow(tables[1..], run, page.lastId, limit);
    if rest.requests > 0 {
      assert tables[1..][rest.requests - 1] == tables[rest.requests];
    } else {
      assert page.events <= Selected(tables[0], run, after);
    }
    NextPages(tables[0], tables[rest.requests], run, after, limit);
    OneMore(|tables|, limit);
  }

  lemma OneMore(n: nat, limit: nat)
    requires n > 0
    ensures limit + (n - 1) * limit == n * limit
  {
  }

  /** In a later table the rows after a full page's last row are those after its rows. */
  lemma NextPages(rows: seq<Event>, later: seq<Event>, run: string, after: nat, limit: nat)
    requires limit >= 1 && rows <= later && Ascending(later)
    requires TranscriptEvents(rows, run, after, limit).hasMore
    ensures var page := TranscriptEvents(rows, run, after, limit);
      Selected(later, run, after) == page.events + Selected(later, run, page.lastId)
  {
    var page := TranscriptEvents(rows, run, after, limit);
    var wanted := Selected(later, run, after);
    SelectedGrows(rows, later, run, after);
    assert wanted[..limit] == page.events;
    SelectedAfter(later, run, after, limit);
    assert wanted[limit - 1] == page.events[limit - 1];
    assert wanted == wanted[..limit] + wanted[limit..];
  }

  /** Following ends: it takes at most one request more than there are full pages in the final table. */
  lemma FollowingEnds(tables: seq<seq<Event>>, run: string, after: nat, limit: nat)
    requires limit >= 1 && tables != [] && Grows(tables)
    requires |tables| * limit > |Selected(tables[|tables| - 1], run, after)|
    ensures Follow(tables, run, after, limit).ended
  {
    FollowingReadsEverything(tables, run, after, limit);
  }
}
