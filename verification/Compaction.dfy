/** Compaction of JSON event payloads before they are stored. */
module Compaction {
  import opened Prelude
  import opened Text

  /** A JSON value. Objects list their entries in insertion order, with distinct keys. */
  datatype Value =
    | Scalar(printed: string)     // a number, a boolean or null
    | Str(s: string)
    | List(items: seq<Value>)
    | Dict(entries: seq<Entry>)

  datatype Entry = Entry(key: string, value: Value)

  const MAX_DEPTH: nat := 4

  const DEPTH_MARKER: string := "<truncated-depth>"

  const OVERFLOW_KEY: string := "<truncated>"

  function StringMarker(dropped: nat): string { "...<truncated " + Decimal(dropped) + " chars>" }

  function ListMarker(dropped: nat): string { "<truncated " + Decimal(dropped) + " items>" }

  function DictMarker(dropped: nat): string { Decimal(dropped) + " keys" }

  function CompactString(s: string, maxString: nat): string {
    if |s| <= maxString then s else s[..maxString] + StringMarker(|s| - maxString)
  }

  function SetEntry(entries: seq<Entry>, key: string, value: Value): seq<Entry> {
    if entries == [] then [Entry(key, value)]
    else if entries[0].key == key then [Entry(key, value)] + entries[1..]
    else [entries[0]] + SetEntry(entries[1..], key, value)
  }

  function Compact(value: Value, maxString: nat, maxItems: nat, depth: nat): Value
    decreases value, 0
  {
    if depth > MAX_DEPTH then Str(DEPTH_MARKER)
    else match value
      case Scalar(_) => value
      case Str(s) => Str(CompactString(s, maxString))
      case List(items) =>
        var kept := CompactItems(items, maxString, maxItems, depth + 1, Min(|items|, maxItems));
        List(if |items| > maxItems then kept + [Str(ListMarker(|items| - maxItems))] else kept)
      case Dict(entries) =>
        var kept := CompactEntries(entries, maxString, maxItems, depth + 1, Min(|entries|, maxItems));
        Dict(if |entries| > maxItems then SetEntry(kept, OVERFLOW_KEY, Str(DictMarker(|entries| - maxItems))) else kept)
  }

  function CompactItems(items: seq<Value>, maxString: nat, maxItems: nat, depth: nat, n: nat): (kept: seq<Value>)
    requires n <= |items|
    ensures |kept| == n
    decreases items, 1, n
  {
    if n == 0 then []
    else CompactItems(items, maxString, maxItems, depth, n - 1) + [Compact(items[n - 1], maxString, maxItems, depth)]
  }

  function CompactEntries(entries: seq<Entry>, maxString: nat, maxItems: nat, depth: nat, n: nat): (kept: seq<Entry>)
    requires n <= |entries|
    ensures |kept| == n && forall k :: 0 <= k < n ==> kept[k].key == entries[k].key
    decreases entries, 1, n
  {
    if n == 0 then []
    else
      CompactEntries(entries, maxString, maxItems, depth, n - 1)
      + [Entry(entries[n - 1].key, Compact(entries[n - 1].value, maxString, maxItems, depth))]
  }

  // ---------------------------------------------------------------- size

  /** How many values there are in a value, itself included. */
  function Nodes(value: Value): nat
    decreases value, 0
  {
    match value
    case Scalar(_) => 1
    case Str(_) => 1
    case List(items) => 1 + NodesOfItems(items, |items|)
    case Dict(entries) => 1 + NodesOfEntries(entries, |entries|)
  }

  function NodesOfItems(items: seq<Value>, n: nat): nat
    requires n <= |items|
    decreases items, 1, n
  {
    if n == 0 then 0 else NodesOfItems(items, n - 1) + Nodes(items[n - 1])
  }

  function NodesOfEntries(entries: seq<Entry>, n: nat): nat
    requires n <= |entries|
    decreases entries, 1, n
  {
    if n == 0 then 0 else NodesOfEntries(entries, n - 1) + Nodes(entries[n - 1].value)
  }

  /** 1 + b + b^2 + ... + b^n. */
  function Geometric(b: nat, n: nat): nat
    decreases n
  {
    if n == 0 then 1 else 1 + b * Geometric(b, n - 1)
  }

  lemma {:induction false} ItemsBound(items: seq<Value>, n: nat, bound: nat)
    requires n <= |items| && forall k :: 0 <= k < n ==> Nodes(items[k]) <= bound
    ensures NodesOfItems(items, n) <= n * bound
    decreases n
  {
    if n > 0 {
      ItemsBound(items, n - 1, bound);
      assert n * bound == (n - 1) * bound + bound;
    }
  }

  lemma {:induction false} EntriesBound(entries: seq<Entry>, n: nat, bound: nat)
    requires n <= |entries| && forall k :: 0 <= k < n ==> Nodes(entries[k].value) <= bound
    ensures NodesOfEntries(entries, n) <= n * bound
    decreases n
  {
    if n > 0 {
      EntriesBound(entries, n - 1, bound);
      assert n * bound == (n - 1) * bound + bound;
    }
  }

  lemma {:induction false} SetEntryContents(entries: seq<Entry>, key: string, value: Value)
    ensures var r := SetEntry(entries, key, value);
      && |entries| <= |r| <= |entries| + 1
      && (forall k :: 0 <= k < |r| ==> r[k].value == value || r[k] in entries)
      && (|r| == |entries| + 1 ==> r == entries + [Entry(key, value)])
      && (|r| == |entries| <==> exists k :: 0 <= k < |entries| && entries[k].key == key)
  {
    if entries != [] && entries[0].key != key {
      SetEntryContents(entries[1..], key, value);
      var r := SetEntry(entries, key, value);
      if |r| == |entries| {
        var k :| 0 <= k < |entries[1..]| && entries[1..][k].key == key;
        assert entries[k + 1].key == key;
      }
      if k :| 0 <= k < |entries| && entries[k].key == key {
        assert entries[1..][k - 1].key == key;
      }
    }
  }

  /** The most nodes a compacted value can have when it sits at the given depth. */
  function Ceiling(maxItems: nat, depth: nat): nat {
    if depth > MAX_DEPTH then 1 else Geometric(maxItems + 1, MAX_DEPTH + 1 - depth)
  }

  lemma ProductGrows(n: nat, m: nat, bound: nat)
    requires n <= m
    ensures n * bound <= m * bound
  {
  }

  lemma CeilingStep(maxItems: nat, depth: nat)
    requires depth <= MAX_DEPTH
    ensures Ceiling(maxItems, depth) == 1 + (maxItems + 1) * Ceiling(maxItems, depth + 1)
    ensures 1 <= Ceiling(maxItems, depth + 1)
  {
  }

  lemma {:induction false} NodesBounded(value: Value, maxString: nat, maxItems: nat, depth: nat)
    ensures Nodes(Compact(value, maxString, maxItems, depth)) <= Ceiling(maxItems, depth)
    decreases value
  {
    if depth <= MAX_DEPTH {
      var bound := Ceiling(maxItems, depth + 1);
      CeilingStep(maxItems, depth);
      match value
      case Scalar(_) =>
      case Str(_) =>
      case List(items) =>
        forall k | 0 <= k < |items| ensures Nodes(Compact(items[k], maxString, maxItems, depth + 1)) <= bound {
          NodesBounded(items[k], maxString, maxItems, depth + 1);
        }
        ListNodes(items, maxString, maxItems, depth, bound);
      case Dict(entries) =>
        forall k | 0 <= k < |entries|
          ensures Nodes(Compact(entries[k].value, maxString, maxItems, depth + 1)) <= bound
        {
          NodesBounded(entries[k].value, maxString, maxItems, depth + 1);
        }
        DictNodes(entries, maxString, maxItems, depth, bound);
    }
  }

  lemma ListNodes(items: seq<Value>, maxString: nat, maxItems: nat, depth: nat, bound: nat)
    requires depth <= MAX_DEPTH && bound >= 1
    requires forall k :: 0 <= k < |items| ==> Nodes(Compact(items[k], maxString, maxItems, depth + 1)) <= bound
    ensures Nodes(Compact(List(items), maxString, maxItems, depth)) <= 1 + (maxItems + 1) * bound
  {
    var n := Min(|items|, maxItems);
    var kept := Compact(List(items), maxString, maxItems, depth).items;
    forall k | 0 <= k < |kept| ensures Nodes(kept[k]) <= bound {
      if k < n {
        CompactItemsAt(items, maxString, maxItems, depth + 1, n, k);
      }
    }
    ItemsBound(kept, |kept|, bound);
    ProductGrows(|kept|, maxItems + 1, bound);
  }

  lemma DictNodes(entries: seq<Entry>, maxString: nat, maxItems: nat, depth: nat, bound: nat)
    requires depth <= MAX_DEPTH && bound >= 1
    requires forall k :: 0 <= k < |entries| ==>
      Nodes(Compact(entries[k].value, maxString, maxItems, depth + 1)) <= bound
    ensures Nodes(Compact(Dict(entries), maxString, maxItems, depth)) <= 1 + (maxItems + 1) * bound
  {
    var n := Min(|entries|, maxItems);
    var plain := CompactEntries(entries, maxString, maxItems, depth + 1, n);
    forall k | 0 <= k < |plain| ensures Nodes(plain[k].value) <= bound {
      CompactEntriesAt(entries, maxString, maxItems, depth + 1, n, k);
    }
    var full, dropped := |entries| > maxItems, if |entries| > maxItems then |entries| - maxItems else 0;
    CompactedDict(entries, maxString, maxItems, depth);
    KeptNodes(plain, full, OVERFLOW_KEY, DictMarker(dropped), maxItems + 1, bound);
  }

  lemma CompactedDict(entries: seq<Entry>, maxString: nat, maxItems: nat, depth: nat)
    requires depth <= MAX_DEPTH
    ensures var plain := CompactEntries(entries, maxString, maxItems, depth + 1, Min(|entries|, maxItems));
      var full, dropped := |entries| > maxItems, if |entries| > maxItems then |entries| - maxItems else 0;
      Compact(Dict(entries), maxString, maxItems, depth) ==
      Dict(if full then SetEntry(plain, OVERFLOW_KEY, Str(DictMarker(dropped))) else plain)
  {
  }

  lemma KeptNodes(plain: seq<Entry>, full: bool, key: string, extra: string, m: nat, bound: nat)
    requires |plain| < m && bound >= 1 && forall k :: 0 <= k < |plain| ==> Nodes(plain[k].value) <= bound
    ensures Nodes(Dict(if full then SetEntry(plain, key, Str(extra)) else plain)) <= 1 + m * bound
  {
    if full {
      SetEntryNodes(plain, key, Str(extra), bound, m);
    } else {
      EntriesBound(plain, |plain|, bound);
      ProductGrows(|plain|, m, bound);
    }
  }

  lemma SetEntryNodes(entries: seq<Entry>, key: string, value: Value, bound: nat, m: nat)
    requires |entries| < m && Nodes(value) <= bound && forall k :: 0 <= k < |entries| ==>
      Nodes(entries[k].value) <= bound
    ensures var r := SetEntry(entries, key, value); NodesOfEntries(r, |r|) <= m * bound
  {
    var r := SetEntry(entries, key, value);
    SetEntryContents(entries, key, value);
    forall k | 0 <= k < |r| ensures Nodes(r[k].value) <= bound {
      if r[k] in entries {
        var j :| 0 <= j < |entries| && entries[j] == r[k];
      }
    }
    EntriesBound(r, |r|, bound);
    ProductGrows(|r|, m, bound);
  }

  lemma {:induction false} CompactItemsAt(items: seq<Value>, maxString: nat, maxItems: nat, depth: nat, n: nat, k: nat)
    requires k < n <= |items|
    ensures CompactItems(items, maxString, maxItems, depth, n)[k] == Compact(items[k], maxString, maxItems, depth)
    decreases n
  {
    if k < n - 1 {
      CompactItemsAt(items, maxString, maxItems, depth, n - 1, k);
    }
  }

  lemma {:induction false} CompactEntriesAt(
    entries: seq<Entry>, maxString: nat, maxItems: nat, depth: nat, n: nat, k: nat)
    requires k < n <= |entries|
    ensures CompactEntries(entries, maxString, maxItems, depth, n)[k] ==
      Entry(entries[k].key, Compact(entries[k].value, maxString, maxItems, depth))
    decreases n
  {
    if k < n - 1 {
      CompactEntriesAt(entries, maxString, maxItems, depth, n - 1, k);
    }
  }

  // ---------------------------------------------------------------- shape

  /** s is a prefix of at most maxString characters followed by at most one truncation marker. */
  ghost predicate Shortened(s: string, maxString: nat) {
    || |s| <= maxString
    || s == DEPTH_MARKER
    || (exists n: nat :: s == ListMarker(n))
    || (exists n: nat :: s == DictMarker(n))
    || (exists n: nat :: |s| == maxString + |StringMarker(n)| && s[maxString..] == StringMarker(n))
  }

  /** The value nests at most `levels` levels below itself and all its strings are short. */
  ghost predicate Bounded(value: Value, levels: nat, maxString: nat)
    decreases value
  {
    match value
    case Scalar(_) => true
    case Str(s) => Shortened(s, maxString)
    case List(items) => (items != [] ==> levels > 0) && forall k :: 0 <= k < |items| ==>
      levels > 0 && Bounded(items[k], levels - 1, maxString)
    case Dict(entries) =>
      (entries != [] ==> levels > 0) && forall k :: 0 <= k < |entries| ==>
        levels > 0 && Bounded(entries[k].value, levels - 1, maxString)
  }

  lemma StringShortened(s: string, maxString: nat)
    ensures Shortened(CompactString(s, maxString), maxString)
  {
    if |s| > maxString {
      assert CompactString(s, maxString)[maxString..] == StringMarker(|s| - maxString);
    }
  }

  lemma ListShape(items: seq<Value>, maxString: nat, maxItems: nat, depth: nat)
    requires depth <= MAX_DEPTH
    requires forall k :: 0 <= k < |items| ==>
      Bounded(Compact(items[k], maxString, maxItems, depth + 1), MAX_DEPTH - depth, maxString)
    ensures Bounded(Compact(List(items), maxString, maxItems, depth), MAX_DEPTH + 1 - depth, maxString)
  {
    var n := Min(|items|, maxItems);
    var kept := Compact(List(items), maxString, maxItems, depth).items;
    forall k | 0 <= k < |kept| ensures Bounded(kept[k], MAX_DEPTH - depth, maxString) {
      if k < n {
        CompactItemsAt(items, maxString, maxItems, depth + 1, n, k);
      }
    }
  }

  lemma DictShape(entries: seq<Entry>, maxString: nat, maxItems: nat, depth: nat)
    requires depth <= MAX_DEPTH
    requires forall k :: 0 <= k < |entries| ==>
      Bounded(Compact(entries[k].value, maxString, maxItems, depth + 1), MAX_DEPTH - depth, maxString)
    ensures Bounded(Compact(Dict(entries), maxString, maxItems, depth), MAX_DEPTH + 1 - depth, maxString)
  {
    var n := Min(|entries|, maxItems);
    var plain := CompactEntries(entries, maxString, maxItems, depth + 1, n);
    forall k | 0 <= k < |plain| ensures Bounded(plain[k].value, MAX_DEPTH - depth, maxString) {
      CompactEntriesAt(entries, maxString, maxItems, depth + 1, n, k);
    }
    var full := |entries| > maxItems;
    assert Compact(Dict(entries), maxString, maxItems, depth) ==
      Dict(if full then SetEntry(plain, OVERFLOW_KEY, Str(DictMarker(|entries| - maxItems))) else plain);
    KeptShape(plain, full, OVERFLOW_KEY, if full then |entries| - maxItems else 0, MAX_DEPTH - depth, maxString);
  }

  lemma KeptShape(plain: seq<Entry>, full: bool, key: string, dropped: nat, levels: nat, maxString: nat)
    requires forall k :: 0 <= k < |plain| ==> Bounded(plain[k].value, levels, maxString)
    ensures Bounded(Dict(if full then SetEntry(plain, key, Str(DictMarker(dropped))) else plain), levels + 1, maxString)
  {
    if full {
      var extra := Str(DictMarker(dropped));
      var kept := SetEntry(plain, key, extra);
      SetEntryContents(plain, key, extra);
      assert Bounded(extra, levels, maxString);
      forall k | 0 <= k < |kept| ensures Bounded(kept[k].value, levels, maxString) {
        if kept[k] in plain {
          var j :| 0 <= j < |plain| && plain[j] == kept[k];
        }
      }
    }
  }

  lemma {:induction false} ShapeBounded(value: Value, maxString: nat, maxItems: nat, depth: nat)
    requires depth <= MAX_DEPTH + 1
    ensures Bounded(Compact(value, maxString, maxItems, depth), MAX_DEPTH + 1 - depth, maxString)
    decreases value
  {
    if depth <= MAX_DEPTH {
      match value
      case Scalar(_) =>
      case Str(s) =>
        StringShortened(s, maxString);
      case List(items) =>
        forall k | 0 <= k < |items|
          ensures Bounded(Compact(items[k], maxString, maxItems, depth + 1), MAX_DEPTH - depth, maxString)
        {
          ShapeBounded(items[k], maxString, maxItems, depth + 1);
        }
        ListShape(items, maxString, maxItems, depth);
      case Dict(entries) =>
        forall k | 0 <= k < |entries|
          ensures Bounded(Compact(entries[k].value, maxString, maxItems, depth + 1), MAX_DEPTH - depth, maxString)
        {
          ShapeBounded(entries[k].value, maxString, maxItems, depth + 1);
        }
        DictShape(entries, maxString, maxItems, depth);
    }
  }

  /** Whatever the payload: at most 1 + b + ... + b^5 nodes for b = maxItems + 1, at most five levels below
      the root, and no string longer than maxString except for one truncation marker. */
  lemma CompactionIsBounded(value: Value, maxString: nat, maxItems: nat)
    ensures Nodes(Compact(value, maxString, maxItems, 0)) <= Geometric(maxItems + 1, 5)
    ensures Bounded(Compact(value, maxString, maxItems, 0), 5, maxString)
  {
    NodesBounded(value, maxString, maxItems, 0);
    ShapeBounded(value, maxString, maxItems, 0);
  }

  // ---------------------------------------------------------------- when nothing changes

  /** No node below depth 4, no string or container over its limit. */
  predicate Fits(value: Value, maxString: nat, maxItems: nat, depth: nat)
    decreases value
  {
    depth <= MAX_DEPTH &&
    match value
    case Scalar(_) => true
    case Str(s) => |s| <= maxString
    case List(items) => |items| <= maxItems && forall k :: 0 <= k < |items| ==>
      Fits(items[k], maxString, maxItems, depth + 1)
    case Dict(entries) =>
      |entries| <= maxItems && forall k :: 0 <= k < |entries| ==> Fits(entries[k].value, maxString, maxItems, depth + 1)
  }

  predicate DistinctKeys(entries: seq<Entry>) {
    forall i, j :: 0 <= i < j < |entries| ==> entries[i].key != entries[j].key
  }

  /** A string over the limit that is its own truncation: 23 characters too long, ending in the marker
      that says so. */
  predicate SelfTruncated(s: string, maxString: nat) {
    |s| == maxString + 23 && s[maxString..] == StringMarker(23)
  }

  /** Exactly the values that compaction leaves alone: those that fit, and those in which every excess is
      already one of the markers compaction would put there. */
  predicate Stable(value: Value, maxString: nat, maxItems: nat, depth: nat)
    decreases value
  {
    if depth > MAX_DEPTH then value == Str(DEPTH_MARKER)
    else match value
      case Scalar(_) => true
      case Str(s) => |s| <= maxString || SelfTruncated(s, maxString)
      case List(items) =>
        && |items| <= maxItems + 1
        && (|items| == maxItems + 1 ==> items[maxItems] == Str(ListMarker(1)))
        && forall k :: 0 <= k < |items| && k < maxItems ==> Stable(items[k], maxString, maxItems, depth + 1)
      case Dict(entries) =>
        && |entries| <= maxItems + 1
        && (|entries| == maxItems + 1 ==> entries[maxItems] == Entry(OVERFLOW_KEY, Str(DictMarker(1))))
        && forall k :: 0 <= k < |entries| && k < maxItems ==> Stable(entries[k].value, maxString, maxItems, depth + 1)
  }

  /** Objects have distinct keys, all the way down. */
  predicate WellFormed(value: Value)
    decreases value
  {
    match value
    case Scalar(_) => true
    case Str(_) => true
    case List(items) => forall k :: 0 <= k < |items| ==> WellFormed(items[k])
    case Dict(entries) => DistinctKeys(entries) && forall k :: 0 <= k < |entries| ==> WellFormed(entries[k].value)
  }

  lemma MarkerLength(n: nat)
    ensures |StringMarker(n)| == 21 + |Decimal(n)|
    ensures n == 21 + |Decimal(n)| <==> n == 23
  {
    assert Decimal(23) == Decimal(2) + ['3'] && |Decimal(2)| == 1;
    if n >= 10 {
      DecimalLength(n);
    }
  }

  lemma {:induction false} DecimalLength(n: nat)
    ensures n >= 10 ==> |Decimal(n)| >= 2
    ensures n >= 100 ==> |Decimal(n)| <= n - 90
    ensures 10 <= n < 100 ==> |Decimal(n)| == 2
  {
    if n >= 10 {
      DecimalLength(n / 10);
    }
  }

  lemma StringStable(s: string, maxString: nat)
    ensures CompactString(s, maxString) == s <==> |s| <= maxString || SelfTruncated(s, maxString)
  {
    if |s| > maxString {
      var n := |s| - maxString;
      MarkerLength(n);
      assert s == s[..maxString] + s[maxString..];
      if CompactString(s, maxString) == s {
        assert s[maxString..] == CompactString(s, maxString)[maxString..] == StringMarker(n);
      }
    }
  }

  /** Compaction leaves each element alone exactly when it is stable one level down. */
  predicate Settled(value: Value, maxString: nat, maxItems: nat, depth: nat) {
    Compact(value, maxString, maxItems, depth) == value <==> Stable(value, maxString, maxItems, depth)
  }

  lemma ListStable(items: seq<Value>, maxString: nat, maxItems: nat, depth: nat)
    requires depth <= MAX_DEPTH
    requires forall k :: 0 <= k < |items| ==> Settled(items[k], maxString, maxItems, depth + 1)
    ensures Settled(List(items), maxString, maxItems, depth)
  {
    var n := Min(|items|, maxItems);
    var kept := CompactItems(items, maxString, maxItems, depth + 1, n);
    forall k | 0 <= k < n ensures kept[k] == items[k] <==> Stable(items[k], maxString, maxItems, depth + 1) {
      CompactItemsAt(items, maxString, maxItems, depth + 1, n, k);
      assert Settled(items[k], maxString, maxItems, depth + 1);
    }
    ListUnchanged(items, kept, maxItems);
  }

  lemma ListUnchanged(items: seq<Value>, kept: seq<Value>, maxItems: nat)
    requires |kept| == Min(|items|, maxItems)
    ensures var r := if |items| > maxItems then kept + [Str(ListMarker(|items| - maxItems))] else kept;
      r == items <==>
        && |items| <= maxItems + 1
        && (|items| == maxItems + 1 ==> items[maxItems] == Str(ListMarker(1)))
        && forall k :: 0 <= k < |items| && k < maxItems ==> kept[k] == items[k]
  {
  }

  lemma DictStable(entries: seq<Entry>, maxString: nat, maxItems: nat, depth: nat)
    requires depth <= MAX_DEPTH && DistinctKeys(entries)
    requires forall k :: 0 <= k < |entries| ==> Settled(entries[k].value, maxString, maxItems, depth + 1)
    ensures Settled(Dict(entries), maxString, maxItems, depth)
  {
    var n := Min(|entries|, maxItems);
    var kept := CompactEntries(entries, maxString, maxItems, depth + 1, n);
    EntriesStable(entries, n, maxString, maxItems, depth + 1);
    DictUnchanged(entries, kept, maxItems);
    StableDict(entries, maxString, maxItems, depth);
    var r := if |entries| > maxItems then SetEntry(kept, OVERFLOW_KEY, Str(DictMarker(|entries| - maxItems))) else kept;
    assert Compact(Dict(entries), maxString, maxItems, depth) == Dict(r);
  }

  lemma EntriesStable(entries: seq<Entry>, n: nat, maxString: nat, maxItems: nat, depth: nat)
    requires n <= |entries| && forall k :: 0 <= k < |entries| ==> Settled(entries[k].value, maxString, maxItems, depth)
    ensures Unaltered(entries, CompactEntries(entries, maxString, maxItems, depth, n)) <==>
      StableEntries(entries, n, maxString, maxItems, depth)
  {
    var kept := CompactEntries(entries, maxString, maxItems, depth, n);
    forall k | 0 <= k < n ensures kept[k] == entries[k] <==> Stable(entries[k].value, maxString, maxItems, depth) {
      CompactEntriesAt(entries, maxString, maxItems, depth, n, k);
      assert Settled(entries[k].value, maxString, maxItems, depth);
    }
  }

  predicate Unaltered(entries: seq<Entry>, kept: seq<Entry>)
    requires |kept| <= |entries|
  {
    forall k :: 0 <= k < |kept| ==> kept[k] == entries[k]
  }

  predicate StableEntries(entries: seq<Entry>, n: nat, maxString: nat, maxItems: nat, depth: nat)
    requires n <= |entries|
  {
    forall k :: 0 <= k < n ==> Stable(entries[k].value, maxString, maxItems, depth)
  }

  predicate DictFits(entries: seq<Entry>, maxItems: nat) {
    |entries| <= maxItems + 1
    && (|entries| == maxItems + 1 ==> entries[maxItems] == Entry(OVERFLOW_KEY, Str(DictMarker(1))))
  }

  lemma StableDict(entries: seq<Entry>, maxString: nat, maxItems: nat, depth: nat)
    requires depth <= MAX_DEPTH
    ensures Stable(Dict(entries), maxString, maxItems, depth) <==>
      DictFits(entries, maxItems) && StableEntries(entries, Min(|entries|, maxItems), maxString, maxItems, depth + 1)
  {
  }

  lemma {:induction false} SetEntryFresh(entries: seq<Entry>, key: string, value: Value)
    requires forall k :: 0 <= k < |entries| ==> entries[k].key != key
    ensures SetEntry(entries, key, value) == entries + [Entry(key, value)]
  {
    if entries != [] {
      SetEntryFresh(entries[1..], key, value);
    }
  }

  lemma DictUnchanged(entries: seq<Entry>, kept: seq<Entry>, maxItems: nat)
    requires |kept| == Min(|entries|, maxItems) && DistinctKeys(entries)
    requires forall k :: 0 <= k < |kept| ==> kept[k].key == entries[k].key
    ensures var r := if |entries| > maxItems
      then SetEntry(kept, OVERFLOW_KEY, Str(DictMarker(|entries| - maxItems))) else kept;
      r == entries <==> DictFits(entries, maxItems) && Unaltered(entries, kept)
  {
    if |entries| > maxItems {
      OverfullUnchanged(entries, kept, maxItems, Str(DictMarker(|entries| - maxItems)));
    }
  }

  lemma OverfullUnchanged(entries: seq<Entry>, kept: seq<Entry>, maxItems: nat, extra: Value)
    requires |entries| > |kept| == maxItems && DistinctKeys(entries)
    requires forall k :: 0 <= k < |kept| ==> kept[k].key == entries[k].key
    ensures SetEntry(kept, OVERFLOW_KEY, extra) == entries <==>
      |entries| == maxItems + 1 && entries[maxItems] == Entry(OVERFLOW_KEY, extra) && Unaltered(entries, kept)
  {
    SetEntryContents(kept, OVERFLOW_KEY, extra);
    if |entries| == maxItems + 1 && entries[maxItems].key == OVERFLOW_KEY {
      SetEntryFresh(kept, OVERFLOW_KEY, extra);
      assert SetEntry(kept, OVERFLOW_KEY, extra)[maxItems] == Entry(OVERFLOW_KEY, extra);
    }
  }

  /** Compaction returns a well-formed payload unchanged if and only if the payload is stable. */
  lemma {:induction false} UnchangedExactlyWhenStable(value: Value, maxString: nat, maxItems: nat, depth: nat)
    requires WellFormed(value)
    ensures Settled(value, maxString, maxItems, depth)
    decreases value
  {
    if depth <= MAX_DEPTH {
      match value
      case Scalar(_) =>
      case Str(s) =>
        StringStable(s, maxString);
      case List(items) =>
        forall k | 0 <= k < |items| ensures Settled(items[k], maxString, maxItems, depth + 1) {
          UnchangedExactlyWhenStable(items[k], maxString, maxItems, depth + 1);
        }
        ListStable(items, maxString, maxItems, depth);
      case Dict(entries) =>
        forall k | 0 <= k < |entries| ensures Settled(entries[k].value, maxString, maxItems, depth + 1) {
          UnchangedExactlyWhenStable(entries[k].value, maxString, maxItems, depth + 1);
        }
        DictStable(entries, maxString, maxItems, depth);
    }
  }

  /** A well-formed payload that fits comes back unchanged, whatever its depth of use. */
  lemma {:induction false} FittingIsStable(value: Value, maxString: nat, maxItems: nat, depth: nat)
    requires Fits(value, maxString, maxItems, depth)
    ensures Stable(value, maxString, maxItems, depth)
    decreases value
  {
    match value
    case Scalar(_) =>
    case Str(_) =>
    case List(items) =>
      forall k | 0 <= k < |items| ensures Stable(items[k], maxString, maxItems, depth + 1) {
        FittingIsStable(items[k], maxString, maxItems, depth + 1);
      }
    case Dict(entries) =>
      forall k | 0 <= k < |entries| ensures Stable(entries[k].value, maxString, maxItems, depth + 1) {
        FittingIsStable(entries[k].value, maxString, maxItems, depth + 1);
      }
  }

  lemma FittingPayloadsAreUnchanged(value: Value, maxString: nat, maxItems: nat)
    requires WellFormed(value) && Fits(value, maxString, maxItems, 0)
    ensures Compact(value, maxString, maxItems, 0) == value
  {
    FittingIsStable(value, maxString, maxItems, 0);
    UnchangedExactlyWhenStable(value, maxString, maxItems, 0);
  }
}
