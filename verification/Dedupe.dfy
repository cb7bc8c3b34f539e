/** Keeping the first item of each key, in order: the loop with a `seen` set that several components run. */
module Dedupe {

  function Keys<T(==), K(==)>(items: seq<T>, key: T -> K): set<K> { set x | x in items :: key(x) }

  function Deduped<T(==), K(==)>(items: seq<T>, key: T -> K): seq<T> {
    if items == [] then []
    else
      var last := items[|items| - 1];
      var earlier := items[..|items| - 1];
      Deduped(earlier, key) + (if key(last) in Keys(earlier, key) then [] else [last])
  }

  /** What is kept when further items are gone through. */
  function Extended<T(==), K(==)>(kept: seq<T>, more: seq<T>, key: T -> K): seq<T> {
    if more == [] then kept
    else
      var before := Extended(kept, more[..|more| - 1], key);
      before + Fresh(before, more[|more| - 1], key)
  }

  /** The item itself, if its key is new. */
  function Fresh<T(==), K(==)>(kept: seq<T>, x: T, key: T -> K): seq<T> {
    if key(x) in Keys(kept, key) then [] else [x]
  }

  predicate DistinctKeys<T, K(==)>(items: seq<T>, key: T -> K) {
    forall i, j :: 0 <= i < j < |items| ==> key(items[i]) != key(items[j])
  }

  /** items[i] is the first item with its key. */
  predicate IsFirst<T, K(==)>(items: seq<T>, key: T -> K, i: nat)
    requires i < |items|
  {
    forall j :: 0 <= j < i ==> key(items[j]) != key(items[i])
  }

  lemma KeysAppend<T, K>(items: seq<T>, x: T, key: T -> K)
    ensures Keys(items + [x], key) == Keys(items, key) + {key(x)}
  {
  }

  lemma DedupedAppend<T, K>(items: seq<T>, x: T, key: T -> K)
    ensures Deduped(items + [x], key) == Deduped(items, key) + (if key(x) in Keys(items, key) then [] else [x])
  {
    assert (items + [x])[..|items|] == items;
  }

  lemma DistinctAppend<T, K>(items: seq<T>, x: T, key: T -> K)
    requires DistinctKeys(items, key) && key(x) !in Keys(items, key)
    ensures DistinctKeys(items + [x], key)
  {
    assert forall i :: 0 <= i < |items| ==> items[i] in items;
  }

  lemma DistinctWithLast<T, K>(items: seq<T>, x: T, key: T -> K)
    ensures DistinctKeys(items + [x], key) <==> DistinctKeys(items, key) && key(x) !in Keys(items, key)
  {
    var all := items + [x];
    assert forall k {:trigger items[k]} :: 0 <= k < |items| ==> items[k] == all[k] && items[k] in items;
    if DistinctKeys(items, key) && key(x) !in Keys(items, key) {
      DistinctAppend(items, x, key);
    }
    if key(x) in Keys(items, key) {
      var k :| 0 <= k < |items| && key(items[k]) == key(x);
      assert key(all[k]) == key(all[|items|]);
    }
  }

  /** Deduplication keeps every key exactly once. */
  lemma {:induction false} DedupedKeys<T, K>(items: seq<T>, key: T -> K)
    ensures Keys(Deduped(items, key), key) == Keys(items, key)
    ensures DistinctKeys(Deduped(items, key), key)
  {
    if items != [] {
      var earlier, last := items[..|items| - 1], items[|items| - 1];
      DedupedKeys(earlier, key);
      assert items == earlier + [last];
      KeysAppend(earlier, last, key);
      if key(last) !in Keys(earlier, key) {
        KeysAppend(Deduped(earlier, key), last, key);
        DistinctAppend(Deduped(earlier, key), last, key);
      }
    }
  }

  lemma ExtendedAppend<T, K>(kept: seq<T>, more: seq<T>, x: T, key: T -> K)
    ensures Extended(kept, more + [x], key) == Extended(kept, more, key) + Fresh(Extended(kept, more, key), x, key)
  {
    assert (more + [x])[..|more|] == more;
  }

  lemma {:induction false} ExtendedConcat<T, K>(kept: seq<T>, xs: seq<T>, ys: seq<T>, key: T -> K)
    ensures Extended(kept, xs + ys, key) == Extended(Extended(kept, xs, key), ys, key)
  {
    if ys == [] {
      assert xs + ys == xs;
    } else {
      var earlier, last := ys[..|ys| - 1], ys[|ys| - 1];
      assert xs + ys == (xs + earlier) + [last] && ys == earlier + [last];
      ExtendedConcat(kept, xs, earlier, key);
      ExtendedAppend(kept, xs + earlier, last, key);
      ExtendedAppend(Extended(kept, xs, key), earlier, last, key);
    }
  }

  lemma ExtendedOnce<T, K>(kept: seq<T>, x: T, key: T -> K)
    ensures Extended(kept, [x], key) == kept + Fresh(kept, x, key)
  {
    ExtendedAppend(kept, [], x, key);
    assert [] + [x] == [x];
  }

  /** Going through further items is deduplicating all of them. */
  lemma {:induction false} ExtendedDeduped<T, K>(xs: seq<T>, ys: seq<T>, key: T -> K)
    ensures Extended(Deduped(xs, key), ys, key) == Deduped(xs + ys, key)
  {
    if ys == [] {
      assert xs + ys == xs;
    } else {
      var earlier, last := ys[..|ys| - 1], ys[|ys| - 1];
      assert xs + ys == (xs + earlier) + [last];
      ExtendedDeduped(xs, earlier, key);
      DedupedAppend(xs + earlier, last, key);
      DedupedKeys(xs + earlier, key);
    }
  }

  predicate First<T(==), K(==)>(items: seq<T>, key: T -> K, x: T) {
    exists i :: 0 <= i < |items| && items[i] == x && IsFirst(items, key, i)
  }

  lemma FirstAppend<T, K>(items: seq<T>, last: T, key: T -> K, x: T)
    ensures First(items + [last], key, x) <==> First(items, key, x) || (x == last && key(last) !in Keys(items, key))
  {
    var all := items + [last];
    assert forall j :: 0 <= j < |items| ==> items[j] == all[j];
    if First(items, key, x) {
      var i :| 0 <= i < |items| && items[i] == x && IsFirst(items, key, i);
      assert all[i] == x && IsFirst(all, key, i);
    }
    if First(all, key, x) {
      var i :| 0 <= i < |all| && all[i] == x && IsFirst(all, key, i);
      if i < |items| {
        assert items[i] == x && IsFirst(items, key, i);
      } else {
        forall y | y in items ensures key(y) != key(last) {
          var j :| 0 <= j < |items| && items[j] == y;
          assert all[j] == y;
        }
      }
    }
    if x == last && key(last) !in Keys(items, key) {
      assert forall j :: 0 <= j < |items| ==> all[j] in items;
      assert all[|items|] == x && IsFirst(all, key, |items|);
    }
  }

  /** What is kept are the first items of their keys. */
  lemma {:induction false} DedupedAreFirst<T, K>(items: seq<T>, key: T -> K, x: T)
    ensures x in Deduped(items, key) <==> First(items, key, x)
  {
    if items != [] {
      var earlier, last := items[..|items| - 1], items[|items| - 1];
      DedupedAreFirst(earlier, key, x);
      assert items == earlier + [last];
      FirstAppend(earlier, last, key, x);
    }
  }

  lemma KeysConcat<T, K>(xs: seq<T>, ys: seq<T>, key: T -> K)
    ensures Keys(xs + ys, key) == Keys(xs, key) + Keys(ys, key)
  {
  }

  lemma SameKeys<T, K>(xs: seq<T>, ys: seq<T>, key: T -> K)
    requires |xs| == |ys| && forall k :: 0 <= k < |xs| ==> key(xs[k]) == key(ys[k])
    ensures Keys(xs, key) == Keys(ys, key)
  {
    forall x ensures x in Keys(xs, key) <==> x in Keys(ys, key) {
      if x in Keys(xs, key) {
        var k :| 0 <= k < |xs| && key(xs[k]) == x;
        assert ys[k] in ys;
      }
      if x in Keys(ys, key) {
        var k :| 0 <= k < |ys| && key(ys[k]) == x;
        assert xs[k] in xs;
      }
    }
  }

  /** The first items of a concatenation: those of the front, and those of the back whose keys are new. */
  lemma {:induction false} FirstConcat<T, K>(xs: seq<T>, ys: seq<T>, key: T -> K, x: T)
    ensures First(xs + ys, key, x) <==> First(xs, key, x) || (First(ys, key, x) && key(x) !in Keys(xs, key))
  {
    if ys == [] {
      assert xs + ys == xs;
    } else {
      var earlier, last := ys[..|ys| - 1], ys[|ys| - 1];
      assert xs + ys == (xs + earlier) + [last] && ys == earlier + [last];
      FirstConcat(xs, earlier, key, x);
      FirstAppend(xs + earlier, last, key, x);
      FirstAppend(earlier, last, key, x);
      KeysConcat(xs, earlier, key);
    }
  }

  lemma {:induction false} DistinctIsDeduped<T, K>(items: seq<T>, key: T -> K)
    requires DistinctKeys(items, key)
    ensures Deduped(items, key) == items
  {
    if items != [] {
      var earlier, last := items[..|items| - 1], items[|items| - 1];
      assert items == earlier + [last];
      DistinctWithLast(earlier, last, key);
      DistinctIsDeduped(earlier, key);
      DedupedAppend(earlier, last, key);
    }
  }

  lemma DedupeIsIdempotent<T, K>(items: seq<T>, key: T -> K)
    ensures Deduped(Deduped(items, key), key) == Deduped(items, key)
  {
    DedupedKeys(items, key);
    DistinctIsDeduped(Deduped(items, key), key);
  }

  // ---------------------------------------------------------------- records made from what is kept

  function Mapped<T, U>(items: seq<T>, f: T -> U): (mapped: seq<U>)
    ensures |mapped| == |items| && forall k :: 0 <= k < |items| ==> mapped[k] == f(items[k])
  {
    seq(|items|, k requires 0 <= k < |items| => f(items[k]))
  }

  lemma MappedAre<T, U>(items: seq<T>, f: T -> U, y: U)
    ensures y in Mapped(items, f) <==> exists x :: x in items && f(x) == y
  {
    var mapped := Mapped(items, f);
    if y in mapped {
      var k :| 0 <= k < |mapped| && mapped[k] == y;
      assert items[k] in items;
    }
    if x :| x in items && f(x) == y {
      var k :| 0 <= k < |items| && items[k] == x;
      assert mapped[k] == y;
    }
  }

  lemma MappedFirst<T, K, U>(items: seq<T>, key: T -> K, f: T -> U, y: U)
    ensures y in Mapped(Deduped(items, key), f) <==> exists x :: First(items, key, x) && f(x) == y
  {
    MappedAre(Deduped(items, key), f, y);
    forall x ensures x in Deduped(items, key) <==> First(items, key, x) {
      DedupedAreFirst(items, key, x);
    }
  }

  /** Records that keep the key of what they are made from are as distinct, and have the same keys. */
  lemma MappedKeys<T, K, U>(items: seq<T>, key: T -> K, f: T -> U, newKey: U -> K)
    requires forall x :: newKey(f(x)) == key(x)
    ensures Keys(Mapped(items, f), newKey) == Keys(items, key)
    ensures DistinctKeys(items, key) ==> DistinctKeys(Mapped(items, f), newKey)
  {
    var mapped := Mapped(items, f);
    forall k ensures k in Keys(mapped, newKey) <==> k in Keys(items, key) {
      if k in Keys(mapped, newKey) {
        var y :| y in mapped && newKey(y) == k;
        MappedAre(items, f, y);
      }
      if k in Keys(items, key) {
        var x :| x in items && key(x) == k;
        MappedAre(items, f, f(x));
      }
    }
  }

  /** Where a deduplicating loop is when it has gone through the items in `done`. */
  predicate Progress<T(==), K(==), U(==)>(
    done: seq<T>, key: T -> K, f: T -> U, seen: set<K>, before: seq<U>, records: seq<U>, created: nat)
  {
    && seen == Keys(done, key)
    && records == before + Mapped(Deduped(done, key), f)
    && created == |Deduped(done, key)|
  }

  lemma ProgressSeen<T, K, U>(
    done: seq<T>, key: T -> K, f: T -> U, seen: set<K>, before: seq<U>, records: seq<U>, created: nat, x: T)
    requires Progress(done, key, f, seen, before, records, created) && key(x) in seen
    ensures Progress(done + [x], key, f, seen, before, records, created)
  {
    KeysAppend(done, x, key);
    DedupedAppend(done, x, key);
    assert Deduped(done, key) + [] == Deduped(done, key);
    assert seen + {key(x)} == seen;
  }

  lemma ProgressNew<T, K, U>(
    done: seq<T>, key: T -> K, f: T -> U, seen: set<K>, before: seq<U>, records: seq<U>, created: nat, x: T)
    requires Progress(done, key, f, seen, before, records, created) && key(x) !in seen
    ensures Progress(done + [x], key, f, seen + {key(x)}, before, records + [f(x)], created + 1)
  {
    KeysAppend(done, x, key);
    DedupedAppend(done, x, key);
    MappedAppend(Deduped(done, key), f, x);
    Associates(before, Mapped(Deduped(done, key), f), [f(x)]);
  }

  lemma MappedAppend<T, U>(items: seq<T>, f: T -> U, x: T)
    ensures Mapped(items + [x], f) == Mapped(items, f) + [f(x)]
  {
  }

  lemma Associates<U>(a: seq<U>, b: seq<U>, c: seq<U>)
    ensures (a + b) + c == a + (b + c)
  {
  }
}
