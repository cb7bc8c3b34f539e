/** The fixed-window rate limiter of the HTTP guards. */
module RateLimiter {
  import opened Prelude

  datatype Decision = Decision(allowed: bool, limit: nat, remaining: nat, retryAfterSeconds: nat)

  datatype Window = Window(start: real, count: nat)

  type PositiveSeconds = n: nat | n >= 1 witness 1

  datatype Limits = Limits(limit: nat, window: PositiveSeconds)

  // ---------------------------------------------------------------- one check of one key

  predicate Expired(c: Limits, w: Window, now: real) {
    now - w.start >= c.window as real
  }

  /** The window a check at `now` is counted in, that check included. */
  function Counted(c: Limits, w: Option<Window>, now: real): Window {
    match w
    case None => Window(now, 1)
    case Some(open) => if Expired(c, open, now) then Window(now, 1) else open.(count := open.count + 1)
  }

  /** Seconds a denied caller is told to wait. The argument of Floor is never negative, so flooring
      is the truncation the source does. */
  function RetryAfter(c: Limits, start: real, now: real): nat {
    Max(1, (c.window as real - (now - start)).Floor)
  }

  function Decide(c: Limits, counted: Window, now: real): Decision {
    var allowed := counted.count <= c.limit;
    Decision(allowed, c.limit, Max(0, c.limit - counted.count),
      if allowed then 0 else RetryAfter(c, counted.start, now))
  }

  function After(c: Limits, w: Option<Window>, now: real): Option<Window> {
    if c.limit == 0 then w else Some(Counted(c, w, now))
  }

  function Answer(c: Limits, w: Option<Window>, now: real): Decision {
    if c.limit == 0 then Decision(true, 0, 0, 0) else Decide(c, Counted(c, w, now), now)
  }

  // ---------------------------------------------------------------- the class

  function Lookup(windows: map<string, Window>, key: string): Option<Window> {
    if key in windows then Some(windows[key]) else None
  }

  predicate Stale(c: Limits, w: Window, now: real) {
    now - w.start >= (c.window * 2) as real
  }

  function Pruned(c: Limits, windows: map<string, Window>, now: real): map<string, Window> {
    map key | key in windows && !Stale(c, windows[key], now) :: windows[key]
  }

  class FixedWindowRateLimiter {
    const limits: Limits
    var windows: map<string, Window>

    constructor (limit: int, windowSeconds: int)
      ensures limits == Limits(Max(0, limit), Max(1, windowSeconds))
      ensures windows == map[]
    {
      limits := Limits(Max(0, limit), Max(1, windowSeconds));
      windows := map[];
    }

    method Check(key: string, now: real) returns (decision: Decision)
      modifies this`windows
      ensures decision == Answer(limits, Lookup(old(windows), key), now)
      ensures windows == AfterOperation(limits, old(windows), Operation.Check(key, now))
    {
      if limits.limit <= 0 {
        return Decision(true, 0, 0, 0);
      }
      var windowStart, count := now, 0;
      if key in windows {
        windowStart, count := windows[key].start, windows[key].count;
      }
      if now - windowStart >= limits.window as real {
        windowStart := now;
        count := 0;
      }
      count := count + 1;
      windows := windows[key := Window(windowStart, count)];
      var remaining := Max(0, limits.limit - count);
      var retryAfter := Max(1, (limits.window as real - (now - windowStart)).Floor);
      decision :=
        Decision(count <= limits.limit, limits.limit, remaining, if count <= limits.limit then 0 else retryAfter);
    }

    method Prune(now: real)
      modifies this`windows
      ensures windows == Pruned(limits, old(windows), now)
    {
      var expired := set key | key in windows && now - windows[key].start >= (limits.window * 2) as real;
      var pending := expired;
      while pending != {}
        invariant pending <= expired
        invariant windows == old(windows) - (expired - pending)
        decreases |pending|
      {
        var key :| key in pending;
        windows := windows - {key};
        pending := pending - {key};
      }
      assert windows.Keys == old(windows).Keys - expired;
      assert windows.Keys == Pruned(limits, old(windows), now).Keys;
    }

    /** Serve a trace, keeping the decisions given to one key. */
    method Serve(operations: seq<Operation>, key: string) returns (decisions: seq<Decision>)
      requires windows == map[] && NonDecreasing(operations)
      modifies this`windows
      ensures decisions == KeyDecisions(limits, None, CheckTimes(operations, key))
    {
      decisions := [];
      ghost var all := DecisionsFor(limits, map[], operations, key);
      assert operations[0..] == operations && windows == map[];
      for k := 0 to |operations|
        invariant decisions + DecisionsFor(limits, windows, operations[k..], key) == all
      {
        UnfoldDecisions(limits, windows, operations, k, key);
        ghost var rest :=
          DecisionsFor(limits, AfterOperation(limits, windows, operations[k]), operations[k + 1..], key);
        match operations[k] {
          case Check(checked, now) =>
            var decision := Check(checked, now);
            if checked == key {
              assert decisions + ([decision] + rest) == (decisions + [decision]) + rest;
              decisions := decisions + [decision];
            } else {
              assert [] + rest == rest;
            }
          case Prune(now) =>
            Prune(now);
            assert [] + rest == rest;
        }
      }
      PruningIsInvisible(limits, operations, key);
    }
  }

  // ---------------------------------------------------------------- traces

  datatype Operation = Check(key: string, now: real) | Prune(now: real)

  predicate NonDecreasing(operations: seq<Operation>) {
    forall j, k :: 0 <= j < k < |operations| ==> operations[j].now <= operations[k].now
  }

  function AfterOperation(c: Limits, windows: map<string, Window>, op: Operation): map<string, Window> {
    match op
    case Check(key, now) => if c.limit == 0 then windows else windows[key := Counted(c, Lookup(windows, key), now)]
    case Prune(now) => Pruned(c, windows, now)
  }

  /** The decisions a limiter shared by all keys gives to one key along a trace. */
  function DecisionsFor(c: Limits, windows: map<string, Window>, operations: seq<Operation>, key: string): seq<Decision>
    decreases operations
  {
    if operations == [] then []
    else
      var op := operations[0];
      (if op.Check? && op.key == key then [Answer(c, Lookup(windows, key), op.now)] else []) +
      DecisionsFor(c, AfterOperation(c, windows, op), operations[1..], key)
  }

  lemma UnfoldDecisions(c: Limits, windows: map<string, Window>, operations: seq<Operation>, k: nat, key: string)
    requires k < |operations|
    ensures DecisionsFor(c, windows, operations[k..], key) ==
      (if operations[k].Check? && operations[k].key == key
        then [Answer(c, Lookup(windows, key), operations[k].now)] else []) +
      DecisionsFor(c, AfterOperation(c, windows, operations[k]), operations[k + 1..], key)
  {
    assert operations[k..][1..] == operations[k + 1..];
  }

  /** When a trace checks a key. */
  function CheckTimes(operations: seq<Operation>, key: string): seq<real> {
    if operations == [] then []
    else
      (if operations[0].Check? && operations[0].key == key then [operations[0].now] else [])
      + CheckTimes(operations[1..], key)
  }

  /** The reference limiter: one key only, never pruned. */
  function KeyDecisions(c: Limits, w: Option<Window>, times: seq<real>): (decisions: seq<Decision>)
    ensures |decisions| == |times|
    decreases times
  {
    if times == [] then [] else [Answer(c, w, times[0])] + KeyDecisions(c, After(c, w, times[0]), times[1..])
  }

  /** The shared limiter's entry may differ from the reference only by having been pruned. */
  predicate PrunedFrom(c: Limits, entry: Option<Window>, reference: Option<Window>, now: real) {
    entry == reference || (entry == None && Expired(c, reference.value, now))
  }

  lemma {:induction false} DecisionsAgree(
    c: Limits, windows: map<string, Window>, reference: Option<Window>, operations: seq<Operation>, key: string)
    requires NonDecreasing(operations)
    requires operations != [] ==> PrunedFrom(c, Lookup(windows, key), reference, operations[0].now)
    ensures DecisionsFor(c, windows, operations, key) == KeyDecisions(c, reference, CheckTimes(operations, key))
    decreases operations
  {
    if operations != [] {
      var op, rest := operations[0], operations[1..];
      var next := AfterOperation(c, windows, op);
      assert rest != [] ==> rest[0].now == operations[1].now >= op.now;
      if op.Check? && op.key == key {
        assert Lookup(next, key) == After(c, Lookup(windows, key), op.now);
        DecisionsAgree(c, next, After(c, reference, op.now), rest, key);
        assert CheckTimes(operations, key)[1..] == CheckTimes(rest, key);
      } else {
        DecisionsAgree(c, next, reference, rest, key);
        assert CheckTimes(operations, key) == CheckTimes(rest, key);
      }
    }
  }

  /** Pruning cannot be observed and keys do not interfere: along every non-decreasing trace, each
      decision for a key, in all its fields, is that of a limiter that only ever saw this key. */
  lemma PruningIsInvisible(c: Limits, operations: seq<Operation>, key: string)
    requires NonDecreasing(operations)
    ensures DecisionsFor(c, map[], operations, key) == KeyDecisions(c, None, CheckTimes(operations, key))
  {
    DecisionsAgree(c, map[], None, operations, key);
  }

  // ---------------------------------------------------------------- the sliding bound

  function Closed(low: real, length: real): real -> bool {
    (time: real) => low <= time <= low + length
  }

  function HalfOpen(low: real, length: real): real -> bool {
    (time: real) => low <= time < low + length
  }

  /** How many checks made at a time inside the interval were allowed. */
  function AllowedInside(times: seq<real>, decisions: seq<Decision>, inside: real -> bool): nat
    requires |times| == |decisions|
  {
    if times == [] then 0
    else (if inside(times[0]) && decisions[0].allowed then 1 else 0) + AllowedInside(times[1..], decisions[1..], inside)
  }

  function AllowedFrom(c: Limits, w: Option<Window>, times: seq<real>, inside: real -> bool): nat {
    AllowedInside(times, KeyDecisions(c, w, times), inside)
  }

  /** Checks the open window can still allow. */
  function Left(c: Limits, w: Window): nat { Max(0, c.limit - w.count) }

  /** What can still be allowed inside [low, low + window], given the open window. */
  function ClosedCeiling(c: Limits, w: Option<Window>, low: real): nat {
    if w == None || w.value.start + c.window as real <= low then 2 * c.limit
    else if w.value.start <= low then Left(c, w.value) + c.limit
    else if w.value.start <= low + c.window as real then Left(c, w.value)
    else 0
  }

  /** What can still be allowed inside [low, low + window), given the open window. */
  function HalfOpenCeiling(c: Limits, w: Option<Window>, low: real): int {
    if w == None || w.value.start + c.window as real <= low then 2 * c.limit - 1
    else if w.value.start < low then Left(c, w.value) + c.limit
    else if w.value.start < low + c.window as real then Left(c, w.value)
    else 0
  }

  /** Times that never go back, starting no earlier than the open window. */
  predicate Onward(w: Option<Window>, times: seq<real>) {
    && (forall j, k :: 0 <= j < k < |times| ==> times[j] <= times[k])
    && (w.Some? && times != [] ==> w.value.start <= times[0])
  }

  lemma {:induction false} CheckTimesOnward(operations: seq<Operation>, key: string)
    requires NonDecreasing(operations)
    ensures Onward(None, CheckTimes(operations, key))
    ensures forall k :: 0 <= k < |CheckTimes(operations, key)| ==>
      operations != [] && operations[0].now <= CheckTimes(operations, key)[k]
  {
    if operations != [] {
      CheckTimesOnward(operations[1..], key);
      assert operations[1..] != [] ==> operations[0].now <= operations[1..][0].now;
    }
  }

  lemma {:induction false} ClosedCeilingHolds(c: Limits, w: Option<Window>, times: seq<real>, low: real)
    requires c.limit > 0 && (w.Some? ==> w.value.count >= 1) && Onward(w, times)
    ensures AllowedFrom(c, w, times, Closed(low, c.window as real)) <= ClosedCeiling(c, w, low)
    decreases times
  {
    if times != [] {
      ClosedCeilingHolds(c, After(c, w, times[0]), times[1..], low);
      assert KeyDecisions(c, w, times)[1..] == KeyDecisions(c, After(c, w, times[0]), times[1..]);
    }
  }

  lemma {:induction false} HalfOpenCeilingHolds(c: Limits, w: Option<Window>, times: seq<real>, low: real)
    requires c.limit > 0 && (w.Some? ==> w.value.count >= 1) && Onward(w, times)
    ensures AllowedFrom(c, w, times, HalfOpen(low, c.window as real)) <= HalfOpenCeiling(c, w, low)
    decreases times
  {
    if times != [] {
      HalfOpenCeilingHolds(c, After(c, w, times[0]), times[1..], low);
      assert KeyDecisions(c, w, times)[1..] == KeyDecisions(c, After(c, w, times[0]), times[1..]);
    }
  }

  /** Along every non-decreasing trace of checks and prunes, at most 2 * limit checks of a key are
      allowed within a closed interval of one window length, and at most 2 * limit - 1 within a
      half-open one. */
  lemma SlidingBound(c: Limits, operations: seq<Operation>, key: string, low: real)
    requires c.limit > 0 && NonDecreasing(operations)
    ensures var times := CheckTimes(operations, key); var decisions := DecisionsFor(c, map[], operations, key);
      && |times| == |decisions|
      && AllowedInside(times, decisions, Closed(low, c.window as real)) <= 2 * c.limit
      && AllowedInside(times, decisions, HalfOpen(low, c.window as real)) <= 2 * c.limit - 1
  {
    PruningIsInvisible(c, operations, key);
    CheckTimesOnward(operations, key);
    ClosedCeilingHolds(c, None, CheckTimes(operations, key), low);
    HalfOpenCeilingHolds(c, None, CheckTimes(operations, key), low);
  }

  // ---------------------------------------------------------------- the bounds are attained

  function Repeat(time: real, n: nat): seq<real> { seq(n, _ => time) }

  lemma {:induction false} RepeatAllowed(
    c: Limits, w: Window, time: real, n: nat, rest: seq<real>, inside: real -> bool)
    requires c.limit > 0 && !Expired(c, w, time)
    ensures AllowedFrom(c, Some(w), Repeat(time, n) + rest, inside) ==
      (if inside(time) then Min(n, Left(c, w)) else 0) +
      AllowedFrom(c, Some(w.(count := w.count + n)), rest, inside)
    decreases n
  {
    if n == 0 {
      assert Repeat(time, n) + rest == rest;
    } else {
      var times := Repeat(time, n) + rest;
      var next := w.(count := w.count + 1);
      assert times[0] == time && times[1..] == Repeat(time, n - 1) + rest;
      assert KeyDecisions(c, Some(w), times)[1..] == KeyDecisions(c, Some(next), times[1..]);
      RepeatAllowed(c, next, time, n - 1, rest, inside);
    }
  }

  /** limit checks at time 0 and limit more one window later fill the closed interval. */
  lemma ClosedBoundIsAttained(c: Limits)
    requires c.limit > 0
    ensures var w := c.window as real;
      AllowedFrom(c, None, [0.0] + Repeat(0.0, c.limit - 1) + [w] + Repeat(w, c.limit - 1), Closed(0.0, w)) ==
        2 * c.limit
  {
    var w := c.window as real;
    var inside := Closed(0.0, w);
    var second := [w] + Repeat(w, c.limit - 1);
    var times := [0.0] + Repeat(0.0, c.limit - 1) + [w] + Repeat(w, c.limit - 1);
    assert times[1..] == Repeat(0.0, c.limit - 1) + second;
    assert KeyDecisions(c, None, times)[1..] == KeyDecisions(c, Some(Window(0.0, 1)), times[1..]);
    RepeatAllowed(c, Window(0.0, 1), 0.0, c.limit - 1, second, inside);
    var full := Some(Window(0.0, c.limit));
    assert second[1..] == Repeat(w, c.limit - 1) + [];
    assert KeyDecisions(c, full, second)[1..] == KeyDecisions(c, Some(Window(w, 1)), second[1..]);
    RepeatAllowed(c, Window(w, 1), w, c.limit - 1, [], inside);
  }

  /** One check at time 0, limit - 1 half a window later and limit more after a whole window. */
  lemma HalfOpenBoundIsAttained(c: Limits)
    requires c.limit > 0
    ensures var w := c.window as real;
      AllowedFrom(c, None, [0.0] + Repeat(w / 2.0, c.limit - 1) + [w] + Repeat(w, c.limit - 1), HalfOpen(w / 2.0, w)) ==
        2 * c.limit - 1
  {
    var w := c.window as real;
    var inside := HalfOpen(w / 2.0, w);
    var second := [w] + Repeat(w, c.limit - 1);
    var times := [0.0] + Repeat(w / 2.0, c.limit - 1) + [w] + Repeat(w, c.limit - 1);
    assert times[1..] == Repeat(w / 2.0, c.limit - 1) + second;
    assert KeyDecisions(c, None, times)[1..] == KeyDecisions(c, Some(Window(0.0, 1)), times[1..]);
    RepeatAllowed(c, Window(0.0, 1), w / 2.0, c.limit - 1, second, inside);
    var full := Some(Window(0.0, c.limit));
    assert second[1..] == Repeat(w, c.limit - 1) + [];
    assert KeyDecisions(c, full, second)[1..] == KeyDecisions(c, Some(Window(w, 1)), second[1..]);
    RepeatAllowed(c, Window(w, 1), w, c.limit - 1, [], inside);
  }

  // ---------------------------------------------------------------- retry_after

  function AfterAll(c: Limits, w: Option<Window>, times: seq<real>): Option<Window>
    decreases times
  {
    if times == [] then w else AfterAll(c, After(c, w, times[0]), times[1..])
  }

  predicate AllDenied(decisions: seq<Decision>) {
    forall k :: 0 <= k < |decisions| ==> !decisions[k].allowed
  }

  /** Denied checks leave the window's start alone: they never postpone the reset. */
  lemma {:induction false} DenialsKeepTheStart(c: Limits, w: Option<Window>, times: seq<real>)
    requires c.limit > 0 && times != [] && AllDenied(KeyDecisions(c, w, times))
    ensures w.Some? && AfterAll(c, w, times).Some?
    ensures AfterAll(c, w, times).value.start == w.value.start && AfterAll(c, w, times).value.count > c.limit
    ensures !Expired(c, w.value, times[0])
    decreases times
  {
    assert !KeyDecisions(c, w, times)[0].allowed;
    if |times| > 1 {
      var rest := KeyDecisions(c, After(c, w, times[0]), times[1..]);
      assert rest == KeyDecisions(c, w, times)[1..];
      DenialsKeepTheStart(c, After(c, w, times[0]), times[1..]);
    }
  }

  /** After a denial, and any further denied checks, the next check is allowed exactly when a whole
      window has passed since the window opened. Waiting retry_after + 1 seconds is always enough. */
  lemma RetryAfterPlusOneSuffices(c: Limits, w: Option<Window>, times: seq<real>, next: real)
    requires c.limit > 0 && times != [] && AllDenied(KeyDecisions(c, w, times))
    ensures w.Some?
    ensures Answer(c, AfterAll(c, w, times), next).allowed <==> next - w.value.start >= c.window as real
    ensures next >= times[0] + KeyDecisions(c, w, times)[0].retryAfterSeconds as real + 1.0 ==>
      Answer(c, AfterAll(c, w, times), next).allowed
  {
    DenialsKeepTheStart(c, w, times);
    assert !KeyDecisions(c, w, times)[0].allowed;
  }

  /** Waiting exactly retry_after seconds is enough if and only if the time left in the window at
      the denial was a whole number of seconds or less than one. */
  lemma RetryAfterSufficesExactlyWhen(c: Limits, w: Option<Window>, times: seq<real>)
    requires c.limit > 0 && times != [] && AllDenied(KeyDecisions(c, w, times))
    ensures w.Some?
    ensures var left := c.window as real - (times[0] - w.value.start);
      Answer(c, AfterAll(c, w, times), times[0] + KeyDecisions(c, w, times)[0].retryAfterSeconds as real).allowed
      <==> (left == left.Floor as real || left < 1.0)
  {
    DenialsKeepTheStart(c, w, times);
    assert !KeyDecisions(c, w, times)[0].allowed;
  }

  /** With times in whole seconds, retry_after itself is enough. */
  lemma RetryAfterSufficesForWholeSeconds(c: Limits, w: Option<Window>, times: seq<real>)
    requires c.limit > 0 && times != [] && AllDenied(KeyDecisions(c, w, times))
    requires times[0] == times[0].Floor as real
    requires w.Some? ==> w.value.start == w.value.start.Floor as real
    ensures Answer(c, AfterAll(c, w, times), times[0] + KeyDecisions(c, w, times)[0].retryAfterSeconds as real).allowed
  {
    RetryAfterSufficesExactlyWhen(c, w, times);
    WholeRemainder(c.window, times[0], w.value.start);
  }

  lemma WholeRemainder(window: int, now: real, start: real)
    requires now == now.Floor as real && start == start.Floor as real
    ensures var left := window as real - (now - start); left == left.Floor as real
  {
    assert window as real - (now - start) == (window - (now.Floor - start.Floor)) as real;
  }

  /** For every window of at least two seconds: on a fresh limiter that allows one check, a caller who checks
      at 0 and 0.5 is told to wait window - 1 seconds, waits exactly that long, and is denied again. With a
      window of ten, these are checks at 0, 0.5 and 9.5. */
  lemma RetryAfterCanBeTooShort(window: PositiveSeconds, key: string)
    requires window >= 2
    ensures var c := Limits(1, window); var last := window as real - 0.5;
      var trace := [Operation.Check(key, 0.0), Operation.Check(key, 0.5), Operation.Check(key, last)];
      && NonDecreasing(trace) && last == 0.5 + (window - 1) as real
      && DecisionsFor(c, map[], trace, key) ==
          [Decision(true, 1, 0, 0), Decision(false, 1, 0, window - 1), Decision(false, 1, 0, 1)]
  {
    var c, last := Limits(1, window), window as real - 0.5;
    var trace := [Operation.Check(key, 0.0), Operation.Check(key, 0.5), Operation.Check(key, last)];
    var w1 := map[key := Window(0.0, 1)];
    var w2 := map[key := Window(0.0, 2)];
    assert AfterOperation(c, map[], trace[0]) == w1 && AfterOperation(c, w1, trace[1]) == w2;
    UnfoldDecisions(c, w2, trace, 2, key);
    UnfoldDecisions(c, w1, trace, 1, key);
    UnfoldDecisions(c, map[], trace, 0, key);
    assert trace[0..] == trace && trace[3..] == [];
    assert RetryAfter(c, 0.0, 0.5) == window - 1 by {
      assert (window as real - 0.5).Floor == window - 1;
    }
    assert RetryAfter(c, 0.0, last) == 1;
  }
}
