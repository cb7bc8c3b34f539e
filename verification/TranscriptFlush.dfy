/** Streaming an agent session's recorded events to the platform: an append-only log, a cursor into
    it and a sequence counter, with posts that may fail. */
module TranscriptFlush {
  import opened Prelude

  /** A recorded event; an empty session id stands for none. */
  datatype Event = Event(eventType: string, sessionId: string, contentText: Option<string>, data: string)

  datatype Payload = Payload(eventType: string, sessionId: string, data: string)

  datatype PlatformEvent = PlatformEvent(
    seqNo: nat, eventType: string, sessionId: string, runtimeId: string, payload: Payload, contentText: Option<string>)

  datatype Body = Body(agentRunId: string, runtimeId: string)

  function OrElse(text: string, fallback: string): string {
    if text != "" then text else fallback
  }

  /** p is event e under number n, attributed to its own session or, failing that, to sessionId. */
  predicate Carries(p: PlatformEvent, n: nat, e: Event, body: Body) {
    && p.seqNo == n
    && p.eventType == OrElse(e.eventType, "event")
    && p.runtimeId == body.runtimeId
    && p.payload == Payload(e.eventType, e.sessionId, e.data)
    && p.contentText == e.contentText
    && (e.sessionId != "" ==> p.sessionId == e.sessionId)
  }

  method EventsForPlatform(events: seq<Event>, body: Body, sessionId: string, startSeq: nat)
    returns (batch: seq<PlatformEvent>)
    ensures |batch| == |events|
    ensures forall k :: 0 <= k < |events| ==> Carries(batch[k], startSeq + k, events[k], body)
    ensures forall k :: 0 <= k < |events| && events[k].sessionId == "" ==> batch[k].sessionId == sessionId
  {
    batch := [];
    for index := 0 to |events|
      invariant |batch| == index
      invariant forall k :: 0 <= k < index ==> Carries(batch[k], startSeq + k, events[k], body)
      invariant forall k :: 0 <= k < index && events[k].sessionId == "" ==> batch[k].sessionId == sessionId
    {
      var event := events[index];
      batch := batch + [PlatformEvent(
        startSeq + index, OrElse(event.eventType, "event"), OrElse(event.sessionId, sessionId), body.runtimeId,
        Payload(event.eventType, event.sessionId, event.data), event.contentText)];
    }
  }

  /** What happens to one callback of the agent: the event it records, and whether its post is accepted. For the
      client a post is accepted when it does not raise; an error status does not make it raise. */
  datatype Callback = Callback(event: Event, sessionId: string, accepted: bool)

  function Recorded(callbacks: seq<Callback>): seq<Event> {
    seq(|callbacks|, k requires 0 <= k < |callbacks| => callbacks[k].event)
  }

  /** What the agent and the network do during one session: callbacks while the agent makes the session
      (`early`), while its model is set (`setup`) and while it works on the prompt, the session id the agent
      returns, and where it goes wrong, if it does. `newSession` is None when making the session raises, and
      an empty id when the agent returns none. */
  datatype Script = Script(
    early: seq<Callback>, newSession: Option<string>, setup: seq<Callback>, setupRaises: bool, firstFlush: bool,
    callbacks: seq<Callback>, promptRaises: bool, finalFlush: bool, errorFlush: bool, errorPost: bool)

  function NewSessionId(script: Script): string { if script.newSession.Some? then script.newSession.value else "" }

  /** The session ids that can come into force in a session: none yet, the agent's, and those callbacks name. */
  function SessionIds(script: Script): set<string> {
    {"", NewSessionId(script)} + Named(script.early) + Named(script.setup) + Named(script.callbacks)
  }

  function Named(callbacks: seq<Callback>): set<string> { set c | c in callbacks :: c.sessionId }

  datatype SessionResult =
    | SessionCompleted(eventCount: nat, acpSessionId: string)
    | SessionFailed(eventCount: nat, errorEvent: nat, acpSessionId: string)
    | SessionRaised

  class RuntimeRecordingClient {
    var events: seq<Event>
    var body: Option<Body>
    var sessionId: string
    var flushedIndex: nat
    var nextSeq: nat
    ghost var base: nat                       // the log's length when the session began
    ghost var delivered: seq<PlatformEvent>   // what this session's posts carried that did not raise
    ghost var ids: set<string>                // the session ids in force since the session began

    /** The serial invariant: the counter is the cursor relative to the session's base, and exactly the
        events in between have been accepted, once each, numbered from zero. */
    ghost predicate Valid()
      reads this
    {
      && base <= flushedIndex <= |events|
      && nextSeq == flushedIndex - base
      && |delivered| == nextSeq
      && (body == None ==> delivered == [])
      && (forall k :: 0 <= k < |delivered| ==> Carries(delivered[k], k, events[base + k], body.value))
      && sessionId in ids
      && (forall k :: 0 <= k < |delivered| && events[base + k].sessionId == "" ==> delivered[k].sessionId in ids)
    }

    /** Everything recorded since the session began has been accepted. */
    ghost predicate Caught()
      reads this
    {
      flushedIndex == |events|
    }

    constructor ()
      ensures Valid() && events == [] && body == None && sessionId == "" && base == 0
    {
      events, body, sessionId, flushedIndex, nextSeq := [], None, "", 0, 0;
      base, delivered, ids := 0, [], {""};
    }

    method BeginSession(newBody: Body)
      modifies this
      ensures Valid() && Caught()
      ensures events == old(events) && base == |events| && body == Some(newBody) && sessionId == ""
      ensures delivered == [] && nextSeq == 0 && ids == {""}
    {
      body := Some(newBody);
      sessionId := "";
      flushedIndex := |events|;
      nextSeq := 0;
      base, delivered, ids := |events|, [], {""};
    }

    method SetSessionId(id: string)
      requires Valid()
      modifies this`sessionId, this`ids
      ensures Valid() && sessionId == id && ids == old(ids) + {id}
    {
      sessionId := id;
      ids := ids + {id};
    }

    /** Post what the cursor has not passed. `batch` is what was posted, accepted or not: a retry posts
        the same events under the same numbers. */
    method Flush(accepted: bool) returns (raised: bool, batch: seq<PlatformEvent>)
      requires Valid()
      modifies this`flushedIndex, this`nextSeq, this`delivered
      ensures Valid()
      ensures body == None ==> batch == []
      ensures body.Some? ==> |batch| == |events| - old(flushedIndex)
      ensures forall k :: 0 <= k < |batch| ==>
        Carries(batch[k], old(nextSeq) + k, events[old(flushedIndex) + k], body.value)
      ensures raised <==> batch != [] && !accepted
      ensures raised ==> flushedIndex == old(flushedIndex) && nextSeq == old(nextSeq) && delivered == old(delivered)
      ensures !raised ==> delivered == old(delivered) + batch && (body.Some? ==> Caught())
    {
      raised, batch := false, [];
      if body == None {
        return;
      }
      var pending := events[flushedIndex..];
      if pending == [] {
        return;
      }
      batch := EventsForPlatform(pending, body.value, sessionId, nextSeq);
      if !accepted {
        raised := true;
        return;
      }
      flushedIndex := |events|;
      nextSeq := nextSeq + |batch|;
      delivered := delivered + batch;
    }

    /** Any of the client callbacks: record an event, adopt its session id, flush. */
    method HandleCallback(callback: Callback) returns (raised: bool)
      requires Valid()
      modifies this
      ensures Valid() && base == old(base) && body == old(body)
      ensures events == old(events) + [callback.event]
      ensures sessionId == OrElse(callback.sessionId, old(sessionId)) && ids <= old(ids) + {callback.sessionId}
      ensures old(delivered) <= delivered
      ensures body.Some? ==> (raised <==> !callback.accepted)
      ensures body.Some? && !raised ==> Caught()
      ensures raised ==> delivered == old(delivered)
    {
      events := events + [callback.event];
      sessionId := OrElse(callback.sessionId, sessionId);
      ids := ids + {sessionId};
      var batch;
      raised, batch := Flush(callback.accepted);
    }

    method HandleAll(callbacks: seq<Callback>)
      requires Valid()
      modifies this
      ensures Valid() && base == old(base) && body == old(body)
      ensures events == old(events) + Recorded(callbacks)
      ensures ids <= old(ids) + Named(callbacks)
    {
      for k := 0 to |callbacks|
        invariant Valid() && base == old(base) && body == old(body)
        invariant events == old(events) + Recorded(callbacks[..k])
        invariant ids <= old(ids) + Named(callbacks)
      {
        var raised := HandleCallback(callbacks[k]);
        assert Recorded(callbacks[..k + 1]) == Recorded(callbacks[..k]) + [callbacks[k].event];
      }
      assert callbacks[..|callbacks|] == callbacks;
    }

    /** Making the session and setting its model; `acpSessionId` is what the caller has learned of its id. */
    method SetUp(script: Script) returns (failed: bool, acpSessionId: string)
      requires Valid() && body.Some?
      modifies this
      ensures Valid() && base == old(base) && body == old(body)
      ensures events == old(events) + Recorded(script.early)
        || events == old(events) + Recorded(script.early) + Recorded(script.setup)
      ensures !failed ==> Caught() && events == old(events) + Recorded(script.early) + Recorded(script.setup)
      ensures acpSessionId == NewSessionId(script)
      ensures ids <= old(ids) + {NewSessionId(script)} + Named(script.early) + Named(script.setup)
    {
      HandleAll(script.early);
      if script.newSession == None {
        return true, "";
      }
      acpSessionId := script.newSession.value;
      SetSessionId(acpSessionId);
      HandleAll(script.setup);
      if script.setupRaises {
        return true, acpSessionId;
      }
      var batch;
      failed, batch := Flush(script.firstFlush);
    }

    /** The part of a session whose failures are reported. */
    method Prompt(script: Script) returns (failed: bool, acpSessionId: string)
      requires Valid() && body.Some? && ids == {""}
      modifies this
      ensures Valid() && base == old(base) && body == old(body) && Happened(script, old(events), events)
      ensures !failed ==> Caught() && events == old(events) + AllRecorded(script)
      ensures acpSessionId == NewSessionId(script) && ids <= SessionIds(script)
    {
      failed, acpSessionId := SetUp(script);
      if failed {
        return;
      }
      HandleAll(script.callbacks);
      if script.promptRaises {
        return true, acpSessionId;
      }
      var batch;
      failed, batch := Flush(script.finalFlush);
    }

    /** One agent session. Whatever raises, the events accepted from this session are those recorded
        since it began, in order, numbered 0, 1, 2, ..., without gap or repeat; a completed or failed
        result counts all of them, and a failure's own event takes the next fresh number. An event without
        a session id of its own is attributed to an id of this session, never to one of an earlier session. */
    method RunSession(newBody: Body, script: Script) returns (result: SessionResult)
      modifies this
      ensures Valid() && body == Some(newBody) && base == |old(events)| && Happened(script, old(events), events)
      ensures forall k :: 0 <= k < |delivered| ==>
        Carries(delivered[k], k, events[base + k], newBody)
        && (events[base + k].sessionId == "" ==> delivered[k].sessionId in SessionIds(script))
      ensures result.SessionCompleted? ==>
        && events == old(events) + AllRecorded(script)
        && result.eventCount == |delivered| == |AllRecorded(script)| && result.acpSessionId == NewSessionId(script)
      ensures result.SessionFailed? ==>
        && Caught()
        && result.errorEvent == |delivered| == |events| - base
        && result.eventCount == |delivered| + 1 && result.acpSessionId == NewSessionId(script)
      ensures result.SessionRaised? ==> !script.errorFlush || !script.errorPost
    {
      BeginSession(newBody);
      var failed, acpSessionId := Prompt(script);
      if !failed {
        return SessionCompleted(nextSeq, acpSessionId);
      }
      var flushRaised, batch := Flush(script.errorFlush);
      if flushRaised || !script.errorPost {
        return SessionRaised;
      }
      result := SessionFailed(nextSeq + 1, nextSeq, acpSessionId);
    }
  }

  function AllRecorded(script: Script): seq<Event> {
    Recorded(script.early) + Recorded(script.setup) + Recorded(script.callbacks)
  }

  /** The log has grown by the callbacks of one, two or all three parts of a session. */
  predicate Happened(script: Script, before: seq<Event>, after: seq<Event>) {
    || after == before + Recorded(script.early)
    || after == before + Recorded(script.early) + Recorded(script.setup)
    || after == before + AllRecorded(script)
  }

  // ---------------------------------------------------------------- overlapping flushes

  /** A posted batch: the log positions first..last it carries, under numbers from startSeq. */
  datatype Batch = Batch(base: nat, first: nat, last: nat, startSeq: nat)

  /** The client between two awaits, with every post that has not been answered yet. */
  datatype Client = Client(
    length: nat, started: bool, base: nat, cursor: nat, nextSeq: nat,
    inFlight: map<nat, Batch>, accepted: seq<Batch>, posts: nat)

  /** A post is accepted; refused with an error status, which the client does not look at; or rejected, that is,
      it raises. */
  datatype Action = Begin | Record | StartFlush | Accept(post: nat) | Refuse(post: nat) | Reject(post: nat)

  function Idle(): Client { Client(0, false, 0, 0, 0, map[], [], 0) }

  predicate Enabled(c: Client, a: Action) {
    match a
    case Begin | Record | StartFlush => true
    case Accept(post) => post in c.inFlight
    case Refuse(post) => post in c.inFlight
    case Reject(post) => post in c.inFlight
  }

  /** What the client does when a post comes back without raising, whatever the platform made of it. */
  function Commit(c: Client, post: nat): Client
    requires post in c.inFlight
  {
    var batch := c.inFlight[post];
    c.(cursor := c.length, nextSeq := c.nextSeq + (if batch.first <= batch.last then batch.last - batch.first else 0),
       inFlight := c.inFlight - {post})
  }

  /** The synchronous part of a flush: snapshot and post everything from the cursor on. */
  function Post(c: Client): Client {
    if !c.started || c.cursor >= c.length then c
    else c.(inFlight := c.inFlight[c.posts := Batch(c.base, c.cursor, c.length, c.nextSeq)], posts := c.posts + 1)
  }

  function Apply(c: Client, a: Action): Client
    requires Enabled(c, a)
  {
    match a
    case Begin => c.(started := true, base := c.length, cursor := c.length, nextSeq := 0)
    case Record => Post(c.(length := c.length + 1))
    case StartFlush => Post(c)
    case Accept(post) => Commit(c, post).(accepted := c.accepted + [c.inFlight[post]])
    case Refuse(post) => Commit(c, post)
    case Reject(post) => c.(inFlight := c.inFlight - {post})
  }

  predicate Legal(c: Client, run: seq<Action>)
    decreases run
  {
    run == [] || (Enabled(c, run[0]) && Legal(Apply(c, run[0]), run[1..]))
  }

  function Execute(c: Client, run: seq<Action>): Client
    requires Legal(c, run)
    decreases run
  {
    if run == [] then c else Execute(Apply(c, run[0]), run[1..])
  }

  /** A batch carries at least one event, and only events recorded since its own session began. */
  predicate Sound(b: Batch, length: nat) {
    b.base <= b.first < b.last <= length
  }

  ghost predicate Invariant(c: Client) {
    && c.base <= c.cursor <= c.length
    && (forall post :: post in c.inFlight ==>
      post < c.posts && Sound(c.inFlight[post], c.length) && c.inFlight[post].first <= c.cursor)
    && (forall post :: post in c.inFlight ==> c.inFlight[post].base == c.base || c.inFlight[post].last <= c.base)
    && (forall k :: 0 <= k < |c.accepted| ==> Sound(c.accepted[k], c.length))
  }

  predicate Covers(b: Batch, k: nat) { b.first <= k < b.last }

  predicate Delivered(c: Client, k: nat) {
    exists j :: 0 <= j < |c.accepted| && Covers(c.accepted[j], k)
  }

  predicate BeingSent(c: Client, k: nat) {
    exists post :: post in c.inFlight && Covers(c.inFlight[post], k)
  }

  /** However flushes overlap: the cursor never goes back and never passes the log's end, and every
      batch carries only events recorded since its session began. */
  lemma StepKeepsInvariant(c: Client, a: Action)
    requires Invariant(c) && Enabled(c, a)
    ensures Invariant(Apply(c, a))
    ensures c.cursor <= Apply(c, a).cursor <= Apply(c, a).length
  {
  }

  lemma {:induction false} CursorNeverGoesBack(c: Client, run: seq<Action>)
    requires Invariant(c) && Legal(c, run)
    ensures Invariant(Execute(c, run)) && c.cursor <= Execute(c, run).cursor <= Execute(c, run).length
    decreases run
  {
    if run != [] {
      StepKeepsInvariant(c, run[0]);
      CursorNeverGoesBack(Apply(c, run[0]), run[1..]);
    }
  }

  /** The batch a callback's own flush posts always contains the event the callback recorded. */
  lemma OwnFlushCarriesOwnEvent(run: seq<Action>)
    requires Legal(Idle(), run) && Execute(Idle(), run).started
    ensures var c := Execute(Idle(), run); var d := Apply(c, Record);
      c.posts in d.inFlight && Covers(d.inFlight[c.posts], c.length) && d.length == c.length + 1
  {
    CursorNeverGoesBack(Idle(), run);
  }

  /** An event that no accepted or unanswered post carries although the cursor has passed it. */
  predicate Lost(c: Client, k: nat) {
    k < c.cursor && !Delivered(c, k) && !BeingSent(c, k)
  }

  lemma StepKeepsLost(c: Client, a: Action, k: nat)
    requires Invariant(c) && Enabled(c, a) && Lost(c, k)
    ensures Lost(Apply(c, a), k)
  {
  }

  lemma {:induction false} LostStaysLost(c: Client, run: seq<Action>, k: nat)
    requires Invariant(c) && Legal(c, run) && Lost(c, k)
    ensures Lost(Execute(c, run), k)
    decreases run
  {
    if run != [] {
      StepKeepsInvariant(c, run[0]);
      StepKeepsLost(c, run[0], k);
      LostStaysLost(Apply(c, run[0]), run[1..], k);
    }
  }

  /** Some continuation gets event k to the platform. */
  ghost predicate CanReach(c: Client, k: nat) {
    exists run :: Legal(c, run) && Delivered(Execute(c, run), k)
  }

  lemma Reaches(c: Client, run: seq<Action>, k: nat)
    requires Legal(c, run) && Delivered(Execute(c, run), k)
    ensures CanReach(c, k)
  {
  }

  /** A recorded event of the running session can still reach the platform if and only if it is not lost. */
  lemma DeliverableUnlessLost(c: Client, k: nat)
    requires Invariant(c) && c.started && c.base <= k < c.length
    ensures !Lost(c, k) <==> CanReach(c, k)
  {
    if Lost(c, k) {
      forall run | Legal(c, run) ensures !Delivered(Execute(c, run), k) {
        LostStaysLost(c, run, k);
      }
    } else if Delivered(c, k) {
      Reaches(c, [], k);
    } else if BeingSent(c, k) {
      var post :| post in c.inFlight && Covers(c.inFlight[post], k);
      AcceptDelivers(c, [], post, k);
    } else {
      var d := Apply(c, StartFlush);
      ExecuteAppend(c, [], StartFlush);
      assert [] + [StartFlush] == [StartFlush];
      assert Covers(d.inFlight[c.posts], k);
      AcceptDelivers(c, [StartFlush], c.posts, k);
    }
  }

  lemma {:induction false} ExecuteAppend(c: Client, run: seq<Action>, a: Action)
    requires Legal(c, run) && Enabled(Execute(c, run), a)
    ensures Legal(c, run + [a]) && Execute(c, run + [a]) == Apply(Execute(c, run), a)
    decreases run
  {
    if run == [] {
      assert run + [a] == [a];
    } else {
      ExecuteAppend(Apply(c, run[0]), run[1..], a);
      assert (run + [a])[0] == run[0] && (run + [a])[1..] == run[1..] + [a];
    }
  }

  lemma AcceptDelivers(c: Client, prefix: seq<Action>, post: nat, k: nat)
    requires Legal(c, prefix)
    requires post in Execute(c, prefix).inFlight && Covers(Execute(c, prefix).inFlight[post], k)
    ensures CanReach(c, k)
  {
    var d := Execute(c, prefix);
    assert Covers(Apply(d, Accept(post)).accepted[|d.accepted|], k);
    ExecuteAppend(c, prefix, Accept(post));
    Reaches(c, prefix + [Accept(post)], k);
  }

  // ---------------------------------------------------------------- exactly when an event is lost

  /** Some post other than this one is unanswered and carries event k. */
  predicate SentByAnother(c: Client, post: nat, k: nat) {
    exists other :: other in c.inFlight && other != post && Covers(c.inFlight[other], k)
  }

  /** The answer or session start that gives up event k, which has been recorded and not delivered: an
      accepted post that does not carry it, a refused post whether it carries it or not, a rejected post behind
      the cursor, or a new session, when no other post is on its way with it. */
  predicate GivesUp(c: Client, a: Action, k: nat)
    requires Enabled(c, a)
  {
    k < c.length && !Delivered(c, k) &&
    match a
    case Begin => !BeingSent(c, k)
    case Record => false
    case StartFlush => false
    case Accept(post) => !Covers(c.inFlight[post], k) && !SentByAnother(c, post, k)
    case Refuse(post) => !SentByAnother(c, post, k)
    case Reject(post) => k < c.cursor && !SentByAnother(c, post, k)
  }

  /** One step loses an event that was not lost exactly when it gives the event up. */
  lemma StepLosesExactlyWhen(c: Client, a: Action, k: nat)
    requires Invariant(c) && Enabled(c, a) && !Lost(c, k)
    ensures Lost(Apply(c, a), k) <==> GivesUp(c, a, k)
  {
    var d := Apply(c, a);
    match a
    case Begin =>
      assert BeingSent(d, k) <==> BeingSent(c, k);
    case Record =>
      PostsStay(c.(length := c.length + 1), k);
    case StartFlush =>
      PostsStay(c, k);
    case Accept(post) =>
      AcceptedAre(c, post, k);
      StillSent(c, d, post, k);
    case Refuse(post) =>
      StillSent(c, d, post, k);
    case Reject(post) =>
      StillSent(c, d, post, k);
  }

  lemma PostsStay(c: Client, k: nat)
    requires forall post :: post in c.inFlight ==> post < c.posts
    ensures BeingSent(c, k) ==> BeingSent(Post(c), k)
  {
    if BeingSent(c, k) {
      var post :| post in c.inFlight && Covers(c.inFlight[post], k);
      assert post in Post(c).inFlight && Covers(Post(c).inFlight[post], k);
    }
  }

  /** Once a post is answered, what is on its way is what the others carry. */
  lemma StillSent(c: Client, d: Client, post: nat, k: nat)
    requires d.inFlight == c.inFlight - {post}
    ensures BeingSent(d, k) <==> SentByAnother(c, post, k)
  {
    if BeingSent(d, k) {
      var other :| other in d.inFlight && Covers(d.inFlight[other], k);
      assert other in c.inFlight && other != post && Covers(c.inFlight[other], k);
    }
    if SentByAnother(c, post, k) {
      var other :| other in c.inFlight && other != post && Covers(c.inFlight[other], k);
      assert other in d.inFlight;
    }
  }

  /** Along run, some step gives event k up. */
  predicate GivenUpAlong(c: Client, run: seq<Action>, k: nat)
    requires Legal(c, run)
    decreases run
  {
    run != [] && (GivesUp(c, run[0], k) || GivenUpAlong(Apply(c, run[0]), run[1..], k))
  }

  /** Over a whole run an event is lost for good if and only if some step of the run gave it up. */
  lemma {:induction false} RunLosesExactlyWhen(c: Client, run: seq<Action>, k: nat)
    requires Invariant(c) && Legal(c, run) && !Lost(c, k)
    ensures Lost(Execute(c, run), k) <==> GivenUpAlong(c, run, k)
    decreases run
  {
    if run != [] {
      var d := Apply(c, run[0]);
      StepKeepsInvariant(c, run[0]);
      StepLosesExactlyWhen(c, run[0], k);
      if GivesUp(c, run[0], k) {
        LostStaysLost(d, run[1..], k);
      } else {
        RunLosesExactlyWhen(d, run[1..], k);
      }
    }
  }

  /** Some accepted post of the run carried event k. */
  predicate CarriedAlong(c: Client, run: seq<Action>, k: nat)
    requires Legal(c, run)
    decreases run
  {
    run != [] && (
      || (run[0].Accept? && Covers(c.inFlight[run[0].post], k))
      || CarriedAlong(Apply(c, run[0]), run[1..], k))
  }

  /** Some post came back without raising, or a session was begun, when event k had been recorded. */
  predicate PassedAlong(c: Client, run: seq<Action>, k: nat)
    requires Legal(c, run)
    decreases run
  {
    run != [] && (
      || ((run[0].Accept? || run[0].Refuse? || run[0].Begin?) && k < c.length)
      || PassedAlong(Apply(c, run[0]), run[1..], k))
  }

  lemma {:induction false} AlongRun(c: Client, run: seq<Action>, k: nat)
    requires Invariant(c) && Legal(c, run)
    ensures Delivered(Execute(c, run), k) <==> Delivered(c, k) || CarriedAlong(c, run, k)
    ensures k < Execute(c, run).cursor <==> k < c.cursor || PassedAlong(c, run, k)
    decreases run
  {
    if run != [] {
      var d := Apply(c, run[0]);
      StepKeepsInvariant(c, run[0]);
      AlongRun(d, run[1..], k);
      if run[0].Accept? {
        AcceptedAre(c, run[0].post, k);
      }
    }
  }

  lemma AcceptedAre(c: Client, post: nat, k: nat)
    requires post in c.inFlight
    ensures Delivered(Apply(c, Accept(post)), k) <==> Delivered(c, k) || Covers(c.inFlight[post], k)
  {
    var d := Apply(c, Accept(post));
    if Delivered(c, k) {
      var j :| 0 <= j < |c.accepted| && Covers(c.accepted[j], k);
      assert Covers(d.accepted[j], k);
    }
    assert d.accepted[|c.accepted|] == c.inFlight[post];
  }

  /** Once every post of a run has been answered, an event is lost if and only if a post came back without
      raising or a session was begun after it was recorded, and no accepted post carried it. */
  lemma AnsweredRunLosesExactlyWhen(run: seq<Action>, k: nat)
    requires Legal(Idle(), run) && Execute(Idle(), run).inFlight == map[]
    ensures Lost(Execute(Idle(), run), k) <==> PassedAlong(Idle(), run, k) && !CarriedAlong(Idle(), run, k)
  {
    AlongRun(Idle(), run, k);
  }

  /** A post refused with an error status loses what it carries, without any overlap: if no other post carries
      an undelivered event recorded by then, it is lost. */
  lemma RefusalLosesExactlyWhen(c: Client, post: nat, k: nat)
    requires Invariant(c) && post in c.inFlight && k < c.length && !Lost(c, k)
    ensures Lost(Apply(c, Refuse(post)), k) <==> !Delivered(c, k) && !SentByAnother(c, post, k)
  {
    StepLosesExactlyWhen(c, Refuse(post), k);
  }

  lemma RefusalLosesAnEvent()
    ensures var run := [Begin, Record, Refuse(0)]; Legal(Idle(), run) && Lost(Execute(Idle(), run), 0)
  {
    var c1 := Apply(Idle(), Begin);
    var c2 := Apply(c1, Record);
    assert c2.inFlight == map[0 := Batch(0, 0, 1, 0)];
    var c3 := Apply(c2, Refuse(0));
    assert c3.inFlight == map[] && c3.cursor == 1 && c3.accepted == [];
    TakeFirst(c2, Refuse(0), []);
    TakeFirst(c1, Record, [Refuse(0)]);
    TakeFirst(Idle(), Begin, [Record, Refuse(0)]);
  }

  // ---------------------------------------------------------------- answers of an earlier session

  /** A post of an earlier session answered after a new one began: accepting it moves the cursor over
      everything the running session has recorded and its counter by the size of a batch that carried
      none of it, so exactly the undelivered events that no post is on its way with are lost. */
  lemma StaleAcceptLosesExactlyWhen(c: Client, post: nat, k: nat)
    requires Invariant(c) && post in c.inFlight && c.inFlight[post].base != c.base && c.base <= k < c.length
    ensures var batch, d := c.inFlight[post], Apply(c, Accept(post));
      && d.cursor == c.length && d.nextSeq == c.nextSeq + (batch.last - batch.first) > c.nextSeq
      && (Delivered(d, k) <==> Delivered(c, k))
      && (Lost(d, k) <==> !Delivered(c, k) && !BeingSent(c, k))
  {
    AcceptedAre(c, post, k);
    assert !Covers(c.inFlight[post], k);
    var d := Apply(c, Accept(post));
    if BeingSent(c, k) {
      var other :| other in c.inFlight && Covers(c.inFlight[other], k);
      assert other in d.inFlight && Covers(d.inFlight[other], k);
    }
  }

  /** A session's event lost to a post of the session before it, and its numbers not starting from zero. */
  lemma StalePostLosesAnEvent()
    ensures var run := [Begin, Record, Begin, Record, Accept(0), Reject(1)];
      Legal(Idle(), run) && Lost(Execute(Idle(), run), 1) && Execute(Idle(), run).base == 1
        && Execute(Idle(), run).nextSeq == 1
  {
    var c2 := Apply(Apply(Idle(), Begin), Record);
    assert c2 == Client(1, true, 0, 0, 0, map[0 := Batch(0, 0, 1, 0)], [], 1);
    var c4 := Apply(Apply(c2, Begin), Record);
    assert c4 == Client(2, true, 1, 1, 0, map[0 := Batch(0, 0, 1, 0), 1 := Batch(1, 1, 2, 0)], [], 2);
    var c5 := Apply(c4, Accept(0));
    assert c5.inFlight == map[1 := Batch(1, 1, 2, 0)] && c5.accepted == [Batch(0, 0, 1, 0)];
    var c6 := Apply(c5, Reject(1));
    assert Lost(c6, 1) && c6.base == 1 && c6.nextSeq == 1;
    TakeFirst(c5, Reject(1), []);
    TakeFirst(c4, Accept(0), [Reject(1)]);
    TakeFirst(Apply(c2, Begin), Record, [Accept(0), Reject(1)]);
    TakeFirst(c2, Begin, [Record, Accept(0), Reject(1)]);
    TakeFirst(Apply(Idle(), Begin), Record, [Begin, Record, Accept(0), Reject(1)]);
    TakeFirst(Idle(), Begin, [Record, Begin, Record, Accept(0), Reject(1)]);
  }

  lemma TakeFirst(c: Client, a: Action, rest: seq<Action>)
    requires Enabled(c, a) && Legal(Apply(c, a), rest)
    ensures Legal(c, [a] + rest) && Execute(c, [a] + rest) == Execute(Apply(c, a), rest)
  {
    assert ([a] + rest)[1..] == rest;
  }

  // ---------------------------------------------------------------- when nothing is skipped

  /** Nothing the cursor has passed in this session is missing from the platform. */
  ghost predicate NothingSkipped(c: Client) {
    forall k: nat :: c.base <= k < c.cursor ==> Delivered(c, k)
  }

  /** Committing an accepted post, whichever session it is of, skips nothing if and only if every event of
      the session recorded while it was unanswered has already been delivered. */
  lemma CommitSkipsNothingExactlyWhen(c: Client, post: nat)
    requires Invariant(c) && NothingSkipped(c) && post in c.inFlight
    ensures NothingSkipped(Apply(c, Accept(post))) <==>
      forall k: nat :: Max(c.base, c.inFlight[post].last) <= k < c.length ==> Delivered(c, k)
  {
    var d := Apply(c, Accept(post));
    var batch := c.inFlight[post];
    forall k: nat ensures Delivered(d, k) <==> Delivered(c, k) || Covers(batch, k) {
      AcceptedAre(c, post, k);
    }
    if NothingSkipped(d) {
      forall k: nat | Max(c.base, batch.last) <= k < c.length ensures Delivered(c, k) {
        assert Delivered(d, k);
      }
    }
  }

  predicate Fails(a: Action) { a.Refuse? || a.Reject? }

  /** If no post of the run fails, then at every point every event of the session has been delivered,
      or is in a post still unanswered; so when all posts are answered nothing is missing. */
  ghost predicate AllUnderway(c: Client) {
    forall k: nat :: c.started && c.base <= k < c.length ==> Delivered(c, k) || BeingSent(c, k)
  }

  lemma AcceptedStepKeepsUnderway(c: Client, a: Action)
    requires Invariant(c) && AllUnderway(c) && Enabled(c, a) && !Fails(a)
    ensures AllUnderway(Apply(c, a))
  {
    var d := Apply(c, a);
    forall k: nat | d.started && d.base <= k < d.length ensures Delivered(d, k) || BeingSent(d, k) {
      if k == c.length {
        assert Covers(d.inFlight[c.posts], k);
      } else if Delivered(c, k) {
        var j :| 0 <= j < |c.accepted| && Covers(c.accepted[j], k);
        assert Covers(d.accepted[j], k);
      } else {
        var post :| post in c.inFlight && Covers(c.inFlight[post], k);
        if a == Accept(post) {
          assert Covers(d.accepted[|c.accepted|], k);
        } else {
          assert post in d.inFlight && Covers(d.inFlight[post], k);
        }
      }
    }
  }

  lemma {:induction false} UnderwayThroughout(c: Client, run: seq<Action>)
    requires Invariant(c) && AllUnderway(c) && Legal(c, run)
    requires forall k :: 0 <= k < |run| ==> !Fails(run[k])
    ensures AllUnderway(Execute(c, run))
    decreases run
  {
    if run != [] {
      StepKeepsInvariant(c, run[0]);
      AcceptedStepKeepsUnderway(c, run[0]);
      UnderwayThroughout(Apply(c, run[0]), run[1..]);
    }
  }

  /** However flushes overlap, if no post fails, no event is skipped. */
  lemma OverlappingFlushesSkipNothing(run: seq<Action>, k: nat)
    requires Legal(Idle(), run) && forall j :: 0 <= j < |run| ==> !Fails(run[j])
    requires var c := Execute(Idle(), run); c.started && c.inFlight == map[] && c.base <= k < c.length
    ensures Delivered(Execute(Idle(), run), k)
  {
    UnderwayThroughout(Idle(), run);
  }

  /** Two overlapping posts of which the second fails: its event is lost, because accepting the first
      moved the cursor past it. */
  lemma OverlapWithAFailureLosesAnEvent()
    ensures var run := [Begin, Record, Record, Accept(0), Reject(1)];
      Legal(Idle(), run) && Lost(Execute(Idle(), run), 1)
  {
    var c1 := Apply(Idle(), Begin);
    var c3 := Apply(Apply(c1, Record), Record);
    assert c3.inFlight == map[0 := Batch(0, 0, 1, 0), 1 := Batch(0, 0, 2, 0)];
    var c4 := Apply(c3, Accept(0));
    assert c4.inFlight == map[1 := Batch(0, 0, 2, 0)] && c4.accepted == [Batch(0, 0, 1, 0)];
    ExecuteAppend(Idle(), [], Begin);
    ExecuteAppend(Idle(), [Begin], Record);
    ExecuteAppend(Idle(), [Begin, Record], Record);
    ExecuteAppend(Idle(), [Begin, Record, Record], Accept(0));
    ExecuteAppend(Idle(), [Begin, Record, Record, Accept(0)], Reject(1));
  }
}
