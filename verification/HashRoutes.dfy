/** The web UI's hash routes: printing a project view and parsing it back. */
module HashRoutes {
  import opened Prelude
  import opened Text
  import opened PercentEncoding

  datatype View =
    | Projects | ProjectOverview | ProjectAuditRuns | ProjectAgents | ProjectMessages | ProjectFindings
    | ProjectFindingReview | ProjectDependencies | ProjectWhiteboard | ProjectSwarm | ProjectReports
    | Runtime | RuntimeReadiness | RuntimeContainers | RuntimeSandbox | Knowledge | Admin

  datatype Route = Route(projectId: Option<string>, auditRunId: Option<string>, tab: View)

  function ViewPath(view: View): string {
    match view
    case Runtime => "/runtime"
    case RuntimeReadiness => "/runtime/readiness"
    case RuntimeContainers => "/runtime/containers"
    case RuntimeSandbox => "/runtime/sandbox"
    case Knowledge => "/knowledge"
    case Admin => "/admin"
    case _ => "/projects"
  }

  // ---------------------------------------------------------------- printing

  /** The path segments after the audit-run segment, for the views inside an audit run. */
  function Suffix(view: View): Option<seq<string>> {
    match view
    case ProjectAgents => Some(["agents"])
    case ProjectMessages => Some(["messages"])
    case ProjectFindings => Some(["findings"])
    case ProjectFindingReview => Some(["findings", "review"])
    case ProjectDependencies => Some(["dependencies"])
    case ProjectReports => Some(["reports"])
    case ProjectWhiteboard => Some(["whiteboard"])
    case ProjectSwarm => Some(["swarm"])
    case _ => None
  }

  function Slashed(segments: seq<string>): string {
    if segments == [] then "" else "/" + segments[0] + Slashed(segments[1..])
  }

  function Base(projectId: string): seq<string> { ["projects", projectId] }

  /** Without an audit run the path still names the list it would be in. */
  function RunBase(projectId: string, auditRunId: string): seq<string> {
    Base(projectId) + ["audit-runs"] + (if auditRunId == "" then [] else [auditRunId])
  }

  /** Empty and missing identifiers alike select the fallback. */
  function ProjectHash(view: View, projectId: string, auditRunId: string): string {
    if projectId == "" then "#" + ViewPath(Projects)
    else
      var runBase := RunBase(Encode(projectId), if auditRunId == "" then "" else Encode(auditRunId));
      match view
      case ProjectOverview => "#" + Slashed(Base(Encode(projectId)))
      case ProjectAuditRuns => "#" + Slashed(RunBase(Encode(projectId), ""))
      case _ => if Suffix(view).Some? then "#" + Slashed(runBase + Suffix(view).value) else "#" + ViewPath(view)
  }

  // ---------------------------------------------------------------- parsing

  /** `s.split("/")`. */
  function SplitSlash(s: string): (parts: seq<string>)
    ensures parts != []
  {
    if s == "" then [""]
    else
      var rest := SplitSlash(s[1..]);
      if s[0] == '/' then [""] + rest else [[s[0]] + rest[0]] + rest[1..]
  }

  function NonEmpty(parts: seq<string>): seq<string> {
    if parts == [] then [] else (if parts[0] != "" then [parts[0]] else []) + NonEmpty(parts[1..])
  }

  /** Decode every segment; None where decoding one throws. */
  function DecodeAll(parts: seq<string>): (decoded: Option<seq<string>>)
    ensures decoded.Some? ==> |decoded.value| == |parts|
  {
    if parts == [] then Some([])
    else match (Decode(parts[0]), DecodeAll(parts[1..]))
      case (Some(first), Some(rest)) => Some([first] + rest)
      case _ => None
  }

  /** The segment after the first "audit-runs", if there is one. */
  function AfterAuditRuns(parts: seq<string>): Option<string> {
    if parts == [] then None
    else if parts[0] == "audit-runs" then (if |parts| > 1 then Some(parts[1]) else None)
    else AfterAuditRuns(parts[1..])
  }

  function LeafView(leaf: string): Option<View> {
    if leaf == "agents" then Some(ProjectAgents)
    else if leaf == "messages" then Some(ProjectMessages)
    else if leaf == "findings" then Some(ProjectFindings)
    else if leaf == "review" then Some(ProjectFindingReview)
    else if leaf == "dependencies" then Some(ProjectDependencies)
    else if leaf == "reports" then Some(ProjectReports)
    else if leaf == "whiteboard" then Some(ProjectWhiteboard)
    else if leaf == "swarm" then Some(ProjectSwarm)
    else None
  }

  function RouteOf(parts: seq<string>): Route {
    if |parts| < 2 || parts[0] != "projects" || parts[1] == "" then Route(None, None, Projects)
    else
      var run := AfterAuditRuns(parts);
      var leaf := LeafView(parts[|parts| - 1]);
      if leaf.Some? then Route(Some(parts[1]), run, leaf.value)
      else if |parts| > 2 && parts[2] == "audit-runs" then Route(Some(parts[1]), run, ProjectAuditRuns)
      else Route(Some(parts[1]), run, ProjectOverview)
  }

  /** What `String.prototype.trim` removes. */
  predicate IsTrimmed(c: char) {
    var n := c as int;
    || 9 <= n <= 13 || n == 32 || n == 160 || n == 5760 || 8192 <= n <= 8202
    || n == 8232 || n == 8233 || n == 8239 || n == 8287 || n == 12288 || n == 0xFEFF
  }

  /** The route of a hash; None where parsing throws. */
  function ProjectRouteFromHash(hash: string): Option<Route> {
    var normalized := Trim(if StartsWith(hash, "#") then hash[1..] else hash, IsTrimmed);
    match DecodeAll(NonEmpty(SplitSlash(normalized)))
    case None => None
    case Some(parts) => Some(RouteOf(parts))
  }

  // ---------------------------------------------------------------- reading back segments

  predicate IsSegment(s: string) { s != "" && forall k :: 0 <= k < |s| ==> IsSafe(s[k]) }

  lemma {:induction false} SplitSegment(segment: string, tail: string)
    requires forall k :: 0 <= k < |segment| ==> segment[k] != '/'
    requires tail == "" || tail[0] == '/'
    ensures SplitSlash(segment + tail) == [segment] + SplitSlash(tail)[1..]
  {
    var s := segment + tail;
    if segment == "" {
      assert s == tail;
      if tail != "" {
        assert SplitSlash(tail) == [""] + SplitSlash(tail[1..]);
      }
      assert SplitSlash(tail)[0] == "";
    } else {
      assert s[0] == segment[0] && s[1..] == segment[1..] + tail;
      SplitSegment(segment[1..], tail);
      var rest := SplitSlash(s[1..]);
      assert rest[0] == segment[1..] && rest[1..] == SplitSlash(tail)[1..];
      assert [s[0]] + rest[0] == segment;
    }
  }

  lemma {:induction false} SplitSlashed(segments: seq<string>)
    requires forall k :: 0 <= k < |segments| ==> IsSegment(segments[k])
    ensures SplitSlash(Slashed(segments)) == [""] + segments
  {
    if segments != [] {
      SplitSlashed(segments[1..]);
      SplitStep(segments[0], Slashed(segments[1..]), segments[1..]);
      assert [segments[0]] + segments[1..] == segments;
    }
  }

  lemma SplitStep(segment: string, tail: string, rest: seq<string>)
    requires IsSegment(segment)
    requires tail == "" || tail[0] == '/'
    requires SplitSlash(tail) == [""] + rest
    ensures SplitSlash("/" + segment + tail) == [""] + ([segment] + rest)
  {
    SplitSegment(segment, tail) by {
      assert forall k :: 0 <= k < |segment| ==> IsSafe(segment[k]) && segment[k] != '/';
    }
    assert SplitSlash(tail)[1..] == rest;
    SplitAtSlash(segment + tail);
    assert "/" + (segment + tail) == "/" + segment + tail;
  }

  lemma SplitAtSlash(s: string)
    ensures SplitSlash("/" + s) == [""] + SplitSlash(s)
  {
    assert ("/" + s)[1..] == s;
  }

  lemma {:induction false} NonEmptySegments(segments: seq<string>)
    requires forall k :: 0 <= k < |segments| ==> segments[k] != ""
    ensures NonEmpty(segments) == segments
  {
    if segments != [] {
      NonEmptySegments(segments[1..]);
    }
  }

  lemma {:induction false} SlashedEnd(segments: seq<string>)
    requires segments != [] && forall k :: 0 <= k < |segments| ==> IsSegment(segments[k])
    ensures var s := Slashed(segments); s != "" && s[0] == '/' && IsSafe(s[|s| - 1])
  {
    if |segments| > 1 {
      SlashedEnd(segments[1..]);
      var s, t := Slashed(segments), Slashed(segments[1..]);
      assert s[|s| - 1] == t[|t| - 1];
    } else {
      assert Slashed(segments) == "/" + segments[0];
    }
  }

  lemma SafeIsNotTrimmed(c: char)
    requires IsSafe(c) || c == '/'
    ensures !IsTrimmed(c)
  {
  }

  /** The parser's white space and '#' removal leaves a printed path alone. */
  lemma PathIsTrimmed(segments: seq<string>)
    requires segments != [] && forall k :: 0 <= k < |segments| ==> IsSegment(segments[k])
    ensures var path := Slashed(segments); ("#" + path)[1..] == path && Trim(path, IsTrimmed) == path
  {
    SlashedEnd(segments);
    var path := Slashed(segments);
    SafeIsNotTrimmed(path[0]);
    SafeIsNotTrimmed(path[|path| - 1]);
  }

  /** Every segment list printed as a hash is what the parser sees, segment by segment. */
  lemma ParseSegments(segments: seq<string>, decoded: seq<string>)
    requires segments != [] && Encodes(segments, decoded)
    ensures ProjectRouteFromHash("#" + Slashed(segments)) == Some(RouteOf(decoded))
  {
    PathIsTrimmed(segments);
    PathSplits(segments);
  }

  lemma PathSplits(segments: seq<string>)
    requires forall k :: 0 <= k < |segments| ==> IsSegment(segments[k])
    ensures NonEmpty(SplitSlash(Slashed(segments))) == segments
  {
    SplitSlashed(segments);
    LeadingEmpty(segments);
    NonEmptySegments(segments);
  }

  lemma LeadingEmpty(parts: seq<string>)
    ensures NonEmpty([""] + parts) == NonEmpty(parts)
  {
    assert ([""] + parts)[1..] == parts;
  }

  /** A word of unreserved characters is its own encoding. */
  lemma {:induction false} PlainDecodes(word: string)
    requires forall k :: 0 <= k < |word| ==> IsUnreserved(word[k])
    ensures Decode(word) == Some(word)
  {
    if word != "" {
      PlainDecodes(word[1..]);
      assert [word[0]] + word[1..] == word;
    }
  }

  lemma {:induction false} DecodeAppend(xs: seq<string>, x: string)
    requires DecodeAll(xs).Some? && Decode(x).Some?
    ensures DecodeAll(xs + [x]) == Some(DecodeAll(xs).value + [Decode(x).value])
  {
    if xs == [] {
      assert xs + [x] == [x];
      assert [x][1..] == [];
      assert [Decode(x).value] + [] == [] + [Decode(x).value];
    } else {
      assert (xs + [x])[0] == xs[0] && (xs + [x])[1..] == xs[1..] + [x];
      DecodeAppend(xs[1..], x);
      var first, rest, last := Decode(xs[0]).value, DecodeAll(xs[1..]).value, Decode(x).value;
      assert [first] + (rest + [last]) == [first] + rest + [last];
    }
  }

  predicate IsPlain(word: string) { word != "" && forall k :: 0 <= k < |word| ==> IsUnreserved(word[k]) }

  /** segments is the encoded form of decoded. */
  ghost predicate Encodes(segments: seq<string>, decoded: seq<string>) {
    (forall k :: 0 <= k < |segments| ==> IsSegment(segments[k])) && DecodeAll(segments) == Some(decoded)
  }

  lemma EncodesPlain(segments: seq<string>, decoded: seq<string>, word: string)
    requires Encodes(segments, decoded) && IsPlain(word)
    ensures Encodes(segments + [word], decoded + [word])
  {
    PlainDecodes(word);
    DecodeAppend(segments, word);
  }

  lemma EncodesId(segments: seq<string>, decoded: seq<string>, id: string)
    requires Encodes(segments, decoded) && id != ""
    ensures Encodes(segments + [Encode(id)], decoded + [id])
  {
    DecodeEncode(id);
    EncodedIsSafe(id);
    DecodeAppend(segments, Encode(id));
  }

  lemma EncodesBase(projectId: string)
    requires projectId != ""
    ensures Encodes(Base(Encode(projectId)), Base(projectId))
  {
    var word := "projects";
    EncodesPlain([], [], word);
    assert [] + [word] == [word];
    EncodesId([word], [word], projectId);
    assert [word] + [Encode(projectId)] == Base(Encode(projectId)) && [word] + [projectId] == Base(projectId);
  }

  lemma {:induction false} EncodesWords(segments: seq<string>, decoded: seq<string>, words: seq<string>)
    requires Encodes(segments, decoded) && forall k :: 0 <= k < |words| ==> IsPlain(words[k])
    ensures Encodes(segments + words, decoded + words)
    decreases |words|
  {
    if words == [] {
      assert segments + words == segments && decoded + words == decoded;
    } else {
      EncodesPlain(segments, decoded, words[0]);
      EncodesWords(segments + [words[0]], decoded + [words[0]], words[1..]);
      assert segments + [words[0]] + words[1..] == segments + words;
      assert decoded + [words[0]] + words[1..] == decoded + words;
    }
  }

  // ---------------------------------------------------------------- the round trips

  lemma SuffixWords(view: View)
    requires Suffix(view).Some?
    ensures var words := Suffix(view).value;
      && words != [] && (forall k :: 0 <= k < |words| ==> IsPlain(words[k]) && words[k] != "audit-runs")
      && LeafView(words[|words| - 1]) == Some(view)
  {
  }

  lemma EncodesRunBase(projectId: string, auditRunId: string)
    requires projectId != ""
    ensures Encodes(RunBase(Encode(projectId), if auditRunId == "" then "" else Encode(auditRunId)),
      RunBase(projectId, auditRunId))
  {
    var segments, decoded, word := Base(Encode(projectId)), Base(projectId), "audit-runs";
    EncodesBase(projectId);
    EncodesPlain(segments, decoded, word);
    if auditRunId != "" {
      EncodedIsSafe(auditRunId);
      EncodesId(segments + [word], decoded + [word], auditRunId);
    } else {
      assert segments + [word] + [] == segments + [word] && decoded + [word] + [] == decoded + [word];
    }
  }

  /** What the parser sees of a view inside an audit run. */
  lemma RunHashParses(view: View, projectId: string, auditRunId: string)
    requires Suffix(view).Some? && projectId != ""
    ensures ProjectRouteFromHash(ProjectHash(view, projectId, auditRunId)) ==
      Some(RouteOf(RunBase(projectId, auditRunId) + Suffix(view).value))
  {
    SuffixWords(view);
    EncodesRunBase(projectId, auditRunId);
    var segments := RunBase(Encode(projectId), if auditRunId == "" then "" else Encode(auditRunId));
    EncodesWords(segments, RunBase(projectId, auditRunId), Suffix(view).value);
    ParseSegments(segments + Suffix(view).value, RunBase(projectId, auditRunId) + Suffix(view).value);
  }

  /** Where project, audit run and view are read from in a path with a run segment and a leaf word. */
  lemma RouteOfRunPath(parts: seq<string>, view: View)
    requires |parts| >= 4 && parts[0] == "projects" && parts[1] != "" && parts[2] == "audit-runs"
    requires LeafView(parts[|parts| - 1]) == Some(view)
    ensures RouteOf(parts) == Route(Some(parts[1]), Some(if parts[1] == "audit-runs" then parts[2] else parts[3]), view)
  {
    assert parts[1..][0] == parts[1] && parts[1..][1..] == parts[2..];
    assert parts[2..][0] == parts[2] && parts[2..][1] == parts[3];
    assert AfterAuditRuns(parts) == AfterAuditRuns(parts[1..]);
    assert parts[1] != "audit-runs" ==> AfterAuditRuns(parts[1..]) == AfterAuditRuns(parts[2..]);
    assert parts[1] == "audit-runs" ==> parts[1..][1] == parts[2];
  }

  lemma LeafIsLast(view: View, base: seq<string>)
    requires Suffix(view).Some?
    ensures var parts := base + Suffix(view).value; parts != [] && LeafView(parts[|parts| - 1]) == Some(view)
  {
    SuffixWords(view);
    var words := Suffix(view).value;
    assert (base + words)[|base + words| - 1] == words[|words| - 1];
  }

  /** What parsing the printed hash of a view inside an audit run gives. */
  lemma RunRouteParses(view: View, projectId: string, auditRunId: string)
    requires Suffix(view).Some? && projectId != "" && auditRunId != ""
    ensures ProjectRouteFromHash(ProjectHash(view, projectId, auditRunId)) ==
      Some(Route(Some(projectId), Some(if projectId == "audit-runs" then "audit-runs" else auditRunId), view))
  {
    RunHashParses(view, projectId, auditRunId);
    var parts := RunBase(projectId, auditRunId) + Suffix(view).value;
    LeafIsLast(view, RunBase(projectId, auditRunId));
    RunBaseParts(projectId, auditRunId, Suffix(view).value);
    RouteOfRunPath(parts, view);
  }

  lemma RunBaseParts(projectId: string, auditRunId: string, suffix: seq<string>)
    requires auditRunId != ""
    ensures var parts := RunBase(projectId, auditRunId) + suffix;
      |parts| >= 4 && parts[0] == "projects" && parts[1] == projectId && parts[2] == "audit-runs"
        && parts[3] == auditRunId
  {
  }

  /** For every view inside an audit run, parsing the printed hash gives back project, audit run and view,
      if and only if the project is not called "audit-runs", or the audit run is. */
  lemma RunRouteRoundTrip(view: View, projectId: string, auditRunId: string)
    requires Suffix(view).Some? && projectId != "" && auditRunId != ""
    ensures ProjectRouteFromHash(ProjectHash(view, projectId, auditRunId)) ==
      Some(Route(Some(projectId), Some(auditRunId), view))
      <==> (projectId != "audit-runs" || auditRunId == "audit-runs")
  {
    RunRouteParses(view, projectId, auditRunId);
  }

  /** Printed without an audit run, the same views never parse without one: the audit run read is the view's
      own word, or "audit-runs" in a project of that name. */
  lemma RunlessRouteMisreads(view: View, projectId: string)
    requires Suffix(view).Some? && projectId != ""
    ensures ProjectRouteFromHash(ProjectHash(view, projectId, "")) ==
      Some(Route(Some(projectId), Some(if projectId == "audit-runs" then "audit-runs" else Suffix(view).value[0]),
        view))
  {
    RunHashParses(view, projectId, "");
    LeafIsLast(view, RunBase(projectId, ""));
    RunlessBaseParts(view, projectId);
    RouteOfRunPath(RunBase(projectId, "") + Suffix(view).value, view);
  }

  lemma RunlessBaseParts(view: View, projectId: string)
    requires Suffix(view).Some?
    ensures var parts := RunBase(projectId, "") + Suffix(view).value;
      && |parts| >= 4 && parts[0] == "projects" && parts[1] == projectId && parts[2] == "audit-runs"
      && parts[3] == Suffix(view).value[0]
  {
  }

  predicate IsLeafWord(word: string) { LeafView(word).Some? }

  lemma OverviewHashParses(projectId: string, auditRunId: string)
    requires projectId != ""
    ensures ProjectRouteFromHash(ProjectHash(ProjectOverview, projectId, auditRunId)) == Some(RouteOf(Base(projectId)))
  {
    EncodesBase(projectId);
    ParseSegments(Base(Encode(projectId)), Base(projectId));
  }

  lemma AuditRunsHashParses(projectId: string, auditRunId: string)
    requires projectId != ""
    ensures ProjectRouteFromHash(ProjectHash(ProjectAuditRuns, projectId, auditRunId)) ==
      Some(RouteOf(RunBase(projectId, "")))
  {
    assert ProjectHash(ProjectAuditRuns, projectId, auditRunId) == "#" + Slashed(RunBase(Encode(projectId), ""));
    EncodesRunBase(projectId, "");
    ParseSegments(RunBase(Encode(projectId), ""), RunBase(projectId, ""));
  }

  /** The overview keeps project and view if and only if the project is not named like one of the eight
      leaf words. */
  lemma OverviewRoundTrip(projectId: string, auditRunId: string)
    requires projectId != ""
    ensures var route := ProjectRouteFromHash(ProjectHash(ProjectOverview, projectId, auditRunId));
      && route.Some? && route.value.projectId == Some(projectId)
      && (route.value.tab == ProjectOverview <==> !IsLeafWord(projectId))
  {
    OverviewHashParses(projectId, auditRunId);
    RouteOfPair(Base(projectId));
  }

  lemma RouteOfPair(parts: seq<string>)
    requires |parts| == 2 && parts[0] == "projects" && parts[1] != ""
    ensures RouteOf(parts).projectId == Some(parts[1])
    ensures RouteOf(parts).tab == ProjectOverview <==> !IsLeafWord(parts[1])
  {
  }

  /** The audit-run list always keeps project and view. */
  lemma AuditRunsRoundTrip(projectId: string, auditRunId: string)
    requires projectId != ""
    ensures var route := ProjectRouteFromHash(ProjectHash(ProjectAuditRuns, projectId, auditRunId));
      route.Some? && route.value.projectId == Some(projectId) && route.value.tab == ProjectAuditRuns
  {
    AuditRunsHashParses(projectId, auditRunId);
    RouteOfListPath(RunBase(projectId, ""));
  }

  lemma RouteOfListPath(parts: seq<string>)
    requires |parts| == 3 && parts[0] == "projects" && parts[1] != "" && parts[2] == "audit-runs"
    ensures RouteOf(parts).projectId == Some(parts[1]) && RouteOf(parts).tab == ProjectAuditRuns
  {
    assert LeafView(parts[2]) == None;
  }
}
