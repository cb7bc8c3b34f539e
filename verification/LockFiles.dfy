/** The line-by-line lock-file readers (Cargo, Poetry and Yarn) and the dependency deduplication. */
module LockFiles {
  import opened Prelude
  import opened Text
  import opened Dedupe

  datatype Package = Package(ecosystem: string, name: string, version: string, manifest: string)

  datatype Format = Toml | Yarn

  /** Where a reader is: the record it is in, and the packages it has emitted. */
  datatype Scan = Scan(name: Option<string>, version: Option<string>, found: seq<(string, string)>)

  function Start(): Scan { Scan(None, None, []) }

  // ---------------------------------------------------------------- one line

  predicate IsQuote(c: char) { c == '"' }

  predicate IsAnyQuote(c: char) { c == '"' || c == '\'' }

  /** What follows the first '=' of a line. */
  function AfterEquals(line: string): string {
    if line == "" then "" else if line[0] == '=' then line[1..] else AfterEquals(line[1..])
  }

  function TomlValue(line: string): string { Trim(Strip(AfterEquals(line)), IsQuote) }

  function BeforeComma(s: string): string {
    if s == "" || s[0] == ',' then "" else [s[0]] + BeforeComma(s[1..])
  }

  /** Everything before the last '@', if there is one. */
  function BeforeLastAt(s: string): Option<string> {
    if s == "" then None else if s[|s| - 1] == '@' then Some(s[..|s| - 1]) else BeforeLastAt(s[..|s| - 1])
  }

  function NpmName(descriptor: string): Option<string> {
    var d := Trim(Strip(descriptor), IsAnyQuote);
    var front := BeforeLastAt(d);
    if StartsWith(d, "@") then (if front.Some? && front.value != "" then front else None)
    else if front.Some? then front
    else if d != "" then Some(d) else None
  }

  /** The longest prefix without quotes and white space. */
  function Word(s: string): string {
    if s == "" || s[0] == '"' || IsSpace(s[0]) then "" else [s[0]] + Word(s[1..])
  }

  /** The version of an indented `version` line. */
  function YarnVersion(line: string): Option<string> {
    var body := TrimLeft(line, IsSpace);
    if |body| == |line| || !StartsWith(body, "version") then None
    else
      var rest := body[|"version"|..];
      var value := TrimLeft(rest, IsSpace);
      if |value| == |rest| then None
      else
        var word := Word(if StartsWith(value, "\"") then value[1..] else value);
        if word == "" then None else Some(word)
  }

  predicate IsHeader(format: Format, line: string) {
    match format
    case Toml => Strip(line) == "[[package]]"
    case Yarn =>
      var trimmed := TrimRight(line, IsSpace);
      trimmed != "" && trimmed[0] != ' ' && trimmed[0] != '\t' && trimmed[|trimmed| - 1] == ':'
  }

  /** The name a header itself announces. */
  function HeaderName(format: Format, line: string): Option<string>
    requires IsHeader(format, line)
  {
    match format
    case Toml => None
    case Yarn =>
      var trimmed := TrimRight(line, IsSpace);
      NpmName(Trim(Strip(BeforeComma(trimmed[..|trimmed| - 1])), IsQuote))
  }

  predicate Given(text: Option<string>) { text.Some? && text.value != "" }

  /** The package the present record amounts to, if it has both a name and a version. */
  function Flush(s: Scan): seq<(string, string)> {
    if Given(s.name) && Given(s.version) then [(s.name.value, s.version.value)] else []
  }

  function Step(format: Format, s: Scan, line: string): Scan {
    if IsHeader(format, line) then Scan(HeaderName(format, line), None, s.found + Flush(s))
    else match format
      case Toml =>
        if StartsWith(line, "name = ") then s.(name := Some(TomlValue(line)))
        else if StartsWith(line, "version = ") then s.(version := Some(TomlValue(line)))
        else s
      case Yarn =>
        var version := YarnVersion(TrimRight(line, IsSpace));
        if Given(s.name) && version.Some? then s.(version := version) else s
  }

  function ScanLines(format: Format, s: Scan, lines: seq<string>): Scan
    decreases lines
  {
    if lines == [] then s else ScanLines(format, Step(format, s, lines[0]), lines[1..])
  }

  lemma ScanNext(format: Format, s: Scan, lines: seq<string>, k: nat)
    requires k < |lines|
    ensures ScanLines(format, s, lines[k..]) == ScanLines(format, Step(format, s, lines[k]), lines[k + 1..])
  {
    assert lines[k..][0] == lines[k] && lines[k..][1..] == lines[k + 1..];
  }

  function Parse(format: Format, lines: seq<string>): seq<(string, string)> {
    var s := ScanLines(format, Start(), lines);
    s.found + Flush(s)
  }

  function Labelled(pairs: seq<(string, string)>, ecosystem: string, manifest: string): (packages: seq<Package>)
    ensures |packages| == |pairs|
  {
    seq(|pairs|, k requires 0 <= k < |pairs| => Package(ecosystem, pairs[k].0, pairs[k].1, manifest))
  }

  // ---------------------------------------------------------------- the loops of the source

  method CargoLock(text: string, manifest: string) returns (result: seq<Package>)
    ensures result == Labelled(Parse(Toml, SplitLines(text)), "crates.io", manifest)
  {
    result := ReadToml(text, "crates.io", manifest);
  }

  method PoetryLock(text: string, manifest: string) returns (result: seq<Package>)
    ensures result == Labelled(Parse(Toml, SplitLines(text)), "PyPI", manifest)
  {
    result := ReadToml(text, "PyPI", manifest);
  }

  method ReadToml(text: string, ecosystem: string, manifest: string) returns (result: seq<Package>)
    ensures result == Labelled(Parse(Toml, SplitLines(text)), ecosystem, manifest)
  {
    var lines := SplitLines(text);
    result := [];
    var name: Option<string>, version: Option<string> := None, None;
    ghost var found: seq<(string, string)> := [];
    for k := 0 to |lines|
      invariant ScanLines(Toml, Scan(name, version, found), lines[k..]) == ScanLines(Toml, Start(), lines)
      invariant result == Labelled(found, ecosystem, manifest)
    {
      var line := lines[k];
      ScanNext(Toml, Scan(name, version, found), lines, k);
      if Strip(line) == "[[package]]" {
        if Given(name) && Given(version) {
          result := result + [Package(ecosystem, name.value, version.value, manifest)];
        }
        found := found + Flush(Scan(name, version, found));
        name, version := None, None;
      } else if StartsWith(line, "name = ") {
        name := Some(TomlValue(line));
      } else if StartsWith(line, "version = ") {
        version := Some(TomlValue(line));
      }
    }
    if Given(name) && Given(version) {
      result := result + [Package(ecosystem, name.value, version.value, manifest)];
    }
  }

  method YarnLock(text: string, manifest: string) returns (result: seq<Package>)
    ensures result == Labelled(Parse(Yarn, SplitLines(text)), "npm", manifest)
  {
    var lines := SplitLines(text);
    result := [];
    var name: Option<string>, version: Option<string> := None, None;
    ghost var found: seq<(string, string)> := [];
    for k := 0 to |lines|
      invariant ScanLines(Yarn, Scan(name, version, found), lines[k..]) == ScanLines(Yarn, Start(), lines)
      invariant result == Labelled(found, "npm", manifest)
    {
      ScanNext(Yarn, Scan(name, version, found), lines, k);
      if IsHeader(Yarn, lines[k]) {
        if Given(name) && Given(version) {
          result := result + [Package("npm", name.value, version.value, manifest)];
        }
        found := found + Flush(Scan(name, version, found));
        name, version := HeaderName(Yarn, lines[k]), None;
      } else if Given(name) {
        assert Step(Yarn, Scan(name, version, found), lines[k]).name == name;
        var matched := YarnVersion(TrimRight(lines[k], IsSpace));
        if matched.Some? {
          version := matched;
        }
      }
    }
    if Given(name) && Given(version) {
      result := result + [Package("npm", name.value, version.value, manifest)];
    }
  }

  // ---------------------------------------------------------------- records are independent

  lemma {:induction false} ScanConcat(format: Format, s: Scan, xs: seq<string>, ys: seq<string>)
    ensures ScanLines(format, s, xs + ys) == ScanLines(format, ScanLines(format, s, xs), ys)
    decreases xs
  {
    if xs == [] {
      assert xs + ys == ys;
    } else {
      assert (xs + ys)[0] == xs[0] && (xs + ys)[1..] == xs[1..] + ys;
      ScanConcat(format, Step(format, s, xs[0]), xs[1..], ys);
    }
  }

  /** What has been emitted never influences what is emitted next. */
  lemma {:induction false} EmittedIsAPrefix(format: Format, s: Scan, emitted: seq<(string, string)>, lines: seq<string>)
    ensures var t := ScanLines(format, s, lines);
      ScanLines(format, s.(found := emitted + s.found), lines) == t.(found := emitted + t.found)
    decreases lines
  {
    if lines != [] {
      var next := Step(format, s, lines[0]);
      assert emitted + (s.found + Flush(s)) == (emitted + s.found) + Flush(s);
      assert Step(format, s.(found := emitted + s.found), lines[0]) == next.(found := emitted + next.found);
      EmittedIsAPrefix(format, next, emitted, lines[1..]);
    }
  }

  /** A record header makes the reader forget everything before it: reading is a homomorphism there. */
  lemma ParseSplitsAtHeaders(format: Format, xs: seq<string>, header: string, ys: seq<string>)
    requires IsHeader(format, header)
    ensures Parse(format, xs + [header] + ys) == Parse(format, xs) + Parse(format, [header] + ys)
  {
    assert xs + [header] + ys == xs + ([header] + ys);
    ParseAcrossHeader(format, xs, header, ys);
    ParseFromHeader(format, header, ys);
    var emitted, t := Parse(format, xs), ScanLines(format, Scan(HeaderName(format, header), None, []), ys);
    assert (emitted + t.found) + Flush(t) == emitted + (t.found + Flush(t));
  }

  lemma ParseAcrossHeader(format: Format, xs: seq<string>, header: string, ys: seq<string>)
    requires IsHeader(format, header)
    ensures var t := ScanLines(format, Scan(HeaderName(format, header), None, []), ys);
      Parse(format, xs + ([header] + ys)) == Parse(format, xs) + t.found + Flush(t)
  {
    ScanConcat(format, Start(), xs, [header] + ys);
    assert ([header] + ys)[0] == header && ([header] + ys)[1..] == ys;
    ResetScan(format, ScanLines(format, Start(), xs), header, ys);
  }

  lemma ParseFromHeader(format: Format, header: string, ys: seq<string>)
    requires IsHeader(format, header)
    ensures var t := ScanLines(format, Scan(HeaderName(format, header), None, []), ys);
      Parse(format, [header] + ys) == t.found + Flush(t)
  {
    assert ([header] + ys)[0] == header && ([header] + ys)[1..] == ys;
    assert Step(format, Start(), header) == Scan(HeaderName(format, header), None, []);
  }

  /** After a header the scan continues as from a fresh record, behind what has been emitted. */
  lemma ResetScan(format: Format, s: Scan, header: string, ys: seq<string>)
    requires IsHeader(format, header)
    ensures var t := ScanLines(format, Scan(HeaderName(format, header), None, []), ys);
      ScanLines(format, Step(format, s, header), ys) == t.(found := s.found + Flush(s) + t.found)
  {
    var reset, emitted := Scan(HeaderName(format, header), None, []), s.found + Flush(s);
    assert emitted + reset.found == emitted;
    EmittedIsAPrefix(format, reset, emitted, ys);
  }

  // ---------------------------------------------------------------- reading back what was rendered

  function QuotedLine(key: string, value: string): string { key + " = \"" + value + "\"" }

  function RecordLines(p: (string, string)): seq<string> {
    ["[[package]]", QuotedLine("name", p.0), QuotedLine("version", p.1), ""]
  }

  function Rendered(packages: seq<(string, string)>): seq<string> {
    if packages == [] then [] else RecordLines(packages[0]) + Rendered(packages[1..])
  }

  /** A value survives being quoted and read: it is not empty and neither starts nor ends with a quote. */
  predicate Readable(value: string) {
    value != "" && value[0] != '"' && value[|value| - 1] != '"'
  }

  function Quoted(value: string): string { "\"" + value + "\"" }

  lemma TrimQuotes(value: string)
    ensures var read := Trim(Quoted(value), IsQuote); (read == value && read != "") <==> Readable(value)
  {
    var inner := value + "\"";
    assert Quoted(value)[1..] == inner;
    assert TrimLeft(Quoted(value), IsQuote) == TrimLeft(inner, IsQuote);
    if Readable(value) {
      assert TrimLeft(inner, IsQuote) == inner;
      assert inner[..|inner| - 1] == value;
      assert TrimRight(inner, IsQuote) == TrimRight(value, IsQuote);
    }
  }

  lemma StripQuoted(value: string)
    ensures Strip(" " + Quoted(value)) == Quoted(value)
  {
    var quoted := Quoted(value);
    assert (" " + quoted)[1..] == quoted;
    assert TrimLeft(" " + quoted, IsSpace) == TrimLeft(quoted, IsSpace) == quoted;
    assert TrimRight(quoted, IsSpace) == quoted;
  }

  lemma QuotedValue(key: string, value: string)
    requires key == "name" || key == "version"
    ensures var read := TomlValue(QuotedLine(key, value)); (read == value && read != "") <==> Readable(value)
  {
    assert QuotedLine(key, value) == key + " = " + Quoted(value);
    AfterKey(key, Quoted(value));
    StripQuoted(value);
    TrimQuotes(value);
  }

  lemma QuotedLineShape(key: string, value: string)
    requires key == "name" || key == "version"
    ensures var line := QuotedLine(key, value);
      StartsWith(line, key + " = ") && line[0] == key[0] && Strip(line) == line
  {
    var line := QuotedLine(key, value);
    assert line[..|key| + 3] == key + " = ";
    assert line[|line| - 1] == '"';
  }

  lemma NameStep(s: Scan, value: string)
    ensures Step(Toml, s, QuotedLine("name", value)) == s.(name := Some(TomlValue(QuotedLine("name", value))))
  {
    QuotedLineShape("name", value);
    assert "[[package]]"[0] == '[';
  }

  lemma VersionStep(s: Scan, value: string)
    ensures Step(Toml, s, QuotedLine("version", value)) == s.(version := Some(TomlValue(QuotedLine("version", value))))
  {
    QuotedLineShape("version", value);
    assert "[[package]]"[0] == '[' && "name = "[0] == 'n';
  }

  lemma AfterKey(key: string, quoted: string)
    requires key == "name" || key == "version"
    ensures AfterEquals(key + " = " + quoted) == " " + quoted
  {
    var line := key + " = " + quoted;
    var n := |key| + 1;
    assert line[n] == '=' && line[n + 1..] == " " + quoted;
    forall k | 0 <= k < n ensures line[k] != '=' {
      assert k < |key| ==> line[k] == key[k];
    }
    SkipTo(line, n);
  }

  lemma {:induction false} SkipTo(line: string, n: nat)
    requires n < |line| && line[n] == '=' && forall k :: 0 <= k < n ==> line[k] != '='
    ensures AfterEquals(line) == line[n + 1..]
  {
    if n > 0 {
      SkipTo(line[1..], n - 1);
      assert line[1..][n..] == line[n + 1..];
    }
  }

  lemma HeaderLine()
    ensures IsHeader(Toml, "[[package]]") && !IsHeader(Toml, "")
  {
  }

  /** One rendered record yields its package if both values are readable, and otherwise anything but it. */
  lemma RecordParses(p: (string, string))
    ensures |Parse(Toml, RecordLines(p))| <= 1
    ensures Parse(Toml, RecordLines(p)) == [p] <==> Readable(p.0) && Readable(p.1)
  {
    var name, version := TomlValue(QuotedLine("name", p.0)), TomlValue(QuotedLine("version", p.1));
    RecordScan(p, name, version);
    QuotedValue("name", p.0);
    QuotedValue("version", p.1);
    PairParses(RecordLines(p), name, version, p);
  }

  lemma PairParses(lines: seq<string>, name: string, version: string, p: (string, string))
    requires ScanLines(Toml, Start(), lines) == Scan(Some(name), Some(version), [])
    ensures |Parse(Toml, lines)| <= 1
    ensures Parse(Toml, lines) == [p] <==> name == p.0 && name != "" && version == p.1 && version != ""
  {
    var s := Scan(Some(name), Some(version), []);
    assert Parse(Toml, lines) == Flush(s);
    if Parse(Toml, lines) == [p] {
      assert Flush(s)[0] == p;
    }
  }

  lemma RecordScan(p: (string, string), name: string, version: string)
    requires name == TomlValue(QuotedLine("name", p.0)) && version == TomlValue(QuotedLine("version", p.1))
    ensures ScanLines(Toml, Start(), RecordLines(p)) == Scan(Some(name), Some(version), [])
  {
    var s2 := Scan(Some(name), None, []);
    var s3 := Scan(Some(name), Some(version), []);
    HeaderStep();
    NameStep(Start(), p.0);
    VersionStep(s2, p.1);
    BlankStep(s3);
    FourLines(RecordLines(p), s2, s3);
  }

  lemma HeaderStep()
    ensures Step(Toml, Start(), "[[package]]") == Start()
  {
    HeaderLine();
  }

  lemma BlankStep(s: Scan)
    ensures Step(Toml, s, "") == s
  {
  }

  lemma FourLines(lines: seq<string>, s2: Scan, s3: Scan)
    requires |lines| == 4 && Step(Toml, Start(), lines[0]) == Start() && Step(Toml, Start(), lines[1]) == s2
    requires Step(Toml, s2, lines[2]) == s3 && Step(Toml, s3, lines[3]) == s3
    ensures ScanLines(Toml, Start(), lines) == s3
  {
    assert lines[1..][0] == lines[1] && lines[1..][1..] == lines[2..];
    assert lines[2..][0] == lines[2] && lines[2..][1..] == lines[3..];
    assert lines[3..][0] == lines[3] && lines[3..][1..] == [];
    assert ScanLines(Toml, s3, lines[3..]) == s3;
    assert ScanLines(Toml, s2, lines[2..]) == s3;
    assert ScanLines(Toml, Start(), lines[1..]) == s3;
  }

  lemma RecordsParseApart(packages: seq<(string, string)>)
    requires packages != []
    ensures Parse(Toml, Rendered(packages)) ==
      Parse(Toml, RecordLines(packages[0])) + Parse(Toml, Rendered(packages[1..]))
  {
    var first, rest := RecordLines(packages[0]), Rendered(packages[1..]);
    if packages[1..] != [] {
      HeaderLine();
      assert rest[0] == RecordLines(packages[1])[0];
    }
    ParseConcat(Toml, first, rest);
  }

  lemma ParseConcat(format: Format, xs: seq<string>, rest: seq<string>)
    requires rest == [] || IsHeader(format, rest[0])
    ensures Parse(format, xs + rest) == Parse(format, xs) + Parse(format, rest)
  {
    if rest == [] {
      assert xs + rest == xs && Parse(format, rest) == [];
    } else {
      ParseSplitsAtHeaders(format, xs, rest[0], rest[1..]);
      assert [rest[0]] + rest[1..] == rest;
      assert xs + [rest[0]] + rest[1..] == xs + rest;
    }
  }

  /** Cargo and Poetry: reading the rendered records of any list of packages gives the list back if and
      only if every name and version is non-empty and has no quote at either end. */
  lemma {:induction false} RenderedPackagesAreRead(packages: seq<(string, string)>)
    ensures |Parse(Toml, Rendered(packages))| <= |packages|
    ensures Parse(Toml, Rendered(packages)) == packages <==>
      forall k :: 0 <= k < |packages| ==> Readable(packages[k].0) && Readable(packages[k].1)
  {
    if packages != [] {
      RecordsParseApart(packages);
      RecordParses(packages[0]);
      RenderedPackagesAreRead(packages[1..]);
      var first, rest := Parse(Toml, RecordLines(packages[0])), Parse(Toml, Rendered(packages[1..]));
      assert packages == [packages[0]] + packages[1..];
      if first + rest == packages {
        assert |first| == 1 && first[0] == packages[0];
        assert rest == (first + rest)[1..];
      }
    }
  }

  // ---------------------------------------------------------------- lines of a text

  /** The characters at which `splitlines` ends a line. */
  predicate IsBreak(c: char) {
    var n := c as int;
    10 <= n <= 13 || 28 <= n <= 30 || n == 133 || n == 8232 || n == 8233
  }

  function FirstBreak(s: string): (i: nat)
    ensures i <= |s| && (i < |s| ==> IsBreak(s[i])) && forall k :: 0 <= k < i ==> !IsBreak(s[k])
  {
    if s == "" || IsBreak(s[0]) then 0 else 1 + FirstBreak(s[1..])
  }

  function SplitLines(s: string): seq<string> {
    if s == "" then []
    else
      var i := FirstBreak(s);
      var next := if i == |s| then i else if s[i] == '\r' && i + 1 < |s| && s[i + 1] == '\n' then i + 2 else i + 1;
      [s[..i]] + SplitLines(s[next..])
  }

  function JoinLines(lines: seq<string>): string {
    if lines == [] then "" else lines[0] + "\n" + JoinLines(lines[1..])
  }

  predicate SingleLine(s: string) { forall k :: 0 <= k < |s| ==> !IsBreak(s[k]) }

  lemma {:induction false} SplitJoin(lines: seq<string>)
    requires forall k :: 0 <= k < |lines| ==> SingleLine(lines[k])
    ensures SplitLines(JoinLines(lines)) == lines
  {
    if lines != [] {
      SplitJoin(lines[1..]);
      SplitLine(lines[0], JoinLines(lines[1..]));
      assert [lines[0]] + lines[1..] == lines;
    }
  }

  lemma SplitLine(line: string, rest: string)
    requires SingleLine(line)
    ensures SplitLines(line + "\n" + rest) == [line] + SplitLines(rest)
  {
    var text := line + "\n" + rest;
    assert text[|line|] == '\n';
    assert forall k :: 0 <= k < |line| ==> text[k] == line[k];
    assert FirstBreak(text) == |line|;
    assert text[..|line|] == line && text[|line| + 1..] == rest;
  }

  lemma {:induction false} RenderedIsSingleLined(packages: seq<(string, string)>)
    requires forall k :: 0 <= k < |packages| ==> SingleLine(packages[k].0) && SingleLine(packages[k].1)
    ensures forall k :: 0 <= k < |Rendered(packages)| ==> SingleLine(Rendered(packages)[k])
  {
    if packages != [] {
      RenderedIsSingleLined(packages[1..]);
    }
  }

  /** The whole path for text: single-line packages rendered to a lock file are read back exactly when
      every name and version is readable. */
  lemma LockFileRoundTrip(packages: seq<(string, string)>)
    requires forall k :: 0 <= k < |packages| ==> SingleLine(packages[k].0) && SingleLine(packages[k].1)
    ensures Parse(Toml, SplitLines(JoinLines(Rendered(packages)))) == packages <==>
      forall k :: 0 <= k < |packages| ==> Readable(packages[k].0) && Readable(packages[k].1)
  {
    RenderedIsSingleLined(packages);
    SplitJoin(Rendered(packages));
    RenderedPackagesAreRead(packages);
  }

  // ---------------------------------------------------------------- deduplication

  function DedupeKey(p: Package): (string, string, string) { (p.ecosystem, Lower(p.name), p.version) }

  method DetectDependencies(packages: seq<Package>) returns (deduped: seq<Package>)
    ensures deduped == Deduped(packages, DedupeKey)
  {
    var seen: set<(string, string, string)> := {};
    deduped := [];
    for k := 0 to |packages|
      invariant seen == Keys(packages[..k], DedupeKey) && deduped == Deduped(packages[..k], DedupeKey)
    {
      assert packages[..k + 1] == packages[..k] + [packages[k]];
      KeysAppend(packages[..k], packages[k], DedupeKey);
      DedupedAppend(packages[..k], packages[k], DedupeKey);
      var key := DedupeKey(packages[k]);
      if key !in seen {
        deduped := deduped + [packages[k]];
      }
      seen := seen + {key};
    }
    assert packages[..|packages|] == packages;
  }

  /** Every package found is represented by exactly one listed package, which is the first with its
      ecosystem, version and case-folded name; and detecting twice changes nothing. */
  lemma DetectedPackages(packages: seq<Package>)
    ensures var listed := Deduped(packages, DedupeKey);
      && (forall p :: p in packages ==> exists q :: q in listed && DedupeKey(q) == DedupeKey(p))
      && DistinctKeys(listed, DedupeKey)
      && (forall q :: q in listed <==> First(packages, DedupeKey, q))
      && Deduped(listed, DedupeKey) == listed
  {
    var listed := Deduped(packages, DedupeKey);
    DedupedKeys(packages, DedupeKey);
    DedupeIsIdempotent(packages, DedupeKey);
    forall p | p in packages ensures exists q :: q in listed && DedupeKey(q) == DedupeKey(p) {
      assert DedupeKey(p) in Keys(listed, DedupeKey);
    }
    forall q ensures q in listed <==> First(packages, DedupeKey, q) {
      DedupedAreFirst(packages, DedupeKey, q);
    }
  }
}
