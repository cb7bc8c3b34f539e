/** Dependency records of an audit run and the vulnerabilities attached to them. */
module Dependencies {
  import opened Prelude
  import opened Text
  import opened FindingIdentity
  import opened Dedupe

  /** An entry of a scanner's package list; missing fields are null. */
  datatype Item =
    | NotADict
    | Item(ecosystem: Value, name: Value, version: Value, manifest: Value)

  /** The texts of a package. An ecosystem of blanks is "" here. */
  datatype Package = Package(ecosystem: string, name: string, version: Option<string>, manifest: Option<string>)

  /** An entry of the vulnerability list and the package it names; `package` is no dictionary when the entry
      is none. */
  datatype Report = Report(id: string, package: Item)

  datatype Vulnerability = Vulnerability(id: string, package: Option<Package>)

  datatype Key = Key(ecosystem: string, name: string, version: Option<string>)

  datatype RecordKey = RecordKey(ecosystem: string, name: string, version: Option<string>, manifest: Option<string>)

  datatype Record = Record(
    run: string, ecosystem: string, name: string, version: Option<string>, manifest: Option<string>,
    vulnerabilityCount: nat, vulnerabilities: seq<Vulnerability>)

  function StrippedText(v: Value): Option<string> { if v.Null? then None else Some(Strip(Printed(v))) }

  function Normalised(item: Item): Option<Package> {
    match item
    case NotADict => None
    case Item(ecosystem, name, version, manifest) =>
      Some(Package(Strip(Printed(Or(ecosystem, Str("unknown")))), Strip(Printed(Or(name, Str("")))),
                   StrippedText(version), StrippedText(manifest)))
  }

  function Read(r: Report): Vulnerability { Vulnerability(r.id, Normalised(r.package)) }

  /** The ecosystem a record shows. */
  function Ecosystem(p: Package): string { if p.ecosystem == "" then "unknown" else p.ecosystem }

  /** The key vulnerabilities are grouped under. An ecosystem of blanks stays empty here. */
  function DependencyKey(p: Package): Key { Key(Lower(p.ecosystem), Lower(p.name), p.version) }

  function RecordKeyOf(p: Package): RecordKey { RecordKey(Lower(Ecosystem(p)), Lower(p.name), p.version, p.manifest) }

  /** The package of an entry, if it has a name. */
  function Named(item: Item): seq<Package> {
    var p := Normalised(item);
    if p.Some? && p.value.name != "" then [p.value] else []
  }

  /** The packages that have a name, in order. */
  function Listed(items: seq<Item>): seq<Package> {
    if items == [] then []
    else
      Listed(items[..|items| - 1]) + Named(items[|items| - 1])
  }

  // ---------------------------------------------------------------- the grouped index

  predicate Concerns(v: Vulnerability, key: Key) { v.package.Some? && DependencyKey(v.package.value) == key }

  /** A linear scan: the vulnerabilities of a key, in order. */
  function Matching(vulnerabilities: seq<Vulnerability>, key: Key): seq<Vulnerability> {
    if vulnerabilities == [] then []
    else
      var last := vulnerabilities[|vulnerabilities| - 1];
      Matching(vulnerabilities[..|vulnerabilities| - 1], key) + (if Concerns(last, key) then [last] else [])
  }

  lemma {:induction false} MatchingAre(vulnerabilities: seq<Vulnerability>, key: Key, v: Vulnerability)
    ensures v in Matching(vulnerabilities, key) <==> v in vulnerabilities && Concerns(v, key)
  {
    if vulnerabilities != [] {
      var n := |vulnerabilities| - 1;
      MatchingAre(vulnerabilities[..n], key, v);
      assert vulnerabilities == vulnerabilities[..n] + [vulnerabilities[n]];
    }
  }

  lemma {:induction false} MatchingCounts(vulnerabilities: seq<Vulnerability>, key: Key)
    ensures |Matching(vulnerabilities, key)| == Count(vulnerabilities, (v: Vulnerability) => Concerns(v, key))
  {
    if vulnerabilities != [] {
      MatchingCounts(vulnerabilities[..|vulnerabilities| - 1], key);
    }
  }

  function LookUp(index: map<Key, seq<Vulnerability>>, key: Key): seq<Vulnerability> {
    if key in index then index[key] else []
  }

  /** The index answers every key as a linear scan would. */
  ghost predicate Indexes(index: map<Key, seq<Vulnerability>>, vulnerabilities: seq<Vulnerability>) {
    forall key :: LookUp(index, key) == Matching(vulnerabilities, key)
  }

  lemma IndexNext(index: map<Key, seq<Vulnerability>>, vulnerabilities: seq<Vulnerability>, item: Vulnerability)
    requires Indexes(index, vulnerabilities)
    ensures if item.package.Some? then
        var key := DependencyKey(item.package.value);
        Indexes(index[key := LookUp(index, key) + [item]], vulnerabilities + [item])
      else Indexes(index, vulnerabilities + [item])
  {
    var more := vulnerabilities + [item];
    assert more[..|more| - 1] == vulnerabilities;
    assert forall key :: Matching(more, key) == LookUp(index, key) + (if Concerns(item, key) then [item] else []);
  }

  method DependencyVulnerabilityMap(vulnerabilities: seq<Vulnerability>) returns (index: map<Key, seq<Vulnerability>>)
    ensures Indexes(index, vulnerabilities)
    ensures forall key :: key in index ==> index[key] != []
  {
    index := map[];
    for k := 0 to |vulnerabilities|
      invariant Indexes(index, vulnerabilities[..k])
      invariant forall key :: key in index ==> index[key] != []
    {
      var item := vulnerabilities[k];
      assert vulnerabilities[..k + 1] == vulnerabilities[..k] + [item];
      IndexNext(index, vulnerabilities[..k], item);
      if item.package == None {
        continue;
      }
      var key := DependencyKey(item.package.value);
      index := index[key := LookUp(index, key) + [item]];
    }
    assert vulnerabilities[..|vulnerabilities|] == vulnerabilities;
  }

  // ---------------------------------------------------------------- the records

  function RecordOf(run: string, p: Package, vulnerabilities: seq<Vulnerability>): Record {
    var attached := Matching(vulnerabilities, DependencyKey(p));
    Record(run, Ecosystem(p), p.name, p.version, p.manifest, |attached|, attached)
  }

  function RecordFor(run: string, vulnerabilities: seq<Vulnerability>): Package -> Record {
    (p: Package) => RecordOf(run, p, vulnerabilities)
  }

  /** One record for the first package of each record key, in order. */
  function Recorded(run: string, packages: seq<Package>, vulnerabilities: seq<Vulnerability>): seq<Record> {
    Mapped(Deduped(packages, RecordKeyOf), RecordFor(run, vulnerabilities))
  }

  function OfOtherRuns(records: seq<Record>, run: string): seq<Record> {
    if records == [] then []
    else
      var last := records[|records| - 1];
      OfOtherRuns(records[..|records| - 1], run) + (if last.run == run then [] else [last])
  }

  lemma ListedNext(items: seq<Item>, k: nat)
    requires k < |items|
    ensures Listed(items[..k + 1]) == Listed(items[..k]) + Named(items[k])
  {
    assert items[..k + 1][..k] == items[..k];
  }

  class DependencyStore {
    var records: seq<Record>

    constructor ()
      ensures records == []
    {
      records := [];
    }

    method ReplaceDependencyRecords(run: string, items: seq<Item>, reports: seq<Report>) returns (created: nat)
      modifies this
      ensures records == OfOtherRuns(old(records), run) + Recorded(run, Listed(items), Mapped(reports, Read))
      ensures created == |Recorded(run, Listed(items), Mapped(reports, Read))|
    {
      var vulnerabilities := Mapped(reports, Read);
      var index := DependencyVulnerabilityMap(vulnerabilities);
      records := OfOtherRuns(records, run);
      ghost var others, done: seq<Package>, f := records, [], RecordFor(run, vulnerabilities);
      created := 0;
      var seen: set<RecordKey> := {};
      for k := 0 to |items|
        invariant done == Listed(items[..k]) && Progress(done, RecordKeyOf, f, seen, others, records, created)
      {
        ListedNext(items, k);
        var named := Named(items[k]);
        if named == [] {
          continue;
        }
        var p := named[0];
        var key := RecordKeyOf(p);
        if key in seen {
          ProgressSeen(done, RecordKeyOf, f, seen, others, records, created, p);
          done := done + [p];
          continue;
        }
        ProgressNew(done, RecordKeyOf, f, seen, others, records, created, p);
        done := done + [p];
        seen := seen + {key};
        var attached := LookUp(index, DependencyKey(p));
        records := records + [Record(run, Ecosystem(p), p.name, p.version, p.manifest, |attached|, attached)];
        created := created + 1;
      }
      assert items[..|items|] == items;
    }
  }

  // ---------------------------------------------------------------- what the records say

  function KeyOf(r: Record): RecordKey { RecordKey(Lower(r.ecosystem), Lower(r.name), r.version, r.manifest) }

  /** The record keys are distinct, and they are exactly those of the listed packages. */
  lemma RecordsHaveDistinctKeys(run: string, packages: seq<Package>, vulnerabilities: seq<Vulnerability>)
    ensures DistinctKeys(Recorded(run, packages, vulnerabilities), KeyOf)
    ensures Keys(Recorded(run, packages, vulnerabilities), KeyOf) == Keys(packages, RecordKeyOf)
  {
    DedupedKeys(packages, RecordKeyOf);
    forall p: Package ensures KeyOf(RecordFor(run, vulnerabilities)(p)) == RecordKeyOf(p) {
      RecordKeeps(run, p, vulnerabilities);
    }
    MappedKeys(Deduped(packages, RecordKeyOf), RecordKeyOf, RecordFor(run, vulnerabilities), KeyOf);
  }

  lemma RecordKeeps(run: string, p: Package, vulnerabilities: seq<Vulnerability>)
    ensures KeyOf(RecordOf(run, p, vulnerabilities)) == RecordKeyOf(p)
  {
  }

  /** The records are those of the first packages of each record key. */
  lemma RecordsOfLeaders(run: string, packages: seq<Package>, vulnerabilities: seq<Vulnerability>, r: Record)
    ensures r in Recorded(run, packages, vulnerabilities) <==>
      exists p :: First(packages, RecordKeyOf, p) && RecordFor(run, vulnerabilities)(p) == r
  {
    MappedFirst(packages, RecordKeyOf, RecordFor(run, vulnerabilities), r);
  }

  predicate NonBlankEcosystems(packages: seq<Package>) { forall p :: p in packages ==> p.ecosystem != "" }

  /** Every record counts the vulnerabilities it carries. With non-blank ecosystems they are exactly those
      a scan for the record's own columns would find. */
  lemma RecordsCountTheirVulnerabilities(
    run: string, packages: seq<Package>, vulnerabilities: seq<Vulnerability>, r: Record)
    requires r in Recorded(run, packages, vulnerabilities)
    ensures r.vulnerabilityCount == |r.vulnerabilities|
    ensures NonBlankEcosystems(packages) ==>
      var key := Key(Lower(r.ecosystem), Lower(r.name), r.version);
      && r.vulnerabilities == Matching(vulnerabilities, key)
      && r.vulnerabilityCount == Count(vulnerabilities, (v: Vulnerability) => Concerns(v, key))
  {
    RecordsOfLeaders(run, packages, vulnerabilities, r);
    var p :| First(packages, RecordKeyOf, p) && RecordFor(run, vulnerabilities)(p) == r;
    assert p in packages;
    MatchingCounts(vulnerabilities, Key(Lower(r.ecosystem), Lower(r.name), r.version));
  }

  predicate Attached(records: seq<Record>, v: Vulnerability) { exists r :: r in records && v in r.vulnerabilities }

  /** A package with this key is the first of its record key. */
  predicate LedBy(packages: seq<Package>, key: Key) {
    exists p :: p in packages && First(packages, RecordKeyOf, p) && DependencyKey(p) == key
  }

  /** A vulnerability is attached to some record if and only if a package with the key of the package it
      names is the first of its record key. */
  lemma AttachedExactlyWhenLed(
    run: string, packages: seq<Package>, vulnerabilities: seq<Vulnerability>, v: Vulnerability)
    requires v in vulnerabilities && v.package.Some?
    ensures Attached(Recorded(run, packages, vulnerabilities), v) <==> LedBy(packages, DependencyKey(v.package.value))
  {
    var records := Recorded(run, packages, vulnerabilities);
    if Attached(records, v) {
      var r :| r in records && v in r.vulnerabilities;
      RecordsOfLeaders(run, packages, vulnerabilities, r);
      var p :| First(packages, RecordKeyOf, p) && RecordFor(run, vulnerabilities)(p) == r;
      MatchingAre(vulnerabilities, DependencyKey(p), v);
      assert Concerns(v, DependencyKey(p)) && p in packages;
    }
    if LedBy(packages, DependencyKey(v.package.value)) {
      var p :| p in packages && First(packages, RecordKeyOf, p) && DependencyKey(p) == DependencyKey(v.package.value);
      var r := RecordFor(run, vulnerabilities)(p);
      RecordsOfLeaders(run, packages, vulnerabilities, r);
      MatchingAre(vulnerabilities, DependencyKey(p), v);
      assert v in r.vulnerabilities;
    }
  }

  /** Packages that share a record share their key: none of a blank ecosystem meets one that is really
      called "unknown". */
  predicate BlanksStayApart(packages: seq<Package>) {
    forall p, q :: p in packages && q in packages && RecordKeyOf(p) == RecordKeyOf(q) ==>
      DependencyKey(p) == DependencyKey(q)
  }

  lemma NonBlankEcosystemsStayApart(packages: seq<Package>)
    requires NonBlankEcosystems(packages)
    ensures BlanksStayApart(packages)
  {
  }

  /** Where blanks stay apart, in particular when no ecosystem is blank, every vulnerability whose named
      package is listed is attached to some record. */
  lemma ListedVulnerabilitiesAreAttached(
    run: string, packages: seq<Package>, vulnerabilities: seq<Vulnerability>, v: Vulnerability, p: Package)
    requires BlanksStayApart(packages)
    requires v in vulnerabilities && v.package.Some? && p in packages
      && DependencyKey(p) == DependencyKey(v.package.value)
    ensures Attached(Recorded(run, packages, vulnerabilities), v)
  {
    DedupedKeys(packages, RecordKeyOf);
    var kept := Deduped(packages, RecordKeyOf);
    assert RecordKeyOf(p) in Keys(kept, RecordKeyOf);
    var leader :| leader in kept && RecordKeyOf(leader) == RecordKeyOf(p);
    DedupedAreFirst(packages, RecordKeyOf, leader);
    assert leader in packages && DependencyKey(leader) == DependencyKey(p);
    AttachedExactlyWhenLed(run, packages, vulnerabilities, v);
  }

  /** Every key listed is that of a package which is the first of its record key. */
  predicate EveryKeyLed(packages: seq<Package>) {
    forall p {:trigger LedBy(packages, DependencyKey(p))} :: p in packages ==> LedBy(packages, DependencyKey(p))
  }

  /** v names the listed package p and is attached to nothing. */
  predicate Lost(
    run: string, packages: seq<Package>, vulnerabilities: seq<Vulnerability>, v: Vulnerability, p: Package) {
    && v in vulnerabilities && v.package.Some? && p in packages && DependencyKey(p) == DependencyKey(v.package.value)
    && !Attached(Recorded(run, packages, vulnerabilities), v)
  }

  ghost predicate LosesNone(run: string, packages: seq<Package>) {
    forall vulnerabilities, v, p :: !Lost(run, packages, vulnerabilities, v, p)
  }

  /** No vulnerability is ever lost, however they are listed, if and only if every key listed is led. */
  lemma NoneLostExactlyWhen(run: string, packages: seq<Package>)
    ensures LosesNone(run, packages) <==> EveryKeyLed(packages)
  {
    LedLosesNone(run, packages);
    UnledLosesOne(run, packages);
  }

  lemma LedLosesNone(run: string, packages: seq<Package>)
    ensures EveryKeyLed(packages) ==> LosesNone(run, packages)
  {
    forall vulnerabilities, v, p | EveryKeyLed(packages) ensures !Lost(run, packages, vulnerabilities, v, p) {
      LostIsUnled(run, packages, vulnerabilities, v, p);
    }
  }

  lemma LostIsUnled(
    run: string, packages: seq<Package>, vulnerabilities: seq<Vulnerability>, v: Vulnerability, p: Package)
    ensures Lost(run, packages, vulnerabilities, v, p) ==> !EveryKeyLed(packages)
  {
    if Lost(run, packages, vulnerabilities, v, p) {
      AttachedExactlyWhenLed(run, packages, vulnerabilities, v);
      assert !LedBy(packages, DependencyKey(p));
    }
  }

  lemma UnledLosesOne(run: string, packages: seq<Package>)
    ensures !EveryKeyLed(packages) ==> !LosesNone(run, packages)
  {
    if !EveryKeyLed(packages) {
      var p :| p in packages && !LedBy(packages, DependencyKey(p));
      var v := Vulnerability("example", Some(p));
      AttachedExactlyWhenLed(run, packages, [v], v);
      LostRefutes(run, packages, [v], v, p);
    }
  }

  lemma LostRefutes(
    run: string, packages: seq<Package>, vulnerabilities: seq<Vulnerability>, v: Vulnerability, p: Package)
    requires Lost(run, packages, vulnerabilities, v, p)
    ensures !LosesNone(run, packages)
  {
  }

  lemma HiddenIsLost(run: string, first: Package, second: Package, v: Vulnerability)
    requires RecordKeyOf(first) == RecordKeyOf(second) && DependencyKey(first) != DependencyKey(second)
    requires v.package == Some(second)
    ensures Lost(run, [first, second], [v], v, second)
  {
    var packages := [first, second];
    assert packages[0] == first && packages[1] == second;
    AttachedExactlyWhenLed(run, packages, [v], v);
  }

  /** A package of a blank ecosystem hides a later one of the ecosystem "unknown": what is reported about the
      later one is attached to nothing. */
  lemma BlankEcosystemLosesAVulnerability(run: string, name: string, version: Option<string>)
    ensures var blank, unknown := Package("", name, version, None), Package("unknown", name, version, None);
      var v := Vulnerability("example", Some(unknown));
      Lost(run, [blank, unknown], [v], v, unknown)
  {
    var blank, unknown := Package("", name, version, None), Package("unknown", name, version, None);
    assert Lower("unknown") != Lower("") by {
      assert |Lower("unknown")| == 7 && |Lower("")| == 0;
    }
    HiddenIsLost(run, blank, unknown, Vulnerability("example", Some(unknown)));
  }

  /** An ecosystem of blanks is one a scanner can report. */
  lemma BlankEcosystemIsEmpty(name: Value, version: Value, manifest: Value)
    ensures Normalised(Item(Str(" "), name, version, manifest)).value.ecosystem == ""
    ensures Normalised(Item(Null, name, version, manifest)).value.ecosystem == "unknown"
  {
    StrippedBlank();
    StrippedWord("unknown");
  }

  lemma StrippedBlank()
    ensures Strip(" ") == ""
  {
    assert TrimLeft(" ", IsSpace) == "";
  }

  lemma StrippedWord(word: string)
    requires word != "" && !IsSpace(word[0]) && !IsSpace(word[|word| - 1])
    ensures Strip(word) == word
  {
  }
}
