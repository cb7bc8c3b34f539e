/** Names of runtime containers as DNS labels (section 2.3.1 of RFC 1035, as relaxed by section 2.1 of RFC 1123). */
module DnsLabels {
  import opened Text

  predicate IsAlphanumeric(c: char) { 'a' <= c <= 'z' || '0' <= c <= '9' }

  predicate IsHyphen(c: char) { c == '-' }

  predicate IsLabelChar(c: char) { IsAlphanumeric(c) || IsHyphen(c) }

  /** Every maximal run of other characters becomes one hyphen. */
  function ReplaceRuns(s: string, inRun: bool): string {
    if s == "" then ""
    else if IsLabelChar(s[0]) then [s[0]] + ReplaceRuns(s[1..], false)
    else (if inRun then "" else "-") + ReplaceRuns(s[1..], true)
  }

  /** Every maximal run of hyphens becomes one hyphen. */
  function Collapse(s: string): string {
    if |s| < 2 then s
    else if IsHyphen(s[0]) && IsHyphen(s[1]) then Collapse(s[1..])
    else [s[0]] + Collapse(s[1..])
  }

  /** What is made of a text that is already in lower case. */
  function LabelOf(lowered: string, maxLength: nat): string {
    Trim(Truncate(Collapse(Trim(ReplaceRuns(lowered, false), IsHyphen)), maxLength), IsHyphen)
  }

  function DnsLabelPart(value: string, maxLength: nat): string { LabelOf(Lower(value), maxLength) }

  // ---------------------------------------------------------------- labels

  predicate AllLabelChars(s: string) { forall k :: 0 <= k < |s| ==> IsLabelChar(s[k]) }

  predicate NoDoubleHyphen(s: string) { forall k :: 0 <= k < |s| - 1 ==> !(IsHyphen(s[k]) && IsHyphen(s[k + 1])) }

  predicate IsLabel(s: string) {
    s != "" && AllLabelChars(s) && NoDoubleHyphen(s) && IsAlphanumeric(s[0]) && IsAlphanumeric(s[|s| - 1])
  }

  /** The letters and digits of s, in order. */
  function Alphanumerics(s: string): string {
    if s == "" then "" else (if IsAlphanumeric(s[0]) then [s[0]] else "") + Alphanumerics(s[1..])
  }

  lemma {:induction false} AlphanumericsConcat(s: string, t: string)
    ensures Alphanumerics(s + t) == Alphanumerics(s) + Alphanumerics(t)
  {
    if s == "" {
      assert s + t == t;
    } else {
      assert (s + t)[0] == s[0] && (s + t)[1..] == s[1..] + t;
      AlphanumericsConcat(s[1..], t);
    }
  }

  lemma {:induction false} ReplaceRunsKeeps(s: string, inRun: bool)
    ensures AllLabelChars(ReplaceRuns(s, inRun))
    ensures Alphanumerics(ReplaceRuns(s, inRun)) == Alphanumerics(s)
    ensures AllLabelChars(s) ==> ReplaceRuns(s, inRun) == s
  {
    if s != "" {
      var next := !IsLabelChar(s[0]);
      ReplaceRunsKeeps(s[1..], next);
      var head := if !next then [s[0]] else if inRun then "" else "-";
      assert ReplaceRuns(s, inRun) == head + ReplaceRuns(s[1..], next);
      AlphanumericsConcat(head, ReplaceRuns(s[1..], next));
      assert s == [s[0]] + s[1..];
      assert head != "" ==> Alphanumerics(head) == Alphanumerics([head[0]]) && head[1..] == "";
      if AllLabelChars(s) {
        assert AllLabelChars(s[1..]);
      }
    }
  }

  lemma {:induction false} CollapseShape(s: string)
    requires s != "" && AllLabelChars(s)
    ensures var t := Collapse(s);
      && 0 < |t| <= |s| && AllLabelChars(t) && NoDoubleHyphen(t) && t[0] == s[0] && t[|t| - 1] == s[|s| - 1]
  {
    if |s| >= 2 {
      assert AllLabelChars(s[1..]);
      CollapseShape(s[1..]);
      var rest := Collapse(s[1..]);
      if !(IsHyphen(s[0]) && IsHyphen(s[1])) {
        var t := [s[0]] + rest;
        assert Collapse(s) == t && t[|t| - 1] == rest[|rest| - 1];
        assert forall k :: 1 <= k < |t| ==> t[k] == rest[k - 1];
      }
    }
  }

  lemma {:induction false} CollapseAlphanumerics(s: string)
    ensures Alphanumerics(Collapse(s)) == Alphanumerics(s)
  {
    if |s| >= 2 {
      CollapseAlphanumerics(s[1..]);
      if !(IsHyphen(s[0]) && IsHyphen(s[1])) {
        assert ([s[0]] + Collapse(s[1..]))[1..] == Collapse(s[1..]);
      }
    }
  }

  lemma {:induction false} CollapseLeaves(s: string)
    requires NoDoubleHyphen(s)
    ensures Collapse(s) == s
  {
    if |s| >= 2 {
      var tail := s[1..];
      assert forall k {:trigger tail[k]} :: 0 <= k < |tail| ==> tail[k] == s[k + 1];
      assert !(IsHyphen(s[0]) && IsHyphen(s[0 + 1]));
      CollapseLeaves(tail);
    }
  }

  /** Trimming hyphens takes a piece out of s with the same letters and digits. */
  lemma {:induction false} TrimLeftKeeps(s: string)
    ensures var t := TrimLeft(s, IsHyphen); |t| <= |s| && t == s[|s| - |t|..] && Alphanumerics(t) == Alphanumerics(s)
  {
    if s != "" && IsHyphen(s[0]) {
      var rest := s[1..];
      TrimLeftKeeps(rest);
      var t := TrimLeft(rest, IsHyphen);
      assert TrimLeft(s, IsHyphen) == t && Alphanumerics(s) == Alphanumerics(rest);
      assert t == rest[|rest| - |t|..] == s[|s| - |t|..];
    }
  }

  lemma {:induction false} TrimRightKeeps(s: string)
    ensures Alphanumerics(TrimRight(s, IsHyphen)) == Alphanumerics(s)
  {
    if s != "" && IsHyphen(s[|s| - 1]) {
      var front := s[..|s| - 1];
      TrimRightKeeps(front);
      assert s == front + [s[|s| - 1]];
      AlphanumericsConcat(front, [s[|s| - 1]]);
    }
  }

  lemma TrimKeeps(s: string)
    requires AllLabelChars(s)
    ensures var t := Trim(s, IsHyphen);
      && AllLabelChars(t) && |t| <= |s| && Alphanumerics(t) == Alphanumerics(s)
      && (NoDoubleHyphen(s) ==> NoDoubleHyphen(t))
  {
    var left := TrimLeft(s, IsHyphen);
    TrimLeftKeeps(s);
    TrimRightKeeps(left);
    var t := Trim(s, IsHyphen);
    assert forall k :: 0 <= k < |t| ==> t[k] == left[k] == s[|s| - |left| + k];
  }

  lemma TruncateKeeps(s: string, n: nat)
    requires AllLabelChars(s) && NoDoubleHyphen(s)
    ensures var t := Truncate(s, n);
      AllLabelChars(t) && NoDoubleHyphen(t) && |t| <= n && Alphanumerics(t) <= Alphanumerics(s)
  {
    if |s| > n {
      assert s == s[..n] + s[n..];
      AlphanumericsConcat(s[..n], s[n..]);
    }
  }

  /** Whatever the text, the result is empty or a label of at most maxLength characters, and its letters
      and digits are the first ones of the text, in order; all of them if there is room. */
  lemma PartsAreLabels(lowered: string, maxLength: nat)
    ensures var part := LabelOf(lowered, maxLength);
      && (part == "" || IsLabel(part)) && |part| <= maxLength
      && Alphanumerics(part) <= Alphanumerics(lowered)
      && (|lowered| <= maxLength ==> Alphanumerics(part) == Alphanumerics(lowered))
  {
    var replaced := ReplaceRuns(lowered, false);
    ReplaceRunsKeeps(lowered, false);
    ReplaceRunsShortens(lowered, false);
    var trimmed := Trim(replaced, IsHyphen);
    TrimKeeps(replaced);
    var collapsed := Collapse(trimmed);
    if trimmed != "" {
      CollapseShape(trimmed);
    }
    CollapseAlphanumerics(trimmed);
    TruncateKeeps(collapsed, maxLength);
    TrimKeeps(Truncate(collapsed, maxLength));
  }

  lemma {:induction false} ReplaceRunsShortens(s: string, inRun: bool)
    ensures |ReplaceRuns(s, inRun)| <= |s|
  {
    if s != "" {
      ReplaceRunsShortens(s[1..], !IsLabelChar(s[0]));
    }
  }

  /** Exactly the labels of at most maxLength characters, and the empty text, are left as they are. */
  lemma LabelsAreFixedPoints(text: string, maxLength: nat)
    ensures LabelOf(text, maxLength) == text <==> (text == "" || IsLabel(text)) && |text| <= maxLength
  {
    PartsAreLabels(text, maxLength);
    if IsLabel(text) && |text| <= maxLength {
      LabelStays(text, maxLength);
    }
  }

  lemma LabelStays(text: string, maxLength: nat)
    requires IsLabel(text) && |text| <= maxLength
    ensures LabelOf(text, maxLength) == text
  {
    ReplaceRunsKeeps(text, false);
    CollapseLeaves(text);
    assert Trim(text, IsHyphen) == text;
  }

  lemma LowerKeepsLabels(s: string)
    requires AllLabelChars(s)
    ensures Lower(s) == s
  {
    assert forall k :: 0 <= k < |s| ==> LowerChar(s[k]) == s[k];
  }

  /** Making a part of a part changes nothing. */
  lemma DnsLabelPartIsIdempotent(value: string, maxLength: nat)
    ensures DnsLabelPart(DnsLabelPart(value, maxLength), maxLength) == DnsLabelPart(value, maxLength)
  {
    var part := DnsLabelPart(value, maxLength);
    PartsAreLabels(Lower(value), maxLength);
    LowerKeepsLabels(part);
    LabelsAreFixedPoints(part, maxLength);
  }

  // ---------------------------------------------------------------- container names

  function OrElse(part: string, fallback: string): string { if part != "" then part else fallback }

  function WithoutHyphens(s: string): string {
    if s == "" then "" else (if IsHyphen(s[0]) then "" else [s[0]]) + WithoutHyphens(s[1..])
  }

  function Part(value: string, maxLength: nat, fallback: string): string {
    OrElse(DnsLabelPart(value, maxLength), fallback)
  }

  /** The parts of a container name, each at most as long as its share. `auditHash` is the digest of the
      audit run's identifier, `random` a random identifier. */
  function NameParts(
    prefix: string, auditHash: string, role: string, template: string, runId: string, random: string): seq<string> {
    [Part(prefix, 10, "dieaudit"), auditHash, Part(role, 8, "run"), Part(template, 18, "item"),
     Part(WithoutHyphens(runId), 12, random)]
  }

  function Joined(parts: seq<string>): string
    requires parts != []
  {
    if |parts| == 1 then parts[0] else parts[0] + "-" + Joined(parts[1..])
  }

  function RuntimeContainerName(
    prefix: string, auditHash: string, role: string, template: string, runId: string, random: string): string {
    TrimRight(Truncate(Joined(NameParts(prefix, auditHash, role, template, runId, random)), 63), IsHyphen)
  }

  lemma LabelsJoin(a: string, b: string)
    requires IsLabel(a) && IsLabel(b)
    ensures IsLabel(a + "-" + b) && |a + "-" + b| == |a| + 1 + |b|
  {
    var s := a + "-" + b;
    assert forall k :: 0 <= k < |a| ==> s[k] == a[k];
    assert forall k :: |a| + 1 <= k < |s| ==> s[k] == b[k - |a| - 1];
    assert s[|a| - 1] == a[|a| - 1] && s[|a| + 1] == b[0];
  }

  /** The joined length: the parts and a hyphen between any two. */
  function TotalLength(parts: seq<string>): nat
    requires parts != []
  {
    if |parts| == 1 then |parts[0]| else |parts[0]| + 1 + TotalLength(parts[1..])
  }

  lemma {:induction false} JoinedIsLabel(parts: seq<string>)
    requires parts != [] && forall k :: 0 <= k < |parts| ==> IsLabel(parts[k])
    ensures IsLabel(Joined(parts)) && |Joined(parts)| == TotalLength(parts)
  {
    if |parts| > 1 {
      JoinedIsLabel(parts[1..]);
      LabelsJoin(parts[0], Joined(parts[1..]));
    }
  }

  predicate IsAlphanumericOf(s: string, n: nat) { |s| == n && forall k :: 0 <= k < |s| ==> IsAlphanumeric(s[k]) }

  lemma PartIsLabel(value: string, maxLength: nat, fallback: string)
    requires 0 < |fallback| <= maxLength && IsAlphanumericOf(fallback, |fallback|)
    ensures IsLabel(Part(value, maxLength, fallback)) && |Part(value, maxLength, fallback)| <= maxLength
  {
    PartsAreLabels(Lower(value), maxLength);
  }

  lemma FiveLengths(parts: seq<string>)
    requires |parts| == 5
    ensures TotalLength(parts) == |parts[0]| + |parts[1]| + |parts[2]| + |parts[3]| + |parts[4]| + 4
  {
    assert parts[1..][0] == parts[1] && parts[1..][1..] == parts[2..];
    assert parts[2..][0] == parts[2] && parts[2..][1..] == parts[3..];
    assert parts[3..][0] == parts[3] && parts[3..][1..] == parts[4..];
    assert TotalLength(parts[4..]) == |parts[4]|;
    assert TotalLength(parts[3..]) == |parts[3]| + 1 + |parts[4]|;
    assert TotalLength(parts[2..]) == |parts[2]| + 1 + TotalLength(parts[3..]);
  }

  /** Five labels within their shares. */
  predicate WithinShares(parts: seq<string>) {
    && |parts| == 5 && (forall k :: 0 <= k < 5 ==> IsLabel(parts[k]))
    && |parts[0]| <= 10 && |parts[1]| <= 8 && |parts[2]| <= 8 && |parts[3]| <= 18 && |parts[4]| <= 12
  }

  lemma NamePartsAreLabels(
    prefix: string, auditHash: string, role: string, template: string, runId: string, random: string)
    requires IsAlphanumericOf(auditHash, 8) && IsAlphanumericOf(random, 12)
    ensures WithinShares(NameParts(prefix, auditHash, role, template, runId, random))
  {
    FallbacksAreAlphanumeric();
    var p, r, t := "dieaudit", "run", "item";
    PartIsLabel(prefix, 10, p);
    PartIsLabel(role, 8, r);
    PartIsLabel(template, 18, t);
    PartIsLabel(WithoutHyphens(runId), 12, random);
    HashIsLabel(auditHash);
    Assemble(Part(prefix, 10, p), auditHash, Part(role, 8, r), Part(template, 18, t),
      Part(WithoutHyphens(runId), 12, random));
  }

  lemma FallbacksAreAlphanumeric()
    ensures IsAlphanumericOf("dieaudit", 8) && IsAlphanumericOf("run", 3) && IsAlphanumericOf("item", 4)
  {
  }

  lemma Assemble(a: string, b: string, c: string, d: string, e: string)
    requires IsLabel(a) && IsLabel(b) && IsLabel(c) && IsLabel(d) && IsLabel(e)
    requires |a| <= 10 && |b| <= 8 && |c| <= 8 && |d| <= 18 && |e| <= 12
    ensures WithinShares([a, b, c, d, e])
  {
  }

  lemma HashIsLabel(hash: string)
    requires hash != "" && IsAlphanumericOf(hash, |hash|)
    ensures IsLabel(hash)
  {
  }

  lemma PartsWithinSharesFit(parts: seq<string>)
    requires WithinShares(parts)
    ensures IsLabel(Joined(parts)) && |Joined(parts)| <= 60
    ensures TrimRight(Truncate(Joined(parts), 63), IsHyphen) == Joined(parts)
  {
    JoinedIsLabel(parts);
    FiveLengths(parts);
  }

  /** Whatever the prefix, role, template and identifier, a container name is a DNS label of at most 60
      characters: the cut at 63 never applies, so no part is lost and nothing is trimmed off the end. */
  lemma ContainerNamesAreDnsLabels(
    prefix: string, auditHash: string, role: string, template: string, runId: string, random: string)
    requires IsAlphanumericOf(auditHash, 8) && IsAlphanumericOf(random, 12)
    ensures var name := RuntimeContainerName(prefix, auditHash, role, template, runId, random);
      && IsLabel(name) && |name| <= 60
      && name == Joined(NameParts(prefix, auditHash, role, template, runId, random))
  {
    NamePartsAreLabels(prefix, auditHash, role, template, runId, random);
    PartsWithinSharesFit(NameParts(prefix, auditHash, role, template, runId, random));
  }
}
