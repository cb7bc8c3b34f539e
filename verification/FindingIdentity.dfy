/** The canonical identity of a finding, computed from untyped tool output. */
module FindingIdentity {
  import opened Prelude
  import opened Text

  type NonEmpty = s: string | s != "" witness "0"

  /** A JSON-like value. Numbers with a fraction and compound values carry their printed form. */
  datatype Value =
    | Null
    | Str(s: string)
    | Integer(n: int)
    | Boolean(b: bool)
    | Fraction(r: real, printed: NonEmpty)
    | Compound(empty: bool, printed: NonEmpty)

  predicate Truthy(v: Value) {
    match v
    case Null => false
    case Str(s) => s != ""
    case Integer(n) => n != 0
    case Boolean(b) => b
    case Fraction(r, _) => r != 0.0
    case Compound(empty, _) => !empty
  }

  function Printed(v: Value): (s: string)
    ensures Truthy(v) ==> s != ""
  {
    match v
    case Null => "None"
    case Str(s) => s
    case Integer(n) => if n < 0 then "-" + Decimal(-n) else Decimal(n)
    case Boolean(b) => if b then "True" else "False"
    case Fraction(_, printed) => printed
    case Compound(_, printed) => printed
  }

  function Or(v: Value, fallback: Value): Value { if Truthy(v) then v else fallback }

  function OptionalText(v: Value): Option<string> { if Truthy(v) then Some(Printed(v)) else None }

  /** Truncation toward zero, as `int` does. */
  function TruncateReal(r: real): int { if r >= 0.0 then r.Floor else -((-r).Floor) }

  function OptionalInt(v: Value): Option<int> {
    match v
    case Null => None
    case Str(s) => if s == "" then None else ParseInt(s)
    case Integer(n) => Some(n)
    case Boolean(b) => Some(if b then 1 else 0)
    case Fraction(r, _) => Some(TruncateReal(r))
    case Compound(_, _) => None
  }

  datatype Identity = Identity(
    title: string, source: string, filePath: Option<string>, lineStart: Option<int>, ruleId: Option<string>)

  function FindingIdentity(title: Value, source: Value, filePath: Value, lineStart: Value, ruleId: Value): Identity {
    Identity(
      Truncate(Printed(Or(title, Str("Finding"))), 255),
      Printed(Or(source, Str("unknown"))),
      OptionalText(filePath),
      OptionalInt(lineStart),
      OptionalText(ruleId))
  }

  function TextValue(s: Option<string>): Value { if s.Some? then Str(s.value) else Null }

  function IntValue(n: Option<int>): Value { if n.Some? then Integer(n.value) else Null }

  /** The identity computed again from the columns it was stored in. */
  function Reidentified(id: Identity): Identity {
    FindingIdentity(Str(id.title), Str(id.source), TextValue(id.filePath), IntValue(id.lineStart), TextValue(id.ruleId))
  }

  predicate Canonical(id: Identity) {
    && 0 < |id.title| <= 255
    && id.source != ""
    && id.filePath != Some("")
    && id.ruleId != Some("")
  }

  /** Every computed identity is canonical, and the canonical identities are exactly the fixed points:
      looking a stored finding up by its own columns finds its own identity. */
  lemma IdentityIsFixedPoint(
    title: Value, source: Value, filePath: Value, lineStart: Value, ruleId: Value, id: Identity)
    ensures Canonical(FindingIdentity(title, source, filePath, lineStart, ruleId))
    ensures Reidentified(id) == id <==> Canonical(id)
    ensures var computed := FindingIdentity(title, source, filePath, lineStart, ruleId);
      Reidentified(computed) == computed
  {
    ComputedIsCanonical(title, source, filePath, lineStart, ruleId);
    CanonicalIsFixed(id);
    CanonicalIsFixed(FindingIdentity(title, source, filePath, lineStart, ruleId));
  }

  lemma ComputedIsCanonical(title: Value, source: Value, filePath: Value, lineStart: Value, ruleId: Value)
    ensures Canonical(FindingIdentity(title, source, filePath, lineStart, ruleId))
  {
  }

  lemma CanonicalIsFixed(id: Identity)
    ensures Reidentified(id) == id <==> Canonical(id)
  {
    TextStays(id.filePath);
    TextStays(id.ruleId);
    assert OptionalInt(IntValue(id.lineStart)) == id.lineStart;
  }

  lemma TextStays(s: Option<string>)
    ensures OptionalText(TextValue(s)) == s <==> s != Some("")
  {
  }

  /** A line number printed as text and one given as an integer are the same line. */
  lemma LineNumbersAgree(n: int)
    ensures OptionalInt(Str(Printed(Integer(n)))) == OptionalInt(Integer(n))
  {
    var m: nat := if n < 0 then -n else n;
    DecimalParses(m);
    PrintedIsTrimmed(n);
  }

  lemma PrintedIsTrimmed(n: int)
    ensures var s := Printed(Integer(n)); var m: nat := if n < 0 then -n else n;
      && Strip(s) == s != ""
      && s[0] != '+' && (s[0] == '-' <==> n < 0)
      && (if n < 0 then s[1..] else s) == Decimal(m)
  {
    var m: nat := if n < 0 then -n else n;
    var digits := Decimal(m);
    assert IsDigit(digits[0]) && IsDigit(digits[|digits| - 1]);
    var s := Printed(Integer(n));
    assert s[|s| - 1] == digits[|digits| - 1];
  }
}
