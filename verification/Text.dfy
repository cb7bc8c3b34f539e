/** String operations the models share, with the semantics of the source's string library. */
module Text {
  import opened Prelude

  /** What `str.isspace` accepts. */
  predicate IsSpace(c: char) {
    var n := c as int;
    || 9 <= n <= 13 || 28 <= n <= 32 || n == 133 || n == 160 || n == 5760 || 8192 <= n <= 8202
    || n == 8232 || n == 8233 || n == 8239 || n == 8287 || n == 12288
  }

  predicate IsDigit(c: char) { '0' <= c <= '9' }

  function LowerChar(c: char): char {
    if 'A' <= c <= 'Z' then (c as int + 32) as char else c
  }

  /** Lower case, for the letters A to Z. */
  function Lower(s: string): (t: string)
    ensures |t| == |s| && forall i :: 0 <= i < |s| ==> t[i] == LowerChar(s[i])
  {
    seq(|s|, i requires 0 <= i < |s| => LowerChar(s[i]))
  }

  function Truncate(s: string, n: nat): string { if |s| <= n then s else s[..n] }

  function TrimLeft(s: string, drop: char -> bool): (t: string)
    ensures t == [] || !drop(t[0])
    ensures t == [] || s != []
    ensures s != [] && !drop(s[0]) ==> t == s
  {
    if s != [] && drop(s[0]) then TrimLeft(s[1..], drop) else s
  }

  function TrimRight(s: string, drop: char -> bool): (t: string)
    ensures t == [] || !drop(t[|t| - 1])
    ensures s != [] && !drop(s[|s| - 1]) ==> t == s
    ensures t <= s
  {
    if s != [] && drop(s[|s| - 1]) then TrimRight(s[..|s| - 1], drop) else s
  }

  /** `str.strip` with the given characters. */
  function Trim(s: string, drop: char -> bool): (t: string)
    ensures t == [] || (!drop(t[0]) && !drop(t[|t| - 1]))
    ensures s != [] && !drop(s[0]) && !drop(s[|s| - 1]) ==> t == s
  {
    var left := TrimLeft(s, drop);
    var t := TrimRight(left, drop);
    t
  }

  function Strip(s: string): string { Trim(s, IsSpace) }

  predicate StartsWith(s: string, prefix: string) { prefix <= s }

  predicate EndsWith(s: string, suffix: string) { |suffix| <= |s| && s[|s| - |suffix|..] == suffix }

  predicate OccursAt(s: string, pattern: string, i: nat) {
    i + |pattern| <= |s| && s[i..i + |pattern|] == pattern
  }

  /** pattern occurs in s. */
  predicate Contains(s: string, pattern: string) {
    exists i :: 0 <= i <= |s| && OccursAt(s, pattern, i)
  }

  function DigitChar(d: nat): char
    requires d < 10
  {
    (d + '0' as int) as char
  }

  function Decimal(n: nat): (s: string)
    ensures s != "" && forall i :: 0 <= i < |s| ==> IsDigit(s[i])
  {
    if n < 10 then [DigitChar(n)] else Decimal(n / 10) + [DigitChar(n % 10)]
  }

  /** The value of a run of digits with single underscores between them, if that is what s is. */
  function DigitsValue(s: string): Option<nat> {
    if s == "" || !IsDigit(s[|s| - 1]) then None
    else
      var d := s[|s| - 1] as int - '0' as int;
      var rest := s[..|s| - 1];
      if rest == "" then Some(d)
      else
        var front := if rest[|rest| - 1] == '_' then DigitsValue(rest[..|rest| - 1]) else DigitsValue(rest);
        match front
        case None => None
        case Some(n) => Some(10 * n + d)
  }

  /** `int(s)` of a string, None where it raises. */
  function ParseInt(s: string): Option<int> {
    var t := Strip(s);
    if t == "" then None
    else
      var signed := t[0] == '-' || t[0] == '+';
      var digits := DigitsValue(if signed then t[1..] else t);
      if digits == None then None
      else
        var magnitude: int := digits.value;
        var value: int := if t[0] == '-' then -magnitude else magnitude;
        Some(value)
  }

  lemma {:induction false} DecimalParses(n: nat)
    ensures DigitsValue(Decimal(n)) == Some(n)
  {
    var s := Decimal(n);
    if n >= 10 {
      DecimalParses(n / 10);
      assert s[..|s| - 1] == Decimal(n / 10);
      assert s[..|s| - 1][|s| - 2] != '_';
    }
  }
}
