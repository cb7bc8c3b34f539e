/** Percent-encoding of path segments: UTF-8 octets outside the unreserved set are written as '%' and two
    hexadecimal digits (section 2.1 of RFC 3986). */
module PercentEncoding {
  import opened Prelude

  type Octet = n: int | 0 <= n < 256

  /** What `encodeURIComponent` leaves as it is. */
  predicate IsUnreserved(c: char) {
    || 'A' <= c <= 'Z' || 'a' <= c <= 'z' || '0' <= c <= '9'
    || c == '-' || c == '_' || c == '.' || c == '!' || c == '~' || c == '*' || c == '\'' || c == '(' || c == ')'
  }

  // ---------------------------------------------------------------- UTF-8

  predicate IsScalar(n: int) { 0 <= n < 0xD800 || 0xE000 <= n < 0x11_0000 }

  function Utf8(n: int): seq<Octet>
    requires IsScalar(n)
  {
    if n < 0x80 then [n]
    else if n < 0x800 then [0xC0 + n / 0x40, 0x80 + n % 0x40]
    else if n < 0x1_0000 then [0xE0 + n / 0x1000, 0x80 + n / 0x40 % 0x40, 0x80 + n % 0x40]
    else [0xF0 + n / 0x4_0000, 0x80 + n / 0x1000 % 0x40, 0x80 + n / 0x40 % 0x40, 0x80 + n % 0x40]
  }

  /** How many octets the character starting with this octet takes; 0 for an octet that cannot start one. */
  function Utf8Length(lead: Octet): nat {
    if lead < 0x80 then 1
    else if 0xC2 <= lead < 0xE0 then 2
    else if 0xE0 <= lead < 0xF0 then 3
    else if 0xF0 <= lead < 0xF5 then 4
    else 0
  }

  predicate IsContinuation(o: Octet) { 0x80 <= o < 0xC0 }

  /** The character a complete octet sequence stands for; overlong forms and surrogates are rejected. */
  function FromUtf8(o: seq<Octet>): Option<int> {
    if o == [] || |o| != Utf8Length(o[0]) || exists k :: 1 <= k < |o| && !IsContinuation(o[k]) then None
    else
      var code: int :=
        if |o| == 1 then o[0]
        else if |o| == 2 then (o[0] as int - 0xC0) * 0x40 + (o[1] as int - 0x80)
        else if |o| == 3 then (o[0] as int - 0xE0) * 0x1000 + (o[1] as int - 0x80) * 0x40 + (o[2] as int - 0x80)
        else
          (o[0] as int - 0xF0) * 0x4_0000 + (o[1] as int - 0x80) * 0x1000
          + (o[2] as int - 0x80) * 0x40 + (o[3] as int - 0x80);
      var least := if |o| == 1 then 0 else if |o| == 2 then 0x80 else if |o| == 3 then 0x800 else 0x1_0000;
      if code >= least && IsScalar(code) then Some(code) else None
  }

  lemma ThreeOctets(n: int)
    requires IsScalar(n) && 0x800 <= n < 0x1_0000
    ensures FromUtf8(Utf8(n)) == Some(n) && |Utf8(n)| == Utf8Length(Utf8(n)[0])
  {
    var a, b, c := n / 0x1000, n / 0x40 % 0x40, n % 0x40;
    assert n == a * 0x1000 + b * 0x40 + c;
    assert Utf8(n) == [0xE0 + a, 0x80 + b, 0x80 + c];
  }

  lemma FourOctets(n: int)
    requires IsScalar(n) && 0x1_0000 <= n
    ensures FromUtf8(Utf8(n)) == Some(n) && |Utf8(n)| == Utf8Length(Utf8(n)[0])
  {
    var a, b, c, d := n / 0x4_0000, n / 0x1000 % 0x40, n / 0x40 % 0x40, n % 0x40;
    assert n / 0x1000 == a * 0x40 + b && n / 0x40 == (n / 0x1000) * 0x40 + c;
    assert n == a * 0x4_0000 + b * 0x1000 + c * 0x40 + d;
    assert Utf8(n) == [0xF0 + a, 0x80 + b, 0x80 + c, 0x80 + d];
  }

  lemma Utf8RoundTrip(n: int)
    requires IsScalar(n)
    ensures FromUtf8(Utf8(n)) == Some(n)
    ensures |Utf8(n)| == Utf8Length(Utf8(n)[0]) >= 1
  {
    if n >= 0x1_0000 {
      FourOctets(n);
    } else if n >= 0x800 {
      ThreeOctets(n);
    }
  }

  // ---------------------------------------------------------------- escapes

  function HexDigit(d: int): char
    requires 0 <= d < 16
  {
    if d < 10 then (d + '0' as int) as char else (d - 10 + 'A' as int) as char
  }

  function HexValue(c: char): Option<int> {
    if '0' <= c <= '9' then Some(c as int - '0' as int)
    else if 'A' <= c <= 'F' then Some(c as int - 'A' as int + 10)
    else if 'a' <= c <= 'f' then Some(c as int - 'a' as int + 10)
    else None
  }

  function Escape(o: Octet): string { ['%', HexDigit(o / 16), HexDigit(o % 16)] }

  function Escapes(octets: seq<Octet>): string {
    if octets == [] then "" else Escape(octets[0]) + Escapes(octets[1..])
  }

  /** The octet an escape at the start of s stands for. */
  function Unescape(s: string): (o: Option<Octet>)
    ensures o.Some? ==> |s| >= 3
  {
    if |s| < 3 || s[0] != '%' then None
    else match (HexValue(s[1]), HexValue(s[2]))
      case (Some(high), Some(low)) => Some(high * 16 + low)
      case _ => None
  }

  /** n escapes at the start of s. */
  function TakeEscapes(s: string, n: nat): (octets: Option<seq<Octet>>)
    ensures octets.Some? ==> |s| >= 3 * n && |octets.value| == n
  {
    if n == 0 then Some([])
    else match Unescape(s)
      case None => None
      case Some(o) =>
        match TakeEscapes(s[3..], n - 1)
        case None => None
        case Some(rest) => Some([o] + rest)
  }

  function EncodeChar(c: char): string {
    if IsUnreserved(c) then [c] else Escapes(Utf8(c as int))
  }

  /** `encodeURIComponent`. */
  function Encode(s: string): string {
    if s == "" then "" else EncodeChar(s[0]) + Encode(s[1..])
  }

  /** `decodeURIComponent`; None where it throws. */
  function Decode(s: string): Option<string>
    decreases |s|
  {
    if s == "" then Some("")
    else if s[0] != '%' then
      (match Decode(s[1..]) case None => None case Some(rest) => Some([s[0]] + rest))
    else match Unescape(s)
      case None => None
      case Some(lead) =>
        var n := Utf8Length(lead);
        if n == 0 then None
        else match TakeEscapes(s, n)
          case None => None
          case Some(octets) =>
            match FromUtf8(octets)
            case None => None
            case Some(code) =>
              if !IsScalar(code) then None
              else match Decode(s[3 * n..])
                case None => None
                case Some(rest) => Some([code as char] + rest)
  }

  // ---------------------------------------------------------------- the round trip

  lemma EscapeRoundTrip(o: Octet, tail: string)
    ensures Unescape(Escape(o) + tail) == Some(o) && (Escape(o) + tail)[3..] == tail
  {
    var s := Escape(o) + tail;
    assert s[0] == '%' && s[1] == HexDigit(o / 16) && s[2] == HexDigit(o % 16);
  }

  lemma {:induction false} EscapesRoundTrip(octets: seq<Octet>, tail: string)
    ensures |Escapes(octets)| == 3 * |octets|
    ensures TakeEscapes(Escapes(octets) + tail, |octets|) == Some(octets)
  {
    if octets == [] {
      assert TakeEscapes(Escapes(octets) + tail, 0) == Some([]);
    } else {
      var s, rest := Escapes(octets) + tail, Escapes(octets[1..]) + tail;
      assert s == Escape(octets[0]) + rest;
      EscapeRoundTrip(octets[0], rest);
      EscapesRoundTrip(octets[1..], tail);
      assert s[3..] == rest;
      assert [octets[0]] + octets[1..] == octets;
    }
  }

  /** One decoding step at an escaped character. */
  lemma DecodeEscaped(s: string, octets: seq<Octet>, code: int)
    requires octets != [] && |octets| == Utf8Length(octets[0])
    requires s != "" && s[0] == '%' && Unescape(s) == Some(octets[0])
    requires TakeEscapes(s, |octets|) == Some(octets)
    requires FromUtf8(octets) == Some(code) && IsScalar(code)
    requires Decode(s[3 * |octets|..]).Some?
    ensures Decode(s) == Some([code as char] + Decode(s[3 * |octets|..]).value)
  {
  }

  lemma EscapesHead(octets: seq<Octet>, tail: string)
    requires octets != []
    ensures var s := Escapes(octets) + tail;
      s != "" && s[0] == '%' && Unescape(s) == Some(octets[0]) && |s| >= 3 * |octets| && s[3 * |octets|..] == tail
  {
    var rest := Escapes(octets[1..]) + tail;
    EscapeRoundTrip(octets[0], rest);
    EscapesRoundTrip(octets, tail);
    DropPrefix(Escapes(octets), tail);
    assert Escapes(octets) + tail == Escape(octets[0]) + rest;
  }

  lemma DropPrefix(prefix: string, tail: string)
    ensures (prefix + tail)[|prefix|..] == tail
  {
  }

  lemma DecodeEscapes(octets: seq<Octet>, code: int, tail: string)
    requires octets != [] && |octets| == Utf8Length(octets[0])
    requires FromUtf8(octets) == Some(code) && IsScalar(code)
    requires Decode(tail).Some?
    ensures Decode(Escapes(octets) + tail) == Some([code as char] + Decode(tail).value)
  {
    EscapesHead(octets, tail);
    EscapesRoundTrip(octets, tail);
    DecodeEscaped(Escapes(octets) + tail, octets, code);
  }

  lemma DecodeChar(c: char, tail: string)
    requires Decode(tail).Some?
    ensures Decode(EncodeChar(c) + tail) == Some([c] + Decode(tail).value)
  {
    if IsUnreserved(c) {
      var s := [c] + tail;
      assert s[0] == c && s[1..] == tail;
    } else {
      Utf8RoundTrip(c as int);
      DecodeEscapes(Utf8(c as int), c as int, tail);
    }
  }

  /** Decoding an encoded string gives it back, for every string. */
  lemma {:induction false} DecodeEncode(s: string)
    ensures Decode(Encode(s)) == Some(s)
  {
    if s != "" {
      DecodeEncode(s[1..]);
      DecodeChar(s[0], Encode(s[1..]));
      assert [s[0]] + s[1..] == s;
    }
  }

  /** The characters of an encoded string: unreserved ones and '%'. In particular no '/' and no white space. */
  predicate IsSafe(c: char) { IsUnreserved(c) || c == '%' }

  lemma {:induction false} EscapesAreSafe(octets: seq<Octet>)
    ensures forall k :: 0 <= k < |Escapes(octets)| ==> IsSafe(Escapes(octets)[k])
  {
    if octets != [] {
      EscapesAreSafe(octets[1..]);
    }
  }

  lemma {:induction false} EncodedIsSafe(s: string)
    ensures forall k :: 0 <= k < |Encode(s)| ==> IsSafe(Encode(s)[k])
    ensures s != "" ==> Encode(s) != ""
  {
    if s != "" {
      EncodedIsSafe(s[1..]);
      if !IsUnreserved(s[0]) {
        EscapesAreSafe(Utf8(s[0] as int));
        Utf8RoundTrip(s[0] as int);
      }
    }
  }
}
