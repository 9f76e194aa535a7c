/**
 Strings as sequences of UTF-16 code units, and the built-in operations the scripts use on them.

 Dafny's `char` has no surrogates.  The 2048 surrogate code units are written as the characters
 U+10000 to U+107FF, so that every JavaScript string, cut anywhere, is a `string` of the same length.
 */
module Text {
  /** The code units that `trim` removes: ECMAScript white space and line terminators. */
  predicate IsSpace(c: char) {
    c in {'\t', '\n', '\U{0B}', '\U{0C}', '\r', ' ', '\U{A0}', '\U{1680}', '\U{2028}', '\U{2029}',
          '\U{202F}', '\U{205F}', '\U{3000}', '\U{FEFF}'}
    || '\U{2000}' <= c <= '\U{200A}'
  }

  function TrimStart(s: string): (r: string)
    ensures r == "" || !IsSpace(r[0])
  {
    if s != "" && IsSpace(s[0]) then TrimStart(s[1..]) else s
  }

  function TrimEnd(s: string): (r: string)
    ensures r <= s
    ensures r == "" || !IsSpace(r[|r| - 1])
  {
    if s != "" && IsSpace(s[|s| - 1]) then TrimEnd(s[..|s| - 1]) else s
  }

  function Trim(s: string): string {
    TrimEnd(TrimStart(s))
  }

  predicate AllSpace(s: string) {
    forall i :: 0 <= i < |s| ==> IsSpace(s[i])
  }

  /** Nothing to trim. */
  predicate IsTrimmed(s: string) {
    s != "" ==> !IsSpace(s[0]) && !IsSpace(s[|s| - 1])
  }

  lemma {:induction false} TrimStartDrops(lead: string, value: string)
    requires AllSpace(lead) && (value != "" ==> !IsSpace(value[0]))
    ensures TrimStart(lead + value) == value
  {
    if lead == "" {
      assert lead + value == value;
    } else {
      TrimStartDrops(lead[1..], value);
      assert (lead + value)[1..] == lead[1..] + value;
    }
  }

  lemma {:induction false} TrimEndDrops(value: string, trail: string)
    requires AllSpace(trail) && (value != "" ==> !IsSpace(value[|value| - 1]))
    ensures TrimEnd(value + trail) == value
  {
    if trail == "" {
      assert value + trail == value;
    } else {
      var n := |trail| - 1;
      TrimEndDrops(value, trail[..n]);
      assert (value + trail)[..|value + trail| - 1] == value + trail[..n];
    }
  }

  /** Exactly the space around a trimmed text goes. */
  lemma TrimDrops(lead: string, value: string, trail: string)
    requires AllSpace(lead) && AllSpace(trail) && IsTrimmed(value)
    ensures Trim(lead + value + trail) == value
  {
    if value == "" {
      assert lead + value + trail == (lead + trail) + "";
      TrimStartDrops(lead + trail, "");
    } else {
      TrimStartDrops(lead, value + trail);
      TrimEndDrops(value, trail);
      assert lead + value + trail == lead + (value + trail);
    }
  }

  predicate IsDigit(c: char) {
    '0' <= c <= '9'
  }

  predicate IsNumeric(s: string) {
    forall i :: 0 <= i < |s| ==> IsDigit(s[i])
  }

  /** Decimal text of a non-negative integer. */
  function Decimal(n: nat): (r: string)
    ensures r != "" && IsNumeric(r) && (r[0] == '0' ==> n == 0 && |r| == 1)
  {
    var digit := [('0' as int + n % 10) as char];
    if n < 10 then digit else Decimal(n / 10) + digit
  }

  /** Value of a digit string. */
  function DecimalValue(s: string): nat
    requires IsNumeric(s)
  {
    if s == "" then 0
    else
      assert IsDigit(s[|s| - 1]);
      DecimalValue(s[..|s| - 1]) * 10 + (s[|s| - 1] as int - '0' as int)
  }

  lemma {:induction false} DecimalRoundTrip(n: nat)
    ensures DecimalValue(Decimal(n)) == n
  {
    if n >= 10 {
      DecimalRoundTrip(n / 10);
      assert Decimal(n)[..|Decimal(n)| - 1] == Decimal(n / 10);
    }
  }

  /** Position of a character in code-unit order: the surrogates come before U+E000. */
  function Rank(c: char): int {
    if '\U{E000}' <= c <= '\U{FFFF}' then c as int + 0x11_0000 else c as int
  }

  /** The UTF-16 code unit that a character stands for. */
  function CodeUnit(c: char): int {
    if c < '\U{10000}' then c as int else c as int - 0x1_0000 + 0xD800
  }

  lemma RankIsCodeUnitOrder(a: char, b: char)
    requires a < '\U{10800}' && b < '\U{10800}'
    ensures Rank(a) < Rank(b) <==> CodeUnit(a) < CodeUnit(b)
  {
  }

  /** Code-unit order, as JavaScript compares strings with `<`. */
  predicate Less(a: string, b: string) {
    b != "" && (a == "" || Rank(a[0]) < Rank(b[0]) || (a[0] == b[0] && Less(a[1..], b[1..])))
  }

  lemma {:induction false} LessIsStrictTotal(a: string, b: string)
    ensures !(Less(a, b) && Less(b, a))
    ensures a == b || Less(a, b) || Less(b, a)
    ensures a == b ==> !Less(a, b)
  {
    if a != "" && b != "" && a[0] == b[0] {
      LessIsStrictTotal(a[1..], b[1..]);
      assert a == [a[0]] + a[1..] && b == [b[0]] + b[1..];
    }
  }

  lemma {:induction false} LessIsTransitive(a: string, b: string, c: string)
    requires Less(a, b) && Less(b, c)
    ensures Less(a, c)
  {
    if a != "" && a[0] == b[0] == c[0] {
      LessIsTransitive(a[1..], b[1..], c[1..]);
    }
  }

  /** All strings of a sequence, one after the other. */
  function Concat(parts: seq<string>): string {
    if parts == [] then "" else Concat(parts[..|parts| - 1]) + parts[|parts| - 1]
  }
}
