/** Compiling a translated Kotlin string into an Android format string that means the same. */
module FormatStrings {
  import opened Wrappers
  import opened Text
  import opened Interpolations

  // ----- occurrences of tokens

  function Count(tokens: seq<string>, token: string): nat {
    if tokens == [] then 0
    else Count(tokens[..|tokens| - 1], token) + if tokens[|tokens| - 1] == token then 1 else 0
  }

  lemma {:induction false} CountIsMultiplicity(tokens: seq<string>, token: string)
    ensures Count(tokens, token) == multiset(tokens)[token]
  {
    if tokens != [] {
      CountIsMultiplicity(tokens[..|tokens| - 1], token);
      assert tokens == tokens[..|tokens| - 1] + [tokens[|tokens| - 1]];
    }
  }

  lemma {:induction false} CountGrows(tokens: seq<string>, i: nat, j: nat, token: string)
    requires i <= j <= |tokens|
    ensures Count(tokens[..i], token) <= Count(tokens[..j], token)
    ensures i < j && tokens[i] == token ==> Count(tokens[..i], token) < Count(tokens[..j], token)
    decreases j - i
  {
    if i < j {
      CountGrows(tokens, i + 1, j, token);
      assert tokens[..i + 1][..i] == tokens[..i];
    }
  }

  /** Position of occurrence `k` of the token. */
  function Position(tokens: seq<string>, token: string, k: nat): (p: nat)
    requires k < Count(tokens, token)
    ensures p < |tokens| && tokens[p] == token && Count(tokens[..p], token) == k
  {
    var n := |tokens| - 1;
    if k < Count(tokens[..n], token)
    then
      var p := Position(tokens[..n], token, k);
      assert tokens[..n][..p] == tokens[..p];
      p
    else n
  }

  /** The source token that translated token `i` stands for: the same token, at the same occurrence. */
  function Partner(source: seq<string>, translated: seq<string>, i: nat): (p: nat)
    requires multiset(source) == multiset(translated) && i < |translated|
    ensures p < |source| && source[p] == translated[i]
    ensures Count(source[..p], source[p]) == Count(translated[..i], translated[i])
  {
    assert Count(translated[..i], translated[i]) < Count(source, translated[i]) by {
      CountGrows(translated, i, |translated|, translated[i]);
      assert translated[..|translated|] == translated;
      CountIsMultiplicity(source, translated[i]);
      CountIsMultiplicity(translated, translated[i]);
    }
    Position(source, translated[i], Count(translated[..i], translated[i]))
  }

  /** Partners are each other's partner, so the emitted indices are a permutation. */
  lemma PartnerOfPartner(source: seq<string>, translated: seq<string>, i: nat)
    requires multiset(source) == multiset(translated) && i < |translated|
    ensures Partner(translated, source, Partner(source, translated, i)) == i
  {
    var back := Partner(translated, source, Partner(source, translated, i));
    if back < i {
      CountGrows(translated, back, i, translated[i]);
    } else if i < back {
      CountGrows(translated, i, back, translated[i]);
    }
  }

  // ----- rendering

  function EscapePercent(s: string): string {
    if s == "" then "" else (if s[0] == '%' then "%%" else [s[0]]) + EscapePercent(s[1..])
  }

  function Values(spans: seq<Interpolation>): seq<string> {
    seq(|spans|, i requires 0 <= i < |spans| => spans[i].value)
  }

  /** The placeholder of translated token `i`. */
  function IndexText(source: seq<string>, translated: seq<string>, i: nat): string
    requires multiset(source) == multiset(translated) && i < |translated|
  {
    "%" + Decimal(Partner(source, translated, i) + 1) + "$s"
  }

  predicate AreSpansOf(spans: seq<Interpolation>, s: string) {
    && (forall i :: 0 <= i < |spans| ==> spans[i].start <= spans[i].end <= |s|)
    && (forall i :: 0 <= i < |spans| - 1 ==> EndsBefore(spans, i))
  }

  predicate EndsBefore(spans: seq<Interpolation>, i: nat)
    requires i + 1 < |spans|
  {
    spans[i].end <= spans[i + 1].start
  }

  function CursorAfter(spans: seq<Interpolation>, n: nat): nat
    requires n <= |spans|
  {
    if n == 0 then 0 else spans[n - 1].end
  }

  /** The text before span `n`. */
  function Gap(s: string, spans: seq<Interpolation>, n: nat): string
    requires AreSpansOf(spans, s) && n <= |spans|
  {
    assert 0 < n < |spans| ==> EndsBefore(spans, n - 1);
    assert n > 0 ==> spans[n - 1].end <= |s|;
    s[CursorAfter(spans, n)..if n < |spans| then spans[n].start else |s|]
  }

  function Gaps(s: string, spans: seq<Interpolation>): seq<string>
    requires AreSpansOf(spans, s)
  {
    seq(|spans| + 1, n requires 0 <= n <= |spans| => Gap(s, spans, n))
  }

  /** The compiled text from gap `n` on, for gaps around tokens that are those of the source in some order. */
  function Compiled(gaps: seq<string>, tokens: seq<string>, source: seq<string>, n: nat): string
    requires n <= |tokens| == |gaps| - 1 && multiset(source) == multiset(tokens)
    decreases |tokens| - n
  {
    EscapePercent(gaps[n])
    + if n == |tokens| then "" else IndexText(source, tokens, n) + Compiled(gaps, tokens, source, n + 1)
  }

  // ----- what a format string means

  function DigitsEnd(s: string, i: nat): (end: nat)
    requires i <= |s|
    ensures i <= end <= |s| && IsNumeric(s[i..end])
    ensures end < |s| ==> !IsDigit(s[end])
    decreases |s| - i
  {
    if i < |s| && IsDigit(s[i]) then
      assert s[i..DigitsEnd(s, i + 1)] == [s[i]] + s[i + 1..DigitsEnd(s, i + 1)];
      DigitsEnd(s, i + 1)
    else i
  }

  /** `%%` is a percent sign, `%k$s` is argument k counted from 1; any other `%` is an error. */
  function Format(s: string, args: seq<string>): Option<string> {
    if s == "" then Some("")
    else if s[0] != '%' then Join([s[0]], Format(s[1..], args))
    else if |s| > 1 && s[1] == '%' then Join("%", Format(s[2..], args))
    else
      var end := DigitsEnd(s, 1);
      if end + 1 < |s| && s[end] == '$' && s[end + 1] == 's' && 1 <= DecimalValue(s[1..end]) <= |args|
      then Join(args[DecimalValue(s[1..end]) - 1], Format(s[end + 2..], args))
      else None
  }

  function Join(first: string, rest: Option<string>): Option<string> {
    if rest.Some? then Some(first + rest.value) else None
  }

  lemma JoinTwice(a: string, b: string, rest: Option<string>)
    ensures Join(a, Join(b, rest)) == Join(a + b, rest)
    ensures Join("", rest) == rest
  {
    if rest.Some? {
      assert a + (b + rest.value) == (a + b) + rest.value && "" + rest.value == rest.value;
    }
  }

  lemma FormatOfOne(c: char, rest: string, args: seq<string>)
    ensures Format(EscapePercent([c]) + rest, args) == Join([c], Format(rest, args))
  {
    assert EscapePercent([c]) == if c == '%' then "%%" else [c];
    if c == '%' {
      assert ("%%" + rest)[2..] == rest;
    } else {
      assert ([c] + rest)[1..] == rest;
    }
  }

  lemma EscapeOnePercent(c: char, gap: string)
    ensures EscapePercent([c] + gap) == EscapePercent([c]) + EscapePercent(gap)
  {
    assert ([c] + gap)[1..] == gap && EscapePercent([c]) == if c == '%' then "%%" else [c];
  }

  lemma {:induction false} FormatOfLiteral(gap: string, rest: string, args: seq<string>)
    ensures Format(EscapePercent(gap) + rest, args) == Join(gap, Format(rest, args))
  {
    if gap == "" {
      assert EscapePercent(gap) + rest == rest;
      JoinTwice("", "", Format(rest, args));
    } else {
      var c, others := gap[0], gap[1..];
      FormatOfLiteral(others, rest, args);
      FormatOfOne(c, EscapePercent(others) + rest, args);
      EscapeOnePercent(c, others);
      JoinTwice([c], others, Format(rest, args));
      assert gap == [c] + others;
      assert EscapePercent(gap) + rest == EscapePercent([c]) + (EscapePercent(others) + rest);
    }
  }

  lemma IndexTextParts(digits: string, rest: string)
    requires digits != "" && IsNumeric(digits)
    ensures
      var text, end := "%" + digits + "$s" + rest, 1 + |digits|;
      && end + 1 < |text| && text[0] == '%' && text[1] == digits[0] && text[1..end] == digits
      && text[end] == '$' && text[end + 1] == 's' && text[end + 2..] == rest
  {
  }

  lemma FormatOfIndex(k: nat, rest: string, args: seq<string>)
    requires 1 <= k <= |args|
    ensures Format("%" + Decimal(k) + "$s" + rest, args) == Join(args[k - 1], Format(rest, args))
  {
    var digits := Decimal(k);
    var text, end := "%" + digits + "$s" + rest, 1 + |digits|;
    IndexTextParts(digits, rest);
    assert IsDigit(digits[0]);
    DigitsEndAt(text, 1, end);
    DecimalRoundTrip(k);
    ReadIndex(text, end, args);
  }

  lemma ReadIndex(text: string, end: nat, args: seq<string>)
    requires |text| > 1 && text[0] == '%' && text[1] != '%' && end == DigitsEnd(text, 1)
    requires end + 1 < |text| && text[end] == '$' && text[end + 1] == 's' && 1 <= DecimalValue(text[1..end]) <= |args|
    ensures Format(text, args) == Join(args[DecimalValue(text[1..end]) - 1], Format(text[end + 2..], args))
  {
  }

  lemma {:induction false} DigitsEndAt(s: string, i: nat, end: nat)
    requires i <= end < |s| && IsNumeric(s[i..end]) && !IsDigit(s[end])
    ensures DigitsEnd(s, i) == end
    decreases end - i
  {
    if i < end {
      assert IsDigit(s[i..end][0]) && s[i + 1..end] == s[i..end][1..];
      DigitsEndAt(s, i + 1, end);
    }
  }

  /** The text from gap `n` on, with every token replaced by its run-time value. */
  function Substituted(gaps: seq<string>, tokens: seq<string>, values: string -> string, n: nat): string
    requires n <= |tokens| == |gaps| - 1
    decreases |tokens| - n
  {
    gaps[n] + if n == |tokens| then "" else values(tokens[n]) + Substituted(gaps, tokens, values, n + 1)
  }

  function Arguments(source: seq<string>, values: string -> string): seq<string> {
    seq(|source|, i requires 0 <= i < |source| => values(source[i]))
  }

  /** Formatting the compiled text with the values of the source's tokens fills in the translated text. */
  lemma {:induction false} CompiledMeansTheSame(
    gaps: seq<string>, tokens: seq<string>, source: seq<string>, values: string -> string, n: nat)
    requires n <= |tokens| == |gaps| - 1 && multiset(source) == multiset(tokens)
    ensures Format(Compiled(gaps, tokens, source, n), Arguments(source, values)) == Some(Substituted(gaps, tokens, values, n))
    decreases |tokens| - n
  {
    var args := Arguments(source, values);
    if n == |tokens| {
      FormatOfLiteral(gaps[n], "", args);
    } else {
      var k := Partner(source, tokens, n) + 1;
      var rest := Compiled(gaps, tokens, source, n + 1);
      CompiledMeansTheSame(gaps, tokens, source, values, n + 1);
      assert args[k - 1] == values(tokens[n]);
      JoinTwice(gaps[n], args[k - 1], Format(rest, args));
      FormatOfIndex(k, rest, args);
      FormatOfLiteral(gaps[n], "%" + Decimal(k) + "$s" + rest, args);
    }
  }

  /** With every placeholder standing for itself, substitution gives the string back. */
  lemma {:induction false} SubstitutedByItself(s: string, spans: seq<Interpolation>, n: nat)
    requires AreSpansOf(spans, s) && n <= |spans|
    requires forall i :: 0 <= i < |spans| ==> spans[i].value == s[spans[i].start..spans[i].end]
    ensures CursorAfter(spans, n) <= |s|
    ensures Substituted(Gaps(s, spans), Values(spans), token => token, n) == s[CursorAfter(spans, n)..]
    decreases |spans| - n
  {
    if n < |spans| {
      SubstitutedByItself(s, spans, n + 1);
      assert 0 < n ==> EndsBefore(spans, n - 1);
    }
  }

  /** Texts of the same length in the gaps make the same substituted text only if they are the same. */
  lemma {:induction false} SubstitutedTellsGapsApart(
    a: seq<string>, b: seq<string>, tokens: seq<string>, values: string -> string, n: nat)
    requires n <= |tokens| == |a| - 1 && |b| == |a|
    requires forall i :: 0 <= i < |a| ==> |a[i]| == |b[i]|
    ensures Substituted(a, tokens, values, n) == Substituted(b, tokens, values, n) <==> a[n..] == b[n..]
    decreases |tokens| - n
  {
    SplitsAlike([a[n]], a[n + 1..], [b[n]], b[n + 1..]);
    assert a[n..] == [a[n]] + a[n + 1..] && b[n..] == [b[n]] + b[n + 1..];
    assert [a[n]] == [b[n]] <==> [a[n]][0] == [b[n]][0];
    if n == |tokens| {
      SplitsAlike(a[n], "", b[n], "");
    } else {
      var value := values(tokens[n]);
      var restA, restB := Substituted(a, tokens, values, n + 1), Substituted(b, tokens, values, n + 1);
      SubstitutedTellsGapsApart(a, b, tokens, values, n + 1);
      SplitsAlike(a[n], value + restA, b[n], value + restB);
      SplitsAlike(value, restA, value, restB);
    }
  }

  lemma SplitsAlike<T>(a: seq<T>, x: seq<T>, b: seq<T>, y: seq<T>)
    requires |a| == |b|
    ensures a + x == b + y <==> a == b && x == y
  {
    if a + x == b + y {
      assert a == (a + x)[..|a|] && b == (b + y)[..|b|];
      assert x == (a + x)[|a|..] && y == (b + y)[|b|..];
    }
  }
}
