/** The placeholders `$name` and `${...}` of a Kotlin string. */
module Interpolations {
  import opened Wrappers
  import opened BraceBlocks

  const KOTLIN_QUOTES: set<char> := {'"', '\''}

  predicate IsNameStart(c: char) {
    'A' <= c <= 'Z' || 'a' <= c <= 'z' || c == '_'
  }

  predicate IsNameChar(c: char) {
    IsNameStart(c) || '0' <= c <= '9'
  }

  datatype Interpolation = Interpolation(start: nat, end: nat, value: string)

  // ----- what a placeholder is

  predicate StartsAt(s: string, i: nat) {
    i + 1 < |s| && s[i] == '$' && (s[i + 1] == '{' || IsNameStart(s[i + 1]))
  }

  /** `$` and a name that goes as far as it can, or `${`, pieces of Kotlin text, and the closing brace. */
  ghost predicate IsPlaceholder(s: string, start: nat, end: nat) {
    && StartsAt(s, start) && start + 2 <= end <= |s|
    && if s[start + 1] == '{' then IsBlockRest(s[start + 2..end], {'"', '\''})
       else
         && (forall k :: start + 2 <= k < end ==> IsNameChar(s[k]))
         && (end < |s| ==> !IsNameChar(s[end]))
  }

  /** The spans are placeholders, in order and apart, and no placeholder starts before `upTo` outside them. */
  ghost predicate IsScanOf(spans: seq<Interpolation>, s: string, upTo: nat) {
    && upTo <= |s|
    && (forall i :: 0 <= i < |spans| ==>
          IsPlaceholder(s, spans[i].start, spans[i].end) && spans[i].end <= upTo
          && spans[i].value == s[spans[i].start..spans[i].end])
    && (forall i, j :: 0 <= i < j < |spans| ==> spans[i].end <= spans[j].start)
    && (forall k :: 0 <= k < upTo && StartsAt(s, k) ==> IsCovered(spans, k))
  }

  predicate IsCovered(spans: seq<Interpolation>, k: nat) {
    exists i :: 0 <= i < |spans| && spans[i].start <= k < spans[i].end
  }

  // ----- the scan, as a recursive reference

  function NameEnd(s: string, i: nat): (end: nat)
    requires i <= |s|
    ensures i <= end <= |s|
    ensures forall k :: i <= k < end ==> IsNameChar(s[k])
    ensures end < |s| ==> !IsNameChar(s[end])
    decreases |s| - i
  {
    if i < |s| && IsNameChar(s[i]) then NameEnd(s, i + 1) else i
  }

  function PlaceholderEnd(s: string, start: nat): (end: Option<nat>)
    requires StartsAt(s, start)
    ensures end.Some? ==> start + 2 <= end.value <= |s|
  {
    if s[start + 1] == '{' then Advance(start + 2, Closing(s[start + 2..], Outside(1), KOTLIN_QUOTES))
    else Some(NameEnd(s, start + 2))
  }

  function ScanFrom(s: string, i: nat): Option<seq<Interpolation>>
    requires i <= |s|
    decreases |s| - i
  {
    if i == |s| then Some([])
    else if !StartsAt(s, i) then ScanFrom(s, i + 1)
    else
      match PlaceholderEnd(s, i)
      case None => None
      case Some(end) =>
        Prepend([Interpolation(i, end, s[i..end])], ScanFrom(s, end))
  }

  function Prepend<T>(first: seq<T>, rest: Option<seq<T>>): Option<seq<T>> {
    if rest.Some? then Some(first + rest.value) else None
  }

  lemma PrependTwice<T>(a: seq<T>, b: seq<T>, rest: Option<seq<T>>)
    ensures Prepend(a, Prepend(b, rest)) == Prepend(a + b, rest)
    ensures Prepend([], rest) == rest
  {
    if rest.Some? {
      assert a + (b + rest.value) == (a + b) + rest.value;
      assert [] + rest.value == rest.value;
    }
  }

  function Scan(s: string): Option<seq<Interpolation>> {
    ScanFrom(s, 0)
  }

  /** The brace loop: positions are characters already read. */
  method ReadBraces(source: string, from: nat) returns (end: Option<nat>)
    requires from <= |source|
    ensures end == Advance(from, Closing(source[from..], Outside(1), KOTLIN_QUOTES))
  {
    var depth: int, quote: Option<char>, escaped := 1, None, false;
    var index := from;
    while index < |source|
      invariant from <= index <= |source| && depth >= 1 && (escaped ==> quote.Some?)
      invariant Closing(source[from..], Outside(1), KOTLIN_QUOTES)
             == Advance(index - from, Closing(source[index..], Lexer(depth, quote, escaped), KOTLIN_QUOTES))
    {
      var character := source[index];
      assert source[index..][1..] == source[index + 1..];
      if escaped {
        escaped := false;
      } else if quote.Some? && character == '\\' {
        escaped := true;
      } else if quote == Some(character) {
        quote := None;
      } else if quote.None? && (character == '"' || character == '\'') {
        quote := Some(character);
      } else if quote.None? && character == '{' {
        depth := depth + 1;
      } else if quote.None? && character == '}' {
        depth := depth - 1;
        if depth == 0 {
          return Some(index + 1);
        }
      }
      index := index + 1;
    }
    return None;
  }

  method ReadKotlinInterpolations(source: string) returns (r: Option<seq<Interpolation>>)
    ensures r == Scan(source)
  {
    var interpolations: seq<Interpolation> := [];
    var index := 0;
    PrependTwice([], [], Scan(source));
    while index < |source|
      invariant index <= |source|
      invariant Scan(source) == Prepend(interpolations, ScanFrom(source, index))
    {
      if source[index] != '$' || index + 1 >= |source|
         || (source[index + 1] != '{' && !IsNameStart(source[index + 1])) {
        index := index + 1;
        continue;
      }
      var start := index;
      if source[start + 1] != '{' {
        index := index + 2;
        while index < |source| && IsNameChar(source[index])
          invariant start + 2 <= index <= |source| && NameEnd(source, start + 2) == NameEnd(source, index)
        {
          index := index + 1;
        }
      } else {
        var end := ReadBraces(source, index + 2);
        if end.None? {
          return None;
        }
        index := end.value;
      }
      var interpolation := Interpolation(start, index, source[start..index]);
      PrependTwice(interpolations, [interpolation], ScanFrom(source, index));
      interpolations := interpolations + [interpolation];
    }
    assert interpolations + [] == interpolations;
    return Some(interpolations);
  }

  // ----- the reference meets the grammar

  lemma PlaceholderEndIsPlaceholder(s: string, start: nat, end: nat)
    requires StartsAt(s, start)
    ensures IsPlaceholder(s, start, end) <==> PlaceholderEnd(s, start) == Some(end)
  {
    if s[start + 1] == '{' {
      if start + 2 <= end <= |s| {
        var rest := s[start + 2..];
        ClosingIsBlockRest(rest, end - (start + 2), KOTLIN_QUOTES);
        assert rest[..end - (start + 2)] == s[start + 2..end];
      }
    } else {
      var stop := NameEnd(s, start + 2);
      assert start + 2 <= end < stop ==> IsNameChar(s[end]);
      assert stop < |s| ==> !IsNameChar(s[stop]);
    }
  }

  /** A position where `${` stands outside all spans before it, and never closes. */
  ghost predicate IsStuckAt(s: string, spans: seq<Interpolation>, k: nat) {
    IsScanOf(spans, s, k) && StartsAt(s, k) && s[k + 1] == '{'
    && forall end: nat :: !IsPlaceholder(s, k, end)
  }

  lemma {:induction false} ScanFromMeetsGrammar(s: string, i: nat, before: seq<Interpolation>)
    requires IsScanOf(before, s, i)
    ensures ScanFrom(s, i).Some? ==> IsScanOf(Prepend(before, ScanFrom(s, i)).value, s, |s|)
    ensures ScanFrom(s, i).None? ==> exists spans, k :: IsStuckAt(s, spans, k)
    decreases |s| - i
  {
    if i == |s| {
      assert before + [] == before;
    } else if !StartsAt(s, i) {
      ScanFromMeetsGrammar(s, i + 1, before);
    } else {
      forall end: nat
        ensures IsPlaceholder(s, i, end) <==> PlaceholderEnd(s, i) == Some(end)
      {
        PlaceholderEndIsPlaceholder(s, i, end);
      }
      match PlaceholderEnd(s, i)
      case None =>
        assert IsStuckAt(s, before, i);
      case Some(end) =>
        var span := Interpolation(i, end, s[i..end]);
        OneMoreSpan(s, i, before, span);
        ScanFromMeetsGrammar(s, end, before + [span]);
        PrependTwice(before, [span], ScanFrom(s, end));
    }
  }

  lemma OneMoreSpan(s: string, i: nat, before: seq<Interpolation>, span: Interpolation)
    requires IsScanOf(before, s, i) && IsPlaceholder(s, i, span.end)
    requires span.start == i && span.value == s[i..span.end]
    ensures IsScanOf(before + [span], s, span.end)
  {
    var spans := before + [span];
    forall k | 0 <= k < span.end && StartsAt(s, k)
      ensures IsCovered(spans, k)
    {
      if k < i {
        assert IsCovered(before, k);
        var j :| 0 <= j < |before| && before[j].start <= k < before[j].end;
        assert spans[j] == before[j];
      } else {
        assert spans[|before|] == span;
      }
    }
  }

  /** Position `i` of a scan lies between span `m - 1` and span `m`. */
  ghost predicate IsBetween(s: string, spans: seq<Interpolation>, upTo: nat, m: nat, i: nat) {
    && IsScanOf(spans, s, upTo) && m <= |spans| && i <= upTo
    && (m > 0 ==> spans[m - 1].end <= i)
    && (m < |spans| ==> i <= spans[m].start)
  }

  lemma SpanAt(s: string, spans: seq<Interpolation>, upTo: nat, m: nat, i: nat)
    requires IsBetween(s, spans, upTo, m, i) && i < upTo && StartsAt(s, i)
    ensures m < |spans| && spans[m].start == i && IsPlaceholder(s, i, spans[m].end)
  {
    assert IsCovered(spans, i);
    assert m < |spans| ==> IsPlaceholder(s, spans[m].start, spans[m].end);
    assert m > 0 ==> IsPlaceholder(s, spans[m - 1].start, spans[m - 1].end);
    var j :| 0 <= j < |spans| && spans[j].start <= i < spans[j].end;
  }

  lemma StepOver(s: string, spans: seq<Interpolation>, upTo: nat, m: nat, i: nat)
    requires IsBetween(s, spans, upTo, m, i) && i < upTo && StartsAt(s, i)
    ensures m < |spans| && i < spans[m].end && IsBetween(s, spans, upTo, m + 1, spans[m].end)
    ensures ScanFrom(s, i) == Prepend([spans[m]], ScanFrom(s, spans[m].end))
  {
    SpanAt(s, spans, upTo, m, i);
    PlaceholderEndIsPlaceholder(s, i, spans[m].end);
  }

  lemma StepOn(s: string, spans: seq<Interpolation>, upTo: nat, m: nat, i: nat)
    requires IsBetween(s, spans, upTo, m, i)
    ensures i == upTo ==> m == |spans|
    ensures i < upTo && !StartsAt(s, i) ==> IsBetween(s, spans, upTo, m, i + 1) && ScanFrom(s, i) == ScanFrom(s, i + 1)
  {
    assert m < |spans| ==> IsPlaceholder(s, spans[m].start, spans[m].end);
  }

  lemma PrependNext(spans: seq<Interpolation>, m: nat, rest: Option<seq<Interpolation>>)
    requires m <= |spans|
    ensures m == |spans| ==> Prepend(spans[m..], rest) == rest
    ensures m < |spans| ==> Prepend(spans[m..], rest) == Prepend([spans[m]], Prepend(spans[m + 1..], rest))
  {
    if m == |spans| {
      PrependTwice([], [], rest);
      assert spans[m..] == [];
    } else {
      PrependTwice([spans[m]], spans[m + 1..], rest);
      assert spans[m..] == [spans[m]] + spans[m + 1..];
    }
  }

  /** The reference goes along with every scan. */
  lemma {:induction false} ScanFollows(s: string, spans: seq<Interpolation>, upTo: nat, m: nat, i: nat)
    requires IsBetween(s, spans, upTo, m, i)
    ensures ScanFrom(s, i) == Prepend(spans[m..], ScanFrom(s, upTo))
    decreases upTo - i
  {
    StepOn(s, spans, upTo, m, i);
    PrependNext(spans, m, ScanFrom(s, upTo));
    if i < upTo {
      if StartsAt(s, i) {
        StepOver(s, spans, upTo, m, i);
        ScanFollows(s, spans, upTo, m + 1, spans[m].end);
      } else {
        ScanFollows(s, spans, upTo, m, i + 1);
      }
    }
  }

  /** The scanner answers the complete scan when there is one: it is the only one. */
  lemma ScanMeetsGrammar(s: string, spans: seq<Interpolation>)
    ensures Scan(s) == Some(spans) <==> IsScanOf(spans, s, |s|)
  {
    assert IsScanOf([], s, 0);
    ScanFromMeetsGrammar(s, 0, []);
    PrependTwice([], [], Scan(s));
    assert ScanFrom(s, |s|) == Some([]);
    if IsScanOf(spans, s, |s|) {
      ScanFollows(s, spans, |s|, 0, 0);
      assert spans[0..] == spans && spans + [] == spans;
    }
  }

  /** It answers null exactly when some `${` outside all placeholders before it never closes. */
  lemma NullMeansUnbalanced(s: string)
    ensures Scan(s).None? <==> exists before, k :: IsStuckAt(s, before, k)
  {
    assert IsScanOf([], s, 0);
    ScanFromMeetsGrammar(s, 0, []);
    if before, k :| IsStuckAt(s, before, k) {
      ScanFollows(s, before, k, 0, 0);
      if PlaceholderEnd(s, k).Some? {
        PlaceholderEndIsPlaceholder(s, k, PlaceholderEnd(s, k).value);
      }
    }
  }
}
