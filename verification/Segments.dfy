/** Splitting an argument or parameter list at its top-level commas. */
module Segments {
  import opened Wrappers

  datatype Segment = Segment(start: nat, end: nat, value: string)

  // ----- the loop's state

  datatype Nesting = Nesting(
    quoted: bool, escaped: bool, typeArguments: nat, inDefaultValue: bool, parens: int, brackets: int, braces: int)

  const START: Nesting := Nesting(false, false, 0, false, 0, 0, 0)

  predicate NoneOpen(n: Nesting) {
    n.typeArguments == 0 && n.parens == 0 && n.brackets == 0 && n.braces == 0
  }

  predicate IsCut(n: Nesting, c: char) {
    !n.escaped && !n.quoted && c == ',' && NoneOpen(n)
  }

  /** `track` is the option `trackTypeArguments`. */
  function Next(n: Nesting, c: char, track: bool): Nesting {
    if n.escaped then n.(escaped := false)
    else if n.quoted && c == '\\' then n.(escaped := true)
    else if c == '"' then n.(quoted := !n.quoted)
    else if n.quoted then n
    else if track && !n.inDefaultValue && c == '<' then n.(typeArguments := n.typeArguments + 1)
    else if track && c == '>' && n.typeArguments > 0 then n.(typeArguments := n.typeArguments - 1)
    else if c == '(' then n.(parens := n.parens + 1)
    else if c == '[' then n.(brackets := n.brackets + 1)
    else if c == '{' then n.(braces := n.braces + 1)
    else if c == ')' then n.(parens := n.parens - 1)
    else if c == ']' then n.(brackets := n.brackets - 1)
    else if c == '}' then n.(braces := n.braces - 1)
    else if track && c == '=' && NoneOpen(n) then n.(inDefaultValue := true)
    else if IsCut(n, c) then n.(inDefaultValue := false)
    else n
  }

  /** The state before position `k`. */
  function StateAt(s: string, start: nat, k: nat, track: bool): Nesting
    requires start <= k <= |s|
    decreases k - start
  {
    if k == start then START else Next(StateAt(s, start, k - 1, track), s[k - 1], track)
  }

  // ----- the segments

  /** The segments from the one that began at `from` on, when the loop is at `k`. */
  function SplitFrom(s: string, from: nat, k: nat, end: nat, n: Nesting, track: bool): (segments: seq<Segment>)
    requires from <= k <= end <= |s|
    ensures segments != [] && segments[0].start == from
    decreases end - k
  {
    if k == end then [Segment(from, end, s[from..end])]
    else if IsCut(n, s[k]) then
      [Segment(from, k, s[from..k])] + SplitFrom(s, k + 1, k + 1, end, Next(n, s[k], track), track)
    else SplitFrom(s, from, k + 1, end, Next(n, s[k], track), track)
  }

  function Split(s: string, start: nat, end: nat, track: bool): seq<Segment>
    requires start <= end <= |s|
  {
    SplitFrom(s, start, start, end, START, track)
  }

  lemma AppendFirst<T>(a: seq<T>, x: T, b: seq<T>)
    ensures a + ([x] + b) == (a + [x]) + b
  {
  }

  /** The segments still to come at position `k`. */
  function Remaining(s: string, start: nat, from: nat, k: nat, end: nat, track: bool): seq<Segment>
    requires start <= from <= k <= end <= |s|
  {
    SplitFrom(s, from, k, end, StateAt(s, start, k, track), track)
  }

  lemma SplitOn(segments: seq<Segment>, s: string, start: nat, from: nat, k: nat, end: nat, track: bool)
    requires start <= from <= k < end <= |s|
    ensures segments + Remaining(s, start, from, k, end, track)
         == if IsCut(StateAt(s, start, k, track), s[k])
            then (segments + [Segment(from, k, s[from..k])]) + Remaining(s, start, k + 1, k + 1, end, track)
            else segments + Remaining(s, start, from, k + 1, end, track)
  {
    AppendFirst(segments, Segment(from, k, s[from..k]), Remaining(s, start, k + 1, k + 1, end, track));
  }

  lemma SplitOff(s: string, start: nat, from: nat, end: nat, track: bool)
    requires start <= from <= end <= |s|
    ensures Remaining(s, start, from, end, end, track) == [Segment(from, end, s[from..end])]
  {
  }

  method SplitTopLevelSegments(source: string, start: nat, end: nat, trackTypeArguments: bool)
    returns (segments: seq<Segment>)
    requires start <= end <= |source|
    ensures segments == Split(source, start, end, trackTypeArguments)
  {
    segments := [];
    var segmentStart := start;
    var quoted, escaped, inDefaultValue := false, false, false;
    var typeArgumentDepth: nat := 0;
    var parens, brackets, braces := 0, 0, 0;
    ghost var all := Split(source, start, end, trackTypeArguments);
    for index := start to end
      invariant start <= segmentStart <= index
      invariant StateAt(source, start, index, trackTypeArguments)
             == Nesting(quoted, escaped, typeArgumentDepth, inDefaultValue, parens, brackets, braces)
      invariant all == segments + Remaining(source, start, segmentStart, index, end, trackTypeArguments)
    {
      var character := source[index];
      SplitOn(segments, source, start, segmentStart, index, end, trackTypeArguments);
      var noneOpen := parens == 0 && brackets == 0 && braces == 0;
      if escaped {
        escaped := false;
      } else if quoted && character == '\\' {
        escaped := true;
      } else if character == '"' {
        quoted := !quoted;
      } else if quoted {
      } else if trackTypeArguments && !inDefaultValue && character == '<' {
        typeArgumentDepth := typeArgumentDepth + 1;
      } else if trackTypeArguments && character == '>' && typeArgumentDepth > 0 {
        typeArgumentDepth := typeArgumentDepth - 1;
      } else if character == '(' {
        parens := parens + 1;
      } else if character == '[' {
        brackets := brackets + 1;
      } else if character == '{' {
        braces := braces + 1;
      } else if character == ')' {
        parens := parens - 1;
      } else if character == ']' {
        brackets := brackets - 1;
      } else if character == '}' {
        braces := braces - 1;
      } else if trackTypeArguments && character == '=' && typeArgumentDepth == 0 && noneOpen {
        inDefaultValue := true;
      } else if character == ',' && typeArgumentDepth == 0 && noneOpen {
        segments := segments + [Segment(segmentStart, index, source[segmentStart..index])];
        segmentStart := index + 1;
        inDefaultValue := false;
      }
    }
    segments := segments + [Segment(segmentStart, end, source[segmentStart..end])];
    SplitOff(source, start, segmentStart, end, trackTypeArguments);
  }

  // ----- where the cuts are

  /** Segments lie end to end, one comma apart, and each value is its own slice. */
  predicate Tiles(segments: seq<Segment>, s: string, from: nat, end: nat) {
    && segments != [] && segments[0].start == from && segments[|segments| - 1].end == end
    && (forall i :: 0 <= i < |segments| ==> IsSlice(segments[i], s))
    && forall i :: 0 <= i < |segments| - 1 ==> Meets(segments, i, s)
  }

  predicate IsSlice(segment: Segment, s: string) {
    segment.start <= segment.end <= |s| && segment.value == s[segment.start..segment.end]
  }

  predicate Meets(segments: seq<Segment>, i: nat, s: string)
    requires i + 1 < |segments|
  {
    segments[i].end < |s| && s[segments[i].end] == ',' && segments[i + 1].start == segments[i].end + 1
  }

  lemma {:induction false} SplitTiles(s: string, from: nat, k: nat, end: nat, n: Nesting, track: bool)
    requires from <= k <= end <= |s|
    ensures Tiles(SplitFrom(s, from, k, end, n, track), s, from, end)
    decreases end - k
  {
    if k < end {
      if IsCut(n, s[k]) {
        var rest := SplitFrom(s, k + 1, k + 1, end, Next(n, s[k], track), track);
        SplitTiles(s, k + 1, k + 1, end, Next(n, s[k], track), track);
        var all := SplitFrom(s, from, k, end, n, track);
        assert all == [Segment(from, k, s[from..k])] + rest;
        forall i | 0 <= i < |all| - 1
          ensures Meets(all, i, s)
        {
          assert i > 0 ==> Meets(rest, i - 1, s);
        }
      } else {
        SplitTiles(s, from, k + 1, end, Next(n, s[k], track), track);
      }
    }
  }

  /** Some segment other than the last ends at `c`. */
  predicate IsCutAt(segments: seq<Segment>, c: nat) {
    exists i :: 0 <= i < |segments| - 1 && segments[i].end == c
  }

  lemma CutInRest(first: Segment, rest: seq<Segment>, c: nat)
    requires rest != []
    ensures IsCutAt([first] + rest, c) <==> first.end == c || IsCutAt(rest, c)
  {
    var all := [first] + rest;
    assert all[0] == first;
    if i :| 0 <= i < |rest| - 1 && rest[i].end == c {
      assert all[i + 1].end == c;
    }
    if i :| 0 < i < |all| - 1 && all[i].end == c {
      assert rest[i - 1].end == c;
    }
  }

  /** The cuts are exactly at the commas that the scan reaches with nothing open. */
  lemma {:induction false} CutsAreTopLevelCommas(s: string, start: nat, from: nat, k: nat, end: nat, track: bool, c: nat)
    requires start <= from <= k <= end <= |s| && k <= c < end
    ensures IsCutAt(SplitFrom(s, from, k, end, StateAt(s, start, k, track), track), c)
            <==> IsCut(StateAt(s, start, c, track), s[c])
    decreases end - k
  {
    var n := StateAt(s, start, k, track);
    assert StateAt(s, start, k + 1, track) == Next(n, s[k], track);
    if IsCut(n, s[k]) {
      var rest := SplitFrom(s, k + 1, k + 1, end, Next(n, s[k], track), track);
      CutInRest(Segment(from, k, s[from..k]), rest, c);
      if c > k {
        CutsAreTopLevelCommas(s, start, k + 1, k + 1, end, track, c);
      }
    } else if c == k {
      NoCutBefore(s, from, k + 1, end, Next(n, s[k], track), track);
    } else {
      CutsAreTopLevelCommas(s, start, from, k + 1, end, track, c);
    }
  }

  lemma {:induction false} NoCutBefore(s: string, from: nat, k: nat, end: nat, n: Nesting, track: bool)
    requires from <= k <= end <= |s|
    ensures forall segment <- SplitFrom(s, from, k, end, n, track) :: segment.end >= k
    decreases end - k
  {
    if k < end {
      if IsCut(n, s[k]) {
        NoCutBefore(s, k + 1, k + 1, end, Next(n, s[k], track), track);
      } else {
        NoCutBefore(s, from, k + 1, end, Next(n, s[k], track), track);
      }
    }
  }

  // ----- what the state means

  datatype QuoteState = QuoteState(quoted: bool, escaped: bool)

  /** Whether position `k` is inside a string literal, read off the quotes and backslashes alone. */
  function QuotesAt(s: string, start: nat, k: nat): QuoteState
    requires start <= k <= |s|
    decreases k - start
  {
    if k == start then QuoteState(false, false)
    else
      var q := QuotesAt(s, start, k - 1);
      if q.escaped then QuoteState(q.quoted, false)
      else if s[k - 1] == '"' then QuoteState(!q.quoted, false)
      else QuoteState(q.quoted, q.quoted && s[k - 1] == '\\')
  }

  predicate IsCode(s: string, start: nat, k: nat)
    requires start <= k < |s|
  {
    !QuotesAt(s, start, k).quoted && !QuotesAt(s, start, k).escaped
  }

  /** How many more opening than closing brackets of one kind stand in code before `k`. */
  function Surplus(s: string, start: nat, k: nat, open: char, close: char): int
    requires start <= k <= |s|
    decreases k - start
  {
    if k == start then 0
    else
      Surplus(s, start, k - 1, open, close)
      + if !IsCode(s, start, k - 1) then 0
        else if s[k - 1] == open then 1
        else if s[k - 1] == close then -1
        else 0
  }

  lemma {:induction false} StateCountsBrackets(s: string, start: nat, k: nat, track: bool)
    requires start <= k <= |s|
    ensures
      var n := StateAt(s, start, k, track);
      && QuotesAt(s, start, k) == QuoteState(n.quoted, n.escaped)
      && n.parens == Surplus(s, start, k, '(', ')')
      && n.brackets == Surplus(s, start, k, '[', ']')
      && n.braces == Surplus(s, start, k, '{', '}')
      && (n.escaped ==> n.quoted)
      && (!track ==> n.typeArguments == 0)
    decreases k - start
  {
    if start < k {
      StateCountsBrackets(s, start, k - 1, track);
    }
  }

  /**
   The cut positions are the commas in code where every kind of bracket is balanced; when type arguments
   are tracked, their depth is zero there too.
   */
  lemma SegmentsEndAtTopLevelCommas(s: string, start: nat, end: nat, track: bool, c: nat)
    requires start <= c < end <= |s|
    ensures
      IsCutAt(Split(s, start, end, track), c)
      <==> && s[c] == ',' && IsCode(s, start, c)
           && Surplus(s, start, c, '(', ')') == Surplus(s, start, c, '[', ']') == Surplus(s, start, c, '{', '}') == 0
           && (track ==> StateAt(s, start, c, track).typeArguments == 0)
  {
    CutsAreTopLevelCommas(s, start, start, start, end, track, c);
    StateCountsBrackets(s, start, c, track);
  }

  // ----- splitting undoes joining, and joining undoes splitting

  function Join(parts: seq<string>): string {
    if parts == [] then "" else if |parts| == 1 then parts[0] else parts[0] + "," + Join(parts[1..])
  }

  function Values(segments: seq<Segment>): seq<string> {
    seq(|segments|, i requires 0 <= i < |segments| => segments[i].value)
  }

  lemma {:induction false} JoinUndoesSplit(s: string, from: nat, k: nat, end: nat, n: Nesting, track: bool)
    requires from <= k <= end <= |s|
    ensures Join(Values(SplitFrom(s, from, k, end, n, track))) == s[from..end]
    decreases end - k
  {
    if k == end {
    } else if IsCut(n, s[k]) {
      var rest := SplitFrom(s, k + 1, k + 1, end, Next(n, s[k], track), track);
      JoinUndoesSplit(s, k + 1, k + 1, end, Next(n, s[k], track), track);
      assert Values([Segment(from, k, s[from..k])] + rest)[1..] == Values(rest);
    } else {
      JoinUndoesSplit(s, from, k + 1, end, Next(n, s[k], track), track);
    }
  }

  function RunOver(n: Nesting, text: string, track: bool): Nesting
    decreases |text|
  {
    if text == "" then n else RunOver(Next(n, text[0], track), text[1..], track)
  }

  predicate HasNoCut(n: Nesting, text: string, track: bool)
    decreases |text|
  {
    text == "" || (!IsCut(n, text[0]) && HasNoCut(Next(n, text[0], track), text[1..], track))
  }

  /** A text without a top-level comma, after which nothing is open. */
  predicate IsClosed(text: string, track: bool) {
    HasNoCut(START, text, track) && IsCut(RunOver(START, text, track), ',')
  }

  lemma {:induction false} NoCutMeansNoSegment(
    s: string, from: nat, k: nat, m: nat, end: nat, n: Nesting, track: bool)
    requires from <= k <= m <= end <= |s| && HasNoCut(n, s[k..m], track)
    ensures SplitFrom(s, from, k, end, n, track) == SplitFrom(s, from, m, end, RunOver(n, s[k..m], track), track)
    decreases m - k
  {
    if k < m {
      assert s[k..m][0] == s[k] && s[k..m][1..] == s[k + 1..m];
      NoCutMeansNoSegment(s, from, k + 1, m, end, Next(n, s[k], track), track);
    }
  }

  lemma JoinHead(s: string, from: nat, end: nat, parts: seq<string>)
    requires from <= end <= |s| && |parts| > 1 && s[from..end] == Join(parts)
    ensures
      var m := from + |parts[0]|;
      m < end && s[from..m] == parts[0] && s[m] == ',' && s[m + 1..end] == Join(parts[1..])
  {
    var text, n := s[from..end], |parts[0]|;
    assert text == parts[0] + "," + Join(parts[1..]);
    assert s[from..from + n] == text[..n] && s[from + n] == text[n] && s[from + n + 1..end] == text[n + 1..];
  }

  /** Joining texts that each leave nothing open, and splitting again, gives the texts back. */
  lemma {:induction false} SplitUndoesJoin(s: string, from: nat, end: nat, parts: seq<string>, track: bool)
    requires from <= end <= |s| && parts != [] && s[from..end] == Join(parts)
    requires forall i :: 0 <= i < |parts| - 1 ==> IsClosed(parts[i], track)
    requires HasNoCut(START, parts[|parts| - 1], track)
    ensures Values(Split(s, from, end, track)) == parts
    decreases |parts|
  {
    if |parts| == 1 {
      NoCutMeansNoSegment(s, from, from, end, end, START, track);
    } else {
      var m := from + |parts[0]|;
      JoinHead(s, from, end, parts);
      NoCutMeansNoSegment(s, from, from, m, end, START, track);
      SplitUndoesJoin(s, m + 1, end, parts[1..], track);
      var rest := Split(s, m + 1, end, track);
      ValuesOfCons(Segment(from, m, s[from..m]), rest);
    }
  }

  lemma ValuesOfCons(first: Segment, rest: seq<Segment>)
    ensures Values([first] + rest) == [first.value] + Values(rest)
  {
  }
}
