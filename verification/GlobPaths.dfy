/** Matching dotted configuration paths against patterns with `*` and `**`. */
module GlobPaths {
  const ANY := "*"
  const ANY_PATH := "**"

  /** JavaScript's `split(".")`: never empty. */
  function SplitDots(s: string): (parts: seq<string>)
    ensures parts != []
  {
    if s == "" then [""]
    else if s[0] == '.' then [""] + SplitDots(s[1..])
    else
      var rest := SplitDots(s[1..]);
      [[s[0]] + rest[0]] + rest[1..]
  }

  predicate MatchesParts(pattern: seq<string>, value: seq<string>)
    decreases |pattern|
  {
    if pattern == [] then value == []
    else
      var tail := pattern[1..];
      if pattern[0] == ANY_PATH then
        tail == [] || exists index | 0 <= index <= |value| :: MatchesParts(tail, value[index..])
      else
        value != [] && (pattern[0] == ANY || pattern[0] == value[0]) && MatchesParts(tail, value[1..])
  }

  predicate PathMatchesPattern(pattern: string, value: string) {
    MatchesParts(SplitDots(pattern), SplitDots(value))
  }

  // ----- compositionality

  predicate MatchesSplit(p: seq<string>, q: seq<string>, value: seq<string>, k: nat)
    requires k <= |value|
  {
    MatchesParts(p, value[..k]) && MatchesParts(q, value[k..])
  }

  predicate MatchesInTwo(p: seq<string>, q: seq<string>, value: seq<string>) {
    exists k | 0 <= k <= |value| :: MatchesSplit(p, q, value, k)
  }

  /** A trailing `**` is no special case. */
  lemma AnyPathMatchesFrom(tail: seq<string>, value: seq<string>)
    ensures MatchesParts([ANY_PATH] + tail, value)
            <==> exists index | 0 <= index <= |value| :: MatchesParts(tail, value[index..])
  {
    assert ([ANY_PATH] + tail)[1..] == tail;
    assert value[|value|..] == [];
    if tail == [] {
      assert MatchesParts(tail, value[|value|..]);
    }
  }

  /** Two patterns one after the other match what splits into a part for each. */
  lemma {:induction false} MatchingIsCompositional(p: seq<string>, q: seq<string>, value: seq<string>)
    ensures MatchesParts(p + q, value) <==> MatchesInTwo(p, q, value)
    decreases |p|
  {
    if p == [] {
      assert p + q == q;
      assert value[..0] == [] && value[0..] == value;
      if MatchesParts(q, value) {
        assert MatchesSplit(p, q, value, 0);
      }
    } else {
      var tail := p[1..];
      assert (p + q)[1..] == tail + q;
      if p[0] == ANY_PATH {
        ComposeAnyPath(tail, q, value);
        assert p == [ANY_PATH] + tail && p + q == [ANY_PATH] + (tail + q);
      } else {
        ComposeOne(p, q, value);
      }
    }
  }

  lemma ComposeOne(p: seq<string>, q: seq<string>, value: seq<string>)
    requires p != [] && p[0] != ANY_PATH
    ensures MatchesParts(p + q, value) <==> MatchesInTwo(p, q, value)
    decreases |p|, 0
  {
    var tail := p[1..];
    assert (p + q)[1..] == tail + q;
    if value != [] {
      MatchingIsCompositional(tail, q, value[1..]);
      if MatchesParts(p + q, value) {
        var k :| 0 <= k <= |value[1..]| && MatchesSplit(tail, q, value[1..], k);
        assert value[..k + 1][1..] == value[1..][..k] && value[1..][k..] == value[k + 1..];
        assert MatchesSplit(p, q, value, k + 1);
      }
    }
    if MatchesInTwo(p, q, value) {
      var k :| 0 <= k <= |value| && MatchesSplit(p, q, value, k);
      assert value[..k][1..] == value[1..][..k - 1] && value[1..][k - 1..] == value[k..];
      assert MatchesSplit(tail, q, value[1..], k - 1);
    }
  }

  lemma ComposeAnyPath(tail: seq<string>, q: seq<string>, value: seq<string>)
    ensures MatchesParts([ANY_PATH] + (tail + q), value) <==> MatchesInTwo([ANY_PATH] + tail, q, value)
    decreases |tail| + 1, 0
  {
    AnyPathMatchesFrom(tail + q, value);
    if MatchesParts([ANY_PATH] + (tail + q), value) {
      var i :| 0 <= i <= |value| && MatchesParts(tail + q, value[i..]);
      MatchingIsCompositional(tail, q, value[i..]);
      var k :| 0 <= k <= |value[i..]| && MatchesSplit(tail, q, value[i..], k);
      assert value[..i + k][i..] == value[i..][..k] && value[i..][k..] == value[i + k..];
      AnyPathMatchesFrom(tail, value[..i + k]);
      assert MatchesSplit([ANY_PATH] + tail, q, value, i + k);
    }
    if MatchesInTwo([ANY_PATH] + tail, q, value) {
      var k :| 0 <= k <= |value| && MatchesSplit([ANY_PATH] + tail, q, value, k);
      AnyPathMatchesFrom(tail, value[..k]);
      var i :| 0 <= i <= k && MatchesParts(tail, value[..k][i..]);
      assert value[..k][i..] == value[i..][..k - i] && value[i..][k - i..] == value[k..];
      assert MatchesSplit(tail, q, value[i..], k - i);
      MatchingIsCompositional(tail, q, value[i..]);
    }
  }

  // ----- an automaton that reads the value once

  /** Positions in the pattern that are reachable without reading: past any number of `**`. */
  function Skip(pattern: seq<string>, positions: set<nat>): set<nat> {
    set i: nat, j: nat | i in positions && i <= j <= |pattern| && AllAnyPath(pattern, i, j) :: j
  }

  predicate AllAnyPath(pattern: seq<string>, i: nat, j: nat)
    requires i <= j <= |pattern|
  {
    forall k :: i <= k < j ==> pattern[k] == ANY_PATH
  }

  /** Positions after reading one part of the value. */
  function Read(pattern: seq<string>, positions: set<nat>, part: string): set<nat> {
    (set i | i in positions && i < |pattern| && pattern[i] == ANY_PATH)
    + (set i | i in positions && i < |pattern| && pattern[i] != ANY_PATH && (pattern[i] == ANY || pattern[i] == part) :: i + 1)
  }

  function Run(pattern: seq<string>, positions: set<nat>, value: seq<string>): set<nat>
    decreases |value|
  {
    if value == [] then Skip(pattern, positions)
    else Run(pattern, Read(pattern, Skip(pattern, positions), value[0]), value[1..])
  }

  /** From some position, the rest of the pattern matches the rest of the value. */
  predicate SomeRestMatches(pattern: seq<string>, positions: set<nat>, value: seq<string>) {
    exists i <- positions :: i <= |pattern| && MatchesParts(pattern[i..], value)
  }

  /** Leading `**` segments may match nothing. */
  lemma {:induction false} SkippedSegmentsMatchNothing(pattern: seq<string>, i: nat, j: nat, value: seq<string>)
    requires i <= j <= |pattern| && AllAnyPath(pattern, i, j)
    requires MatchesParts(pattern[j..], value)
    ensures MatchesParts(pattern[i..], value)
    decreases j - i
  {
    if i < j {
      SkippedSegmentsMatchNothing(pattern, i + 1, j, value);
      assert pattern[i..] == [ANY_PATH] + pattern[i + 1..];
      assert value[0..] == value;
      AnyPathMatchesFrom(pattern[i + 1..], value);
    }
  }

  lemma SkippingKeepsMatches(pattern: seq<string>, positions: set<nat>, value: seq<string>)
    ensures SomeRestMatches(pattern, Skip(pattern, positions), value) <==> SomeRestMatches(pattern, positions, value)
  {
    if SomeRestMatches(pattern, positions, value) {
      var i :| i in positions && i <= |pattern| && MatchesParts(pattern[i..], value);
      assert AllAnyPath(pattern, i, i) && i in Skip(pattern, positions);
    }
    if SomeRestMatches(pattern, Skip(pattern, positions), value) {
      var j :| j in Skip(pattern, positions) && j <= |pattern| && MatchesParts(pattern[j..], value);
      var i :| i in positions && i <= j && AllAnyPath(pattern, i, j);
      SkippedSegmentsMatchNothing(pattern, i, j, value);
    }
  }

  lemma SkipIsClosed(pattern: seq<string>, positions: set<nat>, j: nat)
    requires j in Skip(pattern, positions) && j < |pattern| && pattern[j] == ANY_PATH
    ensures j + 1 in Skip(pattern, positions)
  {
    var i :| i in positions && i <= j && AllAnyPath(pattern, i, j);
    assert AllAnyPath(pattern, i, j + 1);
  }

  /** A rest of the pattern that matches goes on matching after one part is read. */
  lemma {:induction false} ReadingFollows(pattern: seq<string>, positions: set<nat>, i: nat, value: seq<string>)
    requires i in Skip(pattern, positions) && i <= |pattern| && value != []
    requires MatchesParts(pattern[i..], value)
    ensures SomeRestMatches(pattern, Read(pattern, Skip(pattern, positions), value[0]), value[1..])
    decreases |pattern| - i
  {
    var tail := pattern[i + 1..];
    assert pattern[i..] == [pattern[i]] + tail;
    if pattern[i] == ANY_PATH {
      AnyPathMatchesFrom(tail, value);
      var index :| 0 <= index <= |value| && MatchesParts(tail, value[index..]);
      if index == 0 {
        assert value[0..] == value;
        SkipIsClosed(pattern, positions, i);
        ReadingFollows(pattern, positions, i + 1, value);
      } else {
        assert value[index..] == value[1..][index - 1..];
        AnyPathMatchesFrom(tail, value[1..]);
        assert i in Read(pattern, Skip(pattern, positions), value[0]);
      }
    } else {
      assert pattern[i..][1..] == tail;
      assert i + 1 in Read(pattern, Skip(pattern, positions), value[0]);
    }
  }

  /** A position reached by reading a part stems from one that matches with that part in front. */
  lemma ReadingStems(pattern: seq<string>, positions: set<nat>, j: nat, value: seq<string>)
    requires value != [] && j in Read(pattern, positions, value[0]) && j <= |pattern|
    requires MatchesParts(pattern[j..], value[1..])
    ensures SomeRestMatches(pattern, positions, value)
  {
    if j in positions && j < |pattern| && pattern[j] == ANY_PATH {
      var tail := pattern[j + 1..];
      assert pattern[j..] == [ANY_PATH] + tail;
      AnyPathMatchesFrom(tail, value[1..]);
      var index :| 0 <= index <= |value[1..]| && MatchesParts(tail, value[1..][index..]);
      assert value[1..][index..] == value[index + 1..];
      AnyPathMatchesFrom(tail, value);
    } else {
      var i :| i in positions && i < |pattern| && i + 1 == j
        && pattern[i] != ANY_PATH && (pattern[i] == ANY || pattern[i] == value[0]);
      assert pattern[i..][1..] == pattern[j..];
      assert MatchesParts(pattern[i..], value);
    }
  }

  /** A pattern matches the empty value when it is nothing but `**`. */
  lemma {:induction false} MatchesNothing(pattern: seq<string>, i: nat)
    requires i <= |pattern|
    ensures MatchesParts(pattern[i..], []) <==> AllAnyPath(pattern, i, |pattern|)
    decreases |pattern| - i
  {
    if i < |pattern| {
      var none: seq<string> := [];
      assert pattern[i..] == [pattern[i]] + pattern[i + 1..];
      MatchesNothing(pattern, i + 1);
      if pattern[i] == ANY_PATH {
        AnyPathMatchesFrom(pattern[i + 1..], none);
        assert none[0..] == none;
      }
    }
  }

  lemma {:induction false} RunFollowsMatches(pattern: seq<string>, positions: set<nat>, value: seq<string>)
    ensures |pattern| in Run(pattern, positions, value) <==> SomeRestMatches(pattern, positions, value)
    decreases |value|
  {
    var closed := Skip(pattern, positions);
    if value == [] {
      forall i: nat | i in positions && i <= |pattern|
        ensures MatchesParts(pattern[i..], value) <==> AllAnyPath(pattern, i, |pattern|)
      {
        MatchesNothing(pattern, i);
      }
    } else {
      var next := Read(pattern, closed, value[0]);
      RunFollowsMatches(pattern, next, value[1..]);
      SkippingKeepsMatches(pattern, positions, value);
      if SomeRestMatches(pattern, closed, value) {
        var i :| i in closed && i <= |pattern| && MatchesParts(pattern[i..], value);
        ReadingFollows(pattern, positions, i, value);
      }
      if SomeRestMatches(pattern, next, value[1..]) {
        var j :| j in next && j <= |pattern| && MatchesParts(pattern[j..], value[1..]);
        ReadingStems(pattern, closed, j, value);
      }
    }
  }

  /** The backtracking matcher accepts what the automaton accepts in one reading. */
  lemma MatcherIsAutomaton(pattern: seq<string>, value: seq<string>)
    ensures MatchesParts(pattern, value) <==> |pattern| in Run(pattern, {0}, value)
  {
    RunFollowsMatches(pattern, {0}, value);
    assert pattern[0..] == pattern;
    if MatchesParts(pattern, value) {
      var zero: nat := 0;
      assert zero in {0} && MatchesParts(pattern[zero..], value);
    }
  }

  // ----- laws of patterns

  lemma TwiceAnyPathIsOnce(q: seq<string>, value: seq<string>)
    ensures MatchesParts([ANY_PATH] + ([ANY_PATH] + q), value) <==> MatchesParts([ANY_PATH] + q, value)
  {
    AnyPathMatchesFrom([ANY_PATH] + q, value);
    AnyPathMatchesFrom(q, value);
    assert value[0..] == value;
    if MatchesParts([ANY_PATH] + ([ANY_PATH] + q), value) {
      var i :| 0 <= i <= |value| && MatchesParts([ANY_PATH] + q, value[i..]);
      AnyPathMatchesFrom(q, value[i..]);
      var k :| 0 <= k <= |value[i..]| && MatchesParts(q, value[i..][k..]);
      assert value[i..][k..] == value[i + k..];
    }
  }

  /** Repeated `**` segments collapse to one, wherever they stand. */
  lemma RepeatedAnyPathCollapses(p: seq<string>, q: seq<string>, value: seq<string>)
    ensures MatchesParts(p + [ANY_PATH, ANY_PATH] + q, value) <==> MatchesParts(p + [ANY_PATH] + q, value)
  {
    var twice, once := [ANY_PATH] + ([ANY_PATH] + q), [ANY_PATH] + q;
    assert p + [ANY_PATH, ANY_PATH] + q == p + twice && p + [ANY_PATH] + q == p + once;
    MatchingIsCompositional(p, twice, value);
    MatchingIsCompositional(p, once, value);
    forall k: nat | k <= |value|
      ensures MatchesSplit(p, twice, value, k) <==> MatchesSplit(p, once, value, k)
    {
      TwiceAnyPathIsOnce(q, value[k..]);
    }
  }

  function JoinDots(parts: seq<string>): string
    requires parts != []
  {
    if |parts| == 1 then parts[0] else parts[0] + "." + JoinDots(parts[1..])
  }

  lemma {:induction false} JoinUndoesSplit(s: string)
    ensures JoinDots(SplitDots(s)) == s
  {
    if s != "" {
      JoinUndoesSplit(s[1..]);
      var rest := SplitDots(s[1..]);
      if s[0] == '.' {
        assert ([""] + rest)[1..] == rest;
        assert s == "" + "." + s[1..];
      } else {
        assert ([[s[0]] + rest[0]] + rest[1..])[1..] == rest[1..];
        assert s == [s[0]] + s[1..];
      }
    }
  }

  /** Splitting reads one character at a time. */
  lemma SplitOfFirst(c: char, rest: string)
    ensures c == '.' ==> SplitDots([c] + rest) == [""] + SplitDots(rest)
    ensures c != '.' ==> SplitDots([c] + rest) == [[c] + SplitDots(rest)[0]] + SplitDots(rest)[1..]
  {
    assert ([c] + rest)[1..] == rest;
  }

  /** Writing a character in front of the first part does not reach the parts behind it. */
  lemma OnFirstPart(c: char, a: seq<string>, b: seq<string>)
    requires a != []
    ensures [[c] + (a + b)[0]] + (a + b)[1..] == ([[c] + a[0]] + a[1..]) + b
  {
    assert (a + b)[1..] == a[1..] + b;
  }

  lemma SplitOneEarlier(c: char, dotted: string, rest: string, after: seq<string>)
    requires SplitDots(dotted) == SplitDots(rest) + after
    ensures SplitDots([c] + dotted) == SplitDots([c] + rest) + after
  {
    SplitOfFirst(c, rest);
    SplitOfFirst(c, dotted);
    OnFirstPart(c, SplitDots(rest), after);
  }

  lemma {:induction false} SplitOfDotted(s: string, t: string)
    ensures SplitDots(s + (['.'] + t)) == SplitDots(s) + SplitDots(t)
  {
    if s == "" {
      SplitOfFirst('.', t);
      assert s + (['.'] + t) == ['.'] + t;
    } else {
      var rest := s[1..];
      SplitOfDotted(rest, t);
      SplitOneEarlier(s[0], rest + (['.'] + t), rest, SplitDots(t));
      assert s == [s[0]] + rest && s + (['.'] + t) == [s[0]] + (rest + (['.'] + t));
    }
  }

  /** Two dotted patterns joined by a dot match the paths whose parts split in two, one part for each pattern. */
  lemma DottedPatternsCompose(first: string, second: string, value: string)
    ensures PathMatchesPattern(first + "." + second, value)
            <==> MatchesInTwo(SplitDots(first), SplitDots(second), SplitDots(value))
  {
    SplitOfDotted(first, second);
    assert first + "." + second == first + (['.'] + second);
    MatchingIsCompositional(SplitDots(first), SplitDots(second), SplitDots(value));
  }

  predicate IsLiteral(pattern: seq<string>) {
    ANY !in pattern && ANY_PATH !in pattern
  }

  lemma {:induction false} LiteralPartsMatchThemselves(pattern: seq<string>, value: seq<string>)
    requires IsLiteral(pattern)
    ensures MatchesParts(pattern, value) <==> pattern == value
    decreases |pattern|
  {
    if pattern != [] && value != [] {
      LiteralPartsMatchThemselves(pattern[1..], value[1..]);
      assert pattern == [pattern[0]] + pattern[1..] && value == [value[0]] + value[1..];
    }
  }

  /** A pattern without wildcard segments matches its own path and no other. */
  lemma LiteralPatternMatchesItself(pattern: string, value: string)
    requires IsLiteral(SplitDots(pattern))
    ensures PathMatchesPattern(pattern, value) <==> pattern == value
  {
    LiteralPartsMatchThemselves(SplitDots(pattern), SplitDots(value));
    JoinUndoesSplit(pattern);
    JoinUndoesSplit(value);
  }

  // ----- patterns with wildcards

  lemma {:induction false} PartsHaveNoDot(s: string)
    ensures |SplitDots(s)| == 1 <==> '.' !in s
    ensures '.' !in s ==> SplitDots(s) == [s]
  {
    if s != "" {
      PartsHaveNoDot(s[1..]);
      assert s == [s[0]] + s[1..];
    }
  }

  /** `*` matches one part, whatever it is. */
  lemma StarMatchesOnePart(value: string)
    ensures PathMatchesPattern("*", value) <==> '.' !in value
  {
    var parts := SplitDots(value);
    PartsHaveNoDot("*");
    PartsHaveNoDot(value);
    assert ["*"][1..] == [];
    assert MatchesParts(["*"], parts) <==> parts != [] && MatchesParts([], parts[1..]);
    assert |parts| == 1 <==> parts[1..] == [];
  }

  /** `**` matches every path. */
  lemma DoubleStarMatchesAnyPath(value: string)
    ensures PathMatchesPattern("**", value)
  {
    PartsHaveNoDot("**");
    assert ["**"][1..] == [];
  }

  /** A path and `.*` matches that path with one more part. */
  lemma LiteralAndStar(pattern: string, value: string)
    requires IsLiteral(SplitDots(pattern))
    ensures PathMatchesPattern(pattern + ".*", value)
            <==> exists part :: '.' !in part && value == pattern + (['.'] + part)
  {
    var p, v := SplitDots(pattern), SplitDots(value);
    assert pattern + ".*" == pattern + "." + "*";
    DottedPatternsCompose(pattern, "*", value);
    PartsHaveNoDot("*");
    assert ["*"][1..] == [];
    if PathMatchesPattern(pattern + ".*", value) {
      var k :| 0 <= k <= |v| && MatchesSplit(p, ["*"], v, k);
      LiteralPartsMatchThemselves(p, v[..k]);
      assert v[k..][1..] == [] && |v[k..]| == 1;
      var part := v[k];
      assert v == p + [part];
      SplitHasNoDots(value, k);
      PartsHaveNoDot(part);
      SplitOfDotted(pattern, part);
      JoinUndoesSplit(value);
      JoinUndoesSplit(pattern + (['.'] + part));
    }
    if part :| '.' !in part && value == pattern + (['.'] + part) {
      PartsHaveNoDot(part);
      SplitOfDotted(pattern, part);
      assert v[..|p|] == p && v[|p|..] == [part];
      LiteralPartsMatchThemselves(p, p);
      assert [part][1..] == [] && MatchesParts(["*"], [part]);
      assert MatchesSplit(p, ["*"], v, |p|);
    }
  }

  lemma {:induction false} SplitHasNoDots(s: string, k: nat)
    requires k < |SplitDots(s)|
    ensures '.' !in SplitDots(s)[k]
  {
    if s != "" {
      if s[0] == '.' {
        if k > 0 {
          SplitHasNoDots(s[1..], k - 1);
        }
      } else {
        SplitHasNoDots(s[1..], k);
      }
    }
  }

  lemma BelowLiteral(p: seq<string>, v: seq<string>)
    requires IsLiteral(p)
    ensures MatchesInTwo(p, ["**"], v) <==> p <= v
  {
    assert ["**"][1..] == [];
    LiteralPartsMatchThemselves(p, p);
    if k :| 0 <= k <= |v| && MatchesSplit(p, ["**"], v, k) {
      LiteralPartsMatchThemselves(p, v[..k]);
    }
    if p <= v {
      assert v[..|p|] == p && MatchesSplit(p, ["**"], v, |p|);
    }
  }

  lemma PartsBelow(pattern: string, value: string)
    ensures SplitDots(pattern) <= SplitDots(value) <==> value == pattern || exists below :: value == pattern + (['.'] + below)
  {
    var p, v := SplitDots(pattern), SplitDots(value);
    JoinUndoesSplit(value);
    JoinUndoesSplit(pattern);
    if p <= v && p != v {
      var rest := v[|p|..];
      assert v == p + rest;
      JoinOfTwo(p, rest);
      assert value == pattern + (['.'] + JoinDots(rest));
    }
    if below :| value == pattern + (['.'] + below) {
      SplitOfDotted(pattern, below);
    }
  }

  /** A path and `.**` matches that path, and every path below it. */
  lemma LiteralAndDoubleStar(pattern: string, value: string)
    requires IsLiteral(SplitDots(pattern))
    ensures PathMatchesPattern(pattern + ".**", value)
            <==> value == pattern || exists below :: value == pattern + (['.'] + below)
  {
    assert pattern + ".**" == pattern + "." + "**";
    DottedPatternsCompose(pattern, "**", value);
    PartsHaveNoDot("**");
    BelowLiteral(SplitDots(pattern), SplitDots(value));
    PartsBelow(pattern, value);
  }

  lemma {:induction false} JoinOfTwo(a: seq<string>, b: seq<string>)
    requires a != [] && b != []
    ensures JoinDots(a + b) == JoinDots(a) + (['.'] + JoinDots(b))
  {
    if |a| == 1 {
      assert (a + b)[1..] == b;
    } else {
      JoinOfTwo(a[1..], b);
      assert (a + b)[1..] == a[1..] + b;
    }
  }
}
