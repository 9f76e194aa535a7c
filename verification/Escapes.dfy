/** The escape and decode pairs for Android resources and Kotlin literals, and what they lose. */
module Escapes {
  import opened Text

  /** JavaScript's `replaceAll` with string arguments: leftmost matches, which do not overlap. */
  function ReplaceAll(s: string, pattern: string, replacement: string): string
    requires pattern != ""
  {
    if s == "" then ""
    else if pattern <= s then replacement + ReplaceAll(s[|pattern|..], pattern, replacement)
    else [s[0]] + ReplaceAll(s[1..], pattern, replacement)
  }

  function EscapeAndroidResourceValue(value: string): string {
    var s := ReplaceAll(value, "\\", "\\\\");
    var s := ReplaceAll(s, "\n", "\\n");
    var s := ReplaceAll(s, "'", "\\'");
    var s := ReplaceAll(s, "\"", "\\\"");
    var s := ReplaceAll(s, "&", "&amp;");
    var s := ReplaceAll(s, "<", "&lt;");
    ReplaceAll(s, ">", "&gt;")
  }

  function DecodeXml(value: string): string {
    var s := ReplaceAll(value, "&lt;", "<");
    var s := ReplaceAll(s, "&gt;", ">");
    var s := ReplaceAll(s, "&quot;", "\"");
    var s := ReplaceAll(s, "&amp;", "&");
    var s := ReplaceAll(s, "\\n", "\n");
    var s := ReplaceAll(s, "\\'", "'");
    var s := ReplaceAll(s, "\\\"", "\"");
    ReplaceAll(s, "\\\\", "\\")
  }

  function DecodeAndroidResourceValue(rawValue: string): string {
    var trimmed := Trim(rawValue);
    var quoted := trimmed != "" && trimmed[0] == '"' && trimmed[|trimmed| - 1] == '"';
    var unquoted := if !quoted then trimmed else if |trimmed| < 2 then "" else trimmed[1..|trimmed| - 1];
    DecodeXml(unquoted)
  }

  function EscapeKotlin(value: string): string {
    var s := ReplaceAll(value, "\\", "\\\\");
    var s := ReplaceAll(s, "\"", "\\\"");
    var s := ReplaceAll(s, "$", "\\$");
    ReplaceAll(s, "\n", "\\n")
  }

  function DecodeKotlinLiteral(value: string): string {
    var s := ReplaceAll(value, "\\n", "\n");
    var s := ReplaceAll(s, "\\\"", "\"");
    var s := ReplaceAll(s, "\\$", "$");
    ReplaceAll(s, "\\\\", "\\")
  }

  // ----- character by character

  /** The code of an escaped character. */
  function Code(c: char): string {
    match c
    case '\\' => "\\\\"
    case '\n' => "\\n"
    case '\'' => "\\'"
    case '"' => "\\\""
    case '$' => "\\$"
    case '&' => "&amp;"
    case '<' => "&lt;"
    case '>' => "&gt;"
    case _ => [c]
  }

  const CODED: set<char> := {'\\', '\n', '\'', '"', '$', '&', '<', '>'}

  function Token(c: char, live: set<char>): string {
    if c in live then Code(c) else [c]
  }

  /** The string with the live characters in code. */
  function Encode(v: string, live: set<char>): string {
    if v == "" then "" else Token(v[0], live) + Encode(v[1..], live)
  }

  lemma {:induction false} EncodeNothing(v: string)
    ensures Encode(v, {}) == v
  {
    if v != "" {
      EncodeNothing(v[1..]);
    }
  }

  /** No match of the pattern begins at position `i` of a token followed by `rest`: two characters tell. */
  predicate DiffersAt(token: string, rest: string, pattern: string, i: nat)
    requires pattern != "" && i < |token|
  {
    || token[i] != pattern[0]
    || (|pattern| >= 2 && if i + 1 < |token| then token[i + 1] != pattern[1] else rest == "" || rest[0] != pattern[1])
  }

  predicate Differs(token: string, rest: string, pattern: string)
    requires pattern != ""
  {
    forall i :: 0 <= i < |token| ==> DiffersAt(token, rest, pattern, i)
  }

  lemma PrefixHeads(s: string, pattern: string)
    requires pattern != ""
    ensures pattern <= s ==> s[0] == pattern[0] && (|pattern| >= 2 ==> s[1] == pattern[1])
  {
  }

  lemma {:induction false} ReplaceSkips(token: string, rest: string, pattern: string, replacement: string)
    requires pattern != "" && Differs(token, rest, pattern)
    ensures ReplaceAll(token + rest, pattern, replacement) == token + ReplaceAll(rest, pattern, replacement)
  {
    if token == "" {
      assert token + rest == rest;
    } else {
      var s := token + rest;
      PrefixHeads(s, pattern);
      assert DiffersAt(token, rest, pattern, 0);
      forall i | 0 <= i < |token[1..]|
        ensures DiffersAt(token[1..], rest, pattern, i)
      {
        assert DiffersAt(token, rest, pattern, i + 1);
      }
      ReplaceSkips(token[1..], rest, pattern, replacement);
      assert s[1..] == token[1..] + rest;
    }
  }

  lemma ReplaceMatches(rest: string, pattern: string, replacement: string)
    requires pattern != ""
    ensures ReplaceAll(pattern + rest, pattern, replacement) == replacement + ReplaceAll(rest, pattern, replacement)
  {
    assert (pattern + rest)[|pattern|..] == rest;
  }

  /** No code of a live character holds `c`. */
  predicate Avoids(c: char, live: set<char>) {
    forall d <- live :: c !in Code(d)
  }

  lemma CodeAvoids(c: char, d: char)
    requires c in CODED && d in CODED && c != d && c != '\\' && (c == '&' ==> d !in {'<', '>'})
    ensures c !in Code(d)
  {
  }

  /** Backslashes first, ampersands before the angle brackets: then no code is escaped again. */
  lemma LiveAvoids(c: char, live: set<char>)
    requires c in CODED && live <= CODED && c !in live && c != '\\' && (c == '&' ==> live !! {'<', '>'})
    ensures Avoids(c, live)
  {
    forall d <- live
      ensures c !in Code(d)
    {
      CodeAvoids(c, d);
    }
  }

  lemma {:induction false} EscapeOne(v: string, live: set<char>, c: char, after: set<char>)
    requires c in CODED && c !in live && after == live + {c} && Avoids(c, live)
    ensures ReplaceAll(Encode(v, live), [c], Code(c)) == Encode(v, after)
  {
    if v != "" {
      EscapeOne(v[1..], live, c, after);
      var rest := Encode(v[1..], live);
      if v[0] == c {
        ReplaceMatches(rest, [c], Code(c));
      } else {
        ReplaceSkips(Token(v[0], live), rest, [c], Code(c));
      }
    }
  }

  lemma EscapeNext(v: string, live: set<char>, c: char, after: set<char>)
    requires c in CODED && live <= CODED && c !in live && after == live + {c}
    requires c != '\\' && (c == '&' ==> live !! {'<', '>'})
    ensures ReplaceAll(Encode(v, live), [c], Code(c)) == Encode(v, after)
  {
    LiveAvoids(c, live);
    EscapeOne(v, live, c, after);
  }

  lemma EscapeBackslashes(v: string)
    ensures ReplaceAll(v, "\\", "\\\\") == Encode(v, {'\\'})
  {
    EncodeNothing(v);
    EscapeOne(v, {}, '\\', {'\\'});
  }

  const CORE: set<char> := {'\\', '\n', '\'', '"'}

  lemma EscapeCore(v: string)
    ensures ReplaceAll(ReplaceAll(ReplaceAll(Encode(v, {'\\'}), "\n", "\\n"), "'", "\\'"), "\"", "\\\"") == Encode(v, CORE)
  {
    EscapeNext(v, {'\\'}, '\n', {'\\', '\n'});
    EscapeNext(v, {'\\', '\n'}, '\'', {'\\', '\n', '\''});
    EscapeNext(v, {'\\', '\n', '\''}, '"', CORE);
  }

  lemma EscapeEntities(v: string, withAmp: set<char>, withLt: set<char>)
    requires withAmp == CORE + {'&'} && withLt == withAmp + {'<'}
    ensures ReplaceAll(ReplaceAll(ReplaceAll(Encode(v, CORE), "&", "&amp;"), "<", "&lt;"), ">", "&gt;") == Encode(v, withLt + {'>'})
  {
    EscapeNext(v, CORE, '&', withAmp);
    EscapeNext(v, withAmp, '<', withLt);
    EscapeNext(v, withLt, '>', withLt + {'>'});
  }

  /** Escaping the characters one after the other escapes them all at once. */
  lemma EscapeAndroidIsEncode(v: string)
    ensures EscapeAndroidResourceValue(v) == Encode(v, CORE + {'&'} + {'<'} + {'>'})
  {
    EscapeBackslashes(v);
    EscapeCore(v);
    EscapeEntities(v, CORE + {'&'}, CORE + {'&'} + {'<'});
  }

  const KOTLIN: set<char> := {'\\', '"', '$', '\n'}

  lemma EscapeKotlinIsEncode(v: string)
    ensures EscapeKotlin(v) == Encode(v, KOTLIN)
  {
    EscapeBackslashes(v);
    EscapeNext(v, {'\\'}, '"', {'\\', '"'});
    EscapeNext(v, {'\\', '"'}, '$', {'\\', '"', '$'});
    EscapeNext(v, {'\\', '"', '$'}, '\n', KOTLIN);
  }

  // ----- decoding, stage by stage

  lemma EncodeHead(v: string, live: set<char>)
    ensures (v == "") == (Encode(v, live) == "")
    ensures v != "" ==> Encode(v, live)[0] == Token(v[0], live)[0]
  {
  }

  lemma EntityDiffers(d: char, live: set<char>, rest: string, c: char)
    requires '&' in live && live <= CODED && c in {'&', '<', '>'} && d != c
    ensures Differs(Token(d, live), rest, Code(c))
  {
    if d !in live {
      assert d != '&';
    } else if d in {'&', '<', '>'} {
      assert Code(d)[1] != Code(c)[1];
    }
  }

  lemma {:induction false} DecodeEntity(v: string, live: set<char>, c: char, after: set<char>)
    requires '&' in live && live <= CODED && c in {'&', '<', '>'} && c !in after && live == after + {c}
    ensures ReplaceAll(Encode(v, live), Code(c), [c]) == Encode(v, after)
  {
    if v != "" {
      DecodeEntity(v[1..], live, c, after);
      var rest := Encode(v[1..], live);
      if v[0] == c {
        ReplaceMatches(rest, Code(c), [c]);
      } else {
        EntityDiffers(v[0], live, rest, c);
        ReplaceSkips(Token(v[0], live), rest, Code(c), [c]);
      }
    }
  }

  lemma DecodeNamedEntities(v: string, live: set<char>, c: char, after: set<char>)
    requires '&' in live && live <= CODED && c in {'&', '<', '>'} && c !in after && live == after + {c}
    ensures c == '<' ==> ReplaceAll(Encode(v, live), "&lt;", "<") == Encode(v, after)
    ensures c == '>' ==> ReplaceAll(Encode(v, live), "&gt;", ">") == Encode(v, after)
    ensures c == '&' ==> ReplaceAll(Encode(v, live), "&amp;", "&") == Encode(v, after)
  {
    DecodeEntity(v, live, c, after);
  }

  lemma QuotDiffers(d: char, live: set<char>, rest: string)
    requires '&' in live && live <= CODED
    ensures Differs(Token(d, live), rest, "&quot;")
  {
    if d !in live {
      assert d != '&';
    } else if d in {'&', '<', '>'} {
      assert Code(d)[1] != 'q';
    }
  }

  /** No escaped text contains `&quot;`. */
  lemma {:induction false} DecodeQuotChangesNothing(v: string, live: set<char>)
    requires '&' in live && live <= CODED
    ensures ReplaceAll(Encode(v, live), "&quot;", "\"") == Encode(v, live)
  {
    if v != "" {
      DecodeQuotChangesNothing(v[1..], live);
      QuotDiffers(v[0], live, Encode(v[1..], live));
      ReplaceSkips(Token(v[0], live), Encode(v[1..], live), "&quot;", "\"");
    }
  }

  /** A backslash followed by the letter n. */
  predicate StartsPair(v: string) {
    |v| >= 2 && v[0] == '\\' && v[1] == 'n'
  }

  /** The string with the live characters in code, after its pairs have been taken for line feeds. */
  function EncodeBroken(v: string, live: set<char>): string {
    if v == "" then ""
    else if StartsPair(v) then "\\\n" + EncodeBroken(v[2..], live)
    else Token(v[0], live) + EncodeBroken(v[1..], live)
  }

  lemma EncodeBrokenHead(v: string, live: set<char>)
    ensures (v == "") == (EncodeBroken(v, live) == "")
    ensures v != "" ==> EncodeBroken(v, live)[0] == if StartsPair(v) then '\\' else Token(v[0], live)[0]
  {
    if v != "" {
      TokenIsSome(v[0], live);
    }
  }

  lemma TokenIsSome(c: char, live: set<char>)
    ensures |Token(c, live)| >= 1
  {
  }

  lemma PairText(rest: string)
    ensures Code('\\') + (['n'] + rest) == "\\\\n" + rest
  {
  }

  /** Behind a live quote there is a backslash first. */
  lemma EncodedHeadIsNoQuote(v: string, live: set<char>, c: char)
    requires IsQuote(c) && c in live
    ensures v != "" ==> EncodeBroken(v, live)[0] != c
  {
    EncodeBrokenHead(v, live);
    if v != "" && v[0] in live {
      assert Code(v[0])[0] != c;
    }
  }

  lemma EncodedPair(v: string, live: set<char>)
    requires StartsPair(v) && '\\' in live && 'n' !in live
    ensures Encode(v, live) == "\\\\n" + Encode(v[2..], live)
  {
    assert v[1..][1..] == v[2..];
    assert Encode(v, live) == Code('\\') + Encode(v[1..], live);
    assert Encode(v[1..], live) == ['n'] + Encode(v[2..], live);
    PairText(Encode(v[2..], live));
  }

  lemma DecodePair(rest: string)
    ensures ReplaceAll("\\\\n" + rest, "\\n", "\n") == "\\\n" + ReplaceAll(rest, "\\n", "\n")
  {
    assert "\\\\n" + rest == "\\" + ("\\n" + rest);
    ReplaceSkips("\\", "\\n" + rest, "\\n", "\n");
    ReplaceMatches(rest, "\\n", "\n");
    assert "\\" + ("\n" + ReplaceAll(rest, "\\n", "\n")) == "\\\n" + ReplaceAll(rest, "\\n", "\n");
  }

  lemma {:induction false} DecodeLineFeed(v: string, live: set<char>, after: set<char>)
    requires '\\' in live && live <= {'\\', '\n', '\'', '"', '$'} && '\n' !in after && live == after + {'\n'}
    ensures ReplaceAll(Encode(v, live), "\\n", "\n") == EncodeBroken(v, after)
  {
    if v == "" {
    } else if StartsPair(v) {
      DecodeLineFeed(v[2..], live, after);
      EncodedPair(v, live);
      DecodePair(Encode(v[2..], live));
    } else {
      DecodeLineFeed(v[1..], live, after);
      var rest := Encode(v[1..], live);
      EncodeHead(v[1..], live);
      if v[0] == '\n' {
        ReplaceMatches(rest, "\\n", "\n");
      } else {
        ReplaceSkips(Token(v[0], live), rest, "\\n", "\n");
      }
    }
  }

  /** The escaped quotes and dollars: a backslash and the character itself. */
  predicate IsQuote(c: char) {
    c in {'\'', '"', '$'}
  }

  lemma QuoteCode(c: char)
    requires IsQuote(c)
    ensures Code(c) == ['\\', c]
  {
  }

  /** A token of backslashes and quotes holds no other escaped quote, wherever the text goes on. */
  lemma QuoteDiffers(d: char, live: set<char>, rest: string, c: char)
    requires IsQuote(c) && d != c && '\\' in live && forall e <- live :: e == '\\' || IsQuote(e)
    ensures Differs(Token(d, live), rest, ['\\', c]) || (d == '\\' && rest != "" && rest[0] == c)
  {
    if d in live && IsQuote(d) {
      QuoteCode(d);
    }
  }

  lemma {:induction false} DecodeQuote(v: string, live: set<char>, c: char, after: set<char>)
    requires '\\' in live && (forall e <- live :: e == '\\' || IsQuote(e))
    requires IsQuote(c) && c !in after && live == after + {c}
    ensures ReplaceAll(EncodeBroken(v, live), Code(c), [c]) == EncodeBroken(v, after)
  {
    QuoteCode(c);
    if v == "" {
    } else if StartsPair(v) {
      DecodeQuote(v[2..], live, c, after);
      ReplaceSkips("\\\n", EncodeBroken(v[2..], live), ['\\', c], [c]);
    } else {
      DecodeQuote(v[1..], live, c, after);
      var rest := EncodeBroken(v[1..], live);
      EncodeBrokenHead(v[1..], live);
      if v[0] == c {
        ReplaceMatches(rest, ['\\', c], [c]);
      } else {
        EncodedHeadIsNoQuote(v[1..], live, c);
        QuoteDiffers(v[0], live, rest, c);
        ReplaceSkips(Token(v[0], live), rest, ['\\', c], [c]);
      }
    }
  }

  /** Undoing the backslashes leaves the value, with a line feed in every pair. */
  lemma {:induction false} DecodeBackslash(v: string)
    ensures ReplaceAll(EncodeBroken(v, {'\\'}), "\\\\", "\\") == ReplaceAll(v, "\\n", "\\\n")
  {
    if v == "" {
    } else if StartsPair(v) {
      DecodeBackslash(v[2..]);
      ReplaceSkips("\\\n", EncodeBroken(v[2..], {'\\'}), "\\\\", "\\");
      assert "\\n" <= v;
    } else {
      DecodeBackslash(v[1..]);
      var rest := EncodeBroken(v[1..], {'\\'});
      assert !("\\n" <= v);
      if v[0] == '\\' {
        ReplaceMatches(rest, "\\\\", "\\");
      } else {
        ReplaceSkips([v[0]], rest, "\\\\", "\\");
      }
    }
  }

  // ----- what the round trips lose

  lemma AndroidAngles(v: string, withAmp: set<char>, withGt: set<char>, withLt: set<char>)
    requires withAmp == CORE + {'&'} && withGt == withAmp + {'>'} && withLt == withGt + {'<'}
    ensures ReplaceAll(ReplaceAll(Encode(v, withLt), "&lt;", "<"), "&gt;", ">") == Encode(v, withAmp)
  {
    DecodeNamedEntities(v, withLt, '<', withGt);
    DecodeNamedEntities(v, withGt, '>', withAmp);
  }

  lemma AndroidAmpersands(v: string, withAmp: set<char>)
    requires withAmp == CORE + {'&'}
    ensures ReplaceAll(ReplaceAll(Encode(v, withAmp), "&quot;", "\""), "&amp;", "&") == Encode(v, CORE)
  {
    DecodeQuotChangesNothing(v, withAmp);
    DecodeNamedEntities(v, withAmp, '&', CORE);
  }

  lemma AndroidBackslashes(v: string)
    ensures
      var s := Encode(v, CORE);
      ReplaceAll(ReplaceAll(ReplaceAll(ReplaceAll(s, "\\n", "\n"), "\\'", "'"), "\\\"", "\""), "\\\\", "\\")
      == ReplaceAll(v, "\\n", "\\\n")
  {
    DecodeLineFeed(v, CORE, {'\\', '\'', '"'});
    DecodeQuote(v, {'\\', '\'', '"'}, '\'', {'\\', '"'});
    DecodeQuote(v, {'\\', '"'}, '"', {'\\'});
    DecodeBackslash(v);
  }

  /** Decoding an escaped value turns the letter n of every pair into a line feed, and changes nothing else. */
  lemma AndroidRoundTrip(v: string)
    ensures DecodeXml(EscapeAndroidResourceValue(v)) == ReplaceAll(v, "\\n", "\\\n")
  {
    EscapeAndroidIsEncode(v);
    assert CORE + {'&'} + {'<'} + {'>'} == CORE + {'&'} + {'>'} + {'<'};
    AndroidAngles(v, CORE + {'&'}, CORE + {'&'} + {'>'}, CORE + {'&'} + {'>'} + {'<'});
    AndroidAmpersands(v, CORE + {'&'});
    AndroidBackslashes(v);
  }

  lemma KotlinBackslashes(v: string)
    ensures
      var s := Encode(v, KOTLIN);
      ReplaceAll(ReplaceAll(ReplaceAll(ReplaceAll(s, "\\n", "\n"), "\\\"", "\""), "\\$", "$"), "\\\\", "\\")
      == ReplaceAll(v, "\\n", "\\\n")
  {
    DecodeLineFeed(v, KOTLIN, {'\\', '"', '$'});
    DecodeQuote(v, {'\\', '"', '$'}, '"', {'\\', '$'});
    DecodeQuote(v, {'\\', '$'}, '$', {'\\'});
    DecodeBackslash(v);
  }

  lemma KotlinRoundTrip(v: string)
    ensures DecodeKotlinLiteral(EscapeKotlin(v)) == ReplaceAll(v, "\\n", "\\\n")
  {
    EscapeKotlinIsEncode(v);
    KotlinBackslashes(v);
  }

  predicate HasPair(v: string) {
    exists i | 0 <= i <= |v| :: StartsPair(v[i..])
  }

  /** Nothing is lost exactly when no backslash stands before the letter n. */
  lemma {:induction false} UnchangedWithoutPairs(v: string)
    ensures ReplaceAll(v, "\\n", "\\\n") == v <==> !HasPair(v)
  {
    if v == "" {
    } else if StartsPair(v) {
      assert v[0..] == v;
      assert ReplaceAll(v, "\\n", "\\\n")[1] == '\n';
    } else {
      UnchangedWithoutPairs(v[1..]);
      assert !("\\n" <= v);
      assert v == [v[0]] + v[1..];
      if HasPair(v[1..]) {
        var i :| 0 <= i <= |v[1..]| && StartsPair(v[1..][i..]);
        assert v[1..][i..] == v[i + 1..];
      }
      if HasPair(v) {
        var i :| 0 <= i <= |v| && StartsPair(v[i..]);
        assert v[0..] == v;
        assert v[i..] == v[1..][i - 1..];
      }
    }
  }

  /** What a round trip makes of a value: a line feed for the letter n of every pair. */
  function Broken(v: string): string {
    ReplaceAll(v, "\\n", "\\\n")
  }

  lemma BrokenSkips(token: string, rest: string)
    requires forall i :: 0 <= i < |token| ==> token[i] != '\\'
    ensures Broken(token + rest) == token + Broken(rest)
  {
    ReplaceSkips(token, rest, "\\n", "\\\n");
  }

  lemma BrokenPair(rest: string)
    ensures Broken(['\\', 'n'] + rest) == ['\\', '\n'] + Broken(rest)
  {
    ReplaceMatches(rest, "\\n", "\\\n");
  }

  lemma BrokenOne(c: char, rest: string)
    requires !StartsPair([c] + rest)
    ensures Broken([c] + rest) == [c] + Broken(rest)
  {
    ReplaceSkips([c], rest, "\\n", "\\\n");
  }

  lemma {:induction false} BrokenKeepsLength(v: string)
    ensures |Broken(v)| == |v|
  {
    if v == "" {
    } else if StartsPair(v) {
      BrokenKeepsLength(v[2..]);
      BrokenPair(v[2..]);
      assert v == ['\\', 'n'] + v[2..];
    } else {
      BrokenKeepsLength(v[1..]);
      assert v == [v[0]] + v[1..];
      BrokenOne(v[0], v[1..]);
    }
  }

  lemma BrokenAhead(head: string, brokenHead: string, a: string, b: string)
    requires Broken(a + b) == Broken(a) + Broken(b)
    requires Broken(head + a) == brokenHead + Broken(a) && Broken(head + (a + b)) == brokenHead + Broken(a + b)
    ensures Broken((head + a) + b) == Broken(head + a) + Broken(b)
  {
    assert (head + a) + b == head + (a + b);
  }

  lemma {:induction false} BrokenConcat(a: string, b: string)
    requires b == "" || b[0] != 'n'
    ensures Broken(a + b) == Broken(a) + Broken(b)
  {
    if a == "" {
      assert a + b == b;
    } else if StartsPair(a) {
      var rest := a[2..];
      BrokenConcat(rest, b);
      BrokenPair(rest);
      BrokenPair(rest + b);
      BrokenAhead(['\\', 'n'], ['\\', '\n'], rest, b);
      assert a == ['\\', 'n'] + rest;
    } else {
      var rest := a[1..];
      BrokenConcat(rest, b);
      assert a == [a[0]] + rest;
      BrokenOne(a[0], rest);
      BrokenOne(a[0], rest + b);
      BrokenAhead([a[0]], [a[0]], rest, b);
    }
  }

  lemma TrimKeepsQuoted(s: string)
    ensures Trim("\"" + s + "\"") == "\"" + s + "\""
  {
    var quoted := "\"" + s + "\"";
    assert quoted[0] == '"' && quoted[|quoted| - 1] == '"';
  }

  /** A resource value read back from its quoted, escaped form. */
  lemma AndroidValueRoundTrip(v: string)
    ensures DecodeAndroidResourceValue("\"" + EscapeAndroidResourceValue(v) + "\"") == Broken(v)
  {
    var escaped := EscapeAndroidResourceValue(v);
    TrimKeepsQuoted(escaped);
    assert ("\"" + escaped + "\"")[1..|escaped| + 1] == escaped;
    AndroidRoundTrip(v);
  }

  lemma AndroidValueSurvives(v: string)
    ensures DecodeAndroidResourceValue("\"" + EscapeAndroidResourceValue(v) + "\"") == v <==> !HasPair(v)
  {
    AndroidValueRoundTrip(v);
    UnchangedWithoutPairs(v);
  }

  /** The two characters `\n` are read back as a backslash and a line feed. */
  lemma PairIsLost()
    ensures DecodeAndroidResourceValue("\"" + EscapeAndroidResourceValue("\\n") + "\"") != "\\n"
    ensures DecodeKotlinLiteral(EscapeKotlin("\\n")) == "\\\n"
  {
    assert StartsPair("\\n"[0..]);
    AndroidValueSurvives("\\n");
    KotlinRoundTrip("\\n");
    assert "\\n" == "\\n" + "";
    ReplaceMatches("", "\\n", "\\\n");
  }

  lemma KotlinLiteralSurvives(v: string)
    ensures DecodeKotlinLiteral(EscapeKotlin(v)) == v <==> !HasPair(v)
  {
    KotlinRoundTrip(v);
    UnchangedWithoutPairs(v);
  }

  // ----- values without quotes around them

  predicate IsBlank(c: char) {
    IsSpace(c) && c != '\n'
  }

  predicate AllBlank(s: string) {
    forall i :: 0 <= i < |s| ==> IsBlank(s[i])
  }

  lemma {:induction false} EncodeConcat(a: string, b: string, live: set<char>)
    ensures Encode(a + b, live) == Encode(a, live) + Encode(b, live)
  {
    if a == "" {
      assert a + b == b;
    } else {
      EncodeConcat(a[1..], b, live);
      assert (a + b)[1..] == a[1..] + b;
    }
  }

  lemma {:induction false} EncodeBlank(s: string, live: set<char>)
    requires AllBlank(s) && live <= CODED
    ensures Encode(s, live) == s
  {
    if s != "" {
      EncodeBlank(s[1..], live);
      assert s == [s[0]] + s[1..];
    }
  }

  lemma TokenEnds(c: char, live: set<char>)
    requires !IsBlank(c) && '\n' in live && '"' in live && live <= CODED
    ensures Token(c, live) != "" && IsTrimmed(Token(c, live)) && Token(c, live)[0] != '"'
  {
  }

  lemma EncodeIsTrimmed(v: string, live: set<char>)
    requires v != "" && !IsBlank(v[0]) && !IsBlank(v[|v| - 1]) && '\n' in live && '"' in live && live <= CODED
    ensures
      var s := Encode(v, live);
      s != "" && IsTrimmed(s) && s[0] != '"'
  {
    var n := |v| - 1;
    TokenEnds(v[0], live);
    TokenEnds(v[n], live);
    EncodeHead(v, live);
    EncodeConcat(v[..n], [v[n]], live);
    assert v == v[..n] + [v[n]] && [v[n]][1..] == "";
  }

  /**
   A value read back from its escaped form without quotes: blanks around it are lost, and so are its pairs.
   Line feeds at its ends are kept, since they are escaped.
   */
  lemma UnquotedRoundTrip(lead: string, v: string, trail: string)
    requires AllBlank(lead) && AllBlank(trail) && (v != "" ==> !IsBlank(v[0]) && !IsBlank(v[|v| - 1]))
    ensures DecodeAndroidResourceValue(EscapeAndroidResourceValue(lead + v + trail)) == Broken(v)
  {
    var live := CORE + {'&'} + {'<'} + {'>'};
    EscapeAndroidIsEncode(lead + v + trail);
    EscapeAndroidIsEncode(v);
    EncodeConcat(lead + v, trail, live);
    EncodeConcat(lead, v, live);
    EncodeBlank(lead, live);
    EncodeBlank(trail, live);
    if v != "" {
      EncodeIsTrimmed(v, live);
    }
    TrimDrops(lead, Encode(v, live), trail);
    AndroidRoundTrip(v);
  }

  // ----- the entities of XML, as other writers use them

  function XmlCode(c: char): string {
    match c
    case '"' => "&quot;"
    case '&' => "&amp;"
    case '<' => "&lt;"
    case '>' => "&gt;"
    case _ => [c]
  }

  const XML_CODED: set<char> := {'"', '&', '<', '>'}

  function XmlToken(c: char, live: set<char>): string {
    if c in live then XmlCode(c) else [c]
  }

  function XmlEncode(v: string, live: set<char>): string {
    if v == "" then "" else XmlToken(v[0], live) + XmlEncode(v[1..], live)
  }

  lemma XmlEntityDiffers(d: char, live: set<char>, rest: string, c: char)
    requires '&' in live && live <= XML_CODED && c in XML_CODED && d != c
    ensures Differs(XmlToken(d, live), rest, XmlCode(c))
  {
    if d !in live {
      assert d != '&';
    } else {
      assert XmlCode(d)[1] != XmlCode(c)[1];
    }
  }

  lemma {:induction false} DecodeXmlEntity(v: string, live: set<char>, c: char, after: set<char>)
    requires '&' in live && live <= XML_CODED && c in XML_CODED && c !in after && live == after + {c}
    ensures ReplaceAll(XmlEncode(v, live), XmlCode(c), [c]) == XmlEncode(v, after)
  {
    if v != "" {
      DecodeXmlEntity(v[1..], live, c, after);
      var rest := XmlEncode(v[1..], live);
      if v[0] == c {
        ReplaceMatches(rest, XmlCode(c), [c]);
      } else {
        XmlEntityDiffers(v[0], live, rest, c);
        ReplaceSkips(XmlToken(v[0], live), rest, XmlCode(c), [c]);
      }
    }
  }

  lemma {:induction false} XmlEncodeNothing(v: string)
    ensures XmlEncode(v, {}) == v
  {
    if v != "" {
      XmlEncodeNothing(v[1..]);
    }
  }

  lemma NothingToReplace(v: string, pattern: string, replacement: string)
    requires pattern != "" && pattern[0] !in v
    ensures ReplaceAll(v, pattern, replacement) == v
  {
    ReplaceSkips(v, "", pattern, replacement);
    assert v + "" == v;
  }

  lemma XmlAngles(v: string)
    ensures ReplaceAll(ReplaceAll(XmlEncode(v, XML_CODED), "&lt;", "<"), "&gt;", ">") == XmlEncode(v, {'"', '&'})
  {
    DecodeXmlEntity(v, XML_CODED, '<', {'"', '&', '>'});
    DecodeXmlEntity(v, {'"', '&', '>'}, '>', {'"', '&'});
  }

  lemma XmlQuotes(v: string)
    ensures ReplaceAll(ReplaceAll(XmlEncode(v, {'"', '&'}), "&quot;", "\""), "&amp;", "&") == v
  {
    DecodeXmlEntity(v, {'"', '&'}, '"', {'&'});
    DecodeXmlEntity(v, {'&'}, '&', {});
    XmlEncodeNothing(v);
  }

  lemma NoBackslashes(v: string)
    requires '\\' !in v
    ensures ReplaceAll(ReplaceAll(ReplaceAll(ReplaceAll(v, "\\n", "\n"), "\\'", "'"), "\\\"", "\""), "\\\\", "\\") == v
  {
    NothingToReplace(v, "\\n", "\n");
    NothingToReplace(v, "\\'", "'");
    NothingToReplace(v, "\\\"", "\"");
    NothingToReplace(v, "\\\\", "\\");
  }

  /** Text without backslashes, with its quotes, ampersands and angle brackets as entities, is read back. */
  lemma XmlTextIsRead(v: string)
    requires '\\' !in v
    ensures DecodeXml(XmlEncode(v, XML_CODED)) == v
  {
    XmlAngles(v);
    XmlQuotes(v);
    NoBackslashes(v);
  }
}
