/** Rendering a translation as an Android resource value. */
module AndroidResources {
  import opened Wrappers
  import opened Text
  import opened Interpolations
  import opened FormatStrings
  import opened Escapes

  datatype RenderError = UnbalancedPlaceholders | ChangedPlaceholders

  lemma ScanGivesSpans(s: string)
    requires Scan(s).Some?
    ensures AreSpansOf(Scan(s).value, s)
    ensures forall i :: 0 <= i < |Scan(s).value| ==> var span := Scan(s).value[i]; span.value == s[span.start..span.end]
  {
    ScanMeetsGrammar(s, Scan(s).value);
    var spans := Scan(s).value;
    assert forall i :: 0 <= i < |spans| ==> IsPlaceholder(s, spans[i].start, spans[i].end);
  }

  /** The text before it is escaped for XML. */
  function FormatText(source: string, translated: string): Result<string, RenderError> {
    if Scan(source).None? || Scan(translated).None? then Err(UnbalancedPlaceholders)
    else
      var sourceTokens, spans := Values(Scan(source).value), Scan(translated).value;
      if multiset(sourceTokens) != multiset(Values(spans)) then Err(ChangedPlaceholders)
      else if sourceTokens == [] then Ok(translated)
      else
        ScanGivesSpans(translated);
        Ok(Compiled(Gaps(translated, spans), Values(spans), sourceTokens, 0))
  }

  function Tally(tokens: seq<string>): map<string, nat> {
    map token | token in tokens :: Count(tokens, token)
  }

  lemma TallyIsMultiset(a: seq<string>, b: seq<string>)
    ensures Tally(a) == Tally(b) <==> multiset(a) == multiset(b)
  {
    forall token
      ensures Count(a, token) == multiset(a)[token] && Count(b, token) == multiset(b)[token]
    {
      CountIsMultiplicity(a, token);
      CountIsMultiplicity(b, token);
    }
    if Tally(a) == Tally(b) {
      forall token
        ensures multiset(a)[token] == multiset(b)[token]
      {
        assert token in a <==> token in Tally(a);
        assert token in b <==> token in Tally(b);
      }
    }
    if multiset(a) == multiset(b) {
      assert forall token :: token in a <==> token in multiset(a);
      assert forall token :: token in b <==> token in multiset(b);
    }
  }

  lemma TallyStep(tokens: seq<string>, i: nat)
    requires i < |tokens|
    ensures
      var before, token := Tally(tokens[..i]), tokens[i];
      var count := if token in before then before[token] else 0;
      count == Count(tokens[..i], token) && Tally(tokens[..i + 1]) == before[token := count + 1]
  {
    assert tokens[..i + 1][..i] == tokens[..i];
    CountIsMultiplicity(tokens[..i], tokens[i]);
  }

  method TokenCounts(tokens: seq<string>) returns (counts: map<string, nat>)
    ensures counts == Tally(tokens)
  {
    counts := map[];
    for i := 0 to |tokens|
      invariant counts == Tally(tokens[..i])
    {
      var token := tokens[i];
      TallyStep(tokens, i);
      counts := counts[token := (if token in counts then counts[token] else 0) + 1];
    }
    assert tokens[..|tokens|] == tokens;
  }

  lemma PositionOf(tokens: seq<string>, i: nat)
    requires i < |tokens|
    ensures Count(tokens[..i], tokens[i]) < Count(tokens, tokens[i])
    ensures Position(tokens, tokens[i], Count(tokens[..i], tokens[i])) == i
  {
    var token := tokens[i];
    CountGrows(tokens, i, |tokens|, token);
    assert tokens[..|tokens|] == tokens;
    var p := Position(tokens, token, Count(tokens[..i], token));
    if p < i {
      CountGrows(tokens, p, i, token);
    } else if i < p {
      CountGrows(tokens, i, p, token);
    }
  }

  /** For each token its positions in order, counted from 1. */
  predicate IsIndexOf(indices: map<string, seq<nat>>, tokens: seq<string>, upTo: nat)
    requires upTo <= |tokens|
  {
    forall token :: token in tokens ==>
      && (token in indices <==> Count(tokens[..upTo], token) > 0)
      && (token in indices ==> IsPositions(indices[token], tokens, token, Count(tokens[..upTo], token)))
  }

  predicate IsPositions(positions: seq<nat>, tokens: seq<string>, token: string, n: nat) {
    && |positions| == n <= Count(tokens, token)
    && forall k :: 0 <= k < n ==> positions[k] == Position(tokens, token, k) + 1
  }

  method IndexTokens(tokens: seq<string>) returns (indices: map<string, seq<nat>>)
    ensures IsIndexOf(indices, tokens, |tokens|)
  {
    indices := map[];
    for i := 0 to |tokens|
      invariant IsIndexOf(indices, tokens, i)
    {
      var token := tokens[i];
      PositionOf(tokens, i);
      assert tokens[..i + 1][..i] == tokens[..i];
      indices := indices[token := (if token in indices then indices[token] else []) + [i + 1]];
    }
  }

  ghost predicate IsCompleteScan(spans: seq<Interpolation>, s: string) {
    IsScanOf(spans, s, |s|)
  }

  /** The same placeholders, each as often, in whatever order. */
  predicate HaveSameValues(a: seq<Interpolation>, b: seq<Interpolation>) {
    multiset(Values(a)) == multiset(Values(b))
  }

  lemma ScanIsComplete(s: string)
    ensures Scan(s).Some? <==> exists spans :: IsCompleteScan(spans, s)
    ensures forall spans :: IsCompleteScan(spans, s) ==> Scan(s) == Some(spans)
  {
    if Scan(s).Some? {
      ScanMeetsGrammar(s, Scan(s).value);
      assert IsCompleteScan(Scan(s).value, s);
    }
    forall spans | IsCompleteScan(spans, s)
      ensures Scan(s) == Some(spans)
    {
      ScanMeetsGrammar(s, spans);
    }
  }

  lemma WhenTextIsFormatted(source: string, translated: string)
    ensures FormatText(source, translated).Ok?
            <==> exists a, b :: IsCompleteScan(a, source) && IsCompleteScan(b, translated) && HaveSameValues(a, b)
    ensures FormatText(source, translated) == Err(UnbalancedPlaceholders)
            <==> !((exists a :: IsCompleteScan(a, source)) && exists b :: IsCompleteScan(b, translated))
  {
    ScanIsComplete(source);
    ScanIsComplete(translated);
    if FormatText(source, translated).Ok? {
      assert IsCompleteScan(Scan(source).value, source) && IsCompleteScan(Scan(translated).value, translated);
      assert HaveSameValues(Scan(source).value, Scan(translated).value);
    }
  }

  method RenderAndroidResourceValue(source: string, translated: string) returns (r: Result<string, RenderError>)
    ensures
      r == match FormatText(source, translated)
           case Ok(text) => Ok(EscapeAndroidResourceValue(text))
           case Err(error) => Err(error)
    ensures r.Ok? <==> exists a, b :: IsCompleteScan(a, source) && IsCompleteScan(b, translated) && HaveSameValues(a, b)
    ensures r == Err(UnbalancedPlaceholders)
            <==> !((exists a :: IsCompleteScan(a, source)) && exists b :: IsCompleteScan(b, translated))
  {
    WhenTextIsFormatted(source, translated);
    var rendered := translated;
    var sourceInterpolations := ReadKotlinInterpolations(source);
    var translatedInterpolations := ReadKotlinInterpolations(translated);
    if sourceInterpolations.None? || translatedInterpolations.None? {
      return Err(UnbalancedPlaceholders);
    }
    var spans := translatedInterpolations.value;
    var sourceTokens, translatedTokens := Values(sourceInterpolations.value), Values(spans);
    var sourceCounts := TokenCounts(sourceTokens);
    var translatedCounts := TokenCounts(translatedTokens);
    TallyIsMultiset(sourceTokens, translatedTokens);
    if sourceCounts != translatedCounts {
      return Err(ChangedPlaceholders);
    }
    if |sourceTokens| > 0 {
      ScanGivesSpans(translated);
      rendered := RenderPlaceholders(translated, spans, sourceTokens);
    }
    return Ok(EscapeAndroidResourceValue(rendered));
  }

  /** The part of one turn that counts the token and writes its placeholder. */
  method NextPlaceholder(sourceIndices: map<string, seq<nat>>, translatedOccurrences: map<string, nat>, token: string,
                         ghost source: seq<string>, ghost translated: seq<string>, ghost n: nat)
    returns (placeholder: string, occurrencesAfter: map<string, nat>)
    requires multiset(source) == multiset(translated) && n < |translated| && token == translated[n]
    requires IsIndexOf(sourceIndices, source, |source|) && translatedOccurrences == Tally(translated[..n])
    ensures placeholder == IndexText(source, translated, n) && occurrencesAfter == Tally(translated[..n + 1])
  {
    var occurrence := if token in translatedOccurrences then translatedOccurrences[token] else 0;
    TallyStep(translated, n);
    EmitsIndex(source, translated, n, sourceIndices);
    return Emit(sourceIndices, token, occurrence), translatedOccurrences[token := occurrence + 1];
  }

  method RenderPlaceholders(translated: string, spans: seq<Interpolation>, sourceTokens: seq<string>)
    returns (rendered: string)
    requires AreSpansOf(spans, translated) && multiset(sourceTokens) == multiset(Values(spans))
    ensures rendered == Compiled(Gaps(translated, spans), Values(spans), sourceTokens, 0)
  {
    var sourceIndices := IndexTokens(sourceTokens);
    var translatedOccurrences: map<string, nat> := map[];
    ghost var gaps, tokens := Gaps(translated, spans), Values(spans);
    ghost var all := Compiled(gaps, tokens, sourceTokens, 0);
    var cursor := 0;
    rendered := "";
    for n := 0 to |spans|
      invariant cursor == CursorAfter(spans, n) <= |translated|
      invariant translatedOccurrences == Tally(tokens[..n])
      invariant all == rendered + Compiled(gaps, tokens, sourceTokens, n)
    {
      var interpolation := spans[n];
      assert n > 0 ==> EndsBefore(spans, n - 1);
      var gap := translated[cursor..interpolation.start];
      assert gap == gaps[n];
      var placeholder;
      placeholder, translatedOccurrences :=
        NextPlaceholder(sourceIndices, translatedOccurrences, interpolation.value, sourceTokens, tokens, n);
      CompiledStep(gaps, tokens, sourceTokens, n, rendered);
      rendered := rendered + EscapePercent(gap) + placeholder;
      cursor := interpolation.end;
    }
    assert translated[cursor..] == gaps[|spans|];
    CompiledEnd(gaps, tokens, sourceTokens);
    rendered := rendered + EscapePercent(translated[cursor..]);
  }

  lemma CompiledEnd(gaps: seq<string>, tokens: seq<string>, source: seq<string>)
    requires |tokens| == |gaps| - 1 && multiset(source) == multiset(tokens)
    ensures Compiled(gaps, tokens, source, |tokens|) == EscapePercent(gaps[|tokens|])
  {
  }

  lemma CompiledStep(gaps: seq<string>, tokens: seq<string>, source: seq<string>, n: nat, before: string)
    requires n < |tokens| == |gaps| - 1 && multiset(source) == multiset(tokens)
    ensures before + Compiled(gaps, tokens, source, n)
         == before + EscapePercent(gaps[n]) + IndexText(source, tokens, n) + Compiled(gaps, tokens, source, n + 1)
  {
  }

  /** The placeholder for an occurrence of a token; the token itself if the source had no such occurrence. */
  function Emit(indices: map<string, seq<nat>>, token: string, occurrence: nat): string {
    var index := if token in indices && occurrence < |indices[token]| then indices[token][occurrence] else 0;
    if index > 0 then "%" + Decimal(index) + "$s" else token
  }

  /** The fallback is never taken. */
  lemma EmitsIndex(source: seq<string>, translated: seq<string>, n: nat, indices: map<string, seq<nat>>)
    requires multiset(source) == multiset(translated) && n < |translated| && IsIndexOf(indices, source, |source|)
    ensures Emit(indices, translated[n], Count(translated[..n], translated[n])) == IndexText(source, translated, n)
  {
    var p := Partner(source, translated, n);
    assert source[..|source|] == source;
    PositionOf(source, p);
    assert indices[source[p]][Count(source[..p], source[p])] == p + 1;
  }

  // ----- the meaning of the rendered value

  /** What the app shows for a text: it is a format string when the source has placeholders. */
  function Shown(source: string, text: string, values: string -> string): Option<string>
    requires Scan(source).Some?
  {
    var tokens := Values(Scan(source).value);
    if tokens == [] then Some(text) else Format(text, Arguments(tokens, values))
  }

  /** The translated text with every placeholder replaced by its value at run time. */
  function Filled(translated: string, values: string -> string): string
    requires Scan(translated).Some?
  {
    ScanGivesSpans(translated);
    var spans := Scan(translated).value;
    Substituted(Gaps(translated, spans), Values(spans), values, 0)
  }

  lemma FilledWithoutPlaceholders(translated: string, values: string -> string)
    requires Scan(translated) == Some([])
    ensures Filled(translated, values) == translated
  {
    ScanGivesSpans(translated);
  }

  /**
   Showing the rendered text with the values of the source's placeholders, in source order, gives the
   translated text with every placeholder filled in; with the placeholders themselves as values, it gives
   back the translated text.
   */
  lemma RenderingPreservesMeaning(source: string, translated: string, values: string -> string)
    requires FormatText(source, translated).Ok?
    ensures Shown(source, FormatText(source, translated).value, values) == Some(Filled(translated, values))
    ensures Filled(translated, token => token) == translated
  {
    var spans, tokens := Scan(translated).value, Values(Scan(source).value);
    ScanGivesSpans(translated);
    SubstitutedByItself(translated, spans, 0);
    if tokens == [] {
      assert |multiset(Values(spans))| == |Values(spans)| && multiset(tokens) == multiset{};
      FilledWithoutPlaceholders(translated, values);
    } else {
      CompiledMeansTheSame(Gaps(translated, spans), Values(spans), tokens, values, 0);
    }
  }

  // ----- what escaping loses of it

  function BrokenGaps(gaps: seq<string>): seq<string> {
    seq(|gaps|, i requires 0 <= i < |gaps| => Broken(gaps[i]))
  }

  lemma BrokenIndex(k: nat, rest: string)
    ensures Broken("%" + Decimal(k) + "$s" + rest) == "%" + Decimal(k) + "$s" + Broken(rest)
  {
    var token := "%" + Decimal(k) + "$s";
    assert forall i :: 0 <= i < |Decimal(k)| ==> IsDigit(Decimal(k)[i]);
    assert forall i :: 0 <= i < |token| ==> token[i] != '\\';
    BrokenSkips(token, rest);
  }

  lemma {:induction false} BrokenPercent(gap: string)
    ensures Broken(EscapePercent(gap)) == EscapePercent(Broken(gap))
  {
    if gap == "" {
    } else if StartsPair(gap) {
      var rest := gap[2..];
      BrokenPercent(rest);
      assert gap == ['\\'] + (['n'] + rest) && gap == ['\\', 'n'] + rest;
      PairIsNoPercent(rest);
      BrokenPair(rest);
      BrokenPair(EscapePercent(rest));
      LineFeedIsNoPercent(Broken(rest));
    } else {
      var c, rest := gap[0], gap[1..];
      BrokenPercent(rest);
      assert gap == [c] + rest;
      BrokenOne(c, rest);
      EscapeOnePercent(c, rest);
      EscapeOnePercent(c, Broken(rest));
      if c == '\\' {
        assert rest == "" || rest[0] != 'n';
        PercentHead(rest);
        BrokenOne(c, EscapePercent(rest));
      } else {
        BrokenSkips(EscapePercent([c]), EscapePercent(rest));
      }
    }
  }

  lemma PercentHead(s: string)
    ensures s == "" <==> EscapePercent(s) == ""
    ensures s != "" ==> EscapePercent(s)[0] == s[0]
  {
  }

  lemma PairIsNoPercent(rest: string)
    ensures EscapePercent(['\\', 'n'] + rest) == ['\\', 'n'] + EscapePercent(rest)
  {
    EscapeOnePercent('\\', ['n'] + rest);
    EscapeOnePercent('n', rest);
    assert ['\\', 'n'] + rest == ['\\'] + (['n'] + rest);
  }

  lemma LineFeedIsNoPercent(rest: string)
    ensures EscapePercent(['\\', '\n'] + rest) == ['\\', '\n'] + EscapePercent(rest)
  {
    EscapeOnePercent('\\', ['\n'] + rest);
    EscapeOnePercent('\n', rest);
    assert ['\\', '\n'] + rest == ['\\'] + (['\n'] + rest);
  }

  /** A pair stands within one gap: none reaches into an index or over a doubled percent sign. */
  lemma {:induction false} CompiledBreaksGaps(gaps: seq<string>, tokens: seq<string>, source: seq<string>, n: nat)
    requires n <= |tokens| == |gaps| - 1 && multiset(source) == multiset(tokens)
    ensures Broken(Compiled(gaps, tokens, source, n)) == Compiled(BrokenGaps(gaps), tokens, source, n)
    decreases |tokens| - n
  {
    BrokenPercent(gaps[n]);
    if n == |tokens| {
      assert EscapePercent(gaps[n]) + "" == EscapePercent(gaps[n]);
      assert EscapePercent(Broken(gaps[n])) + "" == EscapePercent(Broken(gaps[n]));
    } else {
      var k, rest := Partner(source, tokens, n) + 1, Compiled(gaps, tokens, source, n + 1);
      CompiledBreaksGaps(gaps, tokens, source, n + 1);
      BrokenIndex(k, rest);
      BrokenConcat(EscapePercent(gaps[n]), "%" + Decimal(k) + "$s" + rest);
    }
  }

  /** The literal text between the placeholders, piece by piece. */
  function LiteralText(translated: string): (gaps: seq<string>)
    requires Scan(translated).Some?
    ensures |gaps| == |Scan(translated).value| + 1
  {
    ScanGivesSpans(translated);
    Gaps(translated, Scan(translated).value)
  }

  lemma ShownBroken(source: string, translated: string, values: string -> string)
    requires FormatText(source, translated).Ok?
    ensures
      var gaps, tokens := LiteralText(translated), Values(Scan(translated).value);
      Shown(source, Broken(FormatText(source, translated).value), values) == Some(Substituted(BrokenGaps(gaps), tokens, values, 0))
  {
    ScanGivesSpans(translated);
    var sourceTokens, spans := Values(Scan(source).value), Scan(translated).value;
    var gaps, tokens := Gaps(translated, spans), Values(spans);
    if sourceTokens == [] {
      assert |multiset(tokens)| == |tokens| && multiset(sourceTokens) == multiset{};
      assert Gap(translated, spans, 0) == translated;
      assert Broken(translated) + "" == Broken(translated);
    } else {
      CompiledBreaksGaps(gaps, tokens, sourceTokens, 0);
      CompiledMeansTheSame(BrokenGaps(gaps), tokens, sourceTokens, values, 0);
    }
  }

  /**
   Through the resource file, quoted, escaped and decoded again, the meaning is preserved exactly when the
   literal text between the placeholders holds no backslash followed by the letter n.
   */
  lemma ResourcePreservesMeaning(source: string, translated: string, values: string -> string)
    requires FormatText(source, translated).Ok?
    ensures
      var raw := "\"" + EscapeAndroidResourceValue(FormatText(source, translated).value) + "\"";
      Shown(source, DecodeAndroidResourceValue(raw), values) == Some(Filled(translated, values))
      <==> forall gap <- LiteralText(translated) :: !HasPair(gap)
  {
    var gaps, tokens := LiteralText(translated), Values(Scan(translated).value);
    ScanGivesSpans(translated);
    AndroidValueRoundTrip(FormatText(source, translated).value);
    ShownBroken(source, translated, values);
    BrokenGapsTell(gaps);
    SubstitutedTellsGapsApart(BrokenGaps(gaps), gaps, tokens, values, 0);
    assert BrokenGaps(gaps)[0..] == BrokenGaps(gaps) && gaps[0..] == gaps;
  }

  lemma BrokenGapsTell(gaps: seq<string>)
    ensures forall i :: 0 <= i < |gaps| ==> |BrokenGaps(gaps)[i]| == |gaps[i]|
    ensures BrokenGaps(gaps) == gaps <==> forall gap <- gaps :: !HasPair(gap)
  {
    forall i | 0 <= i < |gaps|
      ensures |BrokenGaps(gaps)[i]| == |gaps[i]| && (BrokenGaps(gaps)[i] == gaps[i] <==> !HasPair(gaps[i]))
    {
      UnchangedWithoutPairs(gaps[i]);
      BrokenKeepsLength(gaps[i]);
    }
    if forall gap <- gaps :: !HasPair(gap) {
      assert forall i :: 0 <= i < |gaps| ==> gaps[i] in gaps;
    }
  }
}
