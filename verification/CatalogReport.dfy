/** Which contradictions the regenerated Apple catalog comes with, and that the order of its inputs does not matter. */
module CatalogReport {
  import opened Wrappers
  import opened Text
  import opened Sorting
  import opened DistinctStrings
  import opened TranslationChoice
  import opened AppleCatalog

  // ----- what the candidates are

  predicate IsLastEntry(entries: seq<Entry>, k: nat)
    requires k < |entries|
  {
    forall j :: k < j < |entries| ==> entries[j].id != entries[k].id
  }

  predicate IsLastArtifact(artifacts: seq<Artifact>, k: nat)
    requires k < |artifacts|
  {
    forall j :: k < j < |artifacts| ==> artifacts[j].locale != artifacts[k].locale
  }

  /** The row translates the source: its id is that of an included entry, and the last entry with it has the source. */
  predicate Translates(inputs: Inputs, row: (string, string), source: string) {
    && (exists e <- inputs.entries :: e.included && e.id == row.0)
    && (exists k :: 0 <= k < |inputs.entries| && IsLastEntry(inputs.entries, k)
                    && inputs.entries[k].id == row.0 && inputs.render(inputs.entries[k].source) == source)
  }

  lemma {:induction false} EntryByIdIsLast(entries: seq<Entry>, id: string, k: nat)
    requires k < |entries| && IsLastEntry(entries, k) && entries[k].id == id
    ensures EntryById(entries, id) == Some(entries[k])
  {
    var n := |entries| - 1;
    if k < n {
      assert entries[n].id != entries[k].id;
      EntryByIdIsLast(entries[..n], id, k);
    }
  }

  lemma {:induction false} EntryByIdFinds(entries: seq<Entry>, id: string) returns (k: nat)
    requires EntryById(entries, id).Some?
    ensures k < |entries| && IsLastEntry(entries, k) && entries[k].id == id
  {
    var n := |entries| - 1;
    if entries[n].id == id {
      k := n;
    } else {
      k := EntryByIdFinds(entries[..n], id);
    }
  }

  lemma RowSourceMeans(inputs: Inputs, row: (string, string), source: string)
    ensures RowSource(inputs, row) == Some(source) <==> Translates(inputs, row, source)
  {
    if EntryById(inputs.entries, row.0).Some? {
      var k := EntryByIdFinds(inputs.entries, row.0);
      EntryByIdIsLast(inputs.entries, row.0, k);
    }
    if k :| 0 <= k < |inputs.entries| && IsLastEntry(inputs.entries, k)
            && inputs.entries[k].id == row.0 && inputs.render(inputs.entries[k].source) == source {
      EntryByIdIsLast(inputs.entries, row.0, k);
    }
  }

  predicate RowGives(inputs: Inputs, row: (string, string), source: string, x: string) {
    RowSource(inputs, row) == Some(source) && inputs.render(row.1) == x
  }

  lemma {:induction false} RowsForAre(inputs: Inputs, rows: seq<(string, string)>, source: string, x: string)
    ensures x in RowsFor(inputs, rows, source) <==> exists r :: 0 <= r < |rows| && RowGives(inputs, rows[r], source, x)
  {
    if rows != [] {
      var n := |rows| - 1;
      RowsForAre(inputs, rows[..n], source, x);
      assert x in RowsFor(inputs, rows, source)
             <==> x in RowsFor(inputs, rows[..n], source) || RowGives(inputs, rows[n], source, x);
    }
  }

  lemma {:induction false} ArtifactForIsLast(artifacts: seq<Artifact>, k: nat)
    requires k < |artifacts| && IsLastArtifact(artifacts, k)
    ensures ArtifactFor(artifacts, artifacts[k].locale) == Some(artifacts[k])
  {
    var n := |artifacts| - 1;
    if k < n {
      assert artifacts[n].locale != artifacts[k].locale;
      ArtifactForIsLast(artifacts[..n], k);
    }
  }

  lemma {:induction false} LastArtifactExists(artifacts: seq<Artifact>, locale: string) returns (k: nat)
    requires ArtifactFor(artifacts, locale).Some?
    ensures k < |artifacts| && IsLastArtifact(artifacts, k) && artifacts[k].locale == locale
  {
    var n := |artifacts| - 1;
    if artifacts[n].locale == locale {
      k := n;
    } else {
      k := LastArtifactExists(artifacts[..n], locale);
    }
  }

  /** Row `r` of the last artifact for the locale translates the source into `x`. */
  predicate IsTranslationAt(inputs: Inputs, k: nat, r: nat, locale: string, source: string, x: string)
    requires k < |inputs.artifacts| && r < |inputs.artifacts[k].translations|
  {
    var row := inputs.artifacts[k].translations[r];
    && IsLastArtifact(inputs.artifacts, k) && inputs.artifacts[k].locale == locale
    && Translates(inputs, row, source) && inputs.render(row.1) == x
  }

  /** The candidates are exactly the translations of the source in the last artifact for the locale. */
  lemma CandidatesAreTranslations(inputs: Inputs, locale: string, source: string, x: string)
    ensures x in Candidates(inputs, locale, source)
            <==> exists k, r :: 0 <= k < |inputs.artifacts| && 0 <= r < |inputs.artifacts[k].translations|
                                && IsTranslationAt(inputs, k, r, locale, source, x)
  {
    if ArtifactFor(inputs.artifacts, locale).Some? {
      var k := LastArtifactExists(inputs.artifacts, locale);
      ArtifactForIsLast(inputs.artifacts, k);
      var rows := inputs.artifacts[k].translations;
      RowsForAre(inputs, rows, source, x);
      if r :| 0 <= r < |rows| && RowGives(inputs, rows[r], source, x) {
        RowSourceMeans(inputs, rows[r], source);
        assert IsTranslationAt(inputs, k, r, locale, source, x);
      }
    }
    if k, r :| 0 <= k < |inputs.artifacts| && 0 <= r < |inputs.artifacts[k].translations|
               && IsTranslationAt(inputs, k, r, locale, source, x) {
      ArtifactForIsLast(inputs.artifacts, k);
      RowSourceMeans(inputs, inputs.artifacts[k].translations[r], source);
      RowsForAre(inputs, inputs.artifacts[k].translations, source, x);
    }
  }

  // ----- what is reported

  /** A source and a locale with more than one candidate, and all its candidates, sorted and each once. */
  predicate IsContradiction(inputs: Inputs, c: Contradiction) {
    var candidates := Candidates(inputs, c.locale, c.source);
    && c.source in CatalogSources(inputs) && c.locale in inputs.locales
    && |c.translations| > 1 && IsStrictlySorted(c.translations)
    && (forall x <- c.translations :: x in candidates)
    && (forall x <- candidates :: x in c.translations)
  }

  lemma IsTheContradictionOf(inputs: Inputs, c: Contradiction)
    ensures IsContradiction(inputs, c) <==>
            && c.source in CatalogSources(inputs) && c.locale in inputs.locales
            && [c] == ContradictionIn(inputs, c.locale, c.source)
  {
    var candidates := Candidates(inputs, c.locale, c.source);
    SortedDistinctKeepsValues(candidates);
    SortedDistinctIsStrict(candidates);
    if IsContradiction(inputs, c) {
      StrictlySortedIsUnique(c.translations, SortedDistinct(candidates));
    }
  }

  lemma {:induction false} CollectedForLocales(inputs: Inputs, source: string, locales: seq<string>, c: Contradiction)
    ensures c in ContradictionsOf(inputs, source, locales)
            <==> c.source == source && c.locale in locales && [c] == ContradictionIn(inputs, c.locale, source)
  {
    if locales != [] {
      var n := |locales| - 1;
      CollectedForLocales(inputs, source, locales[..n], c);
      assert locales == locales[..n] + [locales[n]];
    }
  }

  lemma {:induction false} CollectedForSources(inputs: Inputs, sources: seq<string>, c: Contradiction)
    ensures c in AllContradictions(inputs, sources)
            <==> c.source in sources && c.locale in inputs.locales && [c] == ContradictionIn(inputs, c.locale, c.source)
  {
    if sources != [] {
      var n := |sources| - 1;
      CollectedForSources(inputs, sources[..n], c);
      CollectedForLocales(inputs, sources[n], inputs.locales, c);
      assert c in AllContradictions(inputs, sources)
             <==> c in AllContradictions(inputs, sources[..n]) || c in ContradictionsOf(inputs, sources[n], inputs.locales);
      assert c.source in sources <==> c.source in sources[..n] || c.source == sources[n];
    }
  }

  lemma AtMostOnce<T>(a: seq<T>, b: seq<T>, x: T)
    requires multiset(a)[x] <= 1 && multiset(b)[x] <= 1 && !(x in a && x in b)
    ensures multiset(a + b)[x] <= 1
  {
  }

  lemma {:induction false} OncePerLocale(inputs: Inputs, source: string, locales: seq<string>, c: Contradiction)
    requires HasNoRepetition(locales)
    ensures multiset(ContradictionsOf(inputs, source, locales))[c] <= 1
  {
    if locales != [] {
      var n := |locales| - 1;
      OncePerLocale(inputs, source, locales[..n], c);
      CollectedForLocales(inputs, source, locales[..n], c);
      AtMostOnce(ContradictionsOf(inputs, source, locales[..n]), ContradictionIn(inputs, locales[n], source), c);
    }
  }

  lemma {:induction false} OncePerSource(inputs: Inputs, sources: seq<string>, c: Contradiction)
    requires HasNoRepetition(sources) && HasNoRepetition(inputs.locales)
    ensures multiset(AllContradictions(inputs, sources))[c] <= 1
  {
    if sources != [] {
      var n := |sources| - 1;
      OncePerSource(inputs, sources[..n], c);
      OncePerLocale(inputs, sources[n], inputs.locales, c);
      CollectedForSources(inputs, sources[..n], c);
      CollectedForLocales(inputs, sources[n], inputs.locales, c);
      AtMostOnce(AllContradictions(inputs, sources[..n]), ContradictionsOf(inputs, sources[n], inputs.locales), c);
    }
  }

  predicate ComesBefore(a: Contradiction, b: Contradiction) {
    Less(a.source, b.source) || (a.source == b.source && Less(a.locale, b.locale))
  }

  lemma ReportOrderIsTotal()
    ensures IsTotalPreorder(BySourceAndLocale())
  {
    forall a: string, b: string
      ensures !Less(a, b) || !Less(b, a)
      ensures a == b || Less(a, b) || Less(b, a)
    {
      LessIsStrictTotal(a, b);
    }
    forall a: string, b: string, c: string | Less(a, b) && Less(b, c)
      ensures Less(a, c)
    {
      LessIsTransitive(a, b, c);
    }
  }

  /**
   Exactly the contradictions are reported; with distinct locales the report is strictly sorted by source and
   locale, so each of them is reported once.
   */
  lemma ContradictionsAreReported(inputs: Inputs)
    ensures forall c :: c in Contradictions(inputs) <==> IsContradiction(inputs, c)
    ensures HasNoRepetition(inputs.locales) ==>
              forall i, j :: 0 <= i < j < |Contradictions(inputs)| ==>
                ComesBefore(Contradictions(inputs)[i], Contradictions(inputs)[j])
  {
    var all, report := AllContradictions(inputs, SortedSources(inputs)), Contradictions(inputs);
    SortByIsSorted(all, BySourceAndLocale());
    ReportOrderIsTotal();
    SourcesAreCatalogSources(inputs);
    forall c
      ensures c in report <==> IsContradiction(inputs, c)
      ensures HasNoRepetition(inputs.locales) ==> multiset(report)[c] <= 1
    {
      assert c in report <==> c in multiset(report);
      assert c in all <==> c in multiset(all);
      CollectedForSources(inputs, SortedSources(inputs), c);
      IsTheContradictionOf(inputs, c);
      if HasNoRepetition(inputs.locales) {
        SourcesHaveNoRepetition(inputs);
        OncePerSource(inputs, SortedSources(inputs), c);
      }
    }
    if HasNoRepetition(inputs.locales) {
      NoRepetitionMeansOnce(report);
      forall i, j | 0 <= i < j < |report|
        ensures ComesBefore(report[i], report[j])
      {
        InOrder(inputs, report[i], report[j]);
      }
    }
  }

  lemma SourcesHaveNoRepetition(inputs: Inputs)
    ensures HasNoRepetition(SortedSources(inputs))
  {
    var sources := SortedSources(inputs);
    SortedDistinctIsStrict(IncludedSources(inputs, inputs.entries));
    forall i, j | 0 <= i < j < |sources|
      ensures sources[i] != sources[j]
    {
      LessIsStrictTotal(sources[i], sources[j]);
    }
  }

  lemma InOrder(inputs: Inputs, a: Contradiction, b: Contradiction)
    requires IsContradiction(inputs, a) && IsContradiction(inputs, b) && a != b && BySourceAndLocale()(a, b)
    ensures ComesBefore(a, b)
  {
    IsTheContradictionOf(inputs, a);
    IsTheContradictionOf(inputs, b);
    LessIsStrictTotal(a.source, b.source);
    LessIsStrictTotal(a.locale, b.locale);
  }

  /** Something is reported for a source and a locale exactly when their candidates are not all the same. */
  lemma ConflictsAreReported(inputs: Inputs, source: string, locale: string)
    requires source in CatalogSources(inputs) && locale in inputs.locales
    ensures (exists c <- Contradictions(inputs) :: c.source == source && c.locale == locale)
            <==> exists x <- Candidates(inputs, locale, source), y <- Candidates(inputs, locale, source) :: x != y
  {
    var candidates := Candidates(inputs, locale, source);
    var c := Contradiction(locale, source, SortedDistinct(candidates));
    ContradictionsAreReported(inputs);
    ConflictMeansTwo(candidates);
    IsTheContradictionOf(inputs, c);
    forall other <- Contradictions(inputs) | other.source == source && other.locale == locale
      ensures other == c
    {
      IsTheContradictionOf(inputs, other);
    }
    assert c.source == source && c.locale == locale;
  }

  lemma ConflictMeansTwo(values: seq<string>)
    ensures |SortedDistinct(values)| > 1 <==> exists x <- values, y <- values :: x != y
  {
    SortedDistinctKeepsValues(values);
    DistinctKeepsValues(values);
    var distinct := Distinct(values);
    if |distinct| > 1 {
      assert distinct[0] in values && distinct[1] in values && distinct[0] != distinct[1];
    }
    if x, y :| x in values && y in values && x != y {
      assert x in distinct && y in distinct;
      var i :| 0 <= i < |distinct| && distinct[i] == x;
      var j :| 0 <= j < |distinct| && distinct[j] == y;
    }
  }

  // ----- the order of artifacts, and of their rows

  predicate HasSameRows(x: Artifact, y: Artifact) {
    x.locale == y.locale && multiset(x.translations) == multiset(y.translations)
  }

  predicate HaveDistinctLocales(artifacts: seq<Artifact>) {
    forall i, j :: 0 <= i < j < |artifacts| ==> artifacts[i].locale != artifacts[j].locale
  }

  predicate HasPartner(x: Artifact, artifacts: seq<Artifact>) {
    exists y <- artifacts :: HasSameRows(x, y)
  }

  predicate HavePartners(a: seq<Artifact>, b: seq<Artifact>) {
    forall x <- a :: HasPartner(x, b)
  }

  /** The same artifacts for distinct locales in another order, with their rows in another order. */
  predicate IsReordering(a: seq<Artifact>, b: seq<Artifact>) {
    HaveDistinctLocales(a) && HaveDistinctLocales(b) && HavePartners(a, b) && HavePartners(b, a)
  }

  lemma {:induction false} ArtifactForFinds(artifacts: seq<Artifact>, locale: string)
    ensures ArtifactFor(artifacts, locale).None? ==> forall x <- artifacts :: x.locale != locale
    ensures ArtifactFor(artifacts, locale).Some? ==>
              ArtifactFor(artifacts, locale).value in artifacts && ArtifactFor(artifacts, locale).value.locale == locale
  {
    if artifacts != [] {
      var n := |artifacts| - 1;
      ArtifactForFinds(artifacts[..n], locale);
      assert artifacts == artifacts[..n] + [artifacts[n]];
    }
  }

  lemma ArtifactForIs(artifacts: seq<Artifact>, x: Artifact)
    requires HaveDistinctLocales(artifacts) && x in artifacts
    ensures ArtifactFor(artifacts, x.locale) == Some(x)
  {
    ArtifactForFinds(artifacts, x.locale);
    var i :| 0 <= i < |artifacts| && artifacts[i] == x;
    var j :| 0 <= j < |artifacts| && Some(artifacts[j]) == ArtifactFor(artifacts, x.locale);
  }

  lemma {:induction false} RowsForConcat(inputs: Inputs, a: seq<(string, string)>, b: seq<(string, string)>, source: string)
    ensures RowsFor(inputs, a + b, source) == RowsFor(inputs, a, source) + RowsFor(inputs, b, source)
  {
    if b == [] {
      assert a + b == a;
    } else {
      var n := |b| - 1;
      RowsForConcat(inputs, a, b[..n], source);
      assert (a + b)[..|a + b| - 1] == a + b[..n];
    }
  }

  function RemoveAt<T>(s: seq<T>, i: nat): seq<T>
    requires i < |s|
  {
    s[..i] + s[i + 1..]
  }

  lemma RemovedOnce<T>(s: seq<T>, i: nat)
    requires i < |s|
    ensures multiset(RemoveAt(s, i)) == multiset(s) - multiset{s[i]}
  {
    assert s == s[..i] + [s[i]] + s[i + 1..];
  }

  lemma RowsForRemoved(inputs: Inputs, rows: seq<(string, string)>, i: nat, source: string)
    requires i < |rows|
    ensures multiset(RowsFor(inputs, rows, source))
         == multiset(RowsFor(inputs, RemoveAt(rows, i), source)) + multiset(RowsFor(inputs, [rows[i]], source))
  {
    var before, row, after := rows[..i], [rows[i]], rows[i + 1..];
    RowsForConcat(inputs, before, row, source);
    RowsForConcat(inputs, before + row, after, source);
    RowsForConcat(inputs, before, after, source);
    assert rows == before + row + after;
  }

  lemma {:induction false} RowsForIgnoresOrder(inputs: Inputs, a: seq<(string, string)>, b: seq<(string, string)>, source: string)
    requires multiset(a) == multiset(b)
    ensures multiset(RowsFor(inputs, a, source)) == multiset(RowsFor(inputs, b, source))
    decreases |a|
  {
    assert |multiset(a)| == |a| && |multiset(b)| == |b|;
    if a != [] {
      assert a[0] in multiset(b);
      var i :| 0 <= i < |b| && b[i] == a[0];
      RemovedOnce(a, 0);
      RemovedOnce(b, i);
      RowsForIgnoresOrder(inputs, RemoveAt(a, 0), RemoveAt(b, i), source);
      RowsForRemoved(inputs, a, 0, source);
      RowsForRemoved(inputs, b, i, source);
    }
  }

  lemma PartnerIsFound(x: Artifact, artifacts: seq<Artifact>)
    requires HaveDistinctLocales(artifacts) && HasPartner(x, artifacts)
    ensures ArtifactFor(artifacts, x.locale).Some? && HasSameRows(x, ArtifactFor(artifacts, x.locale).value)
  {
    var y :| y in artifacts && HasSameRows(x, y);
    ArtifactForIs(artifacts, y);
  }

  lemma ArtifactsCorrespond(a: seq<Artifact>, b: seq<Artifact>, locale: string)
    requires IsReordering(a, b)
    ensures
      var x, y := ArtifactFor(a, locale), ArtifactFor(b, locale);
      if x.Some? then y.Some? && HasSameRows(x.value, y.value) else y.None?
  {
    var x, y := ArtifactFor(a, locale), ArtifactFor(b, locale);
    ArtifactForFinds(a, locale);
    ArtifactForFinds(b, locale);
    if x.Some? {
      assert HasPartner(x.value, b);
      PartnerIsFound(x.value, b);
    } else if y.Some? {
      assert HasPartner(y.value, a);
      PartnerIsFound(y.value, a);
    }
  }

  lemma CandidatesIgnoreOrder(a: Inputs, b: Inputs, locale: string, source: string)
    requires b == a.(artifacts := b.artifacts) && IsReordering(a.artifacts, b.artifacts)
    ensures multiset(Candidates(a, locale, source)) == multiset(Candidates(b, locale, source))
  {
    var x, y := ArtifactFor(a.artifacts, locale), ArtifactFor(b.artifacts, locale);
    ArtifactsCorrespond(a.artifacts, b.artifacts, locale);
    if x.Some? {
      RowsForIgnoresOrder(a, x.value.translations, y.value.translations, source);
      SameRowsFor(a, b, y.value.translations, source);
    }
  }

  lemma {:induction false} SameRowsFor(a: Inputs, b: Inputs, rows: seq<(string, string)>, source: string)
    requires b == a.(artifacts := b.artifacts)
    ensures RowsFor(a, rows, source) == RowsFor(b, rows, source)
  {
    if rows != [] {
      SameRowsFor(a, b, rows[..|rows| - 1], source);
    }
  }

  lemma SameCatalog(existing: Strings, a: Inputs, b: Inputs)
    requires b == a.(artifacts := b.artifacts)
    requires forall locale, source :: FreshUnit(a, locale, source) == FreshUnit(b, locale, source)
    ensures Catalog(existing, a) == Catalog(existing, b)
  {
    forall source | source in CatalogSources(a)
      ensures Localizations(existing, a, source, a.locales) == Localizations(existing, b, source, b.locales)
    {
    }
  }

  /** The catalog and the contradictions stay the same when artifacts and their rows come in another order. */
  lemma ArtifactOrderIsIrrelevant(existing: Strings, a: Inputs, b: Inputs)
    requires b == a.(artifacts := b.artifacts) && IsReordering(a.artifacts, b.artifacts)
    ensures Build(existing, a) == Build(existing, b)
  {
    forall locale, source
      ensures FreshUnit(a, locale, source) == FreshUnit(b, locale, source)
      ensures ContradictionIn(a, locale, source) == ContradictionIn(b, locale, source)
    {
      OneUnitIgnoresOrder(a, b, locale, source);
    }
    SameCatalog(existing, a, b);
    SameSources(a, b, a.entries);
    SameContradictions(a, b, SortedSources(a));
  }

  lemma OneUnitIgnoresOrder(a: Inputs, b: Inputs, locale: string, source: string)
    requires b == a.(artifacts := b.artifacts) && IsReordering(a.artifacts, b.artifacts)
    ensures FreshUnit(a, locale, source) == FreshUnit(b, locale, source)
    ensures ContradictionIn(a, locale, source) == ContradictionIn(b, locale, source)
  {
    var x, y := Candidates(a, locale, source), Candidates(b, locale, source);
    CandidatesIgnoreOrder(a, b, locale, source);
    ChoiceIgnoresOrder(source, x, y);
    assert forall s :: s in x <==> s in multiset(x);
    assert forall s :: s in y <==> s in multiset(y);
    SortedDistinctIsOfSet(x, y);
  }

  lemma {:induction false} SameSources(a: Inputs, b: Inputs, entries: seq<Entry>)
    requires b == a.(artifacts := b.artifacts)
    ensures IncludedSources(a, entries) == IncludedSources(b, entries)
  {
    if entries != [] {
      SameSources(a, b, entries[..|entries| - 1]);
    }
  }

  lemma {:induction false} SameContradictionsOf(a: Inputs, b: Inputs, source: string, locales: seq<string>)
    requires forall locale, source :: ContradictionIn(a, locale, source) == ContradictionIn(b, locale, source)
    ensures ContradictionsOf(a, source, locales) == ContradictionsOf(b, source, locales)
  {
    if locales != [] {
      SameContradictionsOf(a, b, source, locales[..|locales| - 1]);
    }
  }

  lemma {:induction false} SameContradictions(a: Inputs, b: Inputs, sources: seq<string>)
    requires a.locales == b.locales
    requires forall locale, source :: ContradictionIn(a, locale, source) == ContradictionIn(b, locale, source)
    ensures AllContradictions(a, sources) == AllContradictions(b, sources)
  {
    if sources != [] {
      SameContradictions(a, b, sources[..|sources| - 1]);
      SameContradictionsOf(a, b, sources[|sources| - 1], a.locales);
    }
  }
}
