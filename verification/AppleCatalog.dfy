/** Regenerating the Apple string catalog: shipped values stay, the rest is chosen anew. */
module AppleCatalog {
  import opened Wrappers
  import opened Text
  import opened DistinctStrings
  import opened Sorting
  import opened TranslationChoice

  datatype StringUnit = StringUnit(state: Option<string>, value: Option<string>)

  /** Units by locale, for each source that has an entry. */
  type Strings = map<string, map<string, StringUnit>>

  /** An inventory entry, and whether this catalog includes it. */
  datatype Entry = Entry(id: string, source: string, included: bool)

  datatype Artifact = Artifact(locale: string, translations: seq<(string, string)>)

  datatype Contradiction = Contradiction(locale: string, source: string, translations: seq<string>)

  /** Everything but the existing catalog; `render` turns inflected counts into format specifiers. */
  datatype Inputs = Inputs(entries: seq<Entry>, artifacts: seq<Artifact>, locales: seq<string>, render: string -> string)

  // ----- candidates

  function EntryById(entries: seq<Entry>, id: string): Option<Entry> {
    if entries == [] then None
    else if entries[|entries| - 1].id == id then Some(entries[|entries| - 1])
    else EntryById(entries[..|entries| - 1], id)
  }

  predicate IsCatalogId(entries: seq<Entry>, id: string) {
    exists e <- entries :: e.included && e.id == id
  }

  function ArtifactFor(artifacts: seq<Artifact>, locale: string): Option<Artifact> {
    if artifacts == [] then None
    else if artifacts[|artifacts| - 1].locale == locale then Some(artifacts[|artifacts| - 1])
    else ArtifactFor(artifacts[..|artifacts| - 1], locale)
  }

  /** The source whose translation an artifact row is. */
  function RowSource(inputs: Inputs, row: (string, string)): Option<string> {
    var entry := EntryById(inputs.entries, row.0);
    if entry.None? || !IsCatalogId(inputs.entries, row.0) then None else Some(inputs.render(entry.value.source))
  }

  function RowsFor(inputs: Inputs, rows: seq<(string, string)>, source: string): seq<string> {
    if rows == [] then []
    else
      RowsFor(inputs, rows[..|rows| - 1], source)
      + if RowSource(inputs, rows[|rows| - 1]) == Some(source) then [inputs.render(rows[|rows| - 1].1)] else []
  }

  function CandidatesIn(inputs: Inputs, artifacts: seq<Artifact>, locale: string, source: string): seq<string> {
    var artifact := ArtifactFor(artifacts, locale);
    if artifact.None? then [] else RowsFor(inputs, artifact.value.translations, source)
  }

  function Candidates(inputs: Inputs, locale: string, source: string): seq<string> {
    CandidatesIn(inputs, inputs.artifacts, locale, source)
  }

  // ----- the catalog

  function CatalogSources(inputs: Inputs): set<string> {
    set e | e in inputs.entries && e.included :: inputs.render(e.source)
  }

  /** Present, not empty, and translated. */
  predicate IsShipped(unit: Option<StringUnit>) {
    unit.Some? && unit.value.value.Some? && unit.value.value.value != "" && unit.value.state == Some("translated")
  }

  function UnitIn(strings: Strings, source: string, locale: string): Option<StringUnit> {
    if source in strings && locale in strings[source] then Some(strings[source][locale]) else None
  }

  function FreshUnit(inputs: Inputs, locale: string, source: string): StringUnit {
    if locale == "en" then StringUnit(Some("translated"), Some(source))
    else
      var value := Chosen(source, Candidates(inputs, locale, source));
      StringUnit(Some(if value == source then "new" else "translated"), Some(value))
  }

  function Unit(existing: Strings, inputs: Inputs, locale: string, source: string): StringUnit {
    var unit := UnitIn(existing, source, locale);
    if IsShipped(unit) then unit.value else FreshUnit(inputs, locale, source)
  }

  function Catalog(existing: Strings, inputs: Inputs): Strings {
    map source | source in CatalogSources(inputs) ::
      map locale | locale in inputs.locales :: Unit(existing, inputs, locale, source)
  }

  function ContradictionIn(inputs: Inputs, locale: string, source: string): seq<Contradiction> {
    var distinct := SortedDistinct(Candidates(inputs, locale, source));
    if |distinct| > 1 then [Contradiction(locale, source, distinct)] else []
  }

  function ContradictionsOf(inputs: Inputs, source: string, locales: seq<string>): seq<Contradiction> {
    if locales == [] then []
    else ContradictionsOf(inputs, source, locales[..|locales| - 1]) + ContradictionIn(inputs, locales[|locales| - 1], source)
  }

  function AllContradictions(inputs: Inputs, sources: seq<string>): seq<Contradiction> {
    if sources == [] then []
    else
      AllContradictions(inputs, sources[..|sources| - 1])
      + ContradictionsOf(inputs, sources[|sources| - 1], inputs.locales)
  }

  function BySourceAndLocale(): (Contradiction, Contradiction) -> bool {
    (a: Contradiction, b: Contradiction) =>
      !Less(b.source, a.source) && (a.source == b.source ==> !Less(b.locale, a.locale))
  }

  function IncludedSources(inputs: Inputs, entries: seq<Entry>): seq<string> {
    if entries == [] then []
    else
      IncludedSources(inputs, entries[..|entries| - 1])
      + if entries[|entries| - 1].included then [inputs.render(entries[|entries| - 1].source)] else []
  }

  function SortedSources(inputs: Inputs): seq<string> {
    SortedDistinct(IncludedSources(inputs, inputs.entries))
  }

  function Contradictions(inputs: Inputs): seq<Contradiction> {
    SortBy(AllContradictions(inputs, SortedSources(inputs)), BySourceAndLocale())
  }

  /** Both results: the existing catalog has no part in the contradictions. */
  function Build(existing: Strings, inputs: Inputs): (Strings, seq<Contradiction>) {
    (Catalog(existing, inputs), Contradictions(inputs))
  }

  lemma {:induction false} IncludedSourcesAreCatalogSources(inputs: Inputs, entries: seq<Entry>)
    ensures forall x :: x in IncludedSources(inputs, entries) <==> exists e <- entries :: e.included && inputs.render(e.source) == x
  {
    if entries != [] {
      var n := |entries| - 1;
      IncludedSourcesAreCatalogSources(inputs, entries[..n]);
      assert entries == entries[..n] + [entries[n]];
      forall x
        ensures x in IncludedSources(inputs, entries) <==> exists e <- entries :: e.included && inputs.render(e.source) == x
      {
        assert entries[n] in entries;
      }
    }
  }

  function Listed(bySource: map<string, seq<string>>, source: string): seq<string> {
    if source in bySource then bySource[source] else []
  }

  ghost predicate ListsRows(bySource: map<string, seq<string>>, inputs: Inputs, rows: seq<(string, string)>) {
    forall source :: Listed(bySource, source) == RowsFor(inputs, rows, source)
  }

  lemma OneMoreRow(bySource: map<string, seq<string>>, inputs: Inputs, rows: seq<(string, string)>, row: (string, string))
    requires ListsRows(bySource, inputs, rows)
    ensures
      match RowSource(inputs, row)
      case None => ListsRows(bySource, inputs, rows + [row])
      case Some(source) =>
        ListsRows(bySource[source := Listed(bySource, source) + [inputs.render(row.1)]], inputs, rows + [row])
  {
    forall source
      ensures RowsFor(inputs, rows + [row], source)
           == RowsFor(inputs, rows, source) + if RowSource(inputs, row) == Some(source) then [inputs.render(row.1)] else []
    {
      assert (rows + [row])[..|rows|] == rows;
    }
  }

  method TranslationsBySource(inputs: Inputs, artifact: Artifact) returns (bySource: map<string, seq<string>>)
    ensures ListsRows(bySource, inputs, artifact.translations)
  {
    bySource := map[];
    var rows := artifact.translations;
    for i := 0 to |rows|
      invariant ListsRows(bySource, inputs, rows[..i])
    {
      var (id, translated) := rows[i];
      assert rows[..i + 1] == rows[..i] + [rows[i]];
      OneMoreRow(bySource, inputs, rows[..i], rows[i]);
      var entry := EntryById(inputs.entries, id);
      if entry.None? || !IsCatalogId(inputs.entries, id) {
        continue;
      }
      var source := inputs.render(entry.value.source);
      bySource := bySource[source := Listed(bySource, source) + [inputs.render(translated)]];
    }
    assert rows[..|rows|] == rows;
  }

  method TranslationsByLocale(inputs: Inputs) returns (byLocale: map<string, map<string, seq<string>>>)
    ensures forall locale, source :: LookUp(byLocale, locale, source) == Candidates(inputs, locale, source)
  {
    byLocale := map[];
    for i := 0 to |inputs.artifacts|
      invariant forall locale, source ::
          LookUp(byLocale, locale, source) == CandidatesIn(inputs, inputs.artifacts[..i], locale, source)
    {
      var artifact := inputs.artifacts[i];
      var bySource := TranslationsBySource(inputs, artifact);
      ghost var before := byLocale;
      byLocale := byLocale[artifact.locale := bySource];
      forall locale, source
        ensures LookUp(byLocale, locale, source) == CandidatesIn(inputs, inputs.artifacts[..i + 1], locale, source)
      {
        assert inputs.artifacts[..i + 1][..i] == inputs.artifacts[..i];
        assert locale != artifact.locale ==> LookUp(byLocale, locale, source) == LookUp(before, locale, source);
      }
    }
    assert inputs.artifacts[..|inputs.artifacts|] == inputs.artifacts;
  }

  /** The inner loop: one source, all locales. */
  method LocalizeSource(existing: Strings, inputs: Inputs, byLocale: map<string, map<string, seq<string>>>, source: string)
    returns (localizations: map<string, StringUnit>, contradictions: seq<Contradiction>)
    requires forall locale, source :: LookUp(byLocale, locale, source) == Candidates(inputs, locale, source)
    ensures localizations == Localizations(existing, inputs, source, inputs.locales)
    ensures contradictions == ContradictionsOf(inputs, source, inputs.locales)
  {
    localizations, contradictions := map[], [];
    for j := 0 to |inputs.locales|
      invariant contradictions == ContradictionsOf(inputs, source, inputs.locales[..j])
      invariant localizations == Localizations(existing, inputs, source, inputs.locales[..j])
    {
      var locale := inputs.locales[j];
      OneMoreLocale(existing, inputs, source, j);
      var candidates := LookUp(byLocale, locale, source);
      var distinct := SortedDistinct(candidates);
      if |distinct| > 1 {
        contradictions := contradictions + [Contradiction(locale, source, distinct)];
      }
      var existingUnit := UnitIn(existing, source, locale);
      var unit: StringUnit;
      if IsShipped(existingUnit) {
        unit := existingUnit.value;
      } else if locale == "en" {
        unit := StringUnit(Some("translated"), Some(source));
      } else {
        var value := ChooseTranslation(source, candidates);
        unit := StringUnit(Some(if value == source then "new" else "translated"), Some(value));
      }
      localizations := localizations[locale := unit];
    }
    assert inputs.locales[..|inputs.locales|] == inputs.locales;
  }

  lemma OneMoreLocale(existing: Strings, inputs: Inputs, source: string, j: nat)
    requires j < |inputs.locales|
    ensures
      var before, locale := inputs.locales[..j], inputs.locales[j];
      && Localizations(existing, inputs, source, inputs.locales[..j + 1])
         == Localizations(existing, inputs, source, before)[locale := Unit(existing, inputs, locale, source)]
      && ContradictionsOf(inputs, source, inputs.locales[..j + 1])
         == ContradictionsOf(inputs, source, before) + ContradictionIn(inputs, locale, source)
  {
    assert inputs.locales[..j + 1] == inputs.locales[..j] + [inputs.locales[j]];
  }

  /** A unit with a value, marked as translated. */
  ghost predicate HoldsTranslation(unit: Option<StringUnit>) {
    exists value: string :: value != "" && unit == Some(StringUnit(Some("translated"), Some(value)))
  }

  /** A translation that was there stays; else English is the source, and other locales get the winning candidate. */
  ghost predicate IsRightUnit(
    unit: StringUnit, existing: Option<StringUnit>, locale: string, source: string, candidates: seq<string>)
  {
    if HoldsTranslation(existing) then existing == Some(unit)
    else if locale == "en" then unit == StringUnit(Some("translated"), Some(source))
    else
      && unit.value.Some?
      && (if candidates == [] then unit.value.value == source
          else IsWinner(source, multiset(candidates), unit.value.value))
      && unit.state == Some(if unit.value.value != source then "translated" else "new")
  }

  lemma UnitIsRight(existing: Strings, inputs: Inputs, locale: string, source: string)
    ensures IsRightUnit(Unit(existing, inputs, locale, source), UnitIn(existing, source, locale), locale, source,
                        Candidates(inputs, locale, source))
  {
    var unit, candidates := UnitIn(existing, source, locale), Candidates(inputs, locale, source);
    assert IsShipped(unit) ==> unit == Some(StringUnit(Some("translated"), Some(unit.value.value.value)));
    if candidates != [] {
      ChosenIsWinner(source, candidates);
    } else {
      assert Chosen(source, candidates) == source;
    }
  }

  /** All included sources, all locales, and the right unit for each. */
  ghost predicate IsRightCatalog(strings: Strings, existing: Strings, inputs: Inputs) {
    && (forall source :: source in strings <==> exists e <- inputs.entries :: e.included && inputs.render(e.source) == source)
    && (forall source <- strings, locale :: locale in strings[source] <==> locale in inputs.locales)
    && (forall source <- strings, locale <- strings[source] ::
          IsRightUnit(strings[source][locale], UnitIn(existing, source, locale), locale, source,
                      Candidates(inputs, locale, source)))
  }

  lemma CatalogIsRight(existing: Strings, inputs: Inputs)
    ensures IsRightCatalog(Catalog(existing, inputs), existing, inputs)
  {
    var strings := Catalog(existing, inputs);
    forall source <- strings, locale <- strings[source]
      ensures IsRightUnit(strings[source][locale], UnitIn(existing, source, locale), locale, source,
                          Candidates(inputs, locale, source))
    {
      UnitIsRight(existing, inputs, locale, source);
    }
  }

  method BuildAppleCatalog(existing: Strings, inputs: Inputs)
    returns (strings: Strings, contradictions: seq<Contradiction>)
    ensures strings == Build(existing, inputs).0
    ensures contradictions == Build(existing, inputs).1
    ensures IsRightCatalog(strings, existing, inputs)
  {
    var byLocale := TranslationsByLocale(inputs);
    var sources := SortedSources(inputs);
    strings, contradictions := map[], [];
    for i := 0 to |sources|
      invariant contradictions == AllContradictions(inputs, sources[..i])
      invariant strings.Keys == set source | source in sources[..i]
      invariant forall source <- strings :: strings[source] == Localizations(existing, inputs, source, inputs.locales)
    {
      assert sources[..i + 1] == sources[..i] + [sources[i]];
      var localizations, found := LocalizeSource(existing, inputs, byLocale, sources[i]);
      contradictions := contradictions + found;
      strings := strings[sources[i] := localizations];
    }
    assert sources[..|sources|] == sources;
    SourcesAreCatalogSources(inputs);
    contradictions := SortBy(contradictions, BySourceAndLocale());
    CatalogIsRight(existing, inputs);
  }

  function LookUp(byLocale: map<string, map<string, seq<string>>>, locale: string, source: string): seq<string> {
    if locale in byLocale && source in byLocale[locale] then byLocale[locale][source] else []
  }

  function Localizations(existing: Strings, inputs: Inputs, source: string, locales: seq<string>): map<string, StringUnit> {
    map locale | locale in locales :: Unit(existing, inputs, locale, source)
  }

  lemma SourcesAreCatalogSources(inputs: Inputs)
    ensures forall x :: x in SortedSources(inputs) <==> x in CatalogSources(inputs)
  {
    IncludedSourcesAreCatalogSources(inputs, inputs.entries);
    SortedDistinctKeepsValues(IncludedSources(inputs, inputs.entries));
  }

  // ----- regenerating

  lemma UnitInCatalog(existing: Strings, inputs: Inputs, locale: string, source: string)
    requires source in CatalogSources(inputs) && locale in inputs.locales
    ensures UnitIn(Catalog(existing, inputs), source, locale) == Some(Unit(existing, inputs, locale, source))
  {
    assert Catalog(existing, inputs)[source][locale] == Unit(existing, inputs, locale, source);
  }

  /** Feeding a generated catalog back changes nothing, from whatever catalog the first run started. */
  lemma RegenerationIsIdempotent(existing: Strings, inputs: Inputs)
    ensures Build(Build(existing, inputs).0, inputs) == Build(existing, inputs)
  {
    var once := Catalog(existing, inputs);
    forall source | source in CatalogSources(inputs)
      ensures Localizations(once, inputs, source, inputs.locales) == Localizations(existing, inputs, source, inputs.locales)
    {
      forall locale | locale in inputs.locales
        ensures Unit(once, inputs, locale, source) == Unit(existing, inputs, locale, source)
      {
        UnitInCatalog(existing, inputs, locale, source);
      }
    }
    assert Catalog(once, inputs) == once;
  }

  /**
   Only shipped units carry over: two existing catalogs that agree on them are regenerated alike, and a
   shipped unit is in the result whatever the artifacts say.
   */
  lemma OnlyShippedUnitsCarryOver(a: Strings, b: Strings, inputs: Inputs)
    requires forall source <- CatalogSources(inputs), locale <- inputs.locales ::
      var unit, other := UnitIn(a, source, locale), UnitIn(b, source, locale);
      IsShipped(unit) || IsShipped(other) ==> unit == other
    ensures Catalog(a, inputs) == Catalog(b, inputs)
  {
    forall source | source in CatalogSources(inputs)
      ensures Localizations(a, inputs, source, inputs.locales) == Localizations(b, inputs, source, inputs.locales)
    {
      forall locale | locale in inputs.locales
        ensures Unit(a, inputs, locale, source) == Unit(b, inputs, locale, source)
      {
        var unit, other := UnitIn(a, source, locale), UnitIn(b, source, locale);
      }
    }
  }

  /** New artifacts for the same inventory change only units that were not shipped. */
  lemma LaterArtifactsKeepShippedUnits(existing: Strings, inputs: Inputs, later: Inputs, source: string, locale: string)
    requires later.entries == inputs.entries && later.render == inputs.render && later.locales == inputs.locales
    requires source in CatalogSources(inputs) && locale in inputs.locales
    ensures
      var once := UnitIn(Catalog(existing, inputs), source, locale);
      var twice := UnitIn(Catalog(Catalog(existing, inputs), later), source, locale);
      twice == if IsShipped(once) then once else Some(FreshUnit(later, locale, source))
  {
    UnitInCatalog(existing, inputs, locale, source);
    assert CatalogSources(later) == CatalogSources(inputs);
    UnitInCatalog(Catalog(existing, inputs), later, locale, source);
  }
}
