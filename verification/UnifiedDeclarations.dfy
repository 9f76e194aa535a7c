/** How the entries of the unified build are divided over the eight declaration graphs. */
module UnifiedDeclarations {
  import opened Wrappers
  import opened Sorting
  import opened DistinctStrings
  import opened DeclarationPartitions

  datatype Entry = Entry(name: string, source: string)

  const DTS_CONFIG_GROUPS: seq<string> := [
    "openclaw-dts-base", "openclaw-dts-plugin-sdk-1", "openclaw-dts-plugin-sdk-2", "openclaw-dts-extensions-1",
    "openclaw-dts-extensions-2", "openclaw-dts-extensions-3", "openclaw-dts-extensions-4", "openclaw-dts-extensions-5"]

  const EXTENSION_PARTITIONS: nat := 5

  predicate IsPluginSdk(e: Entry) {
    "plugin-sdk/" <= e.name
  }

  predicate IsExtension(e: Entry) {
    "extensions/" <= e.name
  }

  function UpToSlash(s: string): string {
    if s == "" || s[0] == '/' then "" else [s[0]] + UpToSlash(s[1..])
  }

  /** The path segment after `extensions/`. */
  function ExtensionId(e: Entry): string
    requires IsExtension(e)
  {
    UpToSlash(e.name[|"extensions/"|..])
  }

  /** An entry directly under `extensions/`, without an id, is skipped by the grouping loop. */
  predicate IsPlaced(e: Entry) {
    IsExtension(e) ==> ExtensionId(e) != ""
  }

  datatype Filter = Base | PluginSdk(publicNames: set<string>, isPublic: bool) | Extension(id: string) | Placed

  predicate Passes(e: Entry, filter: Filter) {
    match filter
    case Base => !IsPluginSdk(e) && !IsExtension(e)
    case PluginSdk(publicNames, isPublic) => IsPluginSdk(e) && (e.name in publicNames) == isPublic
    case Extension(id) => IsExtension(e) && IsPlaced(e) && ExtensionId(e) == id
    case Placed => IsPlaced(e)
  }

  function Where(s: seq<Entry>, filter: Filter): seq<Entry> {
    if s == [] then []
    else Where(s[..|s| - 1], filter) + if Passes(s[|s| - 1], filter) then [s[|s| - 1]] else []
  }

  lemma {:induction false} WhereCounts(s: seq<Entry>, filter: Filter, e: Entry)
    ensures multiset(Where(s, filter))[e] == if Passes(e, filter) then multiset(s)[e] else 0
  {
    if s != [] {
      WhereCounts(s[..|s| - 1], filter, e);
      assert s == s[..|s| - 1] + [s[|s| - 1]];
    }
  }

  function Ids(s: seq<Entry>): set<string> {
    set e | e in s && IsExtension(e) && IsPlaced(e) :: ExtensionId(e)
  }

  /** The ids in the order `localeCompare` puts them in, whatever that order is. */
  predicate IsIdOrder(sorted: seq<Entry>, order: seq<string>) {
    && (forall i, j :: 0 <= i < j < |order| ==> order[i] != order[j])
    && (forall id <- order :: id in Ids(sorted))
    && (forall id <- Ids(sorted) :: id in order)
  }

  function ExtensionGroups(sorted: seq<Entry>, order: seq<string>): seq<seq<Entry>> {
    seq(|order|, i requires 0 <= i < |order| => Where(sorted, Extension(order[i])))
  }

  /** The base graph, the two plugin SDK graphs, and the five graphs the extensions are spread over. */
  function Partitions(sorted: seq<Entry>, publicNames: set<string>, order: seq<string>): seq<seq<Entry>> {
    FixedGraphs(sorted, publicNames) + GreedyShares(ExtensionGroups(sorted, order), EXTENSION_PARTITIONS)
  }

  function FixedGraphs(sorted: seq<Entry>, publicNames: set<string>): seq<seq<Entry>> {
    [Where(sorted, Base), Where(sorted, PluginSdk(publicNames, true)), Where(sorted, PluginSdk(publicNames, false))]
  }

  /** The ids in the order in which they first occur: the order of the map's keys. */
  function IdsOf(s: seq<Entry>): seq<string> {
    if s == [] then []
    else
      var last := s[|s| - 1];
      IdsOf(s[..|s| - 1]) + if IsExtension(last) && IsPlaced(last) then [ExtensionId(last)] else []
  }

  lemma {:induction false} IdsOfAreIds(s: seq<Entry>)
    ensures forall id :: id in IdsOf(s) <==> id in Ids(s)
  {
    if s != [] {
      var n := |s| - 1;
      IdsOfAreIds(s[..n]);
      assert forall e :: e in s <==> e in s[..n] || e == s[n];
    }
  }

  lemma IdsGrow(s: seq<Entry>, i: nat)
    requires i < |s|
    ensures Ids(s[..i + 1]) == Ids(s[..i]) + if IsExtension(s[i]) && IsPlaced(s[i]) then {ExtensionId(s[i])} else {}
  {
    assert forall e :: e in s[..i + 1] <==> e in s[..i] || e == s[i];
  }

  lemma KeysGrow(s: seq<Entry>, i: nat)
    requires i < |s|
    ensures Distinct(IdsOf(s[..i + 1])) == Distinct(IdsOf(s[..i]))
              + if IsExtension(s[i]) && IsPlaced(s[i]) && ExtensionId(s[i]) !in Ids(s[..i]) then [ExtensionId(s[i])] else []
  {
    assert s[..i + 1][..i] == s[..i];
    IdsOfAreIds(s[..i]);
    if IsExtension(s[i]) && IsPlaced(s[i]) {
      DistinctOfLast(IdsOf(s[..i]), ExtensionId(s[i]));
    } else {
      assert IdsOf(s[..i]) + [] == IdsOf(s[..i]);
    }
  }

  function Listed(byId: map<string, seq<Entry>>, id: string): seq<Entry> {
    if id in byId then byId[id] else []
  }

  /** One list per id, with the id's entries in order. */
  ghost predicate IsGrouping(byId: map<string, seq<Entry>>, s: seq<Entry>) {
    byId.Keys == Ids(s) && forall id :: Listed(byId, id) == Where(s, Extension(id))
  }

  lemma WhereGrows(s: seq<Entry>, i: nat, filter: Filter)
    requires i < |s|
    ensures Where(s[..i + 1], filter) == Where(s[..i], filter) + if Passes(s[i], filter) then [s[i]] else []
  {
    assert s[..i + 1][..i] == s[..i];
  }

  lemma GroupingStays(byId: map<string, seq<Entry>>, s: seq<Entry>, i: nat)
    requires i < |s| && IsGrouping(byId, s[..i]) && !(IsExtension(s[i]) && IsPlaced(s[i]))
    ensures IsGrouping(byId, s[..i + 1])
  {
    IdsGrow(s, i);
    forall id
      ensures Listed(byId, id) == Where(s[..i + 1], Extension(id))
    {
      WhereGrows(s, i, Extension(id));
    }
  }

  lemma ListedAfter(byId: map<string, seq<Entry>>, s: seq<Entry>, i: nat, id: string, x: string)
    requires i < |s| && IsExtension(s[i]) && IsPlaced(s[i]) && id == ExtensionId(s[i])
    requires Listed(byId, x) == Where(s[..i], Extension(x))
    ensures Listed(byId[id := Listed(byId, id) + [s[i]]], x) == Where(s[..i + 1], Extension(x))
  {
    WhereGrows(s, i, Extension(x));
  }

  lemma GroupingGrows(byId: map<string, seq<Entry>>, s: seq<Entry>, i: nat, id: string)
    requires i < |s| && IsGrouping(byId, s[..i]) && IsExtension(s[i]) && IsPlaced(s[i]) && id == ExtensionId(s[i])
    ensures IsGrouping(byId[id := Listed(byId, id) + [s[i]]], s[..i + 1])
  {
    IdsGrow(s, i);
    forall x
      ensures Listed(byId[id := Listed(byId, id) + [s[i]]], x) == Where(s[..i + 1], Extension(x))
    {
      ListedAfter(byId, s, i, id, x);
    }
  }

  method GroupExtensionEntries(sorted: seq<Entry>) returns (byId: map<string, seq<Entry>>, ids: seq<string>)
    ensures IsGrouping(byId, sorted) && ids == Distinct(IdsOf(sorted))
  {
    byId, ids := map[], [];
    for i := 0 to |sorted|
      invariant IsGrouping(byId, sorted[..i]) && ids == Distinct(IdsOf(sorted[..i]))
    {
      var entry := sorted[i];
      KeysGrow(sorted, i);
      if !IsExtension(entry) || ExtensionId(entry) == "" {
        GroupingStays(byId, sorted, i);
        continue;
      }
      var id := ExtensionId(entry);
      GroupingGrows(byId, sorted, i, id);
      if id !in byId {
        ids := ids + [id];
      }
      byId := byId[id := Listed(byId, id) + [entry]];
    }
    assert sorted[..|sorted|] == sorted;
  }

  // ----- the order of names and ids

  /** `a.localeCompare(b) <= 0`, whatever the locale. */
  type Collation = (string, string) -> bool

  function ByName(collation: Collation): (Entry, Entry) -> bool {
    (a: Entry, b: Entry) => collation(a.name, b.name)
  }

  function IdOrder(sorted: seq<Entry>, collation: Collation): seq<string> {
    SortBy(Distinct(IdsOf(sorted)), collation)
  }

  lemma IdOrderIsIdOrder(sorted: seq<Entry>, collation: Collation)
    ensures IsIdOrder(sorted, IdOrder(sorted, collation))
    ensures IsTotalPreorder(collation) ==> IsSortedBy(IdOrder(sorted, collation), collation)
  {
    var ids, order := Distinct(IdsOf(sorted)), IdOrder(sorted, collation);
    IdsOfAreIds(sorted);
    DistinctKeepsValues(IdsOf(sorted));
    SortByIsSorted(ids, collation);
    NoRepetitionMeansOnce(ids);
    NoRepetitionMeansOnce(order);
    assert forall x :: x in ids <==> x in multiset(ids);
    assert forall x :: x in order <==> x in multiset(order);
  }

  /** The graphs of a build's entries. */
  function Graphs(entries: seq<Entry>, publicNames: set<string>, collation: Collation): (r: seq<seq<Entry>>)
    ensures |r| == |DTS_CONFIG_GROUPS|
  {
    var sorted := SortBy(entries, ByName(collation));
    Partitions(sorted, publicNames, IdOrder(sorted, collation))
  }

  function Sources(entries: seq<Entry>, normalize: string -> string): seq<string> {
    seq(|entries|, i requires 0 <= i < |entries| => normalize(entries[i].source))
  }

  method BuildUnifiedDeclarationPartitions(
    entries: seq<Entry>, publicNames: set<string>, collation: Collation, normalize: string -> string)
    returns (graphs: seq<(string, seq<string>)>)
    ensures |graphs| == |DTS_CONFIG_GROUPS|
    ensures forall i :: 0 <= i < |graphs| ==>
              graphs[i] == (DTS_CONFIG_GROUPS[i], Sources(Graphs(entries, publicNames, collation)[i], normalize))
  {
    var sorted := SortBy(entries, ByName(collation));
    var base := Where(sorted, Base);
    var byId, ids := GroupExtensionEntries(sorted);
    var sdk := Where(sorted, PluginSdk(publicNames, true));
    var sdkPrivate := Where(sorted, PluginSdk(publicNames, false));
    var order := SortBy(ids, collation);
    IdOrderIsIdOrder(sorted, collation);
    var groups := seq(|order|, i requires 0 <= i < |order| => byId[order[i]]);
    assert groups == ExtensionGroups(sorted, order);
    var extensions := PartitionUnifiedEntryGroups(groups, EXTENSION_PARTITIONS);
    var partitions := [base, sdk, sdkPrivate] + extensions.value;
    assert partitions == Graphs(entries, publicNames, collation);
    graphs := seq(|DTS_CONFIG_GROUPS|,
                  i requires 0 <= i < |DTS_CONFIG_GROUPS| => (DTS_CONFIG_GROUPS[i], Sources(partitions[i], normalize)));
  }

  // ----- nothing is lost, and no extension is split

  lemma {:induction false} ContentsOfConcat<T>(a: seq<seq<T>>, b: seq<seq<T>>)
    ensures Contents(a + b) == Contents(a) + Contents(b)
  {
    if b == [] {
      assert a + b == a;
    } else {
      ContentsOfConcat(a, b[..|b| - 1]);
      assert (a + b)[..|a + b| - 1] == a + b[..|b| - 1];
    }
  }

  lemma {:induction false} GroupsCount(sorted: seq<Entry>, order: seq<string>, e: Entry)
    requires forall i, j :: 0 <= i < j < |order| ==> order[i] != order[j]
    ensures Contents(ExtensionGroups(sorted, order))[e] ==
            if IsExtension(e) && IsPlaced(e) && ExtensionId(e) in order then multiset(sorted)[e] else 0
  {
    var n := |order| - 1;
    if n >= 0 {
      assert ExtensionGroups(sorted, order)[..n] == ExtensionGroups(sorted, order[..n]);
      GroupsCount(sorted, order[..n], e);
      WhereCounts(sorted, Extension(order[n]), e);
      assert forall id :: id in order <==> id in order[..n] || id == order[n];
    }
  }

  lemma PartitionsCount(sorted: seq<Entry>, publicNames: set<string>, order: seq<string>, e: Entry)
    requires IsIdOrder(sorted, order)
    ensures Contents(Partitions(sorted, publicNames, order))[e] == if IsPlaced(e) then multiset(sorted)[e] else 0
  {
    var groups := ExtensionGroups(sorted, order);
    var shares := GreedyShares(groups, EXTENSION_PARTITIONS);
    var base, open, closed := Where(sorted, Base), Where(sorted, PluginSdk(publicNames, true)), Where(sorted, PluginSdk(publicNames, false));
    ContentsOfThree(base, open, closed);
    ContentsOfConcat([base, open, closed], shares);
    SharesKeepEntries(groups, Greedy(groups, EXTENSION_PARTITIONS), EXTENSION_PARTITIONS);
    assert Contents(Partitions(sorted, publicNames, order))
        == multiset(base) + multiset(open) + multiset(closed) + Contents(groups);
    WhereCounts(sorted, Base, e);
    WhereCounts(sorted, PluginSdk(publicNames, true), e);
    WhereCounts(sorted, PluginSdk(publicNames, false), e);
    GroupsCount(sorted, order, e);
    PrefixesDiffer(e);
    assert e in sorted && IsExtension(e) && IsPlaced(e) ==> ExtensionId(e) in order;
  }

  /** The eight graphs together hold exactly the entries that the grouping loop does not skip. */
  lemma PartitionsHoldPlacedEntries(entries: seq<Entry>, publicNames: set<string>, collation: Collation)
    ensures Contents(Graphs(entries, publicNames, collation)) == multiset(Where(entries, Placed))
    ensures Contents(Graphs(entries, publicNames, collation)) == multiset(entries) <==> forall e <- entries :: IsPlaced(e)
  {
    var all, sorted := Contents(Graphs(entries, publicNames, collation)), SortBy(entries, ByName(collation));
    SortByIsSorted(entries, ByName(collation));
    IdOrderIsIdOrder(sorted, collation);
    forall e
      ensures all[e] == multiset(Where(entries, Placed))[e] == if IsPlaced(e) then multiset(entries)[e] else 0
    {
      PartitionsCount(sorted, publicNames, IdOrder(sorted, collation), e);
      WhereCounts(entries, Placed, e);
    }
    if all == multiset(entries) {
      forall e <- entries
        ensures IsPlaced(e)
      {
        assert multiset(entries)[e] > 0;
      }
    }
  }

  lemma {:induction false} FilteredStaysSorted(s: seq<Entry>, filter: Filter, before: (Entry, Entry) -> bool)
    requires IsSortedBy(s, before)
    ensures IsSortedBy(Where(s, filter), before)
    ensures forall e <- Where(s, filter) :: e in s
  {
    if s != [] {
      var n := |s| - 1;
      FilteredStaysSorted(s[..n], filter, before);
      assert forall e <- s[..n] :: before(e, s[n]);
    }
  }

  /** What the first three graphs hold. */
  predicate BelongsTo(e: Entry, q: nat, publicNames: set<string>) {
    if q == 0 then !("plugin-sdk/" <= e.name) && !("extensions/" <= e.name)
    else if q == 1 then "plugin-sdk/" <= e.name && e.name in publicNames
    else "plugin-sdk/" <= e.name && e.name !in publicNames
  }

  /** The base graph and the public and the private plugin SDK graph hold just their entries, in order of names. */
  lemma FixedGraphsHold(entries: seq<Entry>, publicNames: set<string>, collation: Collation, q: nat, e: Entry)
    requires q < 3
    ensures DTS_CONFIG_GROUPS[..3] == ["openclaw-dts-base", "openclaw-dts-plugin-sdk-1", "openclaw-dts-plugin-sdk-2"]
    ensures multiset(Graphs(entries, publicNames, collation)[q])[e] == if BelongsTo(e, q, publicNames) then multiset(entries)[e] else 0
    ensures IsTotalPreorder(ByName(collation)) ==> IsSortedBy(Graphs(entries, publicNames, collation)[q], ByName(collation))
  {
    var sorted := SortBy(entries, ByName(collation));
    var filter := [Base, PluginSdk(publicNames, true), PluginSdk(publicNames, false)][q];
    SortByIsSorted(entries, ByName(collation));
    assert Graphs(entries, publicNames, collation)[q] == FixedGraphs(sorted, publicNames)[q] == Where(sorted, filter);
    WhereCounts(sorted, filter, e);
    if IsTotalPreorder(ByName(collation)) {
      FilteredStaysSorted(sorted, filter, ByName(collation));
    }
  }

  lemma {:induction false} UpToSlashIs(segment: string, rest: string)
    requires '/' !in segment && (rest == "" || rest[0] == '/')
    ensures UpToSlash(segment + rest) == segment
  {
    if segment == "" {
      assert segment + rest == rest;
    } else {
      UpToSlashIs(segment[1..], rest);
      assert (segment + rest)[1..] == segment[1..] + rest && segment == [segment[0]] + segment[1..];
    }
  }

  /** The id of an extension's entry is the whole path segment after `extensions/`. */
  lemma ExtensionIdIsSegment(segment: string, rest: string, source: string)
    requires '/' !in segment && (rest == "" || rest[0] == '/')
    ensures
      var e := Entry("extensions/" + segment + rest, source);
      IsExtension(e) && ExtensionId(e) == segment
  {
    var name := "extensions/" + segment + rest;
    assert name == "extensions/" + (segment + rest);
    assert name[|"extensions/"|..] == segment + rest;
    UpToSlashIs(segment, rest);
  }

  /** An entry without an id, which the function's only caller does not build, is lost. */
  lemma BareExtensionIsLost(publicNames: set<string>, collation: Collation)
    ensures
      var entries := [Entry("extensions/", "extensions/index.ts")];
      Contents(Graphs(entries, publicNames, collation)) == multiset{}
  {
    var bare := Entry("extensions/", "extensions/index.ts");
    PartitionsHoldPlacedEntries([bare], publicNames, collation);
    assert ExtensionId(bare) == "" && [bare][..0] == [];
  }

  lemma ContentsOfThree<T>(a: seq<T>, b: seq<T>, c: seq<T>)
    ensures Contents([a, b, c]) == multiset(a) + multiset(b) + multiset(c)
  {
    assert [a, b, c][..2] == [a, b] && [a, b][..1] == [a] && [a][..0] == [];
    assert Contents([a]) == multiset(a) && Contents([a, b]) == multiset(a) + multiset(b);
  }

  lemma PrefixesDiffer(e: Entry)
    ensures !(IsPluginSdk(e) && IsExtension(e))
  {
    assert IsPluginSdk(e) ==> e.name[0] == "plugin-sdk/"[0];
    assert IsExtension(e) ==> e.name[0] == "extensions/"[0];
  }

  lemma {:induction false} InSomeOwnedGroup<T>(groups: seq<seq<T>>, owner: seq<nat>, p: nat, x: T) returns (i: nat)
    requires |owner| == |groups| && x in Share(groups, owner, p)
    ensures i < |groups| && owner[i] == p && x in groups[i]
  {
    var n := |groups| - 1;
    if owner[n] == p && x in groups[n] {
      i := n;
    } else {
      i := InSomeOwnedGroup(groups[..n], owner[..n], p, x);
    }
  }

  lemma {:induction false} WherePasses(s: seq<Entry>, filter: Filter)
    ensures forall e <- Where(s, filter) :: Passes(e, filter)
  {
    if s != [] {
      WherePasses(s[..|s| - 1], filter);
    }
  }

  predicate InOnePiece<T(==)>(part: seq<T>, whole: seq<T>) {
    exists k :: 0 <= k <= |whole| && part <= whole[k..]
  }

  /** One graph holds an extension's entries, in one piece and in order; no other graph holds any of them. */
  lemma ExtensionStaysTogether(entries: seq<Entry>, publicNames: set<string>, collation: Collation, id: string)
    returns (p: nat)
    requires id in Ids(entries)
    ensures 3 <= p < 8
    ensures
      InOnePiece(Where(SortBy(entries, ByName(collation)), Extension(id)), Graphs(entries, publicNames, collation)[p])
    ensures forall q, e :: 0 <= q < 8 && q != p && e in Graphs(entries, publicNames, collation)[q] ==> !Passes(e, Extension(id))
  {
    var sorted := SortBy(entries, ByName(collation));
    SortByIsSorted(entries, ByName(collation));
    assert forall e :: e in sorted <==> e in multiset(sorted);
    assert forall e :: e in entries <==> e in multiset(entries);
    IdOrderIsIdOrder(sorted, collation);
    p := GroupStaysTogether(sorted, publicNames, IdOrder(sorted, collation), id);
  }

  lemma ExtensionsAreInNoFixedGraph(sorted: seq<Entry>, publicNames: set<string>, q: nat, e: Entry)
    requires q < 3 && e in FixedGraphs(sorted, publicNames)[q]
    ensures !IsExtension(e)
  {
    PrefixesDiffer(e);
    WherePasses(sorted, Base);
    WherePasses(sorted, PluginSdk(publicNames, true));
    WherePasses(sorted, PluginSdk(publicNames, false));
  }

  lemma OtherGraphsHoldNone(sorted: seq<Entry>, order: seq<string>, i: nat, q: nat, e: Entry)
    requires IsIdOrder(sorted, order) && i < |order|
    requires q != Greedy(ExtensionGroups(sorted, order), EXTENSION_PARTITIONS)[i]
    requires e in Share(ExtensionGroups(sorted, order), Greedy(ExtensionGroups(sorted, order), EXTENSION_PARTITIONS), q)
    ensures !Passes(e, Extension(order[i]))
  {
    var groups := ExtensionGroups(sorted, order);
    var j := InSomeOwnedGroup(groups, Greedy(groups, EXTENSION_PARTITIONS), q, e);
    WherePasses(sorted, Extension(order[j]));
    assert i < j || j < i;
  }

  lemma GroupStaysTogether(sorted: seq<Entry>, publicNames: set<string>, order: seq<string>, id: string)
    returns (p: nat)
    requires IsIdOrder(sorted, order) && id in order
    ensures 3 <= p < 8
    ensures InOnePiece(Where(sorted, Extension(id)), Partitions(sorted, publicNames, order)[p])
    ensures forall q, e :: 0 <= q < 8 && q != p && e in Partitions(sorted, publicNames, order)[q] ==> !Passes(e, Extension(id))
  {
    var groups := ExtensionGroups(sorted, order);
    var owner := Greedy(groups, EXTENSION_PARTITIONS);
    var i :| 0 <= i < |order| && order[i] == id;
    p := 3 + owner[i];
    var graphs := Partitions(sorted, publicNames, order);
    assert graphs[p] == Share(groups, owner, owner[i]);
    OwnerHoldsGroup(groups, owner, i);
    forall q, e | 0 <= q < 8 && q != p && e in graphs[q]
      ensures !Passes(e, Extension(id))
    {
      if q < 3 {
        ExtensionsAreInNoFixedGraph(sorted, publicNames, q, e);
      } else {
        OtherGraphsHoldNone(sorted, order, i, q - 3, e);
      }
    }
  }
}
