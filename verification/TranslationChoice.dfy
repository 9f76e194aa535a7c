/** Choosing one translation among the candidates, as the Android and the Apple generator do it. */
module TranslationChoice {
  import opened Text
  import opened Sorting

  // ----- counting the candidates

  type Tally = seq<(string, nat)>

  /** Counts in order of first appearance, as a JavaScript Map keeps them. */
  function Counted(counts: Tally, value: string): Tally {
    if counts == [] then [(value, 1)]
    else if counts[0].0 == value then [(value, counts[0].1 + 1)] + counts[1..]
    else [counts[0]] + Counted(counts[1..], value)
  }

  function TallyOf(values: seq<string>): Tally {
    if values == [] then [] else Counted(TallyOf(values[..|values| - 1]), values[|values| - 1])
  }

  method CountValues(values: seq<string>) returns (counts: Tally)
    ensures counts == TallyOf(values)
  {
    counts := [];
    for i := 0 to |values|
      invariant counts == TallyOf(values[..i])
    {
      assert values[..i + 1][..i] == values[..i];
      counts := Counted(counts, values[i]);
    }
    assert values[..|values|] == values;
  }

  predicate IsTallyOf(counts: Tally, values: multiset<string>) {
    && (forall i, j :: 0 <= i < j < |counts| ==> counts[i].0 != counts[j].0)
    && (forall entry <- counts :: entry.1 > 0 && entry.1 == values[entry.0])
    && (forall value <- values :: (value, values[value]) in counts)
  }

  lemma ConsIsTally(head: string, n: nat, rest: Tally, others: multiset<string>)
    requires IsTallyOf(rest, others) && others[head] == 0 && n > 0
    ensures IsTallyOf([(head, n)] + rest, others[head := n])
  {
    var all, values := [(head, n)] + rest, others[head := n];
    assert forall entry <- rest :: entry.0 != head;
    forall entry <- all
      ensures entry.1 > 0 && entry.1 == values[entry.0]
    {
      assert entry == all[0] || entry in rest;
    }
    forall x <- values
      ensures (x, values[x]) in all
    {
      assert x == head ==> all[0] == (x, values[x]);
      assert x != head ==> x in others && (x, others[x]) in rest;
    }
  }

  lemma TailIsTally(counts: Tally, values: multiset<string>)
    requires IsTallyOf(counts, values) && counts != []
    ensures values[counts[0].0] == counts[0].1 > 0
    ensures IsTallyOf(counts[1..], values[counts[0].0 := 0])
  {
    assert counts[0] in counts && counts == [counts[0]] + counts[1..];
    assert forall entry <- counts[1..] :: entry in counts && entry.0 != counts[0].0;
  }

  lemma {:induction false} CountedIsTally(counts: Tally, values: multiset<string>, value: string)
    requires IsTallyOf(counts, values)
    ensures IsTallyOf(Counted(counts, value), values + multiset{value})
  {
    if counts == [] {
      assert values == multiset{} by {
        assert forall x <- values :: (x, values[x]) in counts;
      }
    } else {
      var (head, n) := counts[0];
      assert counts == [(head, n)] + counts[1..];
      var others := values[head := 0];
      TailIsTally(counts, values);
      if head == value {
        ConsIsTally(value, n + 1, counts[1..], others);
        assert others[value := n + 1] == values + multiset{value};
      } else {
        CountedIsTally(counts[1..], others, value);
        ConsIsTally(head, n, Counted(counts[1..], value), others + multiset{value});
        assert (others + multiset{value})[head := n] == values + multiset{value};
      }
    }
  }

  lemma {:induction false} TallyIsTally(values: seq<string>)
    ensures IsTallyOf(TallyOf(values), multiset(values))
  {
    if values != [] {
      var n := |values| - 1;
      TallyIsTally(values[..n]);
      CountedIsTally(TallyOf(values[..n]), multiset(values[..n]), values[n]);
      assert values == values[..n] + [values[n]];
    }
  }

  // ----- the two choosers

  predicate MoreFrequent(a: (string, nat), b: (string, nat)) {
    a.1 > b.1 || (a.1 == b.1 && !Less(b.0, a.0))
  }

  function ByFrequency(): ((string, nat), (string, nat)) -> bool {
    (a: (string, nat), b: (string, nat)) => MoreFrequent(a, b)
  }

  function SourceLast(source: string): ((string, nat), (string, nat)) -> bool {
    (a: (string, nat), b: (string, nat)) =>
      if (a.0 == source) != (b.0 == source) then b.0 == source else MoreFrequent(a, b)
  }

  function OtherThan(source: string, values: seq<string>): seq<string> {
    if values == [] then []
    else
      OtherThan(source, values[..|values| - 1])
      + if values[|values| - 1] == source then [] else [values[|values| - 1]]
  }

  function Selected(source: string, values: seq<string>): string {
    var translated := OtherThan(source, values);
    var sorted := SortBy(TallyOf(if translated != [] then translated else values), ByFrequency());
    if sorted == [] then "" else sorted[0].0
  }

  function Chosen(source: string, translations: seq<string>): string {
    var sorted := SortBy(TallyOf(translations), SourceLast(source));
    if sorted == [] then source else sorted[0].0
  }

  // ----- the winner, from the candidates as a multiset

  predicate Beats(source: string, values: multiset<string>, r: string, x: string) {
    if (r == source) != (x == source) then x == source
    else values[r] > values[x] || (values[r] == values[x] && Less(r, x))
  }

  /** Not the source unless there is nothing else; then the most frequent; then the least in code-unit order. */
  predicate IsWinner(source: string, values: multiset<string>, r: string) {
    r in values && forall x <- values :: x == r || Beats(source, values, r, x)
  }

  lemma WinnerIsUnique(source: string, values: multiset<string>, a: string, b: string)
    requires IsWinner(source, values, a) && IsWinner(source, values, b)
    ensures a == b
  {
    LessIsStrictTotal(a, b);
  }

  lemma OrdersAreTotal(source: string)
    ensures IsTotalPreorder(ByFrequency()) && IsTotalPreorder(SourceLast(source))
  {
    forall a: string, b: string
      ensures !Less(a, b) || !Less(b, a)
      ensures a == b || Less(a, b) || Less(b, a)
    {
      LessIsStrictTotal(a, b);
    }
    forall a: string, b: string, c: string | Less(a, b) && Less(b, c)
      ensures Less(a, c)
    {
      LessIsTransitive(a, b, c);
    }
  }

  lemma FirstIsWinner(counts: Tally, source: string, values: multiset<string>)
    requires IsTallyOf(counts, values) && |values| > 0
    ensures SortBy(counts, SourceLast(source)) != []
    ensures IsWinner(source, values, SortBy(counts, SourceLast(source))[0].0)
  {
    var sorted := SortBy(counts, SourceLast(source));
    SortByIsSorted(counts, SourceLast(source));
    OrdersAreTotal(source);
    var some :| some in values;
    assert (some, values[some]) in counts;
    assert forall entry :: entry in counts <==> entry in multiset(counts);
    assert forall entry :: entry in sorted <==> entry in multiset(sorted);
    var first := sorted[0];
    assert first in counts;
    forall x <- values | x != first.0
      ensures Beats(source, values, first.0, x)
    {
      var entry := (x, values[x]);
      assert entry in counts && entry in sorted;
      var i :| 0 <= i < |sorted| && sorted[i] == entry;
      assert SourceLast(source)(first, entry);
      LessIsStrictTotal(first.0, x);
    }
  }

  lemma {:induction false} OtherThanCounts(source: string, values: seq<string>)
    ensures multiset(OtherThan(source, values)) == multiset(values)[source := 0]
  {
    if values != [] {
      OtherThanCounts(source, values[..|values| - 1]);
      assert values == values[..|values| - 1] + [values[|values| - 1]];
    }
  }

  // ----- what both choosers return

  lemma ChosenIsWinner(source: string, values: seq<string>)
    requires values != []
    ensures IsWinner(source, multiset(values), Chosen(source, values))
  {
    TallyIsTally(values);
    assert values[0] in multiset(values);
    FirstIsWinner(TallyOf(values), source, multiset(values));
  }

  /** Without the source among them, ordering the source last makes no difference. */
  lemma FrequencyPicksWinner(counts: Tally, source: string, values: multiset<string>)
    requires IsTallyOf(counts, values) && |values| > 0
    requires (forall x <- values :: x != source) || (forall x <- values :: x == source)
    ensures SortBy(counts, ByFrequency()) != []
    ensures IsWinner(source, values, SortBy(counts, ByFrequency())[0].0)
  {
    FirstIsWinner(counts, source, values);
    assert forall entry <- counts :: entry.0 in values;
    SortsAlike(counts, ByFrequency(), SourceLast(source));
  }

  lemma {:induction false} SortsAlike(s: Tally, p: ((string, nat), (string, nat)) -> bool, q: ((string, nat), (string, nat)) -> bool)
    requires forall a <- s, b <- s :: p(a, b) == q(a, b)
    ensures SortBy(s, p) == SortBy(s, q)
  {
    if s != [] {
      SortsAlike(s[1..], p, q);
      SortByIsSorted(s[1..], p);
      assert forall x <- SortBy(s[1..], p) :: x in multiset(SortBy(s[1..], p));
      InsertsAlike(s[0], SortBy(s[1..], p), p, q);
    }
  }

  lemma {:induction false} InsertsAlike(x: (string, nat), s: Tally,
    p: ((string, nat), (string, nat)) -> bool, q: ((string, nat), (string, nat)) -> bool)
    requires forall y <- s :: p(x, y) == q(x, y)
    ensures Insert(x, s, p) == Insert(x, s, q)
  {
    if s != [] {
      InsertsAlike(x, s[1..], p, q);
    }
  }

  lemma WinnerBesideSource(source: string, values: multiset<string>, r: string)
    requires IsWinner(source, values[source := 0], r)
    ensures IsWinner(source, values, r)
  {
    assert forall x <- values :: x == source || x in values[source := 0];
  }

  lemma SelectedIsWinner(source: string, values: seq<string>)
    requires values != []
    ensures IsWinner(source, multiset(values), Selected(source, values))
  {
    var translated := OtherThan(source, values);
    OtherThanCounts(source, values);
    if translated != [] {
      TallyIsTally(translated);
      assert translated[0] in multiset(translated);
      FrequencyPicksWinner(TallyOf(translated), source, multiset(translated));
      WinnerBesideSource(source, multiset(values), Selected(source, values));
    } else {
      TallyIsTally(values);
      assert values[0] in multiset(values);
      assert forall x <- multiset(values) :: x == source || x in multiset(translated);
      FrequencyPicksWinner(TallyOf(values), source, multiset(values));
    }
  }

  method SelectDeterministicTranslation(source: string, values: seq<string>) returns (r: string)
    ensures r == Selected(source, values)
    ensures values != [] ==> IsWinner(source, multiset(values), r)
  {
    var translated := OtherThan(source, values);
    var counts := CountValues(if |translated| > 0 then translated else values);
    var sorted := SortBy(counts, ByFrequency());
    r := if |sorted| > 0 then sorted[0].0 else "";
    if |values| > 0 {
      SelectedIsWinner(source, values);
    }
  }

  method ChooseTranslation(source: string, translations: seq<string>) returns (r: string)
    ensures r == Chosen(source, translations)
    ensures translations != [] ==> IsWinner(source, multiset(translations), r)
  {
    var counts := CountValues(translations);
    var sorted := SortBy(counts, SourceLast(source));
    r := if |sorted| > 0 then sorted[0].0 else source;
    if |translations| > 0 {
      ChosenIsWinner(source, translations);
    }
  }

  /** The two choosers agree on every candidate list; on the empty one only when the source is empty too. */
  lemma ChoosersAgree(source: string, values: seq<string>)
    ensures Selected(source, values) == Chosen(source, values) <==> values != [] || source == ""
  {
    if values != [] {
      ChosenIsWinner(source, values);
      SelectedIsWinner(source, values);
      WinnerIsUnique(source, multiset(values), Chosen(source, values), Selected(source, values));
    }
  }

  /** An empty list: one chooser answers the empty string, the other the source. */
  lemma EmptyListDivides()
    ensures Selected("Save", []) == "" && Chosen("Save", []) == "Save"
  {
    assert OtherThan("Save", []) == [];
  }

  /** Only how often each candidate occurs matters. */
  lemma ChoiceIgnoresOrder(source: string, a: seq<string>, b: seq<string>)
    requires multiset(a) == multiset(b)
    ensures Chosen(source, a) == Chosen(source, b) && Selected(source, a) == Selected(source, b)
  {
    assert |multiset(a)| == |a| && |multiset(b)| == |b|;
    if a != [] {
      ChosenIsWinner(source, a);
      ChosenIsWinner(source, b);
      SelectedIsWinner(source, a);
      SelectedIsWinner(source, b);
      WinnerIsUnique(source, multiset(a), Chosen(source, a), Chosen(source, b));
      WinnerIsUnique(source, multiset(a), Selected(source, a), Selected(source, b));
    }
  }

  /** The source itself comes out exactly when there is no other candidate. */
  lemma SourceIsLastResort(source: string, values: seq<string>)
    ensures Chosen(source, values) == source <==> forall x <- values :: x == source
  {
    if values != [] {
      ChosenIsWinner(source, values);
      assert forall x :: x in values <==> x in multiset(values);
      assert values[0] in values;
    }
  }
}
