/** Distinct strings in order of first appearance, as a JavaScript Set keeps them, and sorted by code units. */
module DistinctStrings {
  import opened Text
  import opened Sorting

  function Without(source: string, values: seq<string>): seq<string> {
    if values == [] then []
    else (if values[0] == source then [] else [values[0]]) + Without(source, values[1..])
  }

  function Distinct(values: seq<string>): seq<string>
    decreases |values|
  {
    if values == [] then []
    else
      WithoutIsShorter(values[0], values[1..]);
      [values[0]] + Distinct(Without(values[0], values[1..]))
  }

  lemma {:induction false} WithoutIsShorter(source: string, values: seq<string>)
    ensures |Without(source, values)| <= |values|
    ensures forall x :: x in Without(source, values) <==> x in values && x != source
  {
    if values != [] {
      WithoutIsShorter(source, values[1..]);
      assert values == [values[0]] + values[1..];
    }
  }

  lemma {:induction false} WithoutOfLast(source: string, values: seq<string>, last: string)
    ensures Without(source, values + [last]) == Without(source, values) + if last == source then [] else [last]
  {
    if values != [] {
      WithoutOfLast(source, values[1..], last);
      assert (values + [last])[1..] == values[1..] + [last];
    }
  }

  lemma DistinctOfFirst(first: string, others: seq<string>)
    ensures Distinct([first] + others) == [first] + Distinct(Without(first, others))
  {
    assert ([first] + others)[1..] == others;
  }

  /** A value is added at the end unless it is there. */
  lemma {:induction false} DistinctOfLast(values: seq<string>, last: string)
    ensures Distinct(values + [last]) == Distinct(values) + if last in values then [] else [last]
    decreases |values|
  {
    if values != [] {
      var first, others := values[0], values[1..];
      assert values == [first] + others && values + [last] == [first] + (others + [last]);
      WithoutIsShorter(first, others);
      WithoutOfLast(first, others, last);
      DistinctOfFirst(first, others);
      DistinctOfFirst(first, others + [last]);
      if last == first {
        assert Without(first, others) + [] == Without(first, others);
      } else {
        DistinctOfLast(Without(first, others), last);
      }
    }
  }

  function CodeUnitOrder(): (string, string) -> bool {
    (a: string, b: string) => !Less(b, a)
  }

  function SortedDistinct(values: seq<string>): seq<string> {
    SortBy(Distinct(values), CodeUnitOrder())
  }

  lemma {:induction false} DistinctKeepsValues(values: seq<string>)
    ensures forall x :: x in Distinct(values) <==> x in values
    ensures forall i, j :: 0 <= i < j < |Distinct(values)| ==> Distinct(values)[i] != Distinct(values)[j]
    decreases |values|
  {
    if values != [] {
      var rest := Without(values[0], values[1..]);
      WithoutIsShorter(values[0], values[1..]);
      DistinctKeepsValues(rest);
      assert values == [values[0]] + values[1..];
      var distinct := Distinct(values);
      assert distinct == [values[0]] + Distinct(rest);
      forall i, j | 0 <= i < j < |distinct|
        ensures distinct[i] != distinct[j]
      {
        assert distinct[j] == Distinct(rest)[j - 1] && distinct[j] in rest;
        assert i > 0 ==> distinct[i] == Distinct(rest)[i - 1];
      }
    }
  }

  lemma SortedDistinctKeepsValues(values: seq<string>)
    ensures forall x :: x in SortedDistinct(values) <==> x in values
    ensures IsSortedBy(SortedDistinct(values), CodeUnitOrder())
    ensures |SortedDistinct(values)| == |Distinct(values)|
  {
    var distinct := Distinct(values);
    DistinctKeepsValues(values);
    forall a: string, b: string
      ensures !Less(a, b) || !Less(b, a)
      ensures a == b || Less(a, b) || Less(b, a)
    {
      LessIsStrictTotal(a, b);
    }
    forall a: string, b: string, c: string | Less(a, b) && Less(b, c)
      ensures Less(a, c)
    {
      LessIsTransitive(a, b, c);
    }
    SortByIsSorted(distinct, CodeUnitOrder());
    var sorted := SortBy(distinct, CodeUnitOrder());
    assert |multiset(sorted)| == |sorted| && |multiset(distinct)| == |distinct|;
    assert forall x :: x in sorted <==> x in multiset(sorted);
    assert forall x :: x in distinct <==> x in multiset(distinct);
  }

  // ----- sorted, without repetition

  predicate HasNoRepetition<T(==)>(s: seq<T>) {
    forall i, j :: 0 <= i < j < |s| ==> s[i] != s[j]
  }

  lemma {:induction false} NoRepetitionMeansOnce<T>(s: seq<T>)
    ensures HasNoRepetition(s) <==> forall x <- s :: multiset(s)[x] == 1
  {
    if s != [] {
      var n := |s| - 1;
      NoRepetitionMeansOnce(s[..n]);
      assert s == s[..n] + [s[n]];
      if HasNoRepetition(s) {
        assert s[n] !in s[..n];
      } else if s[n] in s[..n] {
        assert multiset(s)[s[n]] >= 2;
      } else {
        assert forall i, j :: 0 <= i < j < n && s[i] == s[j] ==> s[..n][i] == s[..n][j];
        var x :| x in s[..n] && multiset(s[..n])[x] != 1;
        assert x in s;
      }
    }
  }

  predicate IsStrictlySorted(s: seq<string>) {
    forall i, j :: 0 <= i < j < |s| ==> Less(s[i], s[j])
  }

  lemma SortedDistinctIsStrict(values: seq<string>)
    ensures IsStrictlySorted(SortedDistinct(values))
  {
    var distinct, sorted := Distinct(values), SortedDistinct(values);
    DistinctKeepsValues(values);
    SortedDistinctKeepsValues(values);
    SortByIsSorted(distinct, CodeUnitOrder());
    NoRepetitionMeansOnce(distinct);
    NoRepetitionMeansOnce(sorted);
    assert forall x :: x in sorted <==> x in multiset(sorted);
    assert forall x :: x in distinct <==> x in multiset(distinct);
    forall i, j | 0 <= i < j < |sorted|
      ensures Less(sorted[i], sorted[j])
    {
      assert CodeUnitOrder()(sorted[i], sorted[j]) && sorted[i] != sorted[j];
      LessIsStrictTotal(sorted[i], sorted[j]);
    }
  }

  /** Only one list is strictly sorted and has given elements. */
  lemma {:induction false} StrictlySortedIsUnique(a: seq<string>, b: seq<string>)
    requires IsStrictlySorted(a) && IsStrictlySorted(b) && forall x :: x in a <==> x in b
    ensures a == b
  {
    assert b != [] ==> b[0] in b;
    if a != [] {
      assert a[0] in b && b[0] in a;
      if a[0] != b[0] {
        LessIsStrictTotal(a[0], b[0]);
      }
      forall x
        ensures x in a[1..] <==> x in b[1..]
      {
        OnlyFirst(a, x);
        OnlyFirst(b, x);
      }
      StrictlySortedIsUnique(a[1..], b[1..]);
      assert a == [a[0]] + a[1..] && b == [b[0]] + b[1..];
    }
  }

  lemma OnlyFirst(s: seq<string>, x: string)
    requires IsStrictlySorted(s) && s != []
    ensures x in s[1..] <==> x in s && x != s[0]
  {
    assert s == [s[0]] + s[1..];
    LessIsStrictTotal(s[0], s[0]);
  }

  /** The sorted list of distinct values is a matter of which values there are. */
  lemma SortedDistinctIsOfSet(a: seq<string>, b: seq<string>)
    requires forall x :: x in a <==> x in b
    ensures SortedDistinct(a) == SortedDistinct(b)
  {
    SortedDistinctKeepsValues(a);
    SortedDistinctKeepsValues(b);
    SortedDistinctIsStrict(a);
    SortedDistinctIsStrict(b);
    StrictlySortedIsUnique(SortedDistinct(a), SortedDistinct(b));
  }
}
