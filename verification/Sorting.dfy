/** The stable sort behind `toSorted`, for a comparison given as "may stand before". */
module Sorting {
  function Insert<T>(x: T, sorted: seq<T>, before: (T, T) -> bool): seq<T> {
    if sorted == [] || before(x, sorted[0]) then [x] + sorted
    else [sorted[0]] + Insert(x, sorted[1..], before)
  }

  function SortBy<T>(s: seq<T>, before: (T, T) -> bool): seq<T> {
    if s == [] then [] else Insert(s[0], SortBy(s[1..], before), before)
  }

  ghost predicate IsTotalPreorder<T(!new)>(before: (T, T) -> bool) {
    && (forall x, y :: before(x, y) || before(y, x))
    && (forall x, y, z :: before(x, y) && before(y, z) ==> before(x, z))
  }

  predicate IsSortedBy<T>(s: seq<T>, before: (T, T) -> bool) {
    forall i, j :: 0 <= i < j < |s| ==> before(s[i], s[j])
  }

  lemma {:induction false} InsertKeeps<T(!new)>(x: T, sorted: seq<T>, before: (T, T) -> bool)
    ensures multiset(Insert(x, sorted, before)) == multiset(sorted) + multiset{x}
    ensures IsTotalPreorder(before) && IsSortedBy(sorted, before) ==> IsSortedBy(Insert(x, sorted, before), before)
  {
    if sorted == [] {
      assert Insert(x, sorted, before) == [x];
    } else if before(x, sorted[0]) {
      assert sorted == [sorted[0]] + sorted[1..];
    } else {
      var rest := sorted[1..];
      InsertKeeps(x, rest, before);
      assert sorted == [sorted[0]] + rest;
      var inserted := Insert(x, rest, before);
      if IsTotalPreorder(before) && IsSortedBy(sorted, before) {
        forall j | 0 <= j < |inserted|
          ensures before(sorted[0], inserted[j])
        {
          assert inserted[j] in multiset(inserted);
          assert inserted[j] == x || inserted[j] in rest;
        }
      }
    }
  }

  lemma {:induction false} SortByIsSorted<T(!new)>(s: seq<T>, before: (T, T) -> bool)
    ensures multiset(SortBy(s, before)) == multiset(s)
    ensures IsTotalPreorder(before) ==> IsSortedBy(SortBy(s, before), before)
  {
    if s != [] {
      SortByIsSorted(s[1..], before);
      InsertKeeps(s[0], SortBy(s[1..], before), before);
      assert s == [s[0]] + s[1..];
    }
  }
}
