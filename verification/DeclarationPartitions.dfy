/** Entry groups are spread over declaration graphs, each group to the least loaded one so far. */
module DeclarationPartitions {
  import opened Wrappers

  // ----- lengths and contents of a list of lists

  function Total<T>(lists: seq<seq<T>>): nat {
    if lists == [] then 0 else Total(lists[..|lists| - 1]) + |lists[|lists| - 1]|
  }

  function Longest<T>(lists: seq<seq<T>>): (n: nat)
    ensures forall l <- lists :: |l| <= n
    ensures n == 0 || exists l <- lists :: |l| == n
  {
    if lists == [] then 0
    else
      var n, l := Longest(lists[..|lists| - 1]), lists[|lists| - 1];
      assert forall x <- lists :: x in lists[..|lists| - 1] || x == l;
      if |l| > n then |l| else n
  }

  function Contents<T>(lists: seq<seq<T>>): multiset<T> {
    if lists == [] then multiset{} else Contents(lists[..|lists| - 1]) + multiset(lists[|lists| - 1])
  }

  lemma {:induction false} AppendingTo<T>(lists: seq<seq<T>>, i: nat, more: seq<T>)
    requires i < |lists|
    ensures Total(lists[i := lists[i] + more]) == Total(lists) + |more|
    ensures Contents(lists[i := lists[i] + more]) == Contents(lists) + multiset(more)
  {
    var n, next := |lists| - 1, lists[i := lists[i] + more];
    if i == n {
      assert next[..n] == lists[..n];
    } else {
      AppendingTo(lists[..n], i, more);
      assert next[..n] == lists[..n][i := lists[i] + more];
    }
  }

  // ----- assignments of whole groups to partitions

  predicate IsAssignment<T>(groups: seq<seq<T>>, owner: seq<nat>, m: nat) {
    |owner| == |groups| && forall i :: 0 <= i < |owner| ==> owner[i] < m
  }

  /** What an assignment puts into partition `p`: its groups, whole and in order. */
  function Share<T>(groups: seq<seq<T>>, owner: seq<nat>, p: nat): seq<T>
    requires |owner| == |groups|
  {
    if groups == [] then []
    else
      var n := |groups| - 1;
      Share(groups[..n], owner[..n], p) + if owner[n] == p then groups[n] else []
  }

  function Shares<T>(groups: seq<seq<T>>, owner: seq<nat>, m: nat): seq<seq<T>>
    requires |owner| == |groups|
  {
    seq(m, p requires 0 <= p => Share(groups, owner, p))
  }

  lemma SharesGrow<T>(groups: seq<seq<T>>, owner: seq<nat>, m: nat)
    requires IsAssignment(groups, owner, m) && groups != []
    ensures
      var n := |groups| - 1;
      var before := Shares(groups[..n], owner[..n], m);
      Shares(groups, owner, m) == before[owner[n] := before[owner[n]] + groups[n]]
  {
    var n := |groups| - 1;
    var before, after := Shares(groups[..n], owner[..n], m), Shares(groups, owner, m);
    forall p | 0 <= p < m
      ensures after[p] == before[owner[n] := before[owner[n]] + groups[n]][p]
    {
      assert after[p] == before[p] + if owner[n] == p then groups[n] else [];
    }
  }

  /** No entry is lost, duplicated or invented, whatever the assignment. */
  lemma {:induction false} SharesKeepEntries<T>(groups: seq<seq<T>>, owner: seq<nat>, m: nat)
    requires IsAssignment(groups, owner, m)
    ensures Contents(Shares(groups, owner, m)) == Contents(groups)
    ensures Total(Shares(groups, owner, m)) == Total(groups)
  {
    var n := |groups| - 1;
    if n < 0 {
      AllEmpty(Shares(groups, owner, m));
    } else {
      SharesGrow(groups, owner, m);
      SharesKeepEntries(groups[..n], owner[..n], m);
      AppendingTo(Shares(groups[..n], owner[..n], m), owner[n], groups[n]);
    }
  }

  lemma {:induction false} AllEmpty<T>(lists: seq<seq<T>>)
    requires forall i :: 0 <= i < |lists| ==> lists[i] == []
    ensures Total(lists) == 0 && Contents(lists) == multiset{}
  {
    if lists != [] {
      AllEmpty(lists[..|lists| - 1]);
    }
  }

  // ----- the greedy assignment

  /** The first of the shortest lists among the first `n`. */
  function FirstShortest<T>(lists: seq<seq<T>>, n: nat): (k: nat)
    requires 1 <= n <= |lists|
    ensures k < n && forall j :: 0 <= j < n ==> |lists[k]| <= |lists[j]|
    ensures forall j :: 0 <= j < k ==> |lists[k]| < |lists[j]|
  {
    if n == 1 then 0
    else
      var k := FirstShortest(lists, n - 1);
      if |lists[n - 1]| < |lists[k]| then n - 1 else k
  }

  function Greedy<T>(groups: seq<seq<T>>, m: nat): (owner: seq<nat>)
    requires m > 0
    ensures IsAssignment(groups, owner, m)
  {
    if groups == [] then []
    else
      var owner := Greedy(groups[..|groups| - 1], m);
      owner + [FirstShortest(Shares(groups[..|groups| - 1], owner, m), m)]
  }

  function GreedyShares<T>(groups: seq<seq<T>>, m: nat): (r: seq<seq<T>>)
    ensures |r| == m
  {
    if m == 0 then [] else Shares(groups, Greedy(groups, m), m)
  }

  lemma GreedySharesGrow<T>(groups: seq<seq<T>>, m: nat)
    requires m > 0 && groups != []
    ensures
      var before, group := GreedyShares(groups[..|groups| - 1], m), groups[|groups| - 1];
      var k := FirstShortest(before, m);
      GreedyShares(groups, m) == before[k := before[k] + group]
  {
    SharesGrow(groups, Greedy(groups, m), m);
  }

  lemma GreedyNext<T>(groups: seq<seq<T>>, g: nat, m: nat)
    requires m > 0 && g < |groups|
    ensures
      var before := GreedyShares(groups[..g], m);
      var k := FirstShortest(before, m);
      GreedyShares(groups[..g + 1], m) == before[k := before[k] + groups[g]]
  {
    assert groups[..g + 1][..g] == groups[..g];
    GreedySharesGrow(groups[..g + 1], m);
  }

  lemma NothingToShare<T>(partitions: seq<seq<T>>)
    requires forall p :: 0 <= p < |partitions| ==> partitions[p] == []
    ensures partitions == GreedyShares<T>([], |partitions|)
  {
  }

  datatype PartitionError = PartitionCountMustBePositive

  method PartitionUnifiedEntryGroups<T>(entryGroups: seq<seq<T>>, partitionCount: nat)
    returns (r: Result<seq<seq<T>>, PartitionError>)
    ensures r.Err? <==> partitionCount == 0 && entryGroups != []
    ensures r.Ok? ==> r.value == GreedyShares(entryGroups, partitionCount)
  {
    var partitions: seq<seq<T>> := seq(partitionCount, _ => []);
    NothingToShare(partitions);
    assert entryGroups[..0] == [];
    for g := 0 to |entryGroups|
      invariant g > 0 ==> partitionCount > 0
      invariant partitions == GreedyShares(entryGroups[..g], partitionCount)
    {
      var targetIndex := 0;
      var index := 1;
      while index < |partitions|
        invariant 1 <= index
        invariant partitionCount > 0 ==> index <= partitionCount && targetIndex == FirstShortest(partitions, index)
      {
        if |partitions[index]| < |partitions[targetIndex]| {
          targetIndex := index;
        }
        index := index + 1;
      }
      if targetIndex >= |partitions| {
        return Err(PartitionCountMustBePositive);
      }
      partitions := partitions[targetIndex := partitions[targetIndex] + entryGroups[g]];
      GreedyNext(entryGroups, g, partitionCount);
    }
    assert entryGroups[..|entryGroups|] == entryGroups;
    return Ok(partitions);
  }

  // ----- how good it is

  /** Greedy loads differ by at most the size of one group. */
  lemma {:induction false} GreedyIsBalanced<T>(groups: seq<seq<T>>, m: nat, p: nat, q: nat)
    requires p < m && q < m
    ensures
      var loads := Shares(groups, Greedy(groups, m), m);
      |loads[p]| <= |loads[q]| + Longest(groups)
  {
    if groups != [] {
      var n := |groups| - 1;
      GreedyIsBalanced(groups[..n], m, p, q);
      SharesGrow(groups, Greedy(groups, m), m);
      assert groups[n] in groups;
    }
  }

  lemma {:induction false} TotalIsAtLeast<T>(lists: seq<seq<T>>, low: int)
    requires forall l <- lists :: low <= |l|
    ensures |lists| * low <= Total(lists)
  {
    var n := |lists| - 1;
    if n >= 0 {
      TotalIsAtLeast(lists[..n], low);
      assert lists[n] in lists;
      assert |lists| * low == n * low + low;
    }
  }

  lemma {:induction false} TotalIsAtMost<T>(lists: seq<seq<T>>, high: nat)
    requires forall l <- lists :: |l| <= high
    ensures Total(lists) <= |lists| * high
  {
    if lists != [] {
      TotalIsAtMost(lists[..|lists| - 1], high);
      assert lists[|lists| - 1] in lists;
    }
  }

  lemma AllButOne(m: nat, low: int)
    requires m > 1
    ensures (m - 1) * low == (m - 2) * low + low
  {
  }

  lemma {:induction false} TotalWithOne<T>(lists: seq<seq<T>>, i: nat, low: int)
    requires i < |lists| && forall l <- lists :: low <= |l|
    ensures |lists[i]| + (|lists| - 1) * low <= Total(lists)
  {
    var n := |lists| - 1;
    assert lists[n] in lists;
    if i == n {
      TotalIsAtLeast(lists[..n], low);
    } else {
      TotalWithOne(lists[..n], i, low);
      AllButOne(|lists|, low);
    }
  }

  /** Loads that differ by at most `slack`. */
  lemma BalancedLoads<T>(loads: seq<seq<T>>, slack: nat)
    requires loads != [] && forall p, q :: 0 <= p < |loads| && 0 <= q < |loads| ==> |loads[p]| <= |loads[q]| + slack
    ensures |loads| * Longest(loads) <= Total(loads) + (|loads| - 1) * slack
  {
    var p := LongestAt(loads);
    var low := |loads[p]| - slack;
    forall l <- loads
      ensures low <= |l|
    {
      var q :| 0 <= q < |loads| && loads[q] == l;
    }
    TotalWithOne(loads, p, low);
    BoundArithmetic(|loads|, |loads[p]|, low, slack, Total(loads));
  }

  lemma BoundArithmetic(m: nat, top: int, low: int, slack: int, total: int)
    requires low == top - slack && top + (m - 1) * low <= total
    ensures m * top <= total + (m - 1) * slack
  {
  }

  /** Graham's bound for list scheduling. */
  lemma ListSchedulingBound<T>(groups: seq<seq<T>>, m: nat)
    requires m > 0
    ensures m * Longest(Shares(groups, Greedy(groups, m), m)) <= Total(groups) + (m - 1) * Longest(groups)
  {
    var loads := Shares(groups, Greedy(groups, m), m);
    forall p, q | 0 <= p < m && 0 <= q < m
      ensures |loads[p]| <= |loads[q]| + Longest(groups)
    {
      GreedyIsBalanced(groups, m, p, q);
    }
    SharesKeepEntries(groups, Greedy(groups, m), m);
    BalancedLoads(loads, Longest(groups));
  }

  lemma LongestAt<T>(lists: seq<seq<T>>) returns (i: nat)
    requires lists != []
    ensures i < |lists| && |lists[i]| == Longest(lists)
  {
    if Longest(lists) == 0 {
      i := 0;
      assert lists[0] in lists;
    } else {
      var l :| l in lists && |l| == Longest(lists);
      i :| 0 <= i < |lists| && lists[i] == l;
    }
  }

  /** No group is split: its owner holds it in one piece. */
  lemma {:induction false} OwnerHoldsGroup<T>(groups: seq<seq<T>>, owner: seq<nat>, i: nat)
    requires |owner| == |groups| && i < |groups|
    ensures exists k {:trigger Share(groups, owner, owner[i])[k..]} ::
              0 <= k <= |Share(groups, owner, owner[i])| && groups[i] <= Share(groups, owner, owner[i])[k..]
  {
    var n := |groups| - 1;
    var share := Share(groups, owner, owner[i]);
    var before := Share(groups[..n], owner[..n], owner[i]);
    if i < n {
      OwnerHoldsGroup(groups[..n], owner[..n], i);
      var k :| 0 <= k <= |before| && groups[i] <= before[k..];
      assert share[k..] == before[k..] + share[|before|..];
    } else {
      assert share[|before|..] == groups[i];
    }
  }

  lemma ScaleOrder(a: nat, x: int, y: int)
    requires x <= y
    ensures a * x <= a * y
  {
  }

  lemma ApproximationArithmetic(m: nat, top: int, group: int, total: int, best: int)
    requires m > 0 && m * top <= total + (m - 1) * group && total <= m * best && group <= best
    ensures m * top <= (2 * m - 1) * best
  {
    ScaleOrder(m - 1, group, best);
    var n := m - 1;
    assert (n + m) * best == n * best + m * best;
  }

  /** The largest load is at most 2 - 1/m times that of any assignment of whole groups. */
  lemma GreedyApproximatesAny<T>(groups: seq<seq<T>>, m: nat, other: seq<nat>)
    requires m > 0 && IsAssignment(groups, other, m)
    ensures m * Longest(Shares(groups, Greedy(groups, m), m)) <= (2 * m - 1) * Longest(Shares(groups, other, m))
  {
    var loads := Shares(groups, other, m);
    var best := Longest(loads);
    if Longest(groups) > 0 {
      var i := LongestAt(groups);
      OwnerHoldsGroup(groups, other, i);
      assert loads[other[i]] in loads;
    }
    SharesKeepEntries(groups, other, m);
    TotalIsAtMost(loads, best);
    ListSchedulingBound(groups, m);
    ApproximationArithmetic(m, Longest(Shares(groups, Greedy(groups, m), m)), Longest(groups), Total(groups), best);
  }

  // ----- the bound is attained

  /** `k` groups of one entry each. */
  function Units(k: nat): seq<seq<()>> {
    seq(k, _ => [()])
  }

  /** The number of groups in `q` rounds of `m`. */
  function Rounds(m: nat, q: nat): nat {
    if q == 0 then 0 else Rounds(m, q - 1) + m
  }

  lemma {:induction false} RoundsCommute(m: nat, n: nat)
    ensures Rounds(m, n) == m * n
  {
    if n > 0 {
      RoundsCommute(m, n - 1);
      assert m * n == m * (n - 1) + m;
    }
  }

  predicate DealtOut(loads: seq<seq<()>>, q: nat, r: nat) {
    forall p :: 0 <= p < |loads| ==> |loads[p]| == q + if p < r then 1 else 0
  }

  /** Greedy deals out `k` unit groups as `q` rounds and `r` more groups. */
  predicate DealsOut(m: nat, k: nat, q: nat, r: nat) {
    DealtOut(GreedyShares(Units(k), m), q, r)
  }

  lemma DealNone(m: nat)
    ensures DealsOut(m, 0, 0, 0)
  {
  }

  lemma BumpOne(loads: seq<seq<()>>, q: nat, r: nat)
    requires r < |loads| && DealtOut(loads, q, r)
    ensures FirstShortest(loads, |loads|) == r
    ensures DealtOut(loads[r := loads[r] + [()]], q, r + 1)
    ensures r + 1 == |loads| ==> DealtOut(loads[r := loads[r] + [()]], q + 1, 0)
  {
    FirstShortestIs(loads, r);
  }

  lemma OneMoreUnit(m: nat, k: nat, r: nat)
    requires r < m && FirstShortest(GreedyShares(Units(k), m), m) == r
    ensures var before := GreedyShares(Units(k), m); GreedyShares(Units(k + 1), m) == before[r := before[r] + [()]]
  {
    assert Units(k + 1)[..k] == Units(k) && Units(k + 1)[k] == [()];
    GreedySharesGrow(Units(k + 1), m);
  }

  lemma DealOneMore(m: nat, k: nat, q: nat, r: nat)
    requires r < m && DealsOut(m, k, q, r)
    ensures DealsOut(m, k + 1, q, r + 1)
    ensures r + 1 == m ==> DealsOut(m, k + 1, q + 1, 0)
  {
    BumpOne(GreedyShares(Units(k), m), q, r);
    OneMoreUnit(m, k, r);
  }

  /** Rounds and remainder of `k` groups. */
  function Position(m: nat, k: nat): (qr: (nat, nat))
    requires m > 0
    ensures qr.1 < m
  {
    if k == 0 then (0, 0)
    else
      var (q, r) := Position(m, k - 1);
      if r + 1 == m then (q + 1, 0) else (q, r + 1)
  }

  lemma {:induction false} PositionAfterRounds(m: nat, q: nat, r: nat)
    requires r < m
    ensures Position(m, Rounds(m, q) + r) == (q, r)
    decreases q, r
  {
    if r > 0 {
      PositionAfterRounds(m, q, r - 1);
    } else if q > 0 {
      PositionAfterRounds(m, q - 1, m - 1);
    }
  }

  lemma {:induction false} UnitsAreDealtOut(m: nat, k: nat)
    requires m > 0
    ensures DealsOut(m, k, Position(m, k).0, Position(m, k).1)
  {
    if k == 0 {
      DealNone(m);
    } else {
      UnitsAreDealtOut(m, k - 1);
      DealOneMore(m, k - 1, Position(m, k - 1).0, Position(m, k - 1).1);
    }
  }

  lemma FirstShortestIs<T>(lists: seq<seq<T>>, k: nat)
    requires k < |lists| && forall j :: 0 <= j < |lists| ==> |lists[k]| <= |lists[j]|
    requires forall j :: 0 <= j < k ==> |lists[k]| < |lists[j]|
    ensures FirstShortest(lists, |lists|) == k
  {
  }

  lemma {:induction false} NothingForStranger<T>(groups: seq<seq<T>>, owner: seq<nat>, p: nat)
    requires |owner| == |groups| && p !in owner
    ensures Share(groups, owner, p) == []
  {
    if groups != [] {
      NothingForStranger(groups[..|groups| - 1], owner[..|owner| - 1], p);
    }
  }

  /** Unit groups for m - 1 full rounds, and then one group of m entries. */
  function Worst(m: nat): seq<seq<()>>
    requires m > 0
  {
    Units(Rounds(m, m - 1)) + [seq(m, _ => ())]
  }

  lemma FullRounds(m: nat, q: nat)
    requires m > 0
    ensures DealsOut(m, Rounds(m, q), q, 0)
  {
    UnitsAreDealtOut(m, Rounds(m, q));
    PositionAfterRounds(m, q, 0);
  }

  lemma GreedyOnWorst(m: nat)
    requires m > 0
    ensures Longest(GreedyShares(Worst(m), m)) >= 2 * m - 1
  {
    var k := Rounds(m, m - 1);
    var groups, before := Worst(m), GreedyShares(Units(k), m);
    assert groups[..k] == Units(k) && groups[k] == seq(m, _ => ());
    FullRounds(m, m - 1);
    assert forall p :: 0 <= p < m ==> |before[p]| == m - 1;
    GreedySharesGrow(groups, m);
    var first := GreedyShares(groups, m)[FirstShortest(before, m)];
    assert |first| == 2 * m - 1 && first in GreedyShares(groups, m);
  }

  lemma OptimumOnWorst(m: nat) returns (other: seq<nat>)
    requires m > 0
    ensures IsAssignment(Worst(m), other, m) && Longest(Shares(Worst(m), other, m)) <= m
  {
    var groups, units := Worst(m), Units(Rounds(m, m - 1));
    var dealt := if m == 1 then [] else Greedy(units, m - 1);
    other := dealt + [m - 1];
    assert groups[..|units|] == units && other[..|units|] == dealt;
    var loads := Shares(groups, other, m);
    forall p | 0 <= p < m
      ensures |loads[p]| == m
    {
      if p < m - 1 {
        OtherUnits(m, p);
      } else {
        NothingForStranger(units, dealt, p);
      }
    }
  }

  lemma OtherUnits(m: nat, p: nat)
    requires p < m - 1
    ensures var units := Units(Rounds(m, m - 1)); |Share(units, Greedy(units, m - 1), p)| == m
  {
    var units := Units(Rounds(m, m - 1));
    RoundsSwap(m);
    FullRounds(m - 1, m);
    assert GreedyShares(units, m - 1)[p] == Share(units, Greedy(units, m - 1), p);
  }

  lemma RoundsSwap(m: nat)
    requires m > 0
    ensures Rounds(m, m - 1) == Rounds(m - 1, m)
  {
    RoundsCommute(m, m - 1);
    RoundsCommute(m - 1, m);
  }

  /** For every m the factor 2 - 1/m is reached by some groups and some assignment of them. */
  lemma BoundIsAttained(m: nat) returns (groups: seq<seq<()>>, other: seq<nat>)
    requires m > 0
    ensures IsAssignment(groups, other, m) && Longest(Shares(groups, other, m)) > 0
    ensures m * Longest(Shares(groups, Greedy(groups, m), m)) == (2 * m - 1) * Longest(Shares(groups, other, m))
  {
    groups := Worst(m);
    other := OptimumOnWorst(m);
    var greedy, best := Longest(Shares(groups, Greedy(groups, m), m)), Longest(Shares(groups, other, m));
    GreedyOnWorst(m);
    GreedyApproximatesAny(groups, m, other);
    TightArithmetic(m, greedy, best);
  }

  lemma TightArithmetic(m: nat, greedy: nat, best: nat)
    requires m > 0 && greedy >= 2 * m - 1 && best <= m && m * greedy <= (2 * m - 1) * best
    ensures best > 0 && m * greedy == (2 * m - 1) * best
  {
    ScaleOrder(m, 2 * m - 1, greedy);
    ScaleOrder(2 * m - 1, best, m);
    if best == 0 {
      ScaleOrder(m, 1, greedy);
    }
  }
}
