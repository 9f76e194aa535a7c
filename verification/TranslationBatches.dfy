/** Cutting the pending translations into batches: greedy, contiguous, and as few as possible. */
module TranslationBatches {
  datatype Item = Item(key: string, text: string)

  const MAX_BATCH_ITEMS: nat := 20

  function EstimateBatchChars(items: seq<Item>): nat {
    if items == [] then 2
    else
      var last := items[|items| - 1];
      EstimateBatchChars(items[..|items| - 1]) + |last.key| + |last.text| + 8
  }

  function TextOf(items: seq<Item>): string {
    if items == [] then "" else TextOf(items[..|items| - 1]) + items[|items| - 1].key + items[|items| - 1].text
  }

  /** All keys and texts, 8 more characters for each item, and 2 for all. */
  lemma {:induction false} EstimateIs(items: seq<Item>)
    ensures EstimateBatchChars(items) == 2 + |TextOf(items)| + 8 * |items|
  {
    if items != [] {
      EstimateIs(items[..|items| - 1]);
    }
  }

  /** The weight the loop accumulates: every item brings the 2 of its own estimate along. */
  function Weight(items: seq<Item>): nat {
    EstimateBatchChars(items) + 2 * |items|
  }

  /** A budget is any number; a fractional one is compared as it is. */
  predicate Fits(items: seq<Item>, budget: real) {
    Weight(items) as real <= budget
  }

  /** What a batch may be: a single item is accepted over budget. */
  predicate IsBatch(batch: seq<Item>, budget: real) {
    1 <= |batch| <= MAX_BATCH_ITEMS && (|batch| == 1 || Fits(batch, budget))
  }

  function Flatten<T>(parts: seq<seq<T>>): seq<T> {
    if parts == [] then [] else Flatten(parts[..|parts| - 1]) + parts[|parts| - 1]
  }

  /** An order-preserving split of the items into batches. */
  predicate IsSplit(batches: seq<seq<Item>>, items: seq<Item>, budget: real) {
    Flatten(batches) == items && forall b <- batches :: IsBatch(b, budget)
  }

  /** Batch `i` could not also have taken the first item of the next one. */
  predicate LeavesNoRoom(batches: seq<seq<Item>>, i: nat, budget: real)
    requires i + 1 < |batches|
  {
    batches[i + 1] != [] && !IsBatch(batches[i] + batches[i + 1][..1], budget)
  }

  predicate IsSaturated(batches: seq<seq<Item>>, budget: real) {
    forall i :: 0 <= i < |batches| - 1 ==> LeavesNoRoom(batches, i, budget)
  }

  method BuildTranslationBatches(items: seq<Item>, budget: real) returns (batches: seq<seq<Item>>)
    ensures IsSplit(batches, items, budget) && IsSaturated(batches, budget)
    ensures forall b <- batches :: 1 <= |b| <= 20 && (|b| > 1 ==> (EstimateBatchChars(b) + 2 * |b|) as real <= budget)
  {
    batches := [];
    var current: seq<Item> := [];
    var currentChars := 2;
    for i := 0 to |items|
      invariant Flatten(batches) + current == items[..i]
      invariant forall b <- batches :: IsBatch(b, budget)
      invariant currentChars == Weight(current)
      invariant current == [] ==> i == 0 && batches == []
      invariant current != [] ==> IsBatch(current, budget) && IsSaturated(batches + [current], budget)
    {
      var item := items[i];
      var itemChars := EstimateBatchChars([item]);
      WeightAppend(current, item);
      assert items[..i + 1] == items[..i] + [item];
      var wouldOverflow := |current| > 0 && (currentChars + itemChars) as real > budget;
      var reachedMaxItems := |current| >= MAX_BATCH_ITEMS;
      if wouldOverflow || reachedMaxItems {
        assert !IsBatch(current + [item], budget);
        FlattenAppend(batches, current);
        batches := batches + [current];
        current := [];
        currentChars := 2;
        WeightAppend(current, item);
        SaturatedAppend(batches, [item], budget);
      } else if current != [] {
        SaturatedGrow(batches, current, item, budget);
      }
      current := current + [item];
      currentChars := currentChars + itemChars;
    }
    if |current| > 0 {
      FlattenAppend(batches, current);
      batches := batches + [current];
    }
    assert items[..|items|] == items;
  }

  lemma WeightAppend(items: seq<Item>, item: Item)
    ensures Weight(items + [item]) == Weight(items) + EstimateBatchChars([item])
  {
    assert (items + [item])[..|items|] == items && [item][..0] == [];
  }

  lemma FlattenAppend<T>(parts: seq<seq<T>>, part: seq<T>)
    ensures Flatten(parts + [part]) == Flatten(parts) + part
  {
    assert (parts + [part])[..|parts|] == parts;
  }

  lemma SaturatedAppend(batches: seq<seq<Item>>, next: seq<Item>, budget: real)
    requires IsSaturated(batches, budget) && next != []
    requires batches != [] ==> !IsBatch(batches[|batches| - 1] + next[..1], budget)
    ensures IsSaturated(batches + [next], budget)
  {
    var after := batches + [next];
    forall i | 0 <= i < |after| - 1
      ensures LeavesNoRoom(after, i, budget)
    {
      assert i < |batches| - 1 ==> LeavesNoRoom(batches, i, budget);
    }
  }

  lemma SaturatedGrow(batches: seq<seq<Item>>, current: seq<Item>, item: Item, budget: real)
    requires current != [] && IsSaturated(batches + [current], budget)
    ensures IsSaturated(batches + [current + [item]], budget)
  {
    var before, after := batches + [current], batches + [current + [item]];
    forall i | 0 <= i < |after| - 1
      ensures LeavesNoRoom(after, i, budget)
    {
      assert LeavesNoRoom(before, i, budget);
      assert after[i] == before[i] && after[i + 1][..1] == before[i + 1][..1];
    }
  }

  // ----- fewest batches

  lemma {:induction false} WeightConcat(a: seq<Item>, b: seq<Item>)
    ensures Weight(a + b) == Weight(a) + Weight(b) - 2 && Weight(b) >= 2
  {
    if b == [] {
      assert a + b == a;
    } else {
      WeightConcat(a, b[..|b| - 1]);
      assert (a + b)[..|a + b| - 1] == a + b[..|b| - 1];
    }
  }

  lemma PartIsLighter(batch: seq<Item>, lo: nat, hi: nat)
    requires lo <= hi <= |batch|
    ensures Weight(batch[lo..hi]) <= Weight(batch)
  {
    var head, part, tail := batch[..lo], batch[lo..hi], batch[hi..];
    assert batch == (head + part) + tail;
    WeightConcat(head + part, tail);
    WeightConcat(head, part);
    WeightConcat([], head);
  }

  /** Every contiguous part of a batch is a batch. */
  lemma PartOfBatch(batch: seq<Item>, lo: nat, hi: nat, budget: real)
    requires lo < hi <= |batch| && IsBatch(batch, budget)
    ensures IsBatch(batch[lo..hi], budget)
  {
    PartIsLighter(batch, lo, hi);
  }

  /** The number of items in the first `k` batches. */
  function Reach(batches: seq<seq<Item>>, k: nat): nat
    requires k <= |batches|
  {
    |Flatten(batches[..k])|
  }

  lemma {:induction false} BatchIsSlice(batches: seq<seq<Item>>, items: seq<Item>, k: nat)
    requires k < |batches| && Flatten(batches) == items
    ensures Reach(batches, k + 1) == Reach(batches, k) + |batches[k]| <= |items|
    ensures batches[k] == items[Reach(batches, k)..Reach(batches, k + 1)]
  {
    var n := |batches| - 1;
    if k == n {
      assert batches[..n + 1] == batches;
    } else {
      BatchIsSlice(batches[..n], Flatten(batches[..n]), k);
      assert batches[..n][..k] == batches[..k] && batches[..n][..k + 1] == batches[..k + 1];
    }
  }

  lemma SliceOfSlice<T>(s: seq<T>, from: nat, to: nat, lo: nat, hi: nat)
    requires from <= to <= |s| && lo <= hi <= to - from
    ensures s[from..to][lo..hi] == s[from + lo..from + hi]
  {
    var part := s[from..to];
    forall i | 0 <= i < hi - lo
      ensures part[lo..hi][i] == s[from + lo..from + hi][i]
    {
      assert part[lo..hi][i] == part[lo + i];
    }
  }

  /** What lies within a batch is a batch, also when it is put together from a slice and one more item. */
  lemma WithinBatch(items: seq<Item>, from: nat, to: nat, a: nat, b: nat, c: nat, budget: real)
    requires from <= a <= b < to <= |items| && b < c <= |items| && IsBatch(items[from..to], budget)
    ensures IsBatch(items[a..b] + items[b..c][..1], budget)
  {
    SliceOfSlice(items, from, to, a - from, b + 1 - from);
    PartOfBatch(items[from..to], a - from, b + 1 - from, budget);
    assert items[a..b] + items[b..c][..1] == items[a..b + 1];
  }

  /** The first `k` saturated batches reach at least as far as the first `k` batches of any split. */
  lemma {:induction false} SaturatedStaysAhead(
    greedy: seq<seq<Item>>, other: seq<seq<Item>>, items: seq<Item>, budget: real, k: nat)
    requires IsSplit(greedy, items, budget) && IsSaturated(greedy, budget) && IsSplit(other, items, budget)
    requires k <= |greedy| && k <= |other|
    ensures Reach(greedy, k) >= Reach(other, k)
  {
    assert greedy[..|greedy|] == greedy;
    if k > 0 {
      SaturatedStaysAhead(greedy, other, items, budget, k - 1);
      BatchIsSlice(greedy, items, k - 1);
      BatchIsSlice(other, items, k - 1);
      assert IsBatch(other[k - 1], budget);
      if k < |greedy| {
        BatchIsSlice(greedy, items, k);
        assert LeavesNoRoom(greedy, k - 1, budget);
        if Reach(greedy, k) < Reach(other, k) {
          WithinBatch(items, Reach(other, k - 1), Reach(other, k),
                      Reach(greedy, k - 1), Reach(greedy, k), Reach(greedy, k + 1), budget);
        }
      }
    }
  }

  /** No split within the same limits has fewer batches. */
  lemma SaturatedIsOptimal(greedy: seq<seq<Item>>, other: seq<seq<Item>>, items: seq<Item>, budget: real)
    requires IsSplit(greedy, items, budget) && IsSaturated(greedy, budget) && IsSplit(other, items, budget)
    ensures |greedy| <= |other|
  {
    if |other| < |greedy| {
      var k := |other|;
      assert other[..k] == other && greedy[k] in greedy;
      SaturatedStaysAhead(greedy, other, items, budget, k);
      BatchIsSlice(greedy, items, k);
    }
  }

  /** The loop's contract leaves it no choice. */
  lemma SaturatedIsUnique(a: seq<seq<Item>>, b: seq<seq<Item>>, items: seq<Item>, budget: real)
    requires IsSplit(a, items, budget) && IsSaturated(a, budget)
    requires IsSplit(b, items, budget) && IsSaturated(b, budget)
    ensures a == b
  {
    SaturatedIsOptimal(a, b, items, budget);
    SaturatedIsOptimal(b, a, items, budget);
    forall k | 0 <= k < |a|
      ensures a[k] == b[k]
    {
      SaturatedStaysAhead(a, b, items, budget, k);
      SaturatedStaysAhead(b, a, items, budget, k);
      SaturatedStaysAhead(a, b, items, budget, k + 1);
      SaturatedStaysAhead(b, a, items, budget, k + 1);
      BatchIsSlice(a, items, k);
      BatchIsSlice(b, items, k);
    }
  }
}
