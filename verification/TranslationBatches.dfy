/** Packing pending strings into prompts (`buildTranslationBatches`).
  *
  * A batch is admissible when it is non-empty, holds at most MAX_BATCH_ITEMS items and, unless it is
  * a single item, its estimated size fits the budget. The loop of the source is proved to compute
  * `Greedy`, and `Greedy` is proved to be a partition with the fewest possible batches. */
module TranslationBatches {

  const MAX_BATCH_ITEMS := 20

  datatype Item = Item(cacheKey: string, key: string, text: string, textHash: string)

  ghost predicate DistinctItems(items: seq<Item>) {
    forall i, j | 0 <= i < j < |items| :: items[i].key != items[j].key
  }

  /** Estimated characters of one item inside a batch: key, text and the cost of its JSON syntax. */
  function ItemChars(item: Item): nat {
    2 + |item.key| + |item.text| + 8
  }

  function BatchChars(items: seq<Item>): nat {
    if items == [] then 2 else BatchChars(items[..|items| - 1]) + ItemChars(items[|items| - 1])
  }

  ghost predicate Admissible(batch: seq<Item>, budget: int) {
    0 < |batch| <= MAX_BATCH_ITEMS && (|batch| >= 2 ==> BatchChars(batch) <= budget)
  }

  function Concat(batches: seq<seq<Item>>): seq<Item> {
    if batches == [] then [] else batches[0] + Concat(batches[1..])
  }

  ghost predicate IsPartition(batches: seq<seq<Item>>, items: seq<Item>, budget: int) {
    Concat(batches) == items && forall b | b in batches :: Admissible(b, budget)
  }

  /** How far the first batch reaches: the longest prefix that is still admissible. */
  function FirstBatchSize(items: seq<Item>, size: nat, budget: int): (n: nat)
    requires size <= |items|
    ensures size <= n <= |items|
    decreases |items| - size
  {
    if size < |items| && size < MAX_BATCH_ITEMS &&
       (size == 0 || BatchChars(items[..size + 1]) <= budget)
    then FirstBatchSize(items, size + 1, budget)
    else size
  }

  function Greedy(items: seq<Item>, budget: int): seq<seq<Item>> {
    if items == [] then []
    else
      var n := FirstBatchSize(items, 1, budget);
      [items[..n]] + Greedy(items[n..], budget)
  }

  // ----- the loop of the source -----

  method BuildTranslationBatches(items: seq<Item>, budget: int) returns (batches: seq<seq<Item>>)
    ensures batches == Greedy(items, budget)
  {
    hide Greedy, BatchChars, FirstBatchSize;
    BatchCharsNone();
    GreedyNone(budget);
    batches := [];
    var current: seq<Item> := [];
    var currentChars := 2;
    assert current + items[0..] == items;
    for i := 0 to |items|
      invariant currentChars == BatchChars(current)
      invariant current == [] ==> i == 0
      invariant Reaches(current, items[i..], budget)
      invariant Greedy(items, budget) == batches + Greedy(current + items[i..], budget)
    {
      var item := items[i];
      ghost var rest := items[i + 1..];
      var itemChars := ItemChars(item);
      var wouldOverflow := |current| > 0 && currentChars + itemChars > budget;
      var reachedMaxItems := |current| >= MAX_BATCH_ITEMS;
      assert items[i..] == [item] + rest;
      BatchCharsAppend(current, item);
      if wouldOverflow || reachedMaxItems {
        BatchCloses(current, [item] + rest, budget);
        ClosedBatch(batches, current, Greedy([item] + rest, budget));
        batches := batches + [current];
        current := [];
        assert current + ([item] + rest) == [item] + rest;
        currentChars := 2;
        BatchCharsAppend(current, item);
      }
      BatchGrows(current, item, rest, budget);
      Regroup(current, item, rest);
      current := current + [item];
      currentChars := currentChars + itemChars;
    }
    if |current| > 0 {
      BatchCloses(current, [], budget);
      batches := batches + [current];
    }
  }

  lemma ClosedBatch(batches: seq<seq<Item>>, current: seq<Item>, rest: seq<seq<Item>>)
    ensures batches + ([current] + rest) == batches + [current] + rest
  {
  }

  lemma BatchCharsNone()
    ensures BatchChars([]) == 2
  {
  }

  lemma GreedyNone(budget: int)
    ensures Greedy([], budget) == []
  {
  }

  /** The first batch of `current + rest` contains at least `current`. */
  ghost predicate Reaches(current: seq<Item>, rest: seq<Item>, budget: int) {
    current == [] || |current| <= FirstBatchSize(current + rest, 1, budget)
  }

  /** The loop closes a batch exactly where the greedy prefix ends. */
  lemma BatchCloses(current: seq<Item>, rest: seq<Item>, budget: int)
    requires current != [] && Reaches(current, rest, budget)
    requires rest == [] || |current| >= MAX_BATCH_ITEMS || BatchChars(current + [rest[0]]) > budget
    ensures Greedy(current + rest, budget) == [current] + Greedy(rest, budget)
  {
    var items := current + rest;
    FirstBatchFrom(items, 1, |current|, budget);
    assert rest != [] ==> items[..|current| + 1] == current + [rest[0]];
    assert items[..|current|] == current && items[|current|..] == rest;
  }

  lemma BatchGrows(current: seq<Item>, item: Item, rest: seq<Item>, budget: int)
    requires Reaches(current, [item] + rest, budget)
    requires current == [] || (|current| < MAX_BATCH_ITEMS && BatchChars(current + [item]) <= budget)
    ensures Reaches(current + [item], rest, budget)
  {
    Regroup(current, item, rest);
    if current != [] {
      var items := current + ([item] + rest);
      FirstBatchFrom(items, 1, |current|, budget);
      assert items[..|current| + 1] == current + [item];
      assert FirstBatchSize(items, |current|, budget) == FirstBatchSize(items, |current| + 1, budget);
    }
  }

  lemma Regroup(current: seq<Item>, item: Item, rest: seq<Item>)
    ensures (current + [item]) + rest == current + ([item] + rest)
  {
  }

  lemma BatchCharsAppend(items: seq<Item>, item: Item)
    ensures BatchChars(items + [item]) == BatchChars(items) + ItemChars(item)
  {
    assert (items + [item])[..|items|] == items;
  }

  lemma {:induction false} FirstBatchFrom(items: seq<Item>, size: nat, n: nat, budget: int)
    requires 1 <= size <= n <= |items| && n <= FirstBatchSize(items, size, budget)
    ensures FirstBatchSize(items, size, budget) == FirstBatchSize(items, n, budget)
    decreases n - size
  {
    if size < n {
      FirstBatchFrom(items, size + 1, n, budget);
    }
  }

  // ----- what the result means -----

  /** Order is kept, nothing is lost or repeated, and every batch respects the three limits. */
  lemma {:induction false} GreedyIsPartition(items: seq<Item>, budget: int)
    ensures IsPartition(Greedy(items, budget), items, budget)
  {
    if items != [] {
      var n := FirstBatchSize(items, 1, budget);
      FirstBatchAdmissible(items, 1, budget);
      GreedyIsPartition(items[n..], budget);
      var rest := Greedy(items[n..], budget);
      assert ([items[..n]] + rest)[1..] == rest;
      assert items == items[..n] + items[n..];
    }
  }

  lemma {:induction false} FirstBatchAdmissible(items: seq<Item>, size: nat, budget: int)
    requires 1 <= size <= |items|
    requires Admissible(items[..size], budget)
    ensures Admissible(items[..FirstBatchSize(items, size, budget)], budget)
    decreases |items| - size
  {
    if FirstBatchSize(items, size, budget) != size {
      FirstBatchAdmissible(items, size + 1, budget);
    }
  }

  /** No admissible prefix is longer than the greedy one. */
  lemma {:induction false} FirstBatchLongest(items: seq<Item>, size: nat, n: nat, budget: int)
    requires 1 <= size <= n <= |items| && Admissible(items[..n], budget)
    ensures n <= FirstBatchSize(items, size, budget)
    decreases n - size
  {
    if size < n {
      BatchCharsPrefix(items[..n], size + 1);
      assert items[..n][..size + 1] == items[..size + 1];
      FirstBatchLongest(items, size + 1, n, budget);
    }
  }

  lemma {:induction false} BatchCharsPrefix(items: seq<Item>, n: nat)
    requires n <= |items|
    ensures BatchChars(items[..n]) <= BatchChars(items)
  {
    if n < |items| {
      BatchCharsPrefix(items[..|items| - 1], n);
      assert items[..|items| - 1][..n] == items[..n];
    } else {
      assert items[..n] == items;
    }
  }

  lemma {:induction false} BatchCharsSuffix(items: seq<Item>, n: nat)
    requires n <= |items|
    ensures BatchChars(items[n..]) <= BatchChars(items)
  {
    if n < |items| {
      BatchCharsSuffix(items[..|items| - 1], n);
      assert items[n..][..|items| - 1 - n] == items[..|items| - 1][n..];
    } else {
      assert items[n..] == [];
    }
  }

  /** Dropping items from the front of a partition never needs more batches. */
  lemma {:induction false} DropFromPartition(batches: seq<seq<Item>>, items: seq<Item>, n: nat, budget: int)
    returns (rest: seq<seq<Item>>)
    requires IsPartition(batches, items, budget) && n <= |items|
    ensures IsPartition(rest, items[n..], budget) && |rest| <= |batches|
  {
    if n == 0 {
      rest := batches;
      assert items[n..] == items;
    } else {
      var first := batches[0];
      assert first in batches;
      assert IsPartition(batches[1..], items[|first|..], budget);
      if n < |first| {
        rest := [first[n..]] + batches[1..];
        BatchCharsSuffix(first, n);
        assert rest[1..] == batches[1..];
        assert Admissible(first[n..], budget);
        assert forall b | b in rest :: b == first[n..] || b in batches;
        assert items[n..] == first[n..] + Concat(batches[1..]);
      } else {
        rest := DropFromPartition(batches[1..], items[|first|..], n - |first|, budget);
        assert items[|first|..][n - |first|..] == items[n..];
      }
    }
  }

  /** Greedy batching is optimal: no contiguous partition under the same limits has fewer batches. */
  lemma {:induction false} GreedyIsOptimal(items: seq<Item>, other: seq<seq<Item>>, budget: int)
    requires IsPartition(other, items, budget)
    ensures |Greedy(items, budget)| <= |other|
  {
    if items != [] {
      var first := other[0];
      assert items == first + Concat(other[1..]) && items[..|first|] == first;
      assert first in other;
      var n := FirstBatchSize(items, 1, budget);
      FirstBatchLongest(items, 1, |first|, budget);
      assert IsPartition(other[1..], items[|first|..], budget);
      var rest := DropFromPartition(other[1..], items[|first|..], n - |first|, budget);
      assert items[|first|..][n - |first|..] == items[n..];
      GreedyIsOptimal(items[n..], rest, budget);
    }
  }

  // ----- the limits in numbers -----

  /** The characters of keys and texts. */
  ghost function Letters(items: seq<Item>): nat {
    if items == [] then 0 else |items[0].key| + |items[0].text| + Letters(items[1..])
  }

  lemma {:induction false} LettersConcat(a: seq<Item>, b: seq<Item>)
    ensures Letters(a + b) == Letters(a) + Letters(b)
  {
    if a == [] {
      assert a + b == b;
    } else {
      assert (a + b)[1..] == a[1..] + b;
      LettersConcat(a[1..], b);
    }
  }

  lemma {:induction false} CharsAre(items: seq<Item>)
    ensures BatchChars(items) == 2 + 10 * |items| + Letters(items)
  {
    if items != [] {
      var front, last := items[..|items| - 1], items[|items| - 1];
      CharsAre(front);
      LettersConcat(front, [last]);
      assert Letters([last]) == |last.key| + |last.text|;
      assert items == front + [last];
    }
  }

  /** Every batch has 1 to 20 items, and one of several items takes 2 + 10 characters an item besides those of its keys
    * and texts; and each batch is full: the first item of the next one would break a limit. */
  lemma {:induction false} BatchesAreFull(items: seq<Item>, budget: int, k: nat)
    requires k < |Greedy(items, budget)|
    ensures var batches := Greedy(items, budget);
      && 1 <= |batches[k]| <= 20
      && (|batches[k]| >= 2 ==> 2 + 10 * |batches[k]| + Letters(batches[k]) <= budget)
      && (k + 1 < |batches| ==>
            && batches[k + 1] != []
            && (|batches[k]| == 20
                || 2 + 10 * (|batches[k]| + 1) + Letters(batches[k] + [batches[k + 1][0]]) > budget))
  {
    hide BatchChars;
    GreedyIsPartition(items, budget);
    var batches := Greedy(items, budget);
    assert batches[k] in batches;
    CharsAre(batches[k]);
    var n := FirstBatchSize(items, 1, budget);
    if k > 0 {
      BatchesAreFull(items[n..], budget, k - 1);
    } else if |batches| > 1 {
      FirstBatchFull(items, 1, budget);
      assert items[..n + 1] == items[..n] + [items[n]];
      CharsAre(items[..n + 1]);
      assert batches[1] in batches && batches[1][0] == items[n];
    }
  }

  lemma {:induction false} FirstBatchFull(items: seq<Item>, size: nat, budget: int)
    requires 1 <= size <= |items|
    ensures var n := FirstBatchSize(items, size, budget);
      n < |items| ==> n >= MAX_BATCH_ITEMS || BatchChars(items[..n + 1]) > budget
    decreases |items| - size
  {
    hide BatchChars;
    if FirstBatchSize(items, size, budget) != size {
      FirstBatchFull(items, size + 1, budget);
    }
  }
}
