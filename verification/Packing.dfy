/** Sequence packing: greedy_knapsack fills one bin at a time with the largest sample that still
    fits, found by binary search in an ascending list of lengths. */
module Packing {
  import opened Sequences
  import opened Sorting
  import opened Wrappers

  // A sample together with the length the knapsack charges for it.
  datatype Item<T> = Item(size: nat, sample: T)

  datatype PackError = LengthMismatch | SampleTooLarge(size: nat)

  function Size<T>(): Item<T> -> nat {
    (item: Item<T>) => item.size
  }

  function Load<T>(items: seq<Item<T>>): nat {
    Sum(Size(), items)
  }

  // ---------- Stable sorting of (length, sample) pairs by length ----------

  ghost predicate Ascending<T>(items: seq<Item<T>>) {
    forall i, j :: 0 <= i < j < |items| ==> items[i].size <= items[j].size
  }

  function SizeKey<T>(): Item<T> -> int {
    (item: Item<T>) => item.size
  }

  function SortBySize<T>(items: seq<Item<T>>): seq<Item<T>> {
    SortBy(SizeKey(), items)
  }

  // Python's sort: ascending, a permutation, and stable among equal lengths.
  lemma SortBySizeIsStable<T>(items: seq<Item<T>>)
    ensures Ascending(SortBySize(items))
    ensures multiset(SortBySize(items)) == multiset(items)
    ensures forall size :: WithKey(SizeKey(), size, SortBySize(items)) == WithKey(SizeKey(), size, items)
  {
    hide SortBy;
    SortAscends(SizeKey(), items);
    SortPermutes(SizeKey(), items);
    forall size {
      SortIsStable(SizeKey(), items, size);
    }
    var sorted := SortBySize(items);
    forall i, j | 0 <= i < j < |sorted| ensures sorted[i].size <= sorted[j].size {
      assert SizeKey()(sorted[i]) <= SizeKey()(sorted[j]);
    }
  }

  // ---------- Filling bins ----------

  // The two parallel lists of the source, and the pairs they stand for.
  ghost predicate Paired<T>(sizes: seq<nat>, samples: seq<T>, items: seq<Item<T>>) {
    && |sizes| == |samples| == |items|
    && forall k :: 0 <= k < |items| ==> items[k] == Item(sizes[k], samples[k])
  }

  // bisect.bisect on an ascending list: the position after the last entry that is at most x.
  function Bisect(numbers: seq<nat>, x: int): (index: nat)
    ensures index <= |numbers|
  {
    if numbers == [] then 0
    else if numbers[|numbers| - 1] <= x then |numbers|
    else Bisect(numbers[..|numbers| - 1], x)
  }

  // The index of the largest number that fits, or -1.
  function SearchForFit(numbers: seq<nat>, capacity: int): (index: int)
    ensures -1 <= index < |numbers|
  {
    var index := Bisect(numbers, capacity);
    if index == 0 then -1 else index - 1
  }

  // The same index, on the items themselves.
  function LastFit<T>(items: seq<Item<T>>, room: nat): (index: int)
    ensures -1 <= index < |items|
    ensures index >= 0 ==> items[index].size <= room
  {
    if items == [] then -1
    else if items[|items| - 1].size <= room then |items| - 1
    else LastFit(items[..|items| - 1], room)
  }

  // The items one bin takes, in the order it takes them, and the items left over.
  function FillOne<T>(items: seq<Item<T>>, room: nat): (seq<Item<T>>, seq<Item<T>>)
    decreases |items|
  {
    var index := LastFit(items, room);
    if index == -1 then ([], items)
    else
      var rest := FillOne(RemoveAt(items, index), room - items[index].size);
      ([items[index]] + rest.0, rest.1)
  }

  // Binary search in the list of lengths finds the last item that fits.
  lemma {:induction false} SearchIsLastFit<T>(sizes: seq<nat>, samples: seq<T>, items: seq<Item<T>>, room: nat)
    requires Paired(sizes, samples, items)
    ensures SearchForFit(sizes, room) == LastFit(items, room)
  {
    if items != [] && items[|items| - 1].size > room {
      var n := |items| - 1;
      SearchIsLastFit(sizes[..n], samples[..n], items[..n], room);
    }
  }

  lemma {:induction false} LastFitIsLast<T>(items: seq<Item<T>>, room: nat)
    ensures forall k :: LastFit(items, room) < k < |items| ==> items[k].size > room
  {
    if items != [] && items[|items| - 1].size > room {
      LastFitIsLast(items[..|items| - 1], room);
    }
  }

  lemma {:induction false} FillOneLeft<T>(items: seq<Item<T>>, room: nat)
    ensures |FillOne(items, room).0| + |FillOne(items, room).1| == |items|
    ensures forall item :: item in FillOne(items, room).1 ==> item in items
    ensures items != [] && items[|items| - 1].size <= room ==> FillOne(items, room).0 != []
    decreases |items|
  {
    var index := LastFit(items, room);
    if index != -1 {
      FillOneLeft(RemoveAt(items, index), room - items[index].size);
    }
  }

  function FillAll<T>(items: seq<Item<T>>, capacity: nat): seq<seq<Item<T>>>
    requires forall item :: item in items ==> item.size <= capacity
    decreases |items|
  {
    if items == [] then []
    else
      FillOneLeft(items, capacity);
      var (taken, left) := FillOne(items, capacity);
      [taken] + FillAll(left, capacity)
  }

  // ---------- The method of the source ----------

  function Zip<T>(sizes: seq<nat>, samples: seq<T>): (items: seq<Item<T>>)
    requires |sizes| == |samples|
    ensures Paired(sizes, samples, items)
  {
    if sizes == [] then [] else [Item(sizes[0], samples[0])] + Zip(sizes[1..], samples[1..])
  }

  function Samples<T>(items: seq<Item<T>>): seq<T> {
    if items == [] then [] else [items[0].sample] + Samples(items[1..])
  }

  lemma {:induction false} SamplesAppend<T>(items: seq<Item<T>>, item: Item<T>)
    ensures Samples(items + [item]) == Samples(items) + [item.sample]
  {
    if items == [] {
      assert items + [item] == [item];
    } else {
      assert (items + [item])[1..] == items[1..] + [item];
      SamplesAppend(items[1..], item);
    }
  }

  function AllSamples<T>(bins: seq<seq<Item<T>>>): seq<seq<T>> {
    if bins == [] then [] else [Samples(bins[0])] + AllSamples(bins[1..])
  }

  lemma {:induction false} AllSamplesAppend<T>(bins: seq<seq<Item<T>>>, bin: seq<Item<T>>)
    ensures AllSamples(bins + [bin]) == AllSamples(bins) + [Samples(bin)]
  {
    if bins == [] {
      assert bins + [bin] == [bin];
    } else {
      assert (bins + [bin])[1..] == bins[1..] + [bin];
      AllSamplesAppend(bins[1..], bin);
    }
  }

  ghost predicate AllFit<T>(items: seq<Item<T>>, capacity: nat) {
    forall item :: item in items ==> item.size <= capacity
  }

  lemma AllFitSorted<T>(items: seq<Item<T>>, capacity: nat)
    ensures AllFit(items, capacity) <==> AllFit(SortBySize(items), capacity)
  {
    var sorted := SortBySize(items);
    SortBySizeIsStable(items);
    SameMembers(items, sorted);
  }

  // Having put `taken` into the bin, filling `room` from `current` completes the bin to `goal`.
  ghost predicate Filling<T>(
    goal: (seq<Item<T>>, seq<Item<T>>), taken: seq<Item<T>>, current: seq<Item<T>>, room: nat)
  {
    goal == (taken + FillOne(current, room).0, FillOne(current, room).1)
  }

  lemma FillingStep<T>(
    goal: (seq<Item<T>>, seq<Item<T>>), taken: seq<Item<T>>, current: seq<Item<T>>, room: nat, index: nat)
    requires Filling(goal, taken, current, room)
    requires index < |current| && index == LastFit(current, room)
    ensures current[index].size <= room
    ensures Filling(goal, taken + [current[index]], RemoveAt(current, index), room - current[index].size)
  {
    var rest := FillOne(RemoveAt(current, index), room - current[index].size);
    assert taken + ([current[index]] + rest.0) == (taken + [current[index]]) + rest.0;
  }

  lemma FillingDone<T>(goal: (seq<Item<T>>, seq<Item<T>>), taken: seq<Item<T>>, current: seq<Item<T>>, room: nat)
    requires Filling(goal, taken, current, room) && LastFit(current, room) == -1
    ensures goal == (taken, current)
  {
    assert taken + [] == taken;
  }

  // Popping both lists at one index keeps them paired.
  lemma PopTogether<T>(sizes: seq<nat>, samples: seq<T>, items: seq<Item<T>>, index: nat)
    requires Paired(sizes, samples, items) && index < |items|
    ensures Paired(RemoveAt(sizes, index), RemoveAt(samples, index), RemoveAt(items, index))
  {
  }

  // One round of the outer loop: the inner loop pops the two lists in lockstep.
  method FillKnapsack<T>(sizes: seq<nat>, samples: seq<T>, maxCapacity: nat, ghost items: seq<Item<T>>)
    returns (knapsack: seq<T>, sizesLeft: seq<nat>, samplesLeft: seq<T>)
    requires Paired(sizes, samples, items)
    ensures knapsack == Samples(FillOne(items, maxCapacity).0)
    ensures Paired(sizesLeft, samplesLeft, FillOne(items, maxCapacity).1)
  {
    sizesLeft, samplesLeft, knapsack := sizes, samples, [];
    var remaining: nat := maxCapacity;
    ghost var goal := FillOne(items, maxCapacity);
    ghost var taken: seq<Item<T>>, current := [], items;
    assert Filling(goal, [], items, maxCapacity) by { assert [] + goal.0 == goal.0; }
    while true
      invariant Paired(sizesLeft, samplesLeft, current) && knapsack == Samples(taken)
      invariant Filling(goal, taken, current, remaining)
      decreases |sizesLeft|
    {
      var index := SearchForFit(sizesLeft, remaining);
      SearchIsLastFit(sizesLeft, samplesLeft, current, remaining);
      if index == -1 {
        break;
      }
      FillingStep(goal, taken, current, remaining, index);
      PopTogether(sizesLeft, samplesLeft, current, index);
      SamplesAppend(taken, current[index]);
      taken, current := taken + [current[index]], RemoveAt(current, index);
      remaining := remaining - sizesLeft[index];
      knapsack := knapsack + [samplesLeft[index]];
      sizesLeft, samplesLeft := RemoveAt(sizesLeft, index), RemoveAt(samplesLeft, index);
    }
    FillingDone(goal, taken, current, remaining);
  }

  // Having closed `bins`, filling further bins from `current` completes them to `goal`.
  ghost predicate Closing<T>(goal: seq<seq<Item<T>>>, bins: seq<seq<Item<T>>>, current: seq<Item<T>>, capacity: nat) {
    AllFit(current, capacity) && goal == bins + FillAll(current, capacity)
  }

  lemma ClosingStep<T>(goal: seq<seq<Item<T>>>, bins: seq<seq<Item<T>>>, current: seq<Item<T>>, capacity: nat)
    requires Closing(goal, bins, current, capacity) && current != []
    ensures Closing(goal, bins + [FillOne(current, capacity).0], FillOne(current, capacity).1, capacity)
    ensures |FillOne(current, capacity).1| < |current|
  {
    FillOneLeft(current, capacity);
    var taken, rest := FillOne(current, capacity).0, FillAll(FillOne(current, capacity).1, capacity);
    assert current[|current| - 1] in current;
    assert bins + ([taken] + rest) == (bins + [taken]) + rest;
  }

  // The outer loop, on lists already sorted together.
  method FillKnapsacks<T>(sizes: seq<nat>, samples: seq<T>, maxCapacity: nat, ghost sorted: seq<Item<T>>)
    returns (knapsacks: seq<seq<T>>)
    requires Paired(sizes, samples, sorted) && AllFit(sorted, maxCapacity)
    ensures knapsacks == AllSamples(FillAll(sorted, maxCapacity))
  {
    var sortedSizes, sortedSamples := sizes, samples;
    ghost var goal := FillAll(sorted, maxCapacity);
    ghost var bins: seq<seq<Item<T>>>, current := [], sorted;
    knapsacks := [];
    assert [] + goal == goal;
    while |sortedSizes| > 0
      invariant Paired(sortedSizes, sortedSamples, current)
      invariant knapsacks == AllSamples(bins)
      invariant Closing(goal, bins, current, maxCapacity)
      decreases |sortedSizes|
    {
      ClosingStep(goal, bins, current, maxCapacity);
      AllSamplesAppend(bins, FillOne(current, maxCapacity).0);
      var knapsack;
      knapsack, sortedSizes, sortedSamples := FillKnapsack(sortedSizes, sortedSamples, maxCapacity, current);
      knapsacks := knapsacks + [knapsack];
      bins, current := bins + [FillOne(current, maxCapacity).0], FillOne(current, maxCapacity).1;
    }
    assert bins + [] == bins;
  }

  lemma {:induction false} Unzip<T>(sizes: seq<nat>, samples: seq<T>, items: seq<Item<T>>)
    requires Paired(sizes, samples, items)
    ensures forall item :: item in items ==> item.size in sizes
    ensures forall size :: size in sizes ==> exists item :: item in items && item.size == size
  {
    forall item | item in items ensures item.size in sizes {
      var k :| 0 <= k < |items| && items[k] == item;
      assert sizes[k] == item.size;
    }
    forall size | size in sizes ensures exists item :: item in items && item.size == size {
      var k :| 0 <= k < |sizes| && sizes[k] == size;
      assert items[k] in items && items[k].size == size;
    }
  }

  function SizeList<T>(items: seq<Item<T>>): (sizes: seq<nat>)
    ensures |sizes| == |items| && forall k :: 0 <= k < |items| ==> sizes[k] == items[k].size
  {
    if items == [] then [] else [items[0].size] + SizeList(items[1..])
  }

  lemma {:induction false} PairedLists<T>(items: seq<Item<T>>)
    ensures Paired(SizeList(items), Samples(items), items)
  {
    if items != [] {
      PairedLists(items[1..]);
    }
  }

  method GreedyKnapsack<T>(itemSizes: seq<nat>, samples: seq<T>, maxCapacity: nat)
    returns (r: Result<seq<seq<T>>, PackError>)
    ensures |itemSizes| != |samples| ==> r == Err(LengthMismatch)
    ensures |itemSizes| == |samples| && AllFit(Zip(itemSizes, samples), maxCapacity) ==>
              var sorted := SortBySize(Zip(itemSizes, samples));
              AllFit(sorted, maxCapacity) && r == Ok(AllSamples(FillAll(sorted, maxCapacity)))
    ensures |itemSizes| == |samples| && !AllFit(Zip(itemSizes, samples), maxCapacity) ==>
              && r.Err? && r.error.SampleTooLarge? && r.error.size > maxCapacity
              && r.error.size in itemSizes && forall size :: size in itemSizes ==> size <= r.error.size
  {
    if |itemSizes| != |samples| {
      return Err(LengthMismatch);
    }
    var items := Zip(itemSizes, samples);
    AllFitSorted(items, maxCapacity);
    if |itemSizes| == 0 {
      return Ok([]);
    }
    var sorted := SortBySize(items);
    SortBySizeIsStable(items);
    SameMembers(items, sorted);
    LargestIsLast(items, sorted);
    PairedLists(sorted);
    var sortedSizes, sortedSamples := SizeList(sorted), Samples(sorted);
    var largest := sortedSizes[|sortedSizes| - 1];
    if largest > maxCapacity {
      Unzip(itemSizes, samples, items);
      assert sorted[|sorted| - 1] in items && sorted[|sorted| - 1].size > maxCapacity;
      return Err(SampleTooLarge(largest));
    }
    assert AllFit(sorted, maxCapacity);
    var knapsacks := FillKnapsacks(sortedSizes, sortedSamples, maxCapacity, sorted);
    return Ok(knapsacks);
  }

  lemma LargestIsLast<T>(items: seq<Item<T>>, sorted: seq<Item<T>>)
    requires Ascending(sorted) && multiset(sorted) == multiset(items) && sorted != []
    ensures sorted[|sorted| - 1] in items
    ensures forall item :: item in items ==> item.size <= sorted[|sorted| - 1].size
  {
    assert sorted[|sorted| - 1] in multiset(sorted);
    forall item | item in items ensures item.size <= sorted[|sorted| - 1].size {
      assert item in multiset(sorted);
      var k :| 0 <= k < |sorted| && sorted[k] == item;
    }
  }
}
