/** The bins greedy_knapsack returns: a partition of the samples into loaded-enough bins,
    hence at most 3/2 times as many bins as any packing needs. */
module PackingBound {
  import opened Arithmetic
  import opened Sequences
  import opened Packing

  ghost predicate Packs<T>(bins: seq<seq<Item<T>>>, items: seq<Item<T>>, capacity: nat) {
    && multiset(Flatten(bins)) == multiset(items)
    && forall i :: 0 <= i < |bins| ==> Load(bins[i]) <= capacity
  }

  // ---------- One bin ----------

  lemma {:induction false} FillOneBag<T>(items: seq<Item<T>>, room: nat)
    ensures Splits(FillOne(items, room).0, FillOne(items, room).1, items)
    decreases |items|
  {
    var index := LastFit(items, room);
    if index == -1 {
      SplitsNone(FillOne(items, room).0, items);
    } else {
      var rest := FillOne(RemoveAt(items, index), room - items[index].size);
      FillOneBag(RemoveAt(items, index), room - items[index].size);
      ConsRemoved(items, index, rest.0, rest.1);
    }
  }

  lemma LoadCons<T>(item: Item<T>, bin: seq<Item<T>>)
    ensures Load([item] + bin) == item.size + Load(bin)
  {
    assert ([item] + bin)[1..] == bin;
  }

  lemma {:induction false} FillOneLoad<T>(items: seq<Item<T>>, room: nat)
    ensures Load(FillOne(items, room).0) <= room
    decreases |items|
  {
    var index := LastFit(items, room);
    if index != -1 {
      FillOneLoad(RemoveAt(items, index), room - items[index].size);
      LoadCons(items[index], FillOne(RemoveAt(items, index), room - items[index].size).0);
    }
  }

  lemma {:induction false} FillOneLeaves<T>(items: seq<Item<T>>, room: nat, item: Item<T>)
    requires item in FillOne(items, room).1
    ensures Load(FillOne(items, room).0) + item.size > room
    decreases |items|
  {
    var index := LastFit(items, room);
    if index != -1 {
      FillOneLeaves(RemoveAt(items, index), room - items[index].size, item);
      LoadCons(items[index], FillOne(RemoveAt(items, index), room - items[index].size).0);
    } else {
      LastFitIsLast(items, room);
    }
  }

  lemma {:induction false} FillOneAscending<T>(items: seq<Item<T>>, room: nat)
    requires Ascending(items)
    ensures Ascending(FillOne(items, room).1)
    decreases |items|
  {
    var index := LastFit(items, room);
    if index != -1 {
      FillOneAscending(RemoveAt(items, index), room - items[index].size);
    }
  }

  // The bin starts with the largest remaining item.
  lemma FillOneHead<T>(items: seq<Item<T>>, room: nat)
    requires Ascending(items) && items != [] && items[|items| - 1].size <= room
    ensures FillOne(items, room).0 != []
    ensures forall item :: item in items ==> item.size <= FillOne(items, room).0[0].size
  {
    FillOneLeft(items, room);
    assert LastFit(items, room) == |items| - 1;
    forall item | item in items ensures item.size <= items[|items| - 1].size {
      var k :| 0 <= k < |items| && items[k] == item;
    }
  }

  // ---------- All bins ----------

  // Every bin holds something, nothing from a later bin would still fit, and the first item of a
  // bin is at least as large as everything in it and after it.
  ghost predicate Maximal<T>(bins: seq<seq<Item<T>>>, capacity: nat) {
    && (forall i :: 0 <= i < |bins| ==> bins[i] != [])
    && (forall i, j, item :: 0 <= i < j < |bins| && item in bins[j] ==> Load(bins[i]) + item.size > capacity)
    && (forall i, j, item :: 0 <= i <= j < |bins| && item in bins[j] ==> item.size <= bins[i][0].size)
  }

  lemma {:induction false} FillAllPacks<T>(items: seq<Item<T>>, capacity: nat)
    requires AllFit(items, capacity)
    ensures Packs(FillAll(items, capacity), items, capacity)
    decreases |items|
  {
    if items != [] {
      FillOneLeft(items, capacity);
      FillOneBag(items, capacity);
      FillOneLoad(items, capacity);
      FillAllPacks(FillOne(items, capacity).1, capacity);
    }
  }

  lemma {:induction false} FillAllMaximal<T>(items: seq<Item<T>>, capacity: nat)
    requires AllFit(items, capacity) && Ascending(items)
    ensures Maximal(FillAll(items, capacity), capacity)
    decreases |items|
  {
    if items != [] {
      var taken, left := FillOne(items, capacity).0, FillOne(items, capacity).1;
      assert items[|items| - 1] in items;
      FillOneLeft(items, capacity);
      FillOneAscending(items, capacity);
      FillOneHead(items, capacity);
      FillOneBag(items, capacity);
      FillAllMaximal(left, capacity);
      FillAllPacks(left, capacity);
      var rest := FillAll(left, capacity);
      SameMembers(Flatten(rest), left);
      assert forall item :: item in taken ==> item in multiset(items);
      forall item: Item<T> | item in Flatten(rest) ensures Load(taken) + item.size > capacity {
        FillOneLeaves(items, capacity, item);
      }
      MaximalCons(taken, rest, capacity);
    }
  }

  lemma MaximalCons<T>(taken: seq<Item<T>>, rest: seq<seq<Item<T>>>, capacity: nat)
    requires taken != [] && Maximal(rest, capacity)
    requires forall item :: item in Flatten(rest) ==> Load(taken) + item.size > capacity && item.size <= taken[0].size
    requires forall item :: item in taken ==> item.size <= taken[0].size
    ensures Maximal([taken] + rest, capacity)
  {
    var bins: seq<seq<Item<T>>> := [taken] + rest;
    forall i, j, item: Item<T> | 0 <= i < j < |bins| && item in bins[j] ensures Load(bins[i]) + item.size > capacity {
      LaterBin(taken, rest, i, j, item, capacity);
    }
    forall i, j, item: Item<T> | 0 <= i <= j < |bins| && item in bins[j] ensures item.size <= bins[i][0].size {
      if j > 0 {
        SmallerItem(taken, rest, i, j, item, capacity);
      }
    }
  }

  lemma ConsAt<A>(first: A, rest: seq<A>, k: nat)
    requires k <= |rest|
    ensures ([first] + rest)[k] == if k == 0 then first else rest[k - 1]
  {
  }

  lemma MaximalAt<T>(bins: seq<seq<Item<T>>>, i: nat, j: nat, item: Item<T>, capacity: nat)
    requires Maximal(bins, capacity) && i <= j < |bins| && item in bins[j]
    ensures bins[i] != [] && item.size <= bins[i][0].size
    ensures i < j ==> Load(bins[i]) + item.size > capacity
  {
    hide Load;
  }

  lemma LaterBin<T>(taken: seq<Item<T>>, rest: seq<seq<Item<T>>>, i: nat, j: nat, item: Item<T>, capacity: nat)
    requires Maximal(rest, capacity)
    requires forall item :: item in Flatten(rest) ==> Load(taken) + item.size > capacity
    requires i < j <= |rest| && item in ([taken] + rest)[j]
    ensures Load(([taken] + rest)[i]) + item.size > capacity
  {
    hide Load, Flatten, Maximal;
    ConsAt(taken, rest, i);
    ConsAt(taken, rest, j);
    FlattenMember(rest, j - 1, item);
    if i > 0 {
      MaximalAt(rest, i - 1, j - 1, item, capacity);
    }
  }

  lemma SmallerItem<T>(taken: seq<Item<T>>, rest: seq<seq<Item<T>>>, i: nat, j: nat, item: Item<T>, capacity: nat)
    requires taken != [] && Maximal(rest, capacity)
    requires item in Flatten(rest) ==> item.size <= taken[0].size
    requires i <= j <= |rest| && 0 < j && item in ([taken] + rest)[j]
    ensures ([taken] + rest)[i] != [] && item.size <= ([taken] + rest)[i][0].size
  {
    hide Flatten, Maximal;
    ConsAt(taken, rest, i);
    ConsAt(taken, rest, j);
    FlattenMember(rest, j - 1, item);
    if i > 0 {
      MaximalAt(rest, i - 1, j - 1, item, capacity);
    }
  }

  // ---------- The approximation bound ----------

  // 1 for items that take more than half a bin.
  function Big<T>(capacity: nat): Item<T> -> nat {
    (item: Item<T>) => if 2 * item.size > capacity then 1 else 0
  }

  lemma {:induction false} LoadAtLeast<T>(bin: seq<Item<T>>, item: Item<T>)
    requires item in bin
    ensures item.size <= Load(bin)
  {
    if item != bin[0] {
      LoadAtLeast(bin[1..], item);
    }
  }

  lemma {:induction false} NoBigItem<T>(bin: seq<Item<T>>, capacity: nat)
    requires forall item :: item in bin ==> 2 * item.size <= capacity
    ensures Sum(Big(capacity), bin) == 0
  {
    if bin != [] {
      assert bin[0] in bin;
      NoBigItem(bin[1..], capacity);
    }
  }

  // Two big items never share a bin.
  lemma {:induction false} OneBigPerBin<T>(bin: seq<Item<T>>, capacity: nat)
    requires Load(bin) <= capacity
    ensures Sum(Big(capacity), bin) <= 1
  {
    if bin != [] {
      if 2 * bin[0].size > capacity {
        forall item | item in bin[1..] ensures 2 * item.size <= capacity {
          LoadAtLeast(bin[1..], item);
        }
        NoBigItem(bin[1..], capacity);
      } else {
        OneBigPerBin(bin[1..], capacity);
      }
    }
  }

  lemma {:induction false} BigItemsBound<T>(bins: seq<seq<Item<T>>>, capacity: nat)
    requires forall i :: 0 <= i < |bins| ==> Load(bins[i]) <= capacity
    ensures Sum(Big(capacity), Flatten(bins)) <= |bins|
  {
    if bins != [] {
      OneBigPerBin(bins[0], capacity);
      SumAppend(Big(capacity), bins[0], Flatten(bins[1..]));
      BigItemsBound(bins[1..], capacity);
    }
  }

  lemma MulStep(n: nat, c: nat)
    ensures (n + 1) * c == n * c + c
  {
  }

  lemma {:induction false} LoadBound<T>(bins: seq<seq<Item<T>>>, capacity: nat)
    requires forall i :: 0 <= i < |bins| ==> Load(bins[i]) <= capacity
    ensures Load(Flatten(bins)) <= |bins| * capacity
  {
    if bins != [] {
      SumAppend(Size(), bins[0], Flatten(bins[1..]));
      LoadBound(bins[1..], capacity);
      MulStep(|bins[1..]|, capacity);
    }
  }

  lemma {:induction false} BigHeads<T>(bins: seq<seq<Item<T>>>, capacity: nat)
    requires forall i :: 0 <= i < |bins| ==> bins[i] != [] && 2 * bins[i][0].size > capacity
    ensures Sum(Big(capacity), Flatten(bins)) >= |bins|
  {
    if bins != [] {
      SumAppend(Big(capacity), bins[0], Flatten(bins[1..]));
      BigHeads(bins[1..], capacity);
    }
  }

  // As many unfitting items as bins: together they overfill that many bins.
  lemma {:induction false} PairUp<T>(bins: seq<seq<Item<T>>>, items: seq<Item<T>>, capacity: nat)
    requires |bins| <= |items|
    requires forall i, item :: 0 <= i < |bins| && item in items ==> Load(bins[i]) + item.size > capacity
    ensures Load(Flatten(bins)) + Load(items) >= |bins| * (capacity + 1)
  {
    if bins != [] {
      assert items[0] in items;
      PairUp(bins[1..], items[1..], capacity);
      SumAppend(Size(), bins[0], Flatten(bins[1..]));
      assert Load(items) == items[0].size + Load(items[1..]);
      MulStep(|bins[1..]|, capacity + 1);
    }
  }

  lemma LoadOfOne<T>(bin: seq<Item<T>>)
    ensures |bin| == 1 ==> Load(bin) == bin[0].size
  {
    if |bin| == 1 {
      assert Load(bin[1..]) == 0;
    }
  }

  // Bins of small items hold two items each, except perhaps the last.
  lemma {:induction false} SmallBinsHoldPairs<T>(bins: seq<seq<Item<T>>>, capacity: nat)
    requires Maximal(bins, capacity) && bins != []
    requires forall i, item :: 0 <= i < |bins| && item in bins[i] ==> 2 * item.size <= capacity
    ensures |Flatten(bins)| >= 2 * |bins| - 1
  {
    if |bins| > 1 {
      var rest := bins[1..];
      assert Maximal(rest, capacity) by {
        assert forall i :: 0 <= i < |rest| ==> rest[i] == bins[i + 1];
      }
      SmallBinsHoldPairs(rest, capacity);
      assert bins[1][0] in bins[1];
      assert bins[0][0] in bins[0];
      LoadOfOne(bins[0]);
    }
  }

  lemma SplitFlatten<T>(bins: seq<seq<Item<T>>>, p: nat)
    requires p <= |bins|
    ensures Flatten(bins) == Flatten(bins[..p]) + Flatten(bins[p..])
    ensures Load(Flatten(bins)) == Load(Flatten(bins[..p])) + Load(Flatten(bins[p..]))
  {
    hide Flatten, Sum;
    assert bins == bins[..p] + bins[p..];
    FlattenAppend(bins[..p], bins[p..]);
    SumAppend(Size(), Flatten(bins[..p]), Flatten(bins[p..]));
  }

  // When bin p starts with a big item, so does every bin before it, and no packing pairs them.
  lemma ManyBigItems<T>(bins: seq<seq<Item<T>>>, best: seq<seq<Item<T>>>, items: seq<Item<T>>, capacity: nat, p: nat)
    requires Maximal(bins, capacity) && Packs(bins, items, capacity) && Packs(best, items, capacity)
    requires p < |bins| && 2 * bins[p][0].size > capacity
    ensures |best| > p
  {
    var heads: seq<seq<Item<T>>> := bins[..p + 1];
    forall i | 0 <= i < |heads| ensures heads[i] != [] && 2 * heads[i][0].size > capacity {
      assert bins[p][0] in bins[p];
    }
    BigHeads(heads, capacity);
    SplitFlatten(bins, p + 1);
    SumAppend(Big(capacity), Flatten(heads), Flatten(bins[p + 1..]));
    SumPermutation(Big(capacity), Flatten(bins), Flatten(best));
    BigItemsBound(best, capacity);
  }

  // When bin p starts with a small item, the items from p on are many, and overfill the first p bins.
  lemma SmallTail<T>(bins: seq<seq<Item<T>>>, capacity: nat, p: nat)
    requires Maximal(bins, capacity)
    requires p < |bins| && 2 * bins[p][0].size <= capacity
    ensures |Flatten(bins[p..])| >= 2 * (|bins| - p) - 1
  {
    var tail: seq<seq<Item<T>>> := bins[p..];
    assert Maximal(tail, capacity) by {
      assert forall i :: 0 <= i < |tail| ==> tail[i] == bins[p + i];
    }
    forall i, item: Item<T> | 0 <= i < |tail| && item in tail[i] ensures 2 * item.size <= capacity {
      assert tail[i] == bins[p + i];
    }
    SmallBinsHoldPairs(tail, capacity);
  }

  lemma OverfilledPrefix<T>(bins: seq<seq<Item<T>>>, capacity: nat, p: nat)
    requires Maximal(bins, capacity)
    requires p < |bins| && p <= |Flatten(bins[p..])|
    ensures Load(Flatten(bins)) >= p * (capacity + 1)
  {
    var tail: seq<seq<Item<T>>> := bins[p..];
    forall i, item: Item<T> | 0 <= i < p && item in Flatten(tail) ensures Load(bins[..p][i]) + item.size > capacity {
      var j := FlattenIndex(tail, item);
      assert tail[j] == bins[p + j];
    }
    PairUp(bins[..p], Flatten(tail), capacity);
    SplitFlatten(bins, p);
  }

  lemma ManySmallItems<T>(bins: seq<seq<Item<T>>>, best: seq<seq<Item<T>>>, items: seq<Item<T>>, capacity: nat, p: nat)
    requires Maximal(bins, capacity) && Packs(bins, items, capacity) && Packs(best, items, capacity)
    requires p < |bins| && 2 * bins[p][0].size <= capacity
    requires 3 * p < 2 * |bins|
    ensures |best| > p
  {
    SmallTail(bins, capacity, p);
    OverfilledPrefix(bins, capacity, p);
    SplitFlatten(bins, p);
    SumPermutation(Size(), Flatten(bins), Flatten(best));
    SameMembers(Flatten(bins), Flatten(best));
    LoadBound(best, capacity);
    if |best| <= p {
      MulMono(|best|, p, capacity);
      MulSucc(p, capacity);
    }
  }

  lemma MulSucc(p: nat, c: nat)
    ensures p * (c + 1) == p * c + p
  {
  }

  // First-Fit Decreasing opens at most 3/2 times the bins of any packing.
  lemma ThreeHalves<T>(bins: seq<seq<Item<T>>>, best: seq<seq<Item<T>>>, items: seq<Item<T>>, capacity: nat)
    requires Maximal(bins, capacity) && Packs(bins, items, capacity) && Packs(best, items, capacity)
    ensures 2 * |bins| <= 3 * |best|
  {
    if bins != [] {
      var p := (2 * |bins| - 1) / 3;
      if 2 * bins[p][0].size > capacity {
        ManyBigItems(bins, best, items, capacity, p);
      } else {
        ManySmallItems(bins, best, items, capacity, p);
      }
    }
  }

  // The bins for the sorted samples: a packing of the samples given, maximal, and near-optimal.
  lemma GreedyKnapsackBound<T>(items: seq<Item<T>>, capacity: nat)
    requires AllFit(items, capacity)
    ensures AllFit(SortBySize(items), capacity)
    ensures var bins := FillAll(SortBySize(items), capacity);
            && Packs(bins, items, capacity) && Maximal(bins, capacity)
            && (forall i, j :: 0 <= i < j < |bins| ==> Load(bins[i]) + Load(bins[j]) > capacity)
            && (forall best :: Packs(best, items, capacity) ==> 2 * |bins| <= 3 * |best|)
  {
    AllFitSorted(items, capacity);
    SortBySizeIsStable(items);
    var sorted := SortBySize(items);
    FillAllPacks(sorted, capacity);
    FillAllMaximal(sorted, capacity);
    var bins := FillAll(sorted, capacity);
    forall i, j | 0 <= i < j < |bins| ensures Load(bins[i]) + Load(bins[j]) > capacity {
      assert bins[j][0] in bins[j];
      LoadAtLeast(bins[j], bins[j][0]);
    }
    forall best | Packs(best, items, capacity) ensures 2 * |bins| <= 3 * |best| {
      ThreeHalves(bins, best, items, capacity);
    }
  }

  // Three bins where two suffice: no smaller factor holds for all inputs.
  lemma BoundIsTight()
    ensures exists items: seq<Item<int>>, best ::
              && AllFit(items, 10) && Ascending(items) && Packs(best, items, 10)
              && 2 * |FillAll(items, 10)| == 3 * |best| == 6
  {
    var items := [Item(2, 0), Item(3, 1), Item(3, 2), Item(3, 3), Item(4, 4), Item(5, 5)];
    Example(items);
  }

  lemma Example(items: seq<Item<int>>)
    requires ExampleSizes(items)
    ensures exists best ::
              && AllFit(items, 10) && Ascending(items) && Packs(best, items, 10)
              && 2 * |FillAll(items, 10)| == 3 * |best| == 6
  {
    GreedyNeedsThree(items);
    PacksInTwo(items);
  }

  ghost predicate ExampleSizes(s: seq<Item<int>>) {
    && |s| == 6 && s[0].size == 2 && s[1].size == s[2].size == s[3].size == 3
    && s[4].size == 4 && s[5].size == 5
  }

  lemma GreedyNeedsThree(s: seq<Item<int>>)
    requires ExampleSizes(s)
    ensures AllFit(s, 10) && |FillAll(s, 10)| == 3
  {
    TwoFill(s[..4], s[4], s[5], 10);
    assert s == s[..4] + [s[4], s[5]];
    FillAllStep(s, 10);
    ThreeFill(s[..1], s[1], s[2], s[3], 10);
    assert s[..4] == s[..1] + [s[1], s[2], s[3]];
    FillAllStep(s[..4], 10);
    OneFills(s[0], 10);
    assert s[..1] == [s[0]];
    FillAllStep(s[..1], 10);
    assert |FillAll<int>([], 10)| == 0;
  }

  lemma PacksInTwo(s: seq<Item<int>>)
    requires ExampleSizes(s)
    ensures Packs([[s[0], s[1], s[5]], [s[2], s[3], s[4]]], s, 10)
  {
    FlattenTwo([s[0], s[1], s[5]], [s[2], s[3], s[4]]);
    LoadOfThree(s[0], s[1], s[5]);
    LoadOfThree(s[2], s[3], s[4]);
    ExampleBag(s);
  }

  lemma ExampleBag(s: seq<Item<int>>)
    requires |s| == 6
    ensures multiset([s[0], s[1], s[5]] + [s[2], s[3], s[4]]) == multiset(s)
  {
    MoveToEnd(s[..2], s[5], s[2..5]);
    assert [s[0], s[1], s[5]] + [s[2], s[3], s[4]] == s[..2] + [s[5]] + s[2..5];
    assert s == s[..2] + s[2..5] + [s[5]];
  }

  lemma FillAllStep(items: seq<Item<int>>, capacity: nat)
    requires AllFit(items, capacity) && items != []
    ensures AllFit(FillOne(items, capacity).1, capacity)
    ensures |FillAll(items, capacity)| == 1 + |FillAll(FillOne(items, capacity).1, capacity)|
  {
    FillOneLeft(items, capacity);
  }

  lemma FlattenTwo<A>(a: seq<A>, b: seq<A>)
    ensures Flatten([a, b]) == a + b
  {
    assert [a, b][1..] == [b] && [b][1..] == [];
    assert Flatten([b]) == b + [];
  }

  lemma LoadOfThree(x: Item<int>, y: Item<int>, z: Item<int>)
    ensures Load([x, y, z]) == x.size + y.size + z.size
  {
    LoadCons(z, []);
    LoadCons(y, [z]);
    LoadCons(x, [y, z]);
    assert [x] + [y, z] == [x, y, z] && [y] + [z] == [y, z] && [z] + [] == [z];
  }

  lemma FillTake(items: seq<Item<int>>, before: seq<Item<int>>, item: Item<int>, room: nat)
    requires items == before + [item] && item.size <= room
    ensures var rest := FillOne(before, room - item.size);
            FillOne(items, room) == ([item] + rest.0, rest.1)
  {
    assert RemoveAt(items, |before|) == before;
  }

  lemma {:induction false} FillStop(items: seq<Item<int>>, room: nat)
    requires forall k :: 0 <= k < |items| ==> items[k].size > room
    ensures FillOne(items, room) == ([], items)
  {
    NoFit(items, room);
  }

  lemma {:induction false} NoFit(items: seq<Item<int>>, room: nat)
    requires forall k :: 0 <= k < |items| ==> items[k].size > room
    ensures LastFit(items, room) == -1
  {
    if items != [] {
      NoFit(items[..|items| - 1], room);
    }
  }

  lemma TwoFill(before: seq<Item<int>>, x: Item<int>, y: Item<int>, room: nat)
    requires x.size + y.size <= room
    requires forall k :: 0 <= k < |before| ==> before[k].size > room - x.size - y.size
    ensures FillOne(before + [x, y], room) == ([y, x], before)
  {
    FillTake(before + [x, y], before + [x], y, room);
    FillTake(before + [x], before, x, room - y.size);
    FillStop(before, room - y.size - x.size);
    assert [x] + [] == [x] && [y] + [x] == [y, x];
  }

  lemma ThreeFill(before: seq<Item<int>>, x: Item<int>, y: Item<int>, z: Item<int>, room: nat)
    requires x.size + y.size + z.size <= room
    requires forall k :: 0 <= k < |before| ==> before[k].size > room - x.size - y.size - z.size
    ensures FillOne(before + [x, y, z], room) == ([z, y, x], before)
  {
    FillTake(before + [x, y, z], before + [x, y], z, room);
    TwoFill(before, x, y, room - z.size);
    assert [z] + [y, x] == [z, y, x];
  }

  lemma OneFills(x: Item<int>, room: nat)
    requires x.size <= room
    ensures FillOne([x], room) == ([x], [])
  {
    FillTake([x], [], x, room);
    FillStop([], room - x.size);
    assert [x] + [] == [x];
  }
}
