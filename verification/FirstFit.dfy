/** What greedy_knapsack computes: First-Fit Decreasing, and how close that is to the best packing. */
module FirstFit {
  import opened Sequences
  import opened Packing

  // ---------- First-Fit, the reference algorithm ----------

  // Puts one item into the first bin with room, or opens a new bin.
  function Place<T>(bins: seq<seq<Item<T>>>, item: Item<T>, capacity: nat): seq<seq<Item<T>>> {
    if bins == [] then [[item]]
    else if Load(bins[0]) + item.size <= capacity then [bins[0] + [item]] + bins[1..]
    else [bins[0]] + Place(bins[1..], item, capacity)
  }

  function PlaceAll<T>(bins: seq<seq<Item<T>>>, items: seq<Item<T>>, capacity: nat): seq<seq<Item<T>>>
    decreases |items|
  {
    if items == [] then bins else PlaceAll(Place(bins, items[0], capacity), items[1..], capacity)
  }

  // ---------- Filling one bin is a single pass over the descending list ----------

  function Scan<T>(items: seq<Item<T>>, room: nat): (seq<Item<T>>, seq<Item<T>>) {
    if items == [] then ([], [])
    else if items[0].size <= room then
      var rest := Scan(items[1..], room - items[0].size);
      ([items[0]] + rest.0, rest.1)
    else
      var rest := Scan(items[1..], room);
      (rest.0, [items[0]] + rest.1)
  }

  lemma RemoveFromPrefix<A>(s: seq<A>, index: nat)
    requires index < |s| - 1
    ensures var rest := RemoveAt(s, index);
            |rest| == |s| - 1 && rest[..|s| - 2] == RemoveAt(s[..|s| - 1], index) && rest[|s| - 2] == s[|s| - 1]
  {
  }

  // An item too large for the room stays behind, and changes nothing else.
  lemma {:induction false} FillOneSkipsLast<T>(items: seq<Item<T>>, room: nat)
    requires items != [] && items[|items| - 1].size > room
    ensures var before := FillOne(items[..|items| - 1], room);
            FillOne(items, room) == (before.0, before.1 + [items[|items| - 1]])
    decreases |items|
  {
    var last, prefix := items[|items| - 1], items[..|items| - 1];
    var index := LastFit(items, room);
    if index == -1 {
      assert items == prefix + [last];
    } else {
      RemoveFromPrefix(items, index);
      FillOneSkipsLast(RemoveAt(items, index), room - items[index].size);
      assert prefix[index] == items[index];
    }
  }

  lemma FillOneTakesLast<T>(items: seq<Item<T>>, room: nat)
    requires items != [] && items[|items| - 1].size <= room
    ensures var n := |items| - 1;
            var rest := FillOne(items[..n], room - items[n].size);
            FillOne(items, room) == ([items[n]] + rest.0, rest.1)
  {
    var n := |items| - 1;
    assert LastFit(items, room) == n;
    assert RemoveAt(items, n) == items[..n];
  }

  lemma {:induction false} ReverseAppend<A>(s: seq<A>, x: A)
    ensures Reverse(s + [x]) == [x] + Reverse(s)
  {
    assert (s + [x])[..|s|] == s;
  }

  // Repeated binary search over the shrinking list equals one scan from the large end.
  lemma {:induction false} FillOneIsScan<T>(items: seq<Item<T>>, room: nat)
    ensures FillOne(items, room).0 == Scan(Reverse(items), room).0
    ensures Reverse(FillOne(items, room).1) == Scan(Reverse(items), room).1
    decreases |items|
  {
    if items != [] {
      var n := |items| - 1;
      var desc := Reverse(items);
      assert desc[0] == items[n] && desc[1..] == Reverse(items[..n]);
      if items[n].size <= room {
        FillOneTakesLast(items, room);
        FillOneIsScan(items[..n], room - items[n].size);
      } else {
        FillOneSkipsLast(items, room);
        FillOneIsScan(items[..n], room);
        ReverseAppend(FillOne(items[..n], room).1, items[n]);
      }
    }
  }

  lemma LoadAppend<T>(bin: seq<Item<T>>, item: Item<T>)
    ensures Load(bin + [item]) == Load(bin) + item.size
  {
    SumAppend(Size(), bin, [item]);
  }

  // First-Fit gives its first bin exactly the items one scan takes, and the other bins the rest.
  lemma {:induction false} PlaceAllIsScan<T>(
    first: seq<Item<T>>, others: seq<seq<Item<T>>>, items: seq<Item<T>>, capacity: nat)
    requires Load(first) <= capacity
    ensures var scan := Scan(items, capacity - Load(first));
            PlaceAll([first] + others, items, capacity) == [first + scan.0] + PlaceAll(others, scan.1, capacity)
    decreases |items|
  {
    if items == [] {
      assert first + [] == first;
    } else if Load(first) + items[0].size <= capacity {
      PlaceAllTakes(first, others, items, capacity);
      PlaceAllIsScan(first + [items[0]], others, items[1..], capacity);
      var rest := Scan(items[1..], capacity - Load(first) - items[0].size).0;
      assert (first + [items[0]]) + rest == first + ([items[0]] + rest);
    } else {
      PlaceAllSkips(first, others, items, capacity);
      PlaceAllIsScan(first, Place(others, items[0], capacity), items[1..], capacity);
      var rest := Scan(items[1..], capacity - Load(first)).1;
      assert ([items[0]] + rest)[1..] == rest;
    }
  }

  lemma PlaceAllTakes<T>(first: seq<Item<T>>, others: seq<seq<Item<T>>>, items: seq<Item<T>>, capacity: nat)
    requires items != [] && Load(first) + items[0].size <= capacity
    ensures Load(first + [items[0]]) == Load(first) + items[0].size
    ensures PlaceAll([first] + others, items, capacity) == PlaceAll([first + [items[0]]] + others, items[1..], capacity)
  {
    LoadAppend(first, items[0]);
    assert ([first] + others)[1..] == others;
  }

  lemma PlaceAllSkips<T>(first: seq<Item<T>>, others: seq<seq<Item<T>>>, items: seq<Item<T>>, capacity: nat)
    requires items != [] && Load(first) + items[0].size > capacity
    ensures PlaceAll([first] + others, items, capacity)
         == PlaceAll([first] + Place(others, items[0], capacity), items[1..], capacity)
  {
    assert ([first] + others)[1..] == others;
  }

  // The bin-by-bin greedy of the source is First-Fit on the descending order, ties included.
  lemma {:induction false} GreedyIsFirstFitDecreasing<T>(items: seq<Item<T>>, capacity: nat)
    requires AllFit(items, capacity)
    ensures FillAll(items, capacity) == PlaceAll([], Reverse(items), capacity)
    decreases |items|
  {
    if items != [] {
      var desc := Reverse(items);
      FillOneLeft(items, capacity);
      FillOneIsScan(items, capacity);
      GreedyIsFirstFitDecreasing(FillOne(items, capacity).1, capacity);
      assert desc[0] == items[|items| - 1] && desc[0] in items;
      OpenFirstBin(desc, capacity);
    }
  }

  lemma OpenFirstBin<T>(desc: seq<Item<T>>, capacity: nat)
    requires desc != [] && desc[0].size <= capacity
    ensures var scan := Scan(desc, capacity);
            PlaceAll([], desc, capacity) == [scan.0] + PlaceAll([], scan.1, capacity)
  {
    var first := [desc[0]];
    LoadAppend([], desc[0]);
    assert [] + first == first;
    assert Place([], desc[0], capacity) == [first] + [];
    PlaceAllIsScan(first, [], desc[1..], capacity);
  }
}
