/** From encoded samples to packed samples: truncation to the packing length, the knapsack over
    total lengths, and the concatenation of each knapsack with its cumulative lengths. */
module PackedSamples {
  import opened Arithmetic
  import opened Sequences
  import opened Wrappers
  import opened Packing
  import opened PackingBound

  const IGNORE_INDEX := -100

  datatype Sample = Sample(tokens: seq<int>, labels: seq<int>, imgs: seq<int>, numTiles: seq<nat>, totalLen: nat)

  datatype PackedSample = PackedSample(tokens: seq<int>, labels: seq<int>, imgs: seq<int>, numTiles: seq<int>,
                                       cuLengths: seq<int>, maxLength: nat)

  datatype SampleError = AllTargetsIgnored | ExceedsPackingLength | NothingToPack | Knapsack(error: PackError)

  function Tiles(numTiles: seq<nat>): nat {
    Sum((n: nat) => n, numTiles)
  }

  function TotalSeqLength(textLength: nat, numTiles: seq<nat>, embeddingsPerTile: nat): int {
    textLength + Tiles(numTiles) * embeddingsPerTile - |numTiles|
  }

  // ---------- The total length is the length after image tokens are expanded ----------

  function Count(arr: seq<int>, token: int): nat {
    Sum((x: int) => if x == token then 1 else 0, arr)
  }

  // replace_value_with_repetition: each occurrence of the token becomes its own run of new tokens.
  method ReplaceValueWithRepetition(arr: seq<int>, token: int, repetitions: seq<nat>, newToken: int)
    returns (result: seq<int>)
    requires Count(arr, token) == |repetitions|
    ensures result == Expand(arr, token, repetitions, newToken)
  {
    result := [];
    var idx := 0;
    for k := 0 to |arr|
      invariant idx <= |repetitions| && Count(arr[k..], token) == |repetitions| - idx
      invariant result + Expand(arr[k..], token, repetitions[idx..], newToken)
             == Expand(arr, token, repetitions, newToken)
    {
      var item := arr[k];
      assert arr[k..][1..] == arr[k + 1..];
      if item == token {
        ghost var tail := Expand(arr[k + 1..], token, repetitions[idx..][1..], newToken);
        var run := Repeat(newToken, repetitions[idx]);
        assert result + (run + tail) == (result + run) + tail;
        assert repetitions[idx..][1..] == repetitions[idx + 1..];
        result := result + run;
        idx := idx + 1;
      } else {
        ghost var tail := Expand(arr[k + 1..], token, repetitions[idx..], newToken);
        assert result + ([item] + tail) == (result + [item]) + tail;
        result := result + [item];
      }
    }
    assert result + [] == result;
  }

  function Expand(arr: seq<int>, token: int, repetitions: seq<nat>, newToken: int): seq<int>
    requires Count(arr, token) == |repetitions|
  {
    if arr == [] then []
    else if arr[0] == token then
      Repeat(newToken, repetitions[0]) + Expand(arr[1..], token, repetitions[1..], newToken)
    else [arr[0]] + Expand(arr[1..], token, repetitions, newToken)
  }

  lemma {:induction false} CountConcat(a: seq<int>, b: seq<int>, token: int)
    ensures Count(a + b, token) == Count(a, token) + Count(b, token)
  {
    if a == [] {
      assert a + b == b;
    } else {
      assert (a + b)[1..] == a[1..] + b;
      CountConcat(a[1..], b, token);
    }
  }

  // Two parts of a list are expanded on their own.
  lemma {:induction false} ExpandConcat(
    a: seq<int>, b: seq<int>, token: int, r: seq<nat>, s: seq<nat>, newToken: int)
    requires Count(a, token) == |r| && Count(b, token) == |s|
    ensures Count(a + b, token) == |r + s|
    ensures Expand(a + b, token, r + s, newToken) == Expand(a, token, r, newToken) + Expand(b, token, s, newToken)
  {
    CountConcat(a, b, token);
    if a == [] {
      assert a + b == b && r + s == s;
    } else {
      assert (a + b)[1..] == a[1..] + b;
      if a[0] == token {
        ExpandConcat(a[1..], b, token, r[1..], s, newToken);
        assert (r + s)[1..] == r[1..] + s;
      } else {
        ExpandConcat(a[1..], b, token, r, s, newToken);
      }
    }
  }

  lemma {:induction false} ExpandedLength(arr: seq<int>, token: int, repetitions: seq<nat>, newToken: int)
    requires Count(arr, token) == |repetitions|
    ensures |Expand(arr, token, repetitions, newToken)| == |arr| - |repetitions| + Tiles(repetitions)
  {
    if arr != [] {
      ExpandedLength(arr[1..], token, if arr[0] == token then repetitions[1..] else repetitions, newToken);
    }
  }

  // Where the element at position p goes, when k occurrences of the token precede it.
  function Place(repetitions: seq<nat>, p: nat, k: nat): int
    requires k <= |repetitions|
  {
    p - k + Tiles(repetitions[..k])
  }

  // The k-th occurrence of the token becomes exactly repetitions[k] new tokens at its place, and any other element
  // is kept at its own.
  lemma ExpandPlaces(arr: seq<int>, token: int, repetitions: seq<nat>, newToken: int, p: nat)
    requires Count(arr, token) == |repetitions| && p < |arr|
    ensures var k := Count(arr[..p], token);
            var r := Expand(arr, token, repetitions, newToken);
            && k <= |repetitions| && 0 <= Place(repetitions, p, k)
            && (arr[p] != token ==>
                  Place(repetitions, p, k) < |r| && r[Place(repetitions, p, k)] == arr[p])
            && (arr[p] == token ==>
                  k < |repetitions| && Place(repetitions, p, k) + repetitions[k] <= |r|
                  && forall i :: Place(repetitions, p, k) <= i < Place(repetitions, p, k) + repetitions[k] ==>
                       r[i] == newToken)
  {
    var before, after := arr[..p], arr[p..];
    var k := Count(before, token);
    assert before + after == arr;
    CountConcat(before, after, token);
    var early, late := repetitions[..k], repetitions[k..];
    assert early + late == repetitions;
    ExpandConcat(before, after, token, early, late, newToken);
    ExpandedLength(before, token, early, newToken);
    assert after[0] == arr[p];
  }

  function ScaledTiles(numTiles: seq<nat>, embeddingsPerTile: nat): (r: seq<nat>)
    ensures |r| == |numTiles| && forall k :: 0 <= k < |r| ==> r[k] == embeddingsPerTile * numTiles[k]
  {
    if numTiles == [] then [] else [embeddingsPerTile * numTiles[0]] + ScaledTiles(numTiles[1..], embeddingsPerTile)
  }

  lemma {:induction false} ExpandedLengthIsTotalLength(
    arr: seq<int>, token: int, numTiles: seq<nat>, embeddingsPerTile: nat, newToken: int)
    requires Count(arr, token) == |numTiles|
    ensures |Expand(arr, token, ScaledTiles(numTiles, embeddingsPerTile), newToken)|
         == TotalSeqLength(|arr|, numTiles, embeddingsPerTile)
    decreases |arr|
  {
    if arr != [] {
      if arr[0] == token {
        ExpandedLengthIsTotalLength(arr[1..], token, numTiles[1..], embeddingsPerTile, newToken);
        Distributes(numTiles[0], Tiles(numTiles[1..]), embeddingsPerTile);
      } else {
        ExpandedLengthIsTotalLength(arr[1..], token, numTiles, embeddingsPerTile, newToken);
      }
    }
  }

  // ---------- Truncation ----------

  // Python's s[:k], where a negative k counts from the end.
  function Take<A>(s: seq<A>, k: int): seq<A> {
    if k >= 0 then (if k <= |s| then s[..k] else s)
    else if |s| + k >= 0 then s[..|s| + k] else []
  }

  function TextBudget(numTiles: seq<nat>, embeddingsPerTile: nat, packingLength: nat): int {
    packingLength - Tiles(numTiles) * embeddingsPerTile + |numTiles|
  }

  function TruncateForPacking(inputIds: seq<int>, target: seq<int>, numTiles: seq<nat>, embeddingsPerTile: nat,
                              packingLength: nat): Result<(seq<int>, seq<int>), SampleError>
  {
    var budget := TextBudget(numTiles, embeddingsPerTile, packingLength);
    var ids, labels := Take(inputIds, budget), Take(target, budget);
    if forall k :: 0 <= k < |labels| ==> labels[k] == IGNORE_INDEX then Err(AllTargetsIgnored) else Ok((ids, labels))
  }

  // A sample that survives truncation fits the packing length exactly when the images leave a
  // non-negative text budget; otherwise the negative slice leaves it longer than the packing
  // length by its whole original text.
  lemma TruncationFitsIffBudget(
    inputIds: seq<int>, target: seq<int>, numTiles: seq<nat>, embeddingsPerTile: nat, packingLength: nat)
    requires |inputIds| == |target|
    ensures var budget := TextBudget(numTiles, embeddingsPerTile, packingLength);
            var r := TruncateForPacking(inputIds, target, numTiles, embeddingsPerTile, packingLength);
            r.Ok? ==>
              var total := TotalSeqLength(|r.value.0|, numTiles, embeddingsPerTile);
              && |r.value.0| == |r.value.1| > 0
              && (total <= packingLength <==> budget >= 0)
              && (budget < 0 ==> total == packingLength + |inputIds| > packingLength)
  {
  }

  // How much a slice to the budget keeps of n tokens.
  function Kept(n: nat, budget: int): int {
    if budget >= n then n else if budget >= 0 then budget else if n + budget >= 0 then n + budget else 0
  }

  // What a truncated sample holds: the first tokens and the first labels, as many of each as the budget keeps. It is
  // dropped exactly when all labels kept are ignored.
  lemma TruncationKeepsPrefixes(
    inputIds: seq<int>, target: seq<int>, numTiles: seq<nat>, embeddingsPerTile: nat, packingLength: nat)
    ensures var budget := packingLength - Tiles(numTiles) * embeddingsPerTile + |numTiles|;
            var r := TruncateForPacking(inputIds, target, numTiles, embeddingsPerTile, packingLength);
            && (r.Err? <==> forall k :: 0 <= k < Kept(|target|, budget) ==> target[k] == -100)
            && (r.Err? ==> r.error == AllTargetsIgnored)
            && (r.Ok? ==> r.value.0 == inputIds[..Kept(|inputIds|, budget)])
            && (r.Ok? ==> r.value.1 == target[..Kept(|target|, budget)])
  {
    hide Tiles;
    var budget := packingLength - Tiles(numTiles) * embeddingsPerTile + |numTiles|;
    TakeKeeps(inputIds, budget);
    TakeKeeps(target, budget);
    hide Take, Kept;
    assert forall k :: 0 <= k < Kept(|target|, budget) ==> Take(target, budget)[k] == target[k];
  }

  lemma TakeKeeps<A>(s: seq<A>, budget: int)
    ensures 0 <= Kept(|s|, budget) <= |s| && Take(s, budget) == s[..Kept(|s|, budget)]
  {
  }

  lemma TilesAre(numTiles: seq<nat>, n: nat)
    ensures Tiles([]) == 0 && Tiles([n] + numTiles) == n + Tiles(numTiles)
  {
    assert ([n] + numTiles)[1..] == numTiles;
  }

  // Five image embeddings do not fit into three positions: the budget is -1, one token is cut, and five remain.
  lemma NegativeBudgetSurvives()
    ensures TextBudget([1], 5, 3) == -1
    ensures TruncateForPacking([1, 2], [1, 2], [1], 5, 3) == Ok(([1], [1]))
    ensures TotalSeqLength(1, [1], 5) == 5 > 3
  {
    assert Tiles([1]) == 1;
    assert Take([1, 2], -1) == [1] && [1][0] != IGNORE_INDEX;
  }

  // ---------- select_samples_to_pack and pack_selected_samples ----------

  function Length(): Sample -> nat {
    (s: Sample) => s.totalLen
  }

  function Lengths(samples: seq<Sample>): (lengths: seq<nat>)
    ensures |lengths| == |samples|
    ensures forall k :: 0 <= k < |samples| ==> lengths[k] == samples[k].totalLen
  {
    if samples == [] then [] else [samples[0].totalLen] + Lengths(samples[1..])
  }

  lemma {:induction false} LoadIsLength(items: seq<Item<Sample>>)
    requires forall item :: item in items ==> item.size == item.sample.totalLen
    ensures Load(items) == Sum(Length(), Samples(items))
  {
    if items != [] {
      assert items[0] in items;
      LoadIsLength(items[1..]);
      assert Samples(items)[1..] == Samples(items[1..]);
    }
  }

  lemma {:induction false} SamplesBag(items: seq<Item<Sample>>, others: seq<Item<Sample>>)
    requires multiset(items) == multiset(others)
    ensures multiset(Samples(items)) == multiset(Samples(others))
    decreases |items|
  {
    SameMembers(items, others);
    if items != [] {
      assert items[0] in others;
      var i :| 0 <= i < |others| && others[i] == items[0];
      MultisetRemove(items, 0);
      MultisetRemove(others, i);
      SamplesBag(RemoveAt(items, 0), RemoveAt(others, i));
      SamplesRemove(items, 0);
      SamplesRemove(others, i);
      PutBack(Samples(items), 0, Samples(others), i);
    }
  }

  lemma {:induction false} SamplesAt(items: seq<Item<Sample>>)
    ensures |Samples(items)| == |items|
    ensures forall k :: 0 <= k < |items| ==> Samples(items)[k] == items[k].sample
  {
    if items != [] {
      SamplesAt(items[1..]);
    }
  }

  lemma SamplesRemove(items: seq<Item<Sample>>, i: nat)
    requires i < |items|
    ensures |Samples(items)| == |items|
    ensures Samples(items)[i] == items[i].sample
    ensures Samples(RemoveAt(items, i)) == RemoveAt(Samples(items), i)
  {
    SamplesAt(items);
    SamplesAt(RemoveAt(items, i));
    var a, b := Samples(RemoveAt(items, i)), RemoveAt(Samples(items), i);
    assert |a| == |b|;
    forall k | 0 <= k < |a| ensures a[k] == b[k] {
      assert RemoveAt(items, i)[k] == if k < i then items[k] else items[k + 1];
    }
  }

  lemma {:induction false} FlattenSamples(bins: seq<seq<Item<Sample>>>)
    ensures Flatten(AllSamples(bins)) == Samples(Flatten(bins))
  {
    if bins != [] {
      FlattenSamples(bins[1..]);
      SamplesConcat(bins[0], Flatten(bins[1..]));
    }
  }

  lemma {:induction false} SamplesConcat(a: seq<Item<Sample>>, b: seq<Item<Sample>>)
    ensures Samples(a + b) == Samples(a) + Samples(b)
  {
    if a == [] {
      assert a + b == b;
    } else {
      assert (a + b)[1..] == a[1..] + b;
      SamplesConcat(a[1..], b);
    }
  }

  lemma {:induction false} ZipSamples(samples: seq<Sample>)
    ensures Samples(Zip(Lengths(samples), samples)) == samples
  {
    if samples != [] {
      ZipSamples(samples[1..]);
      assert Zip(Lengths(samples), samples)[1..] == Zip(Lengths(samples[1..]), samples[1..]);
    }
  }

  lemma {:induction false} AllSamplesAt(bins: seq<seq<Item<Sample>>>)
    ensures |AllSamples(bins)| == |bins|
    ensures forall k :: 0 <= k < |bins| ==> AllSamples(bins)[k] == Samples(bins[k])
  {
    if bins != [] {
      AllSamplesAt(bins[1..]);
    }
  }

  ghost predicate Packable(samples: seq<Sample>, packingLength: nat) {
    samples != [] && Sum(Length(), samples) <= packingLength
  }

  lemma KnapsacksArePackable(samples: seq<Sample>, packingLength: nat)
    requires AllFit(Zip(Lengths(samples), samples), packingLength)
    ensures AllFit(SortBySize(Zip(Lengths(samples), samples)), packingLength)
    ensures var knapsacks := AllSamples(FillAll(SortBySize(Zip(Lengths(samples), samples)), packingLength));
            && multiset(Flatten(knapsacks)) == multiset(samples)
            && forall k :: 0 <= k < |knapsacks| ==> Packable(knapsacks[k], packingLength)
  {
    var items := Zip(Lengths(samples), samples);
    GreedyKnapsackBound(items, packingLength);
    var bins := FillAll(SortBySize(items), packingLength);
    FlattenSamples(bins);
    SamplesBag(Flatten(bins), items);
    SameMembers(Flatten(bins), items);
    ZipSamples(samples);
    AllSamplesAt(bins);
    forall k | 0 <= k < |bins| ensures Packable(Samples(bins[k]), packingLength) {
      forall item: Item<Sample> | item in bins[k] ensures item.size == item.sample.totalLen {
        FlattenMember(bins, k, item);
        var i :| 0 <= i < |items| && items[i] == item;
        assert Paired(Lengths(samples), samples, items);
      }
      LoadIsLength(bins[k]);
      assert Samples(bins[k]) != [];
    }
  }

  // Every sample lands in exactly one knapsack and every knapsack can be packed.
  method SelectSamplesToPack(samples: seq<Sample>, packingLength: nat)
    returns (r: Result<seq<seq<Sample>>, SampleError>)
    ensures r.Ok? <==> forall s :: s in samples ==> s.totalLen <= packingLength
    ensures r.Err? ==> exists s :: s in samples && s.totalLen > packingLength
                                   && r.error == Knapsack(SampleTooLarge(s.totalLen))
    ensures r.Err? ==> forall s :: s in samples ==> r.error.error.size >= s.totalLen
    ensures r.Ok? ==> multiset(Flatten(r.value)) == multiset(samples)
    ensures r.Ok? ==> forall k :: 0 <= k < |r.value| ==> Packable(r.value[k], packingLength)
  {
    var lengths := Lengths(samples);
    ghost var items := Zip(lengths, samples);
    FitIffShort(samples, packingLength);
    var knapsacks := GreedyKnapsack(lengths, samples, packingLength);
    match knapsacks {
      case Err(e) =>
        r := Err(Knapsack(e));
        forall s | s in samples ensures s.totalLen <= e.size {
          var k :| 0 <= k < |samples| && samples[k] == s;
          assert lengths[k] in lengths;
        }
      case Ok(bins) =>
        KnapsacksArePackable(samples, packingLength);
        r := Ok(bins);
    }
  }

  lemma FitIffShort(samples: seq<Sample>, packingLength: nat)
    ensures AllFit(Zip(Lengths(samples), samples), packingLength)
            <==> forall s :: s in samples ==> s.totalLen <= packingLength
  {
    var items := Zip(Lengths(samples), samples);
    assert Paired(Lengths(samples), samples, items);
    if AllFit(items, packingLength) {
      forall s | s in samples ensures s.totalLen <= packingLength {
        var k :| 0 <= k < |samples| && samples[k] == s;
        assert items[k] in items;
      }
    } else {
      var item :| item in items && item.size > packingLength;
      var k :| 0 <= k < |items| && items[k] == item;
      assert samples[k] in samples;
    }
  }

  lemma SumPrefix(samples: seq<Sample>, k: nat)
    requires k < |samples|
    ensures Sum(Length(), samples[..k + 1]) == Sum(Length(), samples[..k]) + samples[k].totalLen
    ensures Sum(Length(), samples[..k + 1]) <= Sum(Length(), samples)
  {
    assert samples[..k + 1] == samples[..k] + [samples[k]];
    SumAppend(Length(), samples[..k], [samples[k]]);
    assert samples == samples[..k + 1] + samples[k + 1..];
    SumAppend(Length(), samples[..k + 1], samples[k + 1..]);
  }

  // cuLengths[i] is where sample i starts in the packed sequence, images included.
  ghost predicate CumulativeLengths(cuLengths: seq<int>, samples: seq<Sample>) {
    && |cuLengths| == |samples| + 1
    && forall i :: 0 <= i <= |samples| ==> cuLengths[i] == Sum(Length(), samples[..i])
  }

  lemma LengthAppend(done: seq<Sample>, s: Sample)
    ensures Sum(Length(), done + [s]) == Sum(Length(), done) + s.totalLen
  {
    SumAppend(Length(), done, [s]);
  }

  lemma CumulativeStep(cuLengths: seq<int>, done: seq<Sample>, s: Sample)
    requires CumulativeLengths(cuLengths, done)
    ensures CumulativeLengths(cuLengths + [Sum(Length(), done) + s.totalLen], done + [s])
  {
    SumAppend(Length(), done, [s]);
    forall i | 0 <= i <= |done| ensures (done + [s])[..i] == done[..i] {
    }
    assert (done + [s])[..|done| + 1] == done + [s];
  }

  // torch.cat over one field of every sample.
  function Concat(field: Sample -> seq<int>, samples: seq<Sample>): seq<int> {
    if samples == [] then [] else field(samples[0]) + Concat(field, samples[1..])
  }

  lemma {:induction false} ConcatStep(field: Sample -> seq<int>, done: seq<Sample>, s: Sample)
    ensures Concat(field, done + [s]) == Concat(field, done) + field(s)
  {
    if done == [] {
      assert done + [s] == [s];
    } else {
      assert (done + [s])[1..] == done[1..] + [s];
      ConcatStep(field, done[1..], s);
    }
  }

  function Tokens(): Sample -> seq<int> { (s: Sample) => s.tokens }

  function Labels(): Sample -> seq<int> { (s: Sample) => s.labels }

  function Images(): Sample -> seq<int> { (s: Sample) => s.imgs }

  function TileCounts(): Sample -> seq<int> { (s: Sample) => s.numTiles }

  ghost predicate Concatenated(
    samples: seq<Sample>, tokens: seq<int>, labels: seq<int>, imgs: seq<int>, numTiles: seq<int>)
  {
    && tokens == Concat(Tokens(), samples) && labels == Concat(Labels(), samples)
    && imgs == Concat(Images(), samples) && numTiles == Concat(TileCounts(), samples)
  }

  lemma NothingConcatenated()
    ensures Concatenated([], [], [], [], [])
  {
  }

  lemma ConcatenatedStep(
    done: seq<Sample>, s: Sample, tokens: seq<int>, labels: seq<int>, imgs: seq<int>, numTiles: seq<int>)
    requires Concatenated(done, tokens, labels, imgs, numTiles)
    ensures Concatenated(done + [s], tokens + s.tokens, labels + s.labels, imgs + s.imgs, numTiles + s.numTiles)
  {
    hide Concat;
    ConcatStep(Tokens(), done, s);
    ConcatStep(Labels(), done, s);
    ConcatStep(Images(), done, s);
    ConcatStep(TileCounts(), done, s);
  }

  // The fields of the packed sample are those of its samples, one sample behind the other.
  lemma PiecesInOrder(
    before: seq<Sample>, s: Sample, after: seq<Sample>, tokens: seq<int>, labels: seq<int>, imgs: seq<int>,
    numTiles: seq<int>)
    requires Concatenated(before + [s] + after, tokens, labels, imgs, numTiles)
    ensures |Concat(Tokens(), before)| + |s.tokens| <= |tokens| && |Concat(Labels(), before)| + |s.labels| <= |labels|
    ensures |Concat(Images(), before)| + |s.imgs| <= |imgs|
    ensures |Concat(TileCounts(), before)| + |s.numTiles| <= |numTiles|
    ensures tokens[|Concat(Tokens(), before)|..][..|s.tokens|] == s.tokens
    ensures labels[|Concat(Labels(), before)|..][..|s.labels|] == s.labels
    ensures imgs[|Concat(Images(), before)|..][..|s.imgs|] == s.imgs
    ensures numTiles[|Concat(TileCounts(), before)|..][..|s.numTiles|] == s.numTiles
  {
    hide Concat;
    PieceAt(Tokens(), before, s, after);
    PieceAt(Labels(), before, s, after);
    PieceAt(Images(), before, s, after);
    PieceAt(TileCounts(), before, s, after);
  }

  lemma {:induction false} PieceAt(field: Sample -> seq<int>, before: seq<Sample>, s: Sample, after: seq<Sample>)
    ensures Concat(field, before + [s] + after) == Concat(field, before) + field(s) + Concat(field, after)
  {
    if after == [] {
      assert before + [s] + [] == before + [s];
      ConcatStep(field, before, s);
    } else {
      var init, last := after[..|after| - 1], after[|after| - 1];
      PieceAt(field, before, s, init);
      assert before + [s] + after == (before + [s] + init) + [last] && init + [last] == after;
      ConcatStep(field, before + [s] + init, last);
      ConcatStep(field, init, last);
    }
  }

  ghost predicate LongestLength(samples: seq<Sample>, maxLength: nat) {
    && (forall s :: s in samples ==> s.totalLen <= maxLength)
    && (maxLength == 0 || exists s :: s in samples && s.totalLen == maxLength)
  }

  lemma LongestStep(done: seq<Sample>, s: Sample, maxLength: nat)
    requires LongestLength(done, maxLength)
    ensures LongestLength(done + [s], if s.totalLen > maxLength then s.totalLen else maxLength)
  {
    assert s in done + [s];
    assert forall x :: x in done ==> x in done + [s];
  }

  method PackSelectedSamples(samples: seq<Sample>, packingLength: nat) returns (r: Result<PackedSample, SampleError>)
    ensures r.Ok? <==> Packable(samples, packingLength)
    ensures r.Err? ==> r.error == (if samples == [] then NothingToPack else ExceedsPackingLength)
    ensures r.Ok? ==>
              var p := r.value;
              && CumulativeLengths(p.cuLengths, samples)
              && Concatenated(samples, p.tokens, p.labels, p.imgs, p.numTiles)
              && LongestLength(samples, p.maxLength)
  {
    var tokens, labels, imgs: seq<int> := [], [], [];
    var currentLength, maxLength: nat := 0, 0;
    var cuLengths: seq<int> := [0];
    ghost var done: seq<Sample>, numTiles: seq<int> := [], [];
    NothingConcatenated();
    for k := 0 to |samples|
      invariant done == samples[..k]
      invariant currentLength == Sum(Length(), done) <= packingLength
      invariant CumulativeLengths(cuLengths, done)
      invariant Concatenated(done, tokens, labels, imgs, numTiles)
      invariant LongestLength(done, maxLength)
    {
      var sample := samples[k];
      PrefixStep(samples, k);
      LengthAppend(done, sample);
      ConcatenatedStep(done, sample, tokens, labels, imgs, numTiles);
      CumulativeStep(cuLengths, done, sample);
      LongestStep(done, sample, maxLength);
      if sample.totalLen > maxLength {
        maxLength := sample.totalLen;
      }
      if currentLength + sample.totalLen > packingLength {
        SumPrefix(samples, k);
        return Err(ExceedsPackingLength);
      }
      tokens, labels, imgs := tokens + sample.tokens, labels + sample.labels, imgs + sample.imgs;
      currentLength := currentLength + sample.totalLen;
      cuLengths := cuLengths + [currentLength];
      done, numTiles := done + [sample], numTiles + sample.numTiles;
    }
    assert done == samples;
    if |samples| == 0 {
      return Err(NothingToPack);
    }
    return Ok(PackedSample(tokens, labels, imgs, Concat(TileCounts(), samples), cuLengths, maxLength));
  }
}
