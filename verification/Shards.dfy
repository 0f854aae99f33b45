/** Cutting the converted tensors of one worker into shards of at most chunk_size bytes. */
module Shards {
  import opened Sequences

  // A converted tensor: its name in the output and its size in bytes.
  datatype Tensor = Tensor(name: string, size: nat)

  function Bytes(tensors: seq<Tensor>): nat {
    Sum((t: Tensor) => t.size, tensors)
  }

  // A first shard fits. It is empty only when nothing fits in it.
  predicate FirstShard(shard: seq<Tensor>, chunkSize: int) {
    shard == [] || Bytes(shard) <= chunkSize
  }

  // Every other shard holds a tensor, and holds more than one only when it fits.
  predicate LaterShard(shard: seq<Tensor>, chunkSize: int) {
    shard != [] && (|shard| == 1 || Bytes(shard) <= chunkSize)
  }

  // The next shard was opened because its first tensor did not fit any more.
  predicate Full(shard: seq<Tensor>, next: seq<Tensor>, chunkSize: int) {
    next != [] && Bytes(shard) + next[0].size > chunkSize
  }

  // The shards after the first: each is well filled and follows a full one.
  predicate LaterShards(before: seq<Tensor>, shards: seq<seq<Tensor>>, chunkSize: int)
    decreases shards
  {
    shards == [] ||
    (LaterShard(shards[0], chunkSize) && Full(before, shards[0], chunkSize)
     && LaterShards(shards[0], shards[1..], chunkSize))
  }

  // The shards hold the tensors in order, none is overfull and none was closed early.
  predicate ShardsOf(shards: seq<seq<Tensor>>, tensors: seq<Tensor>, chunkSize: int) {
    && shards != [] && Flatten(shards) == tensors
    && FirstShard(shards[0], chunkSize) && LaterShards(shards[0], shards[1..], chunkSize)
  }

  method CutShards(tensors: seq<Tensor>, chunkSize: int) returns (shards: seq<seq<Tensor>>, totalSize: nat)
    ensures ShardsOf(shards, tensors, chunkSize)
    ensures totalSize == Bytes(tensors)
  {
    hide Bytes, LaterShards, Flatten;
    var currentSize := 0;
    totalSize := 0;
    shards := [[]];
    NothingCut(chunkSize);
    var i := 0;
    while i < |tensors|
      invariant 0 <= i <= |tensors|
      invariant shards != [] && currentSize == Bytes(shards[|shards| - 1])
      invariant totalSize == Bytes(tensors[..i])
      invariant ShardsOf(shards, tensors[..i], chunkSize)
    {
      var tensor := tensors[i];
      var last := |shards| - 1;
      BytesNext(tensors[..i], tensor);
      assert tensors[..i + 1] == tensors[..i] + [tensor];
      if tensor.size + currentSize > chunkSize {
        OpenShard(shards, tensors[..i], tensor, chunkSize);
        shards := shards + [[]];
        currentSize := 0;
        last := last + 1;
        NoBytes(shards[last]);
      } else {
        ExtendShard(shards, tensors[..i], tensor, chunkSize);
      }
      BytesNext(shards[last], tensor);
      shards := shards[last := shards[last] + [tensor]];
      currentSize := currentSize + tensor.size;
      totalSize := totalSize + tensor.size;
      i := i + 1;
    }
    assert tensors[..i] == tensors;
  }

  lemma NoBytes(tensors: seq<Tensor>)
    requires tensors == []
    ensures Bytes(tensors) == 0
  {
  }

  lemma NothingCut(chunkSize: int)
    ensures ShardsOf([[]], [], chunkSize) && Bytes([]) == 0
  {
  }

  lemma BytesNext(tensors: seq<Tensor>, tensor: Tensor)
    ensures Bytes(tensors + [tensor]) == Bytes(tensors) + tensor.size
  {
    var weight := (t: Tensor) => t.size;
    SumAppend(weight, tensors, [tensor]);
    assert Sum(weight, [tensor]) == weight(tensor) + Sum(weight, []);
  }

  // A tensor that does not fit opens a shard of its own.
  lemma OpenShard(shards: seq<seq<Tensor>>, tensors: seq<Tensor>, tensor: Tensor, chunkSize: int)
    requires ShardsOf(shards, tensors, chunkSize)
    requires tensor.size + Bytes(shards[|shards| - 1]) > chunkSize
    ensures ShardsOf((shards + [[]])[|shards| := [] + [tensor]], tensors + [tensor], chunkSize)
  {
    var r := (shards + [[]])[|shards| := [] + [tensor]];
    assert [] + [tensor] == [tensor];
    assert r == shards + [[tensor]];
    FlattenAppend(shards, [[tensor]]);
    assert Flatten([[tensor]]) == [tensor] + Flatten<Tensor>([]);
    assert r[0] == shards[0] && r[1..] == shards[1..] + [[tensor]];
    LaterOpen(shards[0], shards[1..], tensor, chunkSize);
  }

  lemma {:induction false} LaterOpen(before: seq<Tensor>, shards: seq<seq<Tensor>>, tensor: Tensor, chunkSize: int)
    requires LaterShards(before, shards, chunkSize)
    requires tensor.size + Bytes(if shards == [] then before else shards[|shards| - 1]) > chunkSize
    ensures LaterShards(before, shards + [[tensor]], chunkSize)
    decreases shards
  {
    hide Bytes;
    var r := shards + [[tensor]];
    if shards == [] {
      assert r[0] == [tensor] && r[1..] == [];
    } else {
      LaterOpen(shards[0], shards[1..], tensor, chunkSize);
      assert r[0] == shards[0] && r[1..] == shards[1..] + [[tensor]];
    }
  }

  lemma ExtendShard(shards: seq<seq<Tensor>>, tensors: seq<Tensor>, tensor: Tensor, chunkSize: int)
    requires ShardsOf(shards, tensors, chunkSize)
    requires tensor.size + Bytes(shards[|shards| - 1]) <= chunkSize
    ensures ShardsOf(shards[|shards| - 1 := shards[|shards| - 1] + [tensor]], tensors + [tensor], chunkSize)
  {
    hide Bytes, LaterShards;
    var last := |shards| - 1;
    var r := shards[last := shards[last] + [tensor]];
    BytesNext(shards[last], tensor);
    assert shards == shards[..last] + [shards[last]] && r == shards[..last] + [shards[last] + [tensor]];
    FlattenLast(shards[..last], shards[last]);
    FlattenLast(shards[..last], shards[last] + [tensor]);
    assert Flatten(r) == tensors + [tensor];
    if last == 0 {
      assert r[1..] == shards[1..] == [];
      LaterShardsNone(r[0], r[1..], chunkSize);
    } else {
      assert r[0] == shards[0] && r[1..] == shards[1..][last - 1 := shards[1..][last - 1] + [tensor]];
      LaterExtend(shards[0], shards[1..], tensor, chunkSize);
    }
  }

  lemma LaterShardsNone(before: seq<Tensor>, none: seq<seq<Tensor>>, chunkSize: int)
    requires none == []
    ensures LaterShards(before, none, chunkSize)
  {
  }

  lemma FlattenLast(init: seq<seq<Tensor>>, last: seq<Tensor>)
    ensures Flatten(init + [last]) == Flatten(init) + last
  {
    FlattenAppend(init, [last]);
    assert Flatten([last]) == last + Flatten<Tensor>([]);
  }

  lemma {:induction false} LaterExtend(before: seq<Tensor>, shards: seq<seq<Tensor>>, tensor: Tensor, chunkSize: int)
    requires shards != [] && LaterShards(before, shards, chunkSize)
    requires tensor.size + Bytes(shards[|shards| - 1]) <= chunkSize
    ensures LaterShards(before, shards[|shards| - 1 := shards[|shards| - 1] + [tensor]], chunkSize)
    decreases shards
  {
    hide Bytes;
    var last := |shards| - 1;
    var r := shards[last := shards[last] + [tensor]];
    BytesNext(shards[last], tensor);
    if last == 0 {
      assert r[1..] == [];
      assert r[0][0] == shards[0][0];
    } else {
      LaterExtend(shards[0], shards[1..], tensor, chunkSize);
      assert r[0] == shards[0] && r[1..] == shards[1..][last - 1 := shards[1..][last - 1] + [tensor]];
    }
  }

  // ---------- The cut is the only one of its kind ----------

  lemma BytesPast(a: seq<Tensor>, b: seq<Tensor>)
    ensures a < b ==> Bytes(b) >= Bytes(a) + b[|a|].size
  {
    if a < b {
      var weight := (t: Tensor) => t.size;
      assert b == a + [b[|a|]] + b[|a| + 1..];
      SumAppend(weight, a + [b[|a|]], b[|a| + 1..]);
      BytesNext(a, b[|a|]);
    }
  }

  // Two first pieces of the same list, each closed only when full, are the same piece.
  lemma FirstPieceUnique(a: seq<Tensor>, restA: seq<seq<Tensor>>, b: seq<Tensor>, restB: seq<seq<Tensor>>,
                         chunkSize: int)
    requires a + Flatten(restA) == b + Flatten(restB)
    requires LaterShards(a, restA, chunkSize)
    requires |b| > 1 || (|b| == 1 && a == []) ==> Bytes(b) <= chunkSize
    ensures |b| <= |a|
  {
    if |a| < |b| {
      var all := a + Flatten(restA);
      assert all[..|b|] == b && all[..|a|] == a;
      assert restA != [];
      var next := restA[0][0];
      assert all[|a|] == Flatten(restA)[0] == next;
      assert b == a + b[|a|..] && b[|a|] == next;
      BytesPast(a, b);
    }
  }

  lemma {:induction false} LaterUnique(before: seq<Tensor>, a: seq<seq<Tensor>>, b: seq<seq<Tensor>>, chunkSize: int)
    requires Flatten(a) == Flatten(b)
    requires LaterShards(before, a, chunkSize) && LaterShards(before, b, chunkSize)
    ensures a == b
    decreases a
  {
    hide Bytes;
    if a != [] && b != [] {
      FirstPieceUnique(a[0], a[1..], b[0], b[1..], chunkSize);
      FirstPieceUnique(b[0], b[1..], a[0], a[1..], chunkSize);
      PrefixesAgree(a[0], Flatten(a[1..]), b[0], Flatten(b[1..]));
      LaterUnique(a[0], a[1..], b[1..], chunkSize);
      assert a == [a[0]] + a[1..] && b == [b[0]] + b[1..];
    }
  }

  lemma PrefixesAgree(a: seq<Tensor>, restA: seq<Tensor>, b: seq<Tensor>, restB: seq<Tensor>)
    requires a + restA == b + restB && |a| == |b|
    ensures a == b && restA == restB
  {
    assert a == (a + restA)[..|a|] && b == (b + restB)[..|b|];
    assert restA == (a + restA)[|a|..] && restB == (b + restB)[|b|..];
  }

  // The conditions leave no choice: they determine the shards.
  lemma ShardsAreUnique(a: seq<seq<Tensor>>, b: seq<seq<Tensor>>, tensors: seq<Tensor>, chunkSize: int)
    requires ShardsOf(a, tensors, chunkSize) && ShardsOf(b, tensors, chunkSize)
    ensures a == b
  {
    hide Bytes, LaterShards;
    FirstPieceUnique(a[0], a[1..], b[0], b[1..], chunkSize);
    FirstPieceUnique(b[0], b[1..], a[0], a[1..], chunkSize);
    PrefixesAgree(a[0], Flatten(a[1..]), b[0], Flatten(b[1..]));
    LaterUnique(a[0], a[1..], b[1..], chunkSize);
    assert a == [a[0]] + a[1..] && b == [b[0]] + b[1..];
  }

  // The only shard that can be empty is the first, exactly when the first tensor alone is too large.
  lemma EmptyShardIff(shards: seq<seq<Tensor>>, tensors: seq<Tensor>, chunkSize: int)
    requires ShardsOf(shards, tensors, chunkSize)
    ensures shards[0] == [] <==> tensors == [] || tensors[0].size > chunkSize
    ensures forall k :: 1 <= k < |shards| ==> shards[k] != []
  {
    LaterFilled(shards[0], shards[1..], chunkSize);
    forall k | 1 <= k < |shards| ensures shards[k] != [] {
      assert shards[k] == shards[1..][k - 1];
    }
    if shards[0] == [] {
      if tensors != [] {
        assert Flatten(shards) == [] + Flatten(shards[1..]);
        assert tensors[0] == shards[1..][0][0];
      }
    } else {
      assert tensors[0] == shards[0][0];
    }
  }

  lemma {:induction false} LaterFilled(before: seq<Tensor>, shards: seq<seq<Tensor>>, chunkSize: int)
    requires LaterShards(before, shards, chunkSize)
    ensures forall k :: 0 <= k < |shards| ==> LaterShard(shards[k], chunkSize)
    ensures forall k :: 0 <= k < |shards| ==> Full(if k == 0 then before else shards[k - 1], shards[k], chunkSize)
    decreases shards
  {
    hide Bytes, Full, LaterShard;
    if shards != [] {
      LaterFilled(shards[0], shards[1..], chunkSize);
      forall k | 1 <= k < |shards|
        ensures LaterShard(shards[k], chunkSize) && Full(shards[k - 1], shards[k], chunkSize)
      {
        assert shards[k] == shards[1..][k - 1];
        assert k > 1 ==> shards[k - 1] == shards[1..][k - 2];
      }
    }
  }
}
