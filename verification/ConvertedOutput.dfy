/** The output directory after conversion: which files it holds and what the final index says. */
module ConvertedOutput {
  import opened Sequences
  import opened Shards
  import opened FileNames
  import opened WorkerFiles
  import opened IndexMerge

  // What the workers left in the directory.
  ghost predicate Workers(base: Dir, shards: seq<seq<seq<Tensor>>>, indices: seq<Index>, parts: seq<seq<Tensor>>,
                          chunkSize: int)
  {
    && UniqueNames(Flatten(parts))
    && AllFinished(shards, indices, parts, chunkSize, Below(|parts|))
    && Saved(base, shards, indices, Below(|parts|))
  }

  lemma WorkerFacts(base: Dir, shards: seq<seq<seq<Tensor>>>, indices: seq<Index>, parts: seq<seq<Tensor>>,
                    chunkSize: int, w: nat)
    requires Workers(base, shards, indices, parts, chunkSize)
    ensures |shards| == |indices| == |parts|
    ensures w < |parts| ==>
      Finished(shards[w], indices[w], w, parts[w], chunkSize)
      && HoldsFiles(base, shards[w], w) && HoldsIndex(base, indices[w], w)
  {
    hide UniqueNames, Finished, HoldsFiles, HoldsIndex;
  }

  // ---------- What one worker indexes ----------

  lemma IndexedShard(weightMap: map<string, string>, shards: seq<seq<Tensor>>, w: nat, name: string) returns (i: nat)
    requires Indexes(weightMap, shards, w, |shards|) && name in weightMap
    ensures i < |shards| && name in Names(shards[i]) && weightMap[name] == WorkerFile(w, i, |shards|)
  {
    hide Names, WorkerFile;
    i :| i < |shards| && name in Names(shards[i]);
  }

  lemma IndexedFile(weightMap: map<string, string>, shards: seq<seq<Tensor>>, w: nat, f: string) returns (i: nat)
    requires Indexes(weightMap, shards, w, |shards|) && f in weightMap.Values
    ensures i < |shards| && shards[i] != [] && f == WorkerFile(w, i, |shards|)
  {
    var name :| name in weightMap && weightMap[name] == f;
    i := IndexedShard(weightMap, shards, w, name);
  }

  lemma FilledShardIndexed(weightMap: map<string, string>, shards: seq<seq<Tensor>>, w: nat, i: nat)
    requires Indexes(weightMap, shards, w, |shards|) && i < |shards| && shards[i] != []
    ensures WorkerFile(w, i, |shards|) in weightMap.Values
  {
    hide WorkerFile;
    var name := shards[i][0].name;
    assert name in Names(shards[i]);
    assert weightMap[name] == WorkerFile(w, i, |shards|);
  }

  lemma ShardNames(shards: seq<seq<Tensor>>, tensors: seq<Tensor>, i: nat)
    requires Flatten(shards) == tensors && i < |shards|
    ensures Names(shards[i]) <= Names(tensors)
  {
    forall t | t in shards[i] ensures t in tensors {
      FlattenMember(shards, i, t);
    }
  }

  // ---------- The workers' output is fit for merging ----------

  lemma WorkersMergeable(base: Dir, shards: seq<seq<seq<Tensor>>>, indices: seq<Index>, parts: seq<seq<Tensor>>,
                         chunkSize: int)
    requires Workers(base, shards, indices, parts, chunkSize)
    ensures MergeInput(base, indices)
  {
    hide WorkerFile, WorkerIndex, Temporary, Names, UniqueNames, Indexes, Saved, ShardsOf, HoldsIndex, Cleared, Workers;
    WorkerFacts(base, shards, indices, parts, chunkSize, 0);
    forall f | f in base ensures Temporary(f) {
      BaseTemporary(base, shards, indices, parts, chunkSize, f);
    }
    forall w: nat, f | w < |indices| && f in indices[w].weightMap.Values
      ensures f in base && !Cleared(f, |indices|)
    {
      WorkerFacts(base, shards, indices, parts, chunkSize, w);
      var i := IndexedFile(indices[w].weightMap, shards[w], w, f);
      NeverCleared(w, i, |shards[w]|, |indices|);
    }
    forall v: nat, w: nat | v < w < |indices|
      ensures indices[v].weightMap.Values !! indices[w].weightMap.Values
    {
      WorkerFacts(base, shards, indices, parts, chunkSize, v);
      WorkerFacts(base, shards, indices, parts, chunkSize, w);
      FilesApart(indices[v].weightMap, shards[v], v, indices[w].weightMap, shards[w], w);
    }
    UniqueParts(base, shards, indices, parts, chunkSize);
    forall v: nat, w: nat | v < w < |indices|
      ensures indices[v].weightMap.Keys !! indices[w].weightMap.Keys
    {
      KeysAreNames(base, shards, indices, parts, chunkSize, v);
      KeysAreNames(base, shards, indices, parts, chunkSize, w);
    }
  }

  lemma UniqueParts(base: Dir, shards: seq<seq<seq<Tensor>>>, indices: seq<Index>, parts: seq<seq<Tensor>>,
                    chunkSize: int)
    requires Workers(base, shards, indices, parts, chunkSize)
    ensures DisjointNames(parts)
  {
    hide UniqueNames, Saved, AllFinished;
    PiecesUnique(parts);
  }

  lemma BaseTemporary(base: Dir, shards: seq<seq<seq<Tensor>>>, indices: seq<Index>, parts: seq<seq<Tensor>>,
                      chunkSize: int, f: string)
    requires Workers(base, shards, indices, parts, chunkSize) && f in base
    ensures Temporary(f)
  {
    hide WorkerFile, WorkerIndex, Temporary, UniqueNames, HoldsFiles, HoldsIndex, Finished;
    assert WrittenByOne(f, shards, Below(|parts|));
    var w: nat :| w in Below(|parts|) && w < |shards| && WrittenBy(f, w, |shards[w]|);
    if f == WorkerIndex(w) {
      NamesApart(w, 0, 0, 0, 0);
    } else {
      var i: nat :| i < |shards[w]| && f == WorkerFile(w, i, |shards[w]|);
      NamesApart(w, i, |shards[w]|, 0, 0);
    }
  }

  lemma NeverCleared(w: nat, i: nat, n: nat, cleared: nat)
    ensures !Cleared(WorkerFile(w, i, n), cleared)
  {
    hide WorkerFile, WorkerIndex;
    forall v: nat ensures WorkerFile(w, i, n) != WorkerIndex(v) {
      WorkerIndexIsNoFile(v, w, i, n);
    }
  }

  lemma FilesApart(a: map<string, string>, shardsA: seq<seq<Tensor>>, v: nat,
                   b: map<string, string>, shardsB: seq<seq<Tensor>>, w: nat)
    requires v != w && Indexes(a, shardsA, v, |shardsA|) && Indexes(b, shardsB, w, |shardsB|)
    ensures a.Values !! b.Values
  {
    hide WorkerFile, Indexes;
    forall f | f in a.Values ensures f !in b.Values {
      if f in b.Values {
        var i := IndexedFile(a, shardsA, v, f);
        var j := IndexedFile(b, shardsB, w, f);
        WorkerFileUnique(v, i, |shardsA|, w, j, |shardsB|);
      }
    }
  }

  lemma KeysAreNames(base: Dir, shards: seq<seq<seq<Tensor>>>, indices: seq<Index>, parts: seq<seq<Tensor>>,
                     chunkSize: int, w: nat)
    requires Workers(base, shards, indices, parts, chunkSize) && w < |parts|
    ensures w < |indices| && indices[w].weightMap.Keys == Names(parts[w])
  {
    hide WorkerFile, UniqueNames, HoldsFiles, HoldsIndex, Saved, Workers;
    WorkerFacts(base, shards, indices, parts, chunkSize, w);
    forall name | name in indices[w].weightMap ensures name in Names(parts[w]) {
      var i := IndexedShard(indices[w].weightMap, shards[w], w, name);
      ShardNames(shards[w], parts[w], i);
    }
    forall t | t in parts[w] ensures t.name in indices[w].weightMap {
      var i := FlattenIndex(shards[w], t);
      assert t.name in Names(shards[w][i]);
    }
  }

  // ---------- The merged output ----------

  // What merging leaves: the passes applied to the workers' output.
  ghost predicate Merged(dir: Dir, index: Index, moved: seq<string>, names: seq<string>, base: Dir,
                         indices: seq<Index>)
  {
    && Distinct(moved) && (forall f :: f in moved <==> SourceOf(f, indices, |indices|))
    && FinalMap(index.weightMap, indices, moved)
    && index.totalSize == TotalSize(indices)
    && Numbered(names, |moved|, |moved|)
    && INDEX_FILE in dir && dir[INDEX_FILE] == IndexJson(index)
    && Placed(dir - {INDEX_FILE}, base, moved, names, |indices|)
  }

  ghost predicate FileHolds(dir: Dir, f: string, t: Tensor) {
    f in dir && dir[f].TensorFile? && t in dir[f].tensors
  }

  lemma PlacedAt(dir: Dir, index: Index, moved: seq<string>, names: seq<string>, base: Dir, indices: seq<Index>, k: nat)
    requires Merged(dir, index, moved, names, base, indices) && k < |moved|
    ensures |names| == |moved| && moved[k] in base && names[k] == FinalFile(k + 1, |moved|)
    ensures FinalFile(k + 1, |moved|) in dir && dir[FinalFile(k + 1, |moved|)] == base[moved[k]]
  {
    hide FinalFile, ModelFile, FinalMap, Distinct, Remains, INDEX_FILE;
    assert names[k] in dir - {INDEX_FILE};
  }

  // Where a worker's shard ends up: in one final file, under which its tensors are indexed.
  lemma ShardPlace(dir: Dir, index: Index, moved: seq<string>, names: seq<string>, base: Dir,
                   shards: seq<seq<seq<Tensor>>>, indices: seq<Index>, parts: seq<seq<Tensor>>, chunkSize: int,
                   w: nat, i: nat, name: string) returns (k: nat)
    requires Workers(base, shards, indices, parts, chunkSize)
    requires Merged(dir, index, moved, names, base, indices)
    requires |shards| == |indices| == |parts|
    requires w < |parts| && i < |shards[w]| && name in Names(shards[w][i])
    ensures k < |moved| && moved[k] == WorkerFile(w, i, |shards[w]|)
    ensures name in index.weightMap && index.weightMap[name] == FinalFile(k + 1, |moved|)
    ensures FinalFile(k + 1, |moved|) in dir
    ensures dir[FinalFile(k + 1, |moved|)] == TensorFile(shards[w][i])
  {
    hide FinalFile, WorkerFile, Names, UniqueNames, HoldsIndex, Saved, Placed, Numbered, Distinct,
         INDEX_FILE, Workers, ShardsOf;
    WorkerFacts(base, shards, indices, parts, chunkSize, w);
    assert name in indices[w].weightMap;
    assert FinalPlace(index.weightMap[name], WorkerFile(w, i, |shards[w]|), moved);
    k :| k < |moved| && moved[k] == WorkerFile(w, i, |shards[w]|)
      && index.weightMap[name] == FinalFile(k + 1, |moved|);
    PlacedAt(dir, index, moved, names, base, indices, k);
  }

  // The index lists exactly the converted tensors.
  lemma IndexListsTensors(dir: Dir, index: Index, moved: seq<string>, names: seq<string>, base: Dir,
                          shards: seq<seq<seq<Tensor>>>, indices: seq<Index>, parts: seq<seq<Tensor>>, chunkSize: int)
    requires Workers(base, shards, indices, parts, chunkSize)
    requires Merged(dir, index, moved, names, base, indices)
    ensures index.weightMap.Keys == Names(Flatten(parts))
  {
    hide Workers, Merged, Names, Flatten;
    forall name | name in index.weightMap ensures name in Names(Flatten(parts)) {
      NameIsOfTensor(dir, index, moved, names, base, shards, indices, parts, chunkSize, name);
    }
    forall name | name in Names(Flatten(parts)) ensures name in index.weightMap {
      var t := Named(Flatten(parts), name);
      TensorIsWhereIndexed(dir, index, moved, names, base, shards, indices, parts, chunkSize, t);
    }
  }

  lemma Named(tensors: seq<Tensor>, name: string) returns (t: Tensor)
    requires name in Names(tensors)
    ensures t in tensors && t.name == name
  {
    t :| t in tensors && t.name == name;
  }

  lemma NameIsOfTensor(dir: Dir, index: Index, moved: seq<string>, names: seq<string>, base: Dir,
                       shards: seq<seq<seq<Tensor>>>, indices: seq<Index>, parts: seq<seq<Tensor>>,
                       chunkSize: int, name: string)
    requires Workers(base, shards, indices, parts, chunkSize)
    requires Merged(dir, index, moved, names, base, indices)
    requires name in index.weightMap
    ensures name in Names(Flatten(parts))
  {
    hide Workers, FinalPlace, Placed, Numbered, Distinct, INDEX_FILE, SourceOf, Names, Flatten;
    assert IndexedBy(name, indices, |indices|);
    var w: nat :| w < |indices| && name in indices[w].weightMap;
    WorkerFacts(base, shards, indices, parts, chunkSize, w);
    KeysAreNames(base, shards, indices, parts, chunkSize, w);
    assert name in indices[w].weightMap.Keys;
    ShardNames(parts, Flatten(parts), w);
  }

  // Every converted tensor is in the file its name is mapped to.
  lemma TensorIsWhereIndexed(dir: Dir, index: Index, moved: seq<string>, names: seq<string>, base: Dir,
                             shards: seq<seq<seq<Tensor>>>, indices: seq<Index>, parts: seq<seq<Tensor>>,
                             chunkSize: int, t: Tensor)
    requires Workers(base, shards, indices, parts, chunkSize)
    requires Merged(dir, index, moved, names, base, indices)
    requires t in Flatten(parts)
    ensures t.name in index.weightMap && FileHolds(dir, index.weightMap[t.name], t)
  {
    hide Workers, Merged, FinalFile, WorkerFile, Saved, HoldsFiles, HoldsIndex, Indexes;
    var w := FlattenIndex(parts, t);
    WorkerFacts(base, shards, indices, parts, chunkSize, w);
    var i := FlattenIndex(shards[w], t);
    assert t.name in Names(shards[w][i]);
    var k := ShardPlace(dir, index, moved, names, base, shards, indices, parts, chunkSize, w, i, t.name);
  }

  ghost predicate Fits(tensors: seq<Tensor>, chunkSize: int) {
    |tensors| == 1 || Bytes(tensors) <= chunkSize
  }

  lemma FilledShardFits(shards: seq<seq<Tensor>>, tensors: seq<Tensor>, chunkSize: int, i: nat)
    requires ShardsOf(shards, tensors, chunkSize) && i < |shards| && shards[i] != []
    ensures Fits(shards[i], chunkSize)
  {
    hide Bytes, LaterShards, Flatten;
    if i > 0 {
      LaterFilled(shards[0], shards[1..], chunkSize);
      assert shards[i] == shards[1..][i - 1];
    }
  }

  // A moved file came from a worker's filled shard.
  lemma SourceShard(base: Dir, shards: seq<seq<seq<Tensor>>>, indices: seq<Index>, parts: seq<seq<Tensor>>,
                    chunkSize: int, f: string) returns (w: nat, i: nat)
    requires Workers(base, shards, indices, parts, chunkSize) && SourceOf(f, indices, |indices|)
    ensures |shards| == |indices| == |parts|
    ensures w < |parts| && i < |shards[w]| && shards[w][i] != [] && f == WorkerFile(w, i, |shards[w]|)
    ensures forall t :: t in shards[w][i] ==> t in Flatten(parts)
    ensures Fits(shards[w][i], chunkSize)
  {
    hide Workers, WorkerFile, Indexes, HoldsFiles, HoldsIndex, Saved;
    w :| w < |indices| && f in indices[w].weightMap.Values;
    WorkerFacts(base, shards, indices, parts, chunkSize, w);
    i := IndexedFile(indices[w].weightMap, shards[w], w, f);
    FilledShardFits(shards[w], parts[w], chunkSize, i);
    forall t | t in shards[w][i] ensures t in Flatten(parts) {
      FlattenMember(shards[w], i, t);
      FlattenMember(parts, w, t);
    }
  }

  // The numbered file k holds converted tensors only, at least one and within the limit, all indexed under this file.
  ghost predicate NumberedFile(dir: Dir, index: Index, parts: seq<seq<Tensor>>, chunkSize: int, k: nat,
                               total: nat)
  {
    var f := FinalFile(k, total);
    && f in dir && dir[f].TensorFile? && dir[f].tensors != [] && Fits(dir[f].tensors, chunkSize)
    && forall t :: t in dir[f].tensors ==>
         t in Flatten(parts) && t.name in index.weightMap && index.weightMap[t.name] == f
  }

  lemma NumberedFilesIndexed(dir: Dir, index: Index, moved: seq<string>, names: seq<string>, base: Dir,
                             shards: seq<seq<seq<Tensor>>>, indices: seq<Index>, parts: seq<seq<Tensor>>,
                             chunkSize: int, k: nat)
    requires Workers(base, shards, indices, parts, chunkSize)
    requires Merged(dir, index, moved, names, base, indices)
    requires k < |moved|
    ensures NumberedFile(dir, index, parts, chunkSize, k + 1, |moved|)
  {
    hide Workers, FinalFile, WorkerFile, FinalMap, Placed, Numbered, SourceOf, INDEX_FILE, Flatten, Bytes;
    assert moved[k] in moved;
    var w, i := SourceShard(base, shards, indices, parts, chunkSize, moved[k]);
    forall t | t in shards[w][i]
      ensures t.name in index.weightMap && index.weightMap[t.name] == FinalFile(k + 1, |moved|)
    {
      assert t.name in Names(shards[w][i]);
      var k' := ShardPlace(dir, index, moved, names, base, shards, indices, parts, chunkSize, w, i, t.name);
      SamePosition(moved, k, k');
    }
    assert shards[w][i][0].name in Names(shards[w][i]);
    var k' := ShardPlace(dir, index, moved, names, base, shards, indices, parts, chunkSize, w, i, shards[w][i][0].name);
    SamePosition(moved, k, k');
  }

  lemma SamePosition(moved: seq<string>, k: nat, k': nat)
    requires Distinct(moved) && k < |moved| && k' < |moved| && moved[k] == moved[k']
    ensures k == k'
  {
  }

  // ---------- Files left over ----------

  // The worker's first tensor does not fit in a shard, or it has none: its first shard stays empty.
  predicate EmptyFirst(tensors: seq<Tensor>, chunkSize: int) {
    tensors == [] || tensors[0].size > chunkSize
  }

  // An empty first shard: saved by its worker, in no index, so never renamed.
  ghost predicate Orphan(dir: Dir, f: string, parts: seq<seq<Tensor>>, chunkSize: int) {
    f in dir && dir[f] == TensorFile([]) &&
    exists w: nat, n: nat :: w < |parts| && EmptyFirst(parts[w], chunkSize) && f == WorkerFile(w, 0, n)
  }

  lemma LeftOverIsOrphan(dir: Dir, index: Index, moved: seq<string>, names: seq<string>, base: Dir,
                         shards: seq<seq<seq<Tensor>>>, indices: seq<Index>, parts: seq<seq<Tensor>>,
                         chunkSize: int, f: string)
    requires Workers(base, shards, indices, parts, chunkSize)
    requires Merged(dir, index, moved, names, base, indices)
    requires Remains(f, base, moved, |indices|)
    ensures Orphan(dir, f, parts, chunkSize)
  {
    hide WorkerFile, WorkerIndex, UniqueNames, Indexes, FinalMap, Numbered, Distinct, INDEX_FILE, ShardsOf, HoldsFiles;
    WorkerFacts(base, shards, indices, parts, chunkSize, 0);
    assert WrittenByOne(f, shards, Below(|parts|));
    var w: nat :| w in Below(|parts|) && w < |shards| && WrittenBy(f, w, |shards[w]|);
    assert f != WorkerIndex(w) by {
      assert !Cleared(f, |indices|);
    }
    var i: nat :| i < |shards[w]| && f == WorkerFile(w, i, |shards[w]|);
    WorkerFacts(base, shards, indices, parts, chunkSize, w);
    StillThere(dir, index, moved, names, base, indices, f);
    EmptyShardIff(shards[w], parts[w], chunkSize);
    if shards[w][i] != [] {
      FilledShardIsSource(indices, shards[w], w, i);
    }
    HeldShard(base, shards[w], w, i);
    assert i == 0 && EmptyFirst(parts[w], chunkSize);
  }

  lemma FilledShardIsSource(indices: seq<Index>, shards: seq<seq<Tensor>>, w: nat, i: nat)
    requires w < |indices| && Indexes(indices[w].weightMap, shards, w, |shards|) && i < |shards| && shards[i] != []
    ensures SourceOf(WorkerFile(w, i, |shards|), indices, |indices|)
  {
    hide WorkerFile, Indexes;
    FilledShardIndexed(indices[w].weightMap, shards, w, i);
  }

  lemma HeldShard(base: Dir, shards: seq<seq<Tensor>>, w: nat, i: nat)
    requires HoldsFiles(base, shards, w) && i < |shards|
    ensures WorkerFile(w, i, |shards|) in base && base[WorkerFile(w, i, |shards|)] == TensorFile(shards[i])
  {
  }

  lemma StillThere(dir: Dir, index: Index, moved: seq<string>, names: seq<string>, base: Dir, indices: seq<Index>,
                   f: string)
    requires Merged(dir, index, moved, names, base, indices) && Remains(f, base, moved, |indices|)
    ensures f in dir && f != INDEX_FILE && dir[f] == base[f]
  {
    hide FinalMap, Numbered, Distinct, INDEX_FILE, Remains;
    assert f in dir - {INDEX_FILE};
  }

  lemma OrphanLeft(dir: Dir, index: Index, moved: seq<string>, names: seq<string>, base: Dir,
                   shards: seq<seq<seq<Tensor>>>, indices: seq<Index>, parts: seq<seq<Tensor>>,
                   chunkSize: int, w: nat) returns (f: string)
    requires Workers(base, shards, indices, parts, chunkSize)
    requires Merged(dir, index, moved, names, base, indices)
    requires w < |parts| && EmptyFirst(parts[w], chunkSize)
    ensures f != INDEX_FILE && Orphan(dir, f, parts, chunkSize)
  {
    hide Workers, WorkerFile, HoldsFiles, Indexes, INDEX_FILE, Placed, FinalMap, Numbered, ShardsOf;
    WorkerFacts(base, shards, indices, parts, chunkSize, w);
    EmptyShardIff(shards[w], parts[w], chunkSize);
    ShardsFilled(shards[w], parts[w], chunkSize);
    HeldShard(base, shards[w], w, 0);
    f := WorkerFile(w, 0, |shards[w]|);
    NeverCleared(w, 0, |shards[w]|, |indices|);
    if SourceOf(f, indices, |indices|) {
      var v, i := SourceShard(base, shards, indices, parts, chunkSize, f);
      WorkerFileUnique(v, i, |shards[v]|, w, 0, |shards[w]|);
    }
    StillThere(dir, index, moved, names, base, indices, f);
  }

  lemma ShardsFilled(shards: seq<seq<Tensor>>, tensors: seq<Tensor>, chunkSize: int)
    requires ShardsOf(shards, tensors, chunkSize)
    ensures shards != []
  {
  }

  // ---------- The whole conversion ----------

  lemma {:induction false} TotalIsBytes(shards: seq<seq<seq<Tensor>>>, indices: seq<Index>, parts: seq<seq<Tensor>>,
                                        chunkSize: int, n: nat)
    requires AllFinished(shards, indices, parts, chunkSize, Below(|parts|)) && n <= |parts|
    ensures TotalSize(indices[..n]) == Bytes(Flatten(parts[..n]))
  {
    hide Bytes, Flatten, ShardsOf, Indexes;
    if n == 0 {
      assert indices[..0] == [] && parts[..0] == [];
      NothingFlat(parts[..0]);
    } else {
      TotalIsBytes(shards, indices, parts, chunkSize, n - 1);
      assert indices[..n][..n - 1] == indices[..n - 1];
      assert parts[..n] == parts[..n - 1] + [parts[n - 1]];
      FlattenLast(parts[..n - 1], parts[n - 1]);
      BytesAppend(Flatten(parts[..n - 1]), parts[n - 1]);
      assert Finished(shards[n - 1], indices[n - 1], n - 1, parts[n - 1], chunkSize);
    }
  }

  lemma NothingFlat(none: seq<seq<Tensor>>)
    requires none == []
    ensures Bytes(Flatten(none)) == 0
  {
  }

  lemma BytesAppend(a: seq<Tensor>, b: seq<Tensor>)
    ensures Bytes(a + b) == Bytes(a) + Bytes(b)
  {
    SumAppend((t: Tensor) => t.size, a, b);
  }

  lemma FileIsKnown(dir: Dir, index: Index, moved: seq<string>, names: seq<string>, base: Dir,
                    shards: seq<seq<seq<Tensor>>>, indices: seq<Index>, parts: seq<seq<Tensor>>,
                    chunkSize: int, f: string)
    requires Workers(base, shards, indices, parts, chunkSize)
    requires Merged(dir, index, moved, names, base, indices)
    requires f in dir && f != INDEX_FILE
    ensures IsFinal(f, |moved|) || Orphan(dir, f, parts, chunkSize)
  {
    hide Workers, FinalFile, ModelFile, Remains, FinalMap, SourceOf, Distinct, INDEX_FILE, Orphan;
    assert f in dir - {INDEX_FILE};
    if Remains(f, base, moved, |indices|) {
      LeftOverIsOrphan(dir, index, moved, names, base, shards, indices, parts, chunkSize, f);
    } else {
      var k: nat :| k < |names| && names[k] == f;
      assert 1 <= k + 1 <= |moved| && f == FinalFile(k + 1, |moved|);
    }
  }

  ghost predicate IsFinal(f: string, total: nat) {
    exists k: nat :: 1 <= k <= total && f == FinalFile(k, total)
  }

  // The final index is complete and exact, and only empty shards are left beside the indexed files.
  ghost predicate Converted(dir: Dir, index: Index, total: nat, parts: seq<seq<Tensor>>, chunkSize: int) {
    && INDEX_FILE in dir && dir[INDEX_FILE] == IndexJson(index)
    && index.weightMap.Keys == Names(Flatten(parts))
    && index.totalSize == Bytes(Flatten(parts))
    && (forall t :: t in Flatten(parts) && t.name in index.weightMap ==> FileHolds(dir, index.weightMap[t.name], t))
    && (forall k: nat :: 1 <= k <= total ==> NumberedFile(dir, index, parts, chunkSize, k, total))
    && (forall f :: f in dir && f != INDEX_FILE ==> IsFinal(f, total) || Orphan(dir, f, parts, chunkSize))
    && (forall w: nat :: w < |parts| && EmptyFirst(parts[w], chunkSize) ==>
          exists f :: f != INDEX_FILE && Orphan(dir, f, parts, chunkSize))
  }

  lemma MergedIsConverted(dir: Dir, index: Index, moved: seq<string>, names: seq<string>, base: Dir,
                          shards: seq<seq<seq<Tensor>>>, indices: seq<Index>, parts: seq<seq<Tensor>>, chunkSize: int)
    requires Workers(base, shards, indices, parts, chunkSize)
    requires Merged(dir, index, moved, names, base, indices)
    ensures Converted(dir, index, |moved|, parts, chunkSize)
  {
    MergedHeader(dir, index, moved, names, base, shards, indices, parts, chunkSize);
    IndexListsTensors(dir, index, moved, names, base, shards, indices, parts, chunkSize);
    hide Workers, Merged, Flatten, Names, INDEX_FILE, NumberedFile, Orphan, FileHolds, EmptyFirst, IsFinal, Bytes;
    forall t | t in Flatten(parts) && t.name in index.weightMap ensures FileHolds(dir, index.weightMap[t.name], t) {
      TensorIsWhereIndexed(dir, index, moved, names, base, shards, indices, parts, chunkSize, t);
    }
    forall k: nat | 1 <= k <= |moved| ensures NumberedFile(dir, index, parts, chunkSize, k, |moved|) {
      NumberedFilesIndexed(dir, index, moved, names, base, shards, indices, parts, chunkSize, k - 1);
    }
    forall f | f in dir && f != INDEX_FILE ensures IsFinal(f, |moved|) || Orphan(dir, f, parts, chunkSize) {
      FileIsKnown(dir, index, moved, names, base, shards, indices, parts, chunkSize, f);
    }
    forall w: nat | w < |parts| && EmptyFirst(parts[w], chunkSize)
      ensures exists f :: f != INDEX_FILE && Orphan(dir, f, parts, chunkSize)
    {
      var f := OrphanLeft(dir, index, moved, names, base, shards, indices, parts, chunkSize, w);
    }
  }

  lemma MergedHeader(dir: Dir, index: Index, moved: seq<string>, names: seq<string>, base: Dir,
                     shards: seq<seq<seq<Tensor>>>, indices: seq<Index>, parts: seq<seq<Tensor>>, chunkSize: int)
    requires Workers(base, shards, indices, parts, chunkSize)
    requires Merged(dir, index, moved, names, base, indices)
    ensures INDEX_FILE in dir && dir[INDEX_FILE] == IndexJson(index)
    ensures index.totalSize == Bytes(Flatten(parts))
  {
    hide Bytes, Flatten, FinalMap, Placed, Numbered, Saved, UniqueNames, INDEX_FILE, TotalSize, SourceOf;
    TotalIsBytes(shards, indices, parts, chunkSize, |parts|);
    assert indices[..|parts|] == indices && parts[..|parts|] == parts;
  }

  // Only indexed files are left exactly when every worker has tensors and its first one fits in a shard.
  lemma NothingLeftOverIff(dir: Dir, index: Index, total: nat, parts: seq<seq<Tensor>>, chunkSize: int)
    requires Converted(dir, index, total, parts, chunkSize)
    ensures (forall f :: f in dir && f != INDEX_FILE ==> IsFinal(f, total))
            <==> (forall part :: part in parts ==> !EmptyFirst(part, chunkSize))
  {
    hide Flatten, Names, INDEX_FILE, NumberedFile, FileHolds, EmptyFirst, Bytes;
    if forall part :: part in parts ==> !EmptyFirst(part, chunkSize) {
      forall f | f in dir && f != INDEX_FILE ensures IsFinal(f, total) {
        hide IsFinal;
      }
    } else {
      var part :| part in parts && EmptyFirst(part, chunkSize);
      var w: nat :| w < |parts| && parts[w] == part;
      var f :| f != INDEX_FILE && Orphan(dir, f, parts, chunkSize);
      OrphanIsNotFinal(dir, f, parts, chunkSize, total);
    }
  }

  lemma OrphanIsNotFinal(dir: Dir, f: string, parts: seq<seq<Tensor>>, chunkSize: int, total: nat)
    requires Orphan(dir, f, parts, chunkSize)
    ensures f in dir && !IsFinal(f, total)
  {
    hide WorkerFile, FinalFile, EmptyFirst, Temporary;
    var w: nat, n: nat :| w < |parts| && EmptyFirst(parts[w], chunkSize) && f == WorkerFile(w, 0, n);
    forall k: nat ensures f != FinalFile(k, total) {
      NamesApart(w, 0, n, k, total);
    }
  }

  // Saving by the workers, in any order, followed by the merge.
  method Convert(parts: seq<seq<Tensor>>, chunkSize: int) returns (dir: Dir, index: Index, totalFiles: nat)
    requires UniqueNames(Flatten(parts))
    ensures Converted(dir, index, totalFiles, parts, chunkSize)
  {
    hide UniqueNames, AllFinished, Saved, Converted, MergeInput, FinalMap, Numbered, Placed, SourceOf, Distinct,
         INDEX_FILE, Flatten, TotalSize;
    forall w | 0 <= w < |parts| ensures UniqueNames(parts[w]) {
      PiecesUnique(parts);
    }
    var base, indices, shards := RunWorkers(parts, chunkSize);
    WorkersMergeable(base, shards, indices, parts, chunkSize);
    ghost var names;
    var moved;
    dir, index, moved, names := MergeIndices(base, indices);
    MergedIsConverted(dir, index, moved, names, base, shards, indices, parts, chunkSize);
    totalFiles := |moved|;
  }
}
