/** What the conversion workers leave in the output directory, whatever order they finish in. */
module WorkerFiles {
  import opened Sequences
  import opened Shards
  import opened FileNames

  datatype Index = Index(totalSize: nat, weightMap: map<string, string>)

  datatype Content = TensorFile(tensors: seq<Tensor>) | IndexJson(index: Index)

  // The output directory: file names and what the files hold.
  type Dir = map<string, Content>

  function Names(tensors: seq<Tensor>): set<string> {
    set t | t in tensors :: t.name
  }

  // Every converted tensor has a name of its own.
  predicate UniqueNames(tensors: seq<Tensor>) {
    forall i, j :: 0 <= i < j < |tensors| ==> tensors[i].name != tensors[j].name
  }

  predicate DisjointNames(pieces: seq<seq<Tensor>>) {
    forall i, j :: 0 <= i < j < |pieces| ==> Names(pieces[i]) !! Names(pieces[j])
  }

  lemma UniqueSplits(a: seq<Tensor>, b: seq<Tensor>)
    requires UniqueNames(a + b)
    ensures UniqueNames(a) && UniqueNames(b) && Names(a) !! Names(b)
  {
    var all := a + b;
    forall i, j | 0 <= i < j < |a| ensures a[i].name != a[j].name {
      assert all[i] == a[i] && all[j] == a[j];
    }
    forall i, j | 0 <= i < j < |b| ensures b[i].name != b[j].name {
      assert all[|a| + i] == b[i] && all[|a| + j] == b[j];
    }
    forall t, u | t in a && u in b ensures t.name != u.name {
      var i :| 0 <= i < |a| && a[i] == t;
      var j :| 0 <= j < |b| && b[j] == u;
      assert all[i] == t && all[|a| + j] == u;
    }
  }

  // Pieces of a list of distinct names have distinct names, within and across.
  lemma {:induction false} PiecesUnique(pieces: seq<seq<Tensor>>)
    requires UniqueNames(Flatten(pieces))
    ensures DisjointNames(pieces)
    ensures forall i :: 0 <= i < |pieces| ==> UniqueNames(pieces[i]) && Names(pieces[i]) <= Names(Flatten(pieces))
  {
    hide UniqueNames;
    if pieces != [] {
      var head, tail := pieces[0], pieces[1..];
      UniqueSplits(head, Flatten(tail));
      PiecesUnique(tail);
      assert Names(Flatten(pieces)) == Names(head) + Names(Flatten(tail));
      forall i, j | 0 <= i < j < |pieces| ensures Names(pieces[i]) !! Names(pieces[j]) {
        assert pieces[j] == tail[j - 1];
        assert i > 0 ==> pieces[i] == tail[i - 1];
      }
    }
  }

  // ---------- The index of one worker ----------

  // The first n shards of worker w are indexed, each name under its shard's file.
  ghost predicate Indexes(weightMap: map<string, string>, shards: seq<seq<Tensor>>, w: nat, n: nat)
    requires n <= |shards|
  {
    && (forall i: nat, name :: i < n && name in Names(shards[i]) ==>
          name in weightMap && weightMap[name] == WorkerFile(w, i, |shards|))
    && (forall name :: name in weightMap ==>
          exists i: nat :: i < n && name in Names(shards[i]))
  }

  // The directory after one worker: its shards and its index are added, the rest is untouched.
  ghost predicate Added(dir: Dir, before: Dir, shards: seq<seq<Tensor>>, w: nat, index: Index) {
    && HoldsFiles(dir, shards, w) && HoldsIndex(dir, index, w)
    && (forall f :: f in before && !WrittenBy(f, w, |shards|) ==> f in dir && dir[f] == before[f])
    && (forall f :: f in dir ==> f in before || WrittenBy(f, w, |shards|))
  }

  ghost predicate WrittenBy(f: string, w: nat, n: nat) {
    f == WorkerIndex(w) || exists i: nat :: i < n && f == WorkerFile(w, i, n)
  }

  method SaveTensors(dir: Dir, w: nat, tensors: seq<Tensor>, chunkSize: int)
      returns (after: Dir, index: Index, shards: seq<seq<Tensor>>)
    requires UniqueNames(tensors)
    ensures ShardsOf(shards, tensors, chunkSize)
    ensures index.totalSize == Bytes(tensors) && Indexes(index.weightMap, shards, w, |shards|)
    ensures Added(after, dir, shards, w, index)
  {
    var totalSize;
    shards, totalSize := CutShards(tensors, chunkSize);
    PiecesUnique(shards);
    var weightMap := WeightMap(shards, w);
    index := Index(totalSize, weightMap);
    after := WriteFiles(dir, shards, w, index);
  }

  method WeightMap(shards: seq<seq<Tensor>>, w: nat) returns (weightMap: map<string, string>)
    requires DisjointNames(shards)
    ensures Indexes(weightMap, shards, w, |shards|)
  {
    hide WorkerFile, Names;
    weightMap := map[];
    var i := 0;
    while i < |shards|
      invariant 0 <= i <= |shards| && Indexes(weightMap, shards, w, i)
    {
      var filename := WorkerFile(w, i, |shards|);
      weightMap := weightMap + map name | name in Names(shards[i]) :: filename;
      i := i + 1;
    }
  }

  method WriteFiles(dir: Dir, shards: seq<seq<Tensor>>, w: nat, index: Index) returns (after: Dir)
    ensures Added(after, dir, shards, w, index)
  {
    hide WorkerFile, WorkerIndex;
    after := dir[WorkerIndex(w) := IndexJson(index)];
    var i := 0;
    while i < |shards|
      invariant 0 <= i <= |shards|
      invariant forall k: nat :: k < i ==>
        WorkerFile(w, k, |shards|) in after && after[WorkerFile(w, k, |shards|)] == TensorFile(shards[k])
      invariant WorkerIndex(w) in after && after[WorkerIndex(w)] == IndexJson(index)
      invariant forall f :: f in dir && !WrittenBy(f, w, |shards|) ==> f in after && after[f] == dir[f]
      invariant forall f :: f in after ==> f in dir || WrittenBy(f, w, |shards|)
    {
      forall k: nat | k < i ensures WorkerFile(w, k, |shards|) != WorkerFile(w, i, |shards|) {
        if WorkerFile(w, k, |shards|) == WorkerFile(w, i, |shards|) {
          WorkerFileUnique(w, k, |shards|, w, i, |shards|);
        }
      }
      WorkerIndexIsNoFile(w, w, i, |shards|);
      after := after[WorkerFile(w, i, |shards|) := TensorFile(shards[i])];
      i := i + 1;
    }
  }

  // ---------- All workers, in any order of completion ----------

  function Below(n: nat): (s: set<nat>)
    ensures forall w: nat :: w in s <==> w < n
  {
    if n == 0 then {} else Below(n - 1) + {n - 1}
  }

  ghost predicate HoldsFiles(dir: Dir, shards: seq<seq<Tensor>>, w: nat) {
    forall i: nat :: i < |shards| ==>
      WorkerFile(w, i, |shards|) in dir && dir[WorkerFile(w, i, |shards|)] == TensorFile(shards[i])
  }

  ghost predicate HoldsIndex(dir: Dir, index: Index, w: nat) {
    WorkerIndex(w) in dir && dir[WorkerIndex(w)] == IndexJson(index)
  }

  ghost predicate WrittenByOne(f: string, shards: seq<seq<seq<Tensor>>>, done: set<nat>) {
    exists w: nat :: w in done && w < |shards| && WrittenBy(f, w, |shards[w]|)
  }

  // The workers in done have saved their shards and indices, and nothing else is in the directory.
  ghost predicate Saved(dir: Dir, shards: seq<seq<seq<Tensor>>>, indices: seq<Index>, done: set<nat>)
    requires |shards| == |indices|
  {
    && (forall w: nat :: w in done && w < |shards| ==>
          HoldsFiles(dir, shards[w], w) && HoldsIndex(dir, indices[w], w))
    && (forall f :: f in dir ==> WrittenByOne(f, shards, done))
  }

  ghost predicate Finished(shards: seq<seq<Tensor>>, index: Index, w: nat, tensors: seq<Tensor>, chunkSize: int) {
    && ShardsOf(shards, tensors, chunkSize)
    && index.totalSize == Bytes(tensors) && Indexes(index.weightMap, shards, w, |shards|)
  }

  lemma WrittenApart(f: string, w: nat, n: nat, w': nat, n': nat)
    requires WrittenBy(f, w, n) && WrittenBy(f, w', n')
    ensures w == w'
  {
    hide WorkerFile, WorkerIndex;
    if f == WorkerIndex(w) && f == WorkerIndex(w') {
      WorkerIndexUnique(w, w');
    } else if f == WorkerIndex(w) {
      var i: nat :| i < n' && f == WorkerFile(w', i, n');
      WorkerIndexIsNoFile(w, w', i, n');
    } else {
      var i: nat :| i < n && f == WorkerFile(w, i, n);
      if f == WorkerIndex(w') {
        WorkerIndexIsNoFile(w', w, i, n);
      } else {
        var i': nat :| i' < n' && f == WorkerFile(w', i', n');
        WorkerFileUnique(w, i, n, w', i', n');
      }
    }
  }

  lemma SavedNext(before: Dir, dir: Dir, shards: seq<seq<seq<Tensor>>>, indices: seq<Index>, done: set<nat>, w: nat,
                  newShards: seq<seq<Tensor>>, index: Index)
    requires |shards| == |indices| && w < |shards| && w !in done
    requires Saved(before, shards, indices, done) && Added(dir, before, newShards, w, index)
    ensures Saved(dir, shards[w := newShards], indices[w := index], done + {w})
  {
    hide WorkerFile, WorkerIndex, WrittenBy, HoldsFiles, HoldsIndex, WrittenByOne;
    var shards', indices' := shards[w := newShards], indices[w := index];
    forall v: nat | v in done + {w} && v < |shards'|
      ensures HoldsFiles(dir, shards'[v], v) && HoldsIndex(dir, indices'[v], v)
    {
      if v != w {
        StillHeld(before, dir, shards[v], indices[v], v, newShards, index, w);
      }
    }
    forall f | f in dir ensures WrittenByOne(f, shards', done + {w}) {
      if f in before {
        StillWritten(f, shards, done, w, newShards);
      } else {
        NowWritten(f, shards', done, w);
      }
    }
  }

  lemma StillHeld(before: Dir, dir: Dir, shards: seq<seq<Tensor>>, index: Index, v: nat,
                  newShards: seq<seq<Tensor>>, newIndex: Index, w: nat)
    requires v != w && HoldsFiles(before, shards, v) && HoldsIndex(before, index, v)
    requires Added(dir, before, newShards, w, newIndex)
    ensures HoldsFiles(dir, shards, v) && HoldsIndex(dir, index, v)
  {
    hide WorkerFile, WorkerIndex, WrittenBy;
    forall i: nat | i < |shards|
      ensures WorkerFile(v, i, |shards|) in dir && dir[WorkerFile(v, i, |shards|)] == TensorFile(shards[i])
    {
      OtherFileKept(WorkerFile(v, i, |shards|), v, i, |shards|, w, |newShards|);
    }
    OtherIndexKept(v, w, |newShards|);
  }

  lemma StillWritten(f: string, shards: seq<seq<seq<Tensor>>>, done: set<nat>, w: nat, newShards: seq<seq<Tensor>>)
    requires w < |shards| && w !in done && WrittenByOne(f, shards, done)
    ensures WrittenByOne(f, shards[w := newShards], done + {w})
  {
    hide WrittenBy;
    var v: nat :| v in done && v < |shards| && WrittenBy(f, v, |shards[v]|);
    assert v in done + {w} && WrittenBy(f, v, |shards[w := newShards][v]|);
  }

  lemma NowWritten(f: string, shards: seq<seq<seq<Tensor>>>, done: set<nat>, w: nat)
    requires w < |shards| && WrittenBy(f, w, |shards[w]|)
    ensures WrittenByOne(f, shards, done + {w})
  {
    assert w in done + {w};
  }

  lemma OtherFileKept(f: string, v: nat, i: nat, n: nat, w: nat, n': nat)
    requires f == WorkerFile(v, i, n) && i < n && v != w
    ensures !WrittenBy(f, w, n')
  {
    hide WorkerFile, WorkerIndex;
    assert WrittenBy(f, v, n);
    if WrittenBy(f, w, n') {
      WrittenApart(f, v, n, w, n');
    }
  }

  lemma OtherIndexKept(v: nat, w: nat, n': nat)
    requires v != w
    ensures !WrittenBy(WorkerIndex(v), w, n')
  {
    hide WorkerFile, WorkerIndex;
    assert WrittenBy(WorkerIndex(v), v, 0);
    if WrittenBy(WorkerIndex(v), w, n') {
      WrittenApart(WorkerIndex(v), v, 0, w, n');
    }
  }

  ghost predicate AllFinished(shards: seq<seq<seq<Tensor>>>, indices: seq<Index>, parts: seq<seq<Tensor>>,
                              chunkSize: int, done: set<nat>)
  {
    && |shards| == |indices| == |parts|
    && forall w: nat :: w in done && w < |parts| ==> Finished(shards[w], indices[w], w, parts[w], chunkSize)
  }

  // Each worker cuts and saves its part. The order in which they finish is arbitrary.
  method RunWorkers(parts: seq<seq<Tensor>>, chunkSize: int)
      returns (dir: Dir, indices: seq<Index>, shards: seq<seq<seq<Tensor>>>)
    requires forall w :: 0 <= w < |parts| ==> UniqueNames(parts[w])
    ensures AllFinished(shards, indices, parts, chunkSize, Below(|parts|))
    ensures Saved(dir, shards, indices, Below(|parts|))
  {
    hide UniqueNames, Finished, Saved, Added;
    dir := map[];
    indices := seq(|parts|, _ => Index(0, map[]));
    shards := seq(|parts|, _ => []);
    var all := Below(|parts|);
    var pending := all;
    NothingSaved(dir, shards, indices, all - pending);
    while pending != {}
      invariant pending <= all
      invariant AllFinished(shards, indices, parts, chunkSize, all - pending)
      invariant Saved(dir, shards, indices, all - pending)
      decreases pending
    {
      var w: nat :| w in pending;
      var after, index, cut := SaveTensors(dir, w, parts[w], chunkSize);
      WorkerFinished(cut, index, w, parts[w], chunkSize);
      SavedNext(dir, after, shards, indices, all - pending, w, cut, index);
      dir, indices, shards := after, indices[w := index], shards[w := cut];
      assert all - (pending - {w}) == (all - pending) + {w};
      pending := pending - {w};
    }
    assert all - pending == all;
  }

  lemma WorkerFinished(shards: seq<seq<Tensor>>, index: Index, w: nat, tensors: seq<Tensor>, chunkSize: int)
    requires ShardsOf(shards, tensors, chunkSize)
    requires index.totalSize == Bytes(tensors) && Indexes(index.weightMap, shards, w, |shards|)
    ensures Finished(shards, index, w, tensors, chunkSize)
  {
  }

  lemma NothingSaved(dir: Dir, shards: seq<seq<seq<Tensor>>>, indices: seq<Index>, none: set<nat>)
    requires dir == map[] && none == {} && |shards| == |indices|
    ensures Saved(dir, shards, indices, none)
  {
  }
}
