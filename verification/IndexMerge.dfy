/** Merging the worker indices: the indexed files are renamed to model-k, then to model-k-of-T. */
module IndexMerge {
  import opened FileNames
  import opened Sequences
  import opened WorkerFiles

  // shutil.move of an existing file. The target must be free: a move never overwrites.
  function Move(dir: Dir, src: string, dst: string): Dir
    requires src in dir && dst !in dir
  {
    (dir - {src})[dst := dir[src]]
  }

  // The indices of the first n workers are removed.
  ghost predicate Cleared(f: string, n: nat) {
    exists w: nat :: w < n && f == WorkerIndex(w)
  }

  ghost predicate Remains(f: string, base: Dir, moved: seq<string>, n: nat) {
    f in base && f !in moved && !Cleared(f, n)
  }

  // File moved[k] of the base directory is now called names[k]; the rest of the base is as it was.
  ghost predicate Placed(dir: Dir, base: Dir, moved: seq<string>, names: seq<string>, n: nat) {
    && |names| == |moved|
    && (forall k :: 0 <= k < |moved| ==>
          moved[k] in base && names[k] in dir && dir[names[k]] == base[moved[k]])
    && (forall f :: Remains(f, base, moved, n) ==> f in dir && dir[f] == base[f])
    && (forall f :: f in dir ==> Remains(f, base, moved, n) || f in names)
  }

  ghost predicate NoneTemporary(names: seq<string>) {
    forall f :: f in names ==> !Temporary(f)
  }

  ghost predicate AllTemporary(base: Dir) {
    forall f :: f in base ==> Temporary(f)
  }

  lemma TakeFile(dir: Dir, base: Dir, moved: seq<string>, names: seq<string>, n: nat, src: string, dst: string)
    requires Placed(dir, base, moved, names, n) && Remains(src, base, moved, n)
    requires NoneTemporary(names) && AllTemporary(base) && !Temporary(dst) && dst !in names
    ensures src in dir && dst !in dir
    ensures Placed(Move(dir, src, dst), base, moved + [src], names + [dst], n)
  {
    hide Cleared, Temporary;
    var after := Move(dir, src, dst);
    var moved', names' := moved + [src], names + [dst];
    forall k | 0 <= k < |moved'|
      ensures moved'[k] in base && names'[k] in after && after[names'[k]] == base[moved'[k]]
    {
      if k < |moved| {
        assert names[k] in names;
      }
    }
  }

  lemma RenameFile(dir: Dir, base: Dir, moved: seq<string>, names: seq<string>, n: nat, k: nat, dst: string)
    requires Placed(dir, base, moved, names, n) && k < |names|
    requires NoneTemporary(names) && Distinct(names) && AllTemporary(base)
    requires !Temporary(dst) && dst !in names
    ensures names[k] in dir && dst !in dir
    ensures Placed(Move(dir, names[k], dst), base, moved, names[k := dst], n)
  {
    hide Cleared, Temporary;
    var after := Move(dir, names[k], dst);
    assert names[k] in names;
    forall j | 0 <= j < |moved|
      ensures names[k := dst][j] in after && after[names[k := dst][j]] == base[moved[j]]
    {
      assert names[j] in names;
    }
    forall f | f in after ensures Remains(f, base, moved, n) || f in names[k := dst] {
      if f == dst {
        assert names[k := dst][k] == f;
      } else if !Remains(f, base, moved, n) {
        var j :| 0 <= j < |names| && names[j] == f;
        assert names[k := dst][j] == f;
      }
    }
  }

  lemma ClearIndex(dir: Dir, base: Dir, moved: seq<string>, names: seq<string>, n: nat)
    requires Placed(dir, base, moved, names, n) && NoneTemporary(names)
    ensures Placed(dir - {WorkerIndex(n)}, base, moved, names, n + 1)
  {
    hide WorkerIndex;
    NamesApart(n, 0, 0, 0, 0);
    var after := dir - {WorkerIndex(n)};
    forall k | 0 <= k < |moved|
      ensures names[k] in after && after[names[k]] == base[moved[k]]
    {
      assert names[k] in names;
    }
    forall f
      ensures Remains(f, base, moved, n + 1) <==> Remains(f, base, moved, n) && f != WorkerIndex(n)
    {
      ClearedNext(f, n);
    }
  }

  lemma ClearedNext(f: string, n: nat)
    ensures Cleared(f, n + 1) <==> Cleared(f, n) || f == WorkerIndex(n)
  {
    hide WorkerIndex;
    if Cleared(f, n + 1) {
      var w: nat :| w < n + 1 && f == WorkerIndex(w);
    }
  }

  // ---------- First pass: number the files of one worker ----------

  // The first i names carry the total, the others only their number.
  ghost predicate Numbered(names: seq<string>, total: nat, i: nat) {
    forall k: nat :: k < |names| ==> names[k] == if k < i then FinalFile(k + 1, total) else ModelFile(k + 1)
  }

  lemma NumberedApart(names: seq<string>, total: nat, i: nat)
    requires Numbered(names, total, i)
    ensures NoneTemporary(names) && Distinct(names) && INDEX_FILE !in names
    ensures ModelFile(|names| + 1) !in names
    ensures i < |names| ==> FinalFile(i + 1, total) !in names
  {
    hide ModelFile, FinalFile, Temporary, INDEX_FILE;
    forall k: nat | k < |names|
      ensures !Temporary(names[k]) && names[k] != INDEX_FILE && names[k] != ModelFile(|names| + 1)
      ensures i < |names| ==> names[k] != FinalFile(i + 1, total)
    {
      NamesApart(0, 0, 0, k + 1, total);
      ModelIsNotFinal(|names| + 1, k + 1, total);
      ModelIsNotFinal(k + 1, i + 1, total);
      NumbersApart(k + 1, |names| + 1, total);
      if k < i {
        NumbersApart(k + 1, i + 1, total);
      }
    }
    forall j: nat, k: nat | j < k < |names| ensures names[j] != names[k] {
      NumbersApart(j + 1, k + 1, total);
      ModelIsNotFinal(j + 1, k + 1, total);
      ModelIsNotFinal(k + 1, j + 1, total);
    }
  }

  lemma NumbersApart(k: nat, k': nat, total: nat)
    requires k != k'
    ensures ModelFile(k) != ModelFile(k') && FinalFile(k, total) != FinalFile(k', total)
  {
    hide ModelFile, FinalFile;
    if ModelFile(k) == ModelFile(k') {
      ModelFileUnique(k, k');
    } else if FinalFile(k, total) == FinalFile(k', total) {
      FinalFileUnique(k, total, k', total);
    }
  }

  // f was the k-th file to be moved and is called model-k now.
  ghost predicate RenamedTo(name: string, f: string, moved: seq<string>) {
    exists k: nat :: k < |moved| && moved[k] == f && name == ModelFile(k + 1)
  }

  ghost predicate Renames(renames: map<string, string>, files: set<string>, moved: seq<string>) {
    renames.Keys == files && forall f :: f in files ==> RenamedTo(renames[f], f, moved)
  }

  lemma RenamesNext(renames: map<string, string>, files: set<string>, moved: seq<string>, f: string)
    requires Renames(renames, files, moved) && f !in files
    ensures Renames(renames[f := ModelFile(|moved| + 1)], files + {f}, moved + [f])
  {
    hide ModelFile;
    var renames', moved' := renames[f := ModelFile(|moved| + 1)], moved + [f];
    forall g | g in files + {f} ensures RenamedTo(renames'[g], g, moved') {
      if g == f {
        assert moved'[|moved|] == g;
      } else {
        RenamedLater(renames[g], g, moved, moved');
      }
    }
  }

  lemma RenamedLater(name: string, f: string, moved: seq<string>, moved': seq<string>)
    requires RenamedTo(name, f, moved) && moved <= moved'
    ensures RenamedTo(name, f, moved')
  {
    hide ModelFile;
    var k: nat :| k < |moved| && moved[k] == f && name == ModelFile(k + 1);
    assert moved'[k] == f;
  }

  // Gives every file of one worker its number. The order of the files does not matter.
  method MoveWorkerFiles(dir: Dir, files: set<string>, firstIndex: nat, movedBefore: seq<string>,
                         ghost base: Dir, ghost namesBefore: seq<string>, ghost n: nat)
      returns (after: Dir, renames: map<string, string>, nextIndex: nat, moved: seq<string>, ghost names: seq<string>)
    requires Placed(dir, base, movedBefore, namesBefore, n) && AllTemporary(base)
    requires Numbered(namesBefore, 0, 0) && firstIndex == |movedBefore| + 1
    requires forall f :: f in files ==> Remains(f, base, movedBefore, n)
    requires Distinct(movedBefore)
    ensures Placed(after, base, moved, names, n) && Numbered(names, 0, 0) && Distinct(moved)
    ensures movedBefore <= moved && nextIndex == |moved| + 1
    ensures forall f :: f in moved <==> f in movedBefore || f in files
    ensures Renames(renames, files, moved)
  {
    hide Placed, Cleared, ModelFile, FinalFile, Temporary, AllTemporary, NoneTemporary, RenamedTo;
    after, renames, nextIndex := dir, map[], firstIndex;
    moved, names := movedBefore, namesBefore;
    var pending := files;
    PlacedLengths(after, base, moved, names, n);
    while pending != {}
      invariant pending <= files && nextIndex == |moved| + 1 && |names| == |moved|
      invariant Placed(after, base, moved, names, n) && Numbered(names, 0, 0) && Distinct(moved)
      invariant movedBefore <= moved
      invariant forall f :: f in moved <==> f in movedBefore || f in files - pending
      invariant Renames(renames, files - pending, moved)
      decreases pending
    {
      var wf :| wf in pending;
      var newName := ModelFile(nextIndex);
      NumberedApart(names, 0, 0);
      NamesApart(0, 0, 0, nextIndex, 0);
      RenamesNext(renames, files - pending, moved, wf);
      TakeFile(after, base, moved, names, n, wf, newName);
      nextIndex := nextIndex + 1;
      renames := renames[wf := newName];
      if wf in after {
        after := Move(after, wf, newName);
      }
      moved, names := moved + [wf], names + [newName];
      assert files - (pending - {wf}) == (files - pending) + {wf};
      pending := pending - {wf};
    }
    assert files - pending == files;
  }

  lemma PlacedLengths(dir: Dir, base: Dir, moved: seq<string>, names: seq<string>, n: nat)
    requires Placed(dir, base, moved, names, n)
    ensures |names| == |moved|
  {
  }

  // ---------- First pass over all workers ----------

  ghost predicate SourceOf(f: string, indices: seq<Index>, n: nat) {
    exists w: nat :: w < n && w < |indices| && f in indices[w].weightMap.Values
  }

  ghost predicate IndexedBy(name: string, indices: seq<Index>, n: nat) {
    exists w: nat :: w < n && w < |indices| && name in indices[w].weightMap
  }

  // The indexed files are in the base directory; no file and no tensor name is indexed by two workers.
  ghost predicate MergeInput(base: Dir, indices: seq<Index>) {
    && AllTemporary(base)
    && (forall w: nat, f :: w < |indices| && f in indices[w].weightMap.Values ==>
          f in base && !Cleared(f, |indices|))
    && (forall v: nat, w: nat :: v < w < |indices| ==>
          indices[v].weightMap.Values !! indices[w].weightMap.Values)
    && (forall v: nat, w: nat :: v < w < |indices| ==>
          indices[v].weightMap.Keys !! indices[w].weightMap.Keys)
  }

  // The merged map sends every name of the first n workers to the number of its file.
  ghost predicate Tracks(merged: map<string, string>, indices: seq<Index>, moved: seq<string>, n: nat) {
    && (forall w: nat, name :: w < n && w < |indices| && name in indices[w].weightMap ==>
          name in merged && RenamedTo(merged[name], indices[w].weightMap[name], moved))
    && (forall name :: name in merged ==> IndexedBy(name, indices, n))
  }

  function Renamed(weightMap: map<string, string>, renames: map<string, string>): map<string, string>
    requires weightMap.Values <= renames.Keys
  {
    map name | name in weightMap :: renames[weightMap[name]]
  }

  lemma TracksNext(merged: map<string, string>, indices: seq<Index>, moved: seq<string>, n: nat,
                   renames: map<string, string>, moved': seq<string>, base: Dir)
    requires MergeInput(base, indices) && n < |indices| && moved <= moved'
    requires Tracks(merged, indices, moved, n)
    requires Renames(renames, indices[n].weightMap.Values, moved')
    ensures Tracks(merged + Renamed(indices[n].weightMap, renames), indices, moved', n + 1)
  {
    hide Cleared, AllTemporary, RenamedTo;
    var weightMap := indices[n].weightMap;
    var merged' := merged + Renamed(weightMap, renames);
    forall w: nat, name | w < n + 1 && name in indices[w].weightMap
      ensures name in merged' && RenamedTo(merged'[name], indices[w].weightMap[name], moved')
    {
      if w < n {
        assert name in indices[w].weightMap.Keys && name !in weightMap.Keys;
        RenamedLater(merged[name], indices[w].weightMap[name], moved, moved');
      } else {
        assert weightMap[name] in weightMap.Values;
      }
    }
    forall name | name in merged' ensures IndexedBy(name, indices, n + 1) {
      if name in weightMap {
      } else {
        var w: nat :| w < n && w < |indices| && name in indices[w].weightMap;
        assert w < n + 1 && name in indices[w].weightMap;
      }
    }
  }

  // The files of worker n have not been moved yet.
  lemma NotYetMoved(base: Dir, indices: seq<Index>, moved: seq<string>, n: nat)
    requires MergeInput(base, indices) && n < |indices|
    requires forall f :: f in moved <==> SourceOf(f, indices, n)
    ensures forall f :: f in indices[n].weightMap.Values ==> Remains(f, base, moved, n)
  {
    hide AllTemporary;
    forall f | f in indices[n].weightMap.Values ensures Remains(f, base, moved, n) {
      ClearedFewer(f, n, |indices|);
    }
  }

  lemma ClearedFewer(f: string, n: nat, n': nat)
    requires n <= n'
    ensures Cleared(f, n) ==> Cleared(f, n')
  {
  }

  lemma SourceNext(f: string, indices: seq<Index>, n: nat)
    requires n < |indices|
    ensures SourceOf(f, indices, n + 1) <==> SourceOf(f, indices, n) || f in indices[n].weightMap.Values
  {
    if SourceOf(f, indices, n + 1) {
      var w: nat :| w < n + 1 && w < |indices| && f in indices[w].weightMap.Values;
      assert w == n || SourceOf(f, indices, n);
    }
  }

  function TotalSize(indices: seq<Index>): nat {
    if indices == [] then 0 else TotalSize(indices[..|indices| - 1]) + indices[|indices| - 1].totalSize
  }

  method NumberFiles(dir: Dir, indices: seq<Index>)
      returns (after: Dir, merged: map<string, string>, totalSize: nat, moved: seq<string>, ghost names: seq<string>)
    requires MergeInput(dir, indices)
    ensures Placed(after, dir, moved, names, |indices|) && Numbered(names, 0, 0) && Distinct(moved)
    ensures forall f :: f in moved <==> SourceOf(f, indices, |indices|)
    ensures Tracks(merged, indices, moved, |indices|)
    ensures totalSize == TotalSize(indices)
  {
    hide Placed, Cleared, ModelFile, FinalFile, WorkerIndex, Temporary, NoneTemporary, RenamedTo, SourceOf,
         Tracks, Numbered, Renames, Distinct, MergeInput;
    after, merged, totalSize, moved, names := dir, map[], 0, [], [];
    var finalFileIndex := 1;
    NothingMoved(dir, indices);
    assert indices[..0] == [];
    var i := 0;
    while i < |indices|
      invariant 0 <= i <= |indices|
      invariant finalFileIndex == |moved| + 1 && totalSize == TotalSize(indices[..i])
      invariant Placed(after, dir, moved, names, i) && Numbered(names, 0, 0) && Distinct(moved)
      invariant forall f :: f in moved <==> SourceOf(f, indices, i)
      invariant Tracks(merged, indices, moved, i)
    {
      var wMap := indices[i].weightMap;
      assert indices[..i + 1][..i] == indices[..i];
      totalSize := totalSize + indices[i].totalSize;
      ghost var before := moved;
      NotYetMoved(dir, indices, moved, i);
      InputTemporary(dir, indices);
      var renames;
      after, renames, finalFileIndex, moved, names :=
        MoveWorkerFiles(after, wMap.Values, finalFileIndex, moved, dir, names, i);
      TracksNext(merged, indices, before, i, renames, moved, dir);
      RenamesKeys(renames, wMap.Values, moved);
      merged := merged + Renamed(wMap, renames);
      NumberedApart(names, 0, 0);
      ClearIndex(after, dir, moved, names, i);
      after := after - {WorkerIndex(i)};
      forall f ensures f in moved <==> SourceOf(f, indices, i + 1) {
        SourceNext(f, indices, i);
      }
      i := i + 1;
    }
    assert indices[..i] == indices;
  }

  lemma RenamesKeys(renames: map<string, string>, files: set<string>, moved: seq<string>)
    requires Renames(renames, files, moved)
    ensures renames.Keys == files
  {
  }

  lemma InputTemporary(base: Dir, indices: seq<Index>)
    requires MergeInput(base, indices)
    ensures AllTemporary(base)
  {
  }

  lemma NothingMoved(dir: Dir, indices: seq<Index>)
    ensures Placed(dir, dir, [], [], 0) && Numbered([], 0, 0) && Distinct<string>([])
    ensures forall f :: !SourceOf(f, indices, 0)
    ensures Tracks(map[], indices, [], 0)
  {
    hide WorkerIndex;
  }

  // ---------- Second pass: add the total to the names ----------

  ghost predicate FinalName(name: string, model: string, total: nat, i: nat) {
    exists k: nat :: 1 <= k <= i && model == ModelFile(k) && name == FinalFile(k, total)
  }

  // The names whose file number is at most i have their final file.
  ghost predicate Fixed(fixed: map<string, string>, merged: map<string, string>, total: nat, i: nat) {
    && (forall name, k: nat :: name in merged && 1 <= k <= i && merged[name] == ModelFile(k) ==> name in fixed)
    && (forall name :: name in fixed ==> name in merged && FinalName(fixed[name], merged[name], total, i))
  }

  function Having(merged: map<string, string>, oldName: string, newName: string): map<string, string> {
    map name | name in merged && merged[name] == oldName :: newName
  }

  lemma FixedNext(fixed: map<string, string>, merged: map<string, string>, total: nat, i: nat)
    requires Fixed(fixed, merged, total, i)
    ensures Fixed(fixed + Having(merged, ModelFile(i + 1), FinalFile(i + 1, total)), merged, total, i + 1)
  {
    hide ModelFile, FinalFile;
    var fixed' := fixed + Having(merged, ModelFile(i + 1), FinalFile(i + 1, total));
    forall name | name in fixed'
      ensures name in merged && FinalName(fixed'[name], merged[name], total, i + 1)
    {
      if merged[name] == ModelFile(i + 1) {
        assert 1 <= i + 1;
      } else {
        var k: nat :| 1 <= k <= i && merged[name] == ModelFile(k) && fixed[name] == FinalFile(k, total);
        assert 1 <= k <= i + 1;
      }
    }
  }

  method AddTotal(dir: Dir, merged: map<string, string>, totalFiles: nat,
                  ghost base: Dir, ghost moved: seq<string>, ghost namesBefore: seq<string>, ghost n: nat)
      returns (after: Dir, fixed: map<string, string>, ghost names: seq<string>)
    requires Placed(dir, base, moved, namesBefore, n) && AllTemporary(base)
    requires Numbered(namesBefore, 0, 0) && totalFiles == |moved|
    ensures Placed(after, base, moved, names, n) && Numbered(names, totalFiles, totalFiles)
    ensures Fixed(fixed, merged, totalFiles, totalFiles)
  {
    hide Placed, Cleared, ModelFile, FinalFile, Temporary, AllTemporary, NoneTemporary, Fixed;
    after, fixed, names := dir, map[], namesBefore;
    PlacedLengths(after, base, moved, names, n);
    NothingFixed(fixed, merged, totalFiles);
    var i := 1;
    while i < totalFiles + 1
      invariant 1 <= i <= totalFiles + 1 && |names| == totalFiles
      invariant Placed(after, base, moved, names, n) && Numbered(names, totalFiles, i - 1)
      invariant Fixed(fixed, merged, totalFiles, i - 1)
    {
      var oldName := ModelFile(i);
      var newName := FinalFile(i, totalFiles);
      NumberedApart(names, totalFiles, i - 1);
      NamesApart(0, 0, 0, i, totalFiles);
      assert names[i - 1] == oldName;
      RenameFile(after, base, moved, names, n, i - 1, newName);
      if oldName in after {
        after := Move(after, oldName, newName);
      }
      names := names[i - 1 := newName];
      FixedNext(fixed, merged, totalFiles, i - 1);
      fixed := fixed + Having(merged, oldName, newName);
      i := i + 1;
    }
  }

  lemma NothingFixed(fixed: map<string, string>, merged: map<string, string>, total: nat)
    requires fixed == map[]
    ensures Fixed(fixed, merged, total, 0)
  {
  }

  // ---------- The merged directory and index ----------

  // The k-th moved file now has the k-th final name.
  ghost predicate FinalPlace(name: string, f: string, moved: seq<string>) {
    exists k: nat :: k < |moved| && moved[k] == f && name == FinalFile(k + 1, |moved|)
  }

  ghost predicate FinalMap(weightMap: map<string, string>, indices: seq<Index>, moved: seq<string>) {
    && (forall w: nat, name :: w < |indices| && name in indices[w].weightMap ==>
          name in weightMap && FinalPlace(weightMap[name], indices[w].weightMap[name], moved))
    && (forall name :: name in weightMap ==> IndexedBy(name, indices, |indices|))
  }

  lemma BothPasses(fixed: map<string, string>, merged: map<string, string>, indices: seq<Index>, moved: seq<string>)
    requires Tracks(merged, indices, moved, |indices|)
    requires Fixed(fixed, merged, |moved|, |moved|)
    ensures FinalMap(fixed, indices, moved)
  {
    hide ModelFile, FinalFile, IndexedBy;
    forall w: nat, name | w < |indices| && name in indices[w].weightMap
      ensures name in fixed && FinalPlace(fixed[name], indices[w].weightMap[name], moved)
    {
      assert RenamedTo(merged[name], indices[w].weightMap[name], moved);
      var k: nat :| k < |moved| && moved[k] == indices[w].weightMap[name] && merged[name] == ModelFile(k + 1);
      assert name in fixed;
      var k': nat :| 1 <= k' <= |moved| && merged[name] == ModelFile(k') && fixed[name] == FinalFile(k', |moved|);
      ModelFileUnique(k + 1, k');
      assert k < |moved| && moved[k] == indices[w].weightMap[name] && fixed[name] == FinalFile(k + 1, |moved|);
    }
  }

  method MergeIndices(dir: Dir, indices: seq<Index>)
      returns (after: Dir, index: Index, moved: seq<string>, ghost names: seq<string>)
    requires MergeInput(dir, indices)
    ensures Distinct(moved) && forall f :: f in moved <==> SourceOf(f, indices, |indices|)
    ensures FinalMap(index.weightMap, indices, moved)
    ensures index.totalSize == TotalSize(indices)
    ensures Numbered(names, |moved|, |moved|)
    ensures INDEX_FILE in after && after[INDEX_FILE] == IndexJson(index)
    ensures Placed(after - {INDEX_FILE}, dir, moved, names, |indices|)
  {
    hide Placed, Cleared, ModelFile, FinalFile, Temporary, NoneTemporary, SourceOf, Tracks, Numbered, Fixed,
         Distinct, MergeInput, FinalMap, INDEX_FILE;
    var merged, totalSize, fixed;
    after, merged, totalSize, moved, names := NumberFiles(dir, indices);
    InputTemporary(dir, indices);
    after, fixed, names := AddTotal(after, merged, |moved|, dir, moved, names, |indices|);
    BothPasses(fixed, merged, indices, moved);
    index := Index(totalSize, fixed);
    IndexIsNew(after, dir, moved, names, |indices|, |moved|);
    var written := after[INDEX_FILE := IndexJson(index)];
    assert written - {INDEX_FILE} == after;
    after := written;
  }

  lemma IndexIsNew(dir: Dir, base: Dir, moved: seq<string>, names: seq<string>, n: nat, total: nat)
    requires Placed(dir, base, moved, names, n) && Numbered(names, total, total) && AllTemporary(base)
    ensures INDEX_FILE !in dir
  {
    hide FinalFile, ModelFile, INDEX_FILE, Cleared, Temporary;
    NumberedApart(names, total, total);
    NamesApart(0, 0, 0, 0, 0);
  }
}
