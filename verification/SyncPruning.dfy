/** Exactly which file placeholders a pass prunes. */
module SyncPruning {
  import opened Paths
  import opened Sorting
  import opened Listing
  import opened Wrappers
  import opened SyncRoot
  import opened SyncStages
  import opened SyncSafety
  import opened SyncConvergence
  import opened SyncVersions
  import opened SyncRecreation

  lemma {:induction false} FilePrunedIff(disk: Disk, walk: seq<Path>, expected: set<Path>, recent: Path -> bool,
                                         deleted: Path -> bool, p: Path)
    requires p != [] && p in disk && disk[p].CloudFile?
    ensures p in AfterPrune(disk, walk, expected, recent, deleted) <==>
            !(p in walk && p !in expected && !recent(p) && deleted(p))
  {
    if walk != [] {
      var n := |walk| - 1;
      assert walk == walk[..n] + [walk[n]];
      FilePrunedIff(disk, walk[..n], expected, recent, deleted, p);
      AfterPruneKeeps(disk, walk[..n], expected, recent, deleted);
    }
  }

  /**
   A file placeholder that is not listed goes exactly when it is found by the walk, is not recent, no
   pending delete or rename names it, and its delete succeeds.
  */
  lemma UnlistedPlaceholderGoesIff(root: Root, inp: Inputs, w: Weather, p: Path)
    requires w.registers && p != [] && p in root.disk && root.disk[p].CloudFile? && !Ignored(p) && p !in Listed(inp.entries)
    ensures p in Prepare(root, inp, w).disk <==>
            p in inp.pendingDeletes || p in inp.pendingPreserves || p !in w.walkPrune || w.recent(p) || !w.pruneDelete(p)
  {
    var listed := Listed(inp.entries);
    var walk := Sort(w.walkPrune, DeeperFirst);
    AfterChangedExactly(root.disk, LoadLocalState(root.cache), listed, w.changedDelete);
    AfterIgnoredKeeps(Stage1(root, inp, w), Sort(w.walkIgnored, DeeperFirst), w.spared);
    SortElements(w.walkPrune, DeeperFirst);
    FilePrunedIff(Stage2(root, inp, w), walk, ExpectedIn(root, inp, w), w.recent, w.pruneDelete, p);
    NotMissing(root, inp, w, p);
    UnlistedIsFramed(root, inp, w, p);
    PrunedItemIsKept(root, inp, w, p);
  }

  lemma NotMissing(root: Root, inp: Inputs, w: Weather, p: Path)
    requires p !in Listed(inp.entries)
    ensures p in ExpectedIn(root, inp, w) <==> p in inp.pendingDeletes || p in inp.pendingPreserves
  {
  }

  lemma PrunedItemIsKept(root: Root, inp: Inputs, w: Weather, p: Path)
    requires w.registers && p in root.disk && root.disk[p].CloudFile? && p !in Listed(inp.entries)
    ensures p in Prepare(root, inp, w).disk <==> p in Stage3(root, inp, w)
  {
    var pop := Stage4(root, inp, w);
    NothingAppearsBeforePopulation(root, inp, w);
    UnlistedIsFramed(root, inp, w, p);
    AfterStaleKeeps(pop.disk, Sort(LoadLocalState(root.cache), DeeperRecordFirst), Listed(inp.entries),
                    pop.shielded, w.staleDelete);
  }
}
