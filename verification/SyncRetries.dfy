/**
 What becomes of a delete that fails: the removal of an unlisted file is tried again by later
 passes, the replacement of a changed one is not.
*/
module SyncRetries {
  import opened Paths
  import opened Sorting
  import opened Listing
  import opened Wrappers
  import opened SyncRoot
  import opened SyncStages
  import opened SyncSafety
  import opened SyncConvergence
  import opened SyncVersions
  import opened SyncRecreation

  ghost predicate RetainedAt(disk: Disk, previous: seq<Cached>, current: set<Path>, shielded: set<Path>, p: Path) {
    exists r :: r in previous && r.path == p && p !in current && Retains(disk, r, shielded)
  }

  /** A path keeps a record exactly when it is not current and one of its records still fits. */
  lemma {:induction false} RetainedIff(disk: Disk, previous: seq<Cached>, current: set<Path>, shielded: set<Path>, p: Path)
    ensures p in PathsOf(RetainedRecords(disk, previous, current, shielded)) <==>
            RetainedAt(disk, previous, current, shielded, p)
  {
    if previous != [] {
      var n := |previous| - 1;
      var rest := RetainedRecords(disk, previous[..n], current, shielded);
      RetainedIff(disk, previous[..n], current, shielded, p);
      PathsOfAppend(rest, previous[n]);
      assert previous == previous[..n] + [previous[n]];
      if RetainedAt(disk, previous, current, shielded, p) && !RetainedAt(disk, previous[..n], current, shielded, p) {
        assert previous[n].path == p;
      }
    }
  }

  /** r describes the plain file at its path, which the provider no longer lists. */
  ghost predicate DescribesUnlisted(root: Root, r: Cached, inp: Inputs) {
    && r in root.cache && !r.isDirectory && !Blank(r.sha) && r.path != [] && !Ignored(r.path)
    && r.path in root.disk && MatchesRecord(root.disk[r.path], r)
    && r.path !in Listed(inp.entries) && !RelatedToAny(Protected(root.disk, inp), r.path)
  }

  lemma UnlistedIsNotCurrent(entries: seq<Entry>, shielded: set<Path>, p: Path)
    requires p !in Listed(entries)
    ensures p !in CurrentPaths(PlaceholderEntries(entries), shielded)
  {
    var listing := PlaceholderEntries(entries);
    forall k | 0 <= k < |listing| ensures listing[k].path != p {
      ListingNames(entries, k);
    }
  }

  /** A file that should have gone and is still there keeps a record with its size and hash. */
  lemma FailedRemovalIsRemembered(root: Root, inp: Inputs, w: Weather, r: Cached) returns (kept: Cached)
    requires WellFormedDisk(root.disk) && Completes(w) && DescribesUnlisted(root, r, inp)
    requires !PassDeletes(root, inp, w, r.path)
    ensures r.path in Prepare(root, inp, w).disk
    ensures kept in Prepare(root, inp, w).cache && kept.path == r.path && !kept.isDirectory && !Blank(kept.sha)
    ensures Prepare(root, inp, w).disk[r.path] == root.disk[r.path]
    ensures MatchesRecord(root.disk[r.path], kept)
  {
    var p := r.path;
    var previous := LoadLocalState(root.cache);
    var shielded := Stage4(root, inp, w).shielded;
    var current := CurrentPaths(PlaceholderEntries(inp.entries), shielded);
    var final := Stage5(root, inp, w);
    FileDeletedIff(root, inp, w, p);
    LoadedElements(root.cache);
    UnlistedIsNotCurrent(inp.entries, shielded, p);
    RelatedShieldedIff(root, inp, w, p);
    assert RetainedAt(final, previous, current, shielded, p);
    RetainedIff(final, previous, current, shielded, p);
    var records := RetainedRecords(final, previous, current, shielded);
    var i :| 0 <= i < |records| && records[i].path == p;
    kept := records[i];
    assert kept in records;
    RetainedElements(final, previous, current, shielded);
    NewCacheElements(root, inp, w, kept);
  }

  /** A later pass whose deletes succeed and that neither lists p nor shields anything related. */
  ghost predicate WouldRemove(root: Root, inp: Inputs, w: Weather, p: Path) {
    && w.registers && w.connects && (forall i :: w.staleDelete(i))
    && p !in Listed(inp.entries) && !RelatedToAny(Protected(root.disk, inp), p)
  }

  /** So a failed removal is made good by any next pass whose deletes succeed. */
  lemma FailedRemovalIsRetried(root: Root, inp: Inputs, w: Weather, r: Cached)
    requires WellFormedDisk(root.disk) && Completes(w) && DescribesUnlisted(root, r, inp)
    ensures var next := Prepare(root, inp, w);
            forall inp', w' :: r.path in next.disk && WouldRemove(next, inp', w', r.path) ==>
              r.path !in Prepare(next, inp', w').disk
  {
    var next := Prepare(root, inp, w);
    forall inp', w' | r.path in next.disk && WouldRemove(next, inp', w', r.path)
      ensures r.path !in Prepare(next, inp', w').disk
    {
      FileDeletedIff(root, inp, w, r.path);
      var kept := FailedRemovalIsRemembered(root, inp, w, r);
      StagesWellFormed(root, inp, w);
      UnlistedGoesIff(next, inp', w', r.path);
    }
  }

  lemma ShieldedIsUnrecorded(root: Root, inp: Inputs, w: Weather, p: Path)
    requires p in Stage4(root, inp, w).shielded
    ensures !RecordedAt(NewCache(root, inp, w), p)
  {
    var pop := Stage4(root, inp, w);
    var listing := PlaceholderEntries(inp.entries);
    if RecordedAt(NewCache(root, inp, w), p) {
      var r :| r in NewCache(root, inp, w) && r.path == p;
      assert RelatedToAny(pop.shielded, p) by { assert Covers(p, p); }
      NewCacheElements(root, inp, w, r);
      RetainedElements(Stage5(root, inp, w), LoadLocalState(root.cache), CurrentPaths(listing, pop.shielded), pop.shielded);
      var k :| 0 <= k < |listing| && !RelatedToAny(pop.shielded, listing[k].path)
               && SnapshotOne(Stage5(root, inp, w), listing[k], PlanFor(root, inp, w).previous, pop.refreshed) == Some(r);
      SnapshotIsOnDisk(Stage5(root, inp, w), listing[k], PlanFor(root, inp, w).previous, pop.refreshed, r);
      assert false;
    }
  }

  /** A plain file at a path listed as a file, outside pending deletes. */
  ghost predicate PlainWhereListed(root: Root, inp: Inputs, p: Path) {
    && p in root.disk && root.disk[p].LocalFile?
    && p in Listed(inp.entries) && !Listed(inp.entries)[p].isDirectory && !CoveredByAny(inp.pendingDeletes, p)
  }

  /** The pass does not remove p as a file the provider has changed. */
  ghost predicate ReplacementFails(root: Root, inp: Inputs, w: Weather, p: Path) {
    !DeletedAsChanged(root.disk, LoadLocalState(root.cache), Listed(inp.entries), w.changedDelete, p)
  }

  lemma PlainIsShielded(root: Root, inp: Inputs, w: Weather, p: Path)
    requires WellFormedDisk(root.disk) && PlainWhereListed(root, inp, p) && ReplacementFails(root, inp, w, p)
    ensures p in Stage4(root, inp, w).shielded
  {
    AfterChangedExactly(root.disk, LoadLocalState(root.cache), Listed(inp.entries), w.changedDelete);
    ProtectedIsShielded(root, inp, w, p);
  }

  lemma UnrecordedIsKept(root: Root, inp: Inputs, w: Weather, p: Path)
    requires WellFormedDisk(root.disk) && !Ignored(p) && !RecordedAt(root.cache, p)
    requires p in root.disk && root.disk[p].LocalFile?
    ensures p in Prepare(root, inp, w).disk && Prepare(root, inp, w).disk[p] == root.disk[p]
  {
    LoadedElements(root.cache);
    NoRecordNoDelete(root, inp, w, p);
    FileDeletedIff(root, inp, w, p);
  }

  lemma NoRecordNoDelete(root: Root, inp: Inputs, w: Weather, p: Path)
    requires forall x :: x in LoadLocalState(root.cache) ==> x.path != p
    ensures !PassDeletes(root, inp, w, p)
  {
    SortElements(LoadLocalState(root.cache), DeeperRecordFirst);
  }

  /** While a record describes the file and the provider lists another version, a removal goes through. */
  lemma ReplacementSucceeds(root: Root, inp: Inputs, w: Weather, i: nat)
    requires WellFormedDisk(root.disk) && w.registers && i < |LoadLocalState(root.cache)| && w.changedDelete(i)
    requires ChangedVictim(root.disk, LoadLocalState(root.cache)[i], Listed(inp.entries))
    ensures LoadLocalState(root.cache)[i].path !in Prepare(root, inp, w).disk
  {
    var p := LoadLocalState(root.cache)[i].path;
    assert DeletedAsChanged(root.disk, LoadLocalState(root.cache), Listed(inp.entries), w.changedDelete, p);
    FileDeletedIff(root, inp, w, p);
  }

  /**
   A plain file where a file is listed loses its record when it is not removed, be it because it did
   not change or because removing it failed: the next pass leaves it alone, whatever the provider
   lists and whatever succeeds then.
  */
  lemma FailedReplacementIsForgotten(root: Root, inp: Inputs, w: Weather, p: Path)
    requires WellFormedDisk(root.disk) && Completes(w)
    requires PlainWhereListed(root, inp, p) && ReplacementFails(root, inp, w, p)
    ensures var next := Prepare(root, inp, w);
            && p in next.disk && !RecordedAt(next.cache, p)
            && forall inp', w' {:trigger Prepare(next, inp', w')} ::
                 p in Prepare(next, inp', w').disk && Prepare(next, inp', w').disk[p] == root.disk[p]
  {
    var next := Prepare(root, inp, w);
    ListedExactly(inp.entries);
    PlainIsShielded(root, inp, w, p);
    ShieldedIsUnrecorded(root, inp, w, p);
    StagesWellFormed(root, inp, w);
    FileDeletedIff(root, inp, w, p);
    forall inp', w' ensures p in Prepare(next, inp', w').disk && Prepare(next, inp', w').disk[p] == root.disk[p] {
      UnrecordedIsKept(next, inp', w', p);
    }
  }
}
