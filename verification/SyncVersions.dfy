/** The version a placeholder was made from is never forgotten, and pending deletes are honoured. */
module SyncVersions {
  import opened Paths
  import opened Sorting
  import opened Listing
  import opened Wrappers
  import opened Markers
  import opened SyncRoot
  import opened SyncStages
  import opened SyncSafety
  import opened SyncConvergence

  // ---------------------------------------------------------------------------------------------
  // What the cache knows about one path
  // ---------------------------------------------------------------------------------------------

  predicate MadeByAPass(disk: Disk, p: Path) {
    p in disk && disk[p].CloudFile? && disk[p].origin.MadeFrom?
  }

  /** If a pass made the placeholder at p, its record has the version it was made from. */
  ghost predicate Tracks(root: Root, p: Path) {
    MadeByAPass(root.disk, p) ==>
      var previous := PreviousByPath(LoadLocalState(root.cache));
      && p in previous && !previous[p].isDirectory
      && previous[p].version == root.disk[p].origin.version && !Blank(previous[p].version)
  }

  ghost predicate Completes(w: Weather) {
    w.registers && w.connects && w.write == Written
  }

  /** p is listed as a file with a version, below directories only. */
  ghost predicate ListedAsFile(listed: map<Path, Entry>, p: Path) {
    p in listed && !listed[p].isDirectory && !Blank(listed[p].version) && Reachable(listed, p)
  }

  lemma PlaceholderReachesPopulation(root: Root, inp: Inputs, w: Weather, p: Path)
    requires p in Listed(inp.entries) && !Listed(inp.entries)[p].isDirectory
    requires p in root.disk && IsPlaceholder(root.disk[p])
    ensures p !in MissingIn(root, inp, w)
    ensures p in Stage3(root, inp, w) && Stage3(root, inp, w)[p] == root.disk[p]
  {
    var previous := LoadLocalState(root.cache);
    AfterChangedExactly(root.disk, previous, Listed(inp.entries), w.changedDelete);
    assert !DeletedAsChanged(root.disk, previous, Listed(inp.entries), w.changedDelete, p);
    ListedExactly(inp.entries);
    AfterIgnoredKeeps(Stage1(root, inp, w), Sort(w.walkIgnored, DeeperFirst), w.spared);
    AfterPruneKeeps(Stage2(root, inp, w), Sort(w.walkPrune, DeeperFirst), ExpectedIn(root, inp, w),
                    w.recent, w.pruneDelete);
  }

  lemma NothingAppearsBeforePopulation(root: Root, inp: Inputs, w: Weather)
    ensures OnlyRemoves(root.disk, Stage3(root, inp, w))
  {
    AfterChangedExactly(root.disk, LoadLocalState(root.cache), Listed(inp.entries), w.changedDelete);
    AfterIgnoredKeeps(Stage1(root, inp, w), Sort(w.walkIgnored, DeeperFirst), w.spared);
    AfterPruneKeeps(Stage2(root, inp, w), Sort(w.walkPrune, DeeperFirst), ExpectedIn(root, inp, w),
                    w.recent, w.pruneDelete);
  }

  /** A turn either leaves the item alone or makes it from the listed version and says so. */
  lemma TurnMakesOrKeeps(turn: Population, e: Entry, plan: Plan, w: Weather)
    requires e.path != [] && e.path !in turn.refreshed && !e.isDirectory
    ensures var r := PopulateOne(turn, e, plan, w);
            e.path in r.disk && r.disk[e.path].CloudFile? ==>
              if e.path in r.refreshed then r.disk[e.path].origin == MadeFrom(e.version)
              else e.path in turn.disk && turn.disk[e.path] == r.disk[e.path]
  {
  }

  /** After population a file placeholder is either fresh from the listing or untouched. */
  lemma PopulatedPlaceholder(root: Root, inp: Inputs, w: Weather, p: Path)
    requires WellFormedDisk(root.disk) && ListedAsFile(Listed(inp.entries), p)
    requires p in Stage4(root, inp, w).disk && Stage4(root, inp, w).disk[p].CloudFile?
    ensures var pop := Stage4(root, inp, w);
            if p in pop.refreshed then pop.disk[p].origin == MadeFrom(Listed(inp.entries)[p].version)
            else p in root.disk && root.disk[p] == pop.disk[p]
  {
    var turn := Stage4At(root, inp, w, p);
    TurnMakesOrKeeps(turn, Listed(inp.entries)[p], PlanFor(root, inp, w), w);
    NothingAppearsBeforePopulation(root, inp, w);
  }

  /** No shielded item is above or below a file placeholder listed below directories only. */
  lemma PlaceholderIsNotShielded(root: Root, inp: Inputs, w: Weather, p: Path)
    requires WellFormedDisk(root.disk) && ListedAsFile(Listed(inp.entries), p)
    requires p in Stage4(root, inp, w).disk && Stage4(root, inp, w).disk[p].CloudFile?
    ensures !RelatedToAny(Stage4(root, inp, w).shielded, p)
  {
    var pop := Stage4(root, inp, w);
    StagesWellFormed(root, inp, w);
    ListingIsRooted(inp.entries);
    PopulateKeepsLocal(Stage3(root, inp, w), PlaceholderEntries(inp.entries), PlanFor(root, inp, w), w);
    forall q | q in pop.shielded ensures !Covers(q, p) && !Covers(p, q) {
      ShieldedIff(root, inp, w, q);
      assert q in pop.disk && !IsPlaceholder(pop.disk[q]);
      if Covers(p, q) {
        AncestorsExist(pop.disk, p, q);
      }
    }
  }

  lemma CurrentHas(listing: seq<Entry>, shielded: set<Path>, k: nat)
    requires k < |listing| && !RelatedToAny(shielded, listing[k].path)
    ensures listing[k].path in CurrentPaths(listing, shielded)
  {
  }

  lemma RecordedFrom(disk: Disk, listing: seq<Entry>, byPath: map<Path, Cached>, refreshed: set<Path>,
                     shielded: set<Path>, r: Cached) returns (j: nat)
    requires r in ListedRecords(disk, listing, byPath, refreshed, shielded)
    ensures j < |listing| && SnapshotOne(disk, listing[j], byPath, refreshed) == Some(r)
  {
    ListedRecordElements(disk, listing, byPath, refreshed, shielded);
    j :| 0 <= j < |listing| && !RelatedToAny(shielded, listing[j].path)
         && SnapshotOne(disk, listing[j], byPath, refreshed) == Some(r);
  }

  lemma RecordsPath(disk: Disk, e: Entry, byPath: map<Path, Cached>, refreshed: set<Path>, r: Cached)
    requires SnapshotOne(disk, e, byPath, refreshed) == Some(r)
    ensures r.path == e.path
  {
  }

  lemma ListedRecordsHoldOne(disk: Disk, listing: seq<Entry>, byPath: map<Path, Cached>, refreshed: set<Path>,
                             shielded: set<Path>, k: nat, r: Cached)
    requires DistinctPaths(listing) && k < |listing| && !RelatedToAny(shielded, listing[k].path)
    ensures r in ListedRecords(disk, listing, byPath, refreshed, shielded) && r.path == listing[k].path <==>
            SnapshotOne(disk, listing[k], byPath, refreshed) == Some(r)
  {
    if r in ListedRecords(disk, listing, byPath, refreshed, shielded) && r.path == listing[k].path {
      var j := RecordedFrom(disk, listing, byPath, refreshed, shielded, r);
      RecordsPath(disk, listing[j], byPath, refreshed, r);
      assert j == k;
    }
    if SnapshotOne(disk, listing[k], byPath, refreshed) == Some(r) {
      RecordsPath(disk, listing[k], byPath, refreshed, r);
      ListedRecordElements(disk, listing, byPath, refreshed, shielded);
    }
  }

  /** The only record a snapshot holds for a listed, unshielded path is the one it took there. */
  lemma SnapshotHoldsOne(disk: Disk, listing: seq<Entry>, previous: seq<Cached>, refreshed: set<Path>,
                         shielded: set<Path>, k: nat, r: Cached)
    requires DistinctPaths(listing) && k < |listing| && !RelatedToAny(shielded, listing[k].path)
    ensures r in SnapshotLocalState(disk, listing, previous, refreshed, shielded) && r.path == listing[k].path <==>
            SnapshotOne(disk, listing[k], PreviousByPath(previous), refreshed) == Some(r)
  {
    var current := ListedRecords(disk, listing, PreviousByPath(previous), refreshed, shielded);
    var kept := RetainedRecords(disk, previous, CurrentPaths(listing, shielded), shielded);
    SortElements(current + kept, RecordBefore);
    ListedRecordsHoldOne(disk, listing, PreviousByPath(previous), refreshed, shielded, k, r);
    RetainedElements(disk, previous, CurrentPaths(listing, shielded), shielded);
    CurrentHas(listing, shielded, k);
  }

  lemma LastRecordIs(cache: seq<Cached>, p: Path, r: Cached)
    requires p != [] && !Ignored(p)
    requires forall x :: x in cache && x.path == p <==> x == r
    ensures p in PreviousByPath(LoadLocalState(cache)) && PreviousByPath(LoadLocalState(cache))[p] == r
  {
    assert r in cache && r.path == p;
    LoadedElements(cache);
    LastRecord(LoadLocalState(cache), p);
  }

  /** The one record a completed pass writes for a listed, unshielded path. */
  lemma FreshRecord(root: Root, inp: Inputs, w: Weather, p: Path, r: Cached)
    requires p in Listed(inp.entries) && !RelatedToAny(Stage4(root, inp, w).shielded, p)
    requires SnapshotOne(Stage5(root, inp, w), Listed(inp.entries)[p], PlanFor(root, inp, w).previous,
                         Stage4(root, inp, w).refreshed) == Some(r)
    ensures p in PreviousByPath(LoadLocalState(NewCache(root, inp, w)))
    ensures PreviousByPath(LoadLocalState(NewCache(root, inp, w)))[p] == r
  {
    var k := ListingIndex(inp.entries, p);
    PlaceholderDistinct(inp.entries);
    var pop := Stage4(root, inp, w);
    forall x ensures x in NewCache(root, inp, w) && x.path == p <==> x == r {
      SnapshotHoldsOne(Stage5(root, inp, w), PlaceholderEntries(inp.entries), LoadLocalState(root.cache),
                       pop.refreshed, pop.shielded, k, x);
    }
    assert p != [] && !Ignored(p) by { ListedExactly(inp.entries); }
    LastRecordIs(NewCache(root, inp, w), p, r);
  }

  /** The item is still what the record describes: any placeholder, or a plain file of that size and hash. */
  predicate StillRecorded(item: Item, r: Cached) {
    match item
    case CloudFile(_, _, _) => true
    case LocalFile(content) => content.size == r.size && r.sha == Some(content.sha) && !Blank(r.sha)
    case LocalDirectory => false
    case CloudDirectory => false
  }

  /**
   A recorded version outlives the listing of another one exactly for a file that was not refreshed and
   is still what its record describes; everything else is recorded with the listed version.
  */
  lemma VersionKeptIff(e: Entry, previous: map<Path, Cached>, refreshed: set<Path>, item: Item)
    ensures SnapshotVersion(e, previous, refreshed, item)
            == if !e.isDirectory && e.path !in refreshed && e.path in previous && !previous[e.path].isDirectory
                  && !Blank(previous[e.path].version) && StillRecorded(item, previous[e.path])
               then previous[e.path].version else e.version
  {
  }

  /** The version written for a placeholder is the one it was made from. */
  lemma WrittenVersion(e: Entry, previous: map<Path, Cached>, refreshed: set<Path>, item: Item)
    requires !e.isDirectory && !Blank(e.version) && item.CloudFile? && item.origin.MadeFrom?
    requires if e.path in refreshed then item.origin == MadeFrom(e.version)
             else e.path in previous && !previous[e.path].isDirectory
                  && previous[e.path].version == item.origin.version && !Blank(previous[e.path].version)
    ensures SnapshotVersion(e, previous, refreshed, item) == item.origin.version
    ensures !Blank(item.origin.version)
  {
  }

  /** A completed pass keeps track, whichever refreshes fail, and records the listed size. */
  lemma PassTracks(root: Root, inp: Inputs, w: Weather, p: Path)
    requires WellFormedDisk(root.disk) && Completes(w) && ListedAsFile(Listed(inp.entries), p)
    requires Tracks(root, p)
    ensures var after := Prepare(root, inp, w);
            && Tracks(after, p)
            && (MadeByAPass(after.disk, p) ==>
                  PreviousByPath(LoadLocalState(after.cache))[p]
                  == Cached(p, false, Listed(inp.entries)[p].size, None, after.disk[p].origin.version))
  {
    var final := Stage5(root, inp, w);
    assert Prepare(root, inp, w) == Root(final, NewCache(root, inp, w));
    if MadeByAPass(final, p) {
      var pop := Stage4(root, inp, w);
      AfterStaleKeeps(pop.disk, Sort(LoadLocalState(root.cache), DeeperRecordFirst), Listed(inp.entries),
                      pop.shielded, w.staleDelete);
      assert p in pop.disk && pop.disk[p] == final[p];
      PopulatedPlaceholder(root, inp, w, p);
      PlaceholderIsNotShielded(root, inp, w, p);
      var e := Listed(inp.entries)[p];
      assert e.path == p by { ListedExactly(inp.entries); }
      var previous := PlanFor(root, inp, w).previous;
      WrittenVersion(e, previous, pop.refreshed, final[p]);
      var r := Cached(p, false, e.size, None, final[p].origin.version);
      assert SnapshotOne(final, e, previous, pop.refreshed) == Some(r);
      FreshRecord(root, inp, w, p, r);
    }
  }

  /** A listed directory that is there after a completed pass is recorded as such, with the listed version. */
  lemma DirectoryIsRecorded(root: Root, inp: Inputs, w: Weather, p: Path)
    requires Completes(w) && p in Listed(inp.entries) && !RelatedToAny(Stage4(root, inp, w).shielded, p)
    requires p in Prepare(root, inp, w).disk && IsDirectoryItem(Prepare(root, inp, w).disk[p])
    ensures var previous := PreviousByPath(LoadLocalState(Prepare(root, inp, w).cache));
            p in previous && previous[p] == Cached(p, true, 0, None, Listed(inp.entries)[p].version)
  {
    var e := Listed(inp.entries)[p];
    assert e.path == p by { ListedExactly(inp.entries); }
    var r := Cached(p, true, 0, None, e.version);
    assert SnapshotOne(Stage5(root, inp, w), e, PlanFor(root, inp, w).previous, Stage4(root, inp, w).refreshed) == Some(r);
    FreshRecord(root, inp, w, p, r);
  }

  // ---------------------------------------------------------------------------------------------
  // Whole runs
  // ---------------------------------------------------------------------------------------------

  /** The user does not put another pass-made placeholder at p. */
  ghost predicate NotReplaced(before: Disk, after: Disk, p: Path) {
    MadeByAPass(after, p) ==> MadeByAPass(before, p) && before[p].origin == after[p].origin
  }

  ghost predicate TrackedNext(root: Root, event: Event, root': Root, p: Path) {
    match event
    case Edit(disk) => WellFormedDisk(disk) && NotReplaced(root.disk, disk, p) && root' == Root(disk, root.cache)
    case Pass(inp, w) => Completes(w) && ListedAsFile(Listed(inp.entries), p) && root' == Prepare(root, inp, w)
  }

  ghost predicate TrackedHistory(roots: seq<Root>, events: seq<Event>, p: Path) {
    && |roots| == |events| + 1
    && roots[0].cache == [] && WellFormedDisk(roots[0].disk) && !MadeByAPass(roots[0].disk, p)
    && forall i :: 0 <= i < |events| ==> TrackedNext(roots[i], events[i], roots[i + 1], p)
  }

  /**
   From an empty cache, over any interleaving of edits and completed passes with any failures and
   any delete markers, the cached version of p is the version its placeholder was last made from.
  */
  lemma {:induction false} VersionIsTracked(roots: seq<Root>, events: seq<Event>, p: Path, n: nat)
    requires TrackedHistory(roots, events, p) && n < |roots|
    ensures WellFormedDisk(roots[n].disk) && Tracks(roots[n], p)
  {
    if n > 0 {
      VersionIsTracked(roots, events, p, n - 1);
      assert TrackedNext(roots[n - 1], events[n - 1], roots[n], p);
      match events[n - 1]
      case Edit(_) =>
      case Pass(inp, w) =>
        PassTracks(roots[n - 1], inp, w, p);
        StagesWellFormed(roots[n - 1], inp, w);
    }
  }

  lemma TurnRefreshes(turn: Population, e: Entry, plan: Plan, w: Weather)
    requires WellFormedDisk(turn.disk) && e.path != [] && !e.isDirectory
    requires e.path in turn.disk && turn.disk[e.path].CloudFile?
    requires !CoveredByAny(plan.pendingDeletes, e.path) && e.path !in plan.missing
    requires ProviderFileChanged(e, plan.previous)
    requires w.refreshDelete(e.path) && w.create(e.path).Makes?
    ensures var after := PopulateOne(turn, e, plan, w).disk;
            e.path in after && after[e.path].CloudFile? && after[e.path].origin == MadeFrom(e.version)
  {
  }

  /**
   So no refresh is lost: whenever the provider lists another version than the placeholder was
   made from, a pass in which that delete and creation succeed makes it from the listed version.
  */
  lemma ChangedVersionIsRefreshed(roots: seq<Root>, events: seq<Event>, p: Path, n: nat, inp: Inputs, w: Weather)
    requires TrackedHistory(roots, events, p) && n < |roots|
    requires Completes(w) && ListedAsFile(Listed(inp.entries), p) && MadeByAPass(roots[n].disk, p)
    requires Listed(inp.entries)[p].version != roots[n].disk[p].origin.version
    requires !CoveredByAny(inp.pendingDeletes, p) && w.refreshDelete(p) && w.create(p).Makes?
    ensures MadeByAPass(Prepare(roots[n], inp, w).disk, p)
    ensures Prepare(roots[n], inp, w).disk[p].origin.version == Listed(inp.entries)[p].version
  {
    var root := roots[n];
    VersionIsTracked(roots, events, p, n);
    PlaceholderReachesPopulation(root, inp, w, p);
    var e := Listed(inp.entries)[p];
    var turn := Stage4At(root, inp, w, p);
    TurnRefreshes(turn, e, PlanFor(root, inp, w), w);
    var pop := Stage4(root, inp, w);
    AfterStaleKeeps(pop.disk, Sort(LoadLocalState(root.cache), DeeperRecordFirst), Listed(inp.entries),
                    pop.shielded, w.staleDelete);
  }

  // ---------------------------------------------------------------------------------------------
  // No resurrection
  // ---------------------------------------------------------------------------------------------

  lemma TurnLeavesPending(turn: Population, e: Entry, plan: Plan, w: Weather)
    requires e.path != [] && CoveredByAny(plan.pendingDeletes, e.path)
    ensures PopulateOne(turn, e, plan, w) == turn
  {
  }

  /** At or under a pending delete a pass creates nothing and replaces nothing. */
  lemma NothingCreatedUnderPending(root: Root, inp: Inputs, w: Weather, p: Path)
    requires WellFormedDisk(root.disk) && CoveredByAny(inp.pendingDeletes, p)
    ensures p in Prepare(root, inp, w).disk ==>
              p in root.disk && Prepare(root, inp, w).disk[p] == root.disk[p]
  {
    NothingAppearsBeforePopulation(root, inp, w);
    if p in Listed(inp.entries) {
      var turn := Stage4At(root, inp, w, p);
      TurnLeavesPending(turn, Listed(inp.entries)[p], PlanFor(root, inp, w), w);
    } else {
      UnlistedIsFramed(root, inp, w, p);
    }
    var pop := Stage4(root, inp, w);
    AfterStaleKeeps(pop.disk, Sort(LoadLocalState(root.cache), DeeperRecordFirst), Listed(inp.entries),
                    pop.shielded, w.staleDelete);
  }

  /**
   Reconciling with a listing and preparing from it never bring a deleted item back: as long as a
   path under a live delete marker is listed, the marker stays and the pass leaves the path alone.
  */
  lemma NoResurrection(s: Markers, d: Path, p: Path, now: int, root: Root, inp: Inputs, w: Weather)
    requires WellFormedDisk(root.disk)
    requires d in Pruned(s, now).deletes && d != [] && Covers(d, p)
    requires inp.pendingDeletes == AfterReconcile(s, Listed(inp.entries).Keys, now).deletes.Keys
    ensures d !in inp.pendingDeletes <==> forall q :: q in Listed(inp.entries) ==> !Covers(d, q)
    ensures p !in root.disk ==> p !in Prepare(root, inp, w).disk
  {
    var listed := Listed(inp.entries).Keys;
    assert AncestorClosed(listed) by {
      forall a, q | q in listed && a != [] && Covers(a, q) ensures a in listed {
        ListedAncestors(inp.entries, a, q);
      }
    }
    ReconcileDropsIffUnlisted(s, listed, now, d);
    if d in inp.pendingDeletes {
      NothingCreatedUnderPending(root, inp, w, p);
    } else {
      NothingAppearsBeforePopulation(root, inp, w);
      UnlistedIsFramed(root, inp, w, p);
      var pop := Stage4(root, inp, w);
      AfterStaleKeeps(pop.disk, Sort(LoadLocalState(root.cache), DeeperRecordFirst), Listed(inp.entries),
                      pop.shielded, w.staleDelete);
    }
  }
}
