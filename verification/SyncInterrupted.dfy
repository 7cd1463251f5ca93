/**
 Passes that change the disk without writing the cache: exactly when they leave a placeholder whose
 recorded version is not the one it was made from, and what a later pass makes of it.
*/
module SyncInterrupted {
  import opened Paths
  import opened Sorting
  import opened Listing
  import opened Wrappers
  import opened SyncRoot
  import opened SyncStages
  import opened SyncSafety
  import opened SyncConvergence
  import opened SyncVersions
  import opened SyncRecreation
  import opened PlaceholderContent
  import opened SyncContent

  /** The pass stops after population, or its cache write leaves the old file. */
  ghost predicate Interrupted(w: Weather) {
    w.registers && (!w.connects || w.write == KeptOld)
  }

  /** The record of p is one of a file with this version. */
  ghost predicate RecordsVersion(root: Root, p: Path, version: Option<string>) {
    var previous := PreviousByPath(LoadLocalState(root.cache));
    p in previous && !previous[p].isDirectory && previous[p].version == version
  }

  /** The pass replaces a placeholder at p when the provider lists another version. */
  ghost predicate CanReplace(inp: Inputs, w: Weather, p: Path) {
    !CoveredByAny(inp.pendingDeletes, p) && w.refreshDelete(p) && w.create(p).Makes?
  }

  lemma AfterInterruption(root: Root, inp: Inputs, w: Weather, p: Path)
    requires Interrupted(w) && p in Listed(inp.entries)
    ensures var after := Prepare(root, inp, w);
            var pop := Stage4(root, inp, w);
            && after.cache == root.cache && (p in after.disk <==> p in pop.disk)
            && (p in after.disk ==> after.disk[p] == pop.disk[p])
  {
    var pop := Stage4(root, inp, w);
    AfterStaleKeeps(pop.disk, Sort(LoadLocalState(root.cache), DeeperRecordFirst), Listed(inp.entries),
                    pop.shielded, w.staleDelete);
  }

  /** The turn of a file placeholder whose provider version is not the recorded one. */
  lemma ChangedTurn(turn: Population, e: Entry, plan: Plan, w: Weather)
    requires WellFormedDisk(turn.disk) && e.path != [] && !e.isDirectory && e.path !in plan.missing
    requires e.path in turn.disk && turn.disk[e.path].CloudFile? && ProviderFileChanged(e, plan.previous)
    ensures var after := PopulateOne(turn, e, plan, w).disk;
            if CoveredByAny(plan.pendingDeletes, e.path) || !w.refreshDelete(e.path)
            then e.path in after && after[e.path] == turn.disk[e.path]
            else if w.create(e.path).Makes?
            then e.path in after && after[e.path].CloudFile? && after[e.path].origin == MadeFrom(e.version)
            else e.path !in after
  {
  }

  lemma DirectoryTurn(turn: Population, e: Entry, plan: Plan, w: Weather)
    requires e.path != [] && e.path in turn.disk && turn.disk[e.path].CloudDirectory?
    ensures e.path in PopulateOne(turn, e, plan, w).disk
    ensures PopulateOne(turn, e, plan, w).disk[e.path] == CloudDirectory
  {
  }

  /** Where something other than a file placeholder is, no pass makes one. */
  lemma OtherItemsGiveNoPlaceholder(root: Root, inp: Inputs, w: Weather, p: Path)
    requires WellFormedDisk(root.disk) && ListedAsFile(Listed(inp.entries), p)
    requires p in root.disk && !root.disk[p].CloudFile?
    ensures !MadeByAPass(Stage4(root, inp, w).disk, p)
  {
    ListedExactly(inp.entries);
    match root.disk[p]
    case LocalDirectory => DirectoryReachesStale(root, inp, w, p);
    case CloudDirectory =>
      PlaceholderReachesPopulation(root, inp, w, p);
      var turn := Stage4At(root, inp, w, p);
      DirectoryTurn(turn, Listed(inp.entries)[p], PlanFor(root, inp, w), w);
    case LocalFile(_) =>
      AfterChangedExactly(root.disk, LoadLocalState(root.cache), Listed(inp.entries), w.changedDelete);
      PlainUntilStale(root, inp, w, p);
      if p !in Stage1(root, inp, w) {
        ChangedIsNotRecreated(root, inp, w, p);
      }
  }

  lemma InterruptedPlaceholder(root: Root, inp: Inputs, w: Weather, p: Path)
    requires WellFormedDisk(root.disk) && ListedAsFile(Listed(inp.entries), p) && Tracks(root, p)
    requires Interrupted(w) && p in root.disk && root.disk[p].CloudFile?
    ensures !Tracks(Prepare(root, inp, w), p) <==>
            !RecordsVersion(root, p, Listed(inp.entries)[p].version) && CanReplace(inp, w, p)
  {
    var e := Listed(inp.entries)[p];
    PlaceholderReachesPopulation(root, inp, w, p);
    AfterInterruption(root, inp, w, p);
    var turn := Stage4At(root, inp, w, p);
    if RecordsVersion(root, p, e.version) {
      if MadeByAPass(Stage4(root, inp, w).disk, p) {
        PopulatedPlaceholder(root, inp, w, p);
      }
    } else {
      ChangedTurn(turn, e, PlanFor(root, inp, w), w);
    }
  }

  /**
   For an item that is there: an interrupted pass breaks the agreement exactly when the item is a
   file placeholder, the listed version is not the recorded one, no delete is pending over it, and
   both its delete and its creation succeed.
  */
  lemma InterruptedPassTracksIff(root: Root, inp: Inputs, w: Weather, p: Path)
    requires WellFormedDisk(root.disk) && ListedAsFile(Listed(inp.entries), p) && Tracks(root, p)
    requires Interrupted(w) && p in root.disk
    ensures !Tracks(Prepare(root, inp, w), p) <==>
            && root.disk[p].CloudFile? && !RecordsVersion(root, p, Listed(inp.entries)[p].version)
            && CanReplace(inp, w, p)
  {
    if root.disk[p].CloudFile? {
      InterruptedPlaceholder(root, inp, w, p);
    } else {
      AfterInterruption(root, inp, w, p);
      OtherItemsGiveNoPlaceholder(root, inp, w, p);
    }
  }

  /** For a placeholder a pass made, the recorded version is the one it was made from. */
  lemma InterruptedRefreshTracksIff(root: Root, inp: Inputs, w: Weather, p: Path)
    requires WellFormedDisk(root.disk) && ListedAsFile(Listed(inp.entries), p) && Tracks(root, p)
    requires Interrupted(w) && MadeByAPass(root.disk, p)
    ensures !Tracks(Prepare(root, inp, w), p) <==>
            Listed(inp.entries)[p].version != root.disk[p].origin.version && CanReplace(inp, w, p)
  {
    InterruptedPassTracksIff(root, inp, w, p);
  }

  /**
   For a path that is not there: it breaks exactly when the path is made without a record of the
   listed version, which the state before the pass decides.
  */
  lemma InterruptedCreationTracksIff(root: Root, inp: Inputs, w: Weather, p: Path)
    requires WellFormedDisk(root.disk) && ListedAsFile(Listed(inp.entries), p)
    requires Interrupted(w) && p != [] && p !in root.disk
    ensures !Tracks(Prepare(root, inp, w), p) <==>
            && !RecordsVersion(root, p, Listed(inp.entries)[p].version)
            && !RecordedProjection(root.cache, Listed(inp.entries), p)
            && CanMake(inp, w, p) && WillStand(root, inp, w, Parent(p))
  {
    ListedExactly(inp.entries);
    AfterInterruption(root, inp, w, p);
    AbsentIsMadeIff(root, inp, w, p);
    ReachableIsMadeIff(root, inp, w, p);
  }

  lemma SettledTurn(turn: Population, e: Entry, plan: Plan, w: Weather)
    requires e.path != [] && !e.isDirectory && e.path in turn.disk && turn.disk[e.path].CloudFile?
    requires e.path !in turn.refreshed
    requires RecordAgrees(plan.previous, e)
    requires ContentAgrees(turn.disk[e.path].readable, turn.disk[e.path].offline, e, w.providerSha(e.path))
    ensures var r := PopulateOne(turn, e, plan, w);
            e.path in r.disk && r.disk[e.path] == turn.disk[e.path] && e.path !in r.refreshed
  {
    ChangedIff(e, plan.previous);
    DiffersIff(turn.disk[e.path], e, w.providerSha(e.path));
  }

  /**
   Once the record agrees with the listing, a completed pass takes the placeholder for current
   whatever it was made from, unless its readable content gives it away, and leaves a record that
   agrees again, so that the next pass over the listing finds the same.
  */
  lemma StaleVersionStays(root: Root, inp: Inputs, w: Weather, p: Path)
    requires WellFormedDisk(root.disk) && Completes(w) && ListedAsFile(Listed(inp.entries), p)
    requires p in root.disk && root.disk[p].CloudFile? && UpToDate(root, inp, w, p)
    ensures var after := Prepare(root, inp, w);
            && p in after.disk && after.disk[p] == root.disk[p]
            && RecordsVersion(after, p, Listed(inp.entries)[p].version)
            && UpToDate(after, inp, w, p)
  {
    var e := Listed(inp.entries)[p];
    var pop := Stage4(root, inp, w);
    var final := Stage5(root, inp, w);
    PlaceholderReachesPopulation(root, inp, w, p);
    var turn := Stage4At(root, inp, w, p);
    SettledTurn(turn, e, PlanFor(root, inp, w), w);
    AfterStaleKeeps(pop.disk, Sort(LoadLocalState(root.cache), DeeperRecordFirst), Listed(inp.entries),
                    pop.shielded, w.staleDelete);
    PlaceholderIsNotShielded(root, inp, w, p);
    var r := Cached(p, false, e.size, None, e.version);
    assert SnapshotOne(final, e, PlanFor(root, inp, w).previous, pop.refreshed) == Some(r);
    FreshRecord(root, inp, w, p, r);
  }
}
