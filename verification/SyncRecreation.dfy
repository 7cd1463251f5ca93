/** A recorded item found missing is skipped for one pass, forgotten, and made again by the next. */
module SyncRecreation {
  import opened Paths
  import opened Sorting
  import opened Listing
  import opened Wrappers
  import opened SyncRoot
  import opened SyncStages
  import opened SyncSafety
  import opened SyncConvergence
  import opened SyncVersions

  predicate RecordedAt(cache: seq<Cached>, p: Path) {
    exists r :: r in cache && r.path == p
  }

  /** p is listed and a record has it with the listed kind, for a file with its hash. */
  ghost predicate RecordedProjection(cache: seq<Cached>, listed: map<Path, Entry>, p: Path) {
    && p in listed
    && exists r :: r in cache && r.path == p && r.isDirectory == listed[p].isDirectory
                   && (r.isDirectory || !Blank(r.sha))
  }

  /** An absent path counts as a missing projection exactly when it is recorded as one. */
  lemma MissingIff(root: Root, inp: Inputs, w: Weather, p: Path)
    requires p !in root.disk && p != []
    ensures p in MissingIn(root, inp, w) <==> RecordedProjection(root.cache, Listed(inp.entries), p)
  {
    var previous := LoadLocalState(root.cache);
    var listed := Listed(inp.entries);
    LoadedElements(root.cache);
    ListedExactly(inp.entries);
    AfterChangedExactly(root.disk, previous, listed, w.changedDelete);
    if p in MissingIn(root, inp, w) {
      var i :| 0 <= i < |previous| && IsMissingProjection(Stage1(root, inp, w), previous[i], listed) && previous[i].path == p;
      assert previous[i] in previous;
    }
    if RecordedProjection(root.cache, listed, p) {
      var r :| r in root.cache && r.path == p && r.isDirectory == listed[p].isDirectory && (r.isDirectory || !Blank(r.sha));
      assert r in previous;
      var i :| 0 <= i < |previous| && previous[i] == r;
      assert IsMissingProjection(Stage1(root, inp, w), previous[i], listed);
    }
  }

  /** An item missing from disk that was recorded is not made by the pass that misses it. */
  lemma MissingIsSkipped(root: Root, inp: Inputs, w: Weather, p: Path)
    requires WellFormedDisk(root.disk) && p !in root.disk
    requires RecordedProjection(root.cache, Listed(inp.entries), p)
    ensures p !in Stage5(root, inp, w) && p !in Prepare(root, inp, w).disk
  {
    ListedExactly(inp.entries);
    MissingIff(root, inp, w, p);
    NothingAppearsBeforePopulation(root, inp, w);
    var turn := Stage4At(root, inp, w, p);
    TurnSkips(turn, Listed(inp.entries)[p], PlanFor(root, inp, w), w);
    var pop := Stage4(root, inp, w);
    AfterStaleKeeps(pop.disk, Sort(LoadLocalState(root.cache), DeeperRecordFirst), Listed(inp.entries),
                    pop.shielded, w.staleDelete);
  }

  lemma SnapshotIsOnDisk(disk: Disk, e: Entry, previous: map<Path, Cached>, refreshed: set<Path>, r: Cached)
    requires SnapshotOne(disk, e, previous, refreshed) == Some(r)
    ensures r.path == e.path && r.path in disk
  {
  }

  /** The new cache has records only for items that are on disk when the pass ends. */
  lemma RecordsAreOnDisk(root: Root, inp: Inputs, w: Weather, r: Cached)
    requires r in NewCache(root, inp, w)
    ensures r.path in Stage5(root, inp, w)
  {
    var pop := Stage4(root, inp, w);
    var final := Stage5(root, inp, w);
    var listing := PlaceholderEntries(inp.entries);
    var previous := PlanFor(root, inp, w).previous;
    NewCacheElements(root, inp, w, r);
    if r in RetainedRecords(final, LoadLocalState(root.cache), CurrentPaths(listing, pop.shielded), pop.shielded) {
      RetainedElements(final, LoadLocalState(root.cache), CurrentPaths(listing, pop.shielded), pop.shielded);
    } else {
      var k :| 0 <= k < |listing| && SnapshotOne(final, listing[k], previous, pop.refreshed) == Some(r);
      SnapshotIsOnDisk(final, listing[k], previous, pop.refreshed, r);
    }
  }

  lemma PopulateOneKeepsDirectories(pop: Population, e: Entry, plan: Plan, w: Weather, d: Path)
    requires e.path != [] && DirectoryExists(pop.disk, d)
    ensures DirectoryExists(PopulateOne(pop, e, plan, w).disk, d)
  {
  }

  lemma {:induction false} PopulateKeepsDirectories(disk: Disk, listing: seq<Entry>, plan: Plan, w: Weather, d: Path)
    requires Rooted(listing) && DirectoryExists(disk, d)
    ensures DirectoryExists(Populate(disk, listing, plan, w).disk, d)
  {
    if listing != [] {
      var n := |listing| - 1;
      PopulateKeepsDirectories(disk, listing[..n], plan, w, d);
      PopulateOneKeepsDirectories(Populate(disk, listing[..n], plan, w), listing[n], plan, w, d);
    }
  }

  /** A directory that is listed as one is still there when population starts. */
  lemma ListedDirectoryIsKept(root: Root, inp: Inputs, w: Weather, d: Path)
    requires d in Listed(inp.entries) && Listed(inp.entries)[d].isDirectory
    requires d in root.disk && IsDirectoryItem(root.disk[d])
    ensures DirectoryExists(Stage3(root, inp, w), d)
  {
    var previous := LoadLocalState(root.cache);
    AfterChangedExactly(root.disk, previous, Listed(inp.entries), w.changedDelete);
    assert !DeletedAsChanged(root.disk, previous, Listed(inp.entries), w.changedDelete, d);
    ListedExactly(inp.entries);
    AfterIgnoredKeeps(Stage1(root, inp, w), Sort(w.walkIgnored, DeeperFirst), w.spared);
    AfterPruneKeeps(Stage2(root, inp, w), Sort(w.walkPrune, DeeperFirst), ExpectedIn(root, inp, w),
                    w.recent, w.pruneDelete);
  }

  /** p lies at the top, or in a directory that is there and is listed as one. */
  ghost predicate InListedDirectory(disk: Disk, listed: map<Path, Entry>, p: Path) {
    |p| > 1 ==>
      && Parent(p) in listed && listed[Parent(p)].isDirectory
      && Parent(p) in disk && IsDirectoryItem(disk[Parent(p)])
  }

  lemma TurnMakesIff(turn: Population, e: Entry, plan: Plan, w: Weather)
    requires e.path != [] && e.path !in turn.disk
    ensures var after := PopulateOne(turn, e, plan, w).disk;
            && (e.path in after <==>
                  && !CoveredByAny(plan.pendingDeletes, e.path) && e.path !in plan.missing
                  && w.create(e.path).Makes? && DirectoryExists(turn.disk, Parent(e.path)))
            && (e.path in after ==>
                  after[e.path] == NewPlaceholder(e, w.create(e.path).readable, w.create(e.path).offline))
  {
  }

  /** Once a path has had its turn, later turns change nothing about it. */
  lemma PrefixDecides(disk: Disk, listing: seq<Entry>, plan: Plan, w: Weather, k: nat, i: nat)
    requires Rooted(listing) && DistinctPaths(listing) && i < k <= |listing|
    ensures AgreeAt(Populate(disk, listing[..k], plan, w), Populate(disk, listing, plan, w), listing[i].path)
  {
    var prefix := listing[..k];
    assert prefix[i] == listing[i] && prefix[..i] == listing[..i];
    PopulateAt(disk, prefix, plan, w, i);
    PopulateAt(disk, listing, plan, w, i);
  }

  /** When the turn of an entry comes, the directory above it is as it will be after population. */
  lemma DirectoryIsDecided(disk: Disk, listing: seq<Entry>, plan: Plan, w: Weather, k: nat)
    requires Rooted(listing) && DistinctPaths(listing) && ParentsFirst(listing) && k < |listing|
    ensures DirectoryExists(Populate(disk, listing[..k], plan, w).disk, Parent(listing[k].path)) <==>
            DirectoryExists(Populate(disk, listing, plan, w).disk, Parent(listing[k].path))
  {
    if |listing[k].path| > 1 {
      var i :| 0 <= i < k && listing[i].path == Parent(listing[k].path);
      PrefixDecides(disk, listing, plan, w, k, i);
    }
  }

  /**
   An absent path is made exactly when it is listed, not recorded as a projection, under no pending
   delete, its creation succeeds and the directory above it is there after the pass.
  */
  lemma AbsentIsMadeIff(root: Root, inp: Inputs, w: Weather, p: Path)
    requires WellFormedDisk(root.disk) && p !in root.disk && p != [] && w.registers
    ensures var after := Prepare(root, inp, w).disk;
            && (p in after <==>
                  && p in Listed(inp.entries) && !RecordedProjection(root.cache, Listed(inp.entries), p)
                  && !CoveredByAny(inp.pendingDeletes, p) && w.create(p).Makes? && DirectoryExists(after, Parent(p)))
            && (p in after ==>
                  after[p] == NewPlaceholder(Listed(inp.entries)[p], w.create(p).readable, w.create(p).offline))
  {
    var pop := Stage4(root, inp, w);
    NothingAppearsBeforePopulation(root, inp, w);
    MissingIff(root, inp, w, p);
    AfterStaleKeeps(pop.disk, Sort(LoadLocalState(root.cache), DeeperRecordFirst), Listed(inp.entries),
                    pop.shielded, w.staleDelete);
    if p in Listed(inp.entries) {
      MadeInPopulationIff(root, inp, w, p);
      ListedExactly(inp.entries);
      if |p| > 1 {
        ListedAncestors(inp.entries, Parent(p), p);
      }
    } else {
      UnlistedIsFramed(root, inp, w, p);
    }
  }

  lemma MadeInPopulationIff(root: Root, inp: Inputs, w: Weather, p: Path)
    requires p in Listed(inp.entries) && p !in Stage3(root, inp, w) && p != []
    ensures var after := Stage4(root, inp, w).disk;
            && (p in after <==>
                  && !CoveredByAny(inp.pendingDeletes, p) && p !in MissingIn(root, inp, w)
                  && w.create(p).Makes? && DirectoryExists(after, Parent(p)))
            && (p in after ==>
                  after[p] == NewPlaceholder(Listed(inp.entries)[p], w.create(p).readable, w.create(p).offline))
  {
    var listing := PlaceholderEntries(inp.entries);
    var plan := PlanFor(root, inp, w);
    var k := ListingIndex(inp.entries, p);
    ListingIsRooted(inp.entries);
    PlaceholderOrder(inp.entries);
    DirectoryIsDecided(Stage3(root, inp, w), listing, plan, w, k);
    PopulateBefore(Stage3(root, inp, w), listing, plan, w, k);
    PopulateAt(Stage3(root, inp, w), listing, plan, w, k);
    TurnMakesIff(Populate(Stage3(root, inp, w), listing[..k], plan, w), listing[k], plan, w);
  }

  /** A directory listed as one stays. */
  lemma ListedDirectoryStays(root: Root, inp: Inputs, w: Weather, p: Path)
    requires w.registers && InListedDirectory(root.disk, Listed(inp.entries), p) && p != []
    ensures DirectoryExists(Prepare(root, inp, w).disk, Parent(p))
  {
    if |p| > 1 {
      ListedDirectoryRemains(root, inp, w, Parent(p));
    }
  }

  /** A pass that can make p: it is listed, no delete is pending over it, and creation succeeds. */
  ghost predicate CanMake(inp: Inputs, w: Weather, p: Path) {
    w.registers && w.create(p).Makes? && p in Listed(inp.entries) && !CoveredByAny(inp.pendingDeletes, p)
  }

  /** In a listed directory that is there, an absent path without a record is made iff it can be. */
  lemma UnrecordedIsMadeIff(root: Root, inp: Inputs, w: Weather, p: Path)
    requires WellFormedDisk(root.disk) && p !in root.disk && p != [] && !RecordedAt(root.cache, p)
    requires InListedDirectory(root.disk, Listed(inp.entries), p)
    ensures p in Prepare(root, inp, w).disk <==> CanMake(inp, w, p)
    ensures p in Prepare(root, inp, w).disk ==>
              Prepare(root, inp, w).disk[p]
              == NewPlaceholder(Listed(inp.entries)[p], w.create(p).readable, w.create(p).offline)
  {
    if w.registers {
      AbsentIsMadeIff(root, inp, w, p);
      ListedDirectoryStays(root, inp, w, p);
    }
  }

  /**
   Whether a directory will be there after the pass, read off the state before it: it is there, or it
   can be made, is not recorded as a projection, and lies in one that will be there.
  */
  ghost predicate WillStand(root: Root, inp: Inputs, w: Weather, d: Path)
    decreases |d|
  {
    || d == []
    || (if d in root.disk then IsDirectoryItem(root.disk[d])
        else CanMake(inp, w, d) && !RecordedProjection(root.cache, Listed(inp.entries), d)
             && WillStand(root, inp, w, Parent(d)))
  }

  lemma DirectoryEntryLeaves(turn: Population, e: Entry, plan: Plan, w: Weather)
    requires e.path != [] && e.isDirectory && e.path in turn.disk
    ensures e.path in PopulateOne(turn, e, plan, w).disk
    ensures PopulateOne(turn, e, plan, w).disk[e.path] == turn.disk[e.path]
  {
  }

  lemma PrunedIsMissing(root: Root, inp: Inputs, w: Weather, d: Path)
    requires d in Listed(inp.entries) && Listed(inp.entries)[d].isDirectory
    requires d in root.disk && d !in Stage3(root, inp, w)
    ensures d in MissingIn(root, inp, w)
  {
    var previous := LoadLocalState(root.cache);
    ListedExactly(inp.entries);
    AfterChangedExactly(root.disk, previous, Listed(inp.entries), w.changedDelete);
    assert !DeletedAsChanged(root.disk, previous, Listed(inp.entries), w.changedDelete, d);
    AfterIgnoredKeeps(Stage1(root, inp, w), Sort(w.walkIgnored, DeeperFirst), w.spared);
    AfterPruneKeeps(Stage2(root, inp, w), Sort(w.walkPrune, DeeperFirst), ExpectedIn(root, inp, w),
                    w.recent, w.pruneDelete);
  }

  /** A file where a directory is listed does not become one. */
  lemma FileIsNoDirectory(root: Root, inp: Inputs, w: Weather, d: Path)
    requires WellFormedDisk(root.disk) && w.registers
    requires d in Listed(inp.entries) && Listed(inp.entries)[d].isDirectory
    requires d in root.disk && !IsDirectoryItem(root.disk[d])
    ensures !DirectoryExists(Prepare(root, inp, w).disk, d)
  {
    var pop := Stage4(root, inp, w);
    NothingAppearsBeforePopulation(root, inp, w);
    var turn := Stage4At(root, inp, w, d);
    if d in Stage3(root, inp, w) {
      DirectoryEntryLeaves(turn, Listed(inp.entries)[d], PlanFor(root, inp, w), w);
    } else {
      PrunedIsMissing(root, inp, w, d);
      TurnSkips(turn, Listed(inp.entries)[d], PlanFor(root, inp, w), w);
    }
    AfterStaleKeeps(pop.disk, Sort(LoadLocalState(root.cache), DeeperRecordFirst), Listed(inp.entries),
                    pop.shielded, w.staleDelete);
  }

  lemma ListedDirectoryRemains(root: Root, inp: Inputs, w: Weather, d: Path)
    requires w.registers && d in Listed(inp.entries) && Listed(inp.entries)[d].isDirectory
    requires d in root.disk && IsDirectoryItem(root.disk[d])
    ensures DirectoryExists(Prepare(root, inp, w).disk, d)
  {
    var pop := Stage4(root, inp, w);
    ListingIsRooted(inp.entries);
    ListedDirectoryIsKept(root, inp, w, d);
    PopulateKeepsDirectories(Stage3(root, inp, w), PlaceholderEntries(inp.entries), PlanFor(root, inp, w), w, d);
    AfterStaleKeeps(pop.disk, Sort(LoadLocalState(root.cache), DeeperRecordFirst), Listed(inp.entries),
                    pop.shielded, w.staleDelete);
  }

  lemma ReachableAbove(entries: seq<Entry>, p: Path)
    requires p in Listed(entries) && Reachable(Listed(entries), p) && |p| > 1
    ensures Parent(p) in Listed(entries) && Listed(entries)[Parent(p)].isDirectory
    ensures Reachable(Listed(entries), Parent(p))
  {
    ListedAncestors(entries, Parent(p), p);
    forall a | a in Listed(entries) && Covers(a, Parent(p)) && a != Parent(p) ensures Listed(entries)[a].isDirectory {
      CoversTransitive(a, Parent(p), p);
    }
  }

  /** A directory listed below directories only is there after the pass exactly when it will stand. */
  lemma {:induction false} WillStandIff(root: Root, inp: Inputs, w: Weather, d: Path)
    requires WellFormedDisk(root.disk) && w.registers
    requires d in Listed(inp.entries) && Listed(inp.entries)[d].isDirectory && Reachable(Listed(inp.entries), d)
    ensures DirectoryExists(Prepare(root, inp, w).disk, d) <==> WillStand(root, inp, w, d)
    decreases |d|
  {
    ListedExactly(inp.entries);
    if d in root.disk {
      if IsDirectoryItem(root.disk[d]) {
        ListedDirectoryRemains(root, inp, w, d);
      } else {
        FileIsNoDirectory(root, inp, w, d);
      }
    } else {
      AbsentIsMadeIff(root, inp, w, d);
      if |d| > 1 {
        ReachableAbove(inp.entries, d);
        WillStandIff(root, inp, w, Parent(d));
      }
    }
  }

  /**
   Read off the state before the pass: an absent path listed below directories only is made exactly
   when it can be, is not recorded as a projection, and its directory will stand.
  */
  lemma ReachableIsMadeIff(root: Root, inp: Inputs, w: Weather, p: Path)
    requires WellFormedDisk(root.disk) && p !in root.disk && p != []
    requires p in Listed(inp.entries) ==> Reachable(Listed(inp.entries), p)
    ensures p in Prepare(root, inp, w).disk <==>
            && CanMake(inp, w, p) && !RecordedProjection(root.cache, Listed(inp.entries), p)
            && WillStand(root, inp, w, Parent(p))
  {
    if w.registers {
      AbsentIsMadeIff(root, inp, w, p);
      if p in Listed(inp.entries) && |p| > 1 {
        ReachableAbove(inp.entries, p);
        WillStandIff(root, inp, w, Parent(p));
      }
    }
  }

  /**
   A recorded item the user removed is not made by the first completed pass, which forgets it.  The
   next pass that finds its listed directory there makes it exactly when the provider lists it, no
   delete is pending over it and creation succeeds: without a published delete, removing an item
   locally does not last.
  */
  lemma MissingIsForgottenThenMade(root: Root, inp: Inputs, w: Weather, p: Path)
    requires WellFormedDisk(root.disk) && Completes(w)
    requires p !in root.disk && RecordedProjection(root.cache, Listed(inp.entries), p)
    ensures var next := Prepare(root, inp, w);
            && p !in next.disk && !RecordedAt(next.cache, p)
            && forall inp': Inputs, w': Weather :: InListedDirectory(next.disk, Listed(inp'.entries), p) ==>
                 (p in Prepare(next, inp', w').disk <==> CanMake(inp', w', p))
  {
    var next := Prepare(root, inp, w);
    ListedExactly(inp.entries);
    MissingIsSkipped(root, inp, w, p);
    StagesWellFormed(root, inp, w);
    if RecordedAt(next.cache, p) {
      var r :| r in next.cache && r.path == p;
      RecordsAreOnDisk(root, inp, w, r);
      assert false;
    }
    forall inp': Inputs, w': Weather | InListedDirectory(next.disk, Listed(inp'.entries), p)
      ensures p in Prepare(next, inp', w').disk <==> CanMake(inp', w', p)
    {
      UnrecordedIsMadeIff(next, inp', w', p);
    }
  }
}
