/** Which plain items a pass deletes, what it records about them, and data safety over whole runs. */
module SyncSafety {
  import opened Paths
  import opened Sorting
  import opened Listing
  import opened Wrappers
  import opened SyncRoot
  import opened SyncStages

  // ---------------------------------------------------------------------------------------------
  // Shielded items
  // ---------------------------------------------------------------------------------------------

  lemma ListingIndex(entries: seq<Entry>, p: Path) returns (k: nat)
    requires p in Listed(entries)
    ensures k < |PlaceholderEntries(entries)|
    ensures PlaceholderEntries(entries)[k] == Listed(entries)[p] && Listed(entries)[p].path == p
  {
    ListedExactly(entries);
    PlaceholderElements(entries);
    var e := Listed(entries)[p];
    assert e in PlaceholderEntries(entries);
    k :| 0 <= k < |PlaceholderEntries(entries)| && PlaceholderEntries(entries)[k] == e;
  }

  lemma ListingNames(entries: seq<Entry>, k: nat)
    requires k < |PlaceholderEntries(entries)|
    ensures var e := PlaceholderEntries(entries)[k];
            e.path in Listed(entries) && Listed(entries)[e.path] == e && e.path != [] && !Ignored(e.path)
  {
    PlaceholderElements(entries);
    ListedExactly(entries);
    assert PlaceholderEntries(entries)[k] in PlaceholderEntries(entries);
  }

  /** What the turn of a listed path does to it, in terms of the pruned disk. */
  lemma Stage4At(root: Root, inp: Inputs, w: Weather, p: Path) returns (turn: Population)
    requires p in Listed(inp.entries) && WellFormedDisk(root.disk)
    ensures WellFormedDisk(turn.disk) && turn.refreshed !! {p} && turn.shielded !! {p}
    ensures p in turn.disk <==> p in Stage3(root, inp, w)
    ensures p in turn.disk ==> turn.disk[p] == Stage3(root, inp, w)[p]
    ensures Listed(inp.entries)[p].path == p && p != []
    ensures AgreeAt(Stage4(root, inp, w),
                    PopulateOne(turn, Listed(inp.entries)[p], PlanFor(root, inp, w), w), p)
  {
    var listing := PlaceholderEntries(inp.entries);
    var k := ListingIndex(inp.entries, p);
    ListingIsRooted(inp.entries);
    PlaceholderOrder(inp.entries);
    PopulateBefore(Stage3(root, inp, w), listing, PlanFor(root, inp, w), w, k);
    PopulateAt(Stage3(root, inp, w), listing, PlanFor(root, inp, w), w, k);
    StagesWellFormed(root, inp, w);
    PopulateWellFormed(Stage3(root, inp, w), listing[..k], PlanFor(root, inp, w), w);
    turn := Populate(Stage3(root, inp, w), listing[..k], PlanFor(root, inp, w), w);
  }

  lemma TurnShieldsIff(turn: Population, e: Entry, plan: Plan, w: Weather)
    requires WellFormedDisk(turn.disk) && e.path != [] && e.path !in turn.shielded
    ensures e.path in PopulateOne(turn, e, plan, w).shielded <==>
            && !e.isDirectory && !CoveredByAny(plan.pendingDeletes, e.path) && e.path !in plan.missing
            && e.path in turn.disk && !IsPlaceholder(turn.disk[e.path])
  {
  }

  lemma ShieldedIsListed(root: Root, inp: Inputs, w: Weather, p: Path)
    requires p in Stage4(root, inp, w).shielded
    ensures p in Listed(inp.entries)
  {
    var listing := PlaceholderEntries(inp.entries);
    ListingIsRooted(inp.entries);
    ShieldedAreLocal(Stage3(root, inp, w), listing, PlanFor(root, inp, w), w);
    assert NamesFile(listing, p);
    var i :| 0 <= i < |listing| && listing[i].path == p;
    ListingNames(inp.entries, i);
  }

  /**
   A pass shields exactly the plain items left at paths listed as files, outside pending deletes
   and outside the projections found missing.
  */
  lemma ShieldedIff(root: Root, inp: Inputs, w: Weather, p: Path)
    requires WellFormedDisk(root.disk)
    ensures p in Stage4(root, inp, w).shielded <==>
            && p in Listed(inp.entries) && !Listed(inp.entries)[p].isDirectory
            && !CoveredByAny(inp.pendingDeletes, p) && p !in MissingIn(root, inp, w)
            && p in Stage3(root, inp, w) && !IsPlaceholder(Stage3(root, inp, w)[p])
  {
    if p in Listed(inp.entries) {
      var turn := Stage4At(root, inp, w, p);
      TurnShieldsIff(turn, Listed(inp.entries)[p], PlanFor(root, inp, w), w);
    } else if p in Stage4(root, inp, w).shielded {
      ShieldedIsListed(root, inp, w, p);
    }
  }

  /** The files listed where a plain item sits. */
  function PlainListed(disk: Disk, listed: map<Path, Entry>): set<Path> {
    set p | p in listed && !listed[p].isDirectory && p in disk && !IsPlaceholder(disk[p])
  }

  /** The plain items a pass finds at paths listed as files, outside pending deletes. */
  function Protected(disk: Disk, inp: Inputs): set<Path> {
    set p | p in PlainListed(disk, Listed(inp.entries)) && !CoveredByAny(inp.pendingDeletes, p)
  }

  // ---------------------------------------------------------------------------------------------
  // Which plain files one pass deletes
  // ---------------------------------------------------------------------------------------------

  /** A plain file outside ignored names reaches the end of the population unless it was changed. */
  lemma PlainUntilStale(root: Root, inp: Inputs, w: Weather, p: Path)
    requires WellFormedDisk(root.disk) && !Ignored(p)
    requires p in root.disk && !IsPlaceholder(root.disk[p])
    ensures var kept := p in Stage1(root, inp, w);
            && (kept ==> p in Stage4(root, inp, w).disk && Stage4(root, inp, w).disk[p] == root.disk[p])
            && (kept ==> p in Stage3(root, inp, w) && Stage3(root, inp, w)[p] == root.disk[p])
            && (!kept ==> p !in Stage3(root, inp, w))
  {
    AfterChangedExactly(root.disk, LoadLocalState(root.cache), Listed(inp.entries), w.changedDelete);
    AfterIgnoredKeeps(Stage1(root, inp, w), Sort(w.walkIgnored, DeeperFirst), w.spared);
    AfterPruneKeeps(Stage2(root, inp, w), Sort(w.walkPrune, DeeperFirst), ExpectedIn(root, inp, w),
                    w.recent, w.pruneDelete);
    ListingIsRooted(inp.entries);
    PopulateKeepsLocal(Stage3(root, inp, w), PlaceholderEntries(inp.entries), PlanFor(root, inp, w), w);
  }

  lemma TurnSkips(turn: Population, e: Entry, plan: Plan, w: Weather)
    requires e.path != [] && e.path !in turn.disk && e.path in plan.missing
    ensures e.path !in PopulateOne(turn, e, plan, w).disk
  {
  }

  lemma ChangedIsMissing(root: Root, inp: Inputs, w: Weather, p: Path)
    requires DeletedAsChanged(root.disk, LoadLocalState(root.cache), Listed(inp.entries), w.changedDelete, p)
    ensures p in MissingIn(root, inp, w) && p !in Stage1(root, inp, w) && p in Listed(inp.entries)
  {
    var previous := LoadLocalState(root.cache);
    var listed := Listed(inp.entries);
    AfterChangedExactly(root.disk, previous, listed, w.changedDelete);
    var i :| 0 <= i < |previous| && previous[i].path == p && ChangedVictim(root.disk, previous[i], listed);
    assert IsMissingProjection(Stage1(root, inp, w), previous[i], listed);
  }

  /** A file deleted as changed is not recreated in the same pass. */
  lemma ChangedIsNotRecreated(root: Root, inp: Inputs, w: Weather, p: Path)
    requires WellFormedDisk(root.disk)
    requires DeletedAsChanged(root.disk, LoadLocalState(root.cache), Listed(inp.entries), w.changedDelete, p)
    ensures p !in Stage4(root, inp, w).disk
  {
    ChangedIsMissing(root, inp, w, p);
    AfterIgnoredKeeps(Stage1(root, inp, w), Sort(w.walkIgnored, DeeperFirst), w.spared);
    AfterPruneKeeps(Stage2(root, inp, w), Sort(w.walkPrune, DeeperFirst), ExpectedIn(root, inp, w),
                    w.recent, w.pruneDelete);
    var turn := Stage4At(root, inp, w, p);
    TurnSkips(turn, Listed(inp.entries)[p], PlanFor(root, inp, w), w);
  }

  lemma StaleDependsOnTheItem(a: Disk, b: Disk, ordered: seq<Cached>, listed: map<Path, Entry>,
                              shielded: set<Path>, deleted: nat -> bool, p: Path)
    requires p in a && p in b && a[p] == b[p] && a[p].LocalFile?
    ensures DeletedAsStale(a, ordered, listed, shielded, deleted, p) <==>
            DeletedAsStale(b, ordered, listed, shielded, deleted, p)
  {
    forall r: Cached | r.path == p
      ensures StaleVictim(a, r, listed, shielded) <==> StaleVictim(b, r, listed, shielded)
    {
    }
  }

  lemma ShieldedWasProtected(root: Root, inp: Inputs, w: Weather, q: Path)
    requires WellFormedDisk(root.disk) && q in Stage4(root, inp, w).shielded
    ensures q in Protected(root.disk, inp)
  {
    ShieldedIff(root, inp, w, q);
    AfterChangedExactly(root.disk, LoadLocalState(root.cache), Listed(inp.entries), w.changedDelete);
    AfterIgnoredKeeps(Stage1(root, inp, w), Sort(w.walkIgnored, DeeperFirst), w.spared);
    AfterPruneKeeps(Stage2(root, inp, w), Sort(w.walkPrune, DeeperFirst), ExpectedIn(root, inp, w),
                    w.recent, w.pruneDelete);
  }

  lemma PresentIsNotMissing(root: Root, inp: Inputs, w: Weather, p: Path)
    requires p in Listed(inp.entries) && !Listed(inp.entries)[p].isDirectory && p in Stage1(root, inp, w)
    ensures p !in MissingIn(root, inp, w)
  {
  }

  /** A protected item is shielded unless this pass removed it as changed. */
  lemma ProtectedIsShielded(root: Root, inp: Inputs, w: Weather, q: Path)
    requires WellFormedDisk(root.disk) && q in Protected(root.disk, inp) && q in Stage1(root, inp, w)
    ensures q in Stage4(root, inp, w).shielded
  {
    ListedExactly(inp.entries);
    PlainUntilStale(root, inp, w, q);
    PresentIsNotMissing(root, inp, w, q);
    ShieldedIff(root, inp, w, q);
  }

  /** What is protected next to an unlisted plain item is a directory above it. */
  lemma ProtectedIsAbove(disk: Disk, inp: Inputs, p: Path, q: Path)
    requires WellFormedDisk(disk) && p in disk && p !in Listed(inp.entries)
    requires q in Protected(disk, inp) && (Covers(q, p) || Covers(p, q))
    ensures Covers(q, p) && q != p && disk[q].LocalDirectory?
  {
    ListedExactly(inp.entries);
    if Covers(p, q) {
      ListedAncestors(inp.entries, p, q);
    }
    AncestorsExist(disk, q, p);
  }

  /**
   For an unlisted item, what the pass shields around it can be read off the disk beforehand: the
   directories above it that are listed as files, outside pending deletes.
  */
  lemma RelatedShieldedIff(root: Root, inp: Inputs, w: Weather, p: Path)
    requires WellFormedDisk(root.disk) && p in root.disk && p !in Listed(inp.entries)
    ensures RelatedToAny(Stage4(root, inp, w).shielded, p) <==> RelatedToAny(Protected(root.disk, inp), p)
  {
    if RelatedToAny(Stage4(root, inp, w).shielded, p) {
      var q :| q in Stage4(root, inp, w).shielded && (Covers(q, p) || Covers(p, q));
      ShieldedWasProtected(root, inp, w, q);
    }
    if RelatedToAny(Protected(root.disk, inp), p) {
      var q :| q in Protected(root.disk, inp) && (Covers(q, p) || Covers(p, q));
      ProtectedIsAbove(root.disk, inp, p, q);
      AfterChangedExactly(root.disk, LoadLocalState(root.cache), Listed(inp.entries), w.changedDelete);
      assert !DeletedAsChanged(root.disk, LoadLocalState(root.cache), Listed(inp.entries), w.changedDelete, q);
      ProtectedIsShielded(root, inp, w, q);
    }
  }

  /** Some record lets this pass delete the plain file p. */
  ghost predicate PassDeletes(root: Root, inp: Inputs, w: Weather, p: Path) {
    var previous := LoadLocalState(root.cache);
    && w.registers
    && (DeletedAsChanged(root.disk, previous, Listed(inp.entries), w.changedDelete, p) ||
        (w.connects &&
         DeletedAsStale(root.disk, Sort(previous, DeeperRecordFirst), Listed(inp.entries),
                        Protected(root.disk, inp), w.staleDelete, p)))
  }

  lemma StaleDependsOnRelated(disk: Disk, ordered: seq<Cached>, listed: map<Path, Entry>,
                              a: set<Path>, b: set<Path>, deleted: nat -> bool, p: Path)
    requires p !in listed ==> (RelatedToAny(a, p) <==> RelatedToAny(b, p))
    ensures DeletedAsStale(disk, ordered, listed, a, deleted, p) <==>
            DeletedAsStale(disk, ordered, listed, b, deleted, p)
  {
    forall r: Cached | r.path == p ensures StaleVictim(disk, r, listed, a) <==> StaleVictim(disk, r, listed, b) {
    }
  }

  /**
   A pass removes a plain file exactly when a record has its size and hash, the matching delete
   succeeds, and the provider either lists another size or version of it or no longer lists it
   while nothing related to it is protected.  Otherwise the file stays untouched.
  */
  lemma FileDeletedIff(root: Root, inp: Inputs, w: Weather, p: Path)
    requires WellFormedDisk(root.disk) && !Ignored(p)
    requires p in root.disk && root.disk[p].LocalFile?
    ensures var after := Prepare(root, inp, w).disk;
            && (p !in after <==> PassDeletes(root, inp, w, p))
            && (p in after ==> after[p] == root.disk[p])
  {
    if w.registers {
      var previous := LoadLocalState(root.cache);
      var listed := Listed(inp.entries);
      AfterChangedExactly(root.disk, previous, listed, w.changedDelete);
      PlainUntilStale(root, inp, w, p);
      var pop := Stage4(root, inp, w);
      var ordered := Sort(previous, DeeperRecordFirst);
      AfterStaleKeeps(pop.disk, ordered, listed, pop.shielded, w.staleDelete);
      if DeletedAsChanged(root.disk, previous, listed, w.changedDelete, p) {
        ChangedIsNotRecreated(root, inp, w, p);
      } else {
        AfterStaleFilesExactly(pop.disk, ordered, listed, pop.shielded, w.staleDelete, p);
        StaleDependsOnTheItem(root.disk, pop.disk, ordered, listed, pop.shielded, w.staleDelete, p);
        if p !in listed {
          RelatedShieldedIff(root, inp, w, p);
        }
        StaleDependsOnRelated(root.disk, ordered, listed, pop.shielded, Protected(root.disk, inp), w.staleDelete, p);
      }
    }
  }

  /** A record of p as a directory is there, and this pass may and can act on it. */
  ghost predicate PassMayRemoveDirectory(root: Root, inp: Inputs, w: Weather, p: Path) {
    && w.registers && w.connects
    && p !in Listed(inp.entries) && !RelatedToAny(Protected(root.disk, inp), p)
    && exists i: nat :: DirectoryRecordAt(Sort(LoadLocalState(root.cache), DeeperRecordFirst), w.staleDelete, p, i)
  }

  lemma DirectoryReachesStale(root: Root, inp: Inputs, w: Weather, p: Path)
    requires WellFormedDisk(root.disk) && !Ignored(p)
    requires p in root.disk && root.disk[p].LocalDirectory?
    ensures p in Stage4(root, inp, w).disk && Stage4(root, inp, w).disk[p] == LocalDirectory
  {
    var previous := LoadLocalState(root.cache);
    AfterChangedExactly(root.disk, previous, Listed(inp.entries), w.changedDelete);
    assert !DeletedAsChanged(root.disk, previous, Listed(inp.entries), w.changedDelete, p);
    PlainUntilStale(root, inp, w, p);
  }

  /**
   A pass removes a plain directory exactly when a record of it as a directory is deleted, the
   provider no longer lists it, nothing related to it is protected, and everything in it goes too.
  */
  lemma DirectoryDeletedIff(root: Root, inp: Inputs, w: Weather, p: Path)
    requires WellFormedDisk(root.disk) && !Ignored(p)
    requires p in root.disk && root.disk[p].LocalDirectory?
    ensures var after := Prepare(root, inp, w).disk;
            && (p !in after <==> PassMayRemoveDirectory(root, inp, w, p) && !HasChildren(after, p))
            && (p in after ==> after[p] == LocalDirectory)
  {
    if w.registers {
      DirectoryReachesStale(root, inp, w, p);
      var previous := LoadLocalState(root.cache);
      var ordered := Sort(previous, DeeperRecordFirst);
      var pop := Stage4(root, inp, w);
      DeeperRecordFirstIsTotal();
      SortSorts(previous, DeeperRecordFirst);
      AfterStaleKeeps(pop.disk, ordered, Listed(inp.entries), pop.shielded, w.staleDelete);
      AfterStaleDirectoriesIff(pop.disk, ordered, Listed(inp.entries), pop.shielded, w.staleDelete, p);
      if p !in Listed(inp.entries) {
        RelatedShieldedIff(root, inp, w, p);
      }
    }
  }

  lemma {:induction false} LoadedElements(cache: seq<Cached>)
    ensures forall r :: r in LoadLocalState(cache) <==> r in cache && r.path != [] && !Ignored(r.path)
  {
    if cache != [] {
      LoadedElements(cache[..|cache| - 1]);
      assert cache == cache[..|cache| - 1] + [cache[|cache| - 1]];
    }
  }

  // ---------------------------------------------------------------------------------------------
  // Which hashes one pass records
  // ---------------------------------------------------------------------------------------------

  lemma {:induction false} ListedRecordElements(disk: Disk, listing: seq<Entry>, previous: map<Path, Cached>,
                                                refreshed: set<Path>, shielded: set<Path>)
    ensures forall r :: r in ListedRecords(disk, listing, previous, refreshed, shielded) <==>
              exists k :: 0 <= k < |listing| && !RelatedToAny(shielded, listing[k].path)
                          && SnapshotOne(disk, listing[k], previous, refreshed) == Some(r)
  {
    if listing != [] {
      var n := |listing| - 1;
      var rest := listing[..n];
      ListedRecordElements(disk, rest, previous, refreshed, shielded);
      assert forall k :: 0 <= k < |rest| ==> rest[k] == listing[k];
      forall r ensures r in ListedRecords(disk, listing, previous, refreshed, shielded) <==>
                       exists k :: 0 <= k < |listing| && !RelatedToAny(shielded, listing[k].path)
                                   && SnapshotOne(disk, listing[k], previous, refreshed) == Some(r) {
        if r in ListedRecords(disk, rest, previous, refreshed, shielded) {
          var k :| 0 <= k < |rest| && !RelatedToAny(shielded, rest[k].path)
                   && SnapshotOne(disk, rest[k], previous, refreshed) == Some(r);
          assert listing[k] == rest[k];
        }
      }
    }
  }

  lemma {:induction false} RetainedElements(disk: Disk, previous: seq<Cached>, current: set<Path>, shielded: set<Path>)
    ensures forall r :: r in RetainedRecords(disk, previous, current, shielded) ==>
              r in previous && r.path !in current && Retains(disk, r, shielded)
  {
    if previous != [] {
      RetainedElements(disk, previous[..|previous| - 1], current, shielded);
      assert previous == previous[..|previous| - 1] + [previous[|previous| - 1]];
    }
  }

  ghost predicate NoHash(cache: seq<Cached>) {
    forall r :: r in cache ==> Blank(r.sha)
  }

  ghost predicate RecordsHash(cache: seq<Cached>, p: Path) {
    exists r :: r in cache && r.path == p && !Blank(r.sha)
  }

  /** The records of the new cache, read off the stages. */
  lemma NewCacheElements(root: Root, inp: Inputs, w: Weather, r: Cached)
    ensures r in NewCache(root, inp, w) <==>
            || (exists k :: 0 <= k < |PlaceholderEntries(inp.entries)|
                            && !RelatedToAny(Stage4(root, inp, w).shielded, PlaceholderEntries(inp.entries)[k].path)
                            && SnapshotOne(Stage5(root, inp, w), PlaceholderEntries(inp.entries)[k],
                                           PlanFor(root, inp, w).previous, Stage4(root, inp, w).refreshed) == Some(r))
            || r in RetainedRecords(Stage5(root, inp, w), LoadLocalState(root.cache),
                                    CurrentPaths(PlaceholderEntries(inp.entries), Stage4(root, inp, w).shielded),
                                    Stage4(root, inp, w).shielded)
  {
    var pop := Stage4(root, inp, w);
    var listing := PlaceholderEntries(inp.entries);
    var current := ListedRecords(Stage5(root, inp, w), listing, PlanFor(root, inp, w).previous, pop.refreshed, pop.shielded);
    var kept := RetainedRecords(Stage5(root, inp, w), LoadLocalState(root.cache),
                                CurrentPaths(listing, pop.shielded), pop.shielded);
    SortElements(current + kept, RecordBefore);
    ListedRecordElements(Stage5(root, inp, w), listing, PlanFor(root, inp, w).previous, pop.refreshed, pop.shielded);
  }

  /** Plain items at the end of a pass were there, unchanged, at its start. */
  lemma PlainWasThere(root: Root, inp: Inputs, w: Weather, p: Path)
    requires p in Stage5(root, inp, w) && !IsPlaceholder(Stage5(root, inp, w)[p])
    ensures p in root.disk && root.disk[p] == Stage5(root, inp, w)[p]
    ensures p in Stage3(root, inp, w) && Stage3(root, inp, w)[p] == root.disk[p]
  {
    AfterChangedExactly(root.disk, LoadLocalState(root.cache), Listed(inp.entries), w.changedDelete);
    AfterIgnoredKeeps(Stage1(root, inp, w), Sort(w.walkIgnored, DeeperFirst), w.spared);
    AfterPruneKeeps(Stage2(root, inp, w), Sort(w.walkPrune, DeeperFirst), ExpectedIn(root, inp, w),
                    w.recent, w.pruneDelete);
    ListingIsRooted(inp.entries);
    PopulateKeepsLocal(Stage3(root, inp, w), PlaceholderEntries(inp.entries), PlanFor(root, inp, w), w);
    var pop := Stage4(root, inp, w);
    AfterStaleKeeps(pop.disk, Sort(LoadLocalState(root.cache), DeeperRecordFirst), Listed(inp.entries),
                    pop.shielded, w.staleDelete);
  }

  /** With no hash in the cache a pass deletes no plain file outside ignored names. */
  lemma NoHashKeepsFiles(root: Root, inp: Inputs, w: Weather, p: Path)
    requires WellFormedDisk(root.disk) && NoHash(root.cache) && !Ignored(p)
    requires p in root.disk && root.disk[p].LocalFile?
    ensures p in Prepare(root, inp, w).disk && Prepare(root, inp, w).disk[p] == root.disk[p]
  {
    var previous := LoadLocalState(root.cache);
    LoadedElements(root.cache);
    SortElements(previous, DeeperRecordFirst);
    var ordered := Sort(previous, DeeperRecordFirst);
    assert forall i :: 0 <= i < |previous| ==> previous[i] in previous;
    assert forall i :: 0 <= i < |ordered| ==> ordered[i] in ordered;
    assert !PassDeletes(root, inp, w, p);
    FileDeletedIff(root, inp, w, p);
  }

  lemma NoHashChangesNothing(root: Root, inp: Inputs, w: Weather)
    requires NoHash(root.cache)
    ensures Stage1(root, inp, w) == root.disk
  {
    var previous := LoadLocalState(root.cache);
    LoadedElements(root.cache);
    AfterChangedExactly(root.disk, previous, Listed(inp.entries), w.changedDelete);
    assert forall i :: 0 <= i < |previous| ==> previous[i] in previous;
  }

  /** From a cache without hashes a pass shields exactly what is protected beforehand. */
  lemma NoHashShields(root: Root, inp: Inputs, w: Weather)
    requires WellFormedDisk(root.disk) && NoHash(root.cache)
    ensures Stage4(root, inp, w).shielded == Protected(root.disk, inp)
  {
    NoHashChangesNothing(root, inp, w);
    forall q ensures q in Stage4(root, inp, w).shielded <==> q in Protected(root.disk, inp) {
      if q in Stage4(root, inp, w).shielded {
        ShieldedWasProtected(root, inp, w, q);
      }
      if q in Protected(root.disk, inp) {
        ProtectedIsShielded(root, inp, w, q);
      }
    }
  }

  /** A plain file with a hash that is listed but not as a file to leave alone, nor next to one. */
  ghost predicate Mismatched(disk: Disk, inp: Inputs, p: Path) {
    && p in Listed(inp.entries) && p in disk && disk[p].LocalFile?
    && !Blank(Some(disk[p].content.sha))
    && (Listed(inp.entries)[p].isDirectory || CoveredByAny(inp.pendingDeletes, p))
    && !RelatedToAny(Protected(disk, inp), p)
  }

  /**
   From a cache without hashes, a completed pass records a hash for p exactly when a plain file
   with a hash sits at a listed path that is listed as a directory or covered by a pending delete,
   and nothing related to it is protected.
  */
  lemma HashRecordedIff(root: Root, inp: Inputs, w: Weather, p: Path)
    requires WellFormedDisk(root.disk) && NoHash(root.cache)
    requires w.registers && w.connects && w.write == Written
    ensures RecordsHash(Prepare(root, inp, w).cache, p) <==> Mismatched(root.disk, inp, p)
  {
    NoHashShields(root, inp, w);
    if RecordsHash(NewCache(root, inp, w), p) {
      var r :| r in NewCache(root, inp, w) && r.path == p && !Blank(r.sha);
      HashComesFromAPlainFile(root, inp, w, r);
      assert Covers(p, p);
    }
    if Mismatched(root.disk, inp, p) {
      MismatchedIsRecorded(root, inp, w, p);
    }
  }

  lemma MismatchedIsRecorded(root: Root, inp: Inputs, w: Weather, p: Path)
    requires WellFormedDisk(root.disk) && NoHash(root.cache) && Mismatched(root.disk, inp, p)
    requires w.registers && w.connects && w.write == Written
    ensures RecordsHash(NewCache(root, inp, w), p)
  {
    NoHashShields(root, inp, w);
    var pop := Stage4(root, inp, w);
    var listing := PlaceholderEntries(inp.entries);
    var k := ListingIndex(inp.entries, p);
    ListingNames(inp.entries, k);
    NoHashKeepsFiles(root, inp, w, p);
    var r := SnapshotOne(Stage5(root, inp, w), listing[k], PlanFor(root, inp, w).previous, pop.refreshed);
    NewCacheElements(root, inp, w, r.value);
    assert r.value in NewCache(root, inp, w) && r.value.path == p;
  }

  /** A record with a hash is not a retained one, when the old cache had no hashes. */
  lemma HashedRecordIsFresh(root: Root, inp: Inputs, w: Weather, r: Cached) returns (k: nat)
    requires NoHash(root.cache) && r in NewCache(root, inp, w) && !Blank(r.sha)
    ensures k < |PlaceholderEntries(inp.entries)|
    ensures !RelatedToAny(Stage4(root, inp, w).shielded, PlaceholderEntries(inp.entries)[k].path)
    ensures SnapshotOne(Stage5(root, inp, w), PlaceholderEntries(inp.entries)[k],
                        PlanFor(root, inp, w).previous, Stage4(root, inp, w).refreshed) == Some(r)
  {
    var listing := PlaceholderEntries(inp.entries);
    var shielded := Stage4(root, inp, w).shielded;
    NewCacheElements(root, inp, w, r);
    RetainedElements(Stage5(root, inp, w), LoadLocalState(root.cache), CurrentPaths(listing, shielded), shielded);
    LoadedElements(root.cache);
    k :| 0 <= k < |listing| && !RelatedToAny(shielded, listing[k].path)
         && SnapshotOne(Stage5(root, inp, w), listing[k], PlanFor(root, inp, w).previous,
                        Stage4(root, inp, w).refreshed) == Some(r);
  }

  lemma HashComesFromAPlainFile(root: Root, inp: Inputs, w: Weather, r: Cached)
    requires NoHash(root.cache) && r in NewCache(root, inp, w) && !Blank(r.sha)
    ensures r.path in Listed(inp.entries) && r.path in root.disk && root.disk[r.path].LocalFile?
    ensures Some(root.disk[r.path].content.sha) == r.sha
    ensures !RelatedToAny(Stage4(root, inp, w).shielded, r.path)
    ensures r.path in Stage3(root, inp, w) && Stage3(root, inp, w)[r.path] == root.disk[r.path]
  {
    var k := HashedRecordIsFresh(root, inp, w, r);
    ListingNames(inp.entries, k);
    PlainWasThere(root, inp, w, r.path);
  }

  // ---------------------------------------------------------------------------------------------
  // Whole runs
  // ---------------------------------------------------------------------------------------------

  /** If there is an item at the path of the entry, it is of the listed kind. */
  predicate KindFits(disk: Disk, e: Entry) {
    e.path in disk ==> e.isDirectory == IsDirectoryItem(disk[e.path])
  }

  ghost predicate KindsAgree(disk: Disk, listed: map<Path, Entry>) {
    forall p :: p in listed ==> KindFits(disk, listed[p])
  }

  /** With kinds agreeing and no delete pending, a cache without hashes gets none. */
  lemma NoHashIsKept(root: Root, inp: Inputs, w: Weather)
    requires WellFormedDisk(root.disk) && NoHash(root.cache)
    requires inp.pendingDeletes == {} && KindsAgree(root.disk, Listed(inp.entries))
    ensures NoHash(Prepare(root, inp, w).cache)
  {
    if w.registers && w.connects && w.write == Written {
      forall r | r in NewCache(root, inp, w) ensures Blank(r.sha) {
        if !Blank(r.sha) {
          assert RecordsHash(NewCache(root, inp, w), r.path);
          HashRecordedIff(root, inp, w, r.path);
          assert KindFits(root.disk, Listed(inp.entries)[r.path]);
          ListedExactly(inp.entries);
        }
      }
    }
  }

  lemma RecordOfAPlainFile(root: Root, inp: Inputs, w: Weather, p: Path) returns (r: Cached)
    requires NoHash(root.cache) && RecordsHash(NewCache(root, inp, w), p)
    ensures r in NewCache(root, inp, w) && r.path == p && !r.isDirectory && !Blank(r.sha)
    ensures p in root.disk && MatchesRecord(root.disk[p], r)
  {
    r :| r in NewCache(root, inp, w) && r.path == p && !Blank(r.sha);
    var k := HashedRecordIsFresh(root, inp, w, r);
    ListingNames(inp.entries, k);
    PlainWasThere(root, inp, w, p);
  }

  lemma UnlistedRecordIsDeleted(disk: Disk, ordered: seq<Cached>, listed: map<Path, Entry>,
                                shielded: set<Path>, deleted: nat -> bool, r: Cached)
    requires r in ordered && !r.isDirectory && !Blank(r.sha) && r.path != [] && !Ignored(r.path)
    requires r.path in disk && MatchesRecord(disk[r.path], r)
    requires r.path !in listed && !RelatedToAny(shielded, r.path) && forall i :: deleted(i)
    ensures DeletedAsStale(disk, ordered, listed, shielded, deleted, r.path)
  {
    var i :| 0 <= i < |ordered| && ordered[i] == r;
    assert StaleVictim(disk, ordered[i], listed, shielded);
  }

  /** An unlisted plain file has the same protected directories above it after such a pass. */
  lemma ProtectedAboveIsKept(root: Root, inp: Inputs, w: Weather, inp': Inputs, p: Path)
    requires WellFormedDisk(root.disk) && NoHash(root.cache)
    requires w.registers && w.connects
    requires p in root.disk && root.disk[p].LocalFile? && !Ignored(p) && p !in Listed(inp'.entries)
    ensures RelatedToAny(Protected(Prepare(root, inp, w).disk, inp'), p) <==> RelatedToAny(Protected(root.disk, inp'), p)
  {
    var middle := Prepare(root, inp, w).disk;
    StagesWellFormed(root, inp, w);
    NoHashKeepsFiles(root, inp, w, p);
    ListedExactly(inp'.entries);
    if RelatedToAny(Protected(middle, inp'), p) {
      var q :| q in Protected(middle, inp') && (Covers(q, p) || Covers(p, q));
      PlainWasThere(root, inp, w, q);
      assert q in Protected(root.disk, inp');
    }
    if RelatedToAny(Protected(root.disk, inp'), p) {
      var q :| q in Protected(root.disk, inp') && (Covers(q, p) || Covers(p, q));
      ProtectedIsAbove(root.disk, inp', p, q);
      AncestorsExist(middle, q, p);
      DirectoryDeletedIff(root, inp, w, q);
      assert q in Protected(middle, inp');
    }
  }

  /** With every delete succeeding, an unlisted plain file goes exactly when its hash is recorded. */
  lemma UnlistedGoesIff(root: Root, inp: Inputs, w: Weather, p: Path)
    requires WellFormedDisk(root.disk) && !Ignored(p) && p in root.disk && root.disk[p].LocalFile?
    requires w.registers && w.connects && (forall i :: w.staleDelete(i)) && p !in Listed(inp.entries)
    requires RecordsHash(root.cache, p) ==>
               exists r :: r in root.cache && r.path == p && !r.isDirectory && !Blank(r.sha) && MatchesRecord(root.disk[p], r)
    ensures p !in Prepare(root, inp, w).disk <==>
            RecordsHash(root.cache, p) && !RelatedToAny(Protected(root.disk, inp), p)
  {
    var previous := LoadLocalState(root.cache);
    var ordered := Sort(previous, DeeperRecordFirst);
    LoadedElements(root.cache);
    SortElements(previous, DeeperRecordFirst);
    FileDeletedIff(root, inp, w, p);
    if PassDeletes(root, inp, w, p) {
      var i :| 0 <= i < |ordered| && ordered[i].path == p
               && StaleVictim(root.disk, ordered[i], Listed(inp.entries), Protected(root.disk, inp));
      assert ordered[i] in ordered;
    }
    if RecordsHash(root.cache, p) && !RelatedToAny(Protected(root.disk, inp), p) {
      var r :| r in root.cache && r.path == p && !r.isDirectory && !Blank(r.sha) && MatchesRecord(root.disk[p], r);
      UnlistedRecordIsDeleted(root.disk, ordered, Listed(inp.entries), Protected(root.disk, inp), w.staleDelete, r);
    }
  }

  /**
   Why kinds must agree and no delete may be pending.  From a cache without hashes, a completed pass
   followed by one that no longer lists p and whose deletes succeed loses the user's plain file p
   exactly when p was listed as a directory or under a pending delete, with a hash, and neither
   listing has a file where a plain item related to p sits.
  */
  lemma MismatchedFileIsLostIff(root: Root, inp: Inputs, w: Weather, p: Path, inp': Inputs, w': Weather)
    requires WellFormedDisk(root.disk) && NoHash(root.cache)
    requires w.registers && w.connects && w.write == Written
    requires p in root.disk && root.disk[p].LocalFile? && !Ignored(p)
    requires w'.registers && w'.connects && (forall i :: w'.staleDelete(i)) && p !in Listed(inp'.entries)
    ensures p !in Prepare(Prepare(root, inp, w), inp', w').disk <==>
            Mismatched(root.disk, inp, p) && !RelatedToAny(Protected(root.disk, inp'), p)
  {
    var middle := Prepare(root, inp, w);
    NoHashKeepsFiles(root, inp, w, p);
    StagesWellFormed(root, inp, w);
    HashRecordedIff(root, inp, w, p);
    if RecordsHash(middle.cache, p) {
      var r := RecordOfAPlainFile(root, inp, w, p);
    }
    UnlistedGoesIff(middle, inp', w', p);
    ProtectedAboveIsKept(root, inp, w, inp', p);
  }

  /** A user edit leaves any well-formed disk; a pass runs with any listing and any outcomes. */
  datatype Event = Edit(disk: Disk) | Pass(inp: Inputs, w: Weather)

  ghost predicate Next(root: Root, event: Event, root': Root) {
    match event
    case Edit(disk) => WellFormedDisk(disk) && root' == Root(disk, root.cache)
    case Pass(inp, w) =>
      && inp.pendingDeletes == {} && KindsAgree(root.disk, Listed(inp.entries))
      && root' == Prepare(root, inp, w)
  }

  ghost predicate History(roots: seq<Root>, events: seq<Event>) {
    && |roots| == |events| + 1
    && roots[0].cache == [] && WellFormedDisk(roots[0].disk)
    && forall i :: 0 <= i < |events| ==> Next(roots[i], events[i], roots[i + 1])
  }

  /** Along such a history the cache never holds a content hash. */
  lemma {:induction false} HistoryKeepsNoHash(roots: seq<Root>, events: seq<Event>, n: nat)
    requires History(roots, events) && n < |roots|
    ensures NoHash(roots[n].cache) && WellFormedDisk(roots[n].disk)
  {
    if n > 0 {
      HistoryKeepsNoHash(roots, events, n - 1);
      assert Next(roots[n - 1], events[n - 1], roots[n]);
      match events[n - 1]
      case Edit(_) =>
      case Pass(inp, w) =>
        NoHashIsKept(roots[n - 1], inp, w);
        StagesWellFormed(roots[n - 1], inp, w);
    }
  }

  /**
   From an empty cache, over any interleaving of user edits and passes with no delete pending and
   kinds agreeing, no pass changes or deletes a plain file outside ignored names.
  */
  lemma DataSafety(roots: seq<Root>, events: seq<Event>, n: nat, p: Path)
    requires History(roots, events) && n < |events|
    ensures events[n].Pass? && p in roots[n].disk && roots[n].disk[p].LocalFile? && !Ignored(p) ==>
              p in roots[n + 1].disk && roots[n + 1].disk[p] == roots[n].disk[p]
  {
    HistoryKeepsNoHash(roots, events, n);
    assert Next(roots[n], events[n], roots[n + 1]);
    if events[n].Pass? && p in roots[n].disk && roots[n].disk[p].LocalFile? && !Ignored(p) {
      NoHashKeepsFiles(roots[n], events[n].inp, events[n].w, p);
    }
  }
}
