/**
 A whole refresh of the drive folder: reconciling the markers, publishing local changes and reading
 the listing again, and preparing the sync root from it.
*/
module DriveFolder {
  import opened Paths
  import opened Sorting
  import opened Listing
  import opened Wrappers
  import opened Markers
  import opened SyncRoot
  import opened SyncStages
  import opened SyncSafety
  import opened SyncVersions
  import opened SyncRecreation
  import opened LocalDeletes
  import opened LocalUpserts

  /** What the provider answers: two listings, and which mutations fail. */
  datatype Provider = Provider(entries: seq<Entry>, again: seq<Entry>, deleteFails: Path -> bool, writeFails: Path -> bool)

  /** The deletes the scan finds, and what publishing them leaves. */
  function Scanned(root: Root, s: Markers, provider: Provider): seq<Path> {
    RecentLocalFileDeletes(root.disk, provider.entries, LoadLocalState(root.cache), s)
  }

  function AfterScan(root: Root, s: Markers, provider: Provider, now: int): (Markers, seq<Path>) {
    AfterPublish(s, Scanned(root, s, provider), provider.deleteFails, now)
  }

  /** Some published delete or write went through. */
  ghost predicate SomethingChanged(root: Root, s: Markers, provider: Provider, now: int) {
    var (after, issued) := AfterScan(root, s, provider, now);
    || (exists d :: d in issued && !provider.deleteFails(d))
    || (exists p :: IsUpsert(root.disk, p, Listed(provider.entries), PreviousByPath(LoadLocalState(root.cache)), s)
                    && p !in after.deletes && p !in after.preserves && !provider.writeFails(p))
  }

  /** When the first reconcile, the scan, the second reconcile and the pass read the clock. */
  datatype Clocks = Clocks(reconcile: int, scan: int, again: int, pass: int)

  /** The listing the pass works from and the markers before it prunes them. */
  ghost function Refreshed(root: Root, s: Markers, provider: Provider, scan: bool, clocks: Clocks): (seq<Entry>, Markers) {
    var reconciled := AfterReconcile(s, Listed(provider.entries).Keys, clocks.reconcile);
    if !scan then (provider.entries, reconciled)
    else
      var alive := Pruned(reconciled, clocks.scan);
      var after := AfterScan(root, alive, provider, clocks.scan).0;
      if SomethingChanged(root, alive, provider, clocks.scan)
      then (provider.again, AfterReconcile(after, Listed(provider.again).Keys, clocks.again))
      else (provider.entries, after)
  }

  ghost function InputsFor(entries: seq<Entry>, s: Markers): Inputs {
    Inputs(entries, s.deletes.Keys, s.preserves.Keys)
  }

  // ---------------------------------------------------------------------------------------------
  // The provider path cache
  // ---------------------------------------------------------------------------------------------

  function ExistingPaths(entries: seq<Entry>, disk: Disk): seq<Path> {
    if entries == [] then []
    else
      var p := entries[|entries| - 1].path;
      var rest := ExistingPaths(entries[..|entries| - 1], disk);
      if EntryExists(disk.Keys, p) && p !in rest then rest + [p] else rest
  }

  /** The provider's paths that exist in the sync root, each once, in text order. */
  function ProviderPaths(entries: seq<Entry>, disk: Disk): seq<Path> {
    Sort(ExistingPaths(entries, disk), ByText)
  }

  lemma NamesLast(entries: seq<Entry>, p: Path)
    requires entries != []
    ensures Names(entries, p) <==> p == entries[|entries| - 1].path || Names(entries[..|entries| - 1], p)
  {
    var rest := entries[..|entries| - 1];
    if Names(rest, p) {
      var i :| 0 <= i < |rest| && rest[i].path == p;
      assert entries[i].path == p;
    }
    if Names(entries, p) {
      var i :| 0 <= i < |entries| && entries[i].path == p;
      assert i < |rest| ==> rest[i].path == p;
    }
  }

  lemma {:induction false} ExistingPathsAre(entries: seq<Entry>, disk: Disk)
    ensures forall p :: p in ExistingPaths(entries, disk) <==> p != [] && !Ignored(p) && p in disk && Names(entries, p)
    ensures AllDifferent(ExistingPaths(entries, disk))
  {
    if entries != [] {
      var rest := entries[..|entries| - 1];
      ExistingPathsAre(rest, disk);
      forall p ensures Names(entries, p) <==> p == entries[|entries| - 1].path || Names(rest, p) {
        NamesLast(entries, p);
      }
    }
  }

  /** The cache names exactly the provider's paths that exist, each once and in order. */
  lemma ProviderPathsAre(entries: seq<Entry>, disk: Disk)
    ensures forall p :: p in ProviderPaths(entries, disk) <==> p != [] && !Ignored(p) && p in disk && Names(entries, p)
    ensures AllDifferent(ProviderPaths(entries, disk)) && Sorted(ProviderPaths(entries, disk), ByText)
  {
    ExistingPathsAre(entries, disk);
    SortedByText(ExistingPaths(entries, disk));
  }

  // ---------------------------------------------------------------------------------------------
  // Pruned markers stay pruned
  // ---------------------------------------------------------------------------------------------

  ghost predicate Fresh(s: Markers, now: int) {
    Pruned(s, now) == s
  }

  lemma MarkIsFresh(s: Markers, p: Path, now: int)
    requires Fresh(s, now)
    ensures Fresh(AfterMark(s, p, now).0, now)
  {
  }

  lemma ClearIsFresh(s: Markers, paths: set<Path>, now: int)
    requires Fresh(s, now)
    ensures Fresh(AfterClear(s, paths), now)
  {
  }

  lemma {:induction false} PublishIsFresh(s: Markers, deletes: seq<Path>, fails: Path -> bool, now: int)
    requires Fresh(s, now)
    ensures Fresh(AfterPublish(s, deletes, fails, now).0, now)
  {
    if deletes != [] {
      var n := |deletes| - 1;
      PublishIsFresh(s, deletes[..n], fails, now);
      var before := AfterPublish(s, deletes[..n], fails, now).0;
      MarkIsFresh(before, deletes[n], now);
      ClearIsFresh(AfterMark(before, deletes[n], now).0, {deletes[n]}, now);
    }
  }

  lemma ReconcileIsClean(s: Markers, listed: set<Path>, now: int)
    requires CleanMarkers(s)
    ensures CleanMarkers(AfterReconcile(s, listed, now))
  {
  }

  // ---------------------------------------------------------------------------------------------
  // The refresh
  // ---------------------------------------------------------------------------------------------

  /** Publishes the deletes and the files the scan finds and tells whether anything went through. */
  method PublishRecentLocalFileMutations(markers: PendingMutations, folder: SyncRootFolder, provider: Provider,
                                         children: Path -> seq<Path>, now: int) returns (changed: bool)
    requires WellFormedDisk(folder.disk) && Enumerates(children, folder.disk)
    requires CleanMarkers(markers.State())
    modifies markers
    ensures markers.State() == AfterScan(folder.State(), Pruned(old(markers.State()), now), provider, now).0
    ensures changed <==> SomethingChanged(folder.State(), Pruned(old(markers.State()), now), provider, now)
  {
    markers.Prune(now);
    ghost var s := markers.State();
    var previous := LoadLocalState(folder.cache);
    var upserts := FindRecentLocalFileUpserts(folder.disk, children, provider.entries, previous,
                                              Markers(markers.deletes, markers.preserves));
    var deletes := FindRecentLocalFileDeletes(folder.disk, provider.entries, previous,
                                              Markers(markers.deletes, markers.preserves));
    var issued, deleted := PublishRecentLocalFileDeletes(markers, deletes, provider.deleteFails, now);
    ghost var after := markers.State();
    PublishIsFresh(s, deletes, provider.deleteFails, now);
    var written, wrote := PublishRecentLocalFileUpserts(markers, upserts, provider.writeFails, now);
    forall p ensures p in written <==> p in upserts && p !in after.deletes && p !in after.preserves {
      UnmarkedElements(upserts, after, p);
    }
    changed := deleted || wrote;
  }

  /**
   One refresh, in the order of the source.  A pass that can register the sync root prunes the
   markers it reads; one that completes yields the provider path cache.
  */
  method PrepareDriveFolder(markers: PendingMutations, folder: SyncRootFolder, provider: Provider, scan: bool,
                            children: Path -> seq<Path>, clocks: Clocks, w: Weather) returns (paths: Option<seq<Path>>)
    requires WellFormedDisk(folder.disk) && Enumerates(children, folder.disk) && CleanMarkers(markers.State())
    modifies markers, folder
    ensures var (entries, seen) := Refreshed(old(folder.State()), old(markers.State()), provider, scan, clocks);
            && markers.State() == (if w.registers then Pruned(seen, clocks.pass) else seen)
            && folder.State() == Prepare(old(folder.State()), InputsFor(entries, markers.State()), w)
            && paths == if w.registers && w.connects then Some(ProviderPaths(entries, folder.disk)) else None
  {
    ghost var s := markers.State();
    var entries := provider.entries;
    markers.ReconcilePendingProviderMutations(Listed(entries).Keys, clocks.reconcile);
    ReconcileIsClean(s, Listed(entries).Keys, clocks.reconcile);
    if scan {
      var changed := PublishRecentLocalFileMutations(markers, folder, provider, children, clocks.scan);
      if changed {
        entries := provider.again;
        markers.ReconcilePendingProviderMutations(Listed(entries).Keys, clocks.again);
      }
    }
    if w.registers {
      markers.Prune(clocks.pass);
    }
    folder.ApplyListing(Inputs(entries, markers.deletes.Keys, markers.preserves.Keys), w);
    paths := if w.registers && w.connects then Some(ProviderPaths(entries, folder.disk)) else None;
  }

  // ---------------------------------------------------------------------------------------------
  // A published delete is not undone
  // ---------------------------------------------------------------------------------------------

  /** The pass and the second reconcile come within the lifetime of a marker set by the scan. */
  predicate InTime(clocks: Clocks) {
    clocks.again <= clocks.scan + PENDING_MUTATION_TTL_MS && clocks.pass <= clocks.scan + PENDING_MUTATION_TTL_MS
  }

  /** A delete that is published without failing is marked from then on, and counts as a change. */
  lemma PublishedIsMarked(root: Root, alive: Markers, provider: Provider, now: int, d: Path)
    requires WellFormedDisk(root.disk) && FilesAreLeaves(Listed(provider.entries))
    requires Fresh(alive, now) && alive.preserves == map[]
    requires d in Scanned(root, alive, provider) && !provider.deleteFails(d)
    ensures var after := AfterScan(root, alive, provider, now).0;
            d != [] && d in after.deletes && after.deletes[d] == now
    ensures SomethingChanged(root, alive, provider, now)
  {
    ScannedDeletesAreAllIssued(root.disk, provider.entries, LoadLocalState(root.cache), alive, provider.deleteFails, now);
    assert LeftOver(alive, Scanned(root, alive, provider), provider.deleteFails, d);
    DeletesAre(root.disk, provider.entries, LoadLocalState(root.cache), alive, d);
  }

  /**
   With the scan enabled, no rename pending and the refresh done within the lifetime of a marker, an
   item that is absent at or under a delete the scan finds and publishes is absent after the refresh,
   whatever the provider lists afterwards and whatever the pass manages to do.
  */
  lemma PublishedDeleteIsNotUndone(root: Root, s: Markers, provider: Provider, clocks: Clocks, w: Weather, d: Path, p: Path)
    requires WellFormedDisk(root.disk) && FilesAreLeaves(Listed(provider.entries))
    requires s.preserves == map[] && InTime(clocks)
    requires d in Scanned(root, Pruned(AfterReconcile(s, Listed(provider.entries).Keys, clocks.reconcile), clocks.scan), provider)
    requires !provider.deleteFails(d) && Covers(d, p) && p !in root.disk
    ensures var (entries, seen) := Refreshed(root, s, provider, true, clocks);
            p !in Prepare(root, InputsFor(entries, Pruned(seen, clocks.pass)), w).disk
  {
    var alive := Pruned(AfterReconcile(s, Listed(provider.entries).Keys, clocks.reconcile), clocks.scan);
    PublishedIsMarked(root, alive, provider, clocks.scan, d);
    var after := AfterScan(root, alive, provider, clocks.scan).0;
    var seen := AfterReconcile(after, Listed(provider.again).Keys, clocks.again);
    StaysAbsent(root, InputsFor(provider.again, Pruned(seen, clocks.pass)), w, d, p);
  }

  /** What is absent at or under a path that is marked whenever it is listed stays absent. */
  lemma StaysAbsent(root: Root, inp: Inputs, w: Weather, d: Path, p: Path)
    requires WellFormedDisk(root.disk) && p !in root.disk && Covers(d, p) && d != []
    requires d in Listed(inp.entries) ==> d in inp.pendingDeletes
    ensures p !in Prepare(root, inp, w).disk
  {
    if w.registers {
      if p in Listed(inp.entries) {
        ListedAncestors(inp.entries, d, p);
        NothingCreatedUnderPending(root, inp, w, p);
      } else if p != [] {
        AbsentIsMadeIff(root, inp, w, p);
      }
    }
  }

  // ---------------------------------------------------------------------------------------------
  // What a refresh makes
  // ---------------------------------------------------------------------------------------------

  /** The listing read last: the second one if the scan published something that went through. */
  ghost function LastListing(root: Root, s: Markers, provider: Provider, scan: bool, clocks: Clocks): seq<Entry> {
    var alive := Pruned(AfterReconcile(s, Listed(provider.entries).Keys, clocks.reconcile), clocks.scan);
    if scan && SomethingChanged(root, alive, provider, clocks.scan) then provider.again else provider.entries
  }

  /**
   An absent path is made by a refresh exactly when the listing read last has it and the pass can
   make it there: one that is listed only after the publication is made as well, and one that is no
   longer listed then is not.
  */
  lemma RefreshMakesIff(root: Root, s: Markers, provider: Provider, scan: bool, clocks: Clocks, w: Weather, p: Path)
    requires WellFormedDisk(root.disk) && p !in root.disk && p != []
    requires var listed := Listed(LastListing(root, s, provider, scan, clocks)); p in listed ==> Reachable(listed, p)
    ensures var (entries, seen) := Refreshed(root, s, provider, scan, clocks);
            var inp := InputsFor(LastListing(root, s, provider, scan, clocks), Pruned(seen, clocks.pass));
            p in Prepare(root, InputsFor(entries, Pruned(seen, clocks.pass)), w).disk <==>
            && p in Listed(inp.entries) && !CoveredByAny(inp.pendingDeletes, p) && w.registers && w.create(p).Makes?
            && !RecordedProjection(root.cache, Listed(inp.entries), p) && WillStand(root, inp, w, Parent(p))
  {
    var (entries, seen) := Refreshed(root, s, provider, scan, clocks);
    assert entries == LastListing(root, s, provider, scan, clocks);
    ReachableIsMadeIff(root, InputsFor(entries, Pruned(seen, clocks.pass)), w, p);
  }
}
