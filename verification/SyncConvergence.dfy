/** What a pass achieves when nothing fails: exact pruning, exact population, and a fixed point. */
module SyncConvergence {
  import opened Paths
  import opened Sorting
  import opened Listing
  import opened Wrappers
  import opened SyncRoot
  import opened PlaceholderContent
  import opened SyncStages
  import opened SyncSafety

  // ---------------------------------------------------------------------------------------------
  // Bottom-up pruning
  // ---------------------------------------------------------------------------------------------

  /** An item the pruning may not touch. */
  predicate Anchored(disk: Disk, expected: set<Path>, x: Path) {
    x in disk && (x in expected || !IsPlaceholder(disk[x]))
  }

  /** q is anchored or holds something anchored somewhere below it. */
  predicate HoldsAnchor(disk: Disk, expected: set<Path>, q: Path) {
    q in disk && exists x :: x in disk && Covers(q, x) && Anchored(disk, expected, x)
  }

  ghost predicate AllHoldAnchors(disk: Disk, expected: set<Path>) {
    forall p {:trigger HoldsAnchor(disk, expected, p)} :: p in disk ==> HoldsAnchor(disk, expected, p)
  }

  ghost predicate Walks(walk: seq<Path>, disk: Disk) {
    forall p :: p in disk ==> p in walk
  }

  lemma {:induction false} AnchorsHold(disk: Disk, walk: seq<Path>, expected: set<Path>,
                                       recent: Path -> bool, deleted: Path -> bool, q: Path)
    requires WellFormedDisk(disk) && HoldsAnchor(disk, expected, q)
    ensures q in AfterPrune(disk, walk, expected, recent, deleted)
  {
    if walk != [] {
      var n := |walk| - 1;
      AnchorsHold(disk, walk[..n], expected, recent, deleted, q);
      var before := AfterPrune(disk, walk[..n], expected, recent, deleted);
      if walk[n] == q && PruneVictim(before, q, expected, recent) {
        AfterPruneKeeps(disk, walk[..n], expected, recent, deleted);
        AfterPruneWellFormed(disk, walk[..n], expected, recent, deleted);
        var x :| x in disk && Covers(q, x) && Anchored(disk, expected, x);
        assert x in before && x != q;
        SomethingBelowMeansChild(before, q, x);
        AncestorsExist(before, q, x);
        assert false;
      }
    }
  }

  /** Of the paths walked so far, only those that hold an anchor are left. */
  lemma {:induction false} WalkedAndLeft(disk: Disk, walk: seq<Path>, k: nat, expected: set<Path>,
                                         recent: Path -> bool, deleted: Path -> bool)
    requires WellFormedDisk(disk) && Walks(walk, disk) && Sorted(walk, DeeperFirst) && k <= |walk|
    requires forall p :: !recent(p) && deleted(p)
    ensures forall q :: q in walk[..k] && q in AfterPrune(disk, walk[..k], expected, recent, deleted) ==>
              HoldsAnchor(disk, expected, q)
  {
    if k > 0 {
      var n := k - 1;
      WalkedAndLeft(disk, walk, n, expected, recent, deleted);
      assert walk[..k][..n] == walk[..n];
      var before := AfterPrune(disk, walk[..n], expected, recent, deleted);
      AfterPruneKeeps(disk, walk[..n], expected, recent, deleted);
      forall q | q in walk[..k] && q in AfterPrune(disk, walk[..k], expected, recent, deleted)
        ensures HoldsAnchor(disk, expected, q)
      {
        if q == walk[n] {
          assert q in before && !PruneVictim(before, q, expected, recent);
          assert Covers(q, q);
          if !Anchored(disk, expected, q) {
            var c :| c in before && IsChild(c, q);
            ChildrenAreWalkedFirst(walk, n, c);
            assert HoldsAnchor(disk, expected, c);
            var x :| x in disk && Covers(c, x) && Anchored(disk, expected, x);
            assert Covers(q, x);
          }
        } else {
          assert q in walk[..n];
        }
      }
    }
  }

  lemma ChildrenAreWalkedFirst(walk: seq<Path>, n: nat, c: Path)
    requires Sorted(walk, DeeperFirst) && n < |walk| && c in walk && |c| > |walk[n]|
    ensures c in walk[..n]
  {
    var j :| 0 <= j < |walk| && walk[j] == c;
    assert j < n;
    assert walk[..n][j] == c;
  }

  lemma DeeperFirstIsTotal()
    ensures TotalPreorder(DeeperFirst)
  {
  }

  lemma AnchorHolderIsDirectory(disk: Disk, expected: set<Path>, q: Path)
    requires WellFormedDisk(disk) && HoldsAnchor(disk, expected, q) && !Anchored(disk, expected, q)
    ensures disk[q].CloudDirectory?
  {
    var x :| x in disk && Covers(q, x) && Anchored(disk, expected, x);
    AncestorsExist(disk, q, x);
  }

  /**
   With every delete succeeding and nothing recent, what is left after pruning is exactly what
   holds an anchor: a placeholder outside the expected set stays only if it is a directory with an
   expected or plain item somewhere below it.
  */
  lemma PruneExactly(disk: Disk, enumeration: seq<Path>, expected: set<Path>,
                     recent: Path -> bool, deleted: Path -> bool, q: Path)
    requires WellFormedDisk(disk) && Walks(enumeration, disk)
    requires forall p :: !recent(p) && deleted(p)
    ensures var walk := Sort(enumeration, DeeperFirst);
            q in AfterPrune(disk, walk, expected, recent, deleted) <==> HoldsAnchor(disk, expected, q)
    ensures HoldsAnchor(disk, expected, q) && !Anchored(disk, expected, q) ==> disk[q].CloudDirectory?
  {
    var walk := Sort(enumeration, DeeperFirst);
    assert Walks(walk, disk) by { SortElements(enumeration, DeeperFirst); }
    assert Sorted(walk, DeeperFirst) by {
      DeeperFirstIsTotal();
      SortSorts(enumeration, DeeperFirst);
    }
    assert walk[..|walk|] == walk;
    if q in AfterPrune(disk, walk, expected, recent, deleted) {
      AfterPruneKeeps(disk, walk, expected, recent, deleted);
      WalkedAndLeft(disk, walk, |walk|, expected, recent, deleted);
    }
    if HoldsAnchor(disk, expected, q) {
      AnchorsHold(disk, walk, expected, recent, deleted, q);
      if !Anchored(disk, expected, q) {
        AnchorHolderIsDirectory(disk, expected, q);
      }
    }
  }

  // ---------------------------------------------------------------------------------------------
  // Complete population
  // ---------------------------------------------------------------------------------------------

  ghost predicate DirectoriesFirst(listing: seq<Entry>) {
    forall j :: 0 <= j < |listing| && |listing[j].path| > 1 ==>
      exists i :: 0 <= i < j && listing[i].path == Parent(listing[j].path) && listing[i].isDirectory
  }

  ghost predicate ListingAgrees(disk: Disk, listing: seq<Entry>) {
    forall i :: 0 <= i < |listing| ==> KindFits(disk, listing[i])
  }

  ghost predicate NothingHeldBack(plan: Plan, w: Weather) {
    && plan.pendingDeletes == {} && plan.missing == {}
    && forall p :: w.refreshDelete(p) && w.create(p).Makes?
  }

  /** The turn of an entry whose parent is there leaves an item of the listed kind. */
  lemma TurnCompletes(turn: Population, e: Entry, plan: Plan, w: Weather)
    requires e.path != [] && NothingHeldBack(plan, w) && DirectoryExists(turn.disk, Parent(e.path))
    requires KindFits(turn.disk, e)
    ensures var after := PopulateOne(turn, e, plan, w).disk;
            && e.path in after && IsDirectoryItem(after[e.path]) == e.isDirectory
            && (e.path in turn.disk && (e.isDirectory || !IsPlaceholder(turn.disk[e.path])) ==>
                  after[e.path] == turn.disk[e.path])
            && (e.path !in turn.disk ==>
                  after[e.path] == NewPlaceholder(e, w.create(e.path).readable, w.create(e.path).offline))
  {
  }

  /** Every listed path ends up on disk with the listed kind. */
  lemma {:induction false} PopulateComplete(disk: Disk, listing: seq<Entry>, plan: Plan, w: Weather, k: nat)
    requires Rooted(listing) && DistinctPaths(listing) && DirectoriesFirst(listing) && k < |listing|
    requires NothingHeldBack(plan, w) && ListingAgrees(disk, listing)
    ensures var after := Populate(disk, listing, plan, w).disk;
            var e := listing[k];
            && e.path in after && IsDirectoryItem(after[e.path]) == e.isDirectory
            && (e.path !in disk ==>
                  after[e.path] == NewPlaceholder(e, w.create(e.path).readable, w.create(e.path).offline))
    decreases k
  {
    var e := listing[k];
    var turn := Populate(disk, listing[..k], plan, w);
    PopulateBefore(disk, listing, plan, w, k);
    PopulateAt(disk, listing, plan, w, k);
    assert DirectoryExists(turn.disk, Parent(e.path)) by {
      if |e.path| > 1 {
        var i :| 0 <= i < k && listing[i].path == Parent(e.path) && listing[i].isDirectory;
        PrefixIsOrdered(disk, listing, k);
        assert listing[..k][i] == listing[i];
        PopulateComplete(disk, listing[..k], plan, w, i);
      }
    }
    TurnCompletes(turn, e, plan, w);
  }

  lemma PrefixIsOrdered(disk: Disk, listing: seq<Entry>, k: nat)
    requires Rooted(listing) && DistinctPaths(listing) && DirectoriesFirst(listing) && k <= |listing|
    requires ListingAgrees(disk, listing)
    ensures Rooted(listing[..k]) && DistinctPaths(listing[..k]) && DirectoriesFirst(listing[..k])
    ensures ListingAgrees(disk, listing[..k])
  {
    var prefix := listing[..k];
    forall j | 0 <= j < |prefix| && |prefix[j].path| > 1
      ensures exists i :: 0 <= i < j && prefix[i].path == Parent(prefix[j].path) && prefix[i].isDirectory
    {
      assert prefix[j] == listing[j];
      var i :| 0 <= i < j && listing[i].path == Parent(listing[j].path) && listing[i].isDirectory;
      assert prefix[i] == listing[i];
    }
  }

  lemma ListingIsOrdered(entries: seq<Entry>, disk: Disk)
    requires FilesAreLeaves(Listed(entries)) && KindsAgree(disk, Listed(entries))
    ensures var listing := PlaceholderEntries(entries);
            && Rooted(listing) && DistinctPaths(listing) && DirectoriesFirst(listing)
            && ListingAgrees(disk, listing)
  {
    var listing := PlaceholderEntries(entries);
    ListingIsRooted(entries);
    PlaceholderOrder(entries);
    forall j | 0 <= j < |listing| && |listing[j].path| > 1
      ensures exists i :: 0 <= i < j && listing[i].path == Parent(listing[j].path) && listing[i].isDirectory
    {
      ListingNames(entries, j);
      var i :| 0 <= i < j && listing[i].path == Parent(listing[j].path);
      ListingNames(entries, i);
    }
    forall i | 0 <= i < |listing| ensures KindFits(disk, listing[i]) {
      ListingNames(entries, i);
    }
  }

  /** Nothing fails and nothing is recent. */
  ghost predicate AllSucceeds(w: Weather) {
    && w.registers && w.connects && w.write == Written
    && forall p :: w.spared(p) == {} && !w.recent(p) && w.pruneDelete(p) && w.refreshDelete(p) && w.create(p).Makes?
  }

  lemma EmptyCacheStages(disk: Disk, inp: Inputs, w: Weather)
    ensures Stage1(Root(disk, []), inp, w) == disk
    ensures MissingIn(Root(disk, []), inp, w) == {}
    ensures Stage5(Root(disk, []), inp, w) == Stage4(Root(disk, []), inp, w).disk
  {
    assert Sort(LoadLocalState([]), DeeperRecordFirst) == [];
  }

  lemma ReachableStep(listed: map<Path, Entry>, p: Path)
    requires p != [] && (|p| > 1 ==> Parent(p) in listed) && [] !in listed
    ensures Reachable(listed, p) <==> |p| == 1 || (Reachable(listed, Parent(p)) && listed[Parent(p)].isDirectory)
  {
    forall a ensures Covers(a, p) && a != p <==> Covers(a, Parent(p)) {
      CoversStep(a, p);
    }
    assert Covers(Parent(p), Parent(p));
  }

  /** The listing is the ordered form of this dictionary. */
  ghost predicate Lists(listing: seq<Entry>, listed: map<Path, Entry>) {
    && Rooted(listing) && DistinctPaths(listing) && ParentsFirst(listing) && [] !in listed
    && forall i :: 0 <= i < |listing| ==> listing[i].path in listed && listed[listing[i].path] == listing[i]
  }

  lemma PrefixLists(listing: seq<Entry>, listed: map<Path, Entry>, k: nat)
    requires Lists(listing, listed) && k <= |listing|
    ensures Lists(listing[..k], listed)
  {
    var prefix := listing[..k];
    forall j | 0 <= j < |prefix| && |prefix[j].path| > 1
      ensures exists i :: 0 <= i < j && prefix[i].path == Parent(prefix[j].path)
    {
      assert prefix[j] == listing[j];
      var i :| 0 <= i < j && listing[i].path == Parent(listing[j].path);
      assert prefix[i] == listing[i];
    }
  }

  /** From an empty disk the reachable entries are created and the others are skipped. */
  lemma {:induction false} PopulateReachable(listing: seq<Entry>, listed: map<Path, Entry>, plan: Plan, w: Weather, k: nat)
    requires Lists(listing, listed) && NothingHeldBack(plan, w) && k < |listing|
    ensures var after := Populate(map[], listing, plan, w).disk;
            var e := listing[k];
            && (e.path in after <==> Reachable(listed, e.path))
            && (e.path in after ==>
                  after[e.path] == NewPlaceholder(e, w.create(e.path).readable, w.create(e.path).offline))
    decreases k
  {
    var e := listing[k];
    var turn := Populate(map[], listing[..k], plan, w);
    PopulateBefore(map[], listing, plan, w, k);
    PopulateAt(map[], listing, plan, w, k);
    if |e.path| > 1 {
      var i :| 0 <= i < k && listing[i].path == Parent(e.path);
      PrefixLists(listing, listed, k);
      assert listing[..k][i] == listing[i];
      PopulateReachable(listing[..k], listed, plan, w, i);
      assert listed[Parent(e.path)] == listing[i];
    }
    ReachableStep(listed, e.path);
    assert DirectoryExists(turn.disk, Parent(e.path)) <==> Reachable(listed, e.path);
  }

  lemma PlaceholderLists(entries: seq<Entry>)
    ensures Lists(PlaceholderEntries(entries), Listed(entries))
  {
    ListingIsRooted(entries);
    PlaceholderOrder(entries);
    ListedExactly(entries);
    forall i | 0 <= i < |PlaceholderEntries(entries)|
      ensures var e := PlaceholderEntries(entries)[i];
              e.path in Listed(entries) && Listed(entries)[e.path] == e
    {
      ListingNames(entries, i);
    }
  }

  lemma NotNamed(entries: seq<Entry>, p: Path)
    requires p !in Listed(entries)
    ensures !Names(PlaceholderEntries(entries), p)
  {
    if Names(PlaceholderEntries(entries), p) {
      var i :| 0 <= i < |PlaceholderEntries(entries)| && PlaceholderEntries(entries)[i].path == p;
      ListingNames(entries, i);
    }
  }

  lemma EmptyRootStages(inp: Inputs, w: Weather)
    ensures Stage3(Root(map[], []), inp, w) == map[] && MissingIn(Root(map[], []), inp, w) == {}
  {
    EmptyCacheStages(map[], inp, w);
    AfterIgnoredKeeps(map[], Sort(w.walkIgnored, DeeperFirst), w.spared);
    AfterPruneKeeps(Stage2(Root(map[], []), inp, w), Sort(w.walkPrune, DeeperFirst),
                    ExpectedIn(Root(map[], []), inp, w), w.recent, w.pruneDelete);
  }

  /**
   A first pass over an empty root puts exactly the reachable listed paths on disk, each a
   placeholder of its listed kind made from its listed version.
  */
  lemma PopulatesExactly(inp: Inputs, w: Weather, p: Path)
    requires AllSucceeds(w) && inp.pendingDeletes == {}
    ensures var after := Prepare(Root(map[], []), inp, w).disk;
            var listed := Listed(inp.entries);
            && (p in after <==> p in listed && Reachable(listed, p))
            && (p in after ==>
                  after[p] == NewPlaceholder(listed[p], w.create(p).readable, w.create(p).offline))
  {
    var root := Root(map[], []);
    var listing := PlaceholderEntries(inp.entries);
    EmptyCacheStages(map[], inp, w);
    EmptyRootStages(inp, w);
    PlaceholderLists(inp.entries);
    if p in Listed(inp.entries) {
      var k := ListingIndex(inp.entries, p);
      PopulateReachable(listing, Listed(inp.entries), PlanFor(root, inp, w), w, k);
    } else {
      NotNamed(inp.entries, p);
      PopulateFrame(map[], listing, PlanFor(root, inp, w), w, p);
    }
  }

  // ---------------------------------------------------------------------------------------------
  // The disk after a first pass
  // ---------------------------------------------------------------------------------------------

  ghost predicate FirstPass(disk: Disk, inp: Inputs, w: Weather) {
    && WellFormedDisk(disk) && AllSucceeds(w)
    && Walks(w.walkIgnored, disk) && Walks(w.walkPrune, disk)
    && inp.pendingDeletes == {}
    && FilesAreLeaves(Listed(inp.entries)) && KindsAgree(disk, Listed(inp.entries))
  }

  /** On a settled disk every listed path is there with its kind, and everything holds an anchor. */
  ghost predicate Settled(disk: Disk, inp: Inputs) {
    var listed := Listed(inp.entries);
    && WellFormedDisk(disk)
    && (forall p :: p in listed ==> p in disk && IsDirectoryItem(disk[p]) == listed[p].isDirectory)
    && (forall p :: p in disk ==> !Ignored(p))
    && AllHoldAnchors(disk, listed.Keys + inp.pendingPreserves)
  }

  lemma PrunedStillAgrees(root: Root, inp: Inputs, w: Weather)
    requires KindsAgree(root.disk, Listed(inp.entries))
    ensures KindsAgree(Stage3(root, inp, w), Listed(inp.entries))
    ensures OnlyRemoves(root.disk, Stage3(root, inp, w))
  {
    AfterChangedExactly(root.disk, LoadLocalState(root.cache), Listed(inp.entries), w.changedDelete);
    AfterIgnoredKeeps(Stage1(root, inp, w), Sort(w.walkIgnored, DeeperFirst), w.spared);
    AfterPruneKeeps(Stage2(root, inp, w), Sort(w.walkPrune, DeeperFirst), ExpectedIn(root, inp, w),
                    w.recent, w.pruneDelete);
  }

  lemma FirstPassLists(disk: Disk, inp: Inputs, w: Weather, p: Path)
    requires FirstPass(disk, inp, w) && p in Listed(inp.entries)
    ensures var after := Stage4(Root(disk, []), inp, w).disk;
            p in after && IsDirectoryItem(after[p]) == Listed(inp.entries)[p].isDirectory
  {
    var root := Root(disk, []);
    EmptyCacheStages(disk, inp, w);
    PrunedStillAgrees(root, inp, w);
    ListingIsOrdered(inp.entries, Stage3(root, inp, w));
    var k := ListingIndex(inp.entries, p);
    PopulateComplete(Stage3(root, inp, w), PlaceholderEntries(inp.entries), PlanFor(root, inp, w), w, k);
  }

  lemma UnlistedIsFramed(root: Root, inp: Inputs, w: Weather, p: Path)
    requires p !in Listed(inp.entries)
    ensures p in Stage4(root, inp, w).disk <==> p in Stage3(root, inp, w)
    ensures p in Stage4(root, inp, w).disk ==> Stage4(root, inp, w).disk[p] == Stage3(root, inp, w)[p]
  {
    var listing := PlaceholderEntries(inp.entries);
    ListingIsRooted(inp.entries);
    NotNamed(inp.entries, p);
    PopulateFrame(Stage3(root, inp, w), listing, PlanFor(root, inp, w), w, p);
  }

  lemma FirstPassKeepsNoIgnored(disk: Disk, inp: Inputs, w: Weather, p: Path)
    requires FirstPass(disk, inp, w) && p in Stage3(Root(disk, []), inp, w)
    ensures !Ignored(p)
  {
    var root := Root(disk, []);
    EmptyCacheStages(disk, inp, w);
    AllIgnoredRemoved(disk, Sort(w.walkIgnored, DeeperFirst), w.spared);
    AfterIgnoredKeeps(disk, Sort(w.walkIgnored, DeeperFirst), w.spared);
    SortElements(w.walkIgnored, DeeperFirst);
    AfterPruneKeeps(Stage2(root, inp, w), Sort(w.walkPrune, DeeperFirst), ExpectedIn(root, inp, w),
                    w.recent, w.pruneDelete);
  }

  lemma FirstPassAnchors(disk: Disk, inp: Inputs, w: Weather, p: Path)
    requires FirstPass(disk, inp, w) && p in Stage3(Root(disk, []), inp, w)
    ensures HoldsAnchor(Stage2(Root(disk, []), inp, w), Listed(inp.entries).Keys + inp.pendingPreserves, p)
  {
    var root := Root(disk, []);
    EmptyCacheStages(disk, inp, w);
    StagesWellFormed(root, inp, w);
    AfterIgnoredKeeps(disk, Sort(w.walkIgnored, DeeperFirst), w.spared);
    var expected := Listed(inp.entries).Keys + inp.pendingPreserves;
    assert ExpectedIn(root, inp, w) == expected;
    PruneExactly(Stage2(root, inp, w), w.walkPrune, expected, w.recent, w.pruneDelete, p);
  }

  lemma AnchorsAreKept(disk: Disk, inp: Inputs, w: Weather, p: Path)
    requires FirstPass(disk, inp, w) && p in Stage3(Root(disk, []), inp, w) && p !in Listed(inp.entries)
    ensures HoldsAnchor(Stage4(Root(disk, []), inp, w).disk, Listed(inp.entries).Keys + inp.pendingPreserves, p)
  {
    var root := Root(disk, []);
    var expected := Listed(inp.entries).Keys + inp.pendingPreserves;
    FirstPassAnchors(disk, inp, w, p);
    EmptyCacheStages(disk, inp, w);
    var x :| x in Stage2(root, inp, w) && Covers(p, x) && Anchored(Stage2(root, inp, w), expected, x);
    AfterPruneKeeps(Stage2(root, inp, w), Sort(w.walkPrune, DeeperFirst), ExpectedIn(root, inp, w),
                    w.recent, w.pruneDelete);
    assert x in Stage3(root, inp, w);
    UnlistedIsFramed(root, inp, w, p);
    if x in Listed(inp.entries) {
      FirstPassLists(disk, inp, w, x);
    } else {
      UnlistedIsFramed(root, inp, w, x);
    }
    assert Anchored(Stage4(root, inp, w).disk, expected, x);
  }

  lemma FirstPassItem(disk: Disk, inp: Inputs, w: Weather, p: Path)
    requires FirstPass(disk, inp, w) && p in Stage4(Root(disk, []), inp, w).disk
    ensures !Ignored(p)
    ensures HoldsAnchor(Stage4(Root(disk, []), inp, w).disk, Listed(inp.entries).Keys + inp.pendingPreserves, p)
  {
    if p in Listed(inp.entries) {
      assert Covers(p, p);
      ListedExactly(inp.entries);
      assert Listed(inp.entries)[p].path == p;
    } else {
      UnlistedIsFramed(Root(disk, []), inp, w, p);
      FirstPassKeepsNoIgnored(disk, inp, w, p);
      AnchorsAreKept(disk, inp, w, p);
    }
  }

  /** A first pass that nothing hinders settles the disk. */
  lemma FirstPassSettles(disk: Disk, inp: Inputs, w: Weather)
    requires FirstPass(disk, inp, w)
    ensures Settled(Prepare(Root(disk, []), inp, w).disk, inp)
  {
    var root := Root(disk, []);
    var after := Stage4(root, inp, w).disk;
    assert Prepare(root, inp, w).disk == after by { EmptyCacheStages(disk, inp, w); }
    assert WellFormedDisk(after) by { StagesWellFormed(root, inp, w); }
    forall p | p in Listed(inp.entries)
      ensures p in after && IsDirectoryItem(after[p]) == Listed(inp.entries)[p].isDirectory
    {
      FirstPassLists(disk, inp, w, p);
    }
    forall p | p in after
      ensures !Ignored(p) && HoldsAnchor(after, Listed(inp.entries).Keys + inp.pendingPreserves, p)
    {
      FirstPassItem(disk, inp, w, p);
    }
  }

  // ---------------------------------------------------------------------------------------------
  // The cache after a first pass
  // ---------------------------------------------------------------------------------------------

  /** A cache that records the settled disk for this listing. */
  function SettledCache(disk: Disk, listing: seq<Entry>, shielded: set<Path>): seq<Cached> {
    Sort(ListedRecords(disk, listing, map[], {}, shielded), RecordBefore)
  }

  lemma {:induction false} RefreshedDoesNotMatter(disk: Disk, listing: seq<Entry>, refreshed: set<Path>, shielded: set<Path>)
    ensures ListedRecords(disk, listing, map[], refreshed, shielded) == ListedRecords(disk, listing, map[], {}, shielded)
  {
    if listing != [] {
      RefreshedDoesNotMatter(disk, listing[..|listing| - 1], refreshed, shielded);
    }
  }

  lemma FirstPassShields(disk: Disk, inp: Inputs, w: Weather)
    requires FirstPass(disk, inp, w)
    ensures Stage4(Root(disk, []), inp, w).shielded
            == PlainListed(Stage4(Root(disk, []), inp, w).disk, Listed(inp.entries))
  {
    var root := Root(disk, []);
    var pop := Stage4(root, inp, w);
    EmptyCacheStages(disk, inp, w);
    ListingIsRooted(inp.entries);
    PopulateKeepsLocal(Stage3(root, inp, w), PlaceholderEntries(inp.entries), PlanFor(root, inp, w), w);
    forall p ensures p in pop.shielded <==> p in PlainListed(pop.disk, Listed(inp.entries)) {
      ShieldedIff(root, inp, w, p);
    }
  }

  lemma FirstPassCache(disk: Disk, inp: Inputs, w: Weather)
    requires FirstPass(disk, inp, w)
    ensures var after := Prepare(Root(disk, []), inp, w);
            after.cache == SettledCache(after.disk, PlaceholderEntries(inp.entries),
                                        PlainListed(after.disk, Listed(inp.entries)))
  {
    var root := Root(disk, []);
    var pop := Stage4(root, inp, w);
    EmptyCacheStages(disk, inp, w);
    FirstPassShields(disk, inp, w);
    var listing := PlaceholderEntries(inp.entries);
    RefreshedDoesNotMatter(pop.disk, listing, pop.refreshed, pop.shielded);
    var records := ListedRecords(pop.disk, listing, map[], {}, pop.shielded);
    assert RetainedRecords(pop.disk, [], CurrentPaths(listing, pop.shielded), pop.shielded) == [];
    assert records + [] == records;
  }

  // ---------------------------------------------------------------------------------------------
  // A second pass changes nothing
  // ---------------------------------------------------------------------------------------------

  /** A settled root: its cache is the record of its settled disk. */
  ghost predicate SettledRoot(root: Root, inp: Inputs) {
    && Settled(root.disk, inp)
    && inp.pendingDeletes == {}
    && root.cache == SettledCache(root.disk, PlaceholderEntries(inp.entries),
                                  PlainListed(root.disk, Listed(inp.entries)))
  }

  lemma SettledCacheElements(root: Root, inp: Inputs, r: Cached)
    requires SettledRoot(root, inp)
    ensures r in root.cache <==>
            && r.path in Listed(inp.entries)
            && !RelatedToAny(PlainListed(root.disk, Listed(inp.entries)), r.path)
            && SnapshotOne(root.disk, Listed(inp.entries)[r.path], map[], {}) == Some(r)
  {
    var listing := PlaceholderEntries(inp.entries);
    var shielded := PlainListed(root.disk, Listed(inp.entries));
    SortElements(ListedRecords(root.disk, listing, map[], {}, shielded), RecordBefore);
    ListedRecordElements(root.disk, listing, map[], {}, shielded);
    if r in root.cache {
      var k :| 0 <= k < |listing| && !RelatedToAny(shielded, listing[k].path)
               && SnapshotOne(root.disk, listing[k], map[], {}) == Some(r);
      ListingNames(inp.entries, k);
    }
    if r.path in Listed(inp.entries) && SnapshotOne(root.disk, Listed(inp.entries)[r.path], map[], {}) == Some(r) {
      var k := ListingIndex(inp.entries, r.path);
    }
  }

  lemma SettledLoadsAll(root: Root, inp: Inputs)
    requires SettledRoot(root, inp)
    ensures LoadLocalState(root.cache) == root.cache
  {
    ListedExactly(inp.entries);
    forall i | 0 <= i < |root.cache| ensures root.cache[i].path != [] && !Ignored(root.cache[i].path) {
      assert root.cache[i] in root.cache;
      SettledCacheElements(root, inp, root.cache[i]);
    }
    LoadsAll(root.cache);
  }

  lemma {:induction false} LoadsAll(cache: seq<Cached>)
    requires forall i :: 0 <= i < |cache| ==> cache[i].path != [] && !Ignored(cache[i].path)
    ensures LoadLocalState(cache) == cache
  {
    if cache != [] {
      LoadsAll(cache[..|cache| - 1]);
      assert cache == cache[..|cache| - 1] + [cache[|cache| - 1]];
    }
  }

  lemma PlainFileIsShielded(disk: Disk, listed: map<Path, Entry>, p: Path)
    requires p in listed && p in disk && disk[p].LocalFile? && !listed[p].isDirectory
    ensures RelatedToAny(PlainListed(disk, listed), p)
  {
    assert p in PlainListed(disk, listed) && Covers(p, p);
  }

  /** Plain files at listed paths of a settled disk are shielded, so none has a record. */
  lemma SettledRecordHasNoHash(root: Root, inp: Inputs, r: Cached)
    requires SettledRoot(root, inp) && r in root.cache
    ensures Blank(r.sha)
  {
    SettledCacheElements(root, inp, r);
    assert r.path in root.disk && IsDirectoryItem(root.disk[r.path]) == Listed(inp.entries)[r.path].isDirectory;
    if root.disk[r.path].LocalFile? {
      PlainFileIsShielded(root.disk, Listed(inp.entries), r.path);
    }
  }

  lemma SettledHasNoHash(root: Root, inp: Inputs)
    requires SettledRoot(root, inp)
    ensures NoHash(root.cache)
  {
    forall r | r in root.cache ensures Blank(r.sha) {
      SettledRecordHasNoHash(root, inp, r);
    }
  }

  lemma {:induction false} LastRecord(previous: seq<Cached>, p: Path)
    ensures p in PreviousByPath(previous) ==>
              PreviousByPath(previous)[p] in previous && PreviousByPath(previous)[p].path == p
    ensures (exists r :: r in previous && r.path == p) ==> p in PreviousByPath(previous)
  {
    if previous != [] {
      LastRecord(previous[..|previous| - 1], p);
      assert previous == previous[..|previous| - 1] + [previous[|previous| - 1]];
    }
  }

  lemma SettledPlaceholderIsRecorded(root: Root, inp: Inputs, p: Path)
    requires SettledRoot(root, inp) && p in Listed(inp.entries) && root.disk[p].CloudFile?
    ensures exists r :: r in root.cache && r.path == p
  {
    var listed := Listed(inp.entries);
    assert listed[p].path == p by { ListedExactly(inp.entries); }
    FilesAreNotShielded(root.disk, listed, p);
    var r := SnapshotOne(root.disk, listed[p], map[], {}).value;
    SettledCacheElements(root, inp, r);
  }

  /** The settled cache answers every lookup with the current listing. */
  lemma SettledLookup(root: Root, inp: Inputs, p: Path)
    requires SettledRoot(root, inp) && p in Listed(inp.entries)
    ensures var previous := PreviousByPath(root.cache);
            && (p in previous ==> SnapshotOne(root.disk, Listed(inp.entries)[p], map[], {}) == Some(previous[p]))
            && (root.disk[p].CloudFile? ==> p in previous)
  {
    LastRecord(root.cache, p);
    if p in PreviousByPath(root.cache) {
      SettledCacheElements(root, inp, PreviousByPath(root.cache)[p]);
    }
    if root.disk[p].CloudFile? {
      SettledPlaceholderIsRecorded(root, inp, p);
    }
  }

  /** Nothing above or below a file placeholder is a plain file. */
  lemma FilesAreNotShielded(disk: Disk, listed: map<Path, Entry>, p: Path)
    requires WellFormedDisk(disk) && p in disk && disk[p].CloudFile?
    requires forall q :: q in listed ==> q in disk && IsDirectoryItem(disk[q]) == listed[q].isDirectory
    ensures !RelatedToAny(PlainListed(disk, listed), p)
  {
    forall q | q in PlainListed(disk, listed) ensures !Covers(q, p) && !Covers(p, q) {
      if Covers(q, p) && q != p {
        AncestorsExist(disk, q, p);
      }
      if Covers(p, q) && q != p {
        AncestorsExist(disk, p, q);
      }
    }
  }

  /** Every placeholder whose content could be checked has the listed content. */
  ghost predicate ContentMatches(disk: Disk, listed: map<Path, Entry>, w: Weather) {
    forall p :: p in disk && p in listed && disk[p].CloudFile? ==>
      ContentAgrees(disk[p].readable, disk[p].offline, listed[p], w.providerSha(p))
  }

  lemma {:induction false} NothingIgnored(disk: Disk, walk: seq<Path>, spared: Path -> set<Path>)
    requires forall p :: p in disk ==> !Ignored(p)
    ensures AfterIgnored(disk, walk, spared) == disk
  {
    if walk != [] {
      NothingIgnored(disk, walk[..|walk| - 1], spared);
    }
  }

  lemma SettledMissesNothing(root: Root, inp: Inputs, w: Weather)
    requires SettledRoot(root, inp) && Stage1(root, inp, w) == root.disk
    ensures MissingIn(root, inp, w) == {}
  {
    SettledLoadsAll(root, inp);
    SettledHasNoHash(root, inp);
    forall i | 0 <= i < |root.cache| ensures !IsMissingProjection(root.disk, root.cache[i], Listed(inp.entries)) {
      assert root.cache[i] in root.cache;
      SettledCacheElements(root, inp, root.cache[i]);
    }
  }

  lemma AnchoredPruneNothing(disk: Disk, enumeration: seq<Path>, expected: set<Path>,
                             recent: Path -> bool, deleted: Path -> bool)
    requires WellFormedDisk(disk) && Walks(enumeration, disk)
    requires forall p :: !recent(p) && deleted(p)
    requires AllHoldAnchors(disk, expected)
    ensures AfterPrune(disk, Sort(enumeration, DeeperFirst), expected, recent, deleted) == disk
  {
    var walk := Sort(enumeration, DeeperFirst);
    AfterPruneKeeps(disk, walk, expected, recent, deleted);
    forall p | p in disk ensures p in AfterPrune(disk, walk, expected, recent, deleted) {
      assert HoldsAnchor(disk, expected, p);
      AnchorsHold(disk, walk, expected, recent, deleted, p);
    }
  }

  lemma SecondPassPrunesNothing(root: Root, inp: Inputs, w: Weather)
    requires SettledRoot(root, inp) && AllSucceeds(w) && Walks(w.walkPrune, root.disk)
    ensures Stage1(root, inp, w) == root.disk && MissingIn(root, inp, w) == {}
    ensures Stage3(root, inp, w) == root.disk
  {
    SettledHasNoHash(root, inp);
    NoHashChangesNothing(root, inp, w);
    SettledMissesNothing(root, inp, w);
    NothingIgnored(root.disk, Sort(w.walkIgnored, DeeperFirst), w.spared);
    var expected := Listed(inp.entries).Keys + inp.pendingPreserves;
    assert ExpectedIn(root, inp, w) == expected;
    AnchoredPruneNothing(root.disk, w.walkPrune, expected, w.recent, w.pruneDelete);
  }

  /** An entry whose item needs nothing done. */
  ghost predicate NothingToDo(disk: Disk, e: Entry, plan: Plan, w: Weather) {
    && e.path != [] && e.path in disk && DirectoryExists(disk, Parent(e.path))
    && IsDirectoryItem(disk[e.path]) == e.isDirectory
    && (disk[e.path].CloudFile? ==>
          !ProviderFileChanged(e, plan.previous) && !PlaceholderDiffers(disk[e.path], e, w.providerSha(e.path)))
  }

  lemma {:induction false} PopulateNothing(disk: Disk, listing: seq<Entry>, plan: Plan, w: Weather)
    requires Rooted(listing) && plan.pendingDeletes == {} && plan.missing == {}
    requires forall i :: 0 <= i < |listing| ==> NothingToDo(disk, listing[i], plan, w)
    ensures Populate(disk, listing, plan, w).disk == disk && Populate(disk, listing, plan, w).refreshed == {}
  {
    if listing != [] {
      var n := |listing| - 1;
      assert forall i :: 0 <= i < n ==> listing[..n][i] == listing[i];
      PopulateNothing(disk, listing[..n], plan, w);
      assert NothingToDo(disk, listing[n], plan, w);
    }
  }

  lemma SecondPassPopulatesNothing(root: Root, inp: Inputs, w: Weather)
    requires SettledRoot(root, inp) && AllSucceeds(w) && Walks(w.walkPrune, root.disk)
    requires ContentMatches(root.disk, Listed(inp.entries), w)
    ensures Stage4(root, inp, w).disk == root.disk && Stage4(root, inp, w).refreshed == {}
    ensures Stage4(root, inp, w).shielded == PlainListed(root.disk, Listed(inp.entries))
  {
    SecondPassPrunesNothing(root, inp, w);
    SettledLoadsAll(root, inp);
    var listing := PlaceholderEntries(inp.entries);
    var plan := PlanFor(root, inp, w);
    ListingIsRooted(inp.entries);
    forall i | 0 <= i < |listing| ensures NothingToDo(root.disk, listing[i], plan, w) {
      ListingNames(inp.entries, i);
      SettledLookup(root, inp, listing[i].path);
      if root.disk[listing[i].path].CloudFile? {
        DiffersIff(root.disk[listing[i].path], listing[i], w.providerSha(listing[i].path));
      }
    }
    PopulateNothing(root.disk, listing, plan, w);
    forall p ensures p in Stage4(root, inp, w).shielded <==> p in PlainListed(root.disk, Listed(inp.entries)) {
      ShieldedIff(root, inp, w, p);
    }
  }

  lemma SecondPassRemovesNothing(root: Root, inp: Inputs, w: Weather)
    requires SettledRoot(root, inp) && Stage4(root, inp, w).disk == root.disk
    ensures Stage5(root, inp, w) == root.disk
  {
    SettledLoadsAll(root, inp);
    SortElements(root.cache, DeeperRecordFirst);
    var ordered := Sort(root.cache, DeeperRecordFirst);
    forall i | 0 <= i < |ordered| ensures ordered[i].path in Listed(inp.entries) {
      assert ordered[i] in ordered;
      SettledCacheElements(root, inp, ordered[i]);
    }
    StaleNothing(root.disk, ordered, Listed(inp.entries), Stage4(root, inp, w).shielded, w.staleDelete);
  }

  lemma {:induction false} StaleNothing(disk: Disk, ordered: seq<Cached>, listed: map<Path, Entry>,
                                        shielded: set<Path>, deleted: nat -> bool)
    requires forall i :: 0 <= i < |ordered| ==> ordered[i].path in listed
    ensures AfterStale(disk, ordered, listed, shielded, deleted) == disk
  {
    if ordered != [] {
      StaleNothing(disk, ordered[..|ordered| - 1], listed, shielded, deleted);
    }
  }

  lemma {:induction false} SameRecords(root: Root, inp: Inputs, listing: seq<Entry>, shielded: set<Path>)
    requires SettledRoot(root, inp)
    requires forall i :: 0 <= i < |listing| ==>
               listing[i].path in Listed(inp.entries) && Listed(inp.entries)[listing[i].path] == listing[i]
    ensures ListedRecords(root.disk, listing, PreviousByPath(root.cache), {}, shielded)
            == ListedRecords(root.disk, listing, map[], {}, shielded)
  {
    if listing != [] {
      var n := |listing| - 1;
      assert forall i :: 0 <= i < n ==> listing[..n][i] == listing[i];
      SameRecords(root, inp, listing[..n], shielded);
      SettledLookup(root, inp, listing[n].path);
    }
  }

  lemma {:induction false} RetainsNothing(disk: Disk, previous: seq<Cached>, current: set<Path>, shielded: set<Path>)
    requires forall i :: 0 <= i < |previous| ==> previous[i].path in current
    ensures RetainedRecords(disk, previous, current, shielded) == []
  {
    if previous != [] {
      RetainsNothing(disk, previous[..|previous| - 1], current, shielded);
    }
  }

  /** A pass over a settled root changes neither the disk nor the cache. */
  lemma SettledIsFixed(root: Root, inp: Inputs, w: Weather)
    requires SettledRoot(root, inp) && AllSucceeds(w) && Walks(w.walkPrune, root.disk)
    requires ContentMatches(root.disk, Listed(inp.entries), w)
    ensures Prepare(root, inp, w) == root
  {
    var listing := PlaceholderEntries(inp.entries);
    var shielded := PlainListed(root.disk, Listed(inp.entries));
    SecondPassPopulatesNothing(root, inp, w);
    SecondPassRemovesNothing(root, inp, w);
    SettledLoadsAll(root, inp);
    forall i | 0 <= i < |listing|
      ensures listing[i].path in Listed(inp.entries) && Listed(inp.entries)[listing[i].path] == listing[i]
    {
      ListingNames(inp.entries, i);
    }
    SameRecords(root, inp, listing, shielded);
    forall i | 0 <= i < |root.cache| ensures root.cache[i].path in CurrentPaths(listing, shielded) {
      assert root.cache[i] in root.cache;
      SettledCacheElements(root, inp, root.cache[i]);
      var k := ListingIndex(inp.entries, root.cache[i].path);
      assert listing[k].path == root.cache[i].path;
    }
    RetainsNothing(root.disk, root.cache, CurrentPaths(listing, shielded), shielded);
    var records := ListedRecords(root.disk, listing, map[], {}, shielded);
    assert records + [] == records;
  }

  /**
   From an empty cache, with kinds agreeing, nothing listed under a file, no delete pending, all
   operations succeeding, nothing recent and hydrated content matching, a second pass over the
   same listing changes neither the disk nor the cache.
  */
  lemma SecondPassChangesNothing(disk: Disk, inp: Inputs, first: Weather, settled: Root, second: Weather)
    requires FirstPass(disk, inp, first) && settled == Prepare(Root(disk, []), inp, first)
    requires AllSucceeds(second) && Walks(second.walkPrune, settled.disk)
    requires ContentMatches(settled.disk, Listed(inp.entries), second)
    ensures Prepare(settled, inp, second) == settled
  {
    FirstPassSettles(disk, inp, first);
    FirstPassCache(disk, inp, first);
    SettledIsFixed(settled, inp, second);
  }
}
