/** What each stage of a prepare pass can and cannot do to the disk. */
module SyncStages {
  import opened Paths
  import opened Sorting
  import opened Listing
  import opened Wrappers
  import opened SyncRoot

  ghost predicate WellFormedDisk(disk: Disk) {
    && [] !in disk
    && forall p :: p in disk && p != [] ==> DirectoryExists(disk, Parent(p))
  }

  /** Everything left is as it was. */
  ghost predicate OnlyRemoves(before: Disk, after: Disk) {
    forall p :: p in after ==> p in before && after[p] == before[p]
  }

  lemma {:induction false} AncestorsExist(disk: Disk, a: Path, p: Path)
    requires WellFormedDisk(disk) && p in disk && Covers(a, p) && a != p
    ensures DirectoryExists(disk, a)
    decreases |p|
  {
    CoversStep(a, p);
    if a != Parent(p) {
      AncestorsExist(disk, a, Parent(p));
    }
  }

  /** A directory with anything below it has a child. */
  lemma {:induction false} SomethingBelowMeansChild(disk: Disk, a: Path, p: Path)
    requires WellFormedDisk(disk) && p in disk && Covers(a, p) && a != p
    ensures HasChildren(disk, a)
    decreases |p|
  {
    CoversStep(a, p);
    if a == Parent(p) {
      assert IsChild(p, a);
    } else {
      AncestorsExist(disk, a, p);
      assert Parent(p) in disk;
      SomethingBelowMeansChild(disk, a, Parent(p));
    }
  }

  /** Removing an item with nothing below it keeps the disk well formed. */
  lemma RemoveLeaf(disk: Disk, p: Path)
    requires WellFormedDisk(disk) && p in disk
    requires !IsDirectoryItem(disk[p]) || !HasChildren(disk, p)
    ensures WellFormedDisk(disk - {p})
  {
    forall q | q in disk - {p} && q != [] ensures DirectoryExists(disk - {p}, Parent(q)) {
      assert DirectoryExists(disk, Parent(q));
      if Parent(q) == p {
        assert IsChild(q, p);
      }
    }
  }

  // ---------------------------------------------------------------------------------------------
  // Changed synced files
  // ---------------------------------------------------------------------------------------------

  /** Some record lets the pass delete p as changed, and that delete succeeds. */
  ghost predicate DeletedAsChanged(disk: Disk, previous: seq<Cached>, listed: map<Path, Entry>,
                                   deleted: nat -> bool, p: Path) {
    exists i :: 0 <= i < |previous| && previous[i].path == p
                && ChangedVictim(disk, previous[i], listed) && deleted(i)
  }

  lemma DeletedAsChangedLast(disk: Disk, previous: seq<Cached>, listed: map<Path, Entry>,
                             deleted: nat -> bool, p: Path)
    requires previous != []
    ensures var n := |previous| - 1;
            DeletedAsChanged(disk, previous, listed, deleted, p) <==>
            DeletedAsChanged(disk, previous[..n], listed, deleted, p) ||
            (previous[n].path == p && ChangedVictim(disk, previous[n], listed) && deleted(n))
  {
    var n := |previous| - 1;
    assert forall i :: 0 <= i < n ==> previous[..n][i] == previous[i];
  }

  lemma {:induction false} AfterChangedExactly(disk: Disk, previous: seq<Cached>, listed: map<Path, Entry>,
                                               deleted: nat -> bool)
    ensures OnlyRemoves(disk, AfterChanged(disk, previous, listed, deleted))
    ensures forall p :: p in AfterChanged(disk, previous, listed, deleted) <==>
                        p in disk && !DeletedAsChanged(disk, previous, listed, deleted, p)
  {
    if previous != [] {
      var n := |previous| - 1;
      AfterChangedExactly(disk, previous[..n], listed, deleted);
      var before := AfterChanged(disk, previous[..n], listed, deleted);
      var after := AfterChanged(disk, previous, listed, deleted);
      assert after == ChangedStep(before, previous[n], listed, deleted(n));
      assert OnlyRemoves(disk, after);
      forall p ensures p in after <==> p in disk && !DeletedAsChanged(disk, previous, listed, deleted, p) {
        DeletedAsChangedLast(disk, previous, listed, deleted, p);
      }
    }
  }

  lemma {:induction false} AfterChangedWellFormed(disk: Disk, previous: seq<Cached>, listed: map<Path, Entry>,
                                                  deleted: nat -> bool)
    requires WellFormedDisk(disk)
    ensures WellFormedDisk(AfterChanged(disk, previous, listed, deleted))
  {
    if previous != [] {
      var n := |previous| - 1;
      AfterChangedWellFormed(disk, previous[..n], listed, deleted);
      var before := AfterChanged(disk, previous[..n], listed, deleted);
      if ChangedVictim(before, previous[n], listed) && deleted(n) {
        RemoveLeaf(before, previous[n].path);
      }
    }
  }

  // ---------------------------------------------------------------------------------------------
  // Ignored items
  // ---------------------------------------------------------------------------------------------

  lemma {:induction false} AfterIgnoredKeeps(disk: Disk, walk: seq<Path>, spared: Path -> set<Path>)
    ensures OnlyRemoves(disk, AfterIgnored(disk, walk, spared))
    ensures forall p :: p in disk && !Ignored(p) ==> p in AfterIgnored(disk, walk, spared)
  {
    if walk != [] {
      var n := |walk| - 1;
      AfterIgnoredKeeps(disk, walk[..n], spared);
      var before := AfterIgnored(disk, walk[..n], spared);
      forall p | p in disk && !Ignored(p) ensures p in AfterIgnored(disk, walk, spared) {
        if Ignored(walk[n]) && Covers(walk[n], p) {
          IgnoredBelow(walk[n], p);
        }
      }
    }
  }

  lemma DeleteTreeWellFormed(disk: Disk, p: Path, spared: set<Path>)
    requires WellFormedDisk(disk) && p in disk
    ensures WellFormedDisk(AfterDeleteTree(disk, p, spared))
  {
    var after := AfterDeleteTree(disk, p, spared);
    forall q | q in after && q != [] ensures DirectoryExists(after, Parent(q)) {
      assert DirectoryExists(disk, Parent(q));
      if Parent(q) != [] && Covers(p, Parent(q)) {
        CoversStep(p, q);
        var s :| s in spared && Covers(q, s);
        assert Covers(Parent(q), s);
      }
    }
  }

  lemma {:induction false} AfterIgnoredWellFormed(disk: Disk, walk: seq<Path>, spared: Path -> set<Path>)
    requires WellFormedDisk(disk)
    ensures WellFormedDisk(AfterIgnored(disk, walk, spared))
  {
    if walk != [] {
      var n := |walk| - 1;
      AfterIgnoredWellFormed(disk, walk[..n], spared);
      var before := AfterIgnored(disk, walk[..n], spared);
      if walk[n] != [] && Ignored(walk[n]) && walk[n] in before {
        DeleteTreeWellFormed(before, walk[n], spared(walk[n]));
      }
    }
  }

  /** When nothing resists, no ignored item among those walked is left. */
  lemma {:induction false} AllIgnoredRemoved(disk: Disk, walk: seq<Path>, spared: Path -> set<Path>)
    requires [] !in disk && forall p :: spared(p) == {}
    ensures forall p :: p in walk && Ignored(p) ==> p !in AfterIgnored(disk, walk, spared)
  {
    if walk != [] {
      var n := |walk| - 1;
      AllIgnoredRemoved(disk, walk[..n], spared);
      AfterIgnoredKeeps(disk, walk[..n], spared);
      var before := AfterIgnored(disk, walk[..n], spared);
      forall p | p in walk && Ignored(p) ensures p !in AfterIgnored(disk, walk, spared) {
        if p == walk[n] {
          assert Covers(p, p);
        } else {
          assert p in walk[..n];
        }
      }
    }
  }

  // ---------------------------------------------------------------------------------------------
  // Stale placeholders
  // ---------------------------------------------------------------------------------------------

  lemma {:induction false} AfterPruneKeeps(disk: Disk, walk: seq<Path>, expected: set<Path>,
                                           recent: Path -> bool, deleted: Path -> bool)
    ensures OnlyRemoves(disk, AfterPrune(disk, walk, expected, recent, deleted))
    ensures forall p :: p in disk && (p in expected || !IsPlaceholder(disk[p]) || recent(p) || !deleted(p)) ==>
              p in AfterPrune(disk, walk, expected, recent, deleted)
  {
    if walk != [] {
      AfterPruneKeeps(disk, walk[..|walk| - 1], expected, recent, deleted);
    }
  }

  lemma {:induction false} AfterPruneWellFormed(disk: Disk, walk: seq<Path>, expected: set<Path>,
                                                recent: Path -> bool, deleted: Path -> bool)
    requires WellFormedDisk(disk)
    ensures WellFormedDisk(AfterPrune(disk, walk, expected, recent, deleted))
  {
    if walk != [] {
      var n := |walk| - 1;
      AfterPruneWellFormed(disk, walk[..n], expected, recent, deleted);
      var before := AfterPrune(disk, walk[..n], expected, recent, deleted);
      if PruneVictim(before, walk[n], expected, recent) && deleted(walk[n]) {
        RemoveLeaf(before, walk[n]);
      }
    }
  }

  // ---------------------------------------------------------------------------------------------
  // Population
  // ---------------------------------------------------------------------------------------------

  /** One entry touches only its own path. */
  lemma PopulateOneFrame(pop: Population, e: Entry, plan: Plan, w: Weather, q: Path)
    requires e.path != [] && q != e.path
    ensures var r := PopulateOne(pop, e, plan, w);
            && (q in r.disk <==> q in pop.disk)
            && (q in r.disk ==> r.disk[q] == pop.disk[q])
            && (q in r.refreshed <==> q in pop.refreshed)
            && (q in r.shielded <==> q in pop.shielded)
  {
  }

  /** What one population says about one path. */
  ghost predicate AgreeAt(a: Population, b: Population, q: Path) {
    && (q in a.disk <==> q in b.disk)
    && (q in a.disk ==> a.disk[q] == b.disk[q])
    && (q in a.refreshed <==> q in b.refreshed)
    && (q in a.shielded <==> q in b.shielded)
  }

  ghost predicate Names(listing: seq<Entry>, q: Path) {
    exists i :: 0 <= i < |listing| && listing[i].path == q
  }

  /** Paths the listing does not name keep their item. */
  lemma {:induction false} PopulateFrame(disk: Disk, listing: seq<Entry>, plan: Plan, w: Weather, q: Path)
    requires Rooted(listing) && !Names(listing, q)
    ensures AgreeAt(Populate(disk, listing, plan, w), Population(disk, {}, {}, 0, 0, 0), q)
  {
    if listing != [] {
      var n := |listing| - 1;
      assert listing[n].path != q;
      assert !Names(listing[..n], q);
      PopulateFrame(disk, listing[..n], plan, w, q);
      PopulateOneFrame(Populate(disk, listing[..n], plan, w), listing[n], plan, w, q);
    }
  }

  /** What a listed path looks like when its turn comes is what it looked like at the start. */
  lemma PopulateBefore(disk: Disk, listing: seq<Entry>, plan: Plan, w: Weather, k: nat)
    requires Rooted(listing) && DistinctPaths(listing) && k < |listing|
    ensures AgreeAt(Populate(disk, listing[..k], plan, w), Population(disk, {}, {}, 0, 0, 0), listing[k].path)
  {
    assert !Names(listing[..k], listing[k].path);
    PopulateFrame(disk, listing[..k], plan, w, listing[k].path);
  }

  /** What its turn does to a listed path is what the whole population does to it. */
  lemma {:induction false} PopulateAt(disk: Disk, listing: seq<Entry>, plan: Plan, w: Weather, k: nat)
    requires Rooted(listing) && DistinctPaths(listing) && k < |listing|
    ensures AgreeAt(Populate(disk, listing, plan, w),
                    PopulateOne(Populate(disk, listing[..k], plan, w), listing[k], plan, w),
                    listing[k].path)
  {
    var n := |listing| - 1;
    if k < n {
      assert listing[..n][..k] == listing[..k];
      PopulateAt(disk, listing[..n], plan, w, k);
      PopulateOneFrame(Populate(disk, listing[..n], plan, w), listing[n], plan, w, listing[k].path);
    }
  }

  ghost predicate SameLocalItems(before: Disk, after: Disk) {
    && (forall q :: q in before && !IsPlaceholder(before[q]) ==> q in after && after[q] == before[q])
    && (forall q :: q in after && !IsPlaceholder(after[q]) ==> q in before && after[q] == before[q])
  }

  lemma PopulateOneKeepsLocal(pop: Population, e: Entry, plan: Plan, w: Weather)
    requires e.path != []
    ensures SameLocalItems(pop.disk, PopulateOne(pop, e, plan, w).disk)
  {
  }

  /** Population never touches a plain file or directory, and creates placeholders only. */
  lemma {:induction false} PopulateKeepsLocal(disk: Disk, listing: seq<Entry>, plan: Plan, w: Weather)
    requires Rooted(listing)
    ensures SameLocalItems(disk, Populate(disk, listing, plan, w).disk)
  {
    if listing != [] {
      var n := |listing| - 1;
      PopulateKeepsLocal(disk, listing[..n], plan, w);
      PopulateOneKeepsLocal(Populate(disk, listing[..n], plan, w), listing[n], plan, w);
    }
  }

  lemma PopulateOneWellFormed(pop: Population, e: Entry, plan: Plan, w: Weather)
    requires WellFormedDisk(pop.disk) && e.path != []
    ensures WellFormedDisk(PopulateOne(pop, e, plan, w).disk)
  {
    var after := PopulateOne(pop, e, plan, w).disk;
    if after != pop.disk {
      assert DirectoryExists(pop.disk, Parent(e.path));
      forall q | q in after && q != [] ensures DirectoryExists(after, Parent(q)) {
        assert DirectoryExists(pop.disk, Parent(q)) by {
          if q != e.path { assert q in pop.disk; }
        }
        if Parent(q) == e.path && q != e.path {
          assert false;
        }
      }
    }
  }

  lemma {:induction false} PopulateWellFormed(disk: Disk, listing: seq<Entry>, plan: Plan, w: Weather)
    requires WellFormedDisk(disk) && Rooted(listing)
    ensures WellFormedDisk(Populate(disk, listing, plan, w).disk)
  {
    if listing != [] {
      var n := |listing| - 1;
      PopulateWellFormed(disk, listing[..n], plan, w);
      PopulateOneWellFormed(Populate(disk, listing[..n], plan, w), listing[n], plan, w);
    }
  }

  /** A turn counts at most one thing, and counts what it makes or shields. */
  lemma TurnCounts(pop: Population, e: Entry, plan: Plan, w: Weather)
    requires e.path != []
    ensures var r := PopulateOne(pop, e, plan, w);
            var created := r.created - pop.created;
            var skipped := r.skipped - pop.skipped;
            && 0 <= created && 0 <= skipped && created + skipped + (r.failed - pop.failed) <= 1
            && r.refreshed == pop.refreshed + (if created == 1 then {e.path} else {})
            && (r.shielded == pop.shielded || (skipped == 1 && r.shielded == pop.shielded + {e.path}))
            && r.failed >= pop.failed
  {
  }

  lemma AddOne(s: set<Path>, p: Path)
    requires p !in s
    ensures |s + {p}| == |s| + 1 && s + {} == s
  {
  }

  /**
   The report is honest: as many placeholders are counted as paths were made, every shielded item
   is among the items reported as left in place, and no entry is counted twice.
  */
  lemma {:induction false} CountsAreExact(disk: Disk, listing: seq<Entry>, plan: Plan, w: Weather)
    requires Rooted(listing) && DistinctPaths(listing)
    ensures var pop := Populate(disk, listing, plan, w);
            && pop.created == |pop.refreshed| && |pop.shielded| <= pop.skipped
            && pop.created + pop.skipped + pop.failed <= |listing|
            && forall q :: q in pop.refreshed || q in pop.shielded ==> Names(listing, q)
  {
    if listing != [] {
      var n := |listing| - 1;
      var before := Populate(disk, listing[..n], plan, w);
      CountsAreExact(disk, listing[..n], plan, w);
      forall q | Names(listing[..n], q) ensures Names(listing, q) && q != listing[n].path {
        var i :| 0 <= i < n && listing[..n][i].path == q;
        assert listing[i].path == q;
      }
      TurnCounts(before, listing[n], plan, w);
      AddOne(before.refreshed, listing[n].path);
      AddOne(before.shielded, listing[n].path);
      assert Names(listing, listing[n].path);
    }
  }

  ghost predicate NamesFile(listing: seq<Entry>, q: Path) {
    exists i :: 0 <= i < |listing| && listing[i].path == q && !listing[i].isDirectory
  }

  /** Only plain items at paths listed as files are shielded. */
  lemma {:induction false} ShieldedAreLocal(disk: Disk, listing: seq<Entry>, plan: Plan, w: Weather)
    requires Rooted(listing)
    ensures var pop := Populate(disk, listing, plan, w);
            forall q :: q in pop.shielded ==>
              (q in disk && !IsPlaceholder(disk[q]) && NamesFile(listing, q))
  {
    if listing != [] {
      var n := |listing| - 1;
      ShieldedAreLocal(disk, listing[..n], plan, w);
      PopulateKeepsLocal(disk, listing[..n], plan, w);
      var pop := Populate(disk, listing, plan, w);
      forall q | q in pop.shielded
        ensures q in disk && !IsPlaceholder(disk[q]) && NamesFile(listing, q)
      {
        if q in Populate(disk, listing[..n], plan, w).shielded {
          var i :| 0 <= i < n && listing[..n][i].path == q && !listing[..n][i].isDirectory;
          assert listing[i].path == q;
        } else {
          assert listing[n].path == q;
        }
      }
    }
  }

  // ---------------------------------------------------------------------------------------------
  // Synced items the provider no longer lists
  // ---------------------------------------------------------------------------------------------

  ghost predicate DeletedAsStale(disk: Disk, ordered: seq<Cached>, listed: map<Path, Entry>,
                                 shielded: set<Path>, deleted: nat -> bool, p: Path) {
    exists i :: 0 <= i < |ordered| && ordered[i].path == p
                && StaleVictim(disk, ordered[i], listed, shielded) && deleted(i)
  }

  lemma {:induction false} AfterStaleKeeps(disk: Disk, ordered: seq<Cached>, listed: map<Path, Entry>,
                                           shielded: set<Path>, deleted: nat -> bool)
    ensures var after := AfterStale(disk, ordered, listed, shielded, deleted);
            && OnlyRemoves(disk, after)
            && forall p :: p in disk && (p in listed || IsPlaceholder(disk[p])) ==> p in after
  {
    if ordered != [] {
      AfterStaleKeeps(disk, ordered[..|ordered| - 1], listed, shielded, deleted);
    }
  }

  lemma DeletedAsStaleLast(disk: Disk, ordered: seq<Cached>, listed: map<Path, Entry>,
                           shielded: set<Path>, deleted: nat -> bool, p: Path)
    requires ordered != []
    ensures var n := |ordered| - 1;
            DeletedAsStale(disk, ordered, listed, shielded, deleted, p) <==>
            DeletedAsStale(disk, ordered[..n], listed, shielded, deleted, p) ||
            (ordered[n].path == p && StaleVictim(disk, ordered[n], listed, shielded) && deleted(n))
  {
    var n := |ordered| - 1;
    assert forall i :: 0 <= i < n ==> ordered[..n][i] == ordered[i];
  }

  lemma {:induction false} AfterStaleFilesExactly(disk: Disk, ordered: seq<Cached>, listed: map<Path, Entry>,
                                                  shielded: set<Path>, deleted: nat -> bool, p: Path)
    requires p in disk && disk[p].LocalFile?
    ensures p in AfterStale(disk, ordered, listed, shielded, deleted) <==>
            !DeletedAsStale(disk, ordered, listed, shielded, deleted, p)
  {
    if ordered != [] {
      var n := |ordered| - 1;
      AfterStaleFilesExactly(disk, ordered[..n], listed, shielded, deleted, p);
      AfterStaleKeeps(disk, ordered[..n], listed, shielded, deleted);
      DeletedAsStaleLast(disk, ordered, listed, shielded, deleted, p);
    }
  }

  lemma DeeperRecordFirstIsTotal()
    ensures TotalPreorder(DeeperRecordFirst)
  {
  }

  /** A record of a directory at p whose delete succeeds. */
  ghost predicate DirectoryRecordAt(ordered: seq<Cached>, deleted: nat -> bool, p: Path, i: nat) {
    i < |ordered| && ordered[i].path == p && ordered[i].isDirectory && deleted(i)
  }

  /** What a prefix of the records removed stays removed. */
  lemma {:induction false} StaleStaysGone(disk: Disk, ordered: seq<Cached>, listed: map<Path, Entry>,
                                          shielded: set<Path>, deleted: nat -> bool, p: Path, k: nat)
    requires k <= |ordered| && p !in AfterStale(disk, ordered[..k], listed, shielded, deleted)
    ensures p !in AfterStale(disk, ordered, listed, shielded, deleted)
  {
    if k < |ordered| {
      var rest := ordered[..|ordered| - 1];
      assert rest[..k] == ordered[..k];
      StaleStaysGone(disk, rest, listed, shielded, deleted, p, k);
    } else {
      assert ordered[..k] == ordered;
    }
  }

  /** Records of shallower paths do not touch an item below them. */
  lemma {:induction false} StaleLeavesDeeper(disk: Disk, ordered: seq<Cached>, listed: map<Path, Entry>,
                                             shielded: set<Path>, deleted: nat -> bool, c: Path, k: nat)
    requires k <= |ordered| && c in AfterStale(disk, ordered[..k], listed, shielded, deleted)
    requires forall i :: k <= i < |ordered| ==> |ordered[i].path| < |c|
    ensures c in AfterStale(disk, ordered, listed, shielded, deleted)
  {
    if k < |ordered| {
      var rest := ordered[..|ordered| - 1];
      assert rest[..k] == ordered[..k];
      StaleLeavesDeeper(disk, rest, listed, shielded, deleted, c, k);
    } else {
      assert ordered[..k] == ordered;
    }
  }

  lemma {:induction false} StaleDirectoryWas(disk: Disk, ordered: seq<Cached>, listed: map<Path, Entry>,
                                             shielded: set<Path>, deleted: nat -> bool, p: Path)
    requires p in disk && disk[p].LocalDirectory?
    requires p !in AfterStale(disk, ordered, listed, shielded, deleted)
    ensures exists i: nat :: DirectoryRecordAt(ordered, deleted, p, i)
    ensures p !in listed && !RelatedToAny(shielded, p)
    ensures !HasChildren(AfterStale(disk, ordered, listed, shielded, deleted), p)
  {
    var n := |ordered| - 1;
    var before := AfterStale(disk, ordered[..n], listed, shielded, deleted);
    AfterStaleKeeps(disk, ordered[..n], listed, shielded, deleted);
    if p !in before {
      StaleDirectoryWas(disk, ordered[..n], listed, shielded, deleted, p);
      var i: nat :| DirectoryRecordAt(ordered[..n], deleted, p, i);
      assert DirectoryRecordAt(ordered, deleted, p, i);
    } else {
      assert DirectoryRecordAt(ordered, deleted, p, n);
    }
  }

  lemma EmptiedDirectoryGoes(disk: Disk, ordered: seq<Cached>, listed: map<Path, Entry>,
                             shielded: set<Path>, deleted: nat -> bool, p: Path, i: nat)
    requires Sorted(ordered, DeeperRecordFirst) && DirectoryRecordAt(ordered, deleted, p, i)
    requires p in disk && disk[p].LocalDirectory? && p != [] && !Ignored(p)
    requires p !in listed && !RelatedToAny(shielded, p)
    requires !HasChildren(AfterStale(disk, ordered, listed, shielded, deleted), p)
    ensures p !in AfterStale(disk, ordered, listed, shielded, deleted)
  {
    var before := AfterStale(disk, ordered[..i], listed, shielded, deleted);
    AfterStaleKeeps(disk, ordered[..i], listed, shielded, deleted);
    forall c | c in before ensures !IsChild(c, p) {
      if IsChild(c, p) {
        StaleLeavesDeeper(disk, ordered, listed, shielded, deleted, c, i);
      }
    }
    if p in before {
      StaleVictimGoes(disk, ordered, listed, shielded, deleted, i);
      StaleStaysGone(disk, ordered, listed, shielded, deleted, p, i + 1);
    } else {
      StaleStaysGone(disk, ordered, listed, shielded, deleted, p, i);
    }
  }

  /**
   With the deepest records first, a plain directory goes exactly when a record of it as a directory
   is deleted, it is unlisted, nothing related to it is shielded, and everything in it goes too.
  */
  lemma AfterStaleDirectoriesIff(disk: Disk, ordered: seq<Cached>, listed: map<Path, Entry>,
                                 shielded: set<Path>, deleted: nat -> bool, p: Path)
    requires Sorted(ordered, DeeperRecordFirst)
    requires p in disk && disk[p].LocalDirectory? && p != [] && !Ignored(p)
    ensures p !in AfterStale(disk, ordered, listed, shielded, deleted) <==>
            && (exists i: nat :: DirectoryRecordAt(ordered, deleted, p, i))
            && p !in listed && !RelatedToAny(shielded, p)
            && !HasChildren(AfterStale(disk, ordered, listed, shielded, deleted), p)
  {
    var after := AfterStale(disk, ordered, listed, shielded, deleted);
    if p !in after {
      StaleDirectoryWas(disk, ordered, listed, shielded, deleted, p);
    } else if (exists i: nat :: DirectoryRecordAt(ordered, deleted, p, i))
              && p !in listed && !RelatedToAny(shielded, p) && !HasChildren(after, p) {
      var i: nat :| DirectoryRecordAt(ordered, deleted, p, i);
      EmptiedDirectoryGoes(disk, ordered, listed, shielded, deleted, p, i);
    }
  }

  lemma StaleVictimGoes(disk: Disk, ordered: seq<Cached>, listed: map<Path, Entry>,
                        shielded: set<Path>, deleted: nat -> bool, i: nat)
    requires i < |ordered| && deleted(i)
    requires StaleVictim(AfterStale(disk, ordered[..i], listed, shielded, deleted), ordered[i], listed, shielded)
    ensures ordered[i].path !in AfterStale(disk, ordered[..i + 1], listed, shielded, deleted)
  {
    assert ordered[..i + 1][..i] == ordered[..i];
  }

  lemma {:induction false} AfterStaleWellFormed(disk: Disk, ordered: seq<Cached>, listed: map<Path, Entry>,
                                                shielded: set<Path>, deleted: nat -> bool)
    requires WellFormedDisk(disk)
    ensures WellFormedDisk(AfterStale(disk, ordered, listed, shielded, deleted))
  {
    if ordered != [] {
      var n := |ordered| - 1;
      AfterStaleWellFormed(disk, ordered[..n], listed, shielded, deleted);
      var before := AfterStale(disk, ordered[..n], listed, shielded, deleted);
      if StaleVictim(before, ordered[n], listed, shielded) && deleted(n) {
        RemoveLeaf(before, ordered[n].path);
      }
    }
  }

  // ---------------------------------------------------------------------------------------------
  // A whole pass keeps the disk well formed
  // ---------------------------------------------------------------------------------------------

  lemma StagesWellFormed(root: Root, inp: Inputs, w: Weather)
    requires WellFormedDisk(root.disk)
    ensures WellFormedDisk(Stage1(root, inp, w)) && WellFormedDisk(Stage2(root, inp, w))
    ensures WellFormedDisk(Stage3(root, inp, w)) && WellFormedDisk(Stage4(root, inp, w).disk)
    ensures WellFormedDisk(Stage5(root, inp, w)) && WellFormedDisk(Prepare(root, inp, w).disk)
  {
    AfterChangedWellFormed(root.disk, LoadLocalState(root.cache), Listed(inp.entries), w.changedDelete);
    AfterIgnoredWellFormed(Stage1(root, inp, w), Sort(w.walkIgnored, DeeperFirst), w.spared);
    AfterPruneWellFormed(Stage2(root, inp, w), Sort(w.walkPrune, DeeperFirst), ExpectedIn(root, inp, w),
                         w.recent, w.pruneDelete);
    ListingIsRooted(inp.entries);
    PopulateWellFormed(Stage3(root, inp, w), PlaceholderEntries(inp.entries), PlanFor(root, inp, w), w);
    AfterStaleWellFormed(Stage4(root, inp, w).disk, Sort(LoadLocalState(root.cache), DeeperRecordFirst),
                         Listed(inp.entries), Stage4(root, inp, w).shielded, w.staleDelete);
  }
}
