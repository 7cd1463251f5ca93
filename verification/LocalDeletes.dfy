/** The local scan: deletes the user made while no notification arrived, and their publication. */
module LocalDeletes {
  import opened Paths
  import opened Sorting
  import opened Listing
  import opened Wrappers
  import opened Markers
  import opened SyncRoot
  import opened SyncStages

  // ---------------------------------------------------------------------------------------------
  // The scan
  // ---------------------------------------------------------------------------------------------

  /** The item of the recorded kind is gone from an existing directory. */
  predicate GoneFromDisk(disk: Disk, r: Cached) {
    && r.path != [] && DirectoryExists(disk, Parent(r.path))
    && if r.isDirectory then !DirectoryExists(disk, r.path) else !FileExists(disk, r.path)
  }

  predicate IsLocalDelete(disk: Disk, r: Cached, listed: map<Path, Entry>, pending: Markers) {
    && r.path != [] && !Ignored(r.path)
    && !CoveredBy(pending.deletes, r.path) && r.path !in pending.preserves
    && r.path in listed && listed[r.path].isDirectory == r.isDirectory
    && GoneFromDisk(disk, r)
  }

  /** The paths found, each once, in the order of the records. */
  function FoundDeletes(disk: Disk, previous: seq<Cached>, listed: map<Path, Entry>, pending: Markers): seq<Path> {
    if previous == [] then []
    else
      var last := previous[|previous| - 1];
      var rest := FoundDeletes(disk, previous[..|previous| - 1], listed, pending);
      if IsLocalDelete(disk, last, listed, pending) && last.path !in rest then rest + [last.path] else rest
  }

  predicate ShallowFirst(a: Path, b: Path) {
    if |a| != |b| then |a| < |b| else OrdinalLe(Join(a), Join(b))
  }

  function RecentLocalFileDeletes(disk: Disk, entries: seq<Entry>, previous: seq<Cached>, pending: Markers): seq<Path> {
    Sort(FoundDeletes(disk, previous, Listed(entries), pending), ShallowFirst)
  }

  method FindRecentLocalFileDeletes(disk: Disk, entries: seq<Entry>, previous: seq<Cached>, pending: Markers)
    returns (deletes: seq<Path>)
    ensures deletes == RecentLocalFileDeletes(disk, entries, previous, pending)
  {
    var listed := Listed(entries);
    deletes := [];
    for i := 0 to |previous|
      invariant deletes == FoundDeletes(disk, previous[..i], listed, pending)
    {
      assert previous[..i + 1][..i] == previous[..i];
      var r := previous[i];
      if r.path == [] || Ignored(r.path) || CoveredBy(pending.deletes, r.path)
         || r.path in pending.preserves || r.path !in listed
         || r.isDirectory != listed[r.path].isDirectory {
        continue;
      }
      if !DirectoryExists(disk, Parent(r.path)) {
        continue;
      }
      var exists' := if r.isDirectory then DirectoryExists(disk, r.path) else FileExists(disk, r.path);
      if !exists' && r.path !in deletes {
        deletes := deletes + [r.path];
      }
    }
    assert previous[..|previous|] == previous;
    deletes := Sort(deletes, ShallowFirst);
  }

  // ---------------------------------------------------------------------------------------------
  // What the scan finds
  // ---------------------------------------------------------------------------------------------

  lemma {:induction false} FoundElements(disk: Disk, previous: seq<Cached>, listed: map<Path, Entry>, pending: Markers, p: Path)
    ensures p in FoundDeletes(disk, previous, listed, pending) <==>
            exists r :: r in previous && r.path == p && IsLocalDelete(disk, r, listed, pending)
  {
    if previous != [] {
      var rest := previous[..|previous| - 1];
      FoundElements(disk, rest, listed, pending, p);
      assert previous == rest + [previous[|previous| - 1]];
    }
  }

  lemma DeletesAre(disk: Disk, entries: seq<Entry>, previous: seq<Cached>, pending: Markers, p: Path)
    ensures p in RecentLocalFileDeletes(disk, entries, previous, pending) <==>
            exists r :: r in previous && r.path == p && IsLocalDelete(disk, r, Listed(entries), pending)
  {
    SortElements(FoundDeletes(disk, previous, Listed(entries), pending), ShallowFirst);
    FoundElements(disk, previous, Listed(entries), pending, p);
  }

  /** Shallower deletes come first, those of one depth by their text. */
  lemma DeletesAreOrdered(disk: Disk, entries: seq<Entry>, previous: seq<Cached>, pending: Markers)
    ensures var deletes := RecentLocalFileDeletes(disk, entries, previous, pending);
            forall i, j :: 0 <= i < j < |deletes| ==>
              || |deletes[i]| < |deletes[j]|
              || (|deletes[i]| == |deletes[j]| && OrdinalLe(Join(deletes[i]), Join(deletes[j])))
  {
    forall a: Path, b: Path ensures ShallowFirst(a, b) || ShallowFirst(b, a) {
      OrdinalTotal(Join(a), Join(b));
    }
    forall a: Path, b: Path, c: Path | ShallowFirst(a, b) && ShallowFirst(b, c) ensures ShallowFirst(a, c) {
      if |a| == |b| == |c| {
        OrdinalTransitive(Join(a), Join(b), Join(c));
      }
    }
    SortSorts(FoundDeletes(disk, previous, Listed(entries), pending), ShallowFirst);
  }

  /** No returned delete is above another. */
  lemma DeletesAreUnrelated(disk: Disk, entries: seq<Entry>, previous: seq<Cached>, pending: Markers, a: Path, p: Path)
    requires WellFormedDisk(disk) && FilesAreLeaves(Listed(entries))
    requires a in RecentLocalFileDeletes(disk, entries, previous, pending)
    requires p in RecentLocalFileDeletes(disk, entries, previous, pending)
    ensures Covers(a, p) ==> a == p
  {
    DeletesAre(disk, entries, previous, pending, a);
    DeletesAre(disk, entries, previous, pending, p);
    var r :| r in previous && r.path == p && IsLocalDelete(disk, r, Listed(entries), pending);
    if Covers(a, p) && a != p {
      CoversStep(a, p);
      if a != Parent(p) {
        AncestorsExist(disk, a, Parent(p));
      }
      assert false;
    }
  }

  /** The topmost part of p that is not a directory on disk, or p itself. */
  function TopmostMissing(disk: Disk, p: Path, k: nat): Path
    decreases |p| - k
  {
    if k >= |p| then p
    else if !DirectoryExists(disk, p[..k]) then p[..k]
    else TopmostMissing(disk, p, k + 1)
  }

  lemma {:induction false} TopmostMissingIs(disk: Disk, p: Path, k: nat)
    requires p != [] && k >= 1
    requires DirectoryExists(disk, if k <= |p| then p[..k - 1] else [])
    ensures var top := TopmostMissing(disk, p, k);
            && top != [] && Covers(top, p)
            && (k <= |p| ==> DirectoryExists(disk, Parent(top)))
            && (top == p || !DirectoryExists(disk, top))
    decreases |p| - k
  {
    if k < |p| && DirectoryExists(disk, p[..k]) {
      TopmostMissingIs(disk, p, k + 1);
    } else if k < |p| {
      assert Parent(p[..k]) == p[..k - 1];
    } else if k == |p| {
      assert Parent(p) == p[..k - 1];
    }
  }

  /** Above a path whose parent directory exists, every directory exists. */
  lemma PrefixStands(disk: Disk, a: Path, k: nat)
    requires WellFormedDisk(disk) && 0 < k < |a| && DirectoryExists(disk, Parent(a))
    ensures DirectoryExists(disk, a[..k])
  {
    var above := a[..k];
    assert Covers(above, Parent(a));
    if above != Parent(a) {
      AncestorsExist(disk, above, Parent(a));
    }
  }

  lemma CutBoth(a: Path, p: Path, k: nat)
    requires Covers(a, p) && k <= |a|
    ensures p[..k] == a[..k] && (k == |a| ==> p[..k] == a)
  {
  }

  lemma {:induction false} TopmostMissingUnique(disk: Disk, p: Path, k: nat, a: Path)
    requires WellFormedDisk(disk) && k >= 1 && a != [] && |a| >= k && Covers(a, p)
    requires DirectoryExists(disk, Parent(a)) && (a == p || !DirectoryExists(disk, a))
    ensures TopmostMissing(disk, p, k) == a
    decreases |p| - k
  {
    CutBoth(a, p, k);
    if k < |a| {
      PrefixStands(disk, a, k);
      TopmostMissingUnique(disk, p, k + 1, a);
    }
  }

  /** A recorded item of the listed kind that is gone from disk. */
  ghost predicate MissingItem(disk: Disk, r: Cached, listed: map<Path, Entry>) {
    && r.path in listed && listed[r.path].isDirectory == r.isDirectory
    && if r.isDirectory then !DirectoryExists(disk, r.path) else !FileExists(disk, r.path)
  }

  ghost predicate RecordedAsListed(previous: seq<Cached>, listed: map<Path, Entry>, a: Path) {
    exists r :: r in previous && r.path == a && a in listed && listed[a].isDirectory == r.isDirectory
  }

  /**
   With no marker pending, a missing item is covered by a returned delete exactly when the topmost
   missing part of its path is itself recorded with the listed kind.
  */
  lemma MissingIsDetectedIff(disk: Disk, entries: seq<Entry>, previous: seq<Cached>, r: Cached)
    requires WellFormedDisk(disk) && FilesAreLeaves(Listed(entries))
    requires r in previous && MissingItem(disk, r, Listed(entries))
    ensures (exists d :: d in RecentLocalFileDeletes(disk, entries, previous, NO_MARKERS) && Covers(d, r.path)) <==>
            RecordedAsListed(previous, Listed(entries), TopmostMissing(disk, r.path, 1))
  {
    var listed := Listed(entries);
    var deletes := RecentLocalFileDeletes(disk, entries, previous, NO_MARKERS);
    var top := TopmostMissing(disk, r.path, 1);
    ListedExactly(entries);
    assert r.path != [] && r.path[..0] == [];
    TopmostMissingIs(disk, r.path, 1);
    if exists d :: d in deletes && Covers(d, r.path) {
      var d :| d in deletes && Covers(d, r.path);
      DeletesAre(disk, entries, previous, NO_MARKERS, d);
      var x :| x in previous && x.path == d && IsLocalDelete(disk, x, listed, NO_MARKERS);
      TopmostMissingUnique(disk, r.path, 1, d);
    }
    if RecordedAsListed(previous, listed, top) {
      var x :| x in previous && x.path == top && top in listed && listed[top].isDirectory == x.isDirectory;
      assert !Ignored(top);
      assert IsLocalDelete(disk, x, listed, NO_MARKERS);
      DeletesAre(disk, entries, previous, NO_MARKERS, top);
    }
  }

  ghost predicate AncestorsRecorded(previous: seq<Cached>) {
    forall r, a :: r in previous && a != [] && Covers(a, r.path) && a != r.path ==>
      exists x :: x in previous && x.path == a && x.isDirectory
  }

  /** So when recorded ancestors are recorded as directories, every missing item is detected. */
  lemma EveryMissingItemIsDetected(disk: Disk, entries: seq<Entry>, previous: seq<Cached>, r: Cached)
    requires WellFormedDisk(disk) && FilesAreLeaves(Listed(entries)) && AncestorsRecorded(previous)
    requires r in previous && MissingItem(disk, r, Listed(entries))
    ensures exists d :: d in RecentLocalFileDeletes(disk, entries, previous, NO_MARKERS) && Covers(d, r.path)
  {
    var top := TopmostMissing(disk, r.path, 1);
    ListedExactly(entries);
    assert r.path != [] && r.path[..0] == [];
    TopmostMissingIs(disk, r.path, 1);
    ListedAncestors(entries, top, r.path);
    MissingIsDetectedIff(disk, entries, previous, r);
    if top != r.path {
      var x :| x in previous && x.path == top && x.isDirectory;
      assert RecordedAsListed(previous, Listed(entries), top);
    }
  }

  // ---------------------------------------------------------------------------------------------
  // Publishing the deletes
  // ---------------------------------------------------------------------------------------------

  /** An accepted mark stays unless the provider delete fails. */
  function PublishStep(before: Markers, last: Path, fails: Path -> bool, now: int): Markers {
    var marked := AfterMark(before, last, now).0;
    if fails(last) then AfterClear(marked, {last}) else marked
  }

  /** Marks each delete, issues it when the mark is accepted, and takes a failed mark back. */
  function AfterPublish(s: Markers, deletes: seq<Path>, fails: Path -> bool, now: int): (Markers, seq<Path>) {
    if deletes == [] then (s, [])
    else
      var n := |deletes| - 1;
      var (before, issued) := AfterPublish(s, deletes[..n], fails, now);
      var (marked, accepted) := AfterMark(before, deletes[n], now);
      if !accepted then (marked, issued)
      else (PublishStep(before, deletes[n], fails, now), issued + [deletes[n]])
  }

  method PublishRecentLocalFileDeletes(markers: PendingMutations, deletes: seq<Path>, fails: Path -> bool, now: int)
    returns (issued: seq<Path>, changed: bool)
    modifies markers
    ensures (markers.State(), issued) == AfterPublish(old(markers.State()), deletes, fails, now)
    ensures changed <==> exists d :: d in issued && !fails(d)
  {
    issued, changed := [], false;
    for i := 0 to |deletes|
      invariant (markers.State(), issued) == AfterPublish(old(markers.State()), deletes[..i], fails, now)
      invariant changed <==> exists d :: d in issued && !fails(d)
    {
      assert deletes[..i + 1][..i] == deletes[..i];
      var accepted := markers.MarkProviderDeletePending(deletes[i], now);
      if !accepted {
        continue;
      }
      issued := issued + [deletes[i]];
      if fails(deletes[i]) {
        markers.ClearProviderMutationPending([deletes[i]]);
        assert (set p | p in [deletes[i]]) == {deletes[i]};
      } else {
        assert deletes[i] in issued;
        changed := true;
      }
    }
    assert deletes[..|deletes|] == deletes;
  }

  ghost predicate PairwiseUnrelated(deletes: seq<Path>) {
    forall i, j :: 0 <= i < j < |deletes| ==> !Covers(deletes[i], deletes[j]) && !Covers(deletes[j], deletes[i])
  }

  predicate OutsideAll(deletes: seq<Path>, m: Path) {
    forall d :: d in deletes ==> !Covers(d, m)
  }

  /** A marker left over: a delete that did not fail, or an old marker outside every delete. */
  predicate LeftOver(s: Markers, deletes: seq<Path>, fails: Path -> bool, m: Path) {
    (m in deletes && !fails(m)) || (m in s.deletes && OutsideAll(deletes, m))
  }

  ghost predicate PublishedFrom(s: Markers, after: Markers, deletes: seq<Path>, fails: Path -> bool, now: int) {
    && Pruned(after, now) == after && after.preserves == map[]
    && (forall m :: m in after.deletes <==> LeftOver(s, deletes, fails, m))
    && forall m :: m in deletes && m in after.deletes ==> after.deletes[m] == now
  }

  lemma LeftOverStep(s: Markers, deletes: seq<Path>, last: Path, fails: Path -> bool, m: Path)
    requires last !in s.deletes && last !in deletes && (m in deletes ==> !Covers(last, m))
    ensures LeftOver(s, deletes + [last], fails, m) <==>
            (m == last && !fails(last)) || (LeftOver(s, deletes, fails, m) && !Covers(last, m))
  {
    assert OutsideAll(deletes + [last], m) <==> OutsideAll(deletes, m) && !Covers(last, m) by {
      assert forall d :: d in deletes + [last] <==> d in deletes || d == last;
    }
  }

  lemma PublishStepMarkers(before: Markers, last: Path, fails: Path -> bool, now: int)
    requires Pruned(before, now) == before && before.preserves == map[]
    requires Markable(last) && !CoveredBy(before.deletes, last)
    ensures AfterMark(before, last, now).1
    ensures var after := PublishStep(before, last, fails, now);
            && Pruned(after, now) == after && after.preserves == map[]
            && (forall m :: m in after.deletes <==>
                  (m == last && !fails(last)) || (m in before.deletes && !Covers(last, m)))
            && forall m :: m in after.deletes ==> after.deletes[m] == if m == last then now else before.deletes[m]
  {
    assert AfterMark(before, last, now).0.deletes == OutsideOf(before.deletes, last)[last := now];
    assert Covers(last, last);
  }

  lemma PublishOne(s: Markers, before: Markers, deletes: seq<Path>, last: Path, fails: Path -> bool, now: int)
    requires PublishedFrom(s, before, deletes, fails, now)
    requires Markable(last) && !CoveredBy(s.deletes, last)
    requires forall d :: d in deletes ==> !Covers(d, last) && !Covers(last, d)
    ensures AfterMark(before, last, now).1
    ensures PublishedFrom(s, PublishStep(before, last, fails, now), deletes + [last], fails, now)
  {
    forall m | m in before.deletes ensures !Covers(m, last) {
      assert LeftOver(s, deletes, fails, m);
    }
    PublishStepMarkers(before, last, fails, now);
    assert Covers(last, last);
    forall m ensures m in PublishStep(before, last, fails, now).deletes <==> LeftOver(s, deletes + [last], fails, m) {
      LeftOverStep(s, deletes, last, fails, m);
    }
  }

  lemma UnrelatedToLast(deletes: seq<Path>)
    requires deletes != [] && PairwiseUnrelated(deletes)
    ensures var n := |deletes| - 1;
            && PairwiseUnrelated(deletes[..n])
            && forall d :: d in deletes[..n] ==> !Covers(d, deletes[n]) && !Covers(deletes[n], d)
  {
    var n := |deletes| - 1;
    forall d | d in deletes[..n] ensures !Covers(d, deletes[n]) && !Covers(deletes[n], d) {
      var i :| 0 <= i < n && deletes[..n][i] == d;
      assert deletes[i] == d;
    }
  }

  lemma NothingPublished(s: Markers, fails: Path -> bool, now: int)
    requires Pruned(s, now) == s && s.preserves == map[]
    ensures PublishedFrom(s, s, [], fails, now)
  {
  }

  lemma PublishLast(s: Markers, deletes: seq<Path>, fails: Path -> bool, now: int)
    requires deletes != []
    requires AfterMark(AfterPublish(s, deletes[..|deletes| - 1], fails, now).0, deletes[|deletes| - 1], now).1
    ensures var n := |deletes| - 1;
            var (before, issued) := AfterPublish(s, deletes[..n], fails, now);
            AfterPublish(s, deletes, fails, now) == (PublishStep(before, deletes[n], fails, now), issued + [deletes[n]])
  {
  }

  lemma PublishNext(s: Markers, deletes: seq<Path>, fails: Path -> bool, now: int)
    requires deletes != [] && PairwiseUnrelated(deletes)
    requires Markable(deletes[|deletes| - 1]) && !CoveredBy(s.deletes, deletes[|deletes| - 1])
    requires var (before, issued) := AfterPublish(s, deletes[..|deletes| - 1], fails, now);
             issued == deletes[..|deletes| - 1] && PublishedFrom(s, before, issued, fails, now)
    ensures var (after, issued) := AfterPublish(s, deletes, fails, now);
            issued == deletes && PublishedFrom(s, after, deletes, fails, now)
  {
    var rest, last := deletes[..|deletes| - 1], deletes[|deletes| - 1];
    UnrelatedToLast(deletes);
    PublishOne(s, AfterPublish(s, rest, fails, now).0, rest, last, fails, now);
    PublishLast(s, deletes, fails, now);
    assert rest + [last] == deletes;
  }

  /**
   With no rename pending and nothing expiring, pairwise unrelated deletes outside the pending
   ones are all issued, and the markers left are the deletes that did not fail together with the
   old markers that are not at or under any of the deletes.
  */
  lemma {:induction false} UnrelatedDeletesAreAllIssued(s: Markers, deletes: seq<Path>, fails: Path -> bool, now: int)
    requires Pruned(s, now) == s && s.preserves == map[]
    requires PairwiseUnrelated(deletes)
    requires forall i :: 0 <= i < |deletes| ==> Markable(deletes[i]) && !CoveredBy(s.deletes, deletes[i])
    ensures var (after, issued) := AfterPublish(s, deletes, fails, now);
            issued == deletes && PublishedFrom(s, after, deletes, fails, now)
  {
    if deletes == [] {
      NothingPublished(s, fails, now);
    } else {
      var rest := deletes[..|deletes| - 1];
      UnrelatedToLast(deletes);
      assert forall i :: 0 <= i < |rest| ==> rest[i] == deletes[i];
      UnrelatedDeletesAreAllIssued(s, rest, fails, now);
      PublishNext(s, deletes, fails, now);
    }
  }

  /**
   Every delete the scan returns is issued when no rename is pending and nothing expires, and the
   markers left are those of the deletes that did not fail and the old ones outside them.
  */
  lemma ScannedDeletesAreAllIssued(disk: Disk, entries: seq<Entry>, previous: seq<Cached>, s: Markers,
                                   fails: Path -> bool, now: int)
    requires WellFormedDisk(disk) && FilesAreLeaves(Listed(entries))
    requires Pruned(s, now) == s && s.preserves == map[]
    ensures var deletes := RecentLocalFileDeletes(disk, entries, previous, s);
            var (after, issued) := AfterPublish(s, deletes, fails, now);
            issued == deletes && PublishedFrom(s, after, deletes, fails, now)
  {
    var deletes := RecentLocalFileDeletes(disk, entries, previous, s);
    forall i | 0 <= i < |deletes| ensures Markable(deletes[i]) && !CoveredBy(s.deletes, deletes[i]) {
      assert deletes[i] in deletes;
      DeletesAre(disk, entries, previous, s, deletes[i]);
    }
    FoundOnce(disk, previous, Listed(entries), s);
    SortDistinct(FoundDeletes(disk, previous, Listed(entries), s), ShallowFirst, (p: Path) => p);
    forall i, j | 0 <= i < j < |deletes|
      ensures !Covers(deletes[i], deletes[j]) && !Covers(deletes[j], deletes[i])
    {
      assert deletes[i] in deletes && deletes[j] in deletes;
      assert deletes[i] != deletes[j] by {
        var key := (p: Path) => p;
        assert key(deletes[i]) == deletes[i];
      }
      DeletesAreUnrelated(disk, entries, previous, s, deletes[i], deletes[j]);
      DeletesAreUnrelated(disk, entries, previous, s, deletes[j], deletes[i]);
    }
    UnrelatedDeletesAreAllIssued(s, deletes, fails, now);
  }

  lemma {:induction false} FoundOnce(disk: Disk, previous: seq<Cached>, listed: map<Path, Entry>, pending: Markers)
    ensures DistinctBy(FoundDeletes(disk, previous, listed, pending), (p: Path) => p)
  {
    if previous != [] {
      FoundOnce(disk, previous[..|previous| - 1], listed, pending);
    }
  }
}
