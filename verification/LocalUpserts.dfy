/** The local scan for files the provider does not hold, and the publication of all local changes. */
module LocalUpserts {
  import opened Paths
  import opened Sorting
  import opened Listing
  import opened Wrappers
  import opened Markers
  import opened SyncRoot
  import opened SyncStages
  import opened SyncSafety
  import opened SyncConvergence
  import opened SyncVersions
  import opened SyncRecreation
  import opened SyncRetries
  import opened LocalDeletes

  // ---------------------------------------------------------------------------------------------
  // Which files are offered
  // ---------------------------------------------------------------------------------------------

  /** The record describes this content; unlike elsewhere the kind of the record is not looked at. */
  predicate RecordHas(previous: map<Path, Cached>, p: Path, content: Content) {
    p in previous && previous[p].size == content.size && previous[p].sha == Some(content.sha)
  }

  predicate AlreadyRepresented(p: Path, content: Content, listed: map<Path, Entry>, previous: map<Path, Cached>) {
    if p !in listed || listed[p].isDirectory then
      RecordHas(previous, p, content) && !previous[p].isDirectory && !Blank(previous[p].sha)
    else
      listed[p].size == content.size && RecordHas(previous, p, content)
  }

  /** The scan does not go to p or below it. */
  predicate LeftOut(p: Path, pending: Markers) {
    Ignored(p) || CoveredBy(pending.deletes, p) || p in pending.preserves
  }

  predicate HeldBack(p: Path, pending: Markers) {
    Ignored(p) || CoveredBy(pending.deletes, p) || CoveredBy(pending.preserves, p)
  }

  /** A plain file outside ignored names and pending changes that is not represented already. */
  predicate IsUpsert(disk: Disk, p: Path, listed: map<Path, Entry>, previous: map<Path, Cached>, pending: Markers) {
    && p in disk && disk[p].LocalFile? && !HeldBack(p, pending)
    && !AlreadyRepresented(p, disk[p].content, listed, previous)
  }

  // ---------------------------------------------------------------------------------------------
  // The walk
  // ---------------------------------------------------------------------------------------------

  /** children lists what is in each directory, each item once. */
  ghost predicate Enumerates(children: Path -> seq<Path>, disk: Disk) {
    forall d {:trigger children(d)} :: DirectoryExists(disk, d) ==>
      && (forall q :: q in children(d) <==> q in disk && IsChild(q, d))
      && AllDifferent(children(d))
  }

  ghost predicate AllDifferent(s: seq<Path>) {
    forall i, j :: 0 <= i < j < |s| ==> s[i] != s[j]
  }

  predicate UnderAny(stack: seq<Path>, q: Path) {
    exists i :: 0 <= i < |stack| && Covers(stack[i], q)
  }

  /** What the walk still has to look at. */
  function Ahead(disk: Disk, stack: seq<Path>): set<Path> {
    set q | q in disk && UnderAny(stack, q)
  }

  lemma UnderConcat(a: seq<Path>, b: seq<Path>, q: Path)
    ensures UnderAny(a + b, q) <==> UnderAny(a, q) || UnderAny(b, q)
  {
    if UnderAny(a, q) {
      var i :| 0 <= i < |a| && Covers(a[i], q);
      assert (a + b)[i] == a[i];
    }
    if UnderAny(b, q) {
      var i :| 0 <= i < |b| && Covers(b[i], q);
      assert (a + b)[|a| + i] == b[i];
    }
  }

  lemma UnderOne(p: Path, q: Path)
    ensures UnderAny([p], q) <==> Covers(p, q)
  {
    assert [p][0] == p;
  }

  lemma LastIsNotUnder(rest: seq<Path>, p: Path)
    requires PairwiseUnrelated(rest + [p])
    ensures !UnderAny(rest, p)
  {
    forall i | 0 <= i < |rest| ensures !Covers(rest[i], p) {
      assert (rest + [p])[i] == rest[i] && (rest + [p])[|rest|] == p;
    }
  }

  /** The child of d on the way to q. */
  lemma {:induction false} ChildTowards(disk: Disk, d: Path, q: Path) returns (c: Path)
    requires WellFormedDisk(disk) && q in disk && Covers(d, q) && d != q
    ensures c in disk && IsChild(c, d) && Covers(c, q)
    decreases |q|
  {
    if |q| == |d| + 1 {
      c := q;
    } else {
      CoversStep(d, q);
      c := ChildTowards(disk, d, Parent(q));
      CoversStep(c, q);
    }
  }

  /** Below a directory lies exactly what lies at or below its children. */
  lemma UnderChildren(disk: Disk, children: seq<Path>, d: Path, q: Path)
    requires WellFormedDisk(disk) && q in disk
    requires forall c :: c in children <==> c in disk && IsChild(c, d)
    ensures UnderAny(children, q) <==> Covers(d, q) && d != q
  {
    if UnderAny(children, q) {
      var i :| 0 <= i < |children| && Covers(children[i], q);
      assert children[i] in children;
      CoversTransitive(d, children[i], q);
    }
    if Covers(d, q) && d != q {
      var c := ChildTowards(disk, d, q);
      var i :| 0 <= i < |children| && children[i] == c;
    }
  }

  lemma SiblingsAreUnrelated(children: seq<Path>, d: Path)
    requires forall c :: c in children ==> IsChild(c, d)
    requires AllDifferent(children)
    ensures PairwiseUnrelated(children)
  {
    forall i, j | 0 <= i < j < |children| ensures !Covers(children[i], children[j]) && !Covers(children[j], children[i]) {
      assert children[i] in children && children[j] in children;
    }
  }

  /** Replacing a directory on the stack by its children keeps the stack unrelated. */
  lemma ExpandKeepsUnrelated(rest: seq<Path>, d: Path, children: seq<Path>)
    requires PairwiseUnrelated(rest + [d]) && PairwiseUnrelated(children)
    requires forall c :: c in children ==> IsChild(c, d)
    ensures PairwiseUnrelated(rest + children)
  {
    var stack := rest + children;
    forall i, j | 0 <= i < j < |stack| ensures !Covers(stack[i], stack[j]) && !Covers(stack[j], stack[i]) {
      if j < |rest| {
        assert (rest + [d])[i] == rest[i] && (rest + [d])[j] == rest[j];
      } else if i < |rest| {
        assert (rest + [d])[i] == rest[i] && (rest + [d])[|rest|] == d;
        var c := children[j - |rest|];
        assert c in children && stack[i] == rest[i];
        if Covers(rest[i], c) || Covers(c, rest[i]) {
          SideOfChild(rest[i], c, d);
        }
      } else {
        assert stack[i] == children[i - |rest|] && stack[j] == children[j - |rest|];
      }
    }
  }

  lemma SideOfChild(x: Path, c: Path, d: Path)
    requires IsChild(c, d) && (Covers(x, c) || Covers(c, x))
    ensures Covers(x, d) || Covers(d, x)
  {
    if Covers(x, c) {
      PrefixesAreRelated(x, d, c);
    } else {
      CoversTransitive(d, c, x);
    }
  }

  /** The parts of the tree the walk has finished have been searched completely. */
  ghost predicate Searched(found: seq<Path>, start: Path, stack: seq<Path>, disk: Disk, listed: map<Path, Entry>,
                           previous: map<Path, Cached>, pending: Markers) {
    forall q :: q in found <==>
      Covers(start, q) && !UnderAny(stack, q) && IsUpsert(disk, q, listed, previous, pending)
  }

  /** Popping p without going below it finishes p and everything under it. */
  lemma PopFinishes(found: seq<Path>, start: Path, rest: seq<Path>, p: Path, disk: Disk, listed: map<Path, Entry>,
                    previous: map<Path, Cached>, pending: Markers)
    requires Searched(found, start, rest + [p], disk, listed, previous, pending)
    requires forall q :: Covers(p, q) ==> !IsUpsert(disk, q, listed, previous, pending)
    ensures Searched(found, start, rest, disk, listed, previous, pending)
  {
    forall q ensures UnderAny(rest + [p], q) <==> UnderAny(rest, q) || Covers(p, q) {
      UnderConcat(rest, [p], q);
      UnderOne(p, q);
    }
  }

  lemma LeftOutBelow(p: Path, q: Path, pending: Markers)
    requires LeftOut(p, pending) && Covers(p, q)
    ensures HeldBack(q, pending)
  {
    if Ignored(p) {
      IgnoredBelow(p, q);
    } else if CoveredBy(pending.deletes, p) {
      var m :| m in pending.deletes.Keys && Covers(m, p);
      CoversTransitive(m, p, q);
    } else {
      assert p in pending.preserves.Keys;
    }
  }

  lemma NothingUnderAFile(disk: Disk, p: Path, q: Path)
    requires WellFormedDisk(disk) && p in disk && !IsDirectoryItem(disk[p]) && q in disk && Covers(p, q)
    ensures p == q
  {
    if p != q {
      AncestorsExist(disk, p, q);
    }
  }

  /** Every part of q up to the top of the walk was let through. */
  ghost predicate LetThrough(stack: seq<Path>, pending: Markers) {
    forall i, a :: 0 <= i < |stack| && Covers(a, stack[i]) && a != stack[i] && a != [] ==> !LeftOut(a, pending)
  }

  lemma ThroughMeansFree(p: Path, pending: Markers)
    requires CleanMarkers(pending) && !LeftOut(p, pending)
    requires forall a :: Covers(a, p) && a != p && a != [] ==> !LeftOut(a, pending)
    ensures !HeldBack(p, pending)
  {
    forall m | m in pending.preserves.Keys ensures !Covers(m, p) {
      assert LeftOut(m, pending);
    }
  }

  lemma ExpandLetsThrough(rest: seq<Path>, d: Path, children: seq<Path>, pending: Markers)
    requires LetThrough(rest + [d], pending) && !LeftOut(d, pending)
    requires forall c :: c in children ==> IsChild(c, d)
    ensures LetThrough(rest + children, pending)
  {
    var stack := rest + children;
    forall i, a | 0 <= i < |stack| && Covers(a, stack[i]) && a != stack[i] && a != [] ensures !LeftOut(a, pending) {
      if i < |rest| {
        assert (rest + [d])[i] == rest[i];
      } else {
        assert stack[i] == children[i - |rest|] && stack[i] in children;
        assert Parent(stack[i]) == d;
        CoversStep(a, stack[i]);
        assert (rest + [d])[|rest|] == d;
      }
    }
  }

  /** A directory is replaced by its children: only the directory itself is finished. */
  lemma ExpandFinishes(found: seq<Path>, start: Path, rest: seq<Path>, d: Path, children: seq<Path>, disk: Disk,
                       listed: map<Path, Entry>, previous: map<Path, Cached>, pending: Markers)
    requires WellFormedDisk(disk) && d in disk && IsDirectoryItem(disk[d])
    requires forall c :: c in children <==> c in disk && IsChild(c, d)
    requires Searched(found, start, rest + [d], disk, listed, previous, pending)
    ensures Searched(found, start, rest + children, disk, listed, previous, pending)
    ensures PairwiseUnrelated(rest + [d]) ==> Ahead(disk, rest + children) < Ahead(disk, rest + [d])
  {
    forall q | q in disk ensures UnderAny(rest + [d], q) <==> UnderAny(rest + children, q) || q == d || UnderAny(rest, q) {
      UnderConcat(rest, [d], q);
      UnderConcat(rest, children, q);
      UnderOne(d, q);
      UnderChildren(disk, children, d, q);
      assert Covers(d, d);
    }
    forall q | q in disk ensures UnderAny(rest, q) ==> UnderAny(rest + children, q) {
      UnderConcat(rest, children, q);
    }
    if PairwiseUnrelated(rest + [d]) {
      UnderConcat(rest, children, d);
      UnderChildren(disk, children, d, d);
      LastIsNotUnder(rest, d);
      assert d in Ahead(disk, rest + [d]) && d !in Ahead(disk, rest + children);
    }
  }

  lemma PopShrinks(disk: Disk, rest: seq<Path>, p: Path)
    requires PairwiseUnrelated(rest + [p]) && p in disk
    ensures Ahead(disk, rest) < Ahead(disk, rest + [p]) && !UnderAny(rest, p)
    ensures PairwiseUnrelated(rest)
  {
    forall q ensures UnderAny(rest, q) ==> UnderAny(rest + [p], q) {
      UnderConcat(rest, [p], q);
    }
    UnderConcat(rest, [p], p);
    UnderOne(p, p);
    assert Covers(p, p);
    LastIsNotUnder(rest, p);
    assert p in Ahead(disk, rest + [p]) && p !in Ahead(disk, rest);
    forall i, j | 0 <= i < j < |rest| ensures !Covers(rest[i], rest[j]) && !Covers(rest[j], rest[i]) {
      assert (rest + [p])[i] == rest[i] && (rest + [p])[j] == rest[j];
    }
  }

  lemma FileFinishes(found: seq<Path>, start: Path, rest: seq<Path>, p: Path, disk: Disk, listed: map<Path, Entry>,
                     previous: map<Path, Cached>, pending: Markers)
    requires WellFormedDisk(disk) && p in disk && !IsDirectoryItem(disk[p]) && Covers(start, p)
    requires Searched(found, start, rest + [p], disk, listed, previous, pending) && !UnderAny(rest, p)
    ensures Searched(if IsUpsert(disk, p, listed, previous, pending) then found + [p] else found,
                     start, rest, disk, listed, previous, pending)
  {
    forall q ensures UnderAny(rest + [p], q) <==> UnderAny(rest, q) || Covers(p, q) {
      UnderConcat(rest, [p], q);
      UnderOne(p, q);
    }
    forall q | q in disk && Covers(p, q) ensures q == p {
      NothingUnderAFile(disk, p, q);
    }
    assert Covers(p, p);
  }

  /** Where the walk stands: what it has found and what is on its stack. */
  ghost predicate Walking(found: seq<Path>, start: Path, stack: seq<Path>, disk: Disk, listed: map<Path, Entry>,
                          previous: map<Path, Cached>, pending: Markers) {
    && PairwiseUnrelated(stack) && LetThrough(stack, pending)
    && (forall p :: p in stack ==> p in disk && Covers(start, p))
    && Searched(found, start, stack, disk, listed, previous, pending) && AllDifferent(found)
  }

  lemma WalkStarts(start: Path, disk: Disk, listed: map<Path, Entry>, previous: map<Path, Cached>, pending: Markers)
    requires start in disk && |start| == 1
    ensures Walking([], start, [start], disk, listed, previous, pending)
  {
    forall q ensures UnderAny([start], q) <==> Covers(start, q) {
      UnderOne(start, q);
    }
  }

  lemma WalkEnds(found: seq<Path>, start: Path, disk: Disk, listed: map<Path, Entry>, previous: map<Path, Cached>,
                 pending: Markers)
    requires Walking(found, start, [], disk, listed, previous, pending)
    ensures forall q :: q in found <==> Covers(start, q) && IsUpsert(disk, q, listed, previous, pending)
    ensures AllDifferent(found)
  {
  }

  lemma TopIsOnDisk(found: seq<Path>, start: Path, stack: seq<Path>, disk: Disk, listed: map<Path, Entry>,
                    previous: map<Path, Cached>, pending: Markers)
    requires stack != [] && Walking(found, start, stack, disk, listed, previous, pending)
    ensures stack[|stack| - 1] in disk && stack == stack[..|stack| - 1] + [stack[|stack| - 1]]
  {
    assert stack[|stack| - 1] in stack;
  }

  lemma InsideIs(disk: Disk, children: Path -> seq<Path>, d: Path)
    requires Enumerates(children, disk) && d in disk && IsDirectoryItem(disk[d])
    ensures (forall c :: c in children(d) <==> c in disk && IsChild(c, d)) && AllDifferent(children(d))
  {
    assert DirectoryExists(disk, d);
  }

  lemma RestIsWalked(start: Path, rest: seq<Path>, p: Path, disk: Disk, pending: Markers)
    requires PairwiseUnrelated(rest + [p]) && LetThrough(rest + [p], pending)
    requires forall q :: q in rest + [p] ==> q in disk && Covers(start, q)
    ensures PairwiseUnrelated(rest) && LetThrough(rest, pending)
    ensures forall q :: q in rest ==> q in disk && Covers(start, q)
    ensures Ahead(disk, rest) < Ahead(disk, rest + [p]) && !UnderAny(rest, p)
    ensures p in disk && Covers(start, p)
    ensures forall a :: Covers(a, p) && a != p && a != [] ==> !LeftOut(a, pending)
  {
    var stack := rest + [p];
    assert stack[|rest|] == p && p in stack;
    PopShrinks(disk, rest, p);
    assert forall i :: 0 <= i < |rest| ==> rest[i] == stack[i] && rest[i] in stack;
  }

  lemma SkipStep(found: seq<Path>, start: Path, rest: seq<Path>, p: Path, disk: Disk, listed: map<Path, Entry>,
                 previous: map<Path, Cached>, pending: Markers)
    requires Walking(found, start, rest + [p], disk, listed, previous, pending) && LeftOut(p, pending)
    ensures Walking(found, start, rest, disk, listed, previous, pending)
    ensures Ahead(disk, rest) < Ahead(disk, rest + [p])
  {
    RestIsWalked(start, rest, p, disk, pending);
    forall q | Covers(p, q) ensures HeldBack(q, pending) {
      LeftOutBelow(p, q, pending);
    }
    PopFinishes(found, start, rest, p, disk, listed, previous, pending);
  }

  lemma DirectoryStep(found: seq<Path>, start: Path, rest: seq<Path>, d: Path, inside: seq<Path>, disk: Disk,
                      listed: map<Path, Entry>, previous: map<Path, Cached>, pending: Markers)
    requires WellFormedDisk(disk) && Walking(found, start, rest + [d], disk, listed, previous, pending)
    requires !LeftOut(d, pending) && d in disk && IsDirectoryItem(disk[d])
    requires (forall c :: c in inside <==> c in disk && IsChild(c, d)) && AllDifferent(inside)
    ensures Walking(found, start, rest + inside, disk, listed, previous, pending)
    ensures Ahead(disk, rest + inside) < Ahead(disk, rest + [d])
  {
    RestIsWalked(start, rest, d, disk, pending);
    SiblingsAreUnrelated(inside, d);
    ExpandKeepsUnrelated(rest, d, inside);
    ExpandLetsThrough(rest, d, inside, pending);
    ExpandFinishes(found, start, rest, d, inside, disk, listed, previous, pending);
    forall p | p in rest + inside ensures p in disk && Covers(start, p) {
      if p in inside {
        CoversTransitive(start, d, p);
      }
    }
  }

  lemma FileStep(found: seq<Path>, start: Path, rest: seq<Path>, p: Path, disk: Disk, listed: map<Path, Entry>,
                 previous: map<Path, Cached>, pending: Markers)
    requires WellFormedDisk(disk) && Walking(found, start, rest + [p], disk, listed, previous, pending)
    requires CleanMarkers(pending) && !LeftOut(p, pending) && p in disk && !IsDirectoryItem(disk[p])
    ensures !HeldBack(p, pending) && p !in found
    ensures Walking(if IsUpsert(disk, p, listed, previous, pending) then found + [p] else found,
                    start, rest, disk, listed, previous, pending)
    ensures Ahead(disk, rest) < Ahead(disk, rest + [p])
  {
    RestIsWalked(start, rest, p, disk, pending);
    ThroughMeansFree(p, pending);
    UnderConcat(rest, [p], p);
    UnderOne(p, p);
    assert Covers(p, p);
    FileFinishes(found, start, rest, p, disk, listed, previous, pending);
  }

  /** The walk below one top-level item, with its stack. */
  method CollectRecentLocalFileUpserts(start: Path, disk: Disk, children: Path -> seq<Path>, listed: map<Path, Entry>,
                                       previous: map<Path, Cached>, pending: Markers) returns (found: seq<Path>)
    requires WellFormedDisk(disk) && Enumerates(children, disk) && CleanMarkers(pending)
    requires start in disk && |start| == 1
    ensures forall q :: q in found <==> Covers(start, q) && IsUpsert(disk, q, listed, previous, pending)
    ensures AllDifferent(found)
  {
    found := [];
    var stack := [start];
    WalkStarts(start, disk, listed, previous, pending);
    while stack != []
      invariant Walking(found, start, stack, disk, listed, previous, pending)
      decreases Ahead(disk, stack)
    {
      var rest, relative := stack[..|stack| - 1], stack[|stack| - 1];
      TopIsOnDisk(found, start, stack, disk, listed, previous, pending);
      if LeftOut(relative, pending) {
        SkipStep(found, start, rest, relative, disk, listed, previous, pending);
        stack := rest;
        continue;
      }
      if IsDirectoryItem(disk[relative]) {
        InsideIs(disk, children, relative);
        DirectoryStep(found, start, rest, relative, children(relative), disk, listed, previous, pending);
        stack := rest + children(relative);
        continue;
      }
      FileStep(found, start, rest, relative, disk, listed, previous, pending);
      if disk[relative].LocalFile? && !AlreadyRepresented(relative, disk[relative].content, listed, previous) {
        found := found + [relative];
      }
      stack := rest;
    }
    WalkEnds(found, start, disk, listed, previous, pending);
  }

  predicate ByText(a: Path, b: Path) {
    OrdinalLe(Join(a), Join(b))
  }

  /** What has been found below the first i top-level items. */
  ghost predicate FoundBelow(found: seq<Path>, tops: seq<Path>, i: nat, disk: Disk, listed: map<Path, Entry>,
                             previous: map<Path, Cached>, pending: Markers)
    requires i <= |tops|
  {
    && (forall q :: q in found <==> UnderAny(tops[..i], q) && IsUpsert(disk, q, listed, previous, pending))
    && AllDifferent(found)
  }

  lemma TopStep(found: seq<Path>, more: seq<Path>, tops: seq<Path>, i: nat, disk: Disk, listed: map<Path, Entry>,
                previous: map<Path, Cached>, pending: Markers)
    requires i < |tops| && FoundBelow(found, tops, i, disk, listed, previous, pending)
    requires forall q :: q in more <==> Covers(tops[i], q) && IsUpsert(disk, q, listed, previous, pending)
    requires AllDifferent(more) && forall q :: UnderAny(tops[..i], q) ==> !Covers(tops[i], q)
    ensures FoundBelow(found + more, tops, i + 1, disk, listed, previous, pending)
  {
    forall q ensures UnderAny(tops[..i + 1], q) <==> UnderAny(tops[..i], q) || Covers(tops[i], q) {
      assert tops[..i + 1] == tops[..i] + [tops[i]];
      UnderConcat(tops[..i], [tops[i]], q);
      UnderOne(tops[i], q);
    }
    ConcatDifferent(found, more);
  }

  lemma SortedByText(found: seq<Path>)
    requires AllDifferent(found)
    ensures var upserts := Sort(found, ByText);
            AllDifferent(upserts) && Sorted(upserts, ByText) && forall q :: q in upserts <==> q in found
  {
    SortElements(found, ByText);
    ByTextIsTotal();
    SortSorts(found, ByText);
    SortDistinct(found, ByText, (p: Path) => p);
    DifferentByIdentity(Sort(found, ByText));
  }

  /** The walks below all top-level items, ordered by text; each path is found once. */
  method FindRecentLocalFileUpserts(disk: Disk, children: Path -> seq<Path>, entries: seq<Entry>, records: seq<Cached>,
                                    pending: Markers) returns (upserts: seq<Path>)
    requires WellFormedDisk(disk) && Enumerates(children, disk) && CleanMarkers(pending)
    ensures forall q :: q in upserts <==> IsUpsert(disk, q, Listed(entries), PreviousByPath(records), pending)
    ensures AllDifferent(upserts) && Sorted(upserts, ByText)
  {
    var listed, previous := Listed(entries), PreviousByPath(records);
    var tops := children([]);
    assert DirectoryExists(disk, []);
    var found: seq<Path> := [];
    for i := 0 to |tops|
      invariant FoundBelow(found, tops, i, disk, listed, previous, pending)
    {
      assert tops[i] in tops;
      var more := CollectRecentLocalFileUpserts(tops[i], disk, children, listed, previous, pending);
      TopsAreApart(tops, i, disk, children);
      TopStep(found, more, tops, i, disk, listed, previous, pending);
      found := found + more;
    }
    assert tops[..|tops|] == tops;
    forall q | q in disk ensures UnderAny(tops, q) {
      UnderChildren(disk, tops, [], q);
    }
    upserts := Sort(found, ByText);
    SortedByText(found);
  }

  lemma ByTextIsTotal()
    ensures TotalPreorder(ByText)
  {
    forall a, b ensures ByText(a, b) || ByText(b, a) {
      OrdinalTotal(Join(a), Join(b));
    }
    forall a, b, c | ByText(a, b) && ByText(b, c) ensures ByText(a, c) {
      OrdinalTransitive(Join(a), Join(b), Join(c));
    }
  }

  lemma DifferentByIdentity(s: seq<Path>)
    requires DistinctBy(s, (p: Path) => p)
    ensures AllDifferent(s)
  {
    var key := (p: Path) => p;
    assert forall p :: key(p) == p;
  }

  /** What lies below one top-level item lies below no earlier one. */
  lemma TopsAreApart(tops: seq<Path>, i: nat, disk: Disk, children: Path -> seq<Path>)
    requires Enumerates(children, disk) && tops == children([]) && i < |tops|
    ensures forall q :: UnderAny(tops[..i], q) ==> !Covers(tops[i], q)
  {
    assert DirectoryExists(disk, []);
    SiblingsAreUnrelated(tops, []);
    forall q | UnderAny(tops[..i], q) ensures !Covers(tops[i], q) {
      var j :| 0 <= j < i && Covers(tops[..i][j], q);
      assert tops[..i][j] == tops[j];
      if Covers(tops[i], q) {
        PrefixesAreRelated(tops[i], tops[j], q);
      }
    }
  }

  lemma ConcatDifferent(a: seq<Path>, b: seq<Path>)
    requires AllDifferent(a) && AllDifferent(b) && forall q :: q in a ==> q !in b
    ensures AllDifferent(a + b)
  {
    var c := a + b;
    forall i, j | 0 <= i < j < |c| ensures c[i] != c[j] {
      if i < |a| <= j {
        assert c[i] in a && c[j] in b;
      }
    }
  }

  // ---------------------------------------------------------------------------------------------
  // What the scan means
  // ---------------------------------------------------------------------------------------------

  lemma LastHasNoHash(records: seq<Cached>, p: Path)
    requires NoHash(records)
    ensures p in PreviousByPath(records) ==> Blank(PreviousByPath(records)[p].sha)
  {
    if records != [] {
      var rest := records[..|records| - 1];
      assert records == rest + [records[|records| - 1]];
      LastHasNoHash(rest, p);
    }
  }

  /**
   From a cache without hashes every plain file outside ignored names and pending changes is
   offered, whether the provider already holds it or not.
  */
  lemma NoHashOffersAll(disk: Disk, p: Path, listed: map<Path, Entry>, records: seq<Cached>, pending: Markers)
    requires NoHash(records) && p in disk && disk[p].LocalFile? && !Blank(Some(disk[p].content.sha))
    ensures IsUpsert(disk, p, listed, PreviousByPath(records), pending) <==> !HeldBack(p, pending)
  {
    LastHasNoHash(records, p);
  }

  lemma UnrecordedIsOffered(disk: Disk, p: Path, listed: map<Path, Entry>, records: seq<Cached>, pending: Markers)
    requires !RecordedAt(records, p) && p in disk && disk[p].LocalFile?
    ensures IsUpsert(disk, p, listed, PreviousByPath(records), pending) <==> !HeldBack(p, pending)
  {
    LastRecord(records, p);
    if p in PreviousByPath(records) {
      assert RecordedAt(records, p);
    }
  }

  /** The i-th record is the last one for p. */
  ghost predicate LastFor(records: seq<Cached>, p: Path, i: int) {
    0 <= i < |records| && records[i].path == p && forall j :: i < j < |records| ==> records[j].path != p
  }

  lemma {:induction false} LookupIsLast(records: seq<Cached>, p: Path, i: int)
    requires LastFor(records, p, i)
    ensures p in PreviousByPath(records) && PreviousByPath(records)[p] == records[i]
  {
    var n := |records| - 1;
    if i < n {
      assert records[n].path != p;
      assert LastFor(records[..n], p, i);
      LookupIsLast(records[..n], p, i);
    }
  }

  lemma {:induction false} SomeIsLast(records: seq<Cached>, p: Path) returns (i: int)
    requires p in PreviousByPath(records)
    ensures LastFor(records, p, i)
  {
    var n := |records| - 1;
    if records[n].path == p {
      i := n;
    } else {
      i := SomeIsLast(records[..n], p);
    }
  }

  /** The last record of the path has this content; where no file is listed it must be that of a file. */
  ghost predicate Represented(records: seq<Cached>, i: int, p: Path, content: Content, listed: map<Path, Entry>) {
    && LastFor(records, p, i) && records[i].size == content.size && records[i].sha == Some(content.sha)
    && if p in listed && !listed[p].isDirectory then listed[p].size == content.size else !records[i].isDirectory && !Blank(records[i].sha)
  }

  /**
   A plain file is offered exactly when it is not held back and its size or its hash differs from its
   last record, or it has none, or the provider lists a file of another size.
  */
  lemma OfferedIff(disk: Disk, p: Path, listed: map<Path, Entry>, records: seq<Cached>, pending: Markers)
    requires p in disk && disk[p].LocalFile?
    ensures IsUpsert(disk, p, listed, PreviousByPath(records), pending) <==>
            !HeldBack(p, pending) && !exists i :: Represented(records, i, p, disk[p].content, listed)
  {
    if i :| Represented(records, i, p, disk[p].content, listed) {
      LookupIsLast(records, p, i);
    }
    if p in PreviousByPath(records) {
      var i := SomeIsLast(records, p);
      LookupIsLast(records, p, i);
      assert AlreadyRepresented(p, disk[p].content, listed, PreviousByPath(records)) ==>
             Represented(records, i, p, disk[p].content, listed);
    }
  }

  /**
   So an upload is never remembered.  A plain file where the provider lists a file, outside pending
   deletes and not removed as changed, is offered by the scan after the pass unless it is held back
   then, whatever the provider lists by then and whatever was recorded before: the pass leaves the
   file without a record.
  */
  lemma UploadedIsOfferedAgain(root: Root, inp: Inputs, w: Weather, p: Path, entries: seq<Entry>, pending: Markers)
    requires WellFormedDisk(root.disk) && Completes(w)
    requires PlainWhereListed(root, inp, p) && ReplacementFails(root, inp, w, p)
    ensures var next := Prepare(root, inp, w);
            && p in next.disk && next.disk[p] == root.disk[p]
            && (IsUpsert(next.disk, p, Listed(entries), PreviousByPath(LoadLocalState(next.cache)), pending) <==>
                !HeldBack(p, pending))
  {
    var next := Prepare(root, inp, w);
    ListedExactly(inp.entries);
    FailedReplacementIsForgotten(root, inp, w, p);
    FileDeletedIff(root, inp, w, p);
    LoadedElements(next.cache);
    assert !RecordedAt(LoadLocalState(next.cache), p);
    UnrecordedIsOffered(next.disk, p, Listed(entries), LoadLocalState(next.cache), pending);
  }

  // ---------------------------------------------------------------------------------------------
  // Publishing everything
  // ---------------------------------------------------------------------------------------------

  function Unmarked(upserts: seq<Path>, s: Markers): seq<Path> {
    if upserts == [] then []
    else
      var last := upserts[|upserts| - 1];
      Unmarked(upserts[..|upserts| - 1], s) + (if last in s.deletes || last in s.preserves then [] else [last])
  }

  lemma {:induction false} UnmarkedElements(upserts: seq<Path>, s: Markers, p: Path)
    ensures p in Unmarked(upserts, s) <==> p in upserts && p !in s.deletes && p !in s.preserves
  {
    if upserts != [] {
      var rest := upserts[..|upserts| - 1];
      UnmarkedElements(rest, s, p);
      assert upserts == rest + [upserts[|upserts| - 1]];
    }
  }

  /** The second loop: files whose path is marked itself are passed over. */
  method PublishRecentLocalFileUpserts(markers: PendingMutations, upserts: seq<Path>, fails: Path -> bool, now: int)
    returns (written: seq<Path>, changed: bool)
    requires forall p :: p in upserts ==> p != []
    modifies markers
    ensures markers.State() == if upserts == [] then old(markers.State()) else Pruned(old(markers.State()), now)
    ensures written == Unmarked(upserts, Pruned(old(markers.State()), now))
    ensures changed <==> exists p :: p in written && !fails(p)
  {
    written, changed := [], false;
    ghost var pruned := Pruned(markers.State(), now);
    for i := 0 to |upserts|
      invariant markers.State() == if i == 0 then old(markers.State()) else pruned
      invariant written == Unmarked(upserts[..i], pruned)
      invariant changed <==> exists p :: p in written && !fails(p)
    {
      assert upserts[..i + 1][..i] == upserts[..i];
      assert upserts[i] in upserts;
      var pending := markers.ProviderMutationIsPending(upserts[i], now);
      PruneAgain(old(markers.State()), now);
      if pending {
        assert written + [] == written;
        continue;
      }
      written := written + [upserts[i]];
      if !fails(upserts[i]) {
        assert upserts[i] in written;
        changed := true;
      }
    }
    assert upserts[..|upserts|] == upserts;
  }

  lemma PruneAgain(s: Markers, now: int)
    ensures Pruned(Pruned(s, now), now) == Pruned(s, now)
  {
  }

  /**
   With no rename pending and nothing expiring, exactly the offered files are written that the scan
   did not also publish as deleted, which happens where a file took the place of a directory.
  */
  lemma WrittenIff(disk: Disk, entries: seq<Entry>, records: seq<Cached>, s: Markers, upserts: seq<Path>,
                   fails: Path -> bool, now: int, p: Path)
    requires WellFormedDisk(disk) && FilesAreLeaves(Listed(entries))
    requires Pruned(s, now) == s && s.preserves == map[]
    requires forall q :: q in upserts <==> IsUpsert(disk, q, Listed(entries), PreviousByPath(records), s)
    ensures var deletes := RecentLocalFileDeletes(disk, entries, records, s);
            var after := AfterPublish(s, deletes, fails, now).0;
            p in Unmarked(upserts, after) <==> p in upserts && !(p in deletes && !fails(p))
  {
    var deletes := RecentLocalFileDeletes(disk, entries, records, s);
    ScannedDeletesAreAllIssued(disk, entries, records, s, fails, now);
    UnmarkedElements(upserts, AfterPublish(s, deletes, fails, now).0, p);
    assert Covers(p, p);
    if p in upserts {
      assert !CoveredBy(s.deletes, p);
      assert LeftOver(s, deletes, fails, p) <==> p in deletes && !fails(p);
    }
  }
}
