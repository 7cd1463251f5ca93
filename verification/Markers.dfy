/**
 Pending provider mutations: the markers that hold back a pass while a local delete or rename is
 on its way to the provider.  A delete marker stands for its whole subtree.
*/
module Markers {
  import opened Paths

  const PENDING_MUTATION_TTL_MS: int := 120_000

  /** When each pending delete and each pending rename target was marked, in milliseconds. */
  datatype Markers = Markers(deletes: map<Path, int>, preserves: map<Path, int>)

  const NO_MARKERS := Markers(map[], map[])

  function Unexpired(m: map<Path, int>, now: int, ttl: int): map<Path, int> {
    map p | p in m && m[p] >= now - ttl :: m[p]
  }

  function Pruned(s: Markers, now: int): Markers {
    Markers(Unexpired(s.deletes, now, PENDING_MUTATION_TTL_MS),
            Unexpired(s.preserves, now, PENDING_MUTATION_TTL_MS))
  }

  predicate CoveredBy(m: map<Path, int>, p: Path) {
    CoveredByAny(m.Keys, p)
  }

  predicate RelatedTo(m: map<Path, int>, p: Path) {
    RelatedToAny(m.Keys, p)
  }

  /** The markers that are neither above nor below p. */
  function Unrelated(m: map<Path, int>, p: Path): map<Path, int> {
    map d | d in m && !Covers(d, p) && !Covers(p, d) :: m[d]
  }

  function OutsideOf(m: map<Path, int>, p: Path): map<Path, int> {
    map d | d in m && !Covers(p, d) :: m[d]
  }

  predicate Markable(p: Path) {
    p != [] && !Ignored(p)
  }

  // ---------------------------------------------------------------------------------------------
  // The operations as functions of the marker maps
  // ---------------------------------------------------------------------------------------------

  predicate MarkRefused(s: Markers, p: Path) {
    RelatedTo(s.preserves, p) || CoveredBy(s.deletes, p)
  }

  function AfterMark(s: Markers, p: Path, now: int): (Markers, bool) {
    if !Markable(p) then (s, false)
    else
      var pruned := Pruned(s, now);
      if MarkRefused(pruned, p) then (pruned, false)
      else (pruned.(deletes := OutsideOf(pruned.deletes, p)[p := now]), true)
  }

  function AfterRename(s: Markers, oldPath: Path, newPath: Path, now: int): Markers {
    if !Markable(oldPath) || !Markable(newPath) then s
    else
      var pruned := Pruned(s, now);
      Markers(pruned.deletes[oldPath := now], pruned.preserves[newPath := now])
  }

  function AfterClear(s: Markers, paths: set<Path>): Markers {
    Markers(s.deletes - paths, s.preserves - paths)
  }

  /** Ignored items never count as existing. */
  predicate EntryExists(existing: set<Path>, p: Path) {
    p != [] && !Ignored(p) && p in existing
  }

  /** The first missing proper ancestor of p with at least k components, or p itself. */
  function ShallowestMissing(existing: set<Path>, p: Path, k: nat): Path
    decreases |p| - k
  {
    if k >= |p| then p
    else if !EntryExists(existing, p[..k]) then p[..k]
    else ShallowestMissing(existing, p, k + 1)
  }

  function AfterPromote(s: Markers, p: Path, existing: set<Path>, now: int): (Markers, Path) {
    if !Markable(p) then (s, p)
    else
      var promoted := ShallowestMissing(existing, p, 1);
      if promoted == p then (s, p)
      else
        var pruned := Pruned(s, now);
        if RelatedTo(pruned.preserves, promoted) then (pruned, p)
        else (pruned.(deletes := Unrelated(pruned.deletes, promoted)[promoted := now]), promoted)
  }

  function AfterReconcile(s: Markers, listed: set<Path>, now: int): Markers {
    var pruned := Pruned(s, now);
    Markers(map p | p in pruned.deletes && p in listed :: pruned.deletes[p],
            map p | p in pruned.preserves && p !in listed :: pruned.preserves[p])
  }

  // ---------------------------------------------------------------------------------------------
  // Marks refine the naive list of marked paths
  // ---------------------------------------------------------------------------------------------

  datatype Stamped = Stamped(path: Path, now: int)

  function AfterMarks(marks: seq<Stamped>): Markers {
    if marks == [] then NO_MARKERS
    else
      var last := marks[|marks| - 1];
      AfterMark(AfterMarks(marks[..|marks| - 1]), last.path, last.now).0
  }

  ghost predicate MarkedAtOrAbove(marks: seq<Stamped>, q: Path) {
    exists i :: 0 <= i < |marks| && Markable(marks[i].path) && Covers(marks[i].path, q)
  }

  ghost predicate WithinOneLifetime(marks: seq<Stamped>) {
    forall i, j :: 0 <= i < j < |marks| ==>
      marks[i].now <= marks[j].now <= marks[i].now + PENDING_MUTATION_TTL_MS
  }

  ghost predicate PrefixFree(m: map<Path, int>) {
    forall a, b :: a in m && b in m && Covers(a, b) ==> a == b
  }

  lemma MarkedAtOrAboveLast(marks: seq<Stamped>, q: Path)
    requires marks != []
    ensures var last := marks[|marks| - 1];
            MarkedAtOrAbove(marks, q) <==>
            MarkedAtOrAbove(marks[..|marks| - 1], q) || (Markable(last.path) && Covers(last.path, q))
  {
    var rest := marks[..|marks| - 1];
    if MarkedAtOrAbove(marks, q) {
      var i :| 0 <= i < |marks| && Markable(marks[i].path) && Covers(marks[i].path, q);
      if i < |rest| {
        assert rest[i] == marks[i];
      }
    }
    if MarkedAtOrAbove(rest, q) {
      var i :| 0 <= i < |rest| && Markable(rest[i].path) && Covers(rest[i].path, q);
      assert marks[i] == rest[i];
    }
  }

  /** One mark widens coverage by exactly the marked subtree, and keeps the set prefix free. */
  lemma MarkWidens(s: Markers, p: Path, now: int)
    requires Markable(p) && Pruned(s, now) == s && s.preserves == map[]
    requires PrefixFree(s.deletes)
    ensures PrefixFree(AfterMark(s, p, now).0.deletes)
    ensures forall q :: CoveredBy(AfterMark(s, p, now).0.deletes, q) <==>
                        CoveredBy(s.deletes, q) || Covers(p, q)
  {
    var r := AfterMark(s, p, now).0;
    forall q ensures CoveredBy(r.deletes, q) <==> CoveredBy(s.deletes, q) || Covers(p, q) {
      if MarkRefused(s, p) {
        if Covers(p, q) {
          var d :| d in s.deletes && Covers(d, p);
          CoversTransitive(d, p, q);
        }
      } else {
        if CoveredBy(s.deletes, q) {
          var d :| d in s.deletes && Covers(d, q);
          if Covers(p, d) {
            CoversTransitive(p, d, q);
          }
          assert p in r.deletes && (d in r.deletes || Covers(p, q));
        }
        if Covers(p, q) {
          assert p in r.deletes;
        }
      }
    }
  }

  lemma StampsAreRecent(marks: seq<Stamped>, now: int)
    requires WithinOneLifetime(marks + [Stamped([], now)])
    ensures AfterMarks(marks).preserves == map[]
    ensures forall d :: d in AfterMarks(marks).deletes ==>
              now - PENDING_MUTATION_TTL_MS <= AfterMarks(marks).deletes[d] <= now
  {
    if marks != [] {
      var extended := marks + [Stamped([], now)];
      var rest := marks[..|marks| - 1];
      var last := marks[|marks| - 1];
      assert extended[|marks| - 1] == last && extended[|marks|].now == now;
      assert last.now <= now <= last.now + PENDING_MUTATION_TTL_MS;
      var shorter := rest + [Stamped([], now)];
      forall i, j | 0 <= i < j < |shorter|
        ensures shorter[i].now <= shorter[j].now <= shorter[i].now + PENDING_MUTATION_TTL_MS
      {
        assert shorter[i] == extended[i];
        assert shorter[j] == extended[if j < |rest| then j else |marks|];
      }
      StampsAreRecent(rest, now);
    }
  }

  /**
   Within one lifetime and with no rename pending, the coalesced markers cover a path exactly when
   it is at or under some marked path, and they are the least such set.
  */
  lemma {:induction false} MarksRefineTheList(marks: seq<Stamped>)
    requires WithinOneLifetime(marks)
    ensures AfterMarks(marks).preserves == map[]
    ensures PrefixFree(AfterMarks(marks).deletes)
    ensures forall q :: CoveredBy(AfterMarks(marks).deletes, q) <==> MarkedAtOrAbove(marks, q)
  {
    if marks == [] {
      assert forall q :: !MarkedAtOrAbove(marks, q);
    } else {
      var rest := marks[..|marks| - 1];
      var last := marks[|marks| - 1];
      MarksRefineTheList(rest);
      assert forall q :: MarkedAtOrAbove(marks, q) <==>
        MarkedAtOrAbove(rest, q) || (Markable(last.path) && Covers(last.path, q)) by {
        forall q { MarkedAtOrAboveLast(marks, q); }
      }
      if Markable(last.path) {
        var s := AfterMarks(rest);
        assert Pruned(s, last.now) == s by {
          var probe := rest + [Stamped([], last.now)];
          assert forall i :: 0 <= i < |probe| ==> probe[i].now == marks[i].now;
          StampsAreRecent(rest, last.now);
        }
        MarkWidens(s, last.path, last.now);
      }
    }
  }

  /** The surviving markers are the topmost marked paths. */
  lemma MarkersAreTopmost(marks: seq<Stamped>, p: Path)
    requires WithinOneLifetime(marks)
    ensures p in AfterMarks(marks).deletes <==>
            MarkedAtOrAbove(marks, p) && (p == [] || !MarkedAtOrAbove(marks, Parent(p)))
  {
    MarksRefineTheList(marks);
    var m := AfterMarks(marks).deletes;
    assert CoveredBy(m, p) <==> MarkedAtOrAbove(marks, p);
    assert p != [] ==> (CoveredBy(m, Parent(p)) <==> MarkedAtOrAbove(marks, Parent(p)));
    if p in m {
      assert Covers(p, p);
      if p != [] && CoveredBy(m, Parent(p)) {
        var d :| d in m && Covers(d, Parent(p));
        CoversStep(d, p);
        assert false;
      }
    }
    if CoveredBy(m, p) && (p == [] || !CoveredBy(m, Parent(p))) {
      var d :| d in m && Covers(d, p);
      if p != [] {
        CoversStep(d, p);
        assert d == p;
      }
    }
  }

  // ---------------------------------------------------------------------------------------------
  // Runs of all operations
  // ---------------------------------------------------------------------------------------------

  datatype Op =
    | MarkDelete(path: Path, now: int)
    | MarkRename(oldPath: Path, newPath: Path, now: int)
    | Promote(path: Path, existing: set<Path>, now: int)
    | Reconcile(listed: set<Path>, now: int)
    | Clear(paths: set<Path>)
    | Query(now: int)

  function Apply(s: Markers, op: Op): Markers {
    match op
    case MarkDelete(p, now) => AfterMark(s, p, now).0
    case MarkRename(o, n, now) => AfterRename(s, o, n, now)
    case Promote(p, existing, now) => AfterPromote(s, p, existing, now).0
    case Reconcile(listed, now) => AfterReconcile(s, listed, now)
    case Clear(paths) => AfterClear(s, paths)
    case Query(now) => Pruned(s, now)
  }

  function Run(ops: seq<Op>): Markers {
    if ops == [] then NO_MARKERS else Apply(Run(ops[..|ops| - 1]), ops[|ops| - 1])
  }

  /** The paths whose delete marker, if still there, was last written by a rename. */
  ghost function RenameWritten(ops: seq<Op>): set<Path> {
    if ops == [] then {}
    else
      var before := RenameWritten(ops[..|ops| - 1]);
      var s := Run(ops[..|ops| - 1]);
      match ops[|ops| - 1]
      case MarkDelete(p, now) => if AfterMark(s, p, now).1 then before - {p} else before
      case MarkRename(o, n, now) => if Markable(o) && Markable(n) then before + {o} else before
      case Promote(p, existing, now) =>
        var (_, promoted) := AfterPromote(s, p, existing, now);
        if promoted != p then before - {promoted} else before
      case Reconcile(_, _) => before
      case Clear(_) => before
      case Query(_) => before
  }

  /** In every run, of two markers one above the other at least one was written by a rename. */
  lemma {:induction false} NestedMarkersComeFromRenames(ops: seq<Op>, a: Path, b: Path)
    requires a in Run(ops).deletes && b in Run(ops).deletes && Covers(a, b) && a != b
    ensures a in RenameWritten(ops) || b in RenameWritten(ops)
  {
    var before := ops[..|ops| - 1];
    var s := Run(before);
    if a in s.deletes && b in s.deletes {
      NestedMarkersComeFromRenames(before, a, b);
    }
    match ops[|ops| - 1]
    case MarkDelete(p, now) =>
    case MarkRename(o, n, now) =>
    case Promote(p, existing, now) =>
    case Reconcile(_, _) =>
    case Clear(_) =>
    case Query(_) =>
  }

  function TimeOf(op: Op): int {
    match op
    case MarkDelete(_, now) => now
    case MarkRename(_, _, now) => now
    case Promote(_, _, now) => now
    case Reconcile(_, now) => now
    case Query(now) => now
    case Clear(_) => 0
  }

  /** The path is listed by a reconciliation, or its markers are cleared. */
  predicate Releases(op: Op, p: Path) {
    (op.Reconcile? && p in op.listed) || (op.Clear? && p in op.paths)
  }

  predicate RenamesTo(op: Op, p: Path, now: int) {
    && op.MarkRename? && op.newPath == p && Markable(op.oldPath) && Markable(p)
    && now - op.now <= 120_000
  }

  /** The i-th operation renamed something to p within the lifetime of a marker, and nothing has released p since. */
  ghost predicate PreservedBy(ops: seq<Op>, i: int, p: Path, now: int) {
    0 <= i < |ops| && RenamesTo(ops[i], p, now) && forall j :: i < j < |ops| ==> !Releases(ops[j], p)
  }

  ghost predicate Preserved(ops: seq<Op>, p: Path, now: int) {
    exists i :: PreservedBy(ops, i, p, now)
  }

  lemma PreservedByLast(ops: seq<Op>, p: Path, now: int)
    requires ops != []
    ensures var rest, last := ops[..|ops| - 1], ops[|ops| - 1];
            Preserved(ops, p, now) <==> RenamesTo(last, p, now) || (!Releases(last, p) && Preserved(rest, p, now))
  {
    var n := |ops| - 1;
    var rest, last := ops[..n], ops[n];
    if RenamesTo(last, p, now) {
      assert PreservedBy(ops, n, p, now);
    } else if !Releases(last, p) && Preserved(rest, p, now) {
      var i :| PreservedBy(rest, i, p, now);
      assert PreservedBy(ops, i, p, now);
    }
    if i :| PreservedBy(ops, i, p, now) {
      if i < n {
        assert PreservedBy(rest, i, p, now);
      }
    }
  }

  /** The clock readings of the operations do not decrease and do not lie after now. */
  ghost predicate Timed(ops: seq<Op>, now: int) {
    && (forall i :: 0 <= i < |ops| && !ops[i].Clear? ==> TimeOf(ops[i]) <= now)
    && forall i, j :: 0 <= i < j < |ops| && !ops[i].Clear? && !ops[j].Clear? ==> TimeOf(ops[i]) <= TimeOf(ops[j])
  }

  lemma StaleRename(ops: seq<Op>, p: Path, now: int)
    requires ops != [] && Timed(ops, now)
    requires !ops[|ops| - 1].Clear? && now - TimeOf(ops[|ops| - 1]) > 120_000
    ensures !Preserved(ops[..|ops| - 1], p, now)
  {
    var rest := ops[..|ops| - 1];
    forall i ensures !PreservedBy(rest, i, p, now) {
      assert 0 <= i < |rest| ==> rest[i] == ops[i];
    }
  }

  /** A live preserve marker names exactly the targets of recent renames that nothing has released since. */
  lemma {:induction false} PreservedIff(ops: seq<Op>, now: int, p: Path)
    requires Timed(ops, now)
    ensures p in Pruned(Run(ops), now).preserves <==> Preserved(ops, p, now)
  {
    if ops != [] {
      var rest, last := ops[..|ops| - 1], ops[|ops| - 1];
      PreservedIff(rest, now, p);
      PreservedByLast(ops, p, now);
      assert !last.Clear? ==> TimeOf(last) <= now;
      if last.MarkRename? && now - last.now > 120_000 {
        StaleRename(ops, p, now);
      }
    }
  }

  lemma RefusedByMarkers(s: Markers, p: Path, now: int)
    requires Markable(p)
    ensures !AfterMark(s, p, now).1 <==>
            || (exists q :: q in Pruned(s, now).preserves && (Covers(q, p) || Covers(p, q)))
            || (exists d :: d in Pruned(s, now).deletes && Covers(d, p))
  {
  }

  /**
   From a rename until its target is listed, cleared or expires, no delete is accepted at, above or
   below the target; and the only other reason to refuse one is a live marker at or above it.
  */
  lemma RefusedIff(ops: seq<Op>, now: int, p: Path)
    requires Timed(ops, now) && Markable(p)
    ensures !AfterMark(Run(ops), p, now).1 <==>
            || (exists q :: Preserved(ops, q, now) && (Covers(q, p) || Covers(p, q)))
            || (exists d :: d in Pruned(Run(ops), now).deletes && Covers(d, p))
  {
    var live := Pruned(Run(ops), now).preserves;
    RefusedByMarkers(Run(ops), p, now);
    if q :| q in live && (Covers(q, p) || Covers(p, q)) {
      PreservedIff(ops, now, q);
    }
    if q :| Preserved(ops, q, now) && (Covers(q, p) || Covers(p, q)) {
      PreservedIff(ops, now, q);
      assert q in live;
    }
  }

  /** No marker is at the root. */
  ghost predicate CleanMarkers(s: Markers) {
    [] !in s.deletes && [] !in s.preserves
  }

  lemma {:induction false} RunIsClean(ops: seq<Op>)
    ensures CleanMarkers(Run(ops))
  {
    if ops != [] {
      RunIsClean(ops[..|ops| - 1]);
      if ops[|ops| - 1].Promote? && ops[|ops| - 1].path != [] {
        ShallowestMissingIsMissing(ops[|ops| - 1].existing, ops[|ops| - 1].path, 1);
      }
    }
  }

  // ---------------------------------------------------------------------------------------------
  // Promotion
  // ---------------------------------------------------------------------------------------------

  lemma {:induction false} ShallowestMissingIsMissing(existing: set<Path>, p: Path, k: nat)
    requires 1 <= k && p != []
    ensures var r := ShallowestMissing(existing, p, k);
            Covers(r, p) && r != [] && (r == p || r !in existing || Ignored(r))
    ensures forall a :: Covers(a, p) && k <= |a| < |ShallowestMissing(existing, p, k)| ==>
              a in existing && !Ignored(a)
    decreases |p| - k
  {
    if k < |p| && EntryExists(existing, p[..k]) {
      ShallowestMissingIsMissing(existing, p, k + 1);
      forall a | Covers(a, p) && |a| == k ensures a in existing && !Ignored(a) {
        assert a == p[..k];
      }
    }
  }

  predicate PromotionBlocked(s: Markers, p: Path, existing: set<Path>, now: int) {
    || !Markable(p)
    || ShallowestMissing(existing, p, 1) == p
    || RelatedTo(Pruned(s, now).preserves, ShallowestMissing(existing, p, 1))
  }

  ghost predicate CoverageKept(before: map<Path, int>, after: map<Path, int>) {
    forall q :: CoveredBy(before, q) ==> CoveredBy(after, q)
  }

  predicate MarkedStrictlyAbove(m: map<Path, int>, p: Path) {
    exists d :: d in m && Covers(d, p) && d != p
  }

  /**
   A promotion keeps every covered path covered exactly when nothing strictly above the promoted
   path was marked: a marker above it is replaced by the narrower one.
  */
  lemma PromotionKeepsCoverageIff(s: Markers, p: Path, existing: set<Path>, now: int)
    requires !PromotionBlocked(s, p, existing, now)
    ensures var (after, promoted) := AfterPromote(s, p, existing, now);
            CoverageKept(Pruned(s, now).deletes, after.deletes) <==>
            !MarkedStrictlyAbove(Pruned(s, now).deletes, promoted)
  {
    var before := Pruned(s, now).deletes;
    var (after, promoted) := AfterPromote(s, p, existing, now);
    if MarkedStrictlyAbove(before, promoted) {
      var d :| d in before && Covers(d, promoted) && d != promoted;
      assert CoveredBy(before, d) by { assert Covers(d, d); }
      if CoveredBy(after.deletes, d) {
        var e :| e in after.deletes && Covers(e, d);
        CoversTransitive(e, d, promoted);
        assert false;
      }
    } else {
      forall q | CoveredBy(before, q) ensures CoveredBy(after.deletes, q) {
        var d :| d in before && Covers(d, q);
        if Covers(promoted, d) {
          CoversTransitive(promoted, d, q);
          assert promoted in after.deletes;
        } else if Covers(d, promoted) {
          assert false;
        } else {
          assert d in after.deletes;
        }
      }
    }
  }

  /**
   When the path's own marker is still there and the set is prefix free, promotion only widens the
   coverage, keeps the set prefix free and, on a parent-closed disk, covers no existing item.
  */
  lemma PromotionOfOwnMarker(s: Markers, p: Path, existing: set<Path>, now: int)
    requires p in Pruned(s, now).deletes && PrefixFree(Pruned(s, now).deletes)
    requires Markable(p)
    requires forall q :: q in existing && |q| > 1 ==> Parent(q) in existing
    ensures var (after, promoted) := AfterPromote(s, p, existing, now);
            && CoverageKept(Pruned(s, now).deletes, after.deletes)
            && PrefixFree(Pruned(after, now).deletes)
            && (promoted != p ==> forall q :: q in existing && !Ignored(q) ==> !Covers(promoted, q))
  {
    var before := Pruned(s, now);
    var (after, promoted) := AfterPromote(s, p, existing, now);
    ShallowestMissingIsMissing(existing, p, 1);
    if !PromotionBlocked(s, p, existing, now) {
      if MarkedStrictlyAbove(before.deletes, promoted) {
        var d :| d in before.deletes && Covers(d, promoted) && d != promoted;
        CoversTransitive(d, promoted, p);
        assert false;
      }
      PromotionKeepsCoverageIff(s, p, existing, now);
      forall q | q in existing && !Ignored(q) ensures !Covers(promoted, q) {
        if Covers(promoted, q) {
          AboveExisting(existing, promoted, q);
          if Ignored(promoted) {
            IgnoredBelow(promoted, q);
          }
          assert false;
        }
      }
    } else {
      forall q | CoveredBy(before.deletes, q) ensures CoveredBy(after.deletes, q) {
        var d :| d in before.deletes && Covers(d, q);
        assert d in after.deletes;
      }
    }
  }

  lemma {:induction false} AboveExisting(existing: set<Path>, a: Path, q: Path)
    requires forall p :: p in existing && |p| > 1 ==> Parent(p) in existing
    requires q in existing && a != [] && Covers(a, q)
    ensures a in existing
    decreases |q|
  {
    if a != q {
      CoversStep(a, q);
      AboveExisting(existing, a, Parent(q));
    }
  }

  // ---------------------------------------------------------------------------------------------
  // Reconciliation
  // ---------------------------------------------------------------------------------------------

  ghost predicate AncestorClosed(listed: set<Path>) {
    forall a, p :: p in listed && a != [] && Covers(a, p) ==> a in listed
  }

  /** A live delete marker is dropped exactly when nothing at or under it is listed. */
  lemma ReconcileDropsIffUnlisted(s: Markers, listed: set<Path>, now: int, d: Path)
    requires AncestorClosed(listed)
    requires d in Pruned(s, now).deletes && d != []
    ensures d !in AfterReconcile(s, listed, now).deletes <==> forall p :: p in listed ==> !Covers(d, p)
  {
    assert Covers(d, d);
  }

  /** A path that is listed and covered stays covered through a reconciliation. */
  lemma ReconcileKeepsListedCoverage(s: Markers, listed: set<Path>, now: int, p: Path)
    requires AncestorClosed(listed) && [] !in Pruned(s, now).deletes
    requires p in listed && CoveredBy(Pruned(s, now).deletes, p)
    ensures CoveredBy(AfterReconcile(s, listed, now).deletes, p)
  {
    var d :| d in Pruned(s, now).deletes && Covers(d, p);
    assert d in AfterReconcile(s, listed, now).deletes;
  }

  // ---------------------------------------------------------------------------------------------
  // The shared marker dictionaries
  // ---------------------------------------------------------------------------------------------

  class PendingMutations {
    var deletes: map<Path, int>
    var preserves: map<Path, int>

    ghost function State(): Markers
      reads this
    {
      Markers(deletes, preserves)
    }

    constructor ()
      ensures State() == NO_MARKERS
    {
      deletes, preserves := map[], map[];
    }

    method Prune(now: int)
      modifies this
      ensures State() == Pruned(old(State()), now)
    {
      var expired := set p | p in deletes && deletes[p] < now - PENDING_MUTATION_TTL_MS;
      RemoveDeletes(expired);
      expired := set p | p in preserves && preserves[p] < now - PENDING_MUTATION_TTL_MS;
      RemovePreserves(expired);
    }

    method RemoveDeletes(doomed: set<Path>)
      modifies `deletes
      ensures deletes == old(deletes) - doomed
    {
      var left := doomed;
      while left != {}
        invariant left <= doomed
        invariant deletes == old(deletes) - (doomed - left)
      {
        var path :| path in left;
        deletes := deletes - {path};
        left := left - {path};
      }
    }

    method RemovePreserves(doomed: set<Path>)
      modifies `preserves
      ensures preserves == old(preserves) - doomed
    {
      var left := doomed;
      while left != {}
        invariant left <= doomed
        invariant preserves == old(preserves) - (doomed - left)
      {
        var path :| path in left;
        preserves := preserves - {path};
        left := left - {path};
      }
    }

    method MarkProviderDeletePending(path: Path, now: int) returns (accepted: bool)
      modifies this
      ensures (State(), accepted) == AfterMark(old(State()), path, now)
    {
      if path == [] || Ignored(path) {
        return false;
      }
      Prune(now);
      if RelatedTo(preserves, path) || CoveredBy(deletes, path) {
        return false;
      }
      ghost var pruned := State();
      var below := set existing | existing in deletes && Covers(path, existing);
      RemoveDeletes(below);
      assert deletes == OutsideOf(pruned.deletes, path);
      deletes := deletes[path := now];
      return true;
    }

    method MarkProviderRenamePending(oldPath: Path, newPath: Path, now: int)
      modifies this
      ensures State() == AfterRename(old(State()), oldPath, newPath, now)
    {
      if oldPath == [] || newPath == [] || Ignored(oldPath) || Ignored(newPath) {
        return;
      }
      Prune(now);
      deletes := deletes[oldPath := now];
      preserves := preserves[newPath := now];
    }

    method ClearProviderMutationPending(paths: seq<Path>)
      modifies this
      ensures State() == AfterClear(old(State()), set p | p in paths)
    {
      ghost var done: set<Path> := {};
      for i := 0 to |paths|
        invariant forall p :: p in done <==> p in paths[..i]
        invariant deletes == old(deletes) - done && preserves == old(preserves) - done
      {
        deletes := deletes - {paths[i]};
        preserves := preserves - {paths[i]};
        done := done + {paths[i]};
        assert paths[..i + 1] == paths[..i] + [paths[i]];
      }
      assert paths[..|paths|] == paths;
      assert done == set p | p in paths;
    }

    method ProviderMutationIsPending(path: Path, now: int) returns (pending: bool)
      modifies this
      ensures State() == if path == [] then old(State()) else Pruned(old(State()), now)
      ensures pending <==> path != [] && (path in deletes || path in preserves)
    {
      if path == [] {
        return false;
      }
      Prune(now);
      return path in deletes || path in preserves;
    }

    method ProviderDeleteIsPending(path: Path, now: int) returns (pending: bool)
      modifies this
      ensures State() == if path == [] then old(State()) else Pruned(old(State()), now)
      ensures pending <==> path != [] && path in deletes
    {
      if path == [] {
        return false;
      }
      Prune(now);
      return path in deletes;
    }

    method PromoteProviderDeleteToMissingAncestor(path: Path, existing: set<Path>, now: int)
      returns (promoted: Path)
      modifies this
      ensures (State(), promoted) == AfterPromote(old(State()), path, existing, now)
    {
      if path == [] || Ignored(path) {
        return path;
      }
      promoted := FindShallowestMissing(existing, path);
      if promoted == path {
        return;
      }
      Prune(now);
      if RelatedTo(preserves, promoted) {
        return path;
      }
      ghost var pruned := State();
      var related := set d | d in deletes && (Covers(d, promoted) || Covers(promoted, d));
      RemoveDeletes(related);
      assert deletes == Unrelated(pruned.deletes, promoted);
      deletes := deletes[promoted := now];
    }

    method ReconcilePendingProviderMutations(listed: set<Path>, now: int)
      modifies this
      ensures State() == AfterReconcile(old(State()), listed, now)
    {
      Prune(now);
      ghost var pruned := State();
      var gone := set p | p in deletes && p !in listed;
      RemoveDeletes(gone);
      var arrived := set p | p in preserves && p in listed;
      RemovePreserves(arrived);
      assert deletes == AfterReconcile(old(State()), listed, now).deletes;
      assert preserves == AfterReconcile(old(State()), listed, now).preserves;
    }
  }

  /** The loop over growing prefixes that finds the shallowest missing ancestor. */
  method FindShallowestMissing(existing: set<Path>, path: Path) returns (r: Path)
    requires path != []
    ensures r == ShallowestMissing(existing, path, 1)
  {
    if |path| <= 1 {
      return path;
    }
    var length := 1;
    while length < |path|
      invariant 1 <= length <= |path|
      invariant ShallowestMissing(existing, path, 1) == ShallowestMissing(existing, path, length)
    {
      if !EntryExists(existing, path[..length]) {
        return path[..length];
      }
      length := length + 1;
    }
    return path;
  }
}
