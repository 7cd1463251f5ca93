/** Which writes a removal hides, read off the merged view. */
module MergeRemovals {
  import opened Wrappers
  import opened Sorting
  import opened Merge
  import opened MergeOrder
  import opened MergeConflicts

  // ---------------------------------------------------------------------------------------------
  // The candidates for one path
  // ---------------------------------------------------------------------------------------------

  /** The snapshot writes, or removes, the path with this candidate. */
  ghost predicate Offers(s: Snapshot, slot: Slot, c: Candidate) {
    && c.key == s.key && c.root == s.root && s.root.localOnly == slot.localOnly
    && if slot.tombstone then c.file.None? && Tombstone(slot.path, c.time) in s.tombstones
       else c.time == s.root.publishedAt && c.file.Some? && c.file.value.path == slot.path && c.file.value in s.files
  }

  lemma {:induction false} FilesOffered(s: Snapshot, files: seq<File>, ignored: string -> bool, slot: Slot, c: Candidate)
    ensures c in InSlot(FileOffers(s, files, ignored), slot) <==>
            && !slot.tombstone && !ignored(slot.path) && s.root.localOnly == slot.localOnly
            && exists f :: f in files && f.path == slot.path && c == WriteOf(s, f)
  {
    if files != [] {
      var rest, f := files[..|files| - 1], files[|files| - 1];
      assert files == rest + [f];
      FilesOffered(s, rest, ignored, slot, c);
      if !ignored(f.path) {
        LastOffer(FileOffers(s, rest, ignored), Offer(Slot(f.path, false, s.root.localOnly), WriteOf(s, f)), slot, c);
      } else {
        assert FileOffers(s, rest, ignored) + [] == FileOffers(s, rest, ignored);
      }
    }
  }

  lemma {:induction false} TombstonesOffered(s: Snapshot, tombstones: seq<Tombstone>, ignored: string -> bool, slot: Slot, c: Candidate)
    ensures c in InSlot(TombstoneOffers(s, tombstones, ignored), slot) <==>
            && slot.tombstone && !ignored(slot.path) && s.root.localOnly == slot.localOnly
            && exists t :: t in tombstones && t.path == slot.path && c == TombstoneOf(s, t)
  {
    if tombstones != [] {
      var rest, t := tombstones[..|tombstones| - 1], tombstones[|tombstones| - 1];
      assert tombstones == rest + [t];
      TombstonesOffered(s, rest, ignored, slot, c);
      if !ignored(t.path) {
        LastOffer(TombstoneOffers(s, rest, ignored), Offer(Slot(t.path, true, s.root.localOnly), TombstoneOf(s, t)), slot, c);
      } else {
        assert TombstoneOffers(s, rest, ignored) + [] == TombstoneOffers(s, rest, ignored);
      }
    }
  }

  lemma LastOffer(offers: seq<Offer>, o: Offer, slot: Slot, c: Candidate)
    ensures c in InSlot(offers + [o], slot) <==> c in InSlot(offers, slot) || (o.slot == slot && o.candidate == c)
  {
    assert (offers + [o])[..|offers|] == offers;
  }

  lemma OwnOffers(s: Snapshot, authorized: set<Key>, ignored: string -> bool, slot: Slot, c: Candidate)
    ensures c in OwnCandidates(s, authorized, ignored, slot) <==>
            s.key in authorized && !ignored(slot.path) && Offers(s, slot, c)
  {
    FilesOffered(s, s.files, ignored, slot, c);
    TombstonesOffered(s, s.tombstones, ignored, slot, c);
    InSlotConcat(FileOffers(s, s.files, ignored), TombstoneOffers(s, s.tombstones, ignored), slot);
    if s.key in authorized && !ignored(slot.path) && Offers(s, slot, c) {
      if slot.tombstone {
        assert c == TombstoneOf(s, Tombstone(slot.path, c.time));
      } else {
        assert c == WriteOf(s, c.file.value);
      }
    }
  }

  /** The candidates for a path are exactly what the authorized snapshots write or remove there. */
  lemma {:induction false} CandidatesAre(snapshots: seq<Snapshot>, authorized: set<Key>, ignored: string -> bool, slot: Slot,
                                         c: Candidate)
    ensures c in CandidatesFor(snapshots, authorized, ignored, slot) <==>
            exists s :: s in snapshots && s.key in authorized && !ignored(slot.path) && Offers(s, slot, c)
  {
    if snapshots != [] {
      var rest, last := snapshots[..|snapshots| - 1], snapshots[|snapshots| - 1];
      assert snapshots == rest + [last];
      CandidatesAre(rest, authorized, ignored, slot, c);
      LastCandidates(snapshots, authorized, ignored, slot);
      OwnOffers(last, authorized, ignored, slot, c);
    }
  }

  // ---------------------------------------------------------------------------------------------
  // The winners for one path
  // ---------------------------------------------------------------------------------------------

  function WinnerFor(snapshots: seq<Snapshot>, authorized: set<Key>, ignored: string -> bool, slot: Slot): Option<Candidate> {
    WinnerIn(CandidatesFor(snapshots, authorized, ignored, slot))
  }

  /** The winning write: that of the source roots, or a local-only one where they neither write nor remove. */
  function WinningWrite(snapshots: seq<Snapshot>, authorized: set<Key>, ignored: string -> bool, path: string): Option<Candidate> {
    var write := WinnerFor(snapshots, authorized, ignored, Slot(path, false, false));
    if write.Some? || WinnerFor(snapshots, authorized, ignored, Slot(path, true, false)).Some? then write
    else WinnerFor(snapshots, authorized, ignored, Slot(path, false, true))
  }

  /** The winning tombstone: that of the source roots, or a local-only one where nothing else is said. */
  function WinningTombstone(snapshots: seq<Snapshot>, authorized: set<Key>, ignored: string -> bool, path: string): Option<Candidate> {
    var tombstone := WinnerFor(snapshots, authorized, ignored, Slot(path, true, false));
    if tombstone.Some? || WinningWrite(snapshots, authorized, ignored, path).Some? then tombstone
    else WinnerFor(snapshots, authorized, ignored, Slot(path, true, true))
  }

  /** The tables from which the view is read hold these winners. */
  lemma FinishedIs(snapshots: seq<Snapshot>, authorized: set<Key>, ignored: string -> bool, path: string)
    ensures var (writes, tombstones) := Finished(snapshots, authorized, ignored);
            && WinningWrite(snapshots, authorized, ignored, path)
               == (if path in writes then Some(writes[path]) else None)
            && WinningTombstone(snapshots, authorized, ignored, path)
               == (if path in tombstones then Some(tombstones[path]) else None)
  {
    var offers := AllOffers(snapshots, authorized, ignored);
    forall tombstone, localOnly
      ensures Lookup(AddOffers(offers), Slot(path, tombstone, localOnly))
              == WinnerFor(snapshots, authorized, ignored, Slot(path, tombstone, localOnly))
    {
      LookupIsWinner(offers, Slot(path, tombstone, localOnly));
    }
    LookupsDecide(AddOffers(offers), path);
  }

  lemma LookupsDecide(t: Tables, path: string)
    ensures (if path in WithLocalWrites(t) then Some(WithLocalWrites(t)[path]) else None)
            == if Lookup(t, Slot(path, false, false)).Some? || Lookup(t, Slot(path, true, false)).Some?
               then Lookup(t, Slot(path, false, false)) else Lookup(t, Slot(path, false, true))
    ensures (if path in WithLocalTombstones(t) then Some(WithLocalTombstones(t)[path]) else None)
            == if Lookup(t, Slot(path, true, false)).Some? || path in WithLocalWrites(t)
               then Lookup(t, Slot(path, true, false)) else Lookup(t, Slot(path, true, true))
  {
  }

  // ---------------------------------------------------------------------------------------------
  // What the view shows
  // ---------------------------------------------------------------------------------------------

  /** The root of a has seen that of b, and not the other way round. */
  predicate Descends(a: Candidate, b: Candidate) {
    && !SameRoot(a.root.cid, b.root.cid)
    && RootObserves(a.key, a.root, b.key, b.root) && !RootObserves(b.key, b.root, a.key, a.root)
  }

  lemma DescendsIff(a: Candidate, b: Candidate)
    ensures Descends(a, b) <==> RelationOf(a, b).LeftDescends?
    ensures Descends(b, a) <==> RelationOf(a, b).RightDescends?
  {
  }

  /**
   The winning write w is shown despite the winning tombstone t: one root of one AppKey made both;
   or the roots differ, that of t does not descend from that of w, and either that of w descends
   from that of t or w is later than the removal.
  */
  ghost predicate Survives(w: Candidate, t: Candidate) {
    if SameRoot(t.root.cid, w.root.cid) then t.key == w.key
    else !Descends(t, w) && (Descends(w, t) || w.time > t.time)
  }

  /**
   The view shows the winning write exactly when no winning tombstone stands against it or it
   survives that one; a write that does not is listed as hidden, together with the tombstone, and
   every path that is removed and not shown is listed as removed.
  */
  lemma ViewIsExact(snapshots: seq<Snapshot>, authorized: set<Key>, ignored: string -> bool, path: string)
    ensures var view := MergedView(snapshots, authorized, ignored);
            var w := WinningWrite(snapshots, authorized, ignored, path);
            var t := WinningTombstone(snapshots, authorized, ignored, path);
            var shown := w.Some? && (t.None? || Survives(w.value, t.value));
            && (path in view.files <==> shown)
            && (shown ==> view.files[path] == w.value)
            && (path in view.suppressed <==> w.Some? && !shown)
            && (path in view.suppressed ==> view.suppressed[path] == (w.value, t.value))
            && (path in view.tombstones <==> t.Some?)
            && (t.Some? ==> view.tombstones[path] == t.value)
            && (path in view.suppressedPaths <==> t.Some? && !shown)
  {
    var (writes, tombstones) := Finished(snapshots, authorized, ignored);
    FinishedIs(snapshots, authorized, ignored, path);
    if path in writes && path in tombstones {
      HiddenUnlessItSurvives(writes, tombstones, path);
    }
  }

  lemma HiddenUnlessItSurvives(writes: Table, tombstones: Table, path: string)
    requires path in writes && path in tombstones
    ensures Hidden(writes, tombstones, path) <==> !Survives(writes[path], tombstones[path])
  {
    DescendsIff(tombstones[path], writes[path]);
    SameRootFlips(tombstones[path].root.cid, writes[path].root.cid);
  }

  lemma SameRootFlips(a: Cid, b: Cid)
    ensures SameRoot(a, b) <==> SameRoot(b, a)
  {
  }

  /** The four cases for roots that differ, or that one AppKey published. */
  lemma RemovalCases(snapshots: seq<Snapshot>, authorized: set<Key>, ignored: string -> bool, path: string)
    requires WinningWrite(snapshots, authorized, ignored, path).Some? && WinningTombstone(snapshots, authorized, ignored, path).Some?
    ensures var view := MergedView(snapshots, authorized, ignored);
            var w := WinningWrite(snapshots, authorized, ignored, path).value;
            var t := WinningTombstone(snapshots, authorized, ignored, path).value;
            var removalSees := RootObserves(t.key, t.root, w.key, w.root);
            var writeSees := RootObserves(w.key, w.root, t.key, t.root);
            && (SameRoot(t.root.cid, w.root.cid) && t.key == w.key ==> path in view.files)
            && (!SameRoot(t.root.cid, w.root.cid) ==>
                  && (removalSees && !writeSees ==> path in view.suppressed && path !in view.files)
                  && (writeSees && !removalSees ==> path in view.files && view.files[path] == w)
                  && (removalSees == writeSees ==> (path in view.files <==> w.time > t.time)))
  {
    ViewIsExact(snapshots, authorized, ignored, path);
    SameRootFlips(WinningTombstone(snapshots, authorized, ignored, path).value.root.cid,
                  WinningWrite(snapshots, authorized, ignored, path).value.root.cid);
  }
}
