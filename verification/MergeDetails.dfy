/** What is recorded with each conflict of the merged view, and why it names the right roots. */
module MergeDetails {
  import opened Wrappers
  import opened Sorting
  import opened Merge
  import opened MergeOrder
  import opened MergeConflicts

  // ---------------------------------------------------------------------------------------------
  // The sides of a conflict
  // ---------------------------------------------------------------------------------------------

  lemma SidesAreOrdered()
    ensures TotalPreorder(SideBefore)
  {
    forall a: Side, b: Side ensures SideBefore(a, b) || SideBefore(b, a) {
      TextBeforeIsStrict(a.key, b.key);
      TextBeforeIsStrict(a.root.text, b.root.text);
      OrdinalTotal(a.content, b.content);
    }
    forall a: Side, b: Side, c: Side | SideBefore(a, b) && SideBefore(b, c) ensures SideBefore(a, c) {
      SidesAreTransitive(a, b, c);
    }
  }

  lemma SidesAreTransitive(a: Side, b: Side, c: Side)
    requires SideBefore(a, b) && SideBefore(b, c)
    ensures SideBefore(a, c)
  {
    if TextBefore(a.key, b.key) && TextBefore(b.key, c.key) {
      TextBeforeTransitive(a.key, b.key, c.key);
    } else if a.key == b.key == c.key && a.seqNo == b.seqNo == c.seqNo {
      if TextBefore(a.root.text, b.root.text) && TextBefore(b.root.text, c.root.text) {
        TextBeforeTransitive(a.root.text, b.root.text, c.root.text);
      } else if a.root.text == b.root.text == c.root.text {
        OrdinalTransitive(a.content, b.content, c.content);
      }
    }
  }

  function Identity(s: Side): (Key, nat, Cid, string) {
    (s.key, s.seqNo, s.root, s.content)
  }

  predicate Recorded(files: seq<Side>, s: Side) {
    exists i :: 0 <= i < |files| && Identity(files[i]) == Identity(s)
  }

  ghost predicate IsSideOf(s: Side, cands: set<Candidate>) {
    exists c :: c in cands && c.file.Some? && SideOf(c) == s
  }

  /** Sorted and without repetition, the sides are those of the candidates, and none is left out. */
  ghost predicate NamesExactly(files: seq<Side>, cands: set<Candidate>) {
    && Sorted(files, SideBefore) && DistinctBy(files, Identity)
    && (forall s :: s in files ==> IsSideOf(s, cands))
    && forall c :: c in cands ==> c.file.Some? && Recorded(files, SideOf(c))
  }

  lemma OneMoreSide(files: seq<Side>, cands: set<Candidate>, write: Candidate)
    requires NamesExactly(files, cands) && write.file.Some? && !Recorded(files, SideOf(write))
    ensures NamesExactly(AddSide(files, write), cands + {write})
  {
    var longer := files + [SideOf(write)];
    var sorted := Sort(longer, SideBefore);
    SidesAreOrdered();
    SortSorts(longer, SideBefore);
    SortElements(longer, SideBefore);
    SortDistinct(longer, SideBefore, Identity);
    forall s | s in sorted ensures IsSideOf(s, cands + {write}) {
      assert s in longer;
      if s in files {
        var c :| c in cands && c.file.Some? && SideOf(c) == s;
        assert c in cands + {write};
      } else {
        assert s == SideOf(write) && write in cands + {write};
      }
    }
    forall c | c in cands + {write} ensures c.file.Some? && Recorded(sorted, SideOf(c)) {
      if c in cands {
        var i :| 0 <= i < |files| && Identity(files[i]) == Identity(SideOf(c));
        StillRecorded(files[i], longer, sorted, SideOf(c));
      } else {
        StillRecorded(SideOf(write), longer, sorted, SideOf(c));
      }
    }
  }

  lemma StillRecorded(found: Side, longer: seq<Side>, sorted: seq<Side>, s: Side)
    requires found in longer && Identity(found) == Identity(s) && forall x :: x in sorted <==> x in longer
    ensures Recorded(sorted, s)
  {
    assert found in sorted;
    var k :| 0 <= k < |sorted| && sorted[k] == found;
  }

  /** Adding a side names one more candidate, also when its root and content are there already. */
  lemma AddSideNames(files: seq<Side>, cands: set<Candidate>, write: Candidate)
    requires NamesExactly(files, cands) && write.file.Some?
    ensures NamesExactly(AddSide(files, write), cands + {write})
  {
    if Recorded(files, SideOf(write)) {
      forall s | s in files ensures IsSideOf(s, cands + {write}) {
        var c :| c in cands && c.file.Some? && SideOf(c) == s;
        assert c in cands + {write};
      }
    } else {
      OneMoreSide(files, cands, write);
    }
  }

  // ---------------------------------------------------------------------------------------------
  // What the tables record
  // ---------------------------------------------------------------------------------------------

  /** The candidates that conflict with the one they meet, and those they meet. */
  function Met(cands: seq<Candidate>): set<Candidate> {
    var n := |cands| - 1;
    if n <= 0 then {}
    else
      var before := Winner(cands[..n]);
      Met(cands[..n]) + (if WriteConflict(cands[n], before) then {cands[n], before} else {})
  }

  lemma MetAfter(cands: seq<Candidate>, c: Candidate)
    requires cands != []
    ensures Met(cands + [c]) == Met(cands) + (if WriteConflict(c, Winner(cands)) then {c, Winner(cands)} else {})
    ensures Flagged(cands + [c]) <==> Flagged(cands) || WriteConflict(c, Winner(cands))
  {
    assert (cands + [c])[..|cands|] == cands;
  }

  lemma {:induction false} NobodyMet(cands: seq<Candidate>)
    requires !Flagged(cands)
    ensures Met(cands) == {}
  {
    if |cands| > 1 {
      NobodyMet(cands[..|cands| - 1]);
    }
  }

  lemma DetailAfter(t: Tables, o: Offer, path: string)
    ensures var noted := o.slot == Slot(path, false, false) && path in t.writes && WriteConflict(o.candidate, t.writes[path]);
            var next := AddOffer(t, o);
            && (path in next.details <==> path in t.details || noted)
            && (noted ==> next.details[path] == NoteWrite(DetailAt(t.details, path, WriteWrite), o.candidate, t.writes[path]))
            && (!noted && path in t.details ==> next.details[path] == t.details[path])
  {
  }

  /** A write conflict between these candidates and no deletion. */
  ghost predicate DescribesWrites(d: Conflict, cands: set<Candidate>) {
    d.kind.WriteWrite? && d.removal.None? && NamesExactly(d.files, cands)
  }

  lemma NoteNames(d: Conflict, cands: set<Candidate>, candidate: Candidate, existing: Candidate)
    requires DescribesWrites(d, cands) && WriteConflict(candidate, existing)
    ensures DescribesWrites(NoteWrite(d, candidate, existing), cands + {candidate, existing})
  {
    AddSideNames(d.files, cands, candidate);
    AddSideNames(AddSide(d.files, candidate), cands + {candidate}, existing);
    assert cands + {candidate} + {existing} == cands + {candidate, existing};
  }

  lemma {:induction false} TablesDescribe(offers: seq<Offer>, path: string)
    ensures var cands := InSlot(offers, Slot(path, false, false));
            && (path in AddOffers(offers).details <==> Flagged(cands))
            && DescribesWrites(DetailAt(AddOffers(offers).details, path, WriteWrite), Met(cands))
  {
    if offers != [] {
      var slot := Slot(path, false, false);
      var rest, last := offers[..|offers| - 1], offers[|offers| - 1];
      var cands, t := InSlot(rest, slot), AddOffers(rest);
      TablesDescribe(rest, path);
      LookupIsWinner(rest, slot);
      DetailAfter(t, last, path);
      if last.slot == slot && cands != [] {
        MetAfter(cands, last.candidate);
        if WriteConflict(last.candidate, Winner(cands)) {
          NoteNames(DetailAt(t.details, path, WriteWrite), Met(cands), last.candidate, Winner(cands));
        }
      } else {
        assert last.slot != slot ==> cands + [] == cands;
      }
    }
  }

  // ---------------------------------------------------------------------------------------------
  // What the view records
  // ---------------------------------------------------------------------------------------------

  predicate WritesHaveFiles(offers: seq<Offer>) {
    forall i :: 0 <= i < |offers| && !offers[i].slot.tombstone ==> offers[i].candidate.file.Some?
  }

  lemma {:induction false} FileOffersHaveFiles(s: Snapshot, files: seq<File>, ignored: string -> bool)
    ensures WritesHaveFiles(FileOffers(s, files, ignored))
  {
    if files != [] {
      FileOffersHaveFiles(s, files[..|files| - 1], ignored);
    }
  }

  lemma {:induction false} TombstonesAreNoWrites(s: Snapshot, tombstones: seq<Tombstone>, ignored: string -> bool)
    ensures WritesHaveFiles(TombstoneOffers(s, tombstones, ignored))
  {
    if tombstones != [] {
      TombstonesAreNoWrites(s, tombstones[..|tombstones| - 1], ignored);
    }
  }

  lemma {:induction false} OfferedWritesHaveFiles(snapshots: seq<Snapshot>, authorized: set<Key>, ignored: string -> bool)
    ensures WritesHaveFiles(AllOffers(snapshots, authorized, ignored))
  {
    if snapshots != [] {
      var last := snapshots[|snapshots| - 1];
      OfferedWritesHaveFiles(snapshots[..|snapshots| - 1], authorized, ignored);
      FileOffersHaveFiles(last, last.files, ignored);
      TombstonesAreNoWrites(last, last.tombstones, ignored);
    }
  }

  lemma {:induction false} InSlotHaveFiles(offers: seq<Offer>, slot: Slot)
    requires WritesHaveFiles(offers) && !slot.tombstone
    ensures forall c :: c in InSlot(offers, slot) ==> c.file.Some?
  {
    if offers != [] {
      InSlotHaveFiles(offers[..|offers| - 1], slot);
    }
  }

  lemma TableHasFiles(offers: seq<Offer>, slot: Slot)
    requires WritesHaveFiles(offers) && !slot.tombstone && Lookup(AddOffers(offers), slot).Some?
    ensures Lookup(AddOffers(offers), slot).value.file.Some?
  {
    LookupIsWinner(offers, slot);
    InSlotHaveFiles(offers, slot);
    WinnerIsOne(InSlot(offers, slot));
  }

  lemma WinningWriteHasFile(snapshots: seq<Snapshot>, authorized: set<Key>, ignored: string -> bool, path: string)
    requires path in Finished(snapshots, authorized, ignored).0
    ensures Finished(snapshots, authorized, ignored).0[path].file.Some?
  {
    var offers := AllOffers(snapshots, authorized, ignored);
    OfferedWritesHaveFiles(snapshots, authorized, ignored);
    if path in AddOffers(offers).writes {
      TableHasFiles(offers, Slot(path, false, false));
    } else {
      TableHasFiles(offers, Slot(path, false, true));
    }
  }

  ghost predicate WroteOne(cands: set<Candidate>, tombstone: Candidate) {
    exists c :: c in cands && c.key == tombstone.key && SameRoot(c.root.cid, tombstone.root.cid)
  }

  lemma BarrierIff(d: Conflict, cands: set<Candidate>, tombstone: Candidate)
    requires NamesExactly(d.files, cands)
    ensures IsBarrier(d, tombstone) <==> WroteOne(cands, tombstone)
  {
    if i :| 0 <= i < |d.files| && d.files[i].key == tombstone.key && SameRoot(d.files[i].root, tombstone.root.cid) {
      assert IsSideOf(d.files[i], cands);
    }
    if c :| c in cands && c.key == tombstone.key && SameRoot(c.root.cid, tombstone.root.cid) {
      var i :| 0 <= i < |d.files| && Identity(d.files[i]) == Identity(SideOf(c));
    }
  }

  /** The winning tombstone competes with the winning write, and its root wrote none of the files met. */
  ghost predicate Deleted(snapshots: seq<Snapshot>, authorized: set<Key>, ignored: string -> bool, path: string) {
    && DeleteNoted(snapshots, authorized, ignored, path)
    && !WroteOne(Met(CandidatesFor(snapshots, authorized, ignored, Slot(path, false, false))),
                 Finished(snapshots, authorized, ignored).1[path])
  }

  /** The candidates a conflict of the path is about. */
  ghost function Parties(snapshots: seq<Snapshot>, authorized: set<Key>, ignored: string -> bool, path: string): set<Candidate> {
    Met(CandidatesFor(snapshots, authorized, ignored, Slot(path, false, false)))
    + (if Deleted(snapshots, authorized, ignored, path) then {Finished(snapshots, authorized, ignored).0[path]} else {})
  }

  /**
   Exactly the conflicting paths have a record.  It names every write that met a conflicting one and
   that one, and tells of a deletion exactly when the winning tombstone is concurrent with the
   winning write and does not come from a root that wrote one of the files.
  */
  lemma DetailsAreExact(snapshots: seq<Snapshot>, authorized: set<Key>, ignored: string -> bool, path: string)
    ensures var view := MergedView(snapshots, authorized, ignored);
            && (path in view.details <==> path in view.conflicts)
            && (path in view.details ==>
                  var d, deleted := view.details[path], Deleted(snapshots, authorized, ignored, path);
                  && (d.kind.WriteDelete? <==> deleted)
                  && d.removal == (if deleted then Some(RemovalOf(view.tombstones[path])) else None)
                  && NamesExactly(d.files, Parties(snapshots, authorized, ignored, path)))
  {
    var offers := AllOffers(snapshots, authorized, ignored);
    var met := Met(CandidatesFor(snapshots, authorized, ignored, Slot(path, false, false)));
    var details := AddOffers(offers).details;
    TablesDescribe(offers, path);
    ReportedIff(snapshots, authorized, ignored, path);
    if DeleteNoted(snapshots, authorized, ignored, path) {
      var (writes, tombstones) := Finished(snapshots, authorized, ignored);
      var d := DetailAt(details, path, WriteDelete);
      WinningWriteHasFile(snapshots, authorized, ignored, path);
      BarrierIff(d, met, tombstones[path]);
      AddSideNames(d.files, met, writes[path]);
    }
  }

  lemma {:induction false} ConflictingPair(cands: seq<Candidate>) returns (a: Candidate, b: Candidate)
    requires Flagged(cands)
    ensures a in Met(cands) && b in Met(cands) && WriteConflict(a, b)
  {
    var n := |cands| - 1;
    if Flagged(cands[..n]) {
      a, b := ConflictingPair(cands[..n]);
    } else {
      a, b := cands[n], Winner(cands[..n]);
    }
  }

  lemma TwoSides(files: seq<Side>, cands: set<Candidate>, a: Candidate, b: Candidate)
    requires NamesExactly(files, cands) && a in cands && b in cands && WriteConflict(a, b)
    ensures |files| >= 2
  {
    assert Recorded(files, SideOf(a)) && Recorded(files, SideOf(b));
    var i :| 0 <= i < |files| && Identity(files[i]) == Identity(SideOf(a));
    var j :| 0 <= j < |files| && Identity(files[j]) == Identity(SideOf(b));
    assert !SameRoot(a.root.cid, b.root.cid);
  }

  lemma OtherRoots(files: seq<Side>, cands: set<Candidate>, write: Candidate, tombstone: Candidate)
    requires NamesExactly(files, cands + {write}) && !WroteOne(cands, tombstone) && ConcurrentEdits(write, tombstone)
    ensures |files| >= 1
    ensures forall s :: s in files ==> !(s.key == tombstone.key && SameRoot(s.root, tombstone.root.cid))
  {
    assert write in cands + {write};
    assert Recorded(files, SideOf(write));
    forall s | s in files ensures !(s.key == tombstone.key && SameRoot(s.root, tombstone.root.cid)) {
      var c :| c in cands + {write} && c.file.Some? && SideOf(c) == s;
    }
  }

  /** A record always names two parties, and the root of its deletion is none of those that wrote. */
  lemma PartiesDiffer(snapshots: seq<Snapshot>, authorized: set<Key>, ignored: string -> bool, path: string)
    requires path in MergedView(snapshots, authorized, ignored).details
    ensures var d := MergedView(snapshots, authorized, ignored).details[path];
            && (d.removal.None? ==> |d.files| >= 2)
            && (d.removal.Some? ==> |d.files| >= 1)
            && forall s :: d.removal.Some? && s in d.files ==>
                 !(s.key == d.removal.value.key && SameRoot(s.root, d.removal.value.root))
  {
    var view := MergedView(snapshots, authorized, ignored);
    var cands := CandidatesFor(snapshots, authorized, ignored, Slot(path, false, false));
    DetailsAreExact(snapshots, authorized, ignored, path);
    if Deleted(snapshots, authorized, ignored, path) {
      OtherRoots(view.details[path].files, Met(cands), Finished(snapshots, authorized, ignored).0[path], view.tombstones[path]);
    } else {
      NotDeletedHasMet(snapshots, authorized, ignored, path);
      var a, b := ConflictingPair(cands);
      TwoSides(view.details[path].files, Met(cands), a, b);
    }
  }

  lemma NotDeletedHasMet(snapshots: seq<Snapshot>, authorized: set<Key>, ignored: string -> bool, path: string)
    requires Reported(snapshots, authorized, ignored, path) && !Deleted(snapshots, authorized, ignored, path)
    ensures Flagged(CandidatesFor(snapshots, authorized, ignored, Slot(path, false, false)))
  {
    ReportedIff(snapshots, authorized, ignored, path);
    if !Flagged(CandidatesFor(snapshots, authorized, ignored, Slot(path, false, false))) {
      NobodyMet(CandidatesFor(snapshots, authorized, ignored, Slot(path, false, false)));
    }
  }
}
