/** Concrete merges of three snapshots that all write the file "f". */
module MergeExamples {
  import opened Wrappers
  import opened Sorting
  import opened Merge
  import opened MergeOrder
  import opened MergeDescent
  import opened MergeConflicts

  function Published(name: string, time: int, observed: map<Key, Observation>): Snapshot {
    Snapshot(name, RootRef(Cid(name, None), time, 1, [], observed, false), [File("f", name, 1, None, None)], [], None)
  }

  /** The root of that name with sequence number one has been seen. */
  function Seen(name: string): Observation {
    Observation(1, Cid(name, None))
  }

  function Write(s: Snapshot): Candidate
    requires s.files != []
  {
    WriteOf(s, s.files[0])
  }

  /** "a" has seen "c", but its clock is behind; "b" has seen neither and was published between. */
  const BEHIND: Snapshot := Published("a", 1, map["c" := Seen("c")])
  const MIDDLE: Snapshot := Published("b", 2, map[])
  const AHEAD: Snapshot := Published("c", 3, map[])

  lemma CycleOfWins()
    ensures RelationOf(Write(BEHIND), Write(AHEAD)).LeftDescends?
    ensures Wins(Write(BEHIND), Write(AHEAD)) && !Wins(Write(AHEAD), Write(BEHIND))
    ensures Wins(Write(AHEAD), Write(MIDDLE)) && !Wins(Write(MIDDLE), Write(AHEAD))
    ensures Wins(Write(MIDDLE), Write(BEHIND)) && !Wins(Write(BEHIND), Write(MIDDLE))
  {
    assert "a"[0] == 'a' && "b"[0] == 'b' && "c"[0] == 'c';
  }

  lemma WinnerOfTwo(x: Candidate, y: Candidate)
    ensures Winner([x, y]) == if Wins(y, x) then y else x
  {
    assert [x, y][..1] == [x];
  }

  lemma WinnerOfThree(x: Candidate, y: Candidate, z: Candidate)
    ensures Winner([x, y, z])
            == (var w := if Wins(y, x) then y else x; if Wins(z, w) then z else w)
  {
    assert [x, y, z][..2] == [x, y];
    WinnerOfTwo(x, y);
  }

  /** Each of three candidates wins in some order. */
  lemma CycleHasThreeWinners()
    ensures Winner([Write(BEHIND), Write(MIDDLE), Write(AHEAD)]) == Write(AHEAD)
    ensures Winner([Write(MIDDLE), Write(AHEAD), Write(BEHIND)]) == Write(BEHIND)
    ensures Winner([Write(BEHIND), Write(AHEAD), Write(MIDDLE)]) == Write(MIDDLE)
  {
    CycleOfWins();
    WinnerOfThree(Write(BEHIND), Write(MIDDLE), Write(AHEAD));
    WinnerOfThree(Write(MIDDLE), Write(AHEAD), Write(BEHIND));
    WinnerOfThree(Write(BEHIND), Write(AHEAD), Write(MIDDLE));
  }

  const ROSTER: set<Key> := {"a", "b", "c"}

  predicate NothingIgnored(path: string) {
    false
  }

  lemma OneFileOffer(s: Snapshot, ignored: string -> bool)
    requires |s.files| == 1 && !ignored(s.files[0].path)
    ensures FileOffers(s, s.files, ignored)
            == [Offer(Slot(s.files[0].path, false, s.root.localOnly), WriteOf(s, s.files[0]))]
  {
    assert s.files[..0] == [];
  }

  lemma OneInSlot(o: Offer, slot: Slot)
    ensures InSlot([o], slot) == if o.slot == slot then [o.candidate] else []
  {
    assert [o][..0] == [];
  }

  lemma OwnWrite(s: Snapshot, slot: Slot)
    requires WritesOnlyF(s)
    ensures OwnCandidates(s, ROSTER, NothingIgnored, slot) == if slot == Slot("f", false, false) then [Write(s)] else []
  {
    var offer := Offer(Slot(s.files[0].path, false, false), Write(s));
    OneFileOffer(s, NothingIgnored);
    assert SnapshotOffers(s, ROSTER, NothingIgnored) == [offer] + [] == [offer];
    OneInSlot(offer, slot);
  }

  lemma ThreeCandidates(x: Snapshot, y: Snapshot, z: Snapshot, slot: Slot)
    ensures CandidatesFor([x, y, z], ROSTER, NothingIgnored, slot)
            == OwnCandidates(x, ROSTER, NothingIgnored, slot) + OwnCandidates(y, ROSTER, NothingIgnored, slot)
               + OwnCandidates(z, ROSTER, NothingIgnored, slot)
  {
    assert [x] + [y] + [z] == [x, y, z];
    SnapshotInside([x], y, [z], ROSTER, NothingIgnored, slot);
    OneSnapshot(x, ROSTER, NothingIgnored, slot);
    OneSnapshot(z, ROSTER, NothingIgnored, slot);
  }

  predicate WritesOnlyF(s: Snapshot) {
    s.key in ROSTER && |s.files| == 1 && s.files[0].path == "f" && s.tombstones == [] && !s.root.localOnly
  }

  lemma CandidatesOfThree(x: Snapshot, y: Snapshot, z: Snapshot, slot: Slot)
    requires WritesOnlyF(x) && WritesOnlyF(y) && WritesOnlyF(z)
    ensures CandidatesFor([x, y, z], ROSTER, NothingIgnored, slot)
            == if slot == Slot("f", false, false) then [Write(x), Write(y), Write(z)] else []
  {
    OwnWrite(x, slot);
    OwnWrite(y, slot);
    OwnWrite(z, slot);
    ThreeCandidates(x, y, z, slot);
    if slot == Slot("f", false, false) {
      assert [Write(x)] + [Write(y)] + [Write(z)] == [Write(x), Write(y), Write(z)];
    }
  }

  lemma ViewOfThree(x: Snapshot, y: Snapshot, z: Snapshot)
    requires WritesOnlyF(x) && WritesOnlyF(y) && WritesOnlyF(z)
    ensures var view := MergedView([x, y, z], ROSTER, NothingIgnored);
            && "f" in view.files && view.files["f"] == Winner([Write(x), Write(y), Write(z)])
            && ("f" in view.conflicts <==> Flagged([Write(x), Write(y), Write(z)]))
  {
    var snapshots, write, tombstone := [x, y, z], Slot("f", false, false), Slot("f", true, false);
    CandidatesOfThree(x, y, z, write);
    CandidatesOfThree(x, y, z, tombstone);
    ShownWrite(snapshots, ROSTER, NothingIgnored, "f");
    ReportedIff(snapshots, ROSTER, NothingIgnored, "f");
    OnlyWrittenNotesNothing(snapshots, ROSTER, NothingIgnored, "f");
  }

  /**
   In the order of their AppKeys the view shows the file of "c", although "a" has seen that root and
   offers a file of its own; in another order it shows that of "b".
  */
  lemma SortedViewShowsAncestor() returns (sorted: seq<Snapshot>, other: seq<Snapshot>)
    ensures sorted == [BEHIND, MIDDLE, AHEAD] && other == [BEHIND, AHEAD, MIDDLE]
    ensures var view := MergedView(sorted, ROSTER, NothingIgnored);
            "f" in view.files && view.files["f"] == Write(AHEAD)
    ensures RelationOf(Write(BEHIND), Write(AHEAD)).LeftDescends?
    ensures MergedView(sorted, ROSTER, NothingIgnored).files != MergedView(other, ROSTER, NothingIgnored).files
  {
    sorted, other := [BEHIND, MIDDLE, AHEAD], [BEHIND, AHEAD, MIDDLE];
    CycleOfWins();
    CycleHasThreeWinners();
    ViewOfThree(sorted[0], sorted[1], sorted[2]);
    ViewOfThree(other[0], other[1], other[2]);
    assert Write(MIDDLE).key == "b" && Write(AHEAD).key == "c" && "b"[0] != "c"[0];
  }

  const LEFT: Snapshot := Published("a", 1, map[])
  const RIGHT: Snapshot := Published("b", 2, map[])
  const RESOLVED: Snapshot := Published("c", 3, map["a" := Seen("a"), "b" := Seen("b")])

  lemma ResolvedWins()
    ensures WriteConflict(Write(RIGHT), Write(LEFT)) && Wins(Write(RIGHT), Write(LEFT))
    ensures RelationOf(Write(RESOLVED), Write(LEFT)).LeftDescends? && RelationOf(Write(RESOLVED), Write(RIGHT)).LeftDescends?
  {
    assert "a"[0] == 'a' && "b"[0] == 'b' && "c"[0] == 'c';
  }

  lemma FlaggedOfThree(x: Candidate, y: Candidate, z: Candidate)
    ensures Flagged([x, y, z]) <==>
            WriteConflict(y, x) || WriteConflict(z, if Wins(y, x) then y else x)
  {
    assert [x, y, z][..2] == [x, y];
    WinnerOfTwo(x, y);
    FlaggedOfTwo(x, y);
  }

  /**
   A conflict that a later root has resolved is in the conflict list of one order and not of another,
   with the same file shown in both.
  */
  lemma ResolvedConflictDependsOnOrder() returns (one: seq<Snapshot>, other: seq<Snapshot>)
    ensures one == [LEFT, RIGHT, RESOLVED] && other == [RESOLVED, LEFT, RIGHT]
    ensures "f" in MergedView(one, ROSTER, NothingIgnored).conflicts
    ensures "f" !in MergedView(other, ROSTER, NothingIgnored).conflicts
    ensures var a, b := MergedView(one, ROSTER, NothingIgnored), MergedView(other, ROSTER, NothingIgnored);
            "f" in a.files && "f" in b.files && a.files["f"] == b.files["f"] == Write(RESOLVED)
  {
    one, other := [LEFT, RIGHT, RESOLVED], [RESOLVED, LEFT, RIGHT];
    ResolvedWins();
    RelationFlips(Write(RESOLVED), Write(LEFT));
    RelationFlips(Write(RESOLVED), Write(RIGHT));
    WinnerOfThree(Write(LEFT), Write(RIGHT), Write(RESOLVED));
    WinnerOfThree(Write(RESOLVED), Write(LEFT), Write(RIGHT));
    FlaggedOfThree(Write(LEFT), Write(RIGHT), Write(RESOLVED));
    FlaggedOfThree(Write(RESOLVED), Write(LEFT), Write(RIGHT));
    ViewOfThree(one[0], one[1], one[2]);
    ViewOfThree(other[0], other[1], other[2]);
  }
}
