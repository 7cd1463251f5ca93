/** Exactly when the merged view does not depend on the order in which the snapshots are given. */
module MergeOrder {
  import opened Wrappers
  import opened Sorting
  import opened Merge

  // ---------------------------------------------------------------------------------------------
  // The winner among candidates
  // ---------------------------------------------------------------------------------------------

  /** Each candidate in turn replaces the current one if it wins over it. */
  function Winner(cands: seq<Candidate>): Candidate
    requires cands != []
  {
    var n := |cands| - 1;
    if n == 0 then cands[0]
    else if Wins(cands[n], Winner(cands[..n])) then cands[n] else Winner(cands[..n])
  }

  function InSlot(offers: seq<Offer>, slot: Slot): seq<Candidate> {
    if offers == [] then []
    else
      var last := offers[|offers| - 1];
      InSlot(offers[..|offers| - 1], slot) + (if last.slot == slot then [last.candidate] else [])
  }

  function TableFor(t: Tables, slot: Slot): Table {
    match slot
    case Slot(_, false, false) => t.writes
    case Slot(_, true, false) => t.tombstones
    case Slot(_, false, true) => t.localWrites
    case Slot(_, true, true) => t.localTombstones
  }

  function Lookup(t: Tables, slot: Slot): Option<Candidate> {
    if slot.path in TableFor(t, slot) then Some(TableFor(t, slot)[slot.path]) else None
  }

  function WinnerIn(cands: seq<Candidate>): Option<Candidate> {
    if cands == [] then None else Some(Winner(cands))
  }

  lemma LookupAfter(t: Tables, o: Offer, slot: Slot)
    ensures Lookup(AddOffer(t, o), slot)
            == if o.slot != slot then Lookup(t, slot)
               else match Lookup(t, slot)
                    case None => Some(o.candidate)
                    case Some(w) => Some(if Wins(o.candidate, w) then o.candidate else w)
  {
  }

  lemma WinnerAfter(cands: seq<Candidate>, c: Candidate)
    ensures WinnerIn(cands + [c])
            == match WinnerIn(cands)
               case None => Some(c)
               case Some(w) => Some(if Wins(c, w) then c else w)
  {
    assert (cands + [c])[..|cands|] == cands;
  }

  /** Every table holds, for each path, the winner among the candidates offered for it. */
  lemma {:induction false} LookupIsWinner(offers: seq<Offer>, slot: Slot)
    ensures Lookup(AddOffers(offers), slot) == WinnerIn(InSlot(offers, slot))
  {
    if offers != [] {
      var rest := offers[..|offers| - 1];
      var last := offers[|offers| - 1];
      LookupIsWinner(rest, slot);
      LookupAfter(AddOffers(rest), last, slot);
      if last.slot == slot {
        WinnerAfter(InSlot(rest, slot), last.candidate);
      } else {
        assert InSlot(rest, slot) + [] == InSlot(rest, slot);
      }
    }
  }

  lemma {:induction false} WinnerIsOne(cands: seq<Candidate>)
    requires cands != []
    ensures Winner(cands) in cands
  {
    if |cands| > 1 {
      WinnerIsOne(cands[..|cands| - 1]);
    }
  }

  /** What follows can only replace the winner so far by one of its own candidates. */
  lemma {:induction false} WinnerOfLonger(front: seq<Candidate>, rest: seq<Candidate>)
    requires front != []
    ensures Winner(front + rest) == Winner(front) || Winner(front + rest) in rest
  {
    if rest == [] {
      assert front + rest == front;
    } else {
      var n := |rest| - 1;
      WinnerOfLonger(front, rest[..n]);
      assert (front + rest)[..|front| + n] == front + rest[..n];
    }
  }

  // ---------------------------------------------------------------------------------------------
  // Strict wins
  // ---------------------------------------------------------------------------------------------

  predicate StrictlyWins(a: Candidate, b: Candidate) {
    Wins(a, b) && !Wins(b, a)
  }

  lemma NewerIsStrict(a: Candidate, b: Candidate)
    requires Newer(a, b)
    ensures !Newer(b, a)
  {
    if a.time == b.time && OrdinalLe(a.key, b.key) {
      OrdinalAntisymmetric(a.key, b.key);
    }
  }

  lemma RelationFlips(a: Candidate, b: Candidate)
    ensures RelationOf(a, b).Same? <==> RelationOf(b, a).Same?
    ensures RelationOf(a, b).LeftDescends? <==> RelationOf(b, a).RightDescends?
    ensures RelationOf(a, b).Concurrent? <==> RelationOf(b, a).Concurrent?
  {
  }

  /**
   A candidate wins strictly when its root descends from the other's, or the roots are concurrent
   and it is newer.  Two AppKeys that publish one root beat each other, so the later one stands.
  */
  lemma StrictlyWinsIff(a: Candidate, b: Candidate)
    ensures StrictlyWins(a, b) <==>
            RelationOf(a, b).LeftDescends? || (RelationOf(a, b).Concurrent? && Newer(a, b))
  {
    RelationFlips(a, b);
    if Newer(a, b) {
      NewerIsStrict(a, b);
    }
  }

  /** w wins strictly over every other candidate. */
  ghost predicate Dominates(cands: seq<Candidate>, w: Candidate) {
    w in cands && forall c :: c in cands && c != w ==> StrictlyWins(w, c)
  }

  lemma {:induction false} DominantWins(cands: seq<Candidate>, w: Candidate)
    requires Dominates(cands, w)
    ensures Winner(cands) == w
  {
    var n := |cands| - 1;
    if n > 0 {
      var rest := cands[..n];
      assert cands == rest + [cands[n]];
      WinnerIsOne(rest);
      assert Winner(rest) in cands && cands[n] in cands;
      if w in rest {
        DominantWins(rest, w);
      }
    }
  }

  // ---------------------------------------------------------------------------------------------
  // Orders of the candidates
  // ---------------------------------------------------------------------------------------------

  ghost predicate EachOnce<T>(s: seq<T>) {
    forall x :: x in s ==> multiset(s)[x] == 1
  }

  function Without<T(==)>(s: seq<T>, x: T): seq<T> {
    if s == [] then [] else if s[0] == x then s[1..] else [s[0]] + Without(s[1..], x)
  }

  lemma {:induction false} WithoutElements<T>(s: seq<T>, x: T)
    requires x in s
    ensures multiset(s) == multiset(Without(s, x)) + multiset{x}
  {
    assert s == [s[0]] + s[1..];
    if s[0] != x {
      WithoutElements(s[1..], x);
    }
  }

  /** Any two elements can be put first. */
  lemma FirstTwo<T>(s: seq<T>, x: T, y: T) returns (rest: seq<T>)
    requires x in s && y in s && x != y
    ensures multiset([x, y] + rest) == multiset(s)
  {
    WithoutElements(s, x);
    var others := Without(s, x);
    assert y in multiset(s);
    assert y in multiset(others);
    WithoutElements(others, y);
    rest := Without(others, y);
    assert [x, y] + rest == [x] + ([y] + rest);
  }

  lemma OnceAhead<T>(s: seq<T>, x: T, y: T, rest: seq<T>)
    requires EachOnce(s) && x in s && multiset([x, y] + rest) == multiset(s) && x != y
    ensures x !in rest
  {
    assert multiset([x, y] + rest)[x] == 1;
    assert [x, y] + rest == [x] + ([y] + rest);
    assert multiset([x, y] + rest) == multiset{x} + multiset{y} + multiset(rest);
  }

  ghost predicate OrderFree(cands: seq<Candidate>)
    requires cands != []
  {
    forall order: seq<Candidate> :: |order| == |cands| && multiset(order) == multiset(cands) ==> Winner(order) == Winner(cands)
  }

  /** A candidate that does not win strictly over another loses in some order. */
  lemma LosesInSomeOrder(w: Candidate, y: Candidate, rest: seq<Candidate>)
    requires w != y && w !in rest && !StrictlyWins(w, y)
    ensures Winner((if Wins(y, w) then [w, y] else [y, w]) + rest) != w
  {
    var front := if Wins(y, w) then [w, y] else [y, w];
    assert Winner(front[..1]) == front[0];
    assert Winner(front) == y;
    WinnerOfLonger(front, rest);
  }

  lemma DominatedIsOrderFree(cands: seq<Candidate>, w: Candidate)
    requires cands != [] && Dominates(cands, w)
    ensures OrderFree(cands)
  {
    forall order: seq<Candidate> | |order| == |cands| && multiset(order) == multiset(cands)
      ensures Winner(order) == Winner(cands)
    {
      SameElements(order, cands);
      DominantWins(order, w);
      DominantWins(cands, w);
    }
  }

  lemma SwapFirst<T>(x: T, y: T, rest: seq<T>)
    ensures multiset([y, x] + rest) == multiset([x, y] + rest)
  {
    assert multiset([x, y]) == multiset([y, x]) == multiset{x, y};
    assert multiset([y, x] + rest) == multiset([y, x]) + multiset(rest);
    assert multiset([x, y] + rest) == multiset([x, y]) + multiset(rest);
  }

  lemma UndominatedIsNot(cands: seq<Candidate>, y: Candidate) returns (order: seq<Candidate>)
    requires cands != [] && EachOnce(cands)
    requires y in cands && y != Winner(cands) && !StrictlyWins(Winner(cands), y)
    ensures multiset(order) == multiset(cands) && |order| == |cands| && Winner(order) != Winner(cands)
  {
    var w := Winner(cands);
    WinnerIsOne(cands);
    var rest := FirstTwo(cands, w, y);
    OnceAhead(cands, w, y, rest);
    LosesInSomeOrder(w, y, rest);
    SwapFirst(w, y, rest);
    order := (if Wins(y, w) then [w, y] else [y, w]) + rest;
    assert |order| == |multiset(order)| && |cands| == |multiset(cands)|;
  }

  /** The winner is the same in every order exactly when one candidate dominates. */
  lemma WinnerIsOrderFreeIff(cands: seq<Candidate>)
    requires cands != [] && EachOnce(cands)
    ensures OrderFree(cands) <==> exists w :: Dominates(cands, w)
  {
    WinnerIsOne(cands);
    if w :| Dominates(cands, w) {
      DominatedIsOrderFree(cands, w);
    } else {
      assert !Dominates(cands, Winner(cands));
      var y :| y in cands && y != Winner(cands) && !StrictlyWins(Winner(cands), y);
      var order := UndominatedIsNot(cands, y);
    }
  }

  lemma SameElements<T>(a: seq<T>, b: seq<T>)
    requires multiset(a) == multiset(b)
    ensures forall x :: x in a <==> x in b
  {
    forall x ensures x in a <==> x in b {
      assert x in a <==> x in multiset(a);
      assert x in b <==> x in multiset(b);
    }
  }

  // ---------------------------------------------------------------------------------------------
  // Orders of the snapshots
  // ---------------------------------------------------------------------------------------------

  lemma {:induction false} InSlotConcat(a: seq<Offer>, b: seq<Offer>, slot: Slot)
    ensures InSlot(a + b, slot) == InSlot(a, slot) + InSlot(b, slot)
  {
    if b == [] {
      assert a + b == a;
    } else {
      var n := |b| - 1;
      InSlotConcat(a, b[..n], slot);
      assert (a + b)[..|a| + n] == a + b[..n];
    }
  }

  /** The candidates a merge offers for one slot, in the order of the snapshots. */
  function CandidatesFor(snapshots: seq<Snapshot>, authorized: set<Key>, ignored: string -> bool, slot: Slot): seq<Candidate> {
    InSlot(AllOffers(snapshots, authorized, ignored), slot)
  }

  function OwnCandidates(s: Snapshot, authorized: set<Key>, ignored: string -> bool, slot: Slot): seq<Candidate> {
    InSlot(SnapshotOffers(s, authorized, ignored), slot)
  }

  lemma LastCandidates(snapshots: seq<Snapshot>, authorized: set<Key>, ignored: string -> bool, slot: Slot)
    requires snapshots != []
    ensures CandidatesFor(snapshots, authorized, ignored, slot)
            == CandidatesFor(snapshots[..|snapshots| - 1], authorized, ignored, slot)
               + OwnCandidates(snapshots[|snapshots| - 1], authorized, ignored, slot)
  {
    InSlotConcat(AllOffers(snapshots[..|snapshots| - 1], authorized, ignored),
                 SnapshotOffers(snapshots[|snapshots| - 1], authorized, ignored), slot);
  }

  lemma OneSnapshot(s: Snapshot, authorized: set<Key>, ignored: string -> bool, slot: Slot)
    ensures CandidatesFor([s], authorized, ignored, slot) == OwnCandidates(s, authorized, ignored, slot)
  {
    assert [s][..0] == [];
    LastCandidates([s], authorized, ignored, slot);
  }

  lemma {:induction false} CandidatesConcat(a: seq<Snapshot>, b: seq<Snapshot>, authorized: set<Key>,
                                            ignored: string -> bool, slot: Slot)
    ensures CandidatesFor(a + b, authorized, ignored, slot)
            == CandidatesFor(a, authorized, ignored, slot) + CandidatesFor(b, authorized, ignored, slot)
  {
    if b == [] {
      assert a + b == a;
    } else {
      var front := b[..|b| - 1];
      CandidatesConcat(a, front, authorized, ignored, slot);
      assert (a + b)[..|a + b| - 1] == a + front;
      LastCandidates(a + b, authorized, ignored, slot);
      LastCandidates(b, authorized, ignored, slot);
      Regroup(CandidatesFor(a, authorized, ignored, slot), CandidatesFor(front, authorized, ignored, slot),
              OwnCandidates(b[|b| - 1], authorized, ignored, slot));
    }
  }

  lemma SnapshotInside(before: seq<Snapshot>, s: Snapshot, after: seq<Snapshot>, authorized: set<Key>,
                       ignored: string -> bool, slot: Slot)
    ensures CandidatesFor(before + [s] + after, authorized, ignored, slot)
            == CandidatesFor(before, authorized, ignored, slot) + OwnCandidates(s, authorized, ignored, slot)
               + CandidatesFor(after, authorized, ignored, slot)
  {
    CandidatesConcat(before + [s], after, authorized, ignored, slot);
    CandidatesConcat(before, [s], authorized, ignored, slot);
    OneSnapshot(s, authorized, ignored, slot);
  }

  lemma SplitAt<T>(s: seq<T>, k: nat)
    requires k < |s|
    ensures s == s[..k] + [s[k]] + s[k + 1..]
    ensures multiset(s) == multiset(s[..k] + s[k + 1..]) + multiset{s[k]}
  {
    var before, x, after := s[..k], s[k], s[k + 1..];
    var whole := before + [x] + after;
    assert whole == s;
    assert multiset(whole) == multiset(before) + multiset{x} + multiset(after);
    assert multiset(before + after) == multiset(before) + multiset(after);
  }

  lemma WithoutOne<T>(order: seq<T>, s: seq<T>, k: nat)
    requires order != [] && k < |s| && order[0] == s[k] && multiset(order) == multiset(s)
    ensures multiset(order[1..]) == multiset(s[..k] + s[k + 1..])
    ensures s == s[..k] + [s[k]] + s[k + 1..]
  {
    SplitAt(s, k);
    SplitAt(order, 0);
    var x := s[k];
    assert order[..0] + order[1..] == order[1..];
    assert multiset(order) - multiset{x} == multiset(order[1..]);
    assert multiset(s) - multiset{x} == multiset(s[..k] + s[k + 1..]);
  }

  lemma MoveToFront<T>(before: seq<T>, own: seq<T>, after: seq<T>, rest: seq<T>)
    requires multiset(rest) == multiset(before + after)
    ensures multiset(own + rest) == multiset(before + own + after)
  {
    assert multiset(before + after) == multiset(before) + multiset(after);
    assert multiset(before + own + after) == multiset(before) + multiset(own) + multiset(after);
    assert multiset(own + rest) == multiset(own) + multiset(rest);
  }

  /** Reordering the snapshots reorders the candidates of every slot. */
  lemma {:induction false} CandidatesReorder(order: seq<Snapshot>, snapshots: seq<Snapshot>, authorized: set<Key>,
                                             ignored: string -> bool, slot: Slot)
    requires multiset(order) == multiset(snapshots)
    ensures multiset(CandidatesFor(order, authorized, ignored, slot))
            == multiset(CandidatesFor(snapshots, authorized, ignored, slot))
    decreases |order|
  {
    assert |order| == |multiset(order)| && |snapshots| == |multiset(snapshots)|;
    if order != [] {
      SameElements(order, snapshots);
      var s := order[0];
      assert s in snapshots;
      var k :| 0 <= k < |snapshots| && snapshots[k] == s;
      var before, after := snapshots[..k], snapshots[k + 1..];
      WithoutOne(order, snapshots, k);
      CandidatesReorder(order[1..], before + after, authorized, ignored, slot);
      SnapshotInside(before, s, after, authorized, ignored, slot);
      CandidatesConcat(before, after, authorized, ignored, slot);
      assert order == [s] + order[1..];
      CandidatesConcat([s], order[1..], authorized, ignored, slot);
      OneSnapshot(s, authorized, ignored, slot);
      MoveToFront(CandidatesFor(before, authorized, ignored, slot), OwnCandidates(s, authorized, ignored, slot),
                  CandidatesFor(after, authorized, ignored, slot), CandidatesFor(order[1..], authorized, ignored, slot));
    }
  }

  lemma NoneInAnyOrder(order: seq<Snapshot>, snapshots: seq<Snapshot>, authorized: set<Key>, ignored: string -> bool, slot: Slot)
    requires multiset(order) == multiset(snapshots)
    ensures CandidatesFor(order, authorized, ignored, slot) == [] <==> CandidatesFor(snapshots, authorized, ignored, slot) == []
  {
    CandidatesReorder(order, snapshots, authorized, ignored, slot);
    var a, b := CandidatesFor(order, authorized, ignored, slot), CandidatesFor(snapshots, authorized, ignored, slot);
    assert |a| == |multiset(a)| && |b| == |multiset(b)|;
  }

  /** Every snapshot offers one candidate at most, and no two snapshots offer the same one. */
  ghost predicate Separate(snapshots: seq<Snapshot>, authorized: set<Key>, ignored: string -> bool, slot: Slot) {
    && EachOnce(CandidatesFor(snapshots, authorized, ignored, slot))
    && forall s :: s in snapshots ==> |OwnCandidates(s, authorized, ignored, slot)| <= 1
  }

  ghost predicate SameInEveryOrder(snapshots: seq<Snapshot>, authorized: set<Key>, ignored: string -> bool, slot: Slot) {
    forall order: seq<Snapshot> :: multiset(order) == multiset(snapshots) ==>
      Lookup(AddOffers(AllOffers(order, authorized, ignored)), slot)
      == Lookup(AddOffers(AllOffers(snapshots, authorized, ignored)), slot)
  }

  ghost predicate Decided(snapshots: seq<Snapshot>, authorized: set<Key>, ignored: string -> bool, slot: Slot) {
    var cands := CandidatesFor(snapshots, authorized, ignored, slot);
    cands == [] || exists w :: Dominates(cands, w)
  }

  lemma {:induction false} DecidedIsKept(order: seq<Snapshot>, snapshots: seq<Snapshot>, authorized: set<Key>, ignored: string -> bool, slot: Slot)
    requires multiset(order) == multiset(snapshots) && Decided(snapshots, authorized, ignored, slot)
    ensures Lookup(AddOffers(AllOffers(order, authorized, ignored)), slot)
            == Lookup(AddOffers(AllOffers(snapshots, authorized, ignored)), slot)
  {
    var before := CandidatesFor(snapshots, authorized, ignored, slot);
    var after := CandidatesFor(order, authorized, ignored, slot);
    CandidatesReorder(order, snapshots, authorized, ignored, slot);
    SameElements(after, before);
    LookupIsWinner(AllOffers(order, authorized, ignored), slot);
    LookupIsWinner(AllOffers(snapshots, authorized, ignored), slot);
    if before == [] {
      assert |after| == |multiset(after)| == 0;
    } else {
      var w :| Dominates(before, w);
      DominantWins(before, w);
      DominantWins(after, w);
    }
  }

  lemma {:induction false} OfferedBy(snapshots: seq<Snapshot>, authorized: set<Key>, ignored: string -> bool, slot: Slot,
                                     c: Candidate) returns (s: Snapshot)
    requires c in CandidatesFor(snapshots, authorized, ignored, slot)
    ensures s in snapshots && c in OwnCandidates(s, authorized, ignored, slot)
  {
    var n := |snapshots| - 1;
    assert snapshots == snapshots[..n] + [snapshots[n]];
    CandidatesConcat(snapshots[..n], [snapshots[n]], authorized, ignored, slot);
    OneSnapshot(snapshots[n], authorized, ignored, slot);
    if c in OwnCandidates(snapshots[n], authorized, ignored, slot) {
      s := snapshots[n];
    } else {
      s := OfferedBy(snapshots[..n], authorized, ignored, slot, c);
    }
  }

  lemma Prepended(a: Snapshot, rest: seq<Snapshot>, authorized: set<Key>, ignored: string -> bool, slot: Slot)
    ensures CandidatesFor([a] + rest, authorized, ignored, slot)
            == OwnCandidates(a, authorized, ignored, slot) + CandidatesFor(rest, authorized, ignored, slot)
  {
    CandidatesConcat([a], rest, authorized, ignored, slot);
    OneSnapshot(a, authorized, ignored, slot);
  }

  lemma OnlyCandidate(snapshots: seq<Snapshot>, authorized: set<Key>, ignored: string -> bool, slot: Slot, c: Candidate)
    returns (s: Snapshot)
    requires Separate(snapshots, authorized, ignored, slot) && c in CandidatesFor(snapshots, authorized, ignored, slot)
    ensures s in snapshots && OwnCandidates(s, authorized, ignored, slot) == [c]
  {
    s := OfferedBy(snapshots, authorized, ignored, slot, c);
  }

  lemma EachOnceIn<T>(s: seq<T>, x: T, rest: seq<T>)
    requires EachOnce(s) && multiset([x] + rest) == multiset(s)
    ensures x !in rest && EachOnce(rest)
  {
    assert multiset([x] + rest) == multiset{x} + multiset(rest);
    assert x in multiset(s);
    forall y | y in rest ensures multiset(rest)[y] == 1 && y != x {
      assert y in multiset(rest) && y in multiset(s);
    }
  }

  lemma SeparateWithout(snapshots: seq<Snapshot>, s: Snapshot, c: Candidate, authorized: set<Key>, ignored: string -> bool,
                        slot: Slot)
    requires Separate(snapshots, authorized, ignored, slot)
    requires s in snapshots && OwnCandidates(s, authorized, ignored, slot) == [c]
    ensures multiset([s] + Without(snapshots, s)) == multiset(snapshots)
    ensures Separate(Without(snapshots, s), authorized, ignored, slot)
    ensures multiset([c] + CandidatesFor(Without(snapshots, s), authorized, ignored, slot))
            == multiset(CandidatesFor(snapshots, authorized, ignored, slot))
  {
    var rest := Without(snapshots, s);
    WithoutElements(snapshots, s);
    assert multiset([s] + rest) == multiset{s} + multiset(rest);
    CandidatesReorder([s] + rest, snapshots, authorized, ignored, slot);
    Prepended(s, rest, authorized, ignored, slot);
    EachOnceIn(CandidatesFor(snapshots, authorized, ignored, slot), c, CandidatesFor(rest, authorized, ignored, slot));
    forall x | x in rest ensures x in snapshots {
      assert x in multiset(rest) && x in multiset(snapshots);
    }
  }

  /** Every order of the candidates comes from an order of the snapshots. */
  lemma {:induction false} Realize(snapshots: seq<Snapshot>, authorized: set<Key>, ignored: string -> bool, slot: Slot,
                                   target: seq<Candidate>) returns (order: seq<Snapshot>)
    requires Separate(snapshots, authorized, ignored, slot)
    requires multiset(target) == multiset(CandidatesFor(snapshots, authorized, ignored, slot))
    ensures multiset(order) == multiset(snapshots) && CandidatesFor(order, authorized, ignored, slot) == target
    decreases |target|
  {
    var cands := CandidatesFor(snapshots, authorized, ignored, slot);
    if target == [] {
      assert |cands| == |multiset(cands)| == 0;
      order := snapshots;
    } else {
      var c := target[0];
      SameElements(target, cands);
      var s := OnlyCandidate(snapshots, authorized, ignored, slot, c);
      var others := Without(snapshots, s);
      SeparateWithout(snapshots, s, c, authorized, ignored, slot);
      RestOf(target, CandidatesFor(others, authorized, ignored, slot));
      var rest := Realize(others, authorized, ignored, slot, target[1..]);
      order := [s] + rest;
      Prepended(s, rest, authorized, ignored, slot);
      SameAhead(s, rest, others);
      FirstAndRest(target);
    }
  }

  lemma SameAhead<T>(x: T, a: seq<T>, b: seq<T>)
    requires multiset(a) == multiset(b)
    ensures multiset([x] + a) == multiset([x] + b)
  {
    assert multiset([x] + a) == multiset{x} + multiset(a);
    assert multiset([x] + b) == multiset{x} + multiset(b);
  }

  lemma FirstAndRest<T>(s: seq<T>)
    requires s != []
    ensures [s[0]] + s[1..] == s
  {
  }

  lemma RestOf<T>(s: seq<T>, rest: seq<T>)
    requires s != [] && multiset([s[0]] + rest) == multiset(s)
    ensures multiset(s[1..]) == multiset(rest)
  {
    assert s == [s[0]] + s[1..];
    assert multiset([s[0]] + rest) == multiset{s[0]} + multiset(rest);
    assert multiset([s[0]] + s[1..]) == multiset{s[0]} + multiset(s[1..]);
    assert multiset(rest) == multiset(s) - multiset{s[0]};
  }

  /**
   What the merge keeps for a path is the same in every order of the snapshots exactly when nothing
   is offered or one candidate wins strictly over all others.
  */
  lemma SlotIsOrderFreeIff(snapshots: seq<Snapshot>, authorized: set<Key>, ignored: string -> bool, slot: Slot)
    requires Separate(snapshots, authorized, ignored, slot)
    ensures SameInEveryOrder(snapshots, authorized, ignored, slot) <==> Decided(snapshots, authorized, ignored, slot)
  {
    if Decided(snapshots, authorized, ignored, slot) {
      forall order: seq<Snapshot> | multiset(order) == multiset(snapshots)
        ensures Lookup(AddOffers(AllOffers(order, authorized, ignored)), slot)
                == Lookup(AddOffers(AllOffers(snapshots, authorized, ignored)), slot)
      {
        DecidedIsKept(order, snapshots, authorized, ignored, slot);
      }
    } else {
      var order := UndecidedChanges(snapshots, authorized, ignored, slot);
    }
  }

  lemma UndecidedChanges(snapshots: seq<Snapshot>, authorized: set<Key>, ignored: string -> bool, slot: Slot)
    returns (order: seq<Snapshot>)
    requires Separate(snapshots, authorized, ignored, slot) && !Decided(snapshots, authorized, ignored, slot)
    ensures multiset(order) == multiset(snapshots)
    ensures Lookup(AddOffers(AllOffers(order, authorized, ignored)), slot)
            != Lookup(AddOffers(AllOffers(snapshots, authorized, ignored)), slot)
  {
    var cands := CandidatesFor(snapshots, authorized, ignored, slot);
    WinnerIsOne(cands);
    assert !Dominates(cands, Winner(cands));
    var y :| y in cands && y != Winner(cands) && !StrictlyWins(Winner(cands), y);
    var target := UndominatedIsNot(cands, y);
    order := Realize(snapshots, authorized, ignored, slot, target);
    LookupIsWinner(AllOffers(order, authorized, ignored), slot);
    LookupIsWinner(AllOffers(snapshots, authorized, ignored), slot);
  }

  lemma SameLookupsSameTables(a: Tables, b: Tables)
    requires forall slot :: Lookup(a, slot) == Lookup(b, slot)
    ensures a.writes == b.writes && a.tombstones == b.tombstones
    ensures a.localWrites == b.localWrites && a.localTombstones == b.localTombstones
  {
    forall p ensures p in a.writes <==> p in b.writes ensures p in a.writes ==> a.writes[p] == b.writes[p] {
      assert Lookup(a, Slot(p, false, false)) == Lookup(b, Slot(p, false, false));
    }
    forall p ensures p in a.tombstones <==> p in b.tombstones ensures p in a.tombstones ==> a.tombstones[p] == b.tombstones[p] {
      assert Lookup(a, Slot(p, true, false)) == Lookup(b, Slot(p, true, false));
    }
    forall p ensures p in a.localWrites <==> p in b.localWrites ensures p in a.localWrites ==> a.localWrites[p] == b.localWrites[p] {
      assert Lookup(a, Slot(p, false, true)) == Lookup(b, Slot(p, false, true));
    }
    forall p ensures p in a.localTombstones <==> p in b.localTombstones
             ensures p in a.localTombstones ==> a.localTombstones[p] == b.localTombstones[p] {
      assert Lookup(a, Slot(p, true, true)) == Lookup(b, Slot(p, true, true));
    }
  }

  /** When every slot is decided, the view is the same in every order, apart from the conflict list. */
  lemma ViewIsOrderFree(order: seq<Snapshot>, snapshots: seq<Snapshot>, authorized: set<Key>, ignored: string -> bool)
    requires multiset(order) == multiset(snapshots)
    requires forall slot :: Decided(snapshots, authorized, ignored, slot)
    ensures var a := MergedView(order, authorized, ignored);
            var b := MergedView(snapshots, authorized, ignored);
            && a.files == b.files && a.suppressed == b.suppressed
            && a.tombstones == b.tombstones && a.suppressedPaths == b.suppressedPaths
  {
    forall slot ensures Lookup(AddOffers(AllOffers(order, authorized, ignored)), slot)
                        == Lookup(AddOffers(AllOffers(snapshots, authorized, ignored)), slot) {
      DecidedIsKept(order, snapshots, authorized, ignored, slot);
    }
    SameLookupsSameTables(AddOffers(AllOffers(order, authorized, ignored)), AddOffers(AllOffers(snapshots, authorized, ignored)));
  }

  /** A path with a write and no tombstone in the source roots shows that write. */
  lemma WriteIsVisible(t: Tables, path: string)
    requires path in t.writes && path !in t.tombstones
    ensures var view := ViewOf(WithLocalWrites(t), WithLocalTombstones(t), t.conflicts, t.details);
            path in view.files && view.files[path] == t.writes[path]
  {
  }

  // ---------------------------------------------------------------------------------------------
  // Local-only roots
  // ---------------------------------------------------------------------------------------------

  function SourceRoots(snapshots: seq<Snapshot>): seq<Snapshot> {
    if snapshots == [] then []
    else
      var last := snapshots[|snapshots| - 1];
      SourceRoots(snapshots[..|snapshots| - 1]) + (if last.root.localOnly then [] else [last])
  }

  lemma {:induction false} FileSlots(s: Snapshot, files: seq<File>, ignored: string -> bool, slot: Slot)
    requires slot.localOnly != s.root.localOnly
    ensures InSlot(FileOffers(s, files, ignored), slot) == []
  {
    if files != [] {
      var rest := files[..|files| - 1];
      FileSlots(s, rest, ignored, slot);
      InSlotConcat(FileOffers(s, rest, ignored), FileOffers(s, files, ignored)[|FileOffers(s, rest, ignored)|..], slot);
      assert FileOffers(s, files, ignored)
             == FileOffers(s, rest, ignored) + FileOffers(s, files, ignored)[|FileOffers(s, rest, ignored)|..];
    }
  }

  lemma {:induction false} TombstoneSlots(s: Snapshot, tombstones: seq<Tombstone>, ignored: string -> bool, slot: Slot)
    requires slot.localOnly != s.root.localOnly
    ensures InSlot(TombstoneOffers(s, tombstones, ignored), slot) == []
  {
    if tombstones != [] {
      var rest := tombstones[..|tombstones| - 1];
      TombstoneSlots(s, rest, ignored, slot);
      InSlotConcat(TombstoneOffers(s, rest, ignored), TombstoneOffers(s, tombstones, ignored)[|TombstoneOffers(s, rest, ignored)|..], slot);
      assert TombstoneOffers(s, tombstones, ignored)
             == TombstoneOffers(s, rest, ignored) + TombstoneOffers(s, tombstones, ignored)[|TombstoneOffers(s, rest, ignored)|..];
    }
  }

  lemma OtherKindOffersNothing(s: Snapshot, authorized: set<Key>, ignored: string -> bool, slot: Slot)
    requires slot.localOnly != s.root.localOnly
    ensures OwnCandidates(s, authorized, ignored, slot) == []
  {
    if s.key in authorized {
      FileSlots(s, s.files, ignored, slot);
      TombstoneSlots(s, s.tombstones, ignored, slot);
      InSlotConcat(FileOffers(s, s.files, ignored), TombstoneOffers(s, s.tombstones, ignored), slot);
    }
  }

  lemma {:induction false} SourceSlots(snapshots: seq<Snapshot>, authorized: set<Key>, ignored: string -> bool, slot: Slot)
    requires !slot.localOnly
    ensures CandidatesFor(SourceRoots(snapshots), authorized, ignored, slot) == CandidatesFor(snapshots, authorized, ignored, slot)
  {
    if snapshots != [] {
      var rest, last := snapshots[..|snapshots| - 1], snapshots[|snapshots| - 1];
      SourceSlots(rest, authorized, ignored, slot);
      LastCandidates(snapshots, authorized, ignored, slot);
      if last.root.localOnly {
        OtherKindOffersNothing(last, authorized, ignored, slot);
        assert SourceRoots(rest) + [] == SourceRoots(rest);
      } else {
        var kept := SourceRoots(rest) + [last];
        assert kept[..|kept| - 1] == SourceRoots(rest);
        LastCandidates(kept, authorized, ignored, slot);
      }
    }
  }

  lemma LocalTablesFillIn(t: Tables, path: string)
    requires path in t.writes || path in t.tombstones
    ensures path in WithLocalWrites(t) <==> path in t.writes
    ensures path in t.writes ==> WithLocalWrites(t)[path] == t.writes[path]
    ensures path in WithLocalTombstones(t) <==> path in t.tombstones
    ensures path in t.tombstones ==> WithLocalTombstones(t)[path] == t.tombstones[path]
  {
  }

  /**
   Local-only roots only fill in: a path that some source root writes or removes shows the same file,
   or the same hidden file, as without them.
  */
  lemma LocalOnlyFillsIn(snapshots: seq<Snapshot>, authorized: set<Key>, ignored: string -> bool, path: string)
    requires CandidatesFor(snapshots, authorized, ignored, Slot(path, false, false)) != []
             || CandidatesFor(snapshots, authorized, ignored, Slot(path, true, false)) != []
    ensures var all := MergedView(snapshots, authorized, ignored);
            var source := MergedView(SourceRoots(snapshots), authorized, ignored);
            && (path in all.files <==> path in source.files)
            && (path in all.files ==> all.files[path] == source.files[path])
            && (path in all.suppressed <==> path in source.suppressed)
            && (path in all.suppressed ==> all.suppressed[path] == source.suppressed[path])
  {
    var write, tombstone := Slot(path, false, false), Slot(path, true, false);
    var all := AddOffers(AllOffers(snapshots, authorized, ignored));
    var source := AddOffers(AllOffers(SourceRoots(snapshots), authorized, ignored));
    SourceSlots(snapshots, authorized, ignored, write);
    SourceSlots(snapshots, authorized, ignored, tombstone);
    LookupIsWinner(AllOffers(snapshots, authorized, ignored), write);
    LookupIsWinner(AllOffers(snapshots, authorized, ignored), tombstone);
    LookupIsWinner(AllOffers(SourceRoots(snapshots), authorized, ignored), write);
    LookupIsWinner(AllOffers(SourceRoots(snapshots), authorized, ignored), tombstone);
    assert Lookup(all, write) == Lookup(source, write) && Lookup(all, tombstone) == Lookup(source, tombstone);
    LocalTablesFillIn(all, path);
    LocalTablesFillIn(source, path);
  }

  // ---------------------------------------------------------------------------------------------
  // When publication times respect causality
  // ---------------------------------------------------------------------------------------------

  /** Different roots, descendants newer than their ancestors, and no two candidates equally new. */
  ghost predicate ClocksAgree(cands: seq<Candidate>) {
    forall a, b :: a in cands && b in cands && a != b ==>
      && !RelationOf(a, b).Same? && (Newer(a, b) || Newer(b, a))
      && (RelationOf(a, b).LeftDescends? ==> Newer(a, b))
  }

  lemma NewerIsTransitive(a: Candidate, b: Candidate, c: Candidate)
    requires Newer(a, b) && Newer(b, c)
    ensures Newer(a, c)
  {
    if a.time == b.time && b.time == c.time {
      OrdinalTransitive(c.key, b.key, a.key);
      if a.key == c.key {
        OrdinalAntisymmetric(a.key, b.key);
      }
    }
  }

  lemma NewerWins(a: Candidate, b: Candidate)
    requires ClocksAgree([a, b]) && a != b
    ensures StrictlyWins(a, b) <==> Newer(a, b)
    ensures Wins(a, b) <==> Newer(a, b)
  {
    assert a in [a, b] && b in [a, b];
    RelationFlips(a, b);
    StrictlyWinsIff(a, b);
    StrictlyWinsIff(b, a);
    if Newer(a, b) {
      NewerIsStrict(a, b);
    } else {
      NewerIsStrict(b, a);
    }
  }

  lemma ClocksAgreeOnSome(cands: seq<Candidate>, some: seq<Candidate>)
    requires ClocksAgree(cands) && forall c :: c in some ==> c in cands
    ensures ClocksAgree(some)
  {
  }

  lemma {:induction false} WinnerIsNewest(cands: seq<Candidate>, c: Candidate)
    requires ClocksAgree(cands) && c in cands && c != Winner(cands)
    ensures Newer(Winner(cands), c)
  {
    var n := |cands| - 1;
    if n > 0 {
      var rest, last := cands[..n], cands[n];
      assert cands == rest + [last];
      ClocksAgreeOnSome(cands, rest);
      WinnerIsOne(rest);
      var before := Winner(rest);
      ClocksAgreeOnSome(cands, [last, before]);
      if last != before {
        NewerWins(last, before);
      }
      if c in rest && c != before {
        WinnerIsNewest(rest, c);
        if Winner(cands) != before {
          NewerIsTransitive(last, before, c);
        }
      }
    }
  }

  /** When the clocks agree the newest candidate dominates, so it wins in every order. */
  lemma NewestWins(cands: seq<Candidate>)
    requires cands != [] && ClocksAgree(cands)
    ensures forall c :: c in cands && c != Winner(cands) ==> Newer(Winner(cands), c)
    ensures Dominates(cands, Winner(cands))
  {
    var w := Winner(cands);
    WinnerIsOne(cands);
    forall c | c in cands && c != w ensures Newer(w, c) && StrictlyWins(w, c) {
      WinnerIsNewest(cands, c);
      ClocksAgreeOnSome(cands, [w, c]);
      NewerWins(w, c);
    }
  }

  /** Roots without causal fields are concurrent, so between AppKeys the newest publication wins. */
  lemma LegacyClocksAgree(cands: seq<Candidate>)
    requires forall c :: c in cands ==> !Causal(c.root)
    requires forall a, b :: a in cands && b in cands && a != b ==> a.key != b.key && !SameRoot(a.root.cid, b.root.cid)
    ensures ClocksAgree(cands)
  {
    forall a, b | a in cands && b in cands && a != b
      ensures !RelationOf(a, b).Same? && (Newer(a, b) || Newer(b, a))
      ensures RelationOf(a, b).LeftDescends? ==> Newer(a, b)
    {
      OrdinalTotal(a.key, b.key);
    }
  }
}
