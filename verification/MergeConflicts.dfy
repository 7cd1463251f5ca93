/** Which conflicts a merge reports, and exactly when the report depends on the order. */
module MergeConflicts {
  import opened Wrappers
  import opened Sorting
  import opened Merge
  import opened MergeOrder

  // ---------------------------------------------------------------------------------------------
  // Which conflicts are reported
  // ---------------------------------------------------------------------------------------------

  /** Some candidate conflicts with the one it meets. */
  predicate Flagged(cands: seq<Candidate>) {
    var n := |cands| - 1;
    n > 0 && (Flagged(cands[..n]) || WriteConflict(cands[n], Winner(cands[..n])))
  }

  lemma ConflictsAfter(t: Tables, o: Offer, path: string)
    ensures path in AddOffer(t, o).conflicts <==>
            path in t.conflicts ||
            (o.slot == Slot(path, false, false) && path in t.writes && WriteConflict(o.candidate, t.writes[path]))
  {
  }

  lemma {:induction false} ReportedIsFlagged(offers: seq<Offer>, path: string)
    ensures path in AddOffers(offers).conflicts <==> Flagged(InSlot(offers, Slot(path, false, false)))
  {
    if offers != [] {
      var slot := Slot(path, false, false);
      var rest, last := offers[..|offers| - 1], offers[|offers| - 1];
      var cands := InSlot(rest, slot);
      ReportedIsFlagged(rest, path);
      LookupIsWinner(rest, slot);
      ConflictsAfter(AddOffers(rest), last, path);
      if last.slot == slot {
        assert (cands + [last.candidate])[..|cands|] == cands;
      } else {
        assert cands + [] == cands;
      }
    }
  }

  ghost predicate HasConflict(cands: seq<Candidate>) {
    exists a, b :: a in cands && b in cands && WriteConflict(a, b)
  }

  lemma {:induction false} FlaggedHasConflict(cands: seq<Candidate>)
    requires Flagged(cands)
    ensures HasConflict(cands)
  {
    var n := |cands| - 1;
    var rest := cands[..n];
    assert cands == rest + [cands[n]];
    if Flagged(rest) {
      FlaggedHasConflict(rest);
      var a, b :| a in rest && b in rest && WriteConflict(a, b);
      assert a in cands && b in cands;
    } else {
      WinnerIsOne(rest);
      assert cands[n] in cands && Winner(rest) in cands;
    }
  }

  lemma {:induction false} FlaggedStays(front: seq<Candidate>, rest: seq<Candidate>)
    requires Flagged(front)
    ensures Flagged(front + rest)
  {
    if rest == [] {
      assert front + rest == front;
    } else {
      FlaggedStays(front, rest[..|rest| - 1]);
      assert (front + rest)[..|front + rest| - 1] == front + rest[..|rest| - 1];
    }
  }

  lemma FlaggedOfTwo(x: Candidate, y: Candidate)
    ensures Flagged([x, y]) <==> WriteConflict(y, x)
  {
    assert [x, y][..1] == [x];
  }

  ghost predicate ReportedIn(order: seq<Candidate>, cands: seq<Candidate>) {
    multiset(order) == multiset(cands) && Flagged(order)
  }

  /**
   Some order of the candidates reports a conflict exactly when two of them are concurrent edits
   with different content; which orders do depends on which of them meet.
  */
  lemma SomeOrderReportsIff(cands: seq<Candidate>)
    ensures (exists order :: ReportedIn(order, cands)) <==> HasConflict(cands)
  {
    if order :| ReportedIn(order, cands) {
      FlaggedHasConflict(order);
      SameElements(order, cands);
    }
    if HasConflict(cands) {
      var a, b :| a in cands && b in cands && WriteConflict(a, b);
      var rest := FirstTwo(cands, b, a);
      var order := [b, a] + rest;
      FlaggedOfTwo(b, a);
      FlaggedStays([b, a], rest);
      assert ReportedIn(order, cands);
    }
  }

  // ---------------------------------------------------------------------------------------------
  // Orders that report nothing
  // ---------------------------------------------------------------------------------------------

  predicate QuietlyWins(x: Candidate, c: Candidate) {
    Wins(x, c) && !WriteConflict(x, c)
  }

  predicate QuietlyLoses(x: Candidate, c: Candidate) {
    !Wins(x, c) && !WriteConflict(x, c)
  }

  predicate LosesToSome(x: Candidate, chain: seq<Candidate>) {
    exists i :: 0 <= i < |chain| && QuietlyLoses(x, chain[i])
  }

  /**
   Candidates that win one over the other without conflict, such that every other candidate loses to
   one of them without conflict.
  */
  ghost predicate QuietChain(chain: seq<Candidate>, cands: seq<Candidate>) {
    && chain != [] && EachOnce(chain) && (forall c :: c in chain ==> c in cands)
    && (forall i :: 0 < i < |chain| ==> QuietlyWins(chain[i], chain[i - 1]))
    && forall x :: x in cands && x !in chain ==> LosesToSome(x, chain)
  }

  lemma OnceMore<T>(s: seq<T>, x: T)
    ensures EachOnce(s + [x]) <==> EachOnce(s) && x !in s
  {
    assert multiset(s + [x]) == multiset(s) + multiset{x};
    if EachOnce(s + [x]) {
      assert x in s + [x];
      forall y | y in s ensures multiset(s)[y] == 1 && y != x {
        assert y in s + [x] && multiset(s)[y] >= 1;
      }
    } else {
      var y :| y in s + [x] && multiset(s + [x])[y] != 1;
      assert y in s || y == x;
    }
  }

  lemma LongerChain(chain: seq<Candidate>, cands: seq<Candidate>, x: Candidate)
    requires QuietChain(chain, cands) && x !in cands && QuietlyWins(x, chain[|chain| - 1])
    ensures QuietChain(chain + [x], cands + [x])
  {
    OnceMore(chain, x);
    var longer := chain + [x];
    forall y | y in cands + [x] && y !in longer ensures LosesToSome(y, longer) {
      var i :| 0 <= i < |chain| && QuietlyLoses(y, chain[i]);
      assert longer[i] == chain[i];
    }
  }

  lemma SameChain(chain: seq<Candidate>, cands: seq<Candidate>, x: Candidate)
    requires QuietChain(chain, cands) && LosesToSome(x, chain)
    ensures QuietChain(chain, cands + [x])
  {
  }

  /** The winners of an order that reports nothing, one after the other. */
  lemma {:induction false} ChainOf(order: seq<Candidate>) returns (chain: seq<Candidate>)
    requires order != [] && EachOnce(order) && !Flagged(order)
    ensures QuietChain(chain, order) && chain[|chain| - 1] == Winner(order)
  {
    var n := |order| - 1;
    if n == 0 {
      chain := order;
    } else {
      var rest, last := order[..n], order[n];
      assert order == rest + [last];
      OnceMore(rest, last);
      chain := ChainOf(rest);
      if Wins(last, Winner(rest)) {
        LongerChain(chain, rest, last);
        chain := chain + [last];
      } else {
        assert QuietlyLoses(last, chain[|chain| - 1]);
        SameChain(chain, rest, last);
      }
    }
  }

  function Losers(rest: seq<Candidate>, c: Candidate): seq<Candidate> {
    if rest == [] then []
    else (if QuietlyLoses(rest[0], c) then [rest[0]] else []) + Losers(rest[1..], c)
  }

  function Others(rest: seq<Candidate>, c: Candidate): seq<Candidate> {
    if rest == [] then []
    else (if QuietlyLoses(rest[0], c) then [] else [rest[0]]) + Others(rest[1..], c)
  }

  lemma {:induction false} LosersAndOthers(rest: seq<Candidate>, c: Candidate)
    ensures multiset(Losers(rest, c)) + multiset(Others(rest, c)) == multiset(rest)
    ensures forall x :: x in Losers(rest, c) ==> QuietlyLoses(x, c)
    ensures forall x :: x in Others(rest, c) ==> x in rest && !QuietlyLoses(x, c)
  {
    if rest != [] {
      var x, tail := rest[0], rest[1..];
      LosersAndOthers(tail, c);
      OneOrTheOther(x, tail, Losers(tail, c), Others(tail, c), rest);
    }
  }

  lemma OneOrTheOther<T>(x: T, tail: seq<T>, a: seq<T>, b: seq<T>, s: seq<T>)
    requires s == [x] + tail && multiset(a) + multiset(b) == multiset(tail)
    ensures multiset([x] + a) + multiset([] + b) == multiset(s)
    ensures multiset([] + a) + multiset([x] + b) == multiset(s)
  {
    assert [] + a == a && [] + b == b;
    assert multiset(s) == multiset{x} + multiset(tail);
    assert multiset([x] + a) == multiset{x} + multiset(a) && multiset([x] + b) == multiset{x} + multiset(b);
  }

  /** The order so far reports nothing and ends with this winner. */
  predicate QuietUpTo(order: seq<Candidate>, w: Candidate) {
    order != [] && !Flagged(order) && Winner(order) == w
  }

  lemma QuietStep(order: seq<Candidate>, w: Candidate, x: Candidate)
    requires QuietUpTo(order, w)
    ensures QuietlyWins(x, w) ==> QuietUpTo(order + [x], x)
    ensures QuietlyLoses(x, w) ==> QuietUpTo(order + [x], w)
  {
    assert (order + [x])[..|order|] == order;
  }

  lemma {:induction false} QuietLosers(order: seq<Candidate>, w: Candidate, losers: seq<Candidate>)
    requires QuietUpTo(order, w) && forall x :: x in losers ==> QuietlyLoses(x, w)
    ensures QuietUpTo(order + losers, w)
  {
    if losers == [] {
      assert order + losers == order;
    } else {
      var front, last := losers[..|losers| - 1], losers[|losers| - 1];
      assert losers == front + [last] && last in losers;
      QuietLosers(order, w, front);
      QuietStep(order + front, w, last);
      assert (order + front) + [last] == order + losers;
    }
  }

  lemma JoinParts(order: seq<Candidate>, losers: seq<Candidate>, others: seq<Candidate>, rest: seq<Candidate>)
    requires multiset(losers) + multiset(others) == multiset(rest)
    ensures multiset(order + losers) + multiset(others) == multiset(order) + multiset(rest)
  {
    assert multiset(order + losers) == multiset(order) + multiset(losers);
  }

  lemma MoveOne(order: seq<Candidate>, x: Candidate, tail: seq<Candidate>)
    requires tail != [] && tail[0] == x
    ensures multiset(order + [x]) + multiset(tail[1..]) == multiset(order) + multiset(tail)
  {
    assert tail == [x] + tail[1..];
    assert multiset(order + [x]) == multiset(order) + multiset{x};
    assert multiset([x] + tail[1..]) == multiset{x} + multiset(tail[1..]);
  }

  /** Follows the chain, putting behind each member the candidates that lose to it first. */
  lemma {:induction false} Arrange(order: seq<Candidate>, chain: seq<Candidate>, rest: seq<Candidate>)
    returns (whole: seq<Candidate>)
    requires chain != [] && QuietUpTo(order, chain[0])
    requires forall i :: 0 < i < |chain| ==> QuietlyWins(chain[i], chain[i - 1])
    requires forall x :: x in rest ==> LosesToSome(x, chain)
    ensures whole != [] && !Flagged(whole)
    ensures multiset(whole) == multiset(order) + multiset(chain[1..]) + multiset(rest)
    decreases |chain|
  {
    var losers, others := Losers(rest, chain[0]), Others(rest, chain[0]);
    LosersAndOthers(rest, chain[0]);
    QuietLosers(order, chain[0], losers);
    JoinParts(order, losers, others, rest);
    var tail := chain[1..];
    OthersLoseLater(others, chain);
    if tail == [] {
      assert others == [];
      whole := order + losers;
    } else {
      QuietStep(order + losers, chain[0], tail[0]);
      MoveOne(order + losers, tail[0], tail);
      whole := Arrange(order + losers + [tail[0]], tail, others);
    }
  }

  lemma OthersLoseLater(others: seq<Candidate>, chain: seq<Candidate>)
    requires chain != [] && forall x :: x in others ==> LosesToSome(x, chain) && !QuietlyLoses(x, chain[0])
    ensures forall x :: x in others ==> LosesToSome(x, chain[1..])
    ensures |chain| == 1 ==> others == []
  {
    forall x | x in others ensures LosesToSome(x, chain[1..]) {
      var i :| 0 <= i < |chain| && QuietlyLoses(x, chain[i]);
      assert chain[1..][i - 1] == chain[i];
    }
    if others != [] && |chain| == 1 {
      assert others[0] in others;
    }
  }

  function Outside(cands: seq<Candidate>, chain: seq<Candidate>): seq<Candidate> {
    if cands == [] then []
    else (if cands[0] in chain then [] else [cands[0]]) + Outside(cands[1..], chain)
  }

  lemma {:induction false} OutsideCount(cands: seq<Candidate>, chain: seq<Candidate>, x: Candidate)
    ensures multiset(Outside(cands, chain))[x] == if x in chain then 0 else multiset(cands)[x]
  {
    if cands != [] {
      OutsideCount(cands[1..], chain, x);
      FirstAndRest(cands);
      CountFirst(cands[0], cands[1..], x);
      CountFirst(cands[0], Outside(cands[1..], chain), x);
      NoneBefore(Outside(cands[1..], chain));
    }
  }

  lemma CountFirst<T>(first: T, rest: seq<T>, x: T)
    ensures multiset([first] + rest)[x] == (if first == x then 1 else 0) + multiset(rest)[x]
  {
  }

  lemma NoneBefore<T>(s: seq<T>)
    ensures [] + s == s
  {
  }

  lemma ChainAndOutside(cands: seq<Candidate>, chain: seq<Candidate>)
    requires EachOnce(cands) && EachOnce(chain) && forall c :: c in chain ==> c in cands
    ensures multiset(chain) + multiset(Outside(cands, chain)) == multiset(cands)
    ensures forall x :: x in Outside(cands, chain) ==> x in cands && x !in chain
  {
    forall x ensures multiset(chain)[x] + multiset(Outside(cands, chain))[x] == multiset(cands)[x] {
      OutsideCount(cands, chain, x);
      if x in chain {
        assert x in cands;
      } else {
        assert x !in multiset(chain);
      }
    }
    forall x | x in Outside(cands, chain) ensures x in cands && x !in chain {
      OutsideCount(cands, chain, x);
      assert x in multiset(Outside(cands, chain));
      assert x in multiset(cands);
    }
  }

  ghost predicate QuietOrder(order: seq<Candidate>, cands: seq<Candidate>) {
    multiset(order) == multiset(cands) && !Flagged(order)
  }

  lemma OneAndRest<T>(a: seq<T>, b: seq<T>)
    ensures multiset(a + b) == multiset(a) + multiset(b)
  {
  }

  lemma ChainGivesOrder(cands: seq<Candidate>, chain: seq<Candidate>) returns (order: seq<Candidate>)
    requires EachOnce(cands) && QuietChain(chain, cands)
    ensures QuietOrder(order, cands)
  {
    ChainAndOutside(cands, chain);
    FirstAndRest(chain);
    OneAndRest([chain[0]], chain[1..]);
    assert !Flagged([chain[0]]) && Winner([chain[0]]) == chain[0];
    order := Arrange([chain[0]], chain, Outside(cands, chain));
  }

  lemma OrderGivesChain(cands: seq<Candidate>, order: seq<Candidate>) returns (chain: seq<Candidate>)
    requires cands != [] && EachOnce(cands) && QuietOrder(order, cands)
    ensures QuietChain(chain, cands)
  {
    assert |order| == |multiset(order)| && |cands| == |multiset(cands)|;
    SameElements(order, cands);
    chain := ChainOf(order);
  }

  /** Some order of the candidates reports nothing exactly when they have a quiet chain. */
  lemma SomeOrderIsQuietIff(cands: seq<Candidate>)
    requires cands != [] && EachOnce(cands)
    ensures (exists order :: QuietOrder(order, cands)) <==> exists chain :: QuietChain(chain, cands)
  {
    if order :| QuietOrder(order, cands) {
      var chain := OrderGivesChain(cands, order);
    }
    if chain :| QuietChain(chain, cands) {
      var order := ChainGivesOrder(cands, chain);
    }
  }

  ghost predicate SameReport(cands: seq<Candidate>) {
    forall order: seq<Candidate> :: multiset(order) == multiset(cands) ==> (Flagged(order) <==> Flagged(cands))
  }

  /** Every order agrees: nothing conflicts, or nothing can keep the conflicting ones apart. */
  ghost predicate ReportDecided(cands: seq<Candidate>) {
    !HasConflict(cands) || !exists chain :: QuietChain(chain, cands)
  }

  /**
   Whether a conflict is reported is the same in every order exactly when no two candidates conflict,
   or no quiet chain exists.
  */
  lemma ReportIsOrderFreeIff(cands: seq<Candidate>)
    requires cands != [] && EachOnce(cands)
    ensures SameReport(cands) <==> ReportDecided(cands)
  {
    SomeOrderReportsIff(cands);
    SomeOrderIsQuietIff(cands);
    if SameReport(cands) && HasConflict(cands) {
      var loud :| ReportedIn(loud, cands);
      assert Flagged(loud) <==> Flagged(cands);
      forall quiet ensures !QuietOrder(quiet, cands) {
      }
    }
    if ReportDecided(cands) {
      forall order: seq<Candidate> | multiset(order) == multiset(cands) ensures Flagged(order) <==> Flagged(cands) {
        assert ReportedIn(order, cands) || QuietOrder(order, cands);
        assert ReportedIn(cands, cands) || QuietOrder(cands, cands);
      }
    }
  }

  /**
   In particular, once a root has seen all the others, a conflict between two of those is reported
   in some orders and not in others.
  */
  lemma ResolvedReportVaries(cands: seq<Candidate>, w: Candidate)
    requires EachOnce(cands) && w in cands
    requires forall c :: c in cands && c != w ==> RelationOf(w, c).LeftDescends?
    requires HasConflict(cands)
    ensures !SameReport(cands)
  {
    forall c | c in cands && c !in [w] ensures LosesToSome(c, [w]) {
      assert c != w by { assert w in [w]; }
      RelationFlips(w, c);
      assert QuietlyLoses(c, [w][0]);
    }
    assert multiset([w]) == multiset{w};
    assert QuietChain([w], cands);
    ReportIsOrderFreeIff(cands);
  }

  // ---------------------------------------------------------------------------------------------
  // The report of the merged view
  // ---------------------------------------------------------------------------------------------

  function Finished(snapshots: seq<Snapshot>, authorized: set<Key>, ignored: string -> bool): (Table, Table) {
    var t := AddOffers(AllOffers(snapshots, authorized, ignored));
    (WithLocalWrites(t), WithLocalTombstones(t))
  }

  /** The winning write and the winning tombstone of the path are concurrent edits. */
  predicate DeleteNoted(snapshots: seq<Snapshot>, authorized: set<Key>, ignored: string -> bool, path: string) {
    var (writes, tombstones) := Finished(snapshots, authorized, ignored);
    DeleteConflict(writes, tombstones, path)
  }

  predicate Reported(snapshots: seq<Snapshot>, authorized: set<Key>, ignored: string -> bool, path: string) {
    path in MergedView(snapshots, authorized, ignored).conflicts
  }

  lemma ReportedIff(snapshots: seq<Snapshot>, authorized: set<Key>, ignored: string -> bool, path: string)
    ensures Reported(snapshots, authorized, ignored, path) <==>
            Flagged(CandidatesFor(snapshots, authorized, ignored, Slot(path, false, false)))
            || DeleteNoted(snapshots, authorized, ignored, path)
  {
    ReportedIsFlagged(AllOffers(snapshots, authorized, ignored), path);
  }

  /** The tables of the path are the same in every order. */
  ghost predicate PathDecided(snapshots: seq<Snapshot>, authorized: set<Key>, ignored: string -> bool, path: string) {
    forall tombstone, localOnly :: Decided(snapshots, authorized, ignored, Slot(path, tombstone, localOnly))
  }

  /** Source roots write the path and none of them removes it. */
  ghost predicate OnlyWritten(snapshots: seq<Snapshot>, authorized: set<Key>, ignored: string -> bool, path: string) {
    && CandidatesFor(snapshots, authorized, ignored, Slot(path, false, false)) != []
    && CandidatesFor(snapshots, authorized, ignored, Slot(path, true, false)) == []
  }

  lemma SamePathSameNote(order: seq<Snapshot>, snapshots: seq<Snapshot>, authorized: set<Key>, ignored: string -> bool,
                         path: string)
    requires multiset(order) == multiset(snapshots) && PathDecided(snapshots, authorized, ignored, path)
    ensures DeleteNoted(order, authorized, ignored, path) <==> DeleteNoted(snapshots, authorized, ignored, path)
  {
    var a, b := AddOffers(AllOffers(order, authorized, ignored)), AddOffers(AllOffers(snapshots, authorized, ignored));
    forall tombstone, localOnly
      ensures Lookup(a, Slot(path, tombstone, localOnly)) == Lookup(b, Slot(path, tombstone, localOnly))
    {
      DecidedIsKept(order, snapshots, authorized, ignored, Slot(path, tombstone, localOnly));
    }
    SameLookupsSamePath(a, b, path);
  }

  lemma SameLookupsSamePath(a: Tables, b: Tables, path: string)
    requires forall tombstone, localOnly :: Lookup(a, Slot(path, tombstone, localOnly)) == Lookup(b, Slot(path, tombstone, localOnly))
    ensures DeleteConflict(WithLocalWrites(a), WithLocalTombstones(a), path) <==>
            DeleteConflict(WithLocalWrites(b), WithLocalTombstones(b), path)
  {
    assert Lookup(a, Slot(path, false, false)) == Lookup(b, Slot(path, false, false));
    assert Lookup(a, Slot(path, true, false)) == Lookup(b, Slot(path, true, false));
    assert Lookup(a, Slot(path, false, true)) == Lookup(b, Slot(path, false, true));
    assert Lookup(a, Slot(path, true, true)) == Lookup(b, Slot(path, true, true));
  }

  lemma OnlyWrittenNotesNothing(snapshots: seq<Snapshot>, authorized: set<Key>, ignored: string -> bool, path: string)
    requires OnlyWritten(snapshots, authorized, ignored, path)
    ensures !DeleteNoted(snapshots, authorized, ignored, path)
  {
    var offers := AllOffers(snapshots, authorized, ignored);
    LookupIsWinner(offers, Slot(path, false, false));
    LookupIsWinner(offers, Slot(path, true, false));
    LocalTablesFillIn(AddOffers(offers), path);
  }

  lemma OnlyWrittenInAnyOrder(order: seq<Snapshot>, snapshots: seq<Snapshot>, authorized: set<Key>, ignored: string -> bool,
                              path: string)
    requires multiset(order) == multiset(snapshots) && OnlyWritten(snapshots, authorized, ignored, path)
    ensures OnlyWritten(order, authorized, ignored, path)
  {
    NoneInAnyOrder(order, snapshots, authorized, ignored, Slot(path, false, false));
    NoneInAnyOrder(order, snapshots, authorized, ignored, Slot(path, true, false));
  }

  lemma NoteIsOrderFree(order: seq<Snapshot>, snapshots: seq<Snapshot>, authorized: set<Key>, ignored: string -> bool,
                        path: string)
    requires multiset(order) == multiset(snapshots)
    requires PathDecided(snapshots, authorized, ignored, path) || OnlyWritten(snapshots, authorized, ignored, path)
    ensures DeleteNoted(order, authorized, ignored, path) <==> DeleteNoted(snapshots, authorized, ignored, path)
  {
    if OnlyWritten(snapshots, authorized, ignored, path) {
      OnlyWrittenInAnyOrder(order, snapshots, authorized, ignored, path);
      OnlyWrittenNotesNothing(order, authorized, ignored, path);
      OnlyWrittenNotesNothing(snapshots, authorized, ignored, path);
    } else {
      SamePathSameNote(order, snapshots, authorized, ignored, path);
    }
  }

  ghost predicate SameReportInEveryOrder(snapshots: seq<Snapshot>, authorized: set<Key>, ignored: string -> bool, path: string) {
    forall order: seq<Snapshot> :: multiset(order) == multiset(snapshots) ==>
      (Reported(order, authorized, ignored, path) <==> Reported(snapshots, authorized, ignored, path))
  }

  /**
   Whether the merged view reports a path is the same in every order of the snapshots exactly when a
   write/delete conflict is noted anyway, no two writes conflict, or no quiet chain exists: for every
   path that is only written, and for every path whose winners do not depend on the order.
  */
  lemma ViewReportIsOrderFreeIff(snapshots: seq<Snapshot>, authorized: set<Key>, ignored: string -> bool, path: string)
    requires Separate(snapshots, authorized, ignored, Slot(path, false, false))
    requires CandidatesFor(snapshots, authorized, ignored, Slot(path, false, false)) != []
    requires PathDecided(snapshots, authorized, ignored, path) || OnlyWritten(snapshots, authorized, ignored, path)
    ensures SameReportInEveryOrder(snapshots, authorized, ignored, path) <==>
            || DeleteNoted(snapshots, authorized, ignored, path)
            || ReportDecided(CandidatesFor(snapshots, authorized, ignored, Slot(path, false, false)))
  {
    var slot := Slot(path, false, false);
    var cands := CandidatesFor(snapshots, authorized, ignored, slot);
    ReportIsOrderFreeIff(cands);
    ReportedIff(snapshots, authorized, ignored, path);
    if DeleteNoted(snapshots, authorized, ignored, path) || SameReport(cands) {
      forall order: seq<Snapshot> | multiset(order) == multiset(snapshots)
        ensures Reported(order, authorized, ignored, path) <==> Reported(snapshots, authorized, ignored, path)
      {
        ReportedIff(order, authorized, ignored, path);
        NoteIsOrderFree(order, snapshots, authorized, ignored, path);
        CandidatesReorder(order, snapshots, authorized, ignored, slot);
      }
    } else {
      var target: seq<Candidate> :| multiset(target) == multiset(cands) && (Flagged(target) <==> !Flagged(cands));
      var order := Realize(snapshots, authorized, ignored, slot, target);
      ReportedIff(order, authorized, ignored, path);
      NoteIsOrderFree(order, snapshots, authorized, ignored, path);
    }
  }
}
