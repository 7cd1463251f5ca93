/** When a merge can show an ancestor although a root that has seen it is there too. */
module MergeDescent {
  import opened Wrappers
  import opened Sorting
  import opened Merge
  import opened MergeOrder

  // ---------------------------------------------------------------------------------------------
  // Candidates of different AppKeys
  // ---------------------------------------------------------------------------------------------

  /** Different roots, and of any two candidates one is newer. */
  ghost predicate Comparable(cands: seq<Candidate>) {
    forall a, b :: a in cands && b in cands && a != b ==> !RelationOf(a, b).Same? && (Newer(a, b) || Newer(b, a))
  }

  /** Candidates by different AppKeys from different roots are comparable. */
  lemma DifferentKeysCompare(cands: seq<Candidate>)
    requires forall a, b :: a in cands && b in cands && a != b ==> a.key != b.key && !SameRoot(a.root.cid, b.root.cid)
    ensures Comparable(cands)
  {
    forall a, b | a in cands && b in cands && a != b ensures !RelationOf(a, b).Same? && (Newer(a, b) || Newer(b, a)) {
      OrdinalTotal(a.key, b.key);
    }
  }

  lemma OneWins(a: Candidate, b: Candidate)
    requires !RelationOf(a, b).Same? && (Newer(a, b) || Newer(b, a))
    ensures !Wins(a, b) ==> StrictlyWins(b, a)
    ensures StrictlyWins(a, b) || StrictlyWins(b, a)
  {
    RelationFlips(a, b);
    StrictlyWinsIff(a, b);
    StrictlyWinsIff(b, a);
  }

  lemma {:induction false} Newest(cands: seq<Candidate>) returns (n: Candidate)
    requires cands != [] && Comparable(cands)
    ensures n in cands && forall c :: c in cands && c != n ==> Newer(n, c)
  {
    if |cands| == 1 {
      n := cands[0];
    } else {
      var rest, last := cands[..|cands| - 1], cands[|cands| - 1];
      assert cands == rest + [last];
      var before := Newest(rest);
      assert before in cands && last in cands;
      n := if Newer(last, before) then last else before;
      forall c | c in cands && c != n ensures Newer(n, c) {
        if Newer(last, before) && c != before {
          assert c in rest;
          NewerIsTransitive(last, before, c);
        }
      }
    }
  }

  // ---------------------------------------------------------------------------------------------
  // Orders that end with a given winner
  // ---------------------------------------------------------------------------------------------

  lemma {:induction false} WinnerHolds(order: seq<Candidate>) returns (i: nat)
    requires order != []
    ensures i < |order| && Winner(order) == order[i]
    ensures forall j :: i < j < |order| ==> !Wins(order[j], order[i])
  {
    var n := |order| - 1;
    if n == 0 || Wins(order[n], Winner(order[..n])) {
      i := n;
    } else {
      i := WinnerHolds(order[..n]);
    }
  }

  predicate Beaten(order: seq<Candidate>, i: nat)
    requires i < |order|
  {
    exists j :: i < j < |order| && Wins(order[j], order[i])
  }

  /** Every candidate but the last has a later one that wins over it. */
  ghost predicate Climbs(order: seq<Candidate>) {
    forall i :: 0 <= i < |order| - 1 ==> Beaten(order, i)
  }

  lemma ClimbsToLast(order: seq<Candidate>)
    requires order != [] && Climbs(order)
    ensures Winner(order) == order[|order| - 1]
  {
    var i := WinnerHolds(order);
    assert !Beaten(order, i);
  }

  lemma BeatenShift(order: seq<Candidate>, u: Candidate, i: nat)
    requires i < |order| && Beaten(order, i)
    ensures Beaten([u] + order, i + 1)
  {
    var longer := [u] + order;
    var j :| i < j < |order| && Wins(order[j], order[i]);
    assert longer[j + 1] == order[j] && longer[i + 1] == order[i];
  }

  lemma ClimbOne(order: seq<Candidate>, x: Candidate, u: Candidate)
    requires Climbs(order) && x in order && Wins(x, u)
    ensures Climbs([u] + order)
  {
    var longer := [u] + order;
    var k :| 0 <= k < |order| && order[k] == x;
    assert longer[k + 1] == x && longer[0] == u;
    assert Beaten(longer, 0);
    forall i | 0 < i < |longer| - 1 ensures Beaten(longer, i) {
      BeatenShift(order, u, i - 1);
    }
  }

  /** Puts in front what some member wins over, until nothing outside is left to win over. */
  lemma {:induction false} Grow(order: seq<Candidate>, rest: seq<Candidate>) returns (grown: seq<Candidate>, left: seq<Candidate>)
    requires order != [] && Climbs(order)
    ensures grown != [] && Climbs(grown) && grown[|grown| - 1] == order[|order| - 1]
    ensures multiset(grown) + multiset(left) == multiset(order) + multiset(rest)
    ensures forall x, u :: x in grown && u in left ==> !Wins(x, u)
    decreases |rest|
  {
    if x, u :| x in order && u in rest && Wins(x, u) {
      ClimbOne(order, x, u);
      WithoutElements(rest, u);
      assert |multiset(rest)| == |rest| && |multiset(Without(rest, u))| == |Without(rest, u)|;
      assert multiset([u] + order) == multiset{u} + multiset(order);
      grown, left := Grow([u] + order, Without(rest, u));
    } else {
      grown, left := order, rest;
    }
  }

  lemma {:induction false} LosersChangeNothing(front: seq<Candidate>, losers: seq<Candidate>)
    requires front != [] && forall x :: x in losers ==> !Wins(x, Winner(front))
    ensures Winner(front + losers) == Winner(front)
  {
    if losers == [] {
      assert front + losers == front;
    } else {
      var n := |losers| - 1;
      LosersChangeNothing(front, losers[..n]);
      assert (front + losers)[..|front| + n] == front + losers[..n];
      assert losers[n] in losers;
    }
  }

  // ---------------------------------------------------------------------------------------------
  // When an ancestor is shown
  // ---------------------------------------------------------------------------------------------

  ghost predicate Superseded(cands: seq<Candidate>, w: Candidate) {
    exists d :: d in cands && RelationOf(d, w).LeftDescends?
  }

  ghost predicate ShowsAncestor(order: seq<Candidate>, cands: seq<Candidate>) {
    order != [] && multiset(order) == multiset(cands) && Superseded(cands, Winner(order))
  }

  /** A candidate that wins in every order has no descendant among the others. */
  lemma DominantIsNotSuperseded(cands: seq<Candidate>, w: Candidate, c: Candidate)
    requires Dominates(cands, w) && c in cands && c != w
    ensures !RelationOf(c, w).LeftDescends?
  {
    StrictlyWinsIff(w, c);
    RelationFlips(w, c);
  }

  lemma PartsOf(cands: seq<Candidate>, a: seq<Candidate>, b: seq<Candidate>)
    requires multiset(a) + multiset(b) == multiset(cands)
    ensures forall c :: c in cands <==> c in a || c in b
    ensures |a| + |b| == |cands| && multiset(b + a) == multiset(cands)
  {
    assert multiset(b + a) == multiset(b) + multiset(a);
    SameElements(b + a, cands);
    assert |multiset(b + a)| == |b + a| && |multiset(cands)| == |cands|;
  }

  /** What dominates the part that nothing else wins over dominates everything. */
  lemma DominatesAll(cands: seq<Candidate>, grown: seq<Candidate>, left: seq<Candidate>, w: Candidate)
    requires Comparable(cands) && Dominates(left, w)
    requires forall c :: c in cands <==> c in grown || c in left
    requires forall x :: x in grown ==> !Wins(x, w)
    ensures Dominates(cands, w)
  {
    forall c | c in cands && c != w ensures StrictlyWins(w, c) {
      if c in grown {
        OneWins(c, w);
      }
    }
  }

  lemma NewestIsSuperseded(cands: seq<Candidate>, n: Candidate)
    requires Comparable(cands) && n in cands && (forall c :: c in cands && c != n ==> Newer(n, c))
    requires !Dominates(cands, n)
    ensures Superseded(cands, n)
  {
    var d :| d in cands && d != n && !StrictlyWins(n, d);
    OneWins(n, d);
    StrictlyWinsIff(d, n);
    NewerIsStrict(n, d);
    assert RelationOf(d, n).LeftDescends?;
  }

  /**
   With nothing dominating, some order ends with an ancestor.  If the newest candidate can be made
   the last one standing, it is one; otherwise those it cannot reach beat all the rest among them.
  */
  lemma {:induction false} AncestorIsShown(cands: seq<Candidate>) returns (order: seq<Candidate>)
    requires cands != [] && Comparable(cands) && !exists w :: Dominates(cands, w)
    ensures ShowsAncestor(order, cands)
    decreases |cands|
  {
    var n := Newest(cands);
    WithoutElements(cands, n);
    var grown, left := Grow([n], Without(cands, n));
    assert multiset([n]) == multiset{n};
    PartsOf(cands, grown, left);
    ClimbsToLast(grown);
    if left == [] {
      NewestIsSuperseded(cands, n);
      order := grown;
    } else {
      if w :| Dominates(left, w) {
        DominatesAll(cands, grown, left, w);
      }
      var front := AncestorIsShown(left);
      SameElements(front, left);
      WinnerIsOne(front);
      LosersChangeNothing(front, grown);
      order := front + grown;
      assert multiset(order) == multiset(front) + multiset(grown);
    }
  }

  /**
   Among comparable candidates, some order shows an ancestor of one of them exactly when no candidate
   wins strictly over all others.
  */
  lemma AncestorIsShownIff(cands: seq<Candidate>)
    requires cands != [] && Comparable(cands)
    ensures (exists order :: ShowsAncestor(order, cands)) <==> !exists w :: Dominates(cands, w)
  {
    if w :| Dominates(cands, w) {
      forall order ensures !ShowsAncestor(order, cands) {
        if order != [] && multiset(order) == multiset(cands) {
          SameElements(order, cands);
          DominantWins(order, w);
          forall d | d in cands ensures !RelationOf(d, w).LeftDescends? {
            if d != w {
              DominantIsNotSuperseded(cands, w, d);
            }
          }
        }
      }
    } else {
      var order := AncestorIsShown(cands);
    }
  }

  // ---------------------------------------------------------------------------------------------
  // The merged view
  // ---------------------------------------------------------------------------------------------

  /** In this order the view shows a file although a root that has seen it offers another one. */
  ghost predicate ViewShowsAncestor(order: seq<Snapshot>, snapshots: seq<Snapshot>, authorized: set<Key>,
                                    ignored: string -> bool, path: string) {
    var view := MergedView(order, authorized, ignored);
    && multiset(order) == multiset(snapshots) && path in view.files
    && Superseded(CandidatesFor(snapshots, authorized, ignored, Slot(path, false, false)), view.files[path])
  }

  lemma ShownWrite(order: seq<Snapshot>, authorized: set<Key>, ignored: string -> bool, path: string)
    requires CandidatesFor(order, authorized, ignored, Slot(path, false, false)) != []
    requires CandidatesFor(order, authorized, ignored, Slot(path, true, false)) == []
    ensures var view := MergedView(order, authorized, ignored);
            path in view.files
            && view.files[path] == Winner(CandidatesFor(order, authorized, ignored, Slot(path, false, false)))
  {
    var offers := AllOffers(order, authorized, ignored);
    LookupIsWinner(offers, Slot(path, false, false));
    LookupIsWinner(offers, Slot(path, true, false));
    WriteIsVisible(AddOffers(offers), path);
  }

  /**
   For a path that source roots write and none removes, some order of the snapshots makes the view
   show an ancestor of a file at hand exactly when no candidate wins strictly over all others.
  */
  lemma ViewShowsAncestorIff(snapshots: seq<Snapshot>, authorized: set<Key>, ignored: string -> bool, path: string)
    requires Separate(snapshots, authorized, ignored, Slot(path, false, false))
    requires CandidatesFor(snapshots, authorized, ignored, Slot(path, false, false)) != []
    requires CandidatesFor(snapshots, authorized, ignored, Slot(path, true, false)) == []
    requires Comparable(CandidatesFor(snapshots, authorized, ignored, Slot(path, false, false)))
    ensures (exists order :: ViewShowsAncestor(order, snapshots, authorized, ignored, path)) <==>
            !Decided(snapshots, authorized, ignored, Slot(path, false, false))
  {
    var slot := Slot(path, false, false);
    var cands := CandidatesFor(snapshots, authorized, ignored, slot);
    AncestorIsShownIff(cands);
    if order :| ViewShowsAncestor(order, snapshots, authorized, ignored, path) {
      NoneInAnyOrder(order, snapshots, authorized, ignored, slot);
      NoneInAnyOrder(order, snapshots, authorized, ignored, Slot(path, true, false));
      ShownWrite(order, authorized, ignored, path);
      CandidatesReorder(order, snapshots, authorized, ignored, slot);
      assert ShowsAncestor(CandidatesFor(order, authorized, ignored, slot), cands);
    }
    if target :| ShowsAncestor(target, cands) {
      var order := Realize(snapshots, authorized, ignored, slot, target);
      NoneInAnyOrder(order, snapshots, authorized, ignored, Slot(path, true, false));
      ShownWrite(order, authorized, ignored, path);
      assert ViewShowsAncestor(order, snapshots, authorized, ignored, path);
    }
  }
}
