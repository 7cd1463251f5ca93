/** The replacement roles of a merge, and exactly when their order does not depend on that of the snapshots. */
module MergeRoles {
  import opened Wrappers
  import opened Sorting
  import opened Merge
  import opened MergeOrder

  lemma {:induction false} GatherConcat<T>(a: seq<Snapshot>, b: seq<Snapshot>, own: Snapshot -> seq<T>)
    ensures Gather(a + b, own) == Gather(a, own) + Gather(b, own)
  {
    if b == [] {
      assert a + b == a;
    } else {
      var n := |b| - 1;
      GatherConcat(a, b[..n], own);
      assert (a + b)[..|a| + n] == a + b[..n];
    }
  }

  lemma GatherFirst<T>(s: Snapshot, rest: seq<Snapshot>, own: Snapshot -> seq<T>)
    ensures Gather([s] + rest, own) == own(s) + Gather(rest, own)
  {
    assert [s][..0] == [];
    GatherConcat([s], rest, own);
  }

  lemma GatherInside<T>(before: seq<Snapshot>, s: Snapshot, after: seq<Snapshot>, own: Snapshot -> seq<T>)
    ensures Gather(before + [s] + after, own) == Gather(before, own) + own(s) + Gather(after, own)
  {
    assert before + [s] + after == before + ([s] + after);
    GatherConcat(before, [s] + after, own);
    GatherFirst(s, after, own);
  }

  lemma {:induction false} GatherReorder<T>(order: seq<Snapshot>, snapshots: seq<Snapshot>, own: Snapshot -> seq<T>)
    requires multiset(order) == multiset(snapshots)
    ensures multiset(Gather(order, own)) == multiset(Gather(snapshots, own))
    decreases |order|
  {
    assert |order| == |multiset(order)| && |snapshots| == |multiset(snapshots)|;
    if order != [] {
      SameElements(order, snapshots);
      assert order[0] in snapshots;
      var k :| 0 <= k < |snapshots| && snapshots[k] == order[0];
      var before, after := snapshots[..k], snapshots[k + 1..];
      WithoutOne(order, snapshots, k);
      GatherReorder(order[1..], before + after, own);
      GatherInside(before, order[0], after, own);
      GatherConcat(before, after, own);
      FirstAndRest(order);
      GatherFirst(order[0], order[1..], own);
      MoveToFront(Gather(before, own), own(order[0]), Gather(after, own), Gather(order[1..], own));
    }
  }

  lemma {:induction false} GatheredFrom<T>(snapshots: seq<Snapshot>, own: Snapshot -> seq<T>, x: T) returns (s: Snapshot)
    requires x in Gather(snapshots, own)
    ensures s in snapshots && x in own(s)
  {
    var n := |snapshots| - 1;
    if x in own(snapshots[n]) {
      s := snapshots[n];
    } else {
      s := GatheredFrom(snapshots[..n], own, x);
    }
  }

  ghost predicate SortsAlike<T(!new)>(snapshots: seq<Snapshot>, own: Snapshot -> seq<T>, le: (T, T) -> bool) {
    forall order: seq<Snapshot> :: multiset(order) == multiset(snapshots) ==>
      Sort(Gather(order, own), le) == Sort(Gather(snapshots, own), le)
  }

  ghost predicate NoTies<T(!new)>(s: seq<T>, le: (T, T) -> bool) {
    forall x, y :: x in s && y in s && Tied(x, y, le) ==> x == y
  }

  lemma {:induction false} FirstIsOwn<T>(s: seq<T>, rest: seq<T>, x: T, le: (T, T) -> bool)
    requires x in s && Tied(x, x, le) && forall y :: y in s && Tied(y, x, le) ==> y == x
    ensures FirstTied(s + rest, x, le) == [x]
  {
    assert (s + rest)[0] == s[0] && s[0] in s;
    if !Tied(s[0], x, le) {
      assert s == [s[0]] + s[1..];
      FirstIsOwn(s[1..], rest, x, le);
      assert (s + rest)[1..] == s[1..] + rest;
    }
  }

  /** The snapshot that offers x can be put first, and then x comes first among what ties with it. */
  lemma PutFirst<T(!new)>(snapshots: seq<Snapshot>, own: Snapshot -> seq<T>, le: (T, T) -> bool, x: T)
    returns (order: seq<Snapshot>)
    requires TotalPreorder(le) && x in Gather(snapshots, own) && forall s :: NoTies(own(s), le)
    ensures multiset(order) == multiset(snapshots) && FirstTied(Sort(Gather(order, own), le), x, le) == [x]
  {
    var s := GatheredFrom(snapshots, own, x);
    var rest := Without(snapshots, s);
    order := [s] + rest;
    WithoutElements(snapshots, s);
    assert multiset(order) == multiset{s} + multiset(rest);
    GatherFirst(s, rest, own);
    assert NoTies(own(s), le);
    FirstIsOwn(own(s), Gather(rest, own), x, le);
    SortKeepsFirst(Gather(order, own), x, le);
  }

  lemma {:induction false} SameFirstTied<T(!new)>(s: seq<T>, x: T, y: T, le: (T, T) -> bool)
    requires TotalPreorder(le) && Tied(x, y, le)
    ensures FirstTied(s, x, le) == FirstTied(s, y, le)
  {
    if s != [] {
      SameFirstTied(s[1..], x, y, le);
    }
  }

  /** What the snapshots contribute comes out sorted alike in every order exactly when nothing different ties. */
  lemma SortsAlikeIff<T(!new)>(snapshots: seq<Snapshot>, own: Snapshot -> seq<T>, le: (T, T) -> bool)
    requires TotalPreorder(le) && forall s :: NoTies(own(s), le)
    ensures SortsAlike(snapshots, own, le) <==> NoTies(Gather(snapshots, own), le)
  {
    var all := Gather(snapshots, own);
    if NoTies(all, le) {
      forall order: seq<Snapshot> | multiset(order) == multiset(snapshots)
        ensures Sort(Gather(order, own), le) == Sort(all, le)
      {
        GatherReorder(order, snapshots, own);
        SortPermutes(Gather(order, own), le);
        SortPermutes(all, le);
        SortSorts(Gather(order, own), le);
        SortSorts(all, le);
        SortElements(all, le);
        SortedIsUnique(Sort(all, le), Sort(Gather(order, own), le), le);
      }
    } else {
      var x, y :| x in all && y in all && Tied(x, y, le) && x != y;
      var a := PutFirst(snapshots, own, le, x);
      var b := PutFirst(snapshots, own, le, y);
      SameFirstTied(Sort(all, le), x, y, le);
    }
  }

  lemma RolesAreOrdered()
    ensures TotalPreorder(RoleBefore) && TotalPreorder(RoleRootBefore)
  {
    forall a: Role, b: Role ensures RoleBefore(a, b) || RoleBefore(b, a) {
      TextBeforeIsStrict(a.path, b.path);
      TextBeforeIsStrict(a.key, b.key);
    }
    forall a: Role, b: Role, c: Role | RoleBefore(a, b) && RoleBefore(b, c) ensures RoleBefore(a, c) {
      if TextBefore(a.path, b.path) && TextBefore(b.path, c.path) {
        TextBeforeTransitive(a.path, b.path, c.path);
      } else if TextBefore(a.key, b.key) && TextBefore(b.key, c.key) {
        TextBeforeTransitive(a.key, b.key, c.key);
      }
    }
    forall a: RoleRoot, b: RoleRoot ensures RoleRootBefore(a, b) || RoleRootBefore(b, a) {
      TextBeforeIsStrict(a.key, b.key);
      OrdinalTotal(a.root.cid.text, b.root.cid.text);
    }
    forall a: RoleRoot, b: RoleRoot, c: RoleRoot | RoleRootBefore(a, b) && RoleRootBefore(b, c) ensures RoleRootBefore(a, c) {
      if TextBefore(a.key, b.key) && TextBefore(b.key, c.key) {
        TextBeforeTransitive(a.key, b.key, c.key);
      } else if a.key == b.key == c.key {
        OrdinalTransitive(a.root.cid.text, b.root.cid.text, c.root.cid.text);
      }
    }
  }

  lemma TiedRoles(a: Role, b: Role)
    ensures Tied(a, b, RoleBefore) <==> a.path == b.path && a.key == b.key && a.generation == b.generation
  {
    TextBeforeIsStrict(a.path, b.path);
    TextBeforeIsStrict(a.key, b.key);
  }

  lemma TiedRoleRoots(a: RoleRoot, b: RoleRoot)
    ensures Tied(a, b, RoleRootBefore) <==> a.key == b.key && a.root.cid.text == b.root.cid.text
  {
    TextBeforeIsStrict(a.key, b.key);
    TextBeforeIsStrict(a.root.cid.text, b.root.cid.text);
    OrdinalTotal(a.root.cid.text, b.root.cid.text);
  }

  /** No AppKey replaces one path in one generation by two different roots. */
  ghost predicate RolesDiffer(roles: seq<Role>) {
    forall a, b :: a in roles && b in roles && a.path == b.path && a.key == b.key && a.generation == b.generation ==> a == b
  }

  ghost predicate RoleRootsDiffer(roots: seq<RoleRoot>) {
    forall a, b :: a in roots && b in roots && a.key == b.key && a.root.cid.text == b.root.cid.text ==> a == b
  }

  lemma NoRolesTieIff(roles: seq<Role>)
    ensures NoTies(roles, RoleBefore) <==> RolesDiffer(roles)
  {
    forall a, b | a in roles && b in roles
      ensures Tied(a, b, RoleBefore) <==> a.path == b.path && a.key == b.key && a.generation == b.generation
    {
      TiedRoles(a, b);
    }
  }

  lemma NoRoleRootsTieIff(roots: seq<RoleRoot>)
    ensures NoTies(roots, RoleRootBefore) <==> RoleRootsDiffer(roots)
  {
    forall a, b | a in roots && b in roots
      ensures Tied(a, b, RoleRootBefore) <==> a.key == b.key && a.root.cid.text == b.root.cid.text
    {
      TiedRoleRoots(a, b);
    }
  }

  /** The list of replacements is the same in every order exactly when its sort keys tell the entries apart. */
  lemma RolesAreOrderFreeIff(snapshots: seq<Snapshot>, authorized: set<Key>)
    ensures SortsAlike(snapshots, OwnRoles(authorized), RoleBefore) <==> RolesDiffer(Gather(snapshots, OwnRoles(authorized)))
  {
    RolesAreOrdered();
    forall s ensures NoTies(OwnRoles(authorized)(s), RoleBefore) {
      NoRolesTieIff(OwnRoles(authorized)(s));
    }
    SortsAlikeIff(snapshots, OwnRoles(authorized), RoleBefore);
    NoRolesTieIff(Gather(snapshots, OwnRoles(authorized)));
  }

  /** The same for the roots that carry a list of replacements. */
  lemma RoleRootsAreOrderFreeIff(snapshots: seq<Snapshot>, authorized: set<Key>)
    ensures SortsAlike(snapshots, OwnRoleRoots(authorized), RoleRootBefore) <==>
            RoleRootsDiffer(Gather(snapshots, OwnRoleRoots(authorized)))
  {
    RolesAreOrdered();
    forall s ensures NoTies(OwnRoleRoots(authorized)(s), RoleRootBefore) {
      NoRoleRootsTieIff(OwnRoleRoots(authorized)(s));
    }
    SortsAlikeIff(snapshots, OwnRoleRoots(authorized), RoleRootBefore);
    NoRoleRootsTieIff(Gather(snapshots, OwnRoleRoots(authorized)));
  }

  /** When every AppKey publishes one root, neither list depends on the order. */
  lemma OneRootEach(snapshots: seq<Snapshot>, authorized: set<Key>, order: seq<Snapshot>)
    requires forall s, t :: s in snapshots && t in snapshots && s.key == t.key ==> s.root == t.root
    requires multiset(order) == multiset(snapshots)
    ensures MergedRoles(order, authorized) == MergedRoles(snapshots, authorized)
  {
    var roles, roots := Gather(snapshots, OwnRoles(authorized)), Gather(snapshots, OwnRoleRoots(authorized));
    forall a, b | a in roles && b in roles && a.key == b.key ensures a.root == b.root {
      var s := GatheredFrom(snapshots, OwnRoles(authorized), a);
      var t := GatheredFrom(snapshots, OwnRoles(authorized), b);
    }
    forall a, b | a in roots && b in roots && a.key == b.key ensures a.root == b.root {
      var s := GatheredFrom(snapshots, OwnRoleRoots(authorized), a);
      var t := GatheredFrom(snapshots, OwnRoleRoots(authorized), b);
    }
    RolesAreOrderFreeIff(snapshots, authorized);
    RoleRootsAreOrderFreeIff(snapshots, authorized);
  }

  /** The list of replacements holds those of every authorized snapshot, by path, then AppKey, then generation. */
  lemma RolesAreListed(snapshots: seq<Snapshot>, authorized: set<Key>)
    ensures var roles := MergedRoles(snapshots, authorized).replacements;
            && (forall r :: r in roles <==>
                  exists s :: s in snapshots && s.key in authorized && s.replacements.Some?
                              && Replacement(r.path, r.generation) in s.replacements.value && r.key == s.key && r.root == s.root)
            && forall i, j :: 0 <= i < j < |roles| ==>
                 || TextBefore(roles[i].path, roles[j].path)
                 || (roles[i].path == roles[j].path && TextBefore(roles[i].key, roles[j].key))
                 || (roles[i].path == roles[j].path && roles[i].key == roles[j].key && roles[i].generation <= roles[j].generation)
  {
    var all := Gather(snapshots, OwnRoles(authorized));
    RolesAreOrdered();
    SortElements(all, RoleBefore);
    SortSorts(all, RoleBefore);
    forall r ensures r in all <==>
      exists s :: s in snapshots && s.key in authorized && s.replacements.Some?
                  && Replacement(r.path, r.generation) in s.replacements.value && r.key == s.key && r.root == s.root
    {
      if r in all {
        var s := GatheredFrom(snapshots, OwnRoles(authorized), r);
        RolesOfAre(s, s.replacements.value, r);
      }
      if s :| s in snapshots && s.key in authorized && s.replacements.Some?
              && Replacement(r.path, r.generation) in s.replacements.value && r.key == s.key && r.root == s.root {
        RolesOfAre(s, s.replacements.value, r);
        Gathers(snapshots, OwnRoles(authorized), s, r);
      }
    }
  }

  lemma RolesOfAre(s: Snapshot, replacements: seq<Replacement>, r: Role)
    ensures r in RolesOf(s, replacements) <==>
            Replacement(r.path, r.generation) in replacements && r.key == s.key && r.root == s.root
  {
    if Replacement(r.path, r.generation) in replacements && r.key == s.key && r.root == s.root {
      var i :| 0 <= i < |replacements| && replacements[i] == Replacement(r.path, r.generation);
      assert RolesOf(s, replacements)[i] == r;
    }
  }

  lemma {:induction false} Gathers<T>(snapshots: seq<Snapshot>, own: Snapshot -> seq<T>, s: Snapshot, x: T)
    requires s in snapshots && x in own(s)
    ensures x in Gather(snapshots, own)
  {
    var n := |snapshots| - 1;
    if snapshots[n] != s {
      assert snapshots == snapshots[..n] + [snapshots[n]];
      Gathers(snapshots[..n], own, s, x);
    }
  }
}
