/** What the pairwise decisions of a merge come to, field by field. */
module MergeLaws {
  import opened Wrappers
  import opened Sorting
  import opened Merge

  /** The identifiers are the same text, or both texts carry the same hash. */
  ghost predicate OneRoot(a: Cid, b: Cid) {
    a.text == b.text || exists h :: a.hash == Some(h) && b.hash == Some(h)
  }

  lemma SameRootIff(a: Cid, b: Cid)
    ensures SameRoot(a, b) <==> OneRoot(a, b)
  {
  }

  /** What a root says it has seen of an AppKey, as a parent or in its observations. */
  ghost predicate Mentions(root: RootRef, key: Key, seen: Observation) {
    Parent(key, seen) in root.parents || (key in root.observed && root.observed[key] == seen)
  }

  /**
   A root observes another one exactly when they are one, when it is a later numbered root of the same
   AppKey, or when it mentions that root or a later one of that AppKey; a root without number is
   observed by its identifier alone.
  */
  lemma ObservesExactly(newerKey: Key, newer: RootRef, key: Key, root: RootRef)
    ensures RootObserves(newerKey, newer, key, root) <==>
            || OneRoot(newer.cid, root.cid)
            || (newerKey == key && 0 < root.seqNo < newer.seqNo)
            || exists seen :: Mentions(newer, key, seen) && (OneRoot(seen.cid, root.cid) || 0 < root.seqNo < seen.seqNo)
  {
    SameRootIff(newer.cid, root.cid);
    forall seen ensures SeesRoot(seen, root) <==> OneRoot(seen.cid, root.cid) || 0 < root.seqNo < seen.seqNo {
      SameRootIff(seen.cid, root.cid);
    }
    if i :| 0 <= i < |newer.parents| && newer.parents[i].key == key && SeesRoot(newer.parents[i].seen, root) {
      assert Parent(key, newer.parents[i].seen) == newer.parents[i];
      assert Mentions(newer, key, newer.parents[i].seen);
    }
    if key in newer.observed && SeesRoot(newer.observed[key], root) {
      assert Mentions(newer, key, newer.observed[key]);
    }
    if seen :| Mentions(newer, key, seen) && SeesRoot(seen, root) {
      if Parent(key, seen) in newer.parents {
        var i :| 0 <= i < |newer.parents| && newer.parents[i] == Parent(key, seen);
        assert newer.parents[i].key == key && newer.parents[i].seen == seen;
      }
    }
  }

  ghost predicate Saw(a: Candidate, b: Candidate) {
    RootObserves(a.key, a.root, b.key, b.root)
  }

  /**
   A candidate replaces the one it meets exactly when one root made both, or its root has seen the
   other's and not the reverse, or neither or both have and it is later, or as late by an AppKey whose
   text comes later.
  */
  lemma WinsIff(candidate: Candidate, existing: Candidate)
    ensures Wins(candidate, existing) <==>
            || OneRoot(candidate.root.cid, existing.root.cid)
            || (Saw(candidate, existing) && !Saw(existing, candidate))
            || ((Saw(candidate, existing) <==> Saw(existing, candidate))
                && (candidate.time > existing.time
                    || (candidate.time == existing.time && TextBefore(existing.key, candidate.key))))
  {
    SameRootIff(candidate.root.cid, existing.root.cid);
  }

  ghost predicate HasCause(root: RootRef) {
    root.seqNo > 0 || (exists p :: p in root.parents) || exists key :: key in root.observed
  }

  lemma CausalIff(root: RootRef)
    ensures Causal(root) <==> HasCause(root)
  {
    if root.parents != [] {
      assert root.parents[0] in root.parents;
    }
  }

  /** Both roots take part in causal history and neither is known to come before the other. */
  ghost predicate Apart(a: Candidate, b: Candidate) {
    && HasCause(a.root) && HasCause(b.root) && !OneRoot(a.root.cid, b.root.cid) && (Saw(a, b) <==> Saw(b, a))
  }

  lemma ConcurrentIff(a: Candidate, b: Candidate)
    ensures ConcurrentEdits(a, b) <==> Apart(a, b)
  {
    CausalIff(a.root);
    CausalIff(b.root);
    SameRootIff(a.root.cid, b.root.cid);
  }

  function Identifying(f: File): string {
    if f.wholeHash.Some? then f.wholeHash.value else f.hash
  }

  /** Two writes conflict exactly when their roots stand apart and size or identifying hash differ. */
  lemma WriteConflictIff(a: Candidate, b: Candidate)
    ensures WriteConflict(a, b) <==>
            && a.file.Some? && b.file.Some? && Apart(a, b)
            && (a.file.value.size != b.file.value.size || Identifying(a.file.value) != Identifying(b.file.value))
  {
    ConcurrentIff(a, b);
  }

  /** A write and a removal conflict exactly when their roots stand apart. */
  lemma DeleteConflictIff(writes: Table, tombstones: Table, p: string)
    ensures DeleteConflict(writes, tombstones, p) <==> p in writes && p in tombstones && Apart(writes[p], tombstones[p])
  {
    if p in writes && p in tombstones {
      ConcurrentIff(writes[p], tombstones[p]);
    }
  }
}
