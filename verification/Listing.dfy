/**
 The provider listing as the shell sees it: listed paths with every ancestor added, ordered
 parents first.
*/
module Listing {
  import opened Paths
  import opened Sorting
  import opened Wrappers

  datatype Entry = Entry(path: Path, isDirectory: bool, size: int, version: Option<string>)

  /** A dictionary that remembers the order in which its keys were first added. */
  datatype Index = Index(byPath: map<Path, Entry>, order: seq<Path>)

  function Put(index: Index, e: Entry): Index {
    Index(index.byPath[e.path := e],
          if e.path in index.byPath then index.order else index.order + [e.path])
  }

  function TryAdd(index: Index, e: Entry): Index {
    if e.path in index.byPath then index else Put(index, e)
  }

  function ImpliedDirectory(p: Path): Entry {
    Entry(p, true, 0, None)
  }

  function AddAncestors(index: Index, p: Path): Index
    decreases |p|
  {
    if p == [] then index else AddAncestors(TryAdd(index, ImpliedDirectory(p)), Parent(p))
  }

  predicate Accepted(e: Entry) {
    e.path != [] && !Ignored(e.path)
  }

  function AddEntry(index: Index, e: Entry): Index {
    if Accepted(e) then AddAncestors(Put(index, e), Parent(e.path)) else index
  }

  function IndexOf(entries: seq<Entry>): Index {
    if entries == [] then Index(map[], [])
    else AddEntry(IndexOf(entries[..|entries| - 1]), entries[|entries| - 1])
  }

  /** The listing as a dictionary. */
  function Listed(entries: seq<Entry>): map<Path, Entry> {
    IndexOf(entries).byPath
  }

  ghost predicate Consistent(index: Index) {
    && (forall i, j :: 0 <= i < j < |index.order| ==> index.order[i] != index.order[j])
    && (forall p :: p in index.order <==> p in index.byPath)
    && (forall p :: p in index.byPath ==> index.byPath[p].path == p && Accepted(index.byPath[p]))
  }

  // ---------------------------------------------------------------------------------------------
  // Adding the ancestors
  // ---------------------------------------------------------------------------------------------

  lemma PutKeeps(index: Index, e: Entry)
    requires Consistent(index) && Accepted(e)
    ensures Consistent(Put(index, e))
  {
    var r := Put(index, e);
    forall p ensures p in r.order <==> p in r.byPath {
    }
  }

  lemma AboveAccepted(a: Path, p: Path)
    requires !Ignored(p) && Covers(a, p)
    ensures !Ignored(a)
  {
    if Ignored(a) {
      IgnoredBelow(a, p);
    }
  }

  lemma {:induction false} AddAncestorsKeys(index: Index, p: Path)
    requires Consistent(index) && !Ignored(p)
    ensures Consistent(AddAncestors(index, p))
    ensures forall q :: q in AddAncestors(index, p).byPath <==> q in index.byPath || (q != [] && Covers(q, p))
    ensures forall q :: q in AddAncestors(index, p).byPath ==>
              AddAncestors(index, p).byPath[q]
              == if q in index.byPath then index.byPath[q] else ImpliedDirectory(q)
    decreases |p|
  {
    if p != [] {
      AboveAccepted(Parent(p), p);
      var next := TryAdd(index, ImpliedDirectory(p));
      PutKeeps(index, ImpliedDirectory(p));
      AddAncestorsKeys(next, Parent(p));
      forall q ensures Covers(q, p) <==> q == p || Covers(q, Parent(p)) {
        CoversStep(q, p);
      }
    }
  }

  /** The value a path was last listed with, if it was listed itself. */
  function LastListed(entries: seq<Entry>, p: Path): Option<Entry> {
    if entries == [] then None
    else
      var e := entries[|entries| - 1];
      if Accepted(e) && e.path == p then Some(e) else LastListed(entries[..|entries| - 1], p)
  }

  ghost predicate AtOrAboveListed(entries: seq<Entry>, p: Path) {
    exists i :: 0 <= i < |entries| && Accepted(entries[i]) && Covers(p, entries[i].path)
  }

  lemma AtOrAboveLast(entries: seq<Entry>, p: Path)
    requires entries != []
    ensures var e := entries[|entries| - 1];
            AtOrAboveListed(entries, p) <==>
            AtOrAboveListed(entries[..|entries| - 1], p) || (Accepted(e) && Covers(p, e.path))
  {
    var rest := entries[..|entries| - 1];
    if AtOrAboveListed(entries, p) {
      var i :| 0 <= i < |entries| && Accepted(entries[i]) && Covers(p, entries[i].path);
      if i < |rest| {
        assert rest[i] == entries[i];
      }
    }
    if AtOrAboveListed(rest, p) {
      var i :| 0 <= i < |rest| && Accepted(rest[i]) && Covers(p, rest[i].path);
      assert rest[i] == entries[i];
    }
  }

  /**
   The listing holds exactly the non-root paths at or above an accepted path, each with the value
   it was last listed with, or as a bare directory when it was never listed itself.
  */
  lemma {:induction false} ListedExactly(entries: seq<Entry>)
    ensures Consistent(IndexOf(entries))
    ensures forall p :: p in Listed(entries) <==> p != [] && AtOrAboveListed(entries, p)
    ensures forall p :: p in Listed(entries) ==>
              Listed(entries)[p]
              == (match LastListed(entries, p) case Some(e) => e case None => Entry(p, true, 0, None))
  {
    if entries != [] {
      var rest := entries[..|entries| - 1];
      var e := entries[|entries| - 1];
      ListedExactly(rest);
      forall p ensures AtOrAboveListed(entries, p) <==>
                       AtOrAboveListed(rest, p) || (Accepted(e) && Covers(p, e.path)) {
        AtOrAboveLast(entries, p);
      }
      if Accepted(e) {
        PutKeeps(IndexOf(rest), e);
        AboveAccepted(Parent(e.path), e.path);
        AddAncestorsKeys(Put(IndexOf(rest), e), Parent(e.path));
        forall q ensures Covers(q, e.path) <==> q == e.path || Covers(q, Parent(e.path)) {
          CoversStep(q, e.path);
        }
        forall p | p in Listed(entries) && p != e.path && p !in Listed(rest)
          ensures LastListed(rest, p) == None
        {
          NeverListed(rest, p);
        }
      }
    }
  }

  lemma {:induction false} NeverListed(entries: seq<Entry>, p: Path)
    requires !AtOrAboveListed(entries, p)
    ensures LastListed(entries, p) == None
  {
    if entries != [] {
      AtOrAboveLast(entries, p);
      NeverListed(entries[..|entries| - 1], p);
    }
  }

  /** The listing is closed under ancestors, so an unlisted path has nothing listed below it. */
  lemma ListedAncestors(entries: seq<Entry>, a: Path, p: Path)
    requires p in Listed(entries) && a != [] && Covers(a, p)
    ensures a in Listed(entries)
  {
    ListedExactly(entries);
    var i :| 0 <= i < |entries| && Accepted(entries[i]) && Covers(p, entries[i].path);
    assert Covers(a, entries[i].path);
  }

  /** Everything listed strictly above p is a directory, so there can be an item at p. */
  ghost predicate Reachable(listed: map<Path, Entry>, p: Path) {
    forall a :: a in listed && Covers(a, p) && a != p ==> listed[a].isDirectory
  }

  /** Nothing is listed below a listed file. */
  ghost predicate FilesAreLeaves(listed: map<Path, Entry>) {
    forall p :: p in listed ==> Reachable(listed, p)
  }

  // ---------------------------------------------------------------------------------------------
  // The ordered listing
  // ---------------------------------------------------------------------------------------------

  /** Shallower first, then directories before files, then by text. */
  predicate ListedBefore(a: Entry, b: Entry) {
    if |a.path| != |b.path| then |a.path| < |b.path|
    else if a.isDirectory != b.isDirectory then a.isDirectory
    else OrdinalLe(Join(a.path), Join(b.path))
  }

  lemma ListedBeforeIsTotal()
    ensures TotalPreorder(ListedBefore)
  {
    forall a, b ensures ListedBefore(a, b) || ListedBefore(b, a) {
      OrdinalTotal(Join(a.path), Join(b.path));
    }
    forall a, b, c | ListedBefore(a, b) && ListedBefore(b, c) ensures ListedBefore(a, c) {
      if OrdinalLe(Join(a.path), Join(b.path)) && OrdinalLe(Join(b.path), Join(c.path)) {
        OrdinalTransitive(Join(a.path), Join(b.path), Join(c.path));
      }
    }
  }

  function Values(m: map<Path, Entry>, order: seq<Path>): (r: seq<Entry>)
    requires forall p :: p in order ==> p in m
    ensures |r| == |order| && forall i :: 0 <= i < |r| ==> r[i] == m[order[i]]
  {
    if order == [] then [] else [m[order[0]]] + Values(m, order[1..])
  }

  function PlaceholderEntries(entries: seq<Entry>): seq<Entry> {
    ListedExactly(entries);
    Sort(Values(Listed(entries), IndexOf(entries).order), ListedBefore)
  }

  ghost predicate DistinctPaths(listing: seq<Entry>) {
    forall i, j :: 0 <= i < j < |listing| ==> listing[i].path != listing[j].path
  }

  ghost predicate ParentsFirst(listing: seq<Entry>) {
    forall j :: 0 <= j < |listing| && |listing[j].path| > 1 ==>
      exists i :: 0 <= i < j && listing[i].path == Parent(listing[j].path)
  }

  lemma PlaceholderElements(entries: seq<Entry>)
    ensures forall e :: e in PlaceholderEntries(entries) <==>
              e.path in Listed(entries) && Listed(entries)[e.path] == e
  {
    ListedExactly(entries);
    var index := IndexOf(entries);
    var values := Values(index.byPath, index.order);
    SortElements(values, ListedBefore);
    forall e ensures e in values <==> e.path in index.byPath && index.byPath[e.path] == e {
      if e in values {
        var i :| 0 <= i < |values| && values[i] == e;
        assert index.order[i] in index.order;
      }
      if e.path in index.byPath && index.byPath[e.path] == e {
        var i :| 0 <= i < |index.order| && index.order[i] == e.path;
        assert values[i] == e;
      }
    }
  }

  lemma PlaceholderDistinct(entries: seq<Entry>)
    ensures DistinctPaths(PlaceholderEntries(entries))
  {
    ListedExactly(entries);
    var index := IndexOf(entries);
    var values := Values(index.byPath, index.order);
    var key := (e: Entry) => e.path;
    forall i, j | 0 <= i < j < |values| ensures key(values[i]) != key(values[j]) {
      assert index.order[i] in index.order && index.order[j] in index.order;
    }
    SortDistinct(values, ListedBefore, key);
    var listing := PlaceholderEntries(entries);
    assert DistinctBy(listing, key);
    forall i, j | 0 <= i < j < |listing| ensures listing[i].path != listing[j].path {
      assert key(listing[i]) != key(listing[j]);
    }
  }

  lemma PlaceholderSorted(entries: seq<Entry>)
    ensures Sorted(PlaceholderEntries(entries), ListedBefore)
  {
    ListedExactly(entries);
    ListedBeforeIsTotal();
    SortSorts(Values(Listed(entries), IndexOf(entries).order), ListedBefore);
  }

  lemma ShallowerIsEarlier(listing: seq<Entry>, i: nat, j: nat)
    requires Sorted(listing, ListedBefore)
    requires i < |listing| && j < |listing| && |listing[i].path| < |listing[j].path|
    ensures i < j
  {
  }

  lemma ParentComesBefore(entries: seq<Entry>, j: nat) returns (i: nat)
    requires j < |PlaceholderEntries(entries)| && |PlaceholderEntries(entries)[j].path| > 1
    ensures i < j
    ensures PlaceholderEntries(entries)[i].path == Parent(PlaceholderEntries(entries)[j].path)
  {
    var listing := PlaceholderEntries(entries);
    var child := listing[j];
    assert child in listing;
    var m := Listed(entries);
    assert child.path in m by { PlaceholderElements(entries); }
    var p := Parent(child.path);
    assert p in m by { ListedAncestors(entries, p, child.path); }
    assert m[p].path == p by { ListedExactly(entries); }
    assert m[p] in listing by { PlaceholderElements(entries); }
    i :| 0 <= i < |listing| && listing[i] == m[p];
    PlaceholderSorted(entries);
    ShallowerIsEarlier(listing, i, j);
  }

  /** Each listed path appears once, and only after its parent. */
  lemma PlaceholderOrder(entries: seq<Entry>)
    ensures DistinctPaths(PlaceholderEntries(entries))
    ensures ParentsFirst(PlaceholderEntries(entries))
  {
    PlaceholderDistinct(entries);
    var listing := PlaceholderEntries(entries);
    forall j | 0 <= j < |listing| && |listing[j].path| > 1
      ensures exists i :: 0 <= i < j && listing[i].path == Parent(listing[j].path)
    {
      var i := ParentComesBefore(entries, j);
    }
  }

  /** The loop that builds the dictionary, walking from each accepted path up to the root. */
  method BuildPlaceholderEntries(entries: seq<Entry>) returns (listing: seq<Entry>)
    ensures listing == PlaceholderEntries(entries)
  {
    var index := Index(map[], []);
    var i := 0;
    while i < |entries|
      invariant 0 <= i <= |entries|
      invariant index == IndexOf(entries[..i])
    {
      assert entries[..i + 1][..i] == entries[..i];
      var e := entries[i];
      i := i + 1;
      if e.path == [] || Ignored(e.path) {
        continue;
      }
      index := Put(index, e);
      var parent := Parent(e.path);
      ghost var target := AddAncestors(index, parent);
      while parent != []
        invariant AddAncestors(index, parent) == target
        decreases |parent|
      {
        index := TryAdd(index, ImpliedDirectory(parent));
        parent := Parent(parent);
      }
    }
    assert entries[..i] == entries;
    ListedExactly(entries);
    listing := Sort(Values(index.byPath, index.order), ListedBefore);
  }
}
