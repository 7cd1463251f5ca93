/**
 The drive merge: every AppKey publishes a root with its files and tombstones, and the merged view
 takes for each path the candidate that wins over the ones met before it.
*/
module Merge {
  import opened Wrappers
  import opened Sorting

  type Key = string

  /** A content identifier as text, with its hash when the text parses. */
  datatype Cid = Cid(text: string, hash: Option<string>)

  datatype Observation = Observation(seqNo: nat, cid: Cid)

  datatype Parent = Parent(key: Key, seen: Observation)

  datatype RootRef = RootRef(cid: Cid, publishedAt: int, seqNo: nat, parents: seq<Parent>,
                             observed: map<Key, Observation>, localOnly: bool)

  datatype File = File(path: string, hash: string, size: nat, wholeHash: Option<string>, modifiedAt: Option<int>)

  datatype Tombstone = Tombstone(path: string, at: int)

  /** A path whose kind the root replaced, a file by a directory or the other way round. */
  datatype Replacement = Replacement(path: string, generation: int)

  /** A root without the list of replacements is one written before there were any. */
  datatype Snapshot = Snapshot(key: Key, root: RootRef, files: seq<File>, tombstones: seq<Tombstone>,
                               replacements: Option<seq<Replacement>>)

  // ---------------------------------------------------------------------------------------------
  // How two roots relate
  // ---------------------------------------------------------------------------------------------

  datatype Relation = Same | LeftDescends | RightDescends | Concurrent

  predicate SameRoot(a: Cid, b: Cid) {
    a.text == b.text || (a.hash.Some? && a.hash == b.hash)
  }

  /** What was seen of an AppKey is this root of it or a later one. */
  predicate SeesRoot(seen: Observation, root: RootRef) {
    SameRoot(seen.cid, root.cid) || (root.seqNo > 0 && seen.seqNo > root.seqNo)
  }

  predicate RootObserves(newerKey: Key, newer: RootRef, key: Key, root: RootRef) {
    || SameRoot(newer.cid, root.cid)
    || (newerKey == key && newer.seqNo > 0 && root.seqNo > 0 && newer.seqNo > root.seqNo)
    || (exists i :: 0 <= i < |newer.parents| && newer.parents[i].key == key && SeesRoot(newer.parents[i].seen, root))
    || (key in newer.observed && SeesRoot(newer.observed[key], root))
  }

  function RootRelation(leftKey: Key, left: RootRef, rightKey: Key, right: RootRef): Relation {
    if SameRoot(left.cid, right.cid) then Same
    else
      match (RootObserves(leftKey, left, rightKey, right), RootObserves(rightKey, right, leftKey, left))
      case (true, false) => LeftDescends
      case (false, true) => RightDescends
      case (true, true) => Concurrent
      case (false, false) => Concurrent
  }

  predicate Causal(root: RootRef) {
    root.seqNo > 0 || root.parents != [] || root.observed != map[]
  }

  // ---------------------------------------------------------------------------------------------
  // Candidates
  // ---------------------------------------------------------------------------------------------

  /** A write carries its file and the publication time, a tombstone the time of the removal. */
  datatype Candidate = Candidate(key: Key, root: RootRef, time: int, file: Option<File>)

  function RelationOf(a: Candidate, b: Candidate): Relation {
    RootRelation(a.key, a.root, b.key, b.root)
  }

  /** Later, or at the same time by the AppKey that is later in text order. */
  predicate Newer(a: Candidate, b: Candidate) {
    a.time > b.time || (a.time == b.time && a.key != b.key && OrdinalLe(b.key, a.key))
  }

  predicate Wins(candidate: Candidate, existing: Candidate) {
    match RelationOf(candidate, existing)
    case Same => true
    case LeftDescends => true
    case RightDescends => false
    case Concurrent => Newer(candidate, existing)
  }

  function IdentityHash(f: File): string {
    match f.wholeHash
    case Some(h) => h
    case None => f.hash
  }

  predicate SameContent(a: File, b: File) {
    a.size == b.size && IdentityHash(a) == IdentityHash(b)
  }

  predicate ConcurrentEdits(a: Candidate, b: Candidate) {
    Causal(a.root) && Causal(b.root) && RelationOf(a, b).Concurrent?
  }

  predicate WriteConflict(candidate: Candidate, existing: Candidate) {
    && candidate.file.Some? && existing.file.Some?
    && !SameContent(candidate.file.value, existing.file.value) && ConcurrentEdits(candidate, existing)
  }

  /** A tombstone hides a write unless the same root made both, or the write's root has seen it. */
  predicate Suppresses(tombstone: Candidate, write: Candidate) {
    && !(tombstone.key == write.key && SameRoot(tombstone.root.cid, write.root.cid))
    && match RelationOf(tombstone, write)
       case Same => true
       case LeftDescends => true
       case RightDescends => false
       case Concurrent => tombstone.time >= write.time
  }

  // ---------------------------------------------------------------------------------------------
  // What is recorded with a conflict
  // ---------------------------------------------------------------------------------------------

  datatype Side = Side(key: Key, seqNo: nat, root: Cid, publishedAt: int, content: string, hash: string, size: nat,
                       modifiedAt: Option<int>)

  datatype Removal = Removal(key: Key, seqNo: nat, root: Cid, at: int)

  datatype Kind = WriteWrite | WriteDelete

  datatype Conflict = Conflict(kind: Kind, files: seq<Side>, removal: Option<Removal>)

  function SideOf(write: Candidate): Side
    requires write.file.Some?
  {
    var f := write.file.value;
    Side(write.key, write.root.seqNo, write.root.cid, write.root.publishedAt, IdentityHash(f), f.hash, f.size, f.modifiedAt)
  }

  function RemovalOf(tombstone: Candidate): Removal {
    Removal(tombstone.key, tombstone.root.seqNo, tombstone.root.cid, tombstone.time)
  }

  /** The same content by the same root. */
  predicate SameSide(a: Side, b: Side) {
    a.key == b.key && a.seqNo == b.seqNo && a.root == b.root && a.content == b.content
  }

  predicate SideBefore(a: Side, b: Side) {
    || TextBefore(a.key, b.key)
    || (a.key == b.key && (|| a.seqNo < b.seqNo
                           || (a.seqNo == b.seqNo && (|| TextBefore(a.root.text, b.root.text)
                                                      || (a.root.text == b.root.text && OrdinalLe(a.content, b.content))))))
  }

  function AddSide(files: seq<Side>, write: Candidate): seq<Side> {
    if write.file.None? || (exists i :: 0 <= i < |files| && SameSide(files[i], SideOf(write))) then files
    else Sort(files + [SideOf(write)], SideBefore)
  }

  function DetailAt(details: map<string, Conflict>, path: string, kind: Kind): Conflict {
    if path in details then details[path] else Conflict(kind, [], None)
  }

  function NoteWrite(detail: Conflict, candidate: Candidate, existing: Candidate): Conflict {
    detail.(kind := WriteWrite, files := AddSide(AddSide(detail.files, candidate), existing))
  }

  /** The root of the tombstone also wrote one of the files in conflict. */
  predicate IsBarrier(detail: Conflict, tombstone: Candidate) {
    exists i :: 0 <= i < |detail.files| && detail.files[i].key == tombstone.key
                && SameRoot(detail.files[i].root, tombstone.root.cid)
  }

  function NoteDelete(detail: Conflict, write: Candidate, tombstone: Candidate): Conflict {
    if IsBarrier(detail, tombstone) then detail
    else Conflict(WriteDelete, AddSide(detail.files, write), Some(RemovalOf(tombstone)))
  }

  // ---------------------------------------------------------------------------------------------
  // The tables
  // ---------------------------------------------------------------------------------------------

  type Table = map<string, Candidate>

  datatype Tables = Tables(writes: Table, tombstones: Table, localWrites: Table, localTombstones: Table,
                           conflicts: set<string>, details: map<string, Conflict>)

  const NO_TABLES := Tables(map[], map[], map[], map[], {}, map[])

  function Insert(table: Table, path: string, c: Candidate): Table {
    if path in table && !Wins(c, table[path]) then table else table[path := c]
  }

  function InsertWrite(t: Tables, path: string, c: Candidate): Tables {
    var noted := if path in t.writes && WriteConflict(c, t.writes[path]) then
                   t.(conflicts := t.conflicts + {path},
                      details := t.details[path := NoteWrite(DetailAt(t.details, path, WriteWrite), c, t.writes[path])])
                 else t;
    noted.(writes := Insert(t.writes, path, c))
  }

  /** One candidate for one path, and the table it goes to. */
  datatype Offer = Offer(slot: Slot, candidate: Candidate)

  datatype Slot = Slot(path: string, tombstone: bool, localOnly: bool)

  function AddOffer(t: Tables, o: Offer): Tables {
    match o.slot
    case Slot(path, false, false) => InsertWrite(t, path, o.candidate)
    case Slot(path, true, false) => t.(tombstones := Insert(t.tombstones, path, o.candidate))
    case Slot(path, false, true) => t.(localWrites := Insert(t.localWrites, path, o.candidate))
    case Slot(path, true, true) => t.(localTombstones := Insert(t.localTombstones, path, o.candidate))
  }

  function AddOffers(offers: seq<Offer>): Tables {
    if offers == [] then NO_TABLES else AddOffer(AddOffers(offers[..|offers| - 1]), offers[|offers| - 1])
  }

  function WriteOf(s: Snapshot, f: File): Candidate {
    Candidate(s.key, s.root, s.root.publishedAt, Some(f))
  }

  function TombstoneOf(s: Snapshot, t: Tombstone): Candidate {
    Candidate(s.key, s.root, t.at, None)
  }

  function FileOffers(s: Snapshot, files: seq<File>, ignored: string -> bool): seq<Offer> {
    if files == [] then []
    else
      var f := files[|files| - 1];
      FileOffers(s, files[..|files| - 1], ignored)
      + (if ignored(f.path) then [] else [Offer(Slot(f.path, false, s.root.localOnly), WriteOf(s, f))])
  }

  function TombstoneOffers(s: Snapshot, tombstones: seq<Tombstone>, ignored: string -> bool): seq<Offer> {
    if tombstones == [] then []
    else
      var t := tombstones[|tombstones| - 1];
      TombstoneOffers(s, tombstones[..|tombstones| - 1], ignored)
      + (if ignored(t.path) then [] else [Offer(Slot(t.path, true, s.root.localOnly), TombstoneOf(s, t))])
  }

  /** What one snapshot offers; a snapshot of an AppKey outside the roster offers nothing. */
  function SnapshotOffers(s: Snapshot, authorized: set<Key>, ignored: string -> bool): seq<Offer> {
    if s.key !in authorized then []
    else FileOffers(s, s.files, ignored) + TombstoneOffers(s, s.tombstones, ignored)
  }

  function AllOffers(snapshots: seq<Snapshot>, authorized: set<Key>, ignored: string -> bool): seq<Offer> {
    if snapshots == [] then []
    else AllOffers(snapshots[..|snapshots| - 1], authorized, ignored)
         + SnapshotOffers(snapshots[|snapshots| - 1], authorized, ignored)
  }

  // ---------------------------------------------------------------------------------------------
  // The view
  // ---------------------------------------------------------------------------------------------

  datatype View = View(files: Table, suppressed: map<string, (Candidate, Candidate)>, tombstones: Table,
                       suppressedPaths: set<string>, conflicts: set<string>, details: map<string, Conflict>)

  /** Local-only writes fill in where no source root has a write or a tombstone. */
  function WithLocalWrites(t: Tables): Table {
    t.writes + (map p | p in t.localWrites && p !in t.writes && p !in t.tombstones :: t.localWrites[p])
  }

  function WithLocalTombstones(t: Tables): Table {
    t.tombstones
    + (map p | p in t.localTombstones && p !in WithLocalWrites(t) && p !in t.tombstones :: t.localTombstones[p])
  }

  predicate Hidden(writes: Table, tombstones: Table, p: string)
    requires p in writes
  {
    p in tombstones && Suppresses(tombstones[p], writes[p])
  }

  predicate DeleteConflict(writes: Table, tombstones: Table, p: string) {
    p in writes && p in tombstones && ConcurrentEdits(writes[p], tombstones[p])
  }

  function DeleteConflicts(writes: Table, tombstones: Table, done: set<string>): set<string> {
    set p | p in done && DeleteConflict(writes, tombstones, p)
  }

  /** The note of a path, before or after its write has been looked at. */
  function DetailOf(writes: Table, tombstones: Table, details: map<string, Conflict>, p: string, seen: bool): Conflict {
    if seen && DeleteConflict(writes, tombstones, p)
    then NoteDelete(DetailAt(details, p, WriteDelete), writes[p], tombstones[p])
    else DetailAt(details, p, WriteWrite)
  }

  /** The source lists each of these by path. */
  function ViewOf(writes: Table, tombstones: Table, conflicts: set<string>, details: map<string, Conflict>): View {
    var suppressed := map p | p in writes && Hidden(writes, tombstones, p) :: (writes[p], tombstones[p]);
    var noted := DeleteConflicts(writes, tombstones, writes.Keys);
    View(map p | p in writes && !Hidden(writes, tombstones, p) :: writes[p], suppressed, tombstones,
         suppressed.Keys + (tombstones.Keys - writes.Keys), conflicts + noted,
         map p | p in details.Keys + noted :: DetailOf(writes, tombstones, details, p, true))
  }

  function MergedView(snapshots: seq<Snapshot>, authorized: set<Key>, ignored: string -> bool): View {
    var t := AddOffers(AllOffers(snapshots, authorized, ignored));
    ViewOf(WithLocalWrites(t), WithLocalTombstones(t), t.conflicts, t.details)
  }

  // ---------------------------------------------------------------------------------------------
  // Replacement roles
  // ---------------------------------------------------------------------------------------------

  datatype Role = Role(path: string, generation: int, key: Key, root: RootRef)

  datatype RoleRoot = RoleRoot(key: Key, root: RootRef)

  function RolesOf(s: Snapshot, replacements: seq<Replacement>): seq<Role> {
    seq(|replacements|, i requires 0 <= i < |replacements| =>
      Role(replacements[i].path, replacements[i].generation, s.key, s.root))
  }

  function OwnRoles(authorized: set<Key>): Snapshot -> seq<Role> {
    (s: Snapshot) => if s.key in authorized && s.replacements.Some? then RolesOf(s, s.replacements.value) else []
  }

  function OwnRoleRoots(authorized: set<Key>): Snapshot -> seq<RoleRoot> {
    (s: Snapshot) => if s.key in authorized && s.replacements.Some? then [RoleRoot(s.key, s.root)] else []
  }

  function Gather<T>(snapshots: seq<Snapshot>, own: Snapshot -> seq<T>): seq<T> {
    if snapshots == [] then []
    else Gather(snapshots[..|snapshots| - 1], own) + own(snapshots[|snapshots| - 1])
  }

  predicate RoleBefore(a: Role, b: Role) {
    || TextBefore(a.path, b.path)
    || (a.path == b.path && (TextBefore(a.key, b.key) || (a.key == b.key && a.generation <= b.generation)))
  }

  predicate RoleRootBefore(a: RoleRoot, b: RoleRoot) {
    TextBefore(a.key, b.key) || (a.key == b.key && OrdinalLe(a.root.cid.text, b.root.cid.text))
  }

  datatype Roles = Roles(replacements: seq<Role>, roots: seq<RoleRoot>)

  function MergedRoles(snapshots: seq<Snapshot>, authorized: set<Key>): Roles {
    Roles(Sort(Gather(snapshots, OwnRoles(authorized)), RoleBefore),
          Sort(Gather(snapshots, OwnRoleRoots(authorized)), RoleRootBefore))
  }

  lemma AddOne(offers: seq<Offer>, o: Offer)
    ensures AddOffers(offers + [o]) == AddOffer(AddOffers(offers), o)
  {
    assert (offers + [o])[..|offers|] == offers;
  }

  lemma NoneMore<T>(s: seq<T>)
    ensures s + [] == s
  {
  }

  lemma NextFile(s: Snapshot, j: nat, ignored: string -> bool, offers: seq<Offer>)
    requires j < |s.files|
    ensures AddOffers(offers + FileOffers(s, s.files[..j + 1], ignored))
            == if ignored(s.files[j].path) then AddOffers(offers + FileOffers(s, s.files[..j], ignored))
               else AddOffer(AddOffers(offers + FileOffers(s, s.files[..j], ignored)),
                             Offer(Slot(s.files[j].path, false, s.root.localOnly), WriteOf(s, s.files[j])))
  {
    var before := FileOffers(s, s.files[..j], ignored);
    var o := Offer(Slot(s.files[j].path, false, s.root.localOnly), WriteOf(s, s.files[j]));
    assert s.files[..j + 1][..j] == s.files[..j];
    Regroup(offers, before, if ignored(s.files[j].path) then [] else [o]);
    if ignored(s.files[j].path) {
      NoneMore(offers + before);
    } else {
      AddOne(offers + before, o);
    }
  }

  /** The loop over the files of one snapshot. */
  method TakeFiles(t: Tables, snap: Snapshot, ignored: string -> bool, ghost offers: seq<Offer>) returns (r: Tables)
    requires t == AddOffers(offers)
    ensures r == AddOffers(offers + FileOffers(snap, snap.files, ignored))
  {
    r := t;
    NoneMore(offers);
    for j := 0 to |snap.files|
      invariant r == AddOffers(offers + FileOffers(snap, snap.files[..j], ignored))
    {
      NextFile(snap, j, ignored, offers);
      var f := snap.files[j];
      if ignored(f.path) {
        continue;
      }
      r := AddCandidate(r, Offer(Slot(f.path, false, snap.root.localOnly), WriteOf(snap, f)));
    }
    assert snap.files[..|snap.files|] == snap.files;
  }

  lemma NextTombstone(s: Snapshot, j: nat, ignored: string -> bool, offers: seq<Offer>)
    requires j < |s.tombstones|
    ensures AddOffers(offers + TombstoneOffers(s, s.tombstones[..j + 1], ignored))
            == if ignored(s.tombstones[j].path) then AddOffers(offers + TombstoneOffers(s, s.tombstones[..j], ignored))
               else AddOffer(AddOffers(offers + TombstoneOffers(s, s.tombstones[..j], ignored)),
                             Offer(Slot(s.tombstones[j].path, true, s.root.localOnly), TombstoneOf(s, s.tombstones[j])))
  {
    var before := TombstoneOffers(s, s.tombstones[..j], ignored);
    var o := Offer(Slot(s.tombstones[j].path, true, s.root.localOnly), TombstoneOf(s, s.tombstones[j]));
    assert s.tombstones[..j + 1][..j] == s.tombstones[..j];
    Regroup(offers, before, if ignored(s.tombstones[j].path) then [] else [o]);
    if ignored(s.tombstones[j].path) {
      NoneMore(offers + before);
    } else {
      AddOne(offers + before, o);
    }
  }

  /** The loop over the tombstones of one snapshot. */
  method TakeTombstones(t: Tables, snap: Snapshot, ignored: string -> bool, ghost offers: seq<Offer>) returns (r: Tables)
    requires t == AddOffers(offers)
    ensures r == AddOffers(offers + TombstoneOffers(snap, snap.tombstones, ignored))
  {
    r := t;
    NoneMore(offers);
    for j := 0 to |snap.tombstones|
      invariant r == AddOffers(offers + TombstoneOffers(snap, snap.tombstones[..j], ignored))
    {
      NextTombstone(snap, j, ignored, offers);
      var d := snap.tombstones[j];
      if ignored(d.path) {
        continue;
      }
      r := AddCandidate(r, Offer(Slot(d.path, true, snap.root.localOnly), TombstoneOf(snap, d)));
    }
    assert snap.tombstones[..|snap.tombstones|] == snap.tombstones;
  }

  method TakeSnapshot(t: Tables, snap: Snapshot, authorized: set<Key>, ignored: string -> bool, ghost offers: seq<Offer>)
    returns (r: Tables)
    requires t == AddOffers(offers)
    ensures r == AddOffers(offers + SnapshotOffers(snap, authorized, ignored))
  {
    if snap.key !in authorized {
      assert offers + [] == offers;
      return t;
    }
    r := TakeFiles(t, snap, ignored, offers);
    r := TakeTombstones(r, snap, ignored, offers + FileOffers(snap, snap.files, ignored));
    Regroup(offers, FileOffers(snap, snap.files, ignored), TombstoneOffers(snap, snap.tombstones, ignored));
  }

  lemma Regroup<T>(a: seq<T>, b: seq<T>, c: seq<T>)
    ensures a + b + c == a + (b + c)
  {
  }

  lemma AllOffersStep(snapshots: seq<Snapshot>, i: nat, authorized: set<Key>, ignored: string -> bool)
    requires i < |snapshots|
    ensures AllOffers(snapshots[..i + 1], authorized, ignored)
            == AllOffers(snapshots[..i], authorized, ignored) + SnapshotOffers(snapshots[i], authorized, ignored)
  {
    assert snapshots[..i + 1][..i] == snapshots[..i];
  }

  lemma GatherStep<T>(snapshots: seq<Snapshot>, i: nat, own: Snapshot -> seq<T>)
    requires i < |snapshots|
    ensures Gather(snapshots[..i + 1], own) == Gather(snapshots[..i], own) + own(snapshots[i])
  {
    assert snapshots[..i + 1][..i] == snapshots[..i];
  }

  /** The loop over the snapshots, and the view read off the tables. */
  method MergeDrives(authorized: set<Key>, snapshots: seq<Snapshot>, ignored: string -> bool)
    returns (view: View, roles: Roles)
    ensures view == MergedView(snapshots, authorized, ignored)
    ensures roles == MergedRoles(snapshots, authorized)
  {
    var t := NO_TABLES;
    var replacements, roots := [], [];
    for i := 0 to |snapshots|
      invariant t == AddOffers(AllOffers(snapshots[..i], authorized, ignored))
      invariant replacements == Gather(snapshots[..i], OwnRoles(authorized))
      invariant roots == Gather(snapshots[..i], OwnRoleRoots(authorized))
    {
      AllOffersStep(snapshots, i, authorized, ignored);
      GatherStep(snapshots, i, OwnRoles(authorized));
      GatherStep(snapshots, i, OwnRoleRoots(authorized));
      if snapshots[i].key in authorized && snapshots[i].replacements.Some? {
        roots := roots + [RoleRoot(snapshots[i].key, snapshots[i].root)];
        replacements := replacements + RolesOf(snapshots[i], snapshots[i].replacements.value);
      }
      t := TakeSnapshot(t, snapshots[i], authorized, ignored, AllOffers(snapshots[..i], authorized, ignored));
    }
    assert snapshots[..|snapshots|] == snapshots;
    view := BuildView(WithLocalWrites(t), WithLocalTombstones(t), t.conflicts, t.details);
    roles := Roles(Sort(replacements, RoleBefore), Sort(roots, RoleRootBefore));
  }

  /** Puts a candidate into its table and notes a conflict with the one it meets there. */
  method AddCandidate(t: Tables, o: Offer) returns (r: Tables)
    ensures r == AddOffer(t, o)
  {
    var path, c := o.slot.path, o.candidate;
    if o.slot.tombstone {
      if o.slot.localOnly {
        r := t.(localTombstones := Insert(t.localTombstones, path, c));
      } else {
        r := t.(tombstones := Insert(t.tombstones, path, c));
      }
    } else if o.slot.localOnly {
      r := t.(localWrites := Insert(t.localWrites, path, c));
    } else {
      r := t;
      if path in t.writes {
        if WriteConflict(c, t.writes[path]) {
          r := r.(conflicts := r.conflicts + {path},
                  details := r.details[path := NoteWrite(DetailAt(r.details, path, WriteWrite), c, t.writes[path])]);
        }
        if Wins(c, t.writes[path]) {
          r := r.(writes := r.writes[path := c]);
        }
      } else {
        r := r.(writes := r.writes[path := c]);
      }
    }
  }

  /** The writes looked at so far stand where they belong. */
  ghost predicate Divided(files: Table, suppressed: map<string, (Candidate, Candidate)>, writes: Table, tombstones: Table,
                          done: set<string>)
    requires done <= writes.Keys
  {
    && files.Keys == (set p | p in done && !Hidden(writes, tombstones, p))
    && (forall p :: p in files ==> files[p] == writes[p])
    && suppressed.Keys == (set p | p in done && Hidden(writes, tombstones, p))
    && (forall p :: p in suppressed ==> suppressed[p] == (writes[p], tombstones[p]))
  }

  /** The conflicts between the writes looked at so far and their tombstones are noted. */
  ghost predicate Noted(described: map<string, Conflict>, writes: Table, tombstones: Table, details: map<string, Conflict>,
                        done: set<string>) {
    && described.Keys == details.Keys + DeleteConflicts(writes, tombstones, done)
    && forall p :: p in described ==> described[p] == DetailOf(writes, tombstones, details, p, p in done)
  }

  ghost predicate Built(v: View, writes: Table, tombstones: Table, conflicts: set<string>, details: map<string, Conflict>,
                        done: set<string>) {
    && done <= writes.Keys && Divided(v.files, v.suppressed, writes, tombstones, done)
    && Noted(v.details, writes, tombstones, details, done)
    && v.conflicts == conflicts + DeleteConflicts(writes, tombstones, done)
  }

  /** Shows the write of a path, or keeps it with the tombstone that hides it. */
  method ShowOrHide(writes: Table, tombstones: Table, path: string, files: Table,
                    suppressed: map<string, (Candidate, Candidate)>, ghost done: set<string>)
    returns (shown: Table, hidden: map<string, (Candidate, Candidate)>)
    requires done <= writes.Keys && path in writes && path !in done
    requires Divided(files, suppressed, writes, tombstones, done)
    ensures Divided(shown, hidden, writes, tombstones, done + {path})
  {
    shown, hidden := files, suppressed;
    if path in tombstones && Suppresses(tombstones[path], writes[path]) {
      hidden := suppressed[path := (writes[path], tombstones[path])];
    } else {
      shown := files[path := writes[path]];
    }
  }

  /** Notes the conflict between the write and the tombstone of a path, if there is one. */
  method MarkWriteDelete(writes: Table, tombstones: Table, path: string, noted: set<string>, described: map<string, Conflict>,
                         ghost details: map<string, Conflict>, ghost done: set<string>)
    returns (paths: set<string>, updated: map<string, Conflict>)
    requires path in writes && path !in done && Noted(described, writes, tombstones, details, done)
    ensures paths == noted + DeleteConflicts(writes, tombstones, {path})
    ensures Noted(updated, writes, tombstones, details, done + {path})
  {
    paths, updated := noted, described;
    if path in tombstones && ConcurrentEdits(writes[path], tombstones[path]) {
      paths := noted + {path};
      updated := described[path := NoteDelete(DetailAt(described, path, WriteDelete), writes[path], tombstones[path])];
    }
  }

  /** One turn of the loop over the winning writes. */
  method VisitWrite(v: View, writes: Table, tombstones: Table, path: string, ghost conflicts: set<string>,
                    ghost details: map<string, Conflict>, ghost done: set<string>) returns (next: View)
    requires path in writes && path !in done && Built(v, writes, tombstones, conflicts, details, done)
    ensures Built(next, writes, tombstones, conflicts, details, done + {path})
  {
    var noted, described := MarkWriteDelete(writes, tombstones, path, v.conflicts, v.details, details, done);
    var files, suppressed := ShowOrHide(writes, tombstones, path, v.files, v.suppressed, done);
    next := v.(files := files, suppressed := suppressed, conflicts := noted, details := described);
  }

  lemma NothingVisited(v: View, writes: Table, tombstones: Table, conflicts: set<string>, details: map<string, Conflict>)
    requires v.files == map[] && v.suppressed == map[] && v.conflicts == conflicts && v.details == details
    ensures Built(v, writes, tombstones, conflicts, details, {})
  {
  }

  lemma AllVisited(v: View, writes: Table, tombstones: Table, conflicts: set<string>, details: map<string, Conflict>)
    requires Built(v, writes, tombstones, conflicts, details, writes.Keys)
    ensures v.(tombstones := tombstones, suppressedPaths := v.suppressed.Keys + (tombstones.Keys - writes.Keys))
            == ViewOf(writes, tombstones, conflicts, details)
  {
  }

  /** The loop over the winning writes, and what is left of the tombstones. */
  method BuildView(writes: Table, tombstones: Table, conflicts: set<string>, details: map<string, Conflict>) returns (view: View)
    ensures view == ViewOf(writes, tombstones, conflicts, details)
  {
    view := View(map[], map[], map[], {}, conflicts, details);
    NothingVisited(view, writes, tombstones, conflicts, details);
    ghost var done := {};
    var left := writes.Keys;
    while left != {}
      invariant left !! done && left + done == writes.Keys
      invariant Built(view, writes, tombstones, conflicts, details, done)
      decreases left
    {
      var path :| path in left;
      view := VisitWrite(view, writes, tombstones, path, conflicts, details, done);
      left, done := left - {path}, done + {path};
    }
    AllVisited(view, writes, tombstones, conflicts, details);
    view := view.(tombstones := tombstones, suppressedPaths := view.suppressed.Keys + (tombstones.Keys - writes.Keys));
  }
}
