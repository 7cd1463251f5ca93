/**
 One prepare pass over the local sync root: what it does to the disk and to the cached local
 state.  The outcome of every file system operation is a parameter, so the theorems about passes
 hold whichever deletes, creations and writes succeed.
*/
module SyncRoot {
  import opened Paths
  import opened Sorting
  import opened Listing
  import opened Wrappers

  // ---------------------------------------------------------------------------------------------
  // The disk, the cache and the outcomes of file system operations
  // ---------------------------------------------------------------------------------------------

  datatype Content = Content(size: int, sha: string)

  /** Where a file placeholder came from; no file system call can see this. */
  datatype Origin = Foreign | MadeFrom(version: Option<string>)

  datatype Item =
    | LocalFile(content: Content)
    | LocalDirectory
    | CloudFile(readable: Option<Content>, offline: bool, origin: Origin)
    | CloudDirectory

  type Disk = map<Path, Item>

  predicate IsDirectoryItem(item: Item) {
    item.LocalDirectory? || item.CloudDirectory?
  }

  predicate IsPlaceholder(item: Item) {
    item.CloudFile? || item.CloudDirectory?
  }

  /** The root always exists. */
  predicate DirectoryExists(disk: Disk, p: Path) {
    p == [] || (p in disk && IsDirectoryItem(disk[p]))
  }

  predicate FileExists(disk: Disk, p: Path) {
    p in disk && !IsDirectoryItem(disk[p])
  }

  predicate ExistingPlaceholder(disk: Disk, p: Path) {
    p in disk && IsPlaceholder(disk[p])
  }

  predicate IsChild(q: Path, p: Path) {
    |q| == |p| + 1 && Covers(p, q)
  }

  predicate HasChildren(disk: Disk, p: Path) {
    exists q :: q in disk && IsChild(q, p)
  }

  /** A record of the cached local state. */
  datatype Cached = Cached(path: Path, isDirectory: bool, size: int,
                           sha: Option<string>, version: Option<string>)

  predicate IsWhiteSpace(c: char) {
    || '\t' <= c <= '\r' || c == ' ' || c == '\U{85}' || c == '\U{A0}' || c == '\U{1680}'
    || '\U{2000}' <= c <= '\U{200A}' || c == '\U{2028}' || c == '\U{2029}' || c == '\U{202F}'
    || c == '\U{205F}' || c == '\U{3000}'
  }

  predicate Blank(s: Option<string>) {
    s.None? || forall i :: 0 <= i < |s.value| ==> IsWhiteSpace(s.value[i])
  }

  datatype Made = CreateFails | Makes(readable: Option<Content>, offline: bool)

  datatype WriteOutcome = Written | KeptOld | Lost

  /**
   What the file system and the provider answer during one pass: whether the sync root can be
   registered and connected, which deletes succeed (by position in the walked list or by path),
   which items survive a recursive delete, which placeholders count as recent, what creations
   yield, the hash of a provider read, and the order in which directories are enumerated.
  */
  datatype Weather = Weather(
    registers: bool,
    connects: bool,
    write: WriteOutcome,
    changedDelete: nat -> bool,
    spared: Path -> set<Path>,
    recent: Path -> bool,
    pruneDelete: Path -> bool,
    refreshDelete: Path -> bool,
    create: Path -> Made,
    staleDelete: nat -> bool,
    providerSha: Path -> Option<string>,
    walkIgnored: seq<Path>,
    walkPrune: seq<Path>)

  datatype Inputs = Inputs(entries: seq<Entry>, pendingDeletes: set<Path>, pendingPreserves: set<Path>)

  datatype Root = Root(disk: Disk, cache: seq<Cached>)

  /** Loading drops records with an unusable path. */
  function LoadLocalState(cache: seq<Cached>): seq<Cached> {
    if cache == [] then []
    else
      var last := cache[|cache| - 1];
      var rest := LoadLocalState(cache[..|cache| - 1]);
      if last.path == [] || Ignored(last.path) then rest else rest + [last]
  }

  /** The last record of each path. */
  function PreviousByPath(previous: seq<Cached>): map<Path, Cached> {
    if previous == [] then map[]
    else
      var last := previous[|previous| - 1];
      PreviousByPath(previous[..|previous| - 1])[last.path := last]
  }

  predicate MatchesRecord(item: Item, r: Cached) {
    item.LocalFile? && item.content.size == r.size && Some(item.content.sha) == r.sha
  }

  predicate DeeperFirst(a: Path, b: Path) {
    |a| >= |b|
  }

  predicate DeeperRecordFirst(a: Cached, b: Cached) {
    |a.path| >= |b.path|
  }

  // ---------------------------------------------------------------------------------------------
  // Removing synced files the provider has changed
  // ---------------------------------------------------------------------------------------------

  predicate ProviderDiffersFromRecord(e: Entry, r: Cached) {
    e.size != r.size || (!Blank(e.version) && e.version != r.version)
  }

  /** r describes the plain file at its path, and the provider now lists another version of it. */
  predicate ChangedVictim(disk: Disk, r: Cached, listed: map<Path, Entry>) {
    && r.path != [] && !r.isDirectory && !Blank(r.sha) && !Ignored(r.path)
    && r.path in listed && !listed[r.path].isDirectory
    && r.path in disk && MatchesRecord(disk[r.path], r)
    && ProviderDiffersFromRecord(listed[r.path], r)
  }

  function ChangedStep(disk: Disk, r: Cached, listed: map<Path, Entry>, deleted: bool): Disk {
    if ChangedVictim(disk, r, listed) && deleted then disk - {r.path} else disk
  }

  function AfterChanged(disk: Disk, previous: seq<Cached>, listed: map<Path, Entry>, deleted: nat -> bool): Disk {
    if previous == [] then disk
    else
      var n := |previous| - 1;
      ChangedStep(AfterChanged(disk, previous[..n], listed, deleted), previous[n], listed, deleted(n))
  }

  // ---------------------------------------------------------------------------------------------
  // Projected paths that are gone from disk
  // ---------------------------------------------------------------------------------------------

  predicate IsMissingProjection(disk: Disk, r: Cached, listed: map<Path, Entry>) {
    && r.path != [] && r.path in listed && listed[r.path].isDirectory == r.isDirectory
    && if r.isDirectory then !DirectoryExists(disk, r.path)
       else !Blank(r.sha) && r.path !in disk
  }

  function MissingProjected(disk: Disk, previous: seq<Cached>, listed: map<Path, Entry>): set<Path> {
    set i | 0 <= i < |previous| && IsMissingProjection(disk, previous[i], listed) :: previous[i].path
  }

  // ---------------------------------------------------------------------------------------------
  // Removing ignored items and stale placeholders
  // ---------------------------------------------------------------------------------------------

  /** A recursive delete leaves the items that resist and the directories above them. */
  function AfterDeleteTree(disk: Disk, p: Path, spared: set<Path>): Disk {
    map q | q in disk && (!Covers(p, q) || exists s :: s in spared && Covers(q, s)) :: disk[q]
  }

  function IgnoredStep(disk: Disk, p: Path, spared: set<Path>): Disk {
    if p != [] && Ignored(p) && p in disk then AfterDeleteTree(disk, p, spared) else disk
  }

  function AfterIgnored(disk: Disk, walk: seq<Path>, spared: Path -> set<Path>): Disk {
    if walk == [] then disk
    else
      var n := |walk| - 1;
      IgnoredStep(AfterIgnored(disk, walk[..n], spared), walk[n], spared(walk[n]))
  }

  predicate PruneVictim(disk: Disk, p: Path, expected: set<Path>, recent: Path -> bool) {
    && p != [] && p !in expected && ExistingPlaceholder(disk, p) && !recent(p)
    && !(IsDirectoryItem(disk[p]) && HasChildren(disk, p))
  }

  function PruneStep(disk: Disk, p: Path, expected: set<Path>, recent: Path -> bool, deleted: bool): Disk {
    if PruneVictim(disk, p, expected, recent) && deleted then disk - {p} else disk
  }

  function AfterPrune(disk: Disk, walk: seq<Path>, expected: set<Path>, recent: Path -> bool,
                      deleted: Path -> bool): Disk {
    if walk == [] then disk
    else
      var n := |walk| - 1;
      PruneStep(AfterPrune(disk, walk[..n], expected, recent, deleted), walk[n], expected, recent,
                deleted(walk[n]))
  }

  // ---------------------------------------------------------------------------------------------
  // Populating placeholders
  // ---------------------------------------------------------------------------------------------

  datatype Population = Population(disk: Disk, refreshed: set<Path>, shielded: set<Path>,
                                   created: nat, skipped: nat, failed: nat)

  datatype Plan = Plan(pendingDeletes: set<Path>, missing: set<Path>, previous: map<Path, Cached>)

  predicate ProviderFileChanged(e: Entry, previous: map<Path, Cached>) {
    if e.path !in previous || previous[e.path].isDirectory || previous[e.path].size != e.size then true
    else !Blank(e.version) && e.version != previous[e.path].version
  }

  function TrimWhiteSpace(s: string): string {
    if s == "" then ""
    else if IsWhiteSpace(s[0]) then TrimWhiteSpace(s[1..])
    else if IsWhiteSpace(s[|s| - 1]) then TrimWhiteSpace(s[..|s| - 1])
    else s
  }

  predicate IsHexDigit(c: char) {
    '0' <= c <= '9' || 'a' <= c <= 'f' || 'A' <= c <= 'F'
  }

  /** A version that is itself a SHA-256 in hexadecimal names the content. */
  function ContentShaFromVersion(e: Entry): Option<string> {
    if e.isDirectory || Blank(e.version) then None
    else
      var candidate := TrimWhiteSpace(e.version.value);
      if |candidate| == 64 && forall i :: 0 <= i < |candidate| ==> IsHexDigit(candidate[i])
      then Some(LowerAscii(candidate)) else None
  }

  /** Whether a placeholder's content is known to differ; an unreadable one is taken as equal. */
  predicate PlaceholderDiffers(item: Item, e: Entry, providerSha: Option<string>) {
    var wanted :=
      if ContentShaFromVersion(e).Some? then
        (if item.CloudFile? && item.offline then None else ContentShaFromVersion(e))
      else if !Blank(e.version) then None
      else providerSha;
    && wanted.Some?
    && item.CloudFile? && item.readable.Some?
    && (item.readable.value.size != e.size || item.readable.value.sha != wanted.value)
  }

  function NewPlaceholder(e: Entry, readable: Option<Content>, offline: bool): Item {
    if e.isDirectory then CloudDirectory else CloudFile(readable, offline, MadeFrom(e.version))
  }

  function CreateOne(pop: Population, e: Entry, made: Made): Population {
    match made
    case CreateFails => pop.(failed := pop.failed + 1)
    case Makes(readable, offline) =>
      pop.(disk := pop.disk[e.path := NewPlaceholder(e, readable, offline)],
           refreshed := pop.refreshed + {e.path}, created := pop.created + 1)
  }

  /** Replaces a file placeholder; a directory placeholder in its place cannot be replaced. */
  function RefreshOne(pop: Population, e: Entry, deleted: bool, made: Made): Population
    requires e.path in pop.disk
  {
    if !deleted || IsDirectoryItem(pop.disk[e.path]) then pop.(failed := pop.failed + 1)
    else CreateOne(pop.(disk := pop.disk - {e.path}), e, made)
  }

  function PopulateOne(pop: Population, e: Entry, plan: Plan, w: Weather): Population
    requires e.path != []
  {
    if CoveredByAny(plan.pendingDeletes, e.path) then pop
    else if e.path in plan.missing then pop.(skipped := pop.skipped + 1)
    else if !DirectoryExists(pop.disk, Parent(e.path)) then pop.(skipped := pop.skipped + 1)
    else if ExistingPlaceholder(pop.disk, e.path) then
      if e.isDirectory then pop
      else if !ProviderFileChanged(e, plan.previous) &&
              !PlaceholderDiffers(pop.disk[e.path], e, w.providerSha(e.path)) then pop
      else RefreshOne(pop, e, w.refreshDelete(e.path), w.create(e.path))
    else if e.path in pop.disk then
      pop.(skipped := pop.skipped + 1,
           shielded := if e.isDirectory then pop.shielded else pop.shielded + {e.path})
    else CreateOne(pop, e, w.create(e.path))
  }

  predicate Rooted(listing: seq<Entry>) {
    forall i :: 0 <= i < |listing| ==> listing[i].path != []
  }

  function Populate(disk: Disk, listing: seq<Entry>, plan: Plan, w: Weather): Population
    requires Rooted(listing)
  {
    if listing == [] then Population(disk, {}, {}, 0, 0, 0)
    else
      var n := |listing| - 1;
      PopulateOne(Populate(disk, listing[..n], plan, w), listing[n], plan, w)
  }

  // ---------------------------------------------------------------------------------------------
  // Removing synced items the provider no longer lists
  // ---------------------------------------------------------------------------------------------

  predicate StaleVictim(disk: Disk, r: Cached, listed: map<Path, Entry>, shielded: set<Path>) {
    && r.path != [] && !Ignored(r.path) && !RelatedToAny(shielded, r.path)
    && r.path !in listed && r.path in disk
    && if r.isDirectory then disk[r.path].LocalDirectory? && !HasChildren(disk, r.path)
       else !Blank(r.sha) && MatchesRecord(disk[r.path], r)
  }

  function StaleStep(disk: Disk, r: Cached, listed: map<Path, Entry>, shielded: set<Path>, deleted: bool): Disk {
    if StaleVictim(disk, r, listed, shielded) && deleted then disk - {r.path} else disk
  }

  function AfterStale(disk: Disk, ordered: seq<Cached>, listed: map<Path, Entry>, shielded: set<Path>,
                      deleted: nat -> bool): Disk {
    if ordered == [] then disk
    else
      var n := |ordered| - 1;
      StaleStep(AfterStale(disk, ordered[..n], listed, shielded, deleted), ordered[n], listed, shielded, deleted(n))
  }

  // ---------------------------------------------------------------------------------------------
  // The new cache
  // ---------------------------------------------------------------------------------------------

  function SnapshotVersion(e: Entry, previous: map<Path, Cached>, refreshed: set<Path>, item: Item): Option<string> {
    if e.isDirectory || e.path !in previous || previous[e.path].isDirectory
       || Blank(previous[e.path].version) || previous[e.path].version == e.version
       || e.path in refreshed
    then e.version
    else if item.CloudFile? then previous[e.path].version
    else if item.LocalFile? && !Blank(previous[e.path].sha) && MatchesRecord(item, previous[e.path])
    then previous[e.path].version
    else e.version
  }

  function SnapshotOne(disk: Disk, e: Entry, previous: map<Path, Cached>, refreshed: set<Path>): Option<Cached> {
    if e.path !in disk then None
    else
      match disk[e.path]
      case LocalDirectory => Some(Cached(e.path, true, 0, None, e.version))
      case CloudDirectory => Some(Cached(e.path, true, 0, None, e.version))
      case CloudFile(_, _, _) =>
        Some(Cached(e.path, false, e.size, None, SnapshotVersion(e, previous, refreshed, disk[e.path])))
      case LocalFile(content) =>
        Some(Cached(e.path, false, content.size, Some(content.sha),
                    SnapshotVersion(e, previous, refreshed, disk[e.path])))
  }

  function ListedRecords(disk: Disk, listing: seq<Entry>, previous: map<Path, Cached>,
                         refreshed: set<Path>, shielded: set<Path>): seq<Cached> {
    if listing == [] then []
    else
      var n := |listing| - 1;
      var rest := ListedRecords(disk, listing[..n], previous, refreshed, shielded);
      if RelatedToAny(shielded, listing[n].path) then rest
      else match SnapshotOne(disk, listing[n], previous, refreshed)
           case Some(r) => rest + [r]
           case None => rest
  }

  function CurrentPaths(listing: seq<Entry>, shielded: set<Path>): set<Path> {
    set i | 0 <= i < |listing| && !RelatedToAny(shielded, listing[i].path) :: listing[i].path
  }

  predicate Retains(disk: Disk, r: Cached, shielded: set<Path>) {
    && r.path != [] && !Ignored(r.path) && !RelatedToAny(shielded, r.path) && r.path in disk
    && if r.isDirectory then disk[r.path].LocalDirectory?
       else !Blank(r.sha) && MatchesRecord(disk[r.path], r)
  }

  function PathsOf(records: seq<Cached>): set<Path> {
    set i | 0 <= i < |records| :: records[i].path
  }

  function RetainedRecords(disk: Disk, previous: seq<Cached>, current: set<Path>, shielded: set<Path>): seq<Cached> {
    if previous == [] then []
    else
      var n := |previous| - 1;
      var rest := RetainedRecords(disk, previous[..n], current, shielded);
      if previous[n].path !in current && previous[n].path !in PathsOf(rest) && Retains(disk, previous[n], shielded)
      then rest + [previous[n]] else rest
  }

  predicate RecordBefore(a: Cached, b: Cached) {
    OrdinalLe(Join(a.path), Join(b.path))
  }

  function SnapshotLocalState(disk: Disk, listing: seq<Entry>, previous: seq<Cached>,
                              refreshed: set<Path>, shielded: set<Path>): seq<Cached> {
    Sort(ListedRecords(disk, listing, PreviousByPath(previous), refreshed, shielded)
         + RetainedRecords(disk, previous, CurrentPaths(listing, shielded), shielded),
         RecordBefore)
  }

  // ---------------------------------------------------------------------------------------------
  // The whole pass
  // ---------------------------------------------------------------------------------------------

  lemma ListingIsRooted(entries: seq<Entry>)
    ensures Rooted(PlaceholderEntries(entries))
  {
    var listing := PlaceholderEntries(entries);
    forall i | 0 <= i < |listing| ensures listing[i].path != [] {
      assert listing[i] in listing;
      PlaceholderElements(entries);
      ListedExactly(entries);
    }
  }

  /** The disk once changed synced files are gone. */
  function Stage1(root: Root, inp: Inputs, w: Weather): Disk {
    AfterChanged(root.disk, LoadLocalState(root.cache), Listed(inp.entries), w.changedDelete)
  }

  function MissingIn(root: Root, inp: Inputs, w: Weather): set<Path> {
    MissingProjected(Stage1(root, inp, w), LoadLocalState(root.cache), Listed(inp.entries))
  }

  function ExpectedIn(root: Root, inp: Inputs, w: Weather): set<Path> {
    (Listed(inp.entries).Keys + inp.pendingDeletes + inp.pendingPreserves) - MissingIn(root, inp, w)
  }

  /** The disk once ignored items are gone. */
  function Stage2(root: Root, inp: Inputs, w: Weather): Disk {
    AfterIgnored(Stage1(root, inp, w), Sort(w.walkIgnored, DeeperFirst), w.spared)
  }

  /** The disk once stale placeholders are gone. */
  function Stage3(root: Root, inp: Inputs, w: Weather): Disk {
    AfterPrune(Stage2(root, inp, w), Sort(w.walkPrune, DeeperFirst), ExpectedIn(root, inp, w), w.recent, w.pruneDelete)
  }

  function PlanFor(root: Root, inp: Inputs, w: Weather): Plan {
    Plan(inp.pendingDeletes, MissingIn(root, inp, w), PreviousByPath(LoadLocalState(root.cache)))
  }

  function Stage4(root: Root, inp: Inputs, w: Weather): Population {
    ListingIsRooted(inp.entries);
    Populate(Stage3(root, inp, w), PlaceholderEntries(inp.entries), PlanFor(root, inp, w), w)
  }

  /** The disk once unlisted synced items are gone. */
  function Stage5(root: Root, inp: Inputs, w: Weather): Disk {
    var pop := Stage4(root, inp, w);
    AfterStale(pop.disk, Sort(LoadLocalState(root.cache), DeeperRecordFirst), Listed(inp.entries),
               pop.shielded, w.staleDelete)
  }

  function NewCache(root: Root, inp: Inputs, w: Weather): seq<Cached> {
    var pop := Stage4(root, inp, w);
    SnapshotLocalState(Stage5(root, inp, w), PlaceholderEntries(inp.entries), LoadLocalState(root.cache),
                       pop.refreshed, pop.shielded)
  }

  /** One prepare pass. */
  function Prepare(root: Root, inp: Inputs, w: Weather): Root {
    if !w.registers then root
    else if !w.connects then Root(Stage4(root, inp, w).disk, root.cache)
    else Root(Stage5(root, inp, w),
              match w.write
              case Written => NewCache(root, inp, w)
              case KeptOld => root.cache
              case Lost => [])
  }

  // ---------------------------------------------------------------------------------------------
  // The loops
  // ---------------------------------------------------------------------------------------------

  class SyncRootFolder {
    var disk: Disk
    var cache: seq<Cached>

    ghost function State(): Root
      reads this
    {
      Root(disk, cache)
    }

    method RemoveChangedSyncedLocalItems(listed: map<Path, Entry>, previous: seq<Cached>, w: Weather)
      modifies `disk
      ensures disk == AfterChanged(old(disk), previous, listed, w.changedDelete)
    {
      var i := 0;
      while i < |previous|
        invariant 0 <= i <= |previous|
        invariant disk == AfterChanged(old(disk), previous[..i], listed, w.changedDelete)
      {
        var r := previous[i];
        assert previous[..i + 1][..i] == previous[..i];
        i := i + 1;
        if r.path == [] || r.isDirectory || Blank(r.sha) || Ignored(r.path)
           || r.path !in listed || listed[r.path].isDirectory {
          continue;
        }
        if !FileExists(disk, r.path) || ExistingPlaceholder(disk, r.path) {
          continue;
        }
        var snapshot := disk[r.path].content;
        if snapshot.size != r.size || Some(snapshot.sha) != r.sha {
          continue;
        }
        var provider := listed[r.path];
        var providerChanged := provider.size != snapshot.size;
        if !providerChanged && !Blank(provider.version) {
          providerChanged := provider.version != r.version;
        }
        if !providerChanged {
          continue;
        }
        if w.changedDelete(i - 1) {
          disk := disk - {r.path};
        }
      }
      assert previous[..|previous|] == previous;
    }

    method MissingProjectedLocalPaths(listed: map<Path, Entry>, previous: seq<Cached>) returns (missing: set<Path>)
      ensures missing == MissingProjected(disk, previous, listed)
    {
      missing := {};
      var i := 0;
      while i < |previous|
        invariant 0 <= i <= |previous|
        invariant forall p :: p in missing <==>
                    exists k :: 0 <= k < i && IsMissingProjection(disk, previous[k], listed) && previous[k].path == p
      {
        var r := previous[i];
        i := i + 1;
        if r.path == [] || r.path !in listed || listed[r.path].isDirectory != r.isDirectory {
          continue;
        }
        if r.isDirectory {
          if !DirectoryExists(disk, r.path) {
            missing := missing + {r.path};
          }
          continue;
        }
        if Blank(r.sha) {
          continue;
        }
        if !FileExists(disk, r.path) && !DirectoryExists(disk, r.path) {
          missing := missing + {r.path};
        }
      }
    }

    method RemoveIgnoredLocalItems(w: Weather)
      modifies `disk
      ensures disk == AfterIgnored(old(disk), Sort(w.walkIgnored, DeeperFirst), w.spared)
    {
      var walk := Sort(w.walkIgnored, DeeperFirst);
      var i := 0;
      while i < |walk|
        invariant 0 <= i <= |walk|
        invariant disk == AfterIgnored(old(disk), walk[..i], w.spared)
      {
        assert walk[..i + 1][..i] == walk[..i];
        var relative := walk[i];
        i := i + 1;
        if relative == [] || !Ignored(relative) {
          continue;
        }
        if DirectoryExists(disk, relative) || FileExists(disk, relative) {
          disk := AfterDeleteTree(disk, relative, w.spared(relative));
        }
      }
      assert walk[..|walk|] == walk;
    }

    method RemoveStalePlaceholders(expected: set<Path>, w: Weather)
      modifies `disk
      ensures disk == AfterPrune(old(disk), Sort(w.walkPrune, DeeperFirst), expected, w.recent, w.pruneDelete)
    {
      var walk := Sort(w.walkPrune, DeeperFirst);
      var i := 0;
      while i < |walk|
        invariant 0 <= i <= |walk|
        invariant disk == AfterPrune(old(disk), walk[..i], expected, w.recent, w.pruneDelete)
      {
        assert walk[..i + 1][..i] == walk[..i];
        var relative := walk[i];
        i := i + 1;
        if relative == [] || relative in expected {
          continue;
        }
        if !ExistingPlaceholder(disk, relative) || w.recent(relative) {
          continue;
        }
        if DirectoryExists(disk, relative) && HasChildren(disk, relative) {
          continue;
        }
        if w.pruneDelete(relative) {
          disk := disk - {relative};
        }
      }
      assert walk[..|walk|] == walk;
    }

    method CreatePlaceholder(e: Entry, w: Weather) returns (created: bool)
      modifies `disk
      ensures var made := w.create(e.path);
              created == made.Makes? &&
              disk == if made.Makes? then old(disk)[e.path := NewPlaceholder(e, made.readable, made.offline)]
                      else old(disk)
    {
      match w.create(e.path)
      case CreateFails => created := false;
      case Makes(readable, offline) =>
        disk := disk[e.path := NewPlaceholder(e, readable, offline)];
        created := true;
    }

    method PopulatePlaceholders(listing: seq<Entry>, plan: Plan, w: Weather) returns (pop: Population)
      requires Rooted(listing)
      modifies `disk
      ensures pop == Populate(old(disk), listing, plan, w) && disk == pop.disk
    {
      var refreshed, shielded: set<Path> := {}, {};
      var created, skipped, failed := 0, 0, 0;
      var i := 0;
      while i < |listing|
        invariant 0 <= i <= |listing|
        invariant Population(disk, refreshed, shielded, created, skipped, failed)
                  == Populate(old(disk), listing[..i], plan, w)
      {
        assert listing[..i + 1][..i] == listing[..i];
        var e := listing[i];
        i := i + 1;
        if CoveredByAny(plan.pendingDeletes, e.path) {
          continue;
        }
        if e.path in plan.missing {
          skipped := skipped + 1;
          continue;
        }
        if !DirectoryExists(disk, Parent(e.path)) {
          skipped := skipped + 1;
          continue;
        }
        if ExistingPlaceholder(disk, e.path) {
          if e.isDirectory {
            continue;
          }
          if !ProviderFileChanged(e, plan.previous) &&
             !PlaceholderDiffers(disk[e.path], e, w.providerSha(e.path)) {
            continue;
          }
          if IsDirectoryItem(disk[e.path]) || !w.refreshDelete(e.path) {
            failed := failed + 1;
            continue;
          }
          disk := disk - {e.path};
        } else if e.path in disk {
          skipped := skipped + 1;
          if !e.isDirectory {
            shielded := shielded + {e.path};
          }
          continue;
        }
        var made := CreatePlaceholder(e, w);
        if made {
          refreshed := refreshed + {e.path};
          created := created + 1;
        } else {
          failed := failed + 1;
        }
      }
      assert listing[..|listing|] == listing;
      pop := Population(disk, refreshed, shielded, created, skipped, failed);
    }

    method RemoveStaleSyncedLocalItems(listed: map<Path, Entry>, previous: seq<Cached>, shielded: set<Path>, w: Weather)
      modifies `disk
      ensures disk == AfterStale(old(disk), Sort(previous, DeeperRecordFirst), listed, shielded, w.staleDelete)
    {
      var ordered := Sort(previous, DeeperRecordFirst);
      var i := 0;
      while i < |ordered|
        invariant 0 <= i <= |ordered|
        invariant disk == AfterStale(old(disk), ordered[..i], listed, shielded, w.staleDelete)
      {
        assert ordered[..i + 1][..i] == ordered[..i];
        var r := ordered[i];
        i := i + 1;
        if r.path == [] || Ignored(r.path) || RelatedToAny(shielded, r.path) || r.path in listed {
          continue;
        }
        if r.isDirectory {
          if DirectoryExists(disk, r.path) && !ExistingPlaceholder(disk, r.path) {
            if !HasChildren(disk, r.path) && w.staleDelete(i - 1) {
              disk := disk - {r.path};
            }
          }
          continue;
        }
        if !FileExists(disk, r.path) || ExistingPlaceholder(disk, r.path) || Blank(r.sha) {
          continue;
        }
        var snapshot := disk[r.path].content;
        if snapshot.size != r.size || Some(snapshot.sha) != r.sha {
          continue;
        }
        if w.staleDelete(i - 1) {
          disk := disk - {r.path};
        }
      }
      assert ordered[..|ordered|] == ordered;
    }

    method TakeSnapshot(listing: seq<Entry>, previous: seq<Cached>, refreshed: set<Path>, shielded: set<Path>)
      returns (state: seq<Cached>)
      ensures state == SnapshotLocalState(disk, listing, previous, refreshed, shielded)
    {
      var byPath := PreviousByPath(previous);
      var current: set<Path> := {};
      state := [];
      var i := 0;
      while i < |listing|
        invariant 0 <= i <= |listing|
        invariant current == CurrentPaths(listing[..i], shielded)
        invariant state == ListedRecords(disk, listing[..i], byPath, refreshed, shielded)
      {
        assert listing[..i + 1][..i] == listing[..i];
        CurrentPathsStep(listing, shielded, i);
        var e := listing[i];
        i := i + 1;
        if RelatedToAny(shielded, e.path) {
          continue;
        }
        current := current + {e.path};
        match SnapshotOne(disk, e, byPath, refreshed)
        case Some(r) => state := state + [r];
        case None =>
      }
      assert listing[..|listing|] == listing;
      var retained: seq<Cached> := [];
      i := 0;
      while i < |previous|
        invariant 0 <= i <= |previous|
        invariant retained == RetainedRecords(disk, previous[..i], CurrentPaths(listing, shielded), shielded)
        invariant current == CurrentPaths(listing, shielded) + PathsOf(retained)
      {
        assert previous[..i + 1][..i] == previous[..i];
        var r := previous[i];
        i := i + 1;
        if r.path !in current && Retains(disk, r, shielded) {
          PathsOfAppend(retained, r);
          current := current + {r.path};
          retained := retained + [r];
        }
      }
      assert previous[..|previous|] == previous;
      state := Sort(state + retained, RecordBefore);
    }

    /** The order of the stages, with the two points at which a pass can stop early. */
    method ApplyListing(inp: Inputs, w: Weather)
      modifies this
      ensures State() == Prepare(old(State()), inp, w)
    {
      if !w.registers {
        return;
      }
      var previous := LoadLocalState(cache);
      var listing := BuildPlaceholderEntries(inp.entries);
      ListingIsRooted(inp.entries);
      var listed := Listed(inp.entries);
      RemoveChangedSyncedLocalItems(listed, previous, w);
      var missing := MissingProjectedLocalPaths(listed, previous);
      var expected := (listed.Keys + inp.pendingDeletes + inp.pendingPreserves) - missing;
      RemoveIgnoredLocalItems(w);
      RemoveStalePlaceholders(expected, w);
      var pop := PopulatePlaceholders(listing, Plan(inp.pendingDeletes, missing, PreviousByPath(previous)), w);
      if !w.connects {
        return;
      }
      RemoveStaleSyncedLocalItems(listed, previous, pop.shielded, w);
      var state := TakeSnapshot(listing, previous, pop.refreshed, pop.shielded);
      match w.write
      case Written => cache := state;
      case KeptOld =>
      case Lost => cache := [];
    }
  }

  lemma CurrentPathsStep(listing: seq<Entry>, shielded: set<Path>, i: nat)
    requires i < |listing|
    ensures CurrentPaths(listing[..i + 1], shielded)
            == if RelatedToAny(shielded, listing[i].path) then CurrentPaths(listing[..i], shielded)
               else CurrentPaths(listing[..i], shielded) + {listing[i].path}
  {
    var longer, shorter := listing[..i + 1], listing[..i];
    forall p ensures p in CurrentPaths(longer, shielded) <==>
                     p in CurrentPaths(shorter, shielded) ||
                     (p == listing[i].path && !RelatedToAny(shielded, p)) {
      if p in CurrentPaths(longer, shielded) {
        var k :| 0 <= k < |longer| && !RelatedToAny(shielded, longer[k].path) && longer[k].path == p;
        if k < i {
          assert shorter[k].path == p;
        }
      }
      if p in CurrentPaths(shorter, shielded) {
        var k :| 0 <= k < |shorter| && !RelatedToAny(shielded, shorter[k].path) && shorter[k].path == p;
        assert longer[k].path == p;
      }
      if p == listing[i].path && !RelatedToAny(shielded, p) {
        assert longer[i].path == p;
      }
    }
  }

  lemma PathsOfAppend(records: seq<Cached>, r: Cached)
    ensures PathsOf(records + [r]) == PathsOf(records) + {r.path}
  {
    forall p ensures p in PathsOf(records + [r]) <==> p in PathsOf(records) || p == r.path {
      if p in PathsOf(records) {
        var i :| 0 <= i < |records| && records[i].path == p;
        assert (records + [r])[i].path == p;
      }
      assert (records + [r])[|records|].path == r.path;
    }
  }
}
