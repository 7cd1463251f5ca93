/** Concrete runs of the failing properties, one file "a" in the sync root. */
module SyncExamples {
  import opened Paths
  import opened Sorting
  import opened Listing
  import opened Wrappers
  import opened SyncRoot
  import opened SyncStages
  import opened SyncSafety
  import opened SyncConvergence
  import opened SyncVersions
  import opened SyncRecreation
  import opened SyncInterrupted
  import opened SyncRetries
  import opened Markers
  import opened LocalUpserts
  import opened PlaceholderContent
  import opened SyncContent

  const FILE: Path := ["a"]

  /** Every operation succeeds except, if told so, the cache write and the removal of changed files. */
  function Fair(write: WriteOutcome, removesChanged: bool): Weather {
    Weather(true, true, write, i => removesChanged, p => {}, p => false, p => true, p => true,
            p => Makes(None, true), i => true, p => None, [], [])
  }

  function Offering(entries: seq<Entry>): Inputs {
    Inputs(entries, {}, {})
  }

  function FileEntry(version: string): Entry {
    Entry(FILE, false, 1, Some(version))
  }

  lemma FileIsKept()
    ensures !Ignored(FILE)
  {
    LetterIsKept("a");
  }

  lemma LetterIsNotBlank(s: string)
    requires |s| == 1 && ('A' <= s[0] <= 'Z' || 'a' <= s[0] <= 'z')
    ensures !Blank(Some(s))
  {
    assert !IsWhiteSpace(s[0]);
  }

  lemma NothingListed()
    ensures Listed([]) == map[]
  {
  }

  lemma OneTopEntry(e: Entry)
    requires Accepted(e) && |e.path| == 1
    ensures Listed([e]) == map[e.path := e]
  {
    assert [e][..0] == [];
    assert IndexOf([]) == Index(map[], []);
  }

  lemma OneListed(e: Entry)
    requires e.path == FILE
    ensures Listed([e]) == map[FILE := e]
  {
    FileIsKept();
    OneTopEntry(e);
  }

  lemma OneFileDisk(item: Item)
    ensures WellFormedDisk(map[FILE := item])
  {
    var disk: Disk := map[FILE := item];
    forall p | p in disk && p != [] ensures DirectoryExists(disk, Parent(p)) {
      assert Parent(FILE) == [];
    }
  }

  // ---------------------------------------------------------------------------------------------
  // A plain file listed as a directory
  // ---------------------------------------------------------------------------------------------

  /** The user's file "a", listed once as a directory and then no longer, is gone after two passes. */
  lemma MismatchedFileRun() returns (root: Root, inp: Inputs, inp': Inputs, w: Weather)
    ensures root == Root(map[FILE := LocalFile(Content(1, "h"))], []) && w == Fair(Written, true)
    ensures inp == Offering([Entry(FILE, true, 0, None)]) && inp' == Offering([])
    ensures FILE !in Prepare(Prepare(root, inp, w), inp', w).disk
  {
    root, w := Root(map[FILE := LocalFile(Content(1, "h"))], []), Fair(Written, true);
    inp, inp' := Offering([Entry(FILE, true, 0, None)]), Offering([]);
    OneFileDisk(root.disk[FILE]);
    FileIsKept();
    OneListed(Entry(FILE, true, 0, None));
    NothingListed();
    LetterIsNotBlank("h");
    assert Protected(root.disk, inp) == {} && Protected(root.disk, inp') == {};
    assert Mismatched(root.disk, inp, FILE);
    MismatchedFileIsLostIff(root, inp, w, FILE, inp', w);
  }

  // ---------------------------------------------------------------------------------------------
  // A replacement that fails once
  // ---------------------------------------------------------------------------------------------

  lemma OneRecordLoads(r: Cached)
    requires r.path == FILE
    ensures LoadLocalState([r]) == [r]
  {
    FileIsKept();
    assert [r][..0] == [];
  }

  function SyncedFile(): Root {
    Root(map[FILE := LocalFile(Content(1, "h"))], [Cached(FILE, false, 1, Some("h"), Some("A"))])
  }

  lemma SyncedFileChanges(inp: Inputs)
    requires inp == Offering([FileEntry("B")])
    ensures WellFormedDisk(SyncedFile().disk) && PlainWhereListed(SyncedFile(), inp, FILE)
    ensures LoadLocalState(SyncedFile().cache) == SyncedFile().cache
    ensures ChangedVictim(SyncedFile().disk, SyncedFile().cache[0], Listed(inp.entries))
  {
    OneFileDisk(SyncedFile().disk[FILE]);
    FileIsKept();
    OneListed(FileEntry("B"));
    OneRecordLoads(SyncedFile().cache[0]);
    LetterIsNotBlank("h");
    LetterIsNotBlank("B");
    var r := SyncedFile().cache[0];
    assert MatchesRecord(SyncedFile().disk[FILE], r);
    assert ProviderDiffersFromRecord(FileEntry("B"), r) by { assert "B"[0] != "A"[0]; }
  }

  /**
   The synced file "a" of version A is removed when B is listed, so that B can be placed, but stays
   when the first removal fails, although the next one would succeed.
  */
  lemma FailedReplacementRun() returns (root: Root, inp: Inputs, failing: Weather, w: Weather)
    ensures root == SyncedFile() && inp == Offering([FileEntry("B")])
    ensures failing == Fair(Written, false) && w == Fair(Written, true)
    ensures FILE !in Prepare(root, inp, w).disk
    ensures FILE in Prepare(Prepare(root, inp, failing), inp, w).disk
  {
    root, inp, failing, w := SyncedFile(), Offering([FileEntry("B")]), Fair(Written, false), Fair(Written, true);
    SyncedFileChanges(inp);
    ReplacementSucceeds(root, inp, w, 0);
    FailedReplacementIsForgotten(root, inp, failing, FILE);
  }

  // ---------------------------------------------------------------------------------------------
  // A file that is offered again
  // ---------------------------------------------------------------------------------------------

  /** The synced file "a" is represented before a pass over the same version and offered after it. */
  lemma OfferedAgainRun() returns (root: Root, inp: Inputs, w: Weather)
    ensures root == SyncedFile() && inp == Offering([FileEntry("A")]) && w == Fair(Written, true)
    ensures !IsUpsert(root.disk, FILE, Listed(inp.entries), PreviousByPath(LoadLocalState(root.cache)), NO_MARKERS)
    ensures var next := Prepare(root, inp, w);
            IsUpsert(next.disk, FILE, Listed(inp.entries), PreviousByPath(LoadLocalState(next.cache)), NO_MARKERS)
  {
    root, inp, w := SyncedFile(), Offering([FileEntry("A")]), Fair(Written, true);
    OneFileDisk(root.disk[FILE]);
    FileIsKept();
    OneListed(FileEntry("A"));
    OneRecordLoads(root.cache[0]);
    OneRecordFound(root.cache[0]);
    UploadedIsOfferedAgain(root, inp, w, FILE, inp.entries, NO_MARKERS);
  }

  lemma OneRecordFound(r: Cached)
    ensures PreviousByPath([r]) == map[r.path := r]
  {
    assert [r][..0] == [];
    assert PreviousByPath([]) == map[];
  }

  // ---------------------------------------------------------------------------------------------
  // A directory removed locally
  // ---------------------------------------------------------------------------------------------

  /** The directory "a", recorded and listed but gone, is absent after one pass and back after two. */
  lemma RemovedDirectoryRun() returns (root: Root, inp: Inputs, w: Weather)
    ensures root == Root(map[], [Cached(FILE, true, 0, None, None)])
    ensures inp == Offering([Entry(FILE, true, 0, None)]) && w == Fair(Written, true)
    ensures FILE !in Prepare(root, inp, w).disk
    ensures FILE in Prepare(Prepare(root, inp, w), inp, w).disk
  {
    root, inp, w := Root(map[], [Cached(FILE, true, 0, None, None)]), Offering([Entry(FILE, true, 0, None)]), Fair(Written, true);
    OneListed(Entry(FILE, true, 0, None));
    assert root.cache[0] in root.cache;
    assert RecordedProjection(root.cache, Listed(inp.entries), FILE);
    MissingIsForgottenThenMade(root, inp, w, FILE);
    assert CanMake(inp, w, FILE);
  }

  // ---------------------------------------------------------------------------------------------
  // A cache write that fails once
  // ---------------------------------------------------------------------------------------------

  const EMPTY_ROOT: Root := Root(map[], [])
  const FIRST: Root := Prepare(EMPTY_ROOT, Offering([FileEntry("A")]), Fair(Written, true))
  const SECOND: Root := Prepare(FIRST, Offering([FileEntry("B")]), Fair(KeptOld, true))
  const THIRD: Root := Prepare(SECOND, Offering([FileEntry("A")]), Fair(Written, true))

  lemma ListedWithVersion(version: string)
    requires |version| == 1 && 'A' <= version[0] <= 'Z'
    ensures Listed([FileEntry(version)]) == map[FILE := FileEntry(version)]
    ensures ListedAsFile(Listed([FileEntry(version)]), FILE)
  {
    OneListed(FileEntry(version));
    LetterIsNotBlank(version);
  }

  lemma FirstHasA()
    ensures WellFormedDisk(FIRST.disk) && MadeByAPass(FIRST.disk, FILE) && Tracks(FIRST, FILE)
    ensures FIRST.disk[FILE] == CloudFile(None, true, MadeFrom(Some("A")))
    ensures PreviousByPath(LoadLocalState(FIRST.cache))[FILE] == Cached(FILE, false, 1, None, Some("A"))
  {
    ListedWithVersion("A");
    var inp, w := Offering([FileEntry("A")]), Fair(Written, true);
    assert Reachable(Listed(inp.entries), FILE);
    PopulatesExactly(inp, w, FILE);
    PassTracks(EMPTY_ROOT, inp, w, FILE);
    StagesWellFormed(EMPTY_ROOT, inp, w);
  }

  lemma SecondHasB()
    ensures WellFormedDisk(SECOND.disk) && MadeByAPass(SECOND.disk, FILE) && !Tracks(SECOND, FILE)
    ensures SECOND.disk[FILE].origin == MadeFrom(Some("B")) && SECOND.cache == FIRST.cache
  {
    ListedWithVersion("B");
    FirstHasA();
    var inp, w := Offering([FileEntry("B")]), Fair(KeptOld, true);
    InterruptedRefreshTracksIff(FIRST, inp, w, FILE);
    AfterInterruption(FIRST, inp, w, FILE);
    PopulatedPlaceholder(FIRST, inp, w, FILE);
    StagesWellFormed(FIRST, inp, w);
  }

  lemma OneLetterIsNoHash(version: string, item: Item)
    requires |version| == 1 && 'A' <= version[0] <= 'Z' && item.CloudFile?
    ensures ContentAgrees(item.readable, item.offline, FileEntry(version), None)
  {
    LetterIsNotBlank(version);
    forall sha ensures !NamesContent(version, sha) {
    }
  }

  /**
   Version A is listed, then B with the cache write failing, then A again: the placeholder is still
   made from B, the cache says A, and no pass over this listing will replace it.
  */
  lemma StaleVersionRun()
    ensures FILE in THIRD.disk && THIRD.disk[FILE].CloudFile? && THIRD.disk[FILE].origin == MadeFrom(Some("B"))
    ensures RecordsVersion(THIRD, FILE, Some("A")) && !Tracks(THIRD, FILE)
  {
    ListedWithVersion("A");
    FirstHasA();
    SecondHasB();
    OneLetterIsNoHash("A", SECOND.disk[FILE]);
    StaleVersionStays(SECOND, Offering([FileEntry("A")]), Fair(Written, true), FILE);
  }
}
