/** Exactly when a pass leaves the placeholder of a listed file alone, and when it makes it again. */
module SyncContent {
  import opened Paths
  import opened Sorting
  import opened Listing
  import opened Wrappers
  import opened SyncRoot
  import opened PlaceholderContent
  import opened SyncStages
  import opened SyncSafety
  import opened SyncVersions

  /** The record of the path has the listed size, and the listed version unless none is listed. */
  ghost predicate RecordAgrees(previous: map<Path, Cached>, e: Entry) {
    && e.path in previous && !previous[e.path].isDirectory && previous[e.path].size == e.size
    && (Blank(e.version) || previous[e.path].version == e.version)
  }

  lemma ChangedIff(e: Entry, previous: map<Path, Cached>)
    ensures ProviderFileChanged(e, previous) <==> !RecordAgrees(previous, e)
  {
  }

  ghost predicate UpToDate(root: Root, inp: Inputs, w: Weather, p: Path)
    requires p in Listed(inp.entries) && p in root.disk && root.disk[p].CloudFile?
  {
    && RecordAgrees(PreviousByPath(LoadLocalState(root.cache)), Listed(inp.entries)[p])
    && ContentAgrees(root.disk[p].readable, root.disk[p].offline, Listed(inp.entries)[p], w.providerSha(p))
  }

  lemma StaysAfterPopulation(root: Root, inp: Inputs, w: Weather, p: Path)
    requires w.registers && p in Listed(inp.entries)
    requires p in Stage4(root, inp, w).disk ==> IsPlaceholder(Stage4(root, inp, w).disk[p])
    ensures var pop, after := Stage4(root, inp, w), Prepare(root, inp, w).disk;
            (p in after <==> p in pop.disk) && (p in after ==> after[p] == pop.disk[p])
  {
    var pop := Stage4(root, inp, w);
    AfterStaleKeeps(pop.disk, Sort(LoadLocalState(root.cache), DeeperRecordFirst), Listed(inp.entries),
                    pop.shielded, w.staleDelete);
  }

  /**
   Outside pending deletes, a file placeholder at a path listed as a file is left alone exactly when
   its record and its content agree with the listing or it cannot be deleted; otherwise it goes, and
   if it can be created it is made from the listing.
  */
  lemma RemadeIff(root: Root, inp: Inputs, w: Weather, p: Path)
    requires WellFormedDisk(root.disk) && w.registers && !CoveredByAny(inp.pendingDeletes, p)
    requires p in Listed(inp.entries) && !Listed(inp.entries)[p].isDirectory
    requires p in root.disk && root.disk[p].CloudFile?
    ensures var after, refreshed := Prepare(root, inp, w).disk, Stage4(root, inp, w).refreshed;
            if UpToDate(root, inp, w, p) || !w.refreshDelete(p) then p in after && after[p] == root.disk[p] && p !in refreshed
            else match w.create(p)
                 case CreateFails => p !in after && p !in refreshed
                 case Makes(readable, offline) =>
                   && p in after && after[p] == CloudFile(readable, offline, MadeFrom(Listed(inp.entries)[p].version))
                   && p in refreshed
  {
    var e := Listed(inp.entries)[p];
    PlaceholderReachesPopulation(root, inp, w, p);
    var turn := Stage4At(root, inp, w, p);
    ChangedIff(e, PreviousByPath(LoadLocalState(root.cache)));
    DiffersIff(root.disk[p], e, w.providerSha(p));
    StaysAfterPopulation(root, inp, w, p);
  }

  /**
   The cases for a readable file that is online and whose record agrees: a version of 64 hexadecimal
   digits decides by itself, any other version keeps the file, and without one the provider decides.
  */
  lemma ContentDecides(root: Root, inp: Inputs, w: Weather, p: Path, content: Content, origin: Origin)
    requires WellFormedDisk(root.disk) && w.registers && !CoveredByAny(inp.pendingDeletes, p)
    requires p in Listed(inp.entries) && !Listed(inp.entries)[p].isDirectory
    requires p in root.disk && root.disk[p] == CloudFile(Some(content), false, origin)
    requires RecordAgrees(PreviousByPath(LoadLocalState(root.cache)), Listed(inp.entries)[p])
    requires w.refreshDelete(p)
    ensures var e, refreshed := Listed(inp.entries)[p], Stage4(root, inp, w).refreshed;
            var made := w.create(p).Makes?;
            && (forall sha :: e.version.Some? && NamesContent(e.version.value, sha) && made ==>
                  (p in refreshed <==> content != Content(e.size, sha)))
            && (!Blank(e.version) && (forall sha :: !NamesContent(e.version.value, sha)) ==> p !in refreshed)
            && (Blank(e.version) && w.providerSha(p).None? ==> p !in refreshed)
            && (Blank(e.version) && w.providerSha(p).Some? && made ==>
                  (p in refreshed <==> content != Content(e.size, w.providerSha(p).value)))
  {
    var e := Listed(inp.entries)[p];
    RemadeIff(root, inp, w, p);
    if e.version.Some? {
      forall sha | NamesContent(e.version.value, sha)
        ensures !Blank(e.version) && forall other :: NamesContent(e.version.value, other) ==> other == sha
      {
        NamedIsNotBlank(e.version.value, sha);
        VersionNamesContent(e, sha);
        forall other | NamesContent(e.version.value, other) ensures other == sha {
          VersionNamesContent(e, other);
        }
      }
    }
  }
}
