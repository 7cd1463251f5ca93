# Verification of Iris Drive's shell and relay logic

Iris Drive shows a synced drive as an ordinary folder. On Windows a Cloud Files shell keeps a local
sync root in step with the listing of a provider process; on iOS a FileProvider extension and an
app share one native core; during development a small Nostr relay carries the events. This project
models the parts of that code whose correctness depends on order and history, and proves what they
are for.

The modules follow the program:

- `Paths`, `PathTexts`, `PathWalks`, `Sorting`, `Listing`: virtual paths as text, however they are
  written, and as component lists, walking up from them, the orderings, and the provider listing with
  its implied directories.
- `Markers`, `DeleteTasks`, `DeleteHistory`, `CleanupMarkers`: the marker dictionaries that hold back
  a pass while local deletes and renames travel to the provider, the tasks that publish deletes and
  what must come before a delete, and the markers that tell the shell's own removals from the user's.
- `LocalDeletes`, `LocalUpserts`, `DriveFolder`: the local scan for deletes and for files the
  provider lacks, their publication, and a whole refresh of the drive folder.
- `SyncRoot`: one prepare pass as a function of the disk, the cache and the provider listing,
  together with the class whose loops compute it. `SyncStages`, `SyncSafety`, `PlaceholderContent`,
  `SyncContent`, `SyncPruning`, `SyncConvergence`, `SyncVersions`, `SyncRecreation`, `SyncRetries` and
  `SyncInterrupted` hold the theorems about passes and about whole histories of passes and user
  edits, `SyncExamples` concrete runs.
- `Publications`, `Merge`: how roots come to name what their AppKey has seen, and the merge of the
  AppKeys' roots into one view. `MergeLaws` and `MergeRemovals` say how two roots are compared and
  what the view shows; `MergeOrder`, `MergeDescent`, `MergeConflicts`, `MergeDetails` and `MergeRoles`
  when its files, its conflicts and its replacement roles depend on the order of the snapshots and
  what is recorded with a conflict; `MergeExamples` concrete merges.
- `Filters`, `Relay`, `RelayProgress`: which events a subscription asks for, the relay as a step
  system over its await points, and that it comes to rest. `Frames`, `FrameSequences`: its WebSocket
  frame layer.
- `Identifiers`, `EncodingLaws`, `StateGeneration`: the iOS item identifiers and name families, what
  their encodings are, and the generation guard that discards overtaken snapshots.
- `RefreshCoalescer`: the pending flag and timer of the Windows status refresh.

Conventions. Code that changes state step by step is a class or a method with loops; its `ensures`
tie the new state to a function of the old one, and the lemmas are about that function. Everything
the file system, the provider or the scheduler decides is a parameter: a `Weather` value holds the
outcome of every delete, creation and write of a pass, and the step systems take any interleaving.
The theorems hold for all of them unless a premise says otherwise. File hashes are plain values;
equal hashes stand for equal content. The engines work on component lists; `Paths` proves that on
paths without empty components this is the same as working on the text.

Where the code does not do what one would expect, the code is modelled as it is and the exact
condition, or a concrete failing run, is proved:

- `DeleteTasks.SplitPromotionLosesADelete`: the pending check and the promotion are two lock
  sections; a delete that arrives between them can be narrowed away and is never issued.
  `PromotionLosesNothingIff` and `PromotionSafeIff` say exactly when a promotion loses something,
  and `AtomicRunLosesNothing` that taking both sections together is enough.
- `SyncSafety.MismatchedFileIsLostIff`: a plain file at a path listed as a directory, or under a
  pending delete, gets its hash recorded, and a later pass deletes it (`SyncExamples.MismatchedFileRun`).
- `SyncRecreation.MissingIsForgottenThenMade`: an item the user removed is skipped for one pass and
  made again by the next one (`SyncExamples.RemovedDirectoryRun`), unless its delete was published
  (`DriveFolder.PublishedDeleteIsNotUndone`).
- `SyncRetries.FailedReplacementIsForgotten`: the code keeps the old version of a local file "until
  local refresh succeeds", but such a file is shielded and loses its record, so replacing it is not
  tried again by the next pass (`SyncExamples.FailedReplacementRun`); `FailedRemovalIsRetried` shows
  that removing an unlisted file is.
- `SyncInterrupted.InterruptedPassTracksIff`: a pass whose cache write fails, or that stops after
  population, can leave a placeholder of one version recorded as another, and later passes over that
  listing keep it so (`SyncExamples.StaleVersionRun`).
- `LocalUpserts.UploadedIsOfferedAgain`: an upload is never remembered; a pass writes no record for
  the plain file it shields, so the next scan offers the file again (`SyncExamples.OfferedAgainRun`).
- `MergeOrder.SlotIsOrderFreeIff`: causal descent and publication times can disagree, and then the
  merged view depends on the order of the snapshots. `MergeDescent.ViewShowsAncestorIff` says exactly
  when some order shows an ancestor in place of its descendant; the AppKeys' own order can
  (`MergeExamples.SortedViewShowsAncestor`).
- `MergeConflicts.ViewReportIsOrderFreeIff`: whether a path is in the conflict list can depend on the
  order too, in particular once a later root has resolved the conflict
  (`MergeConflicts.ResolvedReportVaries`, `MergeExamples.ResolvedConflictDependsOnOrder`).
- `StateGeneration.ResetInvertsIff`: resetting the local state, and loading it again when a link is
  opened (`ios/Sources/IrisDriveMobileModel.swift:1935`, `:2014`), apply a snapshot without bumping
  the generation, so an older refresh can replace it.
- `Identifiers.IdentifierRoundTripIff`: a path with a zero character does not survive the identifier
  (`Identifiers.ZeroCharacterIsCut`).
- `PathWalks.AncestorsAreNormalIff`: text paths with an empty component have ancestors that are not in
  normal form.

## Model

| member | source | states |
|---|---|---|
| Paths.SplitOfJoin | windows/WindowsCloudFiles.cs:2201-2210 | a clean path is determined by its text: splitting the joined text gives the components back |
| Paths.ContainsIsPrefix | windows/WindowsCloudFiles.cs:2190-2196 | the textual "at or under" test with its appended slash is exactly the prefix order on components |
| Paths.ParentIsDrop | windows/WindowsCloudFiles.cs:2247-2259 | the textual parent and file name of a clean path are the path without its last component and that component |
| PathTexts.TextsAgree | windows/WindowsCloudFiles.cs:2190-2259 | with either kind of slash and any slashes around them, two texts are in the textual relation iff their components are, and parent and file name are those of the components |
| PathTexts.NormalizesTo | windows/WindowsCloudFiles.cs:2201-2210 | such a text normalizes to its components joined by single slashes |
| Paths.SlashCountIsDepth | windows/WindowsCloudFiles.cs:2004-2004 | ordering clean paths by their number of slashes orders them by depth |
| Sorting.OrdinalIff | windows/WindowsCloudFiles.cs:2003-2006 | the text order: one text begins the other, or at the first difference its character is smaller |
| PathWalks.ParentIsNormalIff | windows/WindowsCloudFiles.cs:2247-2252 | one step up from a normal form stays in normal form iff no other slash stands before the last one |
| PathWalks.AncestorsAreNormalIff | windows/WindowsCloudFiles.cs:1995-1999 | walking up by repeated parents from a normal form meets only normal forms iff the text has no two slashes in a row |
| Paths.EmptyComponentBreaksParents | windows/WindowsCloudFiles.cs:2247-2252 | a concrete input: the parent of "a//b" is "a/", which is not a normal form |
| Paths.IgnoredBelow | windows/WindowsCloudFiles.cs:2219-2245 | whatever lies under an ignored item is ignored too |
| EncodingLaws.IgnoredIff | windows/WindowsCloudFiles.cs:2219-2245 | a path is ignored iff one of its components is |
| EncodingLaws.IgnoredNameIff | windows/WindowsCloudFiles.cs:2219-2245 | a name is ignored iff it is on the fixed list or begins with ".trash-" or ends with ".sbak" whatever the case, or begins with "._", ends with "~" or stands between number signs |
| Listing.BuildPlaceholderEntries | windows/WindowsCloudFiles.cs:1982-2007 | the loop, with its parent walk, computes the ordered listing, and the walk ends |
| Listing.ListedExactly | windows/WindowsCloudFiles.cs:1985-2000 | the listing holds exactly the paths at or above an accepted entry, each with its last listed value or as an implied directory |
| Listing.ListedAncestors | windows/WindowsCloudFiles.cs:1995-1999 | every non-root ancestor of a listed path is listed |
| Listing.PlaceholderElements | windows/WindowsCloudFiles.cs:2003-2006 | ordering loses and adds nothing: the sequence holds exactly the listed values |
| Listing.PlaceholderSorted | windows/WindowsCloudFiles.cs:2003-2006 | shallower entries come first, then directories, then by text |
| Listing.PlaceholderOrder | windows/WindowsCloudFiles.cs:1982-2007 | each path appears once, and only after its parent |
| Markers.PendingMutations.MarkProviderDeletePending | windows/WindowsCloudFiles.cs:302-333 | the shared maps afterwards are the pruned ones with the covered markers coalesced into the new one, or unchanged when refused |
| Markers.PendingMutations.MarkProviderRenamePending | windows/WindowsCloudFiles.cs:335-355 | a rename marks the old path and preserves the new one, coalescing nothing |
| Markers.PendingMutations.ClearProviderMutationPending | windows/WindowsCloudFiles.cs:357-370 | exactly the given paths lose their markers |
| Markers.PendingMutations.ProviderMutationIsPending | windows/WindowsCloudFiles.cs:372-386 | answers whether a live marker names exactly this path |
| Markers.PendingMutations.ProviderDeleteIsPending | windows/WindowsCloudFiles.cs:388-401 | answers whether a live delete marker names exactly this path |
| Markers.PendingMutations.PromoteProviderDeleteToMissingAncestor | windows/WindowsCloudFiles.cs:403-441 | the related markers are replaced by one for the shallowest missing ancestor, unless a preserve is related to it |
| Markers.PendingMutations.ReconcilePendingProviderMutations | windows/WindowsCloudFiles.cs:443-470 | unlisted deletes and listed preserves are dropped, everything else live stays |
| Markers.PendingMutations.Prune | windows/WindowsCloudFiles.cs:1535-1562 | exactly the markers older than their time to live are dropped |
| Markers.FindShallowestMissing | windows/WindowsCloudFiles.cs:2198-2217 | the loop over growing prefixes finds the shallowest missing ancestor |
| Markers.ShallowestMissingIsMissing | windows/WindowsCloudFiles.cs:2198-2217 | the promoted path is at or above the given one, is missing unless it is the path itself, and everything above it exists |
| Markers.MarksRefineTheList | windows/WindowsCloudFiles.cs:302-333 | within one lifetime and without preserves the coalesced markers cover a path iff it is at or under some marked path, and no marker is above another |
| Markers.MarkersAreTopmost | windows/WindowsCloudFiles.cs:302-333 | the surviving markers are exactly the topmost marked paths |
| Markers.NestedMarkersComeFromRenames | windows/WindowsCloudFiles.cs:302-470 | in every run of all operations, of two nested markers at least one was written by a rename |
| Markers.RunIsClean | windows/WindowsCloudFiles.cs:302-470 | no run of marker operations ever marks the root |
| Markers.PreservedIff | windows/WindowsCloudFiles.cs:335-470 | in every run, a live preserve marker names exactly the targets of renames within the lifetime that no listing and no clearing has released since |
| Markers.RefusedIff | windows/WindowsCloudFiles.cs:302-333 | in every run, a delete mark is refused iff such a target is at, above or below it or a live delete marker covers it |
| Markers.PromotionKeepsCoverageIff | windows/WindowsCloudFiles.cs:403-441 | a promotion keeps every covered path covered iff no marker lies strictly above the promoted path |
| Markers.PromotionOfOwnMarker | windows/WindowsCloudFiles.cs:403-441 | with its own marker in a prefix-free set, promotion only widens coverage, keeps the set prefix free and covers no existing item |
| Markers.ReconcileDropsIffUnlisted | windows/WindowsCloudFiles.cs:454-461 | a live delete marker is dropped iff nothing at or under it is listed |
| Markers.ReconcileKeepsListedCoverage | windows/WindowsCloudFiles.cs:443-470 | a listed path that was covered stays covered through a reconciliation |
| DeleteTasks.NoDeleteIsLost | windows/IrisDriveService.cs:892-941 | in every run with safe promotions each notified path stays covered by an issued delete or by a marker some task still answers for, until it is found unlisted |
| DeleteTasks.AtomicRunLosesNothing | windows/IrisDriveService.cs:910-917 | if each promotion directly follows its own pending check, every interleaving is safe and loses no delete |
| DeleteTasks.AtRestAllIssued | windows/IrisDriveService.cs:892-941 | once all tasks have finished, every delete still owed lies at or under an issued provider delete |
| DeleteTasks.OwnMarkerMakesPromotionSafe | windows/IrisDriveService.cs:910-917 | a promotion made while the task's own marker is pending is safe |
| DeleteTasks.PromotionLosesNothingIff | windows/WindowsCloudFiles.cs:403-441 | a promotion leaves every owed path accounted for iff each marker it narrows covers only paths still covered or issued |
| DeleteTasks.UnsafePromotionLoses | windows/WindowsCloudFiles.cs:422-432 | a promotion below a marker that is owed and not issued loses that delete |
| DeleteTasks.PromotionSafeIff | windows/WindowsCloudFiles.cs:422-432 | while every marker is owed and unissued, a promotion loses nothing iff no marker lies strictly above its target |
| DeleteTasks.SplitPromotionLosesADelete | windows/IrisDriveService.cs:910-917 | with separate lock sections a concrete run finishes every task and never issues an owed delete |
| DeleteHistory.IssuedWasPending | windows/IrisDriveService.cs:892-941 | over every run a delete is issued only after a task found its own marker pending, was promoted to a path at or above it, missing unless its own, and found the marker of that path pending |
| DeleteHistory.UnmarkedIssuesNothing | windows/IrisDriveService.cs:910-923 | a task that finds its marker gone at either check takes no further step |
| DeleteHistory.OwedIff | windows/IrisDriveService.cs:892-941 | over every run a path is owed iff its delete was notified and every listing since has had it |
| DeleteHistory.MarkersAreDriven | windows/IrisDriveService.cs:892-941 | over every run the markers are those of the same sequence of marker operations |
| CleanupMarkers.CleanupDeletes.MarkProviderCleanupDelete | windows/WindowsCloudFiles.cs:1564-1580 | the path is stamped in memory and the file becomes a copy of memory |
| CleanupMarkers.CleanupDeletes.ClearProviderCleanupDelete | windows/WindowsCloudFiles.cs:1594-1607 | the path leaves memory and file alike |
| CleanupMarkers.CleanupDeletes.ClearWithPendingMutations | windows/WindowsCloudFiles.cs:357-370 | clearing pending mutations removes the cleanup markers of the same paths from memory and file |
| CleanupMarkers.CleanupDeletes.TryProviderCleanupDelete | windows/WindowsCloudFiles.cs:1582-1592 | the mark stays iff the removal succeeded, and the result says whether it did |
| CleanupMarkers.CleanupDeletes.LoadProviderCleanupDeletes | windows/WindowsCloudFiles.cs:1651-1699 | the file overrides memory, and the result is the set of paths read |
| CleanupMarkers.CleanupDeletes.TryConsumeProviderCleanupDelete | windows/WindowsCloudFiles.cs:1609-1649 | reports a live marker at or under the path and removes only those that were not read from the file |
| CleanupMarkers.LastMarkedIsPast | windows/WindowsCloudFiles.cs:1574-1574 | no marker carries a stamp later than the clock |
| CleanupMarkers.MirrorAgrees | windows/WindowsCloudFiles.cs:1564-1763 | after every run the live markers in memory and in the file are the same, and both are what the history of marks and clears says |
| CleanupMarkers.ConsumeKeeps | windows/WindowsCloudFiles.cs:1621-1641 | a consumption never uses a marker up, since every live marker is in the file |
| CleanupMarkers.SwallowedIff | windows/WindowsCloudFiles.cs:2402-2417 | a delete notification is swallowed iff some path at or under it was marked at most thirty seconds ago and not cleared since |
| SyncRoot.SyncRootFolder.ApplyListing | windows/IrisDriveService.cs:574-599 | the stages of a pass in their order, with both early exits, take the root to the result of one prepare pass |
| SyncRoot.SyncRootFolder.RemoveChangedSyncedLocalItems | windows/WindowsCloudFiles.cs:1281-1351 | the loop removes what the stage specification says for any outcome of the deletes |
| SyncRoot.SyncRootFolder.MissingProjectedLocalPaths | windows/WindowsCloudFiles.cs:1224-1274 | collects exactly the recorded paths still listed with their kind that are gone from disk |
| SyncRoot.SyncRootFolder.RemoveIgnoredLocalItems | windows/WindowsCloudFiles.cs:1838-1883 | the deepest-first loop over ignored items, with partial recursive deletes |
| SyncRoot.SyncRootFolder.RemoveStalePlaceholders | windows/WindowsCloudFiles.cs:1765-1836 | the deepest-first loop over unexpected placeholders, with its grace window and its test for children |
| SyncRoot.SyncRootFolder.CreatePlaceholder | windows/WindowsCloudFiles.cs:2009-2073 | either the placeholder of the listed kind is on disk or nothing changed |
| SyncRoot.SyncRootFolder.PopulatePlaceholders | windows/WindowsCloudFiles.cs:1063-1222 | the loop computes the disk, the counters, the refreshed paths and the shielded paths of the specification |
| SyncRoot.SyncRootFolder.RemoveStaleSyncedLocalItems | windows/WindowsCloudFiles.cs:576-647 | the deepest-first loop over records removes what the stage specification says |
| SyncRoot.SyncRootFolder.TakeSnapshot | windows/WindowsCloudFiles.cs:771-908 | both loops compute the sorted new cache |
| SyncStages.AfterChangedExactly | windows/WindowsCloudFiles.cs:1281-1351 | this stage only removes, and removes p iff a record describes the file there, the listing differs from it, and the delete succeeds |
| SyncStages.AfterIgnoredKeeps | windows/WindowsCloudFiles.cs:1838-1883 | this stage only removes, and removes nothing outside ignored names |
| SyncStages.AllIgnoredRemoved | windows/WindowsCloudFiles.cs:1838-1883 | when nothing resists, no walked ignored item is left |
| SyncStages.AfterPruneKeeps | windows/WindowsCloudFiles.cs:1765-1836 | pruning only removes, and never a plain item or an expected path |
| SyncPruning.UnlistedPlaceholderGoesIff | windows/WindowsCloudFiles.cs:1765-1836 | an unlisted file placeholder goes iff it is walked, not recent, named by no pending delete or rename, and its delete succeeds |
| SyncStages.PopulateKeepsLocal | windows/WindowsCloudFiles.cs:1094-1202 | population never changes, removes or creates a plain file or directory |
| SyncStages.PopulateAt | windows/WindowsCloudFiles.cs:1094-1202 | what the whole population does to a path is what its own turn does |
| SyncStages.PopulateFrame | windows/WindowsCloudFiles.cs:1094-1202 | paths the listing does not name keep their item |
| SyncStages.ShieldedAreLocal | windows/WindowsCloudFiles.cs:1171-1184 | only plain items at paths listed as files are shielded |
| SyncStages.CountsAreExact | windows/WindowsCloudFiles.cs:1204-1222 | the reported placeholder count is the number of paths made, every shielded item is among the reported skipped ones, and no entry counts twice |
| SyncStages.AfterStaleKeeps | windows/WindowsCloudFiles.cs:576-647 | this stage only removes, and never a listed path or a placeholder |
| SyncStages.AfterStaleFilesExactly | windows/WindowsCloudFiles.cs:618-635 | a plain file goes iff a record with its size and hash is unlisted and unshielded and its delete succeeds |
| SyncStages.AfterStaleDirectoriesIff | windows/WindowsCloudFiles.cs:589-616 | deepest records first, a plain directory goes iff a record of it as a directory is deleted, it is unlisted and unshielded, and everything in it goes too |
| SyncStages.StagesWellFormed | windows/IrisDriveService.cs:561-602 | every stage keeps the disk parent-closed, with items only inside directories |
| SyncSafety.ShieldedIff | windows/WindowsCloudFiles.cs:1094-1184 | a pass shields exactly the plain items left at paths listed as files, outside pending deletes and missing projections |
| SyncSafety.RelatedShieldedIff | windows/WindowsCloudFiles.cs:1400-1407 | what a pass shields around an unlisted item is known beforehand: the local directories above it that are listed as files, outside pending deletes |
| SyncSafety.ChangedIsNotRecreated | windows/WindowsCloudFiles.cs:1102-1107 | a file deleted because the provider changed it is not made again in the same pass |
| SyncSafety.FileDeletedIff | windows/WindowsCloudFiles.cs:576-641 | for any cache, markers, listing and disk, a pass deletes a plain file iff a record has its size and hash, the delete succeeds, and the provider lists another size or version or no longer lists it with nothing protected around it; the condition reads only the state before the pass, and else the file is untouched |
| SyncSafety.DirectoryDeletedIff | windows/WindowsCloudFiles.cs:607-616 | a pass removes a plain directory iff a record of it is deleted, it is unlisted, nothing around it is protected, and everything in it goes too |
| SyncSafety.NoHashKeepsFiles | windows/WindowsCloudFiles.cs:1281-1351 | with no hash in the cache a pass deletes and changes no plain file outside ignored names |
| SyncSafety.NoHashShields | windows/WindowsCloudFiles.cs:1171-1184 | from a cache without hashes a pass shields exactly the plain items found at paths listed as files, outside pending deletes |
| SyncSafety.HashRecordedIff | windows/WindowsCloudFiles.cs:771-856 | from a cache without hashes, a hash is recorded iff beforehand a plain file with a hash sits at a path listed as a directory or under a pending delete, with nothing protected around it |
| SyncSafety.NoHashIsKept | windows/WindowsCloudFiles.cs:771-908 | with kinds agreeing and no delete pending, a cache without hashes gets none |
| SyncSafety.UnlistedGoesIff | windows/WindowsCloudFiles.cs:576-647 | with every delete succeeding, an unlisted plain file that fits its hashed records goes iff it has one and nothing around it is protected |
| SyncSafety.MismatchedFileIsLostIff | windows/WindowsCloudFiles.cs:1179-1182 | from a cache without hashes, two passes lose a plain file the second no longer lists iff the first had it listed as a directory or under a pending delete and neither listing protects anything around it |
| SyncSafety.HistoryKeepsNoHash | windows/WindowsCloudFiles.cs:771-908 | over any interleaving of edits and passes from an empty cache, with no delete pending and kinds agreeing, no cache holds a hash and the disk stays well formed |
| SyncSafety.DataSafety | windows/IrisDriveService.cs:561-602 | over the same histories no pass ever changes or deletes a plain file outside ignored names |
| SyncConvergence.PruneExactly | windows/WindowsCloudFiles.cs:1765-1821 | with every delete succeeding and nothing recent, an item is left iff it holds an expected or plain item at or below itself, and otherwise unexpected ones left are directory placeholders |
| SyncConvergence.AnchorsHold | windows/WindowsCloudFiles.cs:1796-1800 | whatever succeeds, pruning never removes an item that holds an anchor |
| SyncConvergence.WalkedAndLeft | windows/WindowsCloudFiles.cs:1774-1776 | walking deepest first, every path already walked and still there holds an anchor |
| SyncConvergence.PopulateComplete | windows/WindowsCloudFiles.cs:1094-1202 | when nothing is held back, every listed path ends up on disk with its listed kind |
| SyncConvergence.PopulateReachable | windows/WindowsCloudFiles.cs:1109-1119 | on an empty disk an entry is made iff everything listed above it is a directory |
| SyncConvergence.PopulatesExactly | windows/WindowsCloudFiles.cs:1063-1222 | a first pass over an empty root puts exactly the reachable listed paths on disk, as placeholders of their kind and version |
| SyncConvergence.FirstPassSettles | windows/IrisDriveService.cs:561-602 | an unhindered first pass leaves every listed path with its kind, nothing ignored, and nothing that holds no anchor |
| SyncConvergence.FirstPassCache | windows/WindowsCloudFiles.cs:771-856 | its cache is exactly the record of the settled disk |
| SyncConvergence.SettledLookup | windows/WindowsCloudFiles.cs:945-970 | on a settled root every cached lookup answers with the current listing |
| SyncConvergence.SettledIsFixed | windows/IrisDriveService.cs:561-602 | a pass over a settled root with matching content changes neither disk nor cache |
| SyncConvergence.SecondPassChangesNothing | windows/IrisDriveService.cs:561-602 | from an empty cache the second pass over the same listing is the identity on disk and cache |
| SyncVersions.WrittenVersion | windows/WindowsCloudFiles.cs:910-943 | the version written for a placeholder is the one it was made from, refreshed or not |
| SyncVersions.VersionKeptIff | windows/WindowsCloudFiles.cs:910-943 | a recorded version outlives the listing of another one iff it is that of a file not refreshed that is still what its record describes |
| SyncVersions.DirectoryIsRecorded | windows/WindowsCloudFiles.cs:771-856 | a listed directory that is there after a completed pass is recorded as one, without size and hash, with the listed version |
| SyncVersions.SnapshotHoldsOne | windows/WindowsCloudFiles.cs:771-856 | a snapshot holds one record for each listed unshielded path |
| SyncVersions.PassTracks | windows/WindowsCloudFiles.cs:816-824 | whichever refresh deletes and creations fail, a completed pass keeps the recorded version equal to the one the placeholder was made from |
| SyncVersions.VersionIsTracked | windows/WindowsCloudFiles.cs:910-943 | over any interleaving of edits and completed passes from an empty cache the agreement holds |
| SyncVersions.ChangedVersionIsRefreshed | windows/WindowsCloudFiles.cs:1122-1150 | in such a history a newly listed version is always noticed, and is put in place once the delete and the creation succeed |
| SyncVersions.NothingCreatedUnderPending | windows/WindowsCloudFiles.cs:1094-1100 | at or under a pending delete a pass creates and replaces nothing |
| SyncVersions.NoResurrection | windows/WindowsCloudFiles.cs:443-470 | a live delete marker is dropped iff nothing at or under it is listed, and until then the pass brings nothing under it back |
| PlaceholderContent.VersionNamesContent | windows/WindowsCloudFiles.cs:1034-1052 | a version names a content hash iff between white space it is 64 hexadecimal digits, and the hash is those in lower case |
| PlaceholderContent.WhiteSpaceIs | windows/WindowsCloudFiles.cs:1036-1041 | the white space that is trimmed and that makes a version blank is that of the platform |
| PlaceholderContent.DiffersIff | windows/WindowsCloudFiles.cs:984-1032 | a placeholder is taken to differ iff it is readable and contradicts the hash its version names while online, or, without a version, the hash the provider read gives |
| SyncContent.RemadeIff | windows/WindowsCloudFiles.cs:1116-1171 | a file placeholder outside pending deletes is left alone iff its record and content agree with the listing or it cannot be deleted; otherwise it goes and, if it can be created, is made from the listing |
| SyncContent.ContentDecides | windows/WindowsCloudFiles.cs:984-1032 | with an agreeing record and a readable file online: a hash version replaces it iff size or hash differ, another version never does, and without a version the provider read decides, a failed one keeping it |
| SyncRecreation.MissingIsSkipped | windows/WindowsCloudFiles.cs:1102-1107 | a recorded item missing from disk is not made by the pass that misses it |
| SyncRecreation.MissingIff | windows/WindowsCloudFiles.cs:1224-1274 | an absent path counts as missing iff it is listed and recorded with its listed kind, a file with its hash |
| SyncRecreation.RecordsAreOnDisk | windows/WindowsCloudFiles.cs:811-814 | the new cache has records only for items on disk when the pass ends |
| SyncRecreation.AbsentIsMadeIff | windows/WindowsCloudFiles.cs:1094-1202 | an absent path is made iff it is listed, not recorded as a projection, under no pending delete, creatable, and its directory is there after the pass |
| SyncRecreation.UnrecordedIsMadeIff | windows/WindowsCloudFiles.cs:1187-1202 | in a listed directory that is there, an absent unrecorded path is made iff it is listed, under no pending delete and creatable |
| SyncRecreation.MissingIsForgottenThenMade | windows/WindowsCloudFiles.cs:1102-1107 | a recorded item missing from disk is skipped and forgotten by one pass; the next makes it again iff it is listed, under no pending delete and creatable |
| SyncRecreation.WillStandIff | windows/WindowsCloudFiles.cs:1094-1202 | a listed directory is there after the pass iff it, or each missing directory down to it, can be made, read off the state before the pass |
| SyncRecreation.ReachableIsMadeIff | windows/WindowsCloudFiles.cs:1094-1202 | an absent path listed below directories only is made iff it can be, is not recorded as a projection, and its directory will stand |
| SyncRetries.RetainedIff | windows/WindowsCloudFiles.cs:858-908 | a path the listing does not cover keeps a record iff one of its records still fits the item on disk |
| SyncRetries.FailedRemovalIsRemembered | windows/WindowsCloudFiles.cs:836-843 | a file that should have gone and is still there keeps a record with its size and hash |
| SyncRetries.FailedRemovalIsRetried | windows/WindowsCloudFiles.cs:576-647 | a failed removal of an unlisted file is made good by any next pass whose deletes succeed |
| SyncRetries.ShieldedIsUnrecorded | windows/WindowsCloudFiles.cs:795-798 | a shielded item has no record in the new cache |
| SyncRetries.UnrecordedIsKept | windows/WindowsCloudFiles.cs:618-630 | whatever is listed and succeeds, a pass leaves a plain file without a record alone |
| SyncRetries.ReplacementSucceeds | windows/WindowsCloudFiles.cs:1281-1351 | while a record fits the file and the listing differs from it, a removal that goes through removes it |
| SyncRetries.FailedReplacementIsForgotten | windows/WindowsCloudFiles.cs:935-940 | a plain file left where a file is listed loses its record, so a failed replacement is not tried again by the next pass |
| SyncInterrupted.InterruptedPassTracksIff | windows/WindowsCloudFiles.cs:701-745 | for an item that is there, a pass that stops before writing the cache breaks the recorded version iff the item is a file placeholder, the listed version is not the recorded one, no delete is pending over it, and its delete and creation succeed |
| SyncInterrupted.InterruptedRefreshTracksIff | windows/WindowsCloudFiles.cs:1122-1150 | for a placeholder a pass made, the same with the version it was made from |
| SyncInterrupted.InterruptedCreationTracksIff | windows/WindowsCloudFiles.cs:1187-1202 | read off the state before the pass: for an absent path it breaks iff the path can be made, its directory will stand, and no record carries the listed version |
| SyncInterrupted.StaleVersionStays | windows/WindowsCloudFiles.cs:1122-1127 | a later completed pass takes a placeholder for current, whatever it was made from, when the record agrees with the listing, and leaves an agreeing record for the next one |
| SyncExamples.MismatchedFileRun | windows/WindowsCloudFiles.cs:1179-1182 | a concrete file, listed as a directory and then not at all, is lost after two passes |
| SyncExamples.FailedReplacementRun | windows/WindowsCloudFiles.cs:1281-1351 | a concrete synced file stays for the next pass because its first removal failed |
| SyncExamples.StaleVersionRun | windows/WindowsCloudFiles.cs:266-290 | versions A, B with a failed cache write, and A again leave a placeholder made from B recorded as A |
| SyncExamples.RemovedDirectoryRun | windows/WindowsCloudFiles.cs:1102-1107 | a concrete directory, recorded and gone from disk, is absent after one pass and back after two |
| SyncExamples.OfferedAgainRun | windows/WindowsCloudFiles.cs:1477-1533 | a concrete synced file is represented before a pass over its own version and offered after it |
| LocalDeletes.FindRecentLocalFileDeletes | windows/WindowsCloudFiles.cs:517-574 | the scan loop returns the found deletes once each, shallow first |
| LocalDeletes.DeletesAre | windows/WindowsCloudFiles.cs:532-566 | a path is returned iff a record of the listed kind, unmarked, is gone from an existing directory |
| LocalDeletes.DeletesAreOrdered | windows/WindowsCloudFiles.cs:570-573 | shallower deletes come first, those of one depth by text |
| LocalDeletes.DeletesAreUnrelated | windows/WindowsCloudFiles.cs:517-574 | no returned delete is above another |
| LocalDeletes.MissingIsDetectedIff | windows/WindowsCloudFiles.cs:517-574 | a missing item is covered by a returned delete iff the topmost missing part of its path is recorded with its listed kind |
| LocalDeletes.EveryMissingItemIsDetected | windows/WindowsCloudFiles.cs:517-574 | when recorded ancestors are recorded as directories, every missing recorded item is covered by a returned delete |
| LocalDeletes.PublishRecentLocalFileDeletes | windows/IrisDriveService.cs:808-839 | the publishing loop marks, issues and on failure unmarks, and reports a change iff some delete was published |
| LocalDeletes.UnrelatedDeletesAreAllIssued | windows/IrisDriveService.cs:808-839 | unrelated unmarked deletes are all issued, and the markers left are the ones that did not fail plus the old ones outside them |
| LocalDeletes.ScannedDeletesAreAllIssued | windows/IrisDriveService.cs:808-839 | everything the scan returns is issued when no rename is pending and nothing expires, and the markers left are exactly those of the deletes that went through and the old ones outside them |
| LocalUpserts.CollectRecentLocalFileUpserts | windows/WindowsCloudFiles.cs:1409-1475 | the stack walk ends and finds, each once, exactly the plain files at or below its start that are not held back and not represented |
| LocalUpserts.FindRecentLocalFileUpserts | windows/WindowsCloudFiles.cs:472-515 | the scan returns exactly those files of the whole root, each once, in text order |
| LocalUpserts.NoHashOffersAll | windows/WindowsCloudFiles.cs:1477-1533 | from a cache without hashes every plain file not held back is offered, whether the provider has it or not |
| LocalUpserts.OfferedIff | windows/WindowsCloudFiles.cs:1477-1533 | a plain file is offered iff it is not held back and its last record is missing or of another size or hash, or a file of another size is listed, or no file is listed and the record is of a directory |
| LocalUpserts.UploadedIsOfferedAgain | windows/WindowsCloudFiles.cs:1477-1533 | whatever was recorded before, a plain file where a file is listed, not removed as changed, survives a completed pass unchanged and is offered by the next scan iff it is not held back then |
| LocalUpserts.PublishRecentLocalFileUpserts | windows/IrisDriveService.cs:841-865 | the second publishing loop writes the files whose path is not marked and reports whether one went through |
| LocalUpserts.WrittenIff | windows/IrisDriveService.cs:808-865 | exactly the offered files are written that the same scan did not publish as deleted |
| DriveFolder.PublishRecentLocalFileMutations | windows/IrisDriveService.cs:808-868 | both loops together leave the markers of the published deletes and report whether anything went through |
| DriveFolder.PrepareDriveFolder | windows/IrisDriveService.cs:561-602 | reconcile, optional scan, second listing and reconcile, then the pass, each at its own clock reading, and the provider path cache of a completed pass |
| DriveFolder.ProviderPathsAre | windows/IrisDriveService.cs:793-799 | the cached paths are exactly the listed ones that exist in the sync root, each once and in text order |
| DriveFolder.PublishedDeleteIsNotUndone | windows/IrisDriveService.cs:561-602 | within the lifetime of a marker, what is absent at or under a delete the scan publishes is absent after the refresh, whatever is listed afterwards and whatever the pass manages to do |
| DriveFolder.RefreshMakesIff | windows/IrisDriveService.cs:561-602 | an absent path is made by a refresh iff the listing read last, the second one after a publication, has it and the pass can make it |
| Filters.MatchesWanted | scripts/local-nostr-relay.py:20-41 | an event matches a request iff some filter accepts it, and iff its own fields fit whatever that filter names |
| Filters.OneKind | scripts/local-nostr-relay.py:21-23 | a filter with kinds only accepts exactly the events of one of them |
| Filters.OneAuthor | scripts/local-nostr-relay.py:24-26 | a filter with authors only accepts exactly the events of one of them |
| Filters.OneId | scripts/local-nostr-relay.py:27-29 | a filter with ids only accepts exactly the events with one of them |
| Filters.OneTime | scripts/local-nostr-relay.py:30-32 | a filter with a time only accepts exactly the events not before it, one without a time counting as zero |
| Filters.OneTag | scripts/local-nostr-relay.py:33-40 | a filter with one tag only accepts exactly the events that carry that tag with one of its values |
| Filters.EachCondition | scripts/local-nostr-relay.py:20-41 | a filter accepts exactly what each of its single conditions accepts |
| Filters.OtherFieldsAreFree | scripts/local-nostr-relay.py:20-41 | fields a filter does not name make no difference |
| Relay.TargetsAreWanted | scripts/local-nostr-relay.py:155-161 | an event goes to exactly the subscriptions of open connections that ask for it |
| Relay.LocalRelay.HandleEvent | scripts/local-nostr-relay.py:209-216 | recording an event and collecting its deliveries is one step |
| Relay.LocalRelay.CollectDeliveries | scripts/local-nostr-relay.py:155-161 | collects, each once, exactly the subscriptions of open connections that ask for the event |
| Relay.LocalRelay.ContinueBroadcast | scripts/local-nostr-relay.py:162-166 | the next delivery is queued on its connection, gone connections are passed over, and the answer follows the last |
| Relay.LocalRelay.HandleRequest | scripts/local-nostr-relay.py:218-230 | subscribing, copying the log and asking for the lock is one step |
| Relay.LocalRelay.HandleClose | scripts/local-nostr-relay.py:231-233 | closing drops the subscription and nothing else |
| Relay.LocalRelay.WriteNext | scripts/local-nostr-relay.py:253-255 | the head of the lock queue writes one frame and hands the lock on after its last |
| Relay.LocalRelay.FailNext | scripts/local-nostr-relay.py:162-166 | the head of the lock queue of a lost connection fails; a broadcast goes on, any other handler ends |
| Relay.LocalRelay.AddConnection | scripts/local-nostr-relay.py:175-178 | a new connection is open, ready and without subscriptions |
| Relay.LocalRelay.DiscardConnection | scripts/local-nostr-relay.py:238-239 | a discarded connection is open no longer and nothing else changes |
| Relay.ReplayIsExact | scripts/local-nostr-relay.py:222-229 | the replay holds each recorded event that is asked for, once, in recording order |
| Relay.WriteOut | scripts/local-nostr-relay.py:253-255 | writing moves a frame from the queue to the wire and changes no connection's order |
| Relay.StepOut | scripts/local-nostr-relay.py:155-255 | apart from a failing job, every step only appends frames to a connection |
| Relay.BroadcastsStep | scripts/local-nostr-relay.py:155-166 | every unfinished broadcast keeps a handler working on it and lists each delivery once |
| Relay.SubscriptionInvariant | scripts/local-nostr-relay.py:168-250 | under every interleaving a subscription has been sent or queued the replay, EOSE, and later matching events at most once, the rest still being broadcast |
| Relay.DeliveredExactlyOnce | scripts/local-nostr-relay.py:168-250 | at rest each matching event recorded before the request was sent once ahead of EOSE and each recorded after it once behind EOSE |
| RelayProgress.NoDeadlock | scripts/local-nostr-relay.py:155-255 | in every run, unless everything is written and every handler ready or gone, some write, failure or delivery can go on |
| RelayProgress.EveryRunComesToRest | scripts/local-nostr-relay.py:155-255 | from every state of a run, in whatever order it goes on without new messages, the relay takes no more steps than there is work and ends at rest |
| RelayProgress.AnswerDecides | scripts/local-nostr-relay.py:162-166 | a broadcast goes on whether or not a delivery could be written; a handler is ready after its own answer and gone when that fails |
| RelayProgress.TakesAnything | scripts/local-nostr-relay.py:168-250 | connections come and go at any time and a ready handler takes any message |
| Frames.SendFrame | scripts/local-nostr-relay.py:101-113 | the header buffer grows into the server frame for every payload length |
| Frames.BigEndianRoundTrip | scripts/local-nostr-relay.py:91-94 | lengths that fit are read back from their big-endian bytes |
| Frames.MaskTwice | scripts/local-nostr-relay.py:97-97 | masking twice with the same mask gives the payload back |
| Frames.XorBit | scripts/local-nostr-relay.py:97-97 | a bit of the unmasked byte is set iff it is set in exactly one of the byte and its mask byte |
| Frames.MostSignificantFirst | scripts/local-nostr-relay.py:92-94 | lengths are read with the most significant byte first |
| Frames.RefusedIff | scripts/local-nostr-relay.py:83-90 | a frame is refused iff a reserved bit is set or the mask bit is not |
| Frames.ReadIff | scripts/local-nostr-relay.py:83-96 | otherwise it is read iff its length bytes, mask and payload are there |
| Frames.ReadIsExact | scripts/local-nostr-relay.py:83-98 | final flag and opcode are their bits of the first byte, the rest follows the payload, and byte k of the payload is byte k on the wire with exactly the bits of mask byte k modulo 4 flipped |
| Frames.HeaderRoundTrip | scripts/local-nostr-relay.py:83-96 | a masked header of any of the three length forms is read as far as the mask |
| Frames.FrameRoundTrip | scripts/local-nostr-relay.py:83-113 | reading undoes the client layout for every payload length and stops where the frame ends |
| Frames.ServerFramesAreRejected | scripts/local-nostr-relay.py:89-90 | a frame in the server's own layout is refused as unmasked |
| Frames.HandleFrames | scripts/local-nostr-relay.py:179-202 | the connection loop with its buffer and opcode variable computes the specified outputs |
| Frames.TakeMessage | scripts/local-nostr-relay.py:179-202 | the remaining fragments extend what was collected and complete the message |
| Frames.ReassemblyIsConcatenation | scripts/local-nostr-relay.py:179-202 | for every split into fragments and every interleaving of ping and pong frames each message is the concatenation of its fragments |
| Frames.StreamRoundTrip | scripts/local-nostr-relay.py:83-113 | the bytes of any frames sent by a client are read back as those frames |
| Frames.BytesToMessages | scripts/local-nostr-relay.py:168-202 | from bytes to messages: any masked, fragmented client stream yields its texts and pongs in order |
| FrameSequences.SequenceIsExact | scripts/local-nostr-relay.py:179-202 | the connection goes on iff every frame fits those before it; pings are answered with at most 125 bytes, the end of a text message gives all payloads since its start, a close frame is answered and ends it, and nothing else is given out |
| Identifiers.Utf8RoundTrip | ios/FileProvider/FileProviderStorage.swift:110-110 | every text is read back from its UTF-8 bytes |
| Identifiers.Base64RoundTrip | ios/FileProvider/FileProviderStorage.swift:461-466 | every byte string is read back from its padded base64 form |
| Identifiers.BuildBase64DecodeString | ios/FileProvider/FileProviderStorage.swift:468-477 | the built text is the restored standard form |
| Identifiers.PaddingIsRestored | ios/FileProvider/FileProviderStorage.swift:461-477 | decoding restores alphabet and padding for every byte string |
| Identifiers.IdentifierRoundTripIff | ios/FileProvider/FileProviderStorage.swift:102-123 | a path comes back from its identifier iff it is a canonical provider path without a zero character |
| Identifiers.IdentifierLeadsTo | ios/FileProvider/FileProviderStorage.swift:102-123 | the identifier of any path but the empty one leads to what the native normaliser makes of that path |
| Identifiers.ZeroCharacterIsCut | ios/FileProvider/FileProviderStorage.swift:102-123 | a concrete path: what follows a zero character is lost |
| Identifiers.AppIdentifierRoundTripIff | ios/Sources/IrisDriveMobileModel.swift:2399-2412 | the app's own encoder yields the extension's identifier, so what it signals resolves to the path under the same condition |
| Identifiers.IdentifiersAreInjective | ios/FileProvider/FileProviderStorage.swift:118-123 | different paths have different identifiers |
| EncodingLaws.Utf8Strict | ios/FileProvider/FileProviderStorage.swift:110-110 | bytes are read as a text iff they are the UTF-8 encoding of that text |
| EncodingLaws.ValueIsPlace | ios/FileProvider/FileProviderStorage.swift:461-466 | a base64 character counts as its place in the RFC 4648 alphabet |
| EncodingLaws.Base64Digits | ios/FileProvider/FileProviderStorage.swift:461-466 | three bytes are written as the four digits of their number, one or two as those of their number followed by zero bits, with padding |
| EncodingLaws.AcceptsPadded | ios/FileProvider/FileProviderStorage.swift:461-477 | the decoder accepts exactly whole groups of four digits, the last of which may be padded |
| EncodingLaws.PathForIff | ios/FileProvider/FileProviderStorage.swift:102-116 | an identifier leads to a path iff it is the prefix and the encoding of a text that normalizes to that path |
| EncodingLaws.ContainersAreTheRoot | ios/FileProvider/FileProviderStorage.swift:102-116 | both containers lead to the root |
| EncodingLaws.CanonicalIff | crates/iris-drive-core/src/provider.rs:132-158 | canonical paths have components that are not empty, "." or ".." and hold no backslash or colon |
| Identifiers.StripCollisionSuffixes | ios/FileProvider/FileProviderStorage.swift:623-633 | the stripping loop ends with the family stem |
| Identifiers.FamilyStemIsStripped | ios/FileProvider/FileProviderStorage.swift:616-655 | nothing is left to strip, so stripping again changes nothing |
| Identifiers.NumberedNameIsInTheFamily | ios/FileProvider/FileProviderStorage.swift:638-645 | a numbered name has the family stem of the name it was made from |
| Identifiers.CopiedNameIsInTheFamily | ios/FileProvider/FileProviderStorage.swift:647-655 | a copied name, numbered or not, has the family stem of the name it was made from |
| Identifiers.NumericSuffixIff | ios/FileProvider/FileProviderStorage.swift:638-645 | a stem is stripped to another one iff it is that one with a number in brackets added |
| EncodingLaws.AllDigitsIff | ios/FileProvider/FileProviderStorage.swift:638-645 | a suffix number is not empty and has ASCII digits only |
| Identifiers.CopySuffixIff | ios/FileProvider/FileProviderStorage.swift:647-655 | a stem is stripped to another one iff it is that one with "copy", or "copy" and a number, added |
| Identifiers.FamilyStemIff | ios/FileProvider/FileProviderStorage.swift:616-655 | the family stem is the one stem, itself made from no other, from which the name is made by numbering and copying; a name made from no other keeps its own |
| StateGeneration.MobileModel.DispatchAction | ios/Sources/IrisDriveMobileModel.swift:2207-2217 | bump, native call and snapshot are one step on the main actor |
| StateGeneration.MobileModel.DispatchActionInBackground | ios/Sources/IrisDriveMobileModel.swift:2219-2239 | the call is queued with the generation captured after the optional bump |
| StateGeneration.MobileModel.Logout | ios/Sources/IrisDriveMobileModel.swift:1275-1289 | the interface part of logout bumps the generation and leaves its task to come |
| StateGeneration.MobileModel.RunLogoutTask | ios/Sources/IrisDriveMobileModel.swift:1282-1286 | the logout task bumps again and queues its call |
| StateGeneration.MobileModel.ResetLocalState | ios/Sources/IrisDriveMobileModel.swift:1901-1901 | the snapshot of a reset is applied while the generation stays |
| StateGeneration.MobileModel.ResumeOldest | ios/Sources/IrisDriveMobileModel.swift:2237-2238 | the snapshot is applied iff not cancelled and the generation, modulo 2^64, is the captured one |
| StateGeneration.StepKeepsOrder | ios/Sources/IrisDriveMobileModel.swift:2207-2274 | no step but an overtaken reset lets an applied snapshot come from an earlier call |
| StateGeneration.ResetInvertsIff | ios/Sources/IrisDriveMobileModel.swift:1901-1901 | after a reset the waiting continuations, run in order, apply an older snapshot over a newer one iff a call of this generation was waiting |
| StateGeneration.RunKeepsOrder | ios/Sources/IrisDriveMobileModel.swift:2207-2274 | the order invariant holds after every run |
| StateGeneration.SnapshotsAreMonotone | ios/Sources/IrisDriveMobileModel.swift:2207-2274 | in every run the calls behind applied snapshots strictly increase along the serial queue |
| StateGeneration.NewestIsShownAtRest | ios/Sources/IrisDriveMobileModel.swift:2219-2260 | with nothing cancelled, at rest the last applied snapshot is that of the last queued call |
| StateGeneration.AppliedIff | ios/Sources/IrisDriveMobileModel.swift:2207-2274 | the snapshot of a background call is applied when its continuation runs iff it is not cancelled and no immediate call, invalidating call or part of a logout came since it was queued |
| StateGeneration.ResetCanBeOvertaken | ios/Sources/IrisDriveMobileModel.swift:2011-2014 | a concrete run: a refresh queued before an unguarded apply is applied after it |
| RefreshCoalescer.MainWindow.ScheduleStatusRefresh | windows/MainWindowStatusWatcher.cs:33-39 | sets the pending flag, widens the provider flag and restarts the timer |
| RefreshCoalescer.MainWindow.TimerTick | windows/MainWindowStatusWatcher.cs:41-52 | a tick during a refresh rearms the timer; a free tick takes over everything pending |
| RefreshCoalescer.MainWindow.AfterAwait | windows/MainWindowStatusWatcher.cs:53-56 | the timer is armed again iff requests arrived meanwhile or it was armed |
| RefreshCoalescer.MainWindow.BeginRefresh | windows/MainWindow.xaml.cs:196-203 | a refresh starts iff none is running |
| RefreshCoalescer.MainWindow.RefreshFromElsewhere | windows/MainWindow.xaml.cs:196-203 | another refresh leaves the pending flags and the timer alone |
| RefreshCoalescer.MainWindow.FinishRefresh | windows/MainWindow.xaml.cs:256-259 | finishing clears the guard and lets the awaiting tick go on |
| RefreshCoalescer.StepLosesNothing | windows/MainWindow.xaml.cs:78-83 | every turn keeps: unanswered requests are pending and pending means the timer is armed |
| RefreshCoalescer.NoRefreshIsLost | windows/MainWindowStatusWatcher.cs:33-57 | in every run an unanswered request has the flag set and the timer armed, and an unanswered provider change is remembered |
| RefreshCoalescer.NextFreeTickAnswersAll | windows/MainWindowStatusWatcher.cs:41-57 | the next tick that finds no refresh running answers every request, provider changes with a provider refresh |
| RefreshCoalescer.TickAfterRefreshAnswersAll | windows/MainWindow.xaml.cs:256-259 | once the running refresh is done the next tick comes, starts a refresh and answers every request |
| RefreshCoalescer.FlagsAreExact | windows/MainWindowStatusWatcher.cs:33-57 | in every run refreshes do not overlap, the timer is armed iff a request came since a tick last started a refresh, and a tick asks the provider iff a provider change did |
| Publications.StepKeeps | crates/iris-drive-core/src/daemon.rs:885-930 | publishing and learning keep: identifiers differ, each AppKey's numbers increase and it holds its newest, and roots name only published roots |
| Publications.ObservesIff | crates/iris-drive-core/src/merge.rs:686-717 | over every run, of two published roots the later observes the earlier iff it is numbered and its AppKey then held that root or a later one of its author, and the earlier never observes the later |
| Publications.DescentIff | crates/iris-drive-core/src/merge.rs:668-684 | so a later root descends from an earlier one iff its AppKey had seen it, and is concurrent otherwise |
| Publications.NewestIsHeld | crates/iris-drive-core/src/relay_sync.rs:787-802 | whatever root has reached an AppKey, from then on it holds one of that author that is as new |
| Publications.NumbersCount | crates/iris-drive-core/src/daemon.rs:885-930 | the numbered roots of an AppKey are numbered one after the other from one |
| Publications.PublishedAsGiven | crates/iris-drive-core/src/daemon.rs:820-845 | a published root has the identifier and time it was published with, takes part in the merge as a source, and is held by its AppKey |
| MergeLaws.ObservesExactly | crates/iris-drive-core/src/merge.rs:686-717 | a root observes another iff they are one, it is a later numbered one of the same AppKey, or its parents or observations mention that root or a later one |
| MergeLaws.WinsIff | crates/iris-drive-core/src/merge.rs:569-603 | a candidate replaces the one it meets iff one root made both, its root alone has seen the other, or neither or both have and it is later, or as late by an AppKey later in text |
| MergeLaws.WriteConflictIff | crates/iris-drive-core/src/merge.rs:626-641 | two writes conflict iff both roots are causal, neither alone has seen the other, and size or identifying hash differ |
| MergeLaws.DeleteConflictIff | crates/iris-drive-core/src/merge.rs:651-666 | a write and a removal conflict iff both roots are causal and neither alone has seen the other |
| Merge.MergeDrives | crates/iris-drive-core/src/merge.rs:301-445 | the loops over snapshots, files, tombstones and tables compute the specified view, with its conflict records, and the sorted replacement roles |
| Merge.AddCandidate | crates/iris-drive-core/src/merge.rs:448-505 | a candidate replaces the one it wins over, and a conflict with it is noted and recorded |
| MergeRemovals.CandidatesAre | crates/iris-drive-core/src/merge.rs:314-377 | the candidates for a path are exactly what the authorized snapshots write or remove there |
| MergeRemovals.FinishedIs | crates/iris-drive-core/src/merge.rs:379-388 | the tables the view is read from hold the winning write and tombstone, local-only ones filling in |
| MergeRemovals.ViewIsExact | crates/iris-drive-core/src/merge.rs:390-427 | a path shows its winning write iff no winning tombstone stands against it or the write survives it; otherwise it is hidden with that tombstone, and what is removed and not shown is listed as removed |
| MergeRemovals.RemovalCases | crates/iris-drive-core/src/merge.rs:605-624 | a removal that has seen the write hides it, one the write has seen does not, otherwise the write shows iff it is later, and the removal by its own root and AppKey never hides it |
| MergeOrder.LookupIsWinner | crates/iris-drive-core/src/merge.rs:448-482 | each table holds for each path the sequential winner of the candidates offered for it |
| MergeOrder.StrictlyWinsIff | crates/iris-drive-core/src/merge.rs:569-603 | a candidate wins strictly iff its root descends from the other's, or they are concurrent and it is newer |
| MergeOrder.WinnerIsOrderFreeIff | crates/iris-drive-core/src/merge.rs:569-585 | among different candidates the winner is the same in every order iff one of them wins strictly over all others |
| MergeOrder.SlotIsOrderFreeIff | crates/iris-drive-core/src/merge.rs:301-377 | what the merge keeps for a path is the same in every order of the snapshots iff nothing is offered or one candidate wins strictly over all others |
| MergeOrder.ViewIsOrderFree | crates/iris-drive-core/src/merge.rs:301-445 | when every path is decided so, files, suppressed files and tombstones of the view do not depend on the order |
| MergeOrder.LocalOnlyFillsIn | crates/iris-drive-core/src/merge.rs:379-388 | a path that some source root writes or removes shows the same as without the local-only roots |
| MergeOrder.NewestWins | crates/iris-drive-core/src/merge.rs:569-585 | when descendants are newer than their ancestors, the newest candidate wins in every order |
| MergeOrder.LegacyClocksAgree | crates/iris-drive-core/src/merge.rs:719-730 | without causal fields that premise holds between AppKeys, so the newest publication wins |
| MergeOrder.Realize | crates/iris-drive-core/src/merge.rs:314-377 | every order of the candidates for a path comes from an order of the snapshots |
| MergeDescent.DominantIsNotSuperseded | crates/iris-drive-core/src/merge.rs:294-294 | a candidate that wins in every order has no descendant among the others |
| MergeDescent.DifferentKeysCompare | crates/iris-drive-core/src/merge.rs:723-730 | of two candidates of different AppKeys one is newer |
| MergeDescent.AncestorIsShownIff | crates/iris-drive-core/src/merge.rs:569-603 | among comparable candidates some order ends with an ancestor of another one iff none wins strictly over all others |
| MergeDescent.ViewShowsAncestorIff | crates/iris-drive-core/src/merge.rs:301-445 | some order of the snapshots shows an ancestor of a file at hand iff no candidate for the path wins strictly over all others |
| MergeConflicts.ReportedIsFlagged | crates/iris-drive-core/src/merge.rs:455-461 | a path is reported as a write conflict iff some candidate conflicts with the one it meets |
| MergeConflicts.SomeOrderReportsIff | crates/iris-drive-core/src/merge.rs:626-641 | some order reports a conflict iff two candidates are concurrent edits with different content |
| MergeConflicts.SomeOrderIsQuietIff | crates/iris-drive-core/src/merge.rs:448-466 | some order reports nothing iff candidates that win one over the other without conflict leave each other candidate one to lose to without conflict |
| MergeConflicts.ReportIsOrderFreeIff | crates/iris-drive-core/src/merge.rs:448-466 | whether a write conflict is reported is the same in every order iff no two candidates conflict or there is no such chain |
| MergeConflicts.ResolvedReportVaries | crates/iris-drive-core/src/merge.rs:455-461 | a conflict that a root descending from all others has resolved is reported in some orders only |
| MergeConflicts.ViewReportIsOrderFreeIff | crates/iris-drive-core/src/merge.rs:301-445 | the same for the conflict list of the view and orders of the snapshots, with the write/delete conflicts in it |
| MergeDetails.DetailsAreExact | crates/iris-drive-core/src/merge.rs:484-554 | exactly the conflicting paths have a record; it names the writes that met in conflict, and the winning tombstone iff that is concurrent with the winning write and its root wrote none of them |
| MergeDetails.AddSideNames | crates/iris-drive-core/src/merge.rs:538-554 | the sides stay sorted and without repetition, and name one more write |
| MergeDetails.PartiesDiffer | crates/iris-drive-core/src/merge.rs:515-532 | a record names two sides, or a side and a deletion by a root that wrote none of the sides |
| MergeRoles.RolesAreOrderFreeIff | crates/iris-drive-core/src/merge.rs:431-436 | the replacement list is the same in every order of the snapshots iff path, AppKey and generation tell its entries apart |
| MergeRoles.RoleRootsAreOrderFreeIff | crates/iris-drive-core/src/merge.rs:437-441 | the same for the roots that carry such a list, told apart by AppKey and root |
| MergeRoles.OneRootEach | crates/iris-drive-core/src/merge.rs:319-333 | with one root per AppKey neither list depends on the order of the snapshots |
| MergeRoles.RolesAreListed | crates/iris-drive-core/src/merge.rs:319-333 | the list holds the replacements of every authorized snapshot, by path, then AppKey, then generation |
| MergeExamples.CycleHasThreeWinners | crates/iris-drive-core/src/merge.rs:569-585 | three concrete roots, one with its clock behind, win in turn |
| MergeExamples.SortedViewShowsAncestor | crates/iris-drive-core/src/merge.rs:301-445 | in the order of their AppKeys the view of these roots shows an ancestor although its descendant is there, and in another order a different file |
| MergeExamples.ResolvedConflictDependsOnOrder | crates/iris-drive-core/src/merge.rs:301-445 | a conflict a later root has resolved is in the conflict list of one order and not of another, with the same file shown |

## Left out

- Paths.ContainsIsPrefix: only for paths without empty components; `PathWalks.AncestorsAreNormalIff` shows why, and the engines take component lists.
- Windows names are compared as the code compares them, by ordinal text; the file system's own case-insensitivity is not modelled.
- Sorting.OrdinalLe orders scalar values, where .NET orders UTF-16 code units; the two differ only beyond U+FFFF, and case folding is ASCII only.
- Markers: a top-level name of white space only, which the code never treats as existing, is an ordinary name here; one clock reading serves each marker operation.
- JSON reading and writing of the listing, the cache, the cleanup-marker file and the native calls; the model starts from the decoded values.
- SyncRoot.SyncRootFolder.ApplyListing: one pass is atomic and disk reads succeed; races with the user inside a pass, locked files and attribute errors are not modelled, nor are hydration callbacks, shell notifications, debug logging and read-only attributes.
- DriveFolder.PrepareDriveFolder: each stage reads the clock once; writing the provider path cache to its file, which may fail without consequence, is left out.
- SyncRoot.SyncRootFolder.CreatePlaceholder: creating a file placeholder over a directory placeholder is taken to fail; what the Cloud Files call does there is not visible in the source.
- SyncRoot.Origin is a history value of the model: it records which listed version a placeholder was made from, and no step reads it.
- LocalDeletes.FindRecentLocalFileDeletes: a sync root that does not exist, where both scans return nothing, is left out.
- DeleteTasks.NoDeleteIsLost: covers runs without renames, provider failures, expiry and undeletion, because each of these removes markers on purpose.
- CleanupMarkers.CleanupDeletes.MarkProviderCleanupDelete: writing the mirror file always succeeds.
- CleanupMarkers.MirrorAgrees: a single writer whose writes succeed; the daemon that may write the same file is not modelled.
- Relay.DeliveredExactlyOnce: for a subscription id requested once and neither closed nor cut off; the handshake, JSON and UTF-8 decoding, filters or events of the wrong shape, the event log file, control frames written outside the send lock, and shutdown are left out.
- Frames.FrameRoundTrip: for payloads below 2^64 bytes, the most the format can carry; opcodes have four bits, so setting the final flag is an addition. Control frames without the final flag and a new data frame in the middle of a message are accepted as the code accepts them.
- Identifiers.NumberedNameIsInTheFamily: suffix numbers are ASCII digits; splitting off the parent and the extension of a name is left to the platform.
- StateGeneration.SnapshotsAreMonotone: for fewer than 2^64 bumps, after which the counter repeats; the artificial refresh delay of debug builds and continuations out of queue order are left out.
- RefreshCoalescer.NoRefreshIsLost: closing the window stops the timer and is left out; what a refresh shows is not modelled.
- Apple Calendar sync, the WPF and SwiftUI views, the development lock files, the Blossom fixture server and the release scripts are plumbing or user interface and are left out.
- Merge.MergeDrives: the lists that the source sorts by path are maps by path; which names are ignored is a parameter, and a root identifier is a text with the hash it parses to.
- Publications.ObservesIff: the roster that limits which roots are written down, numbers near 2^64, and the refresh of placeholders known only by hint are left out.
- MergeConflicts.ViewReportIsOrderFreeIff: for a path that is also removed only where its winners do not depend on the order.
- MergeDescent.ViewShowsAncestorIff: for a path that no source root removes; `MergeDescent.AncestorIsShownIff` has no such premise.
- The rest of the Rust core is not modelled, apart from the path normaliser that identifiers pass through.
