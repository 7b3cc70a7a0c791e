# Wusel: a verified model

Wusel mounts a Nextcloud account as a filesystem that fetches what is opened
and keeps no more of it than it has to. This project models the parts of its
engine whose correctness depends on what happens between two steps, and proves
what they promise:

- **The mirror** (`MirrorRows`, `MirrorWalk`, `MirrorStages`, `MirrorSync`,
  `MirrorTheorems`, `MirrorBusy`, `MirrorReload`, `MirrorBeside`, `MirrorProbe`). The server's tree,
  the state database's rows, and the sync walk that goes only where an ETag changed, while
  other clients change the server between its requests, the machine reports what
  it is busy with, and listings asked for earlier are applied beside it or between
  two of its own.
- **Listings beside the machine** (`Activity`, `Listings`, `ListingCommits`,
  `ListingRuns`, `ListingTheorems`, `ListingRepair`). The compressed busy history, and every
  interleaving of renames, removals and uploads, finished or given up, with
  listings of the same directory.
- **Conflicts** (`ConflictNames`, `ConflictWorld`, `ConflictSpec`,
  `ConflictTheorems`, `ConflictExact`, `ConflictEtags`, `ConflictRetry`,
  `ConflictAnswers`, `ConflictOutcomes`, `ConflictEngine`). A refused upload is settled, merged or
  parked, with other clients writing before every request and requests or
  answers lost. The conditional requests are those
  of sections 13.1.1 and 13.1.2 of RFC 9110, PROPFIND and MOVE those of sections
  9.1 and 9.9 of RFC 4918.
- **The content cache** (`ReadWindow`, `ReadCache`, `ReadSource`, `Publish`,
  `Evict`). Sequential windows with readahead, spills that become blobs,
  publishing and eviction one file operation at a time.
- **Small cores** (`Glob`, `PinMap`, `PinFile`, `Health`, `NetQueue`). Ignore
  patterns, pins and their cross-process file, outage notices, and the two-tier
  queue with its refreshes.

`Common` holds the value types they share. `dafny verify dfyconfig.toml` checks
everything.

## How to read it

Code that changes things in place is a class or a loop here, and is proved
against a function or predicate of the same module; what the code promises is
then a lemma about that. Where several threads, processes or machines take part,
the model is a step function, and the results hold for every run of it.

Everything beyond the modelled threads is arbitrary: the state of the server
before a request is served, whether the request and its answer arrive, what the
machine is busy with, when a process stops.

Two facts about Nextcloud are assumed. For one path, equal ETags mean an equal
subtree, and an ETag that the server has moved on from never returns
(`MirrorRows.EtagLaw`, `ConflictWorld.Lawful`, `ConflictEtags.NeverBack`,
`ReadSource.LawfulPath`).

## What the proofs found

Each of these is a claim the code or its comments make that does not hold as it
stands. The lemmas named give a failing input and say exactly when it does hold.

- A `*` byte in a *name* can swallow the pattern's star: `Glob.TrapIsRefused`,
  `Glob.CompleteExactlyOnStarFreeNames`.
- A walk during which something is busy from beginning to end skips it, moves
  neither counter the loop compares, and is remembered as if it had vouched for
  the root's ETag. With the root busy it does nothing at all:
  `MirrorProbe.BusyRootIsVouchedForWrongly`. The remembered ETag is good on every
  server iff nothing busy is a loaded directory or a child of one, and nothing
  loaded lies deeper than the 64 levels a walk goes, where it is cut off without a
  word: `MirrorBusy.RememberedWalkVouchesExactly`.
- A refresh is not ordered against the walks. One that was answered before a walk
  and is applied after it takes the mirror back to the old version, under a root
  ETag that no probe will find changed: `MirrorProbe.LateReloadIsNeverRepaired`.
  It does no harm iff the server has left that ETag anyway or the answer says
  what the rows say: `MirrorReload.LoadedReloadKeepsTheVouchExactly`,
  `MirrorReload.ReloadKeepsTheVouchExactly`.
- Even an up-to-date refresh does harm if it is applied in the middle of a walk: it
  gives a child directory its new ETag just before the walk looks whether that ETag
  has moved: `MirrorBeside.ReloadInsideAWalkIsNeverRepaired`,
  `MirrorBeside.ReloadBesideExactly`.
- A rename or removal that is given up between its server step and its commit, its
  caller interrupted or the answer lost, leaves rows the server no longer has. No
  flow repairs them; the next accepted listing does:
  `ListingRepair.GivenUpRemovalIsCaughtUp`, `ListingRepair.AcceptedListingCatchesUp`.
- A listing writes a child directory's new ETag before the child is listed. If
  the walk stops there, or the listing came from a reload, no later pruned walk
  repairs the child: `MirrorProbe.ReloadAloneBreaksTrust`,
  `MirrorTheorems.PrunedWalkIsAFullResync`.
- `crates/wusel-core/src/provider.rs:685-688` argues that a flow which starts
  after the check commits after the reconcile. Nothing orders the two: a removal
  that runs and commits in between is undone, and the removed file is back:
  `ListingTheorems.RemovedFileComesBack`,
  `ListingTheorems.AppliedListingIsHarmlessExactly`.
- A chunked upload checks its precondition in one request and moves the file into
  place in another, and takes a file of the right size for its own when the
  answer is lost: `ConflictExact.MoveOverwrites`,
  `ConflictExact.SizeIsTakenForContent`, `ConflictExact.NothingIsTakenExactly`,
  `ConflictExact.SuccessMeansDeliveredExactly`. It also asks for the new ETag
  after the move, and can record the next writer's as its own:
  `ConflictEtags.RecordedEtagIsOursExactly`.
- A merge of a version whose GET carried no ETag is uploaded unconditionally:
  `ConflictExact.UnnamedMergeOverwrites`, `ConflictExact.NothingIsTakenExactly`.
- The empty file that an earlier attempt left is taken for somebody else's when the
  answer that shows it carries no ETag, and the content goes into a copy beside it:
  `ConflictAnswers.EmptyFileIsTakenForTheirsExactly`.
- A sequential run reads range after range without naming a version. If the
  server moves on below it, the run completes and is published under the old
  ETag: `ReadSource.MovedServerIsSpilledMixed`,
  `ReadSource.SpillIsTheNamedVersionExactly`.
- Two publishers of different versions can leave one's bytes beside the other's
  ETag: `Publish.CrossingMixes`, `Publish.TwoPublishersAreSafeExactly`.
- A publisher that stops between creating the sidecar and writing it leaves an
  empty one, which matches a row whose ETag is empty:
  `Publish.EmptySidecarMatchesNoVersionExactly`.
- A blob may be replaced between the freshness check and the read:
  `Publish.CheckedBlobIsReadExactly`.
- Taking over a stale pins lock can remove a lock just taken, and a slow holder
  overwrites whoever took over: `PinFile.TakeOverRemovesAFreshLock`,
  `PinFile.NothingIsLostExactly`.
- Renaming a pinned subtree back does not restore the pins if the new place had
  some of its own, nor if the new place was the root, which never moves:
  `PinMap.RenameBackRestoresExactly`.

## Model

| member | source | states |
|---|---|---|
| Glob.GlobMatch | crates/wusel-core/src/ignore.rs:43-67 | The loop terminates; what it accepts the pattern matches in the declarative sense of `*` and `?`; and it decides that sense whenever name or pattern has no `*` byte. |
| Glob.IsIgnored | crates/wusel-core/src/ignore.rs:35-39 | A name is ignored only if some pattern matches it, and exactly then if the name has no `*` byte. |
| Glob.Soundness | crates/wusel-core/src/ignore.rs:43-67 | For every name and pattern, a positive verdict is a match. |
| Glob.Completeness | crates/wusel-core/src/ignore.rs:48-62 | Remembering only the last star misses nothing unless `*` is on both sides. |
| Glob.NewStarForgetsTheOld | crates/wusel-core/src/ignore.rs:51-55 | At a second star the choices of the first are no longer needed. |
| Glob.TrapIsRefused | crates/wusel-core/src/ignore.rs:48-51 | For every name with a `*` byte there is a pattern that matches it and is refused. |
| Glob.CompleteExactlyOnStarFreeNames | crates/wusel-core/src/ignore.rs:43-67 | The matcher is exact for all patterns on exactly the names without a `*` byte. |
| Activity.Activity.SetBusy | crates/wusel-core/src/activity.rs:62-81 | The report extends the uncompressed history by the new busy set if it differs, the index still answers for it, never holds more than 4096 objects, and the floor moves only when it would have. |
| Activity.Activity.Seq | crates/wusel-core/src/activity.rs:85-87 | The count is the position in the uncompressed history. |
| Activity.Activity.QuietSince | crates/wusel-core/src/activity.rs:92-97 | True exactly when the count is not below the floor and the object was outside every busy set from it to now. |
| Activity.QuietExactly | crates/wusel-core/src/activity.rs:92-97 | The last flip alone decides what the whole history would. |
| Activity.IndexHoldsTheFlipped | crates/wusel-core/src/activity.rs:68-80 | The index holds exactly the objects that flipped above the floor. |
| Activity.QuietUntilReported | crates/wusel-core/src/activity.rs:25-29 | Being quiet lasts until the first report that names the object, and no longer. |
| MirrorRows.MergePointwise | crates/wusel-core/src/state.rs:182-286 | What one reconcile does to every row of the tree: excepted and local-only children stay, others take the listing's ETag, a changed type replaces the subtree, a vanished child takes its subtree along. |
| MirrorRows.ListingDecidesChildren | crates/wusel-core/src/state.rs:182-286 | A busy child keeps its row, and a local one that is not listed; one listed as the file or directory it was keeps its inode and takes over ETag and file id; any other listed one is new; and what the server has no longer is gone. |
| MirrorRows.ListingDecidesSubtrees | crates/wusel-core/src/state.rs:206-270 | Everything below a child stays if the child is busy, local only or listed as what it was, and is gone with it otherwise. |
| MirrorRows.ListingLeavesTheRest | crates/wusel-core/src/state.rs:182-286 | No row outside the listed directory moves. |
| MirrorRows.CoherenceCarriesDown | crates/wusel-core/src/provider.rs:643-668 | If the root shows the tree and every loaded directory's ETag names its listing, the mirror agrees with all of the tree. |
| MirrorWalk.MergeKeepsWellFormed | crates/wusel-core/src/state.rs:182-286 | A reconcile keeps parents above children and loaded directories below loaded ones. |
| MirrorStages.ChildJoins | crates/wusel-core/src/provider.rs:643-668 | Whatever happened in between, the walk of a child directory continues that of its parent: each directory after the one it was gone into from, none twice, and none left out if none was before. |
| MirrorSync.Quiet | crates/wusel-core/src/provider.rs:698 | A listing may touch what its own flow holds, and what no report since it was asked for has named. |
| MirrorSync.ReconcileIfQuiet | crates/wusel-core/src/provider.rs:689-704 | The listing is applied exactly if its directory was quiet, and then everything but the busy children is merged. |
| MirrorSync.Report | crates/wusel-core/src/provider.rs:595-642 | The invalidations sent are exactly the names gone, the files whose ETag moved and the names new, and the outdated pins exactly the pinned among the moved. |
| MirrorSync.ListOne | crates/wusel-core/src/provider.rs:579-594 | An answer is merged and reported exactly if neither the write epoch nor the directory moved since the question, whatever else did; the children that did are left alone. |
| MirrorSync.WalkDir | crates/wusel-core/src/provider.rs:560-670 | However it is disturbed, a walk in which no listing fails lists exactly its directory and, from each whose answer could be used, the child directories that had a row with another ETag and have a loaded one, down to the depth limit, each once, and reports what those answers showed; undisturbed it is a walk by the visit rule, merges in each directory everything but the busy children, and does nothing under a directory that was busy all along, or too deep; the first listing that fails ends it, and nothing else does. |
| MirrorSync.ReloadDir | crates/wusel-core/src/provider.rs:1033-1085 | A listing that came is applied iff its directory was quiet since it was asked for, as the server's directory as of one moment of the call, and merged into exactly the children that were quiet too; the names reported are exactly those that came or went; otherwise rows and reports are left alone. |
| MirrorTheorems.WalkKeepsCoherence | crates/wusel-core/src/provider.rs:560-670 | For every interleaving of server changes with the walk's requests, a coherent mirror within the walk's depth is coherent again. |
| MirrorTheorems.PrunedWalkIsAFullResync | crates/wusel-core/src/provider.rs:560-670 | With the server holding still, an undisturbed walk makes every surviving loaded directory agree with the server iff the rows' ETags could be trusted before. |
| MirrorTheorems.EntryReportsAreTheDifferences | crates/wusel-core/src/provider.rs:602-642 | In every loaded directory that survives, a name whose row was not busy is reported iff it came or went. |
| MirrorTheorems.ContentReportsAreTheDifferences | crates/wusel-core/src/provider.rs:612-631 | The content of a file that was not busy is reported, and a pin found outdated, iff its row is still there under another ETag. |
| MirrorTheorems.WalkVouches | crates/wusel-core/src/provider.rs:523-550 | The root ETag read before an undisturbed walk stands for the mirror after it. |
| MirrorBusy.RememberedWalkVouchesExactly | crates/wusel-core/src/provider.rs:523-550 | For any rows and any set of objects busy throughout: every walk the loop remembers, cut off at its depth or not, on every server the rows are coherent with, leaves the promise kept iff none of them is a loaded directory or a child of one and nothing loaded lies deeper than walks go. |
| MirrorBusy.ClearWalkIsIdle | crates/wusel-core/src/provider.rs:560-670 | A walk that can come to nothing busy does what it would have done beside an idle machine. |
| MirrorBusy.ClearWalkVouchesExactly | crates/wusel-core/src/provider.rs:523-550 | And, with nothing loaded deeper than it goes, it leaves the promise kept iff the server has left the probed ETag, or the rows' ETags could be trusted against the tree it had from the probe on. |
| MirrorBusy.BlockedWalk | crates/wusel-core/src/provider.rs:574-576 | Wherever something busy or too deep is on the walk's way there is a server, and a complete walk of it, that stops there. |
| MirrorReload.ReloadKeepsTheVouchExactly | crates/wusel-core/src/provider.rs:1033-1060 | Whatever a reload was answered and whenever it asked, applying the answer keeps the promise iff the remembered ETag is gone from the server or the directory will then say what the server has there. |
| MirrorReload.LoadedReloadKeepsTheVouchExactly | crates/wusel-core/src/provider.rs:1033-1060 | Of a directory listed before, that is iff the answer says what the rows said, but of busy children: nothing but rows and answer need be looked at. |
| MirrorReload.FreshReloadKeepsTheVouchExactly | crates/wusel-core/src/provider.rs:1033-1060 | An answer no older than the probe always keeps it there, and in a directory listed for the first time iff the busy children it must leave alone are as answered. |
| MirrorTheorems.LocalCommitKeepsTheVouch | crates/wusel-core/src/provider.rs:523-550 | Rows committed by a flow that changed the server keep it too. |
| MirrorBeside.ReloadBesideExactly | crates/wusel-core/src/provider.rs:643-664 | Between two listings of a walk, a reload with any answer leaves the rows' ETags trusted, but for the directories the walk will list, iff it gives no other child directory an ETag it does not show, and is harmless to a directory that will not be listed and names the server's version. |
| MirrorBeside.WalkBesideReloadsAgrees | crates/wusel-core/src/provider.rs:560-670 | A walk of trusted rows with any number of such reloads in between makes the mirror agree with the server. |
| MirrorBeside.ReloadInsideAWalkIsNeverRepaired | crates/wusel-core/src/provider.rs:643-664 | A concrete walk: the server holds still, a refresh of a directory is applied just before the walk lists it, and the mirror stays old below. |
| MirrorProbe.Syncer.OnTrigger | crates/wusel-core/src/provider.rs:496-552 | Nothing is done exactly until the root was listed once; otherwise the root is probed once, and the walk is skipped exactly if that probe came back with the remembered ETag, which changes nothing and leaves nothing to do if that ETag is vouched for; any other walk runs under what the probe came back with, goes through however it is disturbed, and is remembered exactly when it ended with neither count moved since it began; it is then a complete walk with one busy set throughout, and where it could come to nothing busy or too deep it vouches for the ETag read before it iff the rows' ETags could be trusted against the tree that has it. |
| MirrorProbe.EveryEventKeepsTheVouch | crates/wusel-core/src/provider.rs:496-552 | Every event of a run that is in time keeps the promise the remembered ETag stands for; a reload, and a walk that could come to nothing busy or too deep, keeps it only then. |
| MirrorProbe.CoherentWalkIsInTime | crates/wusel-core/src/provider.rs:523-550 | A walk of a coherent mirror that could come to nothing busy or too deep is in time, whatever the server does meanwhile. |
| MirrorProbe.FreshReloadIsInTime | crates/wusel-core/src/provider.rs:1033-1060 | A reload answered no earlier than the probe is in time. |
| MirrorProbe.ProbeNeverSkipsNeededWork | crates/wusel-core/src/provider.rs:496-552 | In every run whose remembered walks and reloads are in time, reloads in flight across walks and between their listings included, whenever the probed ETag equals the remembered one the mirror already agrees with the server. |
| MirrorProbe.BusyRootIsVouchedForWrongly | crates/wusel-core/src/provider.rs:523-541 | A concrete walk of a coherent mirror that did nothing because the root was busy, is remembered, and leaves the promise broken. |
| MirrorProbe.LateReloadIsNeverRepaired | crates/wusel-core/src/provider.rs:1033-1060 | A concrete run: a refresh answered before a remembered walk is applied after it, and the mirror disagrees under the very ETag that is remembered. |
| MirrorProbe.ReloadAloneBreaksTrust | crates/wusel-core/src/provider.rs:1033-1060 | A listing of the root alone leaves rows that no later undisturbed walk makes agree. |
| ListingRuns.EveryRunKeeps | crates/wusel-core/src/runtime.rs:1405-1418 | In every interleaving of reports, server steps, commits, flows given up at any point and listings: one flow per object, reports that cover each flow from before its server step to its end, and rows that stay where a running flow found them. |
| ListingTheorems.AcceptedListingStraddlesNoFlow | crates/wusel-core/src/provider.rs:689-704 | An accepted listing caught no rename or removal under way halfway: all that had begun by the check had ended before the listing was asked for. |
| ListingTheorems.CheckAcceptsExactly | crates/wusel-core/src/provider.rs:698-701 | A listing passes the check iff its directory was held by nobody since it was asked for, or by the flow that asked; otherwise it is never applied. |
| ListingTheorems.ApplySparesTheHeldExactly | crates/wusel-core/src/provider.rs:702-703 | Applied, it leaves a child alone, to the last row below it, iff another flow than the one that asked held it meanwhile; any other child becomes what the listing says. |
| ListingTheorems.BusyChildKeepsItsRow | crates/wusel-core/src/state.rs:174-181 | A child any other flow held since the listing was asked for keeps its row as it was. |
| ListingTheorems.RenamesAlwaysFindTheirRow | crates/wusel-core/src/activity.rs:15-29 | Whatever other clients do, once a rename or removal found its row no listing takes it away while it runs, and after the server's step its commit goes through unless it is given up. |
| ListingTheorems.AppliedListingChangesNothingExactly | crates/wusel-core/src/state.rs:182-286 | In every state, applying a checked listing leaves the directory's rows alone iff every listed name has a row and every row that is not protected says what the listing says, or was never on the server. |
| ListingTheorems.AppliedListingIsHarmlessExactly | crates/wusel-core/src/provider.rs:685-704 | With no other client and no flow given up after its server step, that is iff every listed name still has a row: always if nothing was committed since the check, never if one commit was. |
| ListingRepair.AcceptedListingCatchesUp | crates/wusel-core/src/provider.rs:689-704 | With no other client, from any rows and whichever flows were given up: an accepted listing makes every name that is not busy what the server has, unless a flow begun since the check has reached the server. |
| ListingRepair.GivenUpRemovalIsCaughtUp | crates/wusel-fsm/src/machine.rs:526-555 | A concrete run: a removal is given up after its server step, and the next listing takes the row away though every listed name has one. |
| ListingTheorems.WhatComesBackIsNowhere | crates/wusel-core/src/provider.rs:685-704 | A row a late listing brings back is not on the server. |
| ListingTheorems.RemovedFileComesBack | crates/wusel-core/src/provider.rs:685-688 | A concrete run in which it happens. |
| ListingCommits.CommittedKid | crates/wusel-core/src/state.rs:462-540 | What committing a rename or a removal does to every child of the directory. |
| ListingCommits.RenameCarriesTheSubtree | crates/wusel-core/src/state.rs:462-563 | A rename carries every row of the subtree to its new path, at any depth and with its inode, and leaves none behind; what it replaces is gone, but a file the server has never seen takes over its file id and ETag. |
| ListingCommits.RemovalTakesTheSubtree | crates/wusel-core/src/state.rs:588-593 | A removal leaves no row at or below its path. |
| ListingCommits.CommitLeavesTheRest | crates/wusel-core/src/state.rs:462-593 | Neither touches any other row. |
| ConflictNames.CopyIsASibling | crates/wusel-core/src/provider.rs:80-94 | A conflicted copy lies in the same directory, keeps the extension, and never has the original's name. |
| ConflictNames.CopyNamesDiffer | crates/wusel-core/src/provider.rs:76-94 | No two seconds and no two attempts give the same name. |
| ConflictTheorems.PutWrites | crates/wusel-core/src/webdav.rs:444-467 | A conditional PUT writes at most once, only where its precondition held at that moment, and not at all when it answers with a conflict. |
| ConflictTheorems.SettleKeeps | crates/wusel-core/src/provider.rs:860-904 | Settling overwrites only the empty file it was creating, and then the server held the buffer's bytes during the call. |
| ConflictTheorems.MergeKeeps | crates/wusel-core/src/provider.rs:770-806 | A merge replaces only content it merges to the very bytes uploaded. |
| ConflictTheorems.ParkKeeps | crates/wusel-core/src/provider.rs:807-841 | A copy is stored under a name that did not exist. |
| ConflictTheorems.ResolveKeeps | crates/wusel-core/src/provider.rs:757-841 | For a buffer that goes up in one request and every interleaving of other clients' writes and lost messages: nothing of anybody's is overwritten, a success means the bytes arrived, and the ETag recorded is one the server had. |
| ConflictExact.NothingIsTakenExactly | crates/wusel-core/src/webdav.rs:528-593 | No run takes another client's data iff the buffer is not above the chunk size and no merge depends on a version that may go unnamed. |
| ConflictExact.NothingIsTakenWhenToldExactly | crates/wusel-core/src/webdav.rs:404-419 | Where every answer names its ETag, nothing is taken in any run iff the buffer is not above the chunk size. |
| ConflictExact.SuccessMeansDeliveredExactly | crates/wusel-core/src/webdav.rs:626-678 | Every success means the bytes arrived iff the buffer is not above the chunk size, whatever the answers name. |
| ConflictEtags.RecordedEtagIsOursExactly | crates/wusel-core/src/webdav.rs:669-678 | In every run the ETag recorded, as long as it is the server's, names the delivered bytes, iff the buffer does not replace the empty file of its create by a chunked upload. |
| ConflictExact.MoveOverwrites | crates/wusel-core/src/webdav.rs:528-536 | The run in which the assembling MOVE replaces a file put there since its check. |
| ConflictExact.SizeIsTakenForContent | crates/wusel-core/src/webdav.rs:642-668 | The run in which another client's file of the same size passes for ours and nothing was written. |
| ConflictExact.UnnamedMergeOverwrites | crates/wusel-core/src/webdav.rs:400-419 | The run in which a merge without an ETag replaces a third version. |
| ConflictRetry.OwnUploadSettles | crates/wusel-core/src/provider.rs:860-904 | If the path holds our bytes, or is the empty file of our create, and nobody else touches it, a refusal settles without a copy and with the right version recorded. |
| ConflictRetry.LostAnswerMakesNoCopy | crates/wusel-core/src/provider.rs:843-859 | A create whose upload landed unanswered is refused when tried again and then settles without a copy. |
| ConflictOutcomes.MergeableConflictMerges | crates/wusel-core/src/provider.rs:770-806 | Undisturbed, what merges is merged in place, and nothing else is written. |
| ConflictOutcomes.RealConflictParksACopy | crates/wusel-core/src/provider.rs:807-841 | Undisturbed, what does not merge stays as it is, with the buffer beside it under the first name tried. |
| ConflictAnswers.ResolutionListens | crates/wusel-core/src/provider.rs:757-841 | For every plan and any size: a success heard every answer but those it does not need (the relist after settling; of a MOVE and the question after it, one), and a failure lost an answer, found the file gone when it read it, or found all four names taken. |
| ConflictAnswers.SettleListens | crates/wusel-core/src/provider.rs:860-904 | Settling gives way to a merge or a copy only after hearing every answer it asked for, and then has written nothing. |
| ConflictAnswers.ParkingFailsOnlyWhenAllNamesAreTaken | crates/wusel-core/src/provider.rs:807-832 | Parking goes on to the next name only when told that this one is taken, and gives up only if an answer was lost or every candidate name existed when it was tried. |
| ConflictAnswers.OwnBytesAreNeverCopied | crates/wusel-core/src/provider.rs:843-859 | Where the path holds our own bytes and nobody touches it, nothing is written whatever is lost: the refusal is settled, with the ETag that was told, iff the PROPFIND and the GET are heard, and fails otherwise. |
| ConflictAnswers.OwnEmptyFileIsReplacedOrKept | crates/wusel-core/src/provider.rs:875-892 | Where it holds the empty file of our create and the PROPFIND names it, the only write is its replacement, for any size and whatever is lost, and every success is one that settles with that write. |
| ConflictAnswers.EmptyFileIsTakenForTheirsExactly | crates/wusel-core/src/provider.rs:875-892 | A buffer that goes up in one request gives way to a copy there iff both answers are heard and the first does not carry the ETag. |
| ConflictEngine.SameStream | crates/wusel-core/src/provider.rs:910-925 | However the reply is cut into chunks, the comparison decides equality of the whole. |
| ConflictEngine.WriteContext.SameBytes | crates/wusel-core/src/provider.rs:910-925 | The streamed comparison answers as comparing the whole reply would. |
| ConflictEngine.WriteContext.SettleFalseConflict | crates/wusel-core/src/provider.rs:860-904 | The statements compute the settlement `SettleListens`, `OwnBytesAreNeverCopied` and `SettleKeeps` speak of, for every plan, lost answers included. |
| ConflictEngine.WriteContext.RunTextMerge | crates/wusel-core/src/provider.rs:938-971 | Computes the merge and the precondition that names what it merged with. |
| ConflictEngine.WriteContext.RunConflictResolution | crates/wusel-core/src/provider.rs:757-841 | The loop over copy names and everything before it computes the resolution the theorems speak of. |
| ReadWindow.AdvancedIsExact | crates/wusel-core/src/content.rs:361-383 | Serving the next slice keeps buffer and spill exact pieces of the version, lengthens the run by what was served and by nothing else, stamps the window, and keeps the spill iff the disk took the slice. |
| ReadWindow.BufferedIsExact | crates/wusel-core/src/content.rs:350-358 | The buffer answers exactly from the positions it covers, with the exact range asked for up to where it ends. |
| ReadWindow.ReadGetsOn | crates/wusel-core/src/content.rs:699-730 | Every read of a sequential pass is given all it asks for or what is left of the buffer, and a request it makes was still owed under the bound. |
| ReadCache.Drop | crates/wusel-core/src/content.rs:398-419 | When a window goes its spill goes too, and no spill is left without a window. |
| ReadCache.Add | crates/wusel-core/src/content.rs:680-696 | A fresh window's spill is nobody else's. |
| ReadCache.Change | crates/wusel-core/src/content.rs:361-383 | A reader's change to its window leaves every other window and spill sound. |
| ReadCache.TrimReadahead | crates/wusel-core/src/content.rs:815-838 | Buffers go oldest first until the rest fits, the last one dropped still had to go, and nothing but buffers changes. |
| ReadSource.CachingSource.TakeOut | crates/wusel-core/src/content.rs:671-698 | A read gets the file's window iff it continues that window's run of that version, else a fresh one in the place of the old. |
| ReadSource.CachingSource.KeepWindow | crates/wusel-core/src/content.rs:792-809 | At most one other window goes, only at the cap and only a least recently used one. |
| ReadSource.CachingSource.PublishWindow | crates/wusel-core/src/content.rs:763-785 | A blob published from a window holds the complete content of the ETag beside it. |
| ReadSource.CachingSource.Serve | crates/wusel-core/src/content.rs:699-740 | With the window in hand, what is served is what the buffer has there, without a request, or what one request came to, for a whole chunk iff 256 KiB were read in this run; from a source that answers in full it is all that was asked for; every window, spill and blob stays sound, and the window served is afterwards the last used of all, unless that was the end of the file. |
| ReadSource.CachingSource.ReadWindowed | crates/wusel-core/src/content.rs:664-759 | The same with any number of other readers, publishers and evictions between taking the window that the read continues and using it. |
| ReadSource.CachingSource.Read | crates/wusel-core/src/content.rs:1098-1141 | An empty range is answered at once; a blob of the row's version answers in full, without a request or any change, exactly if it has not vanished since it was found fresh; a large range or a row without a key makes the one request that is its answer; everything else is read by the window the read continues. What does not fail is a part of the exact range, not empty from a source whose answers are not, and all of it, up to the end of a buffer, from a source that answers in full. |
| ReadSource.CachingSource.SequentialPass | crates/wusel-core/src/content.rs:699-759 | A cold pass with steps below the chunk size, beside any windows and readers of other files that have nothing buffered, terminates, publishes the file, and makes at most ceil(256 KiB / step) + ceil((size - 256 KiB) / 8 MiB) requests; of all other windows and spills only those of one least recently used window can go, and only at the cap. |
| ReadSource.SpillIsTheNamedVersionExactly | crates/wusel-core/src/content.rs:361-391 | For every run of served slices, each of whatever version the server had then: once complete, its spill is the version the row names iff each of those versions agrees with it on the range it was asked for. |
| ReadSource.UnmovedServerIsSpilledExactly | crates/wusel-core/src/content.rs:763-771 | If the server's ETag was still the row's at the last request, the spill is that version. |
| ReadSource.MovedServerIsSpilledMixed | crates/wusel-core/src/content.rs:361-391 | A concrete run that ends with half of either version under the ETag of the first. |
| Publish.PublishersOfOneContentAreSafe | crates/wusel-core/src/content.rs:1364-1381 | However publishers of one content and any evictions interleave and wherever they stop, a blob that reads as fresh for an ETag holds that version. |
| Publish.AlonePublishesExactly | crates/wusel-core/src/content.rs:1364-1369 | A publisher that nobody disturbs leaves nothing fresh at any of its steps and in the end exactly its own version, on every disk. |
| Publish.AloneEvicts | crates/wusel-core/src/content.rs:1374-1381 | An eviction takes the blob first, so that nothing is fresh from then on, and leaves neither blob nor sidecar. |
| Publish.OneAfterAnotherIsSafe | crates/wusel-core/src/content.rs:1355-1369 | Whatever state one publisher left or crashed in, and however far the evictions beside it have come, the next finds a safe one. |
| Publish.TwoPublishersAreSafeExactly | crates/wusel-core/src/content.rs:1364-1369 | Two publishers side by side are safe in all runs iff they publish the same bytes. |
| Publish.EmptySidecarMatchesNoVersionExactly | crates/wusel-core/src/content.rs:861-866 | At every moment a publisher can stop, the blob a row finds fresh is its version, iff the row's ETag is not empty or means the published bytes. |
| Publish.CheckedBlobIsReadExactly | crates/wusel-core/src/content.rs:1104-1133 | A blob found fresh and read later is the row's version iff no other content was renamed in between. |
| Evict.Overflow | crates/wusel-core/src/content.rs:940-953 | The running total is always the sum of what remains, and the victims are no more than needed. |
| Evict.BlobDir.Evict | crates/wusel-core/src/content.rs:903-957 | In terms of the files: nothing pinned and nothing but blobs is touched; of the other blobs none unused for longer than the limit is left, and the sizes of those left fit the budget; whatever is gone was past the limit, or no blob left is older and the youngest gone did not fit any more; the ids returned are those of what is gone. |
| Evict.OnlyUnpinnedBlobsCount | crates/wusel-core/src/content.rs:914-926 | The size held against the budget is that of the blobs that are not pinned, and of nothing else. |
| PinMap.BelowIsLongerExactly | crates/wusel-core/src/pins.rs:79-93 | Lying below in slash strings is having a longer list of components. |
| PinMap.Covers | crates/wusel-core/src/pins.rs:79-93 | Asking the path's own prefixes decides component-wise coverage: itself, a directory pin above, or the root pin. |
| PinMap.PinTable.RenameIn | crates/wusel-core/src/pins.rs:112-131 | Every pin at or below the old path is at the new one, the others where they were. |
| PinMap.PinTable.RemoveUnder | crates/wusel-core/src/pins.rs:217-231 | Exactly the pins at or below the path go, all of them for the root, and their number is returned. |
| PinMap.RenameCarriesCoverage | crates/wusel-core/src/pins.rs:105-131 | Coverage given by pins at or below the old path is carried to the new one, and exactly that where the new place was vacant; renaming the root changes nothing. |
| PinMap.RenameLeavesTheRest | crates/wusel-core/src/pins.rs:112-131 | Any other pin stays unless a moved one takes its place. |
| PinMap.RenameBackRestoresExactly | crates/wusel-core/src/pins.rs:112-131 | Renaming back restores the map iff every pin at or below the new path was also at or below the old; with the root as one of the two, iff there was no pin at or below the other. |
| PinFile.EveryRunKeeps | crates/wusel-core/src/pins.rs:291-333 | While no lock outlives the limit: one holder at a time, and every version of the file is the one before it with one change made. |
| PinFile.NothingIsLostExactly | crates/wusel-core/src/pins.rs:393-445 | No run loses a change iff no lock that is looked at may be older than the limit at which it counts as abandoned. |
| PinFile.EveryChangeIsMadeOnce | crates/wusel-core/src/pins.rs:291-333 | In every run, stale locks included: a change reported as done was made in exactly one version, one that was refused in none, and every version is some earlier one so changed. |
| PinFile.TakeOverRemovesAFreshLock | crates/wusel-core/src/pins.rs:409-417 | Two processes that found a lock stale both end up holding it. |
| PinFile.AnswersAreNeverOld | crates/wusel-core/src/pins.rs:270-287 | With unique stamps a cached question is answered from contents no older than its own start. |
| Health.Reachability.Ok | crates/wusel-core/src/health.rs:188-224 | A success ends the outage and sends exactly the messages the step function says. |
| Health.Reachability.Failed | crates/wusel-core/src/health.rs:229-291 | A failure starts, confirms or announces the outage exactly as the step function says. |
| Health.StateTells | crates/wusel-core/src/health.rs:188-291 | After every run: down iff a failure counted and nothing was reached since, marked iff a later one confirmed it, announced iff one did so outside the quiet time. |
| Health.FirstFailureIsTheFirst | crates/wusel-core/src/health.rs:246-252 | The outage's clock runs from the first failure that counts after the last success. |
| Health.FaultIsTheLatest | crates/wusel-core/src/health.rs:229-240 | There is a fault to name exactly during an outage, and it is that of its latest failure. |
| Health.ProblemFollowsFailures | crates/wusel-core/src/health.rs:253-275 | A problem is announced only for failures that lasted `confirm_after` with nothing reached in between. |
| Health.ProblemIsConfirmed | crates/wusel-core/src/health.rs:255-268 | And at least `quiet_after_restore` after every announced recovery. |
| Health.LongOutageIsTold | crates/wusel-core/src/health.rs:82-89 | A long outage is never lost, a short one in the quiet time never announced; announced implies marked implies down. |
| Health.MessagesAlternate | crates/wusel-core/src/health.rs:188-291 | Notices alternate problem and restored, statuses error and idle, each beginning with the bad news. |
| NetQueue.NetQueue.Pop | crates/wusel-core/src/runtime.rs:1108-1124 | Computes the next job of the runs: the head of the interactive tier, else of the other, else the end of the stream once closed. |
| NetQueue.NetQueue.Send | crates/wusel-core/src/runtime.rs:1220-1237 | Computes what sending does in the runs: the job goes to the back of its tier, unless the queue is closed. |
| NetQueue.NetQueue.Close | crates/wusel-core/src/runtime.rs:1240-1253 | What is queued is discarded. |
| NetQueue.Scheduler.Refresh | crates/wusel-core/src/runtime.rs:1430-1457 | A refresh starts exactly if the object is idle and not being refreshed and fewer than 64 wait; then one job joins the back of the background tier and the object is marked, otherwise nothing changes; the run goes on by it. |
| NetQueue.RefreshStartsExactly | crates/wusel-core/src/runtime.rs:1430-1457 | After every run, a request for a refresh adds exactly one job and one mark iff the object is idle and unmarked, the backlog has room and the decider is there, and otherwise leaves the state alone. |
| NetQueue.BusyObjectsAreNotRefreshed | crates/wusel-core/src/runtime.rs:1432-1439 | Requests for a refresh of an object with real work running leave no trace in any run. |
| NetQueue.Scheduler.TakeJob | crates/wusel-core/src/runtime.rs:1524-1530 | The run goes on by a worker taking the next job; a background job only after everything interactive ever sent was taken. |
| NetQueue.Scheduler.FinishJob | crates/wusel-core/src/runtime.rs:1531-1554 | The run goes on by the end of a job, which is reported iff it was a refresh. |
| NetQueue.Scheduler.Refreshed | crates/wusel-core/src/runtime.rs:1339-1342 | The run goes on by hearing of a refresh; its object was marked and is no longer. |
| NetQueue.OneRefreshAtATime | crates/wusel-core/src/runtime.rs:1311-1314 | After every run an object is marked as refreshing iff one more refresh of it was started than heard of, and exactly that one is queued, running or reporting back. |
| NetQueue.FirstInFirstOut | crates/wusel-core/src/runtime.rs:1097-1134 | After every run the jobs a tier has handed out are the first of those sent to it, in order and once each, and until the decider goes the others wait. |
| NetQueue.NobodyWaitsForBackgroundWork | crates/wusel-core/src/runtime.rs:1108-1119 | Whenever background work is taken in a run, everything interactive sent before was taken before. |

## Left out

- MirrorSync.WalkDir: rows do not change beside this walk; `MirrorBeside` has walks with reloads in between, by their moves and beside an idle machine; commits of flows, which keep a walk from being remembered, are events between walks in `MirrorProbe`, and beside single listings in `Listings`.
- MirrorProbe.EveryEventKeepsTheVouch: a reload whose directory has lost its row by the time it is applied, which leaves rows nothing leads to, is not an event; a commit is one of a flow that changed the server; rows that exist only locally are not compared with the server anyway.
- MirrorRows.MergePointwise: every line of a listing has a file id (`state.rs` stores an optional one, and a line without it makes a row that counts as local from then on); sizes, times, permissions and group flags of a row follow its ETag and are not separate fields, and the inode of a new row is any function of its path.
- ListingTheorems.AppliedListingIsHarmlessExactly: no flow is given up between its server step and its commit (`ListingRepair` says what becomes of those); a server that moves a file keeps its entry as it was, and only the directory's own renames and removals run; the general results allow uploads and other clients.
- ListingRuns.EveryRunKeeps: one directory; a listing of a directory above it that drops the whole subtree, a creation, and the target directory of a rename across directories are not steps, and the questions about single children during one reconcile are asked at one moment.
- Activity.Activity.SetBusy: the count is unbounded, the source's 64-bit counter is not.
- ConflictTheorems.ResolveKeeps: the text merge is any partial function of base, ours and theirs, which stands for its checks of UTF-8 too; the local scratch file does not change meanwhile.
- ConflictExact.MoveOverwrites: sending the chunks is one request, which touches nothing but the upload collection.
- ReadSource.CachingSource.Read: the source answers for the version the row names; the live source asks without naming one, so a row that lags behind the server can be served bytes of a newer version (what then becomes of a spill is `SpillIsTheNamedVersionExactly`). Between finding a blob fresh and reading it, eviction may come here, and a publisher as well in `Publish`; that a read marks the blob as recently used is left to `Evict`, as any time of use.
- ReadSource.CachingSource.PublishWindow: for a source that answers for the version the row names, as with `Read`; for any other, `SpillIsTheNamedVersionExactly` says what is published.
- ReadSource.CachingSource.Serve: the same source as with `Read`.
- ReadSource.CachingSource.SequentialPass: the source answers in full, the disk takes what is written, and no other reader runs in between.
- ReadSource.CachingSource.ReadWindowed: the tally of bytes that requests a hydration, the hydrator and its thread, and pinning's own download.
- Publish.TwoPublishersAreSafeExactly: both ETags have the same length, so that writing one over the other leaves no tail.
- A reader's window is a value that moves from owner to owner, and publishing, evicting and the pins file are step functions: update in place and aliasing inside one of their steps are not modelled.
- The fall-back to an outdated copy when the server cannot be reached, which returns old bytes by design.
- PinFile.AnswersAreNeverOld: the file's modification time and size are one stamp, taken to be unique to each version.
- PinFile.EveryRunKeeps: encoding and version of the file, and taking pins over from an older database.
- Health.Reachability.Failed: which errors count as the server's or the network's is the caller's; the two flags read without the lock are read with it.
- NetQueue.NetQueue.Pop: waiting on the condition variable; the other pools, which are plain channels.
- The machine's scripts, collision policy and answers to callers, apart from what it reports busy.
- HTTP, TLS, XML, SQLite, threads and real files: a server map, a row map, named files and atomic steps stand for them.
- Login, credentials, configuration, search, push, diagnostics, desktop messages and the platform frontends: plumbing that would only add easy members.
