# Gib Sync: verified models of the sync engine

Gib Sync keeps a notes vault the same on several devices. It must survive a
crash after any step, an editor that writes while it works, and a network that
repeats or drops requests. This project models the parts on which that depends
and proves what they promise.

| part | modules |
|---|---|
| the planner that turns a server tree and a desired manifest into an ordered batch of operations | `Paths`, `OperationModel`, `PlanWork`, `FolderPlan`, `FolderTurns`, `FileMatching`, `FileRuns`, `FileMoves`, `FileCycles`, `FileMoveLoop`, `FileEdits`, `FilePlan`, `Namespace`, `Making`, `BatchFacts`, `BatchPlan`, `LandingExample`, `StrayExample`, `TurnsExample` |
| applying an accepted snapshot to the vault, with rollback and resume | `Environment`, `Ledger`, `FileApply` |
| the switch of a whole plugin package | `AtomicPackage`, `PackageRecords` |
| resumable uploads, on the server and on the client | `ContentUpload`, `UploadRequests`, `UploadRuns`, `OutboundStream`, `DiskReservation` |
| files following a folder plan | `FolderReconciliation` |
| write-ahead record, change journal, settings recovery, content index | `SequencedRecords`, `OperationJournal`, `IntentJournal`, `RuntimeSettings`, `VaultInventory` |
| the receipt of an interrupted commit | `PendingCommit` |
| the order of versions | `Versions` |

`dafny verify dfyconfig.toml` checks everything.

## How the parts are modelled

**Planner.** `OperationModel.Apply` and `Run` interpret a batch the way the
planner simulates it on its own working arrays. A path is a sequence of
segments. An identity is given or the k-th value of the uuid source, and a
scratch name holds such an identity, so freshness is a number. The planner
methods carry the working arrays as a value, because the source itself treats
them as one state that each helper rewrites; every method is proved against
`Run` of the batch it has emitted so far.

**Protocols that crash.** Objects with state are classes. A step that touches
the disk may succeed, throw or be cut off; the methods return which, and their
postconditions hold in every case, so they are statements about every crash
point. Where others may write at the same time, a method of the class makes
their writes between the steps. What the editor does at each instant and how
each call of the adapter ends is a script that the object is given and cannot
change (`Environment`), so a contract can say what happens when the editor
keeps still, or when every call succeeds. The account kept for the editor
(`Ledger`) may change by four acts only: his next instant, a rename that takes
the file out of his reach, a copy onto a vacant path, and the engine taking what
is there for his. That a method is honest means that such acts lead from the
old account, files included, to the new one; that nothing is lost then is a
theorem about the acts.

**Protocols of several processes.** The upload is a state machine over
database statements and file operations, among them losses of power that take
what was not synced; a run is any sequence of steps. A request that meets
nobody else is such a run (`UploadRequests`). A hash is injective.

## Where the code does less than it might seem

The proofs turned up conditions under which a promise fails. Each is stated as
an exact condition, or as a counterexample beside the theorem it limits.

* The relocation loop takes 3n + 1 turns. Eight folders, well-formed before and
  after, need 26, and the planner throws (`TurnsExample.PlannerThrows`).
  Folders that neither stand nor land in each other's way need at most two
  turns each (`FolderTurns.SeparateSettles`).
* A folder may be moved onto a path under which another folder was moved
  before; then two folders share a path until a later move parts them
  (`LandingExample.TwoFoldersOnePath`). Paths stay distinct exactly when every
  move lands clear (`BatchFacts.DistinctThroughoutIff`).
* A replaced folder is removed while files are still under it exactly when an
  unidentified file lies there, or an entry under it carries the identity of a
  file still in the tree, as the target of a recorded creation may
  (`BatchPlan.ClearableIff`, `StrayExample.StrayFile`).
* An unfinished copy of the engine passes for an edit of the user when the
  copy was recorded under an absent prior although the accepted prior was a
  file, or when a rollback of the same resume was cut short by an error and
  left bytes (`FileApply.PathApply.Resume`, `FileApply.UnfinishedCopyPassesForEdit`).
* The upload's database and staging file agree at every point of a run exactly
  when every step finds the row as its request last saw it, spares what is
  acknowledged, and acknowledges only what is in the file and synced
  (`ContentUpload.FileAlwaysIff`). A truncation or a write that outlives its
  lease can break that, also without meeting an acknowledged byte itself
  (`UploadRuns.LateTruncation`, `UploadRuns.LateWrite`). Two requests of one
  process share the owner of the lease, so a stalled one can drop a receipt the
  other builds on (`UploadRuns.SharedOwner`), but not when no lease runs out
  under a request of its own process (`ContentUpload.OutlastingIsSolo`).
* Free space is read before the reservations are summed; a chunk acknowledged
  in between is counted by neither (`DiskReservation.StaleReading`).
* An unmoved folder inside a moved one does not shield its files from the
  move (`FolderReconciliation.DeepestDecidesIff`).
* Two overlapping inspections of one path can leave a stale entry that is not
  marked dirty (`VaultInventory.LostMark`), exactly when the entry stored
  meanwhile is dirty again (`VaultInventory.Inventory.FinishMissing`).
* A flush beside a recording can list an event twice, and the highest number
  of a snapshot covers an event it does not hold exactly when an intent still
  pending has a lower number (`IntentJournal.Journal.End`,
  `IntentJournal.Journal.Freeze`).
* After a restart the journal numbers changes from what the disk still holds,
  while a saved batch keeps its number; a change recorded then is dropped with
  the batch exactly when that number reaches the one after the highest on disk
  (`IntentJournal.RecordAfterRestart`, `IntentJournal.FirstChangeForgotten`).
* Where `rename` replaces its destination, an attempt that finds the runtime
  settings aside without knowing it overwrites them exactly when the expected
  bytes are back in place (`RuntimeSettings.Settings.Restore`,
  `RuntimeSettings.LostSettings`).
* Versions with leading zeros in numeric identifiers are not transitively
  ordered (`Versions.LeadingZerosBreakOrder`).

## Model

| member | source | states |
|---|---|---|
| BatchPlan.BuildOperationBatch | plugin/src/operation-plan.ts:5-41 | Whenever a batch is returned, running it leaves exactly the desired files with their path, content and assigned identity beside the files without identity, and exactly the wanted folders. An entry keeps the file of its own identity, or without one the only file at its path unless a creation is recorded there, and no operation deletes that file; what is under a replaced folder is new. A folder has the identity wished for its path, or else that of its recorded creation, and stays where neither says otherwise. Folders stand where they are wished, or without wishes where the renames carry them. Every operation names a live entity at its live revision; deletes name a tree file at its tree revision that no entry keeps; operation names and drawn identities are never used twice; the safety conditions hold in the exact form of `SafeExactlyWhen`. When the folders can be moved and no path occurs twice, a batch is returned exactly when every claimed file has an identity and a revision, no two entries claim the same one, and every identified file has a revision |
| BatchPlan.AsAskedHolds | plugin/src/operation-plan.ts:11-40 | The identities of files and folders, the destinations and the wanted folders of a returned batch are what entries, wishes, renames, recorded creations and preserved folders ask for, each said in those terms |
| BatchPlan.WhereAskedHolds | plugin/src/operation-plan.ts:11-12 | A settled folder stands at the last path wished for it; without wishes there is a trail from its tree path to where it stands, each rename carrying the folder itself and what is inside it and nothing else |
| BatchPlan.NamedHolds | plugin/src/operation-plan.ts:28-39 | A live folder has the last identity wished for its path, or else that of the creation recorded there; inside a replaced folder it is new |
| BatchPlan.UndisputedStays | plugin/src/operation-plan.ts:28-38 | A folder alone at a wanted path, outside replaced ones, stays unless a wish or a recorded creation names another |
| BatchPlan.FileHolds | plugin/src/operation-plan.ts:32-35 | Which identity an entry ends with: its own where the tree has it, that of the file alone at its path, that of the recorded creation, its own again or a fresh one |
| BatchPlan.WantedHolds | plugin/src/operation-plan.ts:27-28 | A folder is wanted exactly when it was asked for, holds one that was or an entry, or stands where a preserved folder is now |
| BatchPlan.SparedHolds | plugin/src/operation-plan.ts:13-26 | Settling loses nothing but what stood in the way of a moving folder: no file that an entry names or that has no identity, no folder that is wished for or preserved; and nothing is invented |
| BatchPlan.FulfilledHolds | plugin/src/operation-plan.ts:33-40 | Kept files plus made files are the desired files, one for one, counted and in both directions |
| BatchPlan.ClearableIff | plugin/src/operation-plan.ts:29-38 | With a parent-closed wanted set, each folder that goes is clear of files and staying folders exactly when no unidentified file lies under one and no entry under a replaced folder carries the identity of a tree file |
| BatchPlan.SafetyHolds | plugin/src/operation-plan.ts:36-40 | For the finished batch: removals meet empty folders iff nothing strays; everything is made inside a live folder iff no missing folder has an unwanted parent; file moves meet nobody when folder moves land clear |
| BatchPlan.DeletesHold | plugin/src/operation-plan.ts:16-35 | Every delete of the whole batch names a file of the tree at the tree's revision, and no entry keeps that file |
| BatchPlan.FreshApart | plugin/src/operation-plan.ts:32-34 | Identities drawn for renewed entries and for new files are pairwise different |
| BatchPlan.RewriteEntries | plugin/src/operation-plan.ts:32 | Entries under a replaced folder, and only they, take the recorded creation's identity or a new one; new ones are pairwise different |
| BatchPlan.CollectWanted | plugin/src/operation-plan.ts:27-28 | The wanted folders are those asked for, all proper ancestors of entries and folders, and the preserved ones |
| BatchPlan.SettleFolders | plugin/src/operation-plan.ts:11-26 | The working arrays equal the run so far, each folder with a destination stands on it, and of the tree nothing is gone but what stood in the way, unwanted; where nothing is retired the result is that of the relocation loop, and folders out of each other's way always settle |
| StrayExample.StrayFile | plugin/src/operation-plan.ts:29-38 | A tree and a request for which the planner succeeds and removes a replaced folder while a file is in it |
| OperationModel.DropFileMembers | plugin/src/operation-plan.ts:16-20 | Deleting an identity removes exactly the files that carry it |
| OperationModel.AppliedIs | apps/server/src/operation-state.ts:69-98 | What each operation does, place by place: a folder move takes everything below it along and nothing else, a removal takes the one entity, a change changes the one file, and what is made is new at the end |
| PlanWork.RelocateConsistent | plugin/src/operation-plan.ts:24 | A relocation to a vacant path keeps working arrays and replayed batch equal, identities distinct and every removal on record |
| PlanWork.RelocateLawful | plugin/src/operation-plan.ts:24 | The emitted move-folder pins exactly the files and folders under the moved folder at their live revisions, and rewriting the arrays is what applying it does |
| PlanWork.MoveFolderDistinctIff | plugin/src/operation-plan.ts:24 | On distinct paths a lawful folder move keeps them distinct exactly when what it moves lands on nothing that stays |
| PlanWork.EmptyDestinationClears | plugin/src/operation-plan.ts:24-25 | If nothing outside the moved subtree lies under the destination the landing is clear |
| PlanWork.DeleteFileConsistent | plugin/src/operation-plan.ts:16-20 | Emitting a delete and splicing the file out keep arrays, replay and removal record in agreement |
| PlanWork.RemoveFolderConsistent | plugin/src/operation-plan.ts:21 | The same for the rmdir of an empty folder |
| PlanWork.EditsDrawn | plugin/src/operation-plan.ts:34-37 | Edits named during matching and pushed after the moves still have names of their own |
| FolderPlan.Retire | plugin/src/operation-plan.ts:14-23 | Only files and folders nobody wants go, and only from destinations of displaced folders or from under them; with distinct paths, afterwards no unwanted file stands on the destination of a displaced folder, and a folder stands there only if something at or under it is wanted; nothing goes when all that stands on destinations is wanted |
| FolderPlan.RetireSubtree | plugin/src/operation-plan.ts:17-22 | A retired folder goes with all it holds, deepest first, or not at all |
| FolderPlan.RelocateAll | plugin/src/operation-plan.ts:24-26 | The loop returns what 3n + 1 turns make of the arrays; past it every folder with a destination is at it, all entities are conserved and only folder moves were emitted, each lawful when it is made |
| FolderPlan.Choose | plugin/src/operation-plan.ts:25 | Nothing is chosen exactly when no folder is displaced; a direct move goes to a path no other folder and no file holds; a folder steps aside only when none can go, and only one that waits for another displaced one |
| FolderPlan.NothingUnderNext | plugin/src/operation-plan.ts:21 | Longest path first: when a retired folder's turn comes nothing is left under it |
| FolderTurns.SeparateSettles | plugin/src/operation-plan.ts:24-26 | Folders that neither stand nor land in each other's way are relocated without a throw, at two moves each at the most, whatever cycles they form |
| FolderTurns.AllWaiting | plugin/src/operation-plan.ts:25 | When no folder can go each waits for another one, and none of them is on a scratch name |
| FolderTurns.GoesFirst | plugin/src/operation-plan.ts:25 | Of the displaced folders whose destination is free the shallowest goes, the first in the list of those |
| TurnsExample.TurnsRunOut | plugin/src/operation-plan.ts:25-26 | After the 25 turns there are for eight folders one is still displaced, and a 26th would settle it |
| TurnsExample.PlannerThrows | plugin/src/operation-plan.ts:5-26 | On that well-formed tree and request the planner throws |
| LandingExample.TwoFoldersOnePath | plugin/src/operation-plan.ts:24-25 | Three folders for which the loop's own choices leave two of them on one path half-way |
| FileMatching.Match | plugin/src/operation-plan.ts:33-34 | The loop returns exactly when every claimed file has an identity and a revision and no two entries claim the same one; then exactly the entries that claim a file keep it, at its tree revision, and the moves, edits and creations are those the decisions call for |
| FileMatching.PushMatched | plugin/src/operation-plan.ts:34 | One turn of the loop keeps all of that |
| FileMatching.PushNames | plugin/src/operation-plan.ts:34 | One turn gives the edit, and the new file nobody has named, a uuid that no other has |
| FileRuns.DeleteUnused | plugin/src/operation-plan.ts:35 | After the loop the run holds exactly the files without identity and the claimed ones; it throws exactly when an unclaimed file has no revision |
| FileRuns.DeleteInPlaceStep | plugin/src/operation-plan.ts:35 | One delete keeps the run equal to the kept part plus the part not yet visited |
| FileMoves.FollowChain | plugin/src/operation-plan.ts:36 | The walk ends at a free destination or at an identity it has seen, and throws only when a file that does not move is in the way |
| FileMoves.Resolve | plugin/src/operation-plan.ts:36 | Resolving a chain from its end puts every item on its destination, one move each, and never throws or lands on a file when its end is free and destinations differ |
| FileMoves.OccupiedInverse | plugin/src/operation-plan.ts:36 | The occupied map is the inverse of the positions of the claimed files when those are distinct |
| FileMoves.MoveInverse | plugin/src/operation-plan.ts:36 | A move to a free path keeps the map an inverse, hence injective |
| FileCycles.ChainFacts | plugin/src/operation-plan.ts:36 | A walk over pending files is a chain of the initial positions; if it repeats, it repeats its start and is a cycle |
| FileCycles.ChainOnCycle | plugin/src/operation-plan.ts:36 | A chain that meets a cycle lies wholly on it |
| FileCycles.CloseCycle | plugin/src/operation-plan.ts:36 | Resolving one cycle with one scratch name settles it and touches no other cycle |
| FileCycles.NeverWalled | plugin/src/operation-plan.ts:36 | With distinct positions and goals the first throw of the loop is unreachable |
| FileMoveLoop.MoveAll | plugin/src/operation-plan.ts:36 | Every claimed file ends at its entry path and nothing else changes; with distinct positions and goals no throw is reachable, no move meets a file, and each cycle costs exactly one scratch move and nothing but cycles costs one |
| FileEdits.EditedContent | plugin/src/operation-plan.ts:34-37 | A file no entry keeps is not edited; a kept file ends with its entry's content |
| FileEdits.ReviseAll | plugin/src/operation-plan.ts:37 | The edits are emitted lawfully and in order, and the run is the moved files with every revision applied |
| FileEdits.MatchedGoals | plugin/src/operation-plan.ts:34-36 | The moves collected while matching are exactly the kept files that stand elsewhere, one each, towards the path of their entry |
| FilePlan.SettleFiles | plugin/src/operation-plan.ts:33-37 | From settled folders to settled files: the untouchable files, each kept file as its entry wants it, and nothing else; with files and entries apart no move meets a file, and it throws exactly when claims clash or a revision is missing |
| FilePlan.KeptAsWantedHolds | plugin/src/operation-plan.ts:33-37 | Files moved home and edited are the kept files as wanted, with an exact count |
| Namespace.CollectParents | plugin/src/operation-plan.ts:27 | The nested loops collect exactly the non-empty prefixes |
| Namespace.WantedClosedIff | plugin/src/operation-plan.ts:27-28 | The wanted set is parent-closed exactly when the preserved folders bring no parent of their own |
| Namespace.EmptiedIff | plugin/src/operation-plan.ts:38 | Deepest first: a removed folder is empty exactly when no file and no staying folder lies under it |
| Namespace.RemoveUnwanted | plugin/src/operation-plan.ts:38 | Exactly the unwanted folders and those at or under a replaced one go; no folder goes before its content iff all of them are clear |
| Namespace.ClosedClearable | plugin/src/operation-plan.ts:27-38 | With a parent-closed wanted set only a file can be in the way |
| Making.MakeFolders | plugin/src/operation-plan.ts:39 | Afterwards exactly the wanted folders are live, new ones with their rightful identity; each is made inside a live folder iff no missing one has an unwanted parent |
| Making.MakeFiles | plugin/src/operation-plan.ts:40 | The new files are appended with path, content and identity, each inside a live folder |
| Making.TracedStep | plugin/src/operation-plan.ts:39-40 | An operation names a removal exactly when the batch emptied its path before, and the one it names is the last that did, as the server asks of a proof of deletion |
| Making.ParentLiveIff | plugin/src/operation-plan.ts:39 | Shallowest first: the parent of the next missing folder is live exactly when it is wanted |
| BatchFacts.DistinctThroughoutIff | plugin/src/operation-plan.ts:11-26 | Over a batch of removals and folder moves paths are distinct at every step exactly when every folder move lands clear |
| BatchFacts.DeletesFromTree | plugin/src/operation-plan.ts:16-35 | Every delete names a tree file at its tree revision, and that file is gone when the making starts |
| BatchFacts.DeletedStaysAway | plugin/src/operation-plan.ts:16-35 | What is deleted does not come back until something is made |
| FileApply.PathApply.Resume | plugin/src/engine.ts:1089-1112 | Whatever is interrupted and whatever the editor writes meanwhile, only honest acts lead from the old account to the new; a path that ends is at its target, or holds the very bytes found there, neither target nor prior, with a reconcile base; only the accepted prior is moved away; while the editor keeps still an unfinished copy is taken for an edit exactly in the two cases named; undisturbed it ends, and with the outcome foretold, exactly unless a journal is torn, a foreign backup stands in the way or an announced part does |
| FileApply.PathApply.ResumableIs | plugin/src/engine.ts:949-1112 | The two decisions of a resume, one after the other, hold it up exactly in the cases spelled out in `Resumable`, and keep an edit exactly when what is at the path is neither target nor prior |
| FileApply.PathApply.RecoverBoundary | plugin/src/engine.ts:949-957 | Leaves no unfinished copy behind unless its own rollback was cut short or the journal consulted is not that of the copy; undisturbed it passes exactly when that journal is whole and the judgement is not to hold |
| FileApply.PathApply.ReplaceFile | plugin/src/engine.ts:904-922 | On success the target is at the path, the accepted prior in the backup, and nothing else was moved away; on any failure all acts were honest; undisturbed it succeeds exactly when the path holds the prior, its journal is whole and no foreign backup is there; a failed replacement nobody disturbs, with one call gone wrong, leaves the path as it was or with what has arrived of the target; where the path does not hold the prior nothing at all is touched |
| FileApply.PathApply.ApplyVerifiedStage | plugin/src/engine.ts:924-936 | The same for backup, copy and verification of a checked stage, but for the journal; broken off, the path is as it was, vacant beside the backup, or holds what has arrived; bytes other than the prior are never moved aside |
| FileApply.PathApply.SetAside | plugin/src/engine.ts:924-936 | On success the path is vacant and the backup holds exactly the expected prior; undisturbed it succeeds exactly when the prior is there and no foreign backup is |
| FileApply.PathApply.PromoteStage | plugin/src/engine.ts:924-936 | The stage arrives whole at the vacant path, and no backup changes; undisturbed it succeeds exactly when the path is vacant |
| FileApply.PathApply.RetireFile | plugin/src/engine.ts:941-945 | On success the path is vacant, the accepted prior is in the backup, and nothing else was moved away; undisturbed it succeeds exactly when the prior is there and no foreign backup is; other bytes are never moved aside |
| FileApply.PathApply.DeleteFile | plugin/src/engine.ts:938-947 | On success the path is vacant, the accepted prior is in the backup, and nothing else was moved away; undisturbed it succeeds exactly when the prior is there, its journal is whole and no foreign backup is there; a failed delete nobody disturbs, with one call gone wrong, leaves the path as it was; where the path does not hold the prior nothing at all is touched |
| FileApply.PathApply.Undo | plugin/src/engine.ts:911-946 | What a throw sets off: when no second call fails a vacant path is refilled from its backup, and anything else at the path stays |
| FileApply.PathApply.RollBack | plugin/src/engine.ts:898-902 | Keeps every backup and fills a vacant path from it, undisturbed always; tells when an error left part of the copy and the rollback still counts as done |
| FileApply.PathApply.CopyToPath | plugin/src/engine.ts:898-902 | An occupied path is left as it is; onto a vacant one the source arrives whole or in part, under a journal that announces it; exactly a part that is neither source, target nor prior counts as an unfinished copy |
| FileApply.PathApply.Archive | plugin/src/engine.ts:969-973 | A verified backup moves to its recovery name, and no saved byte is given up |
| FileApply.PathApply.Finish | plugin/src/engine.ts:959-967 | A finished operation leaves no backup, no journal and no stage of the target, and every backup is archived; when every call succeeds it ends exactly without a foreign backup |
| FileApply.PathApply.OperationFor | plugin/src/engine.ts:857-863 | Recording an operation changes no backup |
| FileApply.PathApply.LoadOperation | plugin/src/engine.ts:871-884 | A torn journal holds the path; otherwise the recorded phase is found |
| FileApply.PathApply.AssertLocalUnchanged | plugin/src/engine.ts:846-855 | Success means the expected bytes are at the path |
| FileApply.KeptAsEditIff | plugin/src/engine.ts:949-957 | Bytes that are neither target nor prior are kept as an edit exactly when the journal consulted does not say a copy was under way |
| FileApply.UnfinishedCopyPassesForEdit | plugin/src/engine.ts:1089-1112 | A run of the steps of a resume, a crash in its copy and the next resume: the part is adopted as an edit |
| FileApply.ResumePendingApplication | plugin/src/engine.ts:1086-1129 | Interrupted anywhere, nothing owed to the user and nothing he writes meanwhile is lost but what he does away with by a later write; the checkpoint advances only once every pending path was settled, and each then holds its target or the preserved edit under nothing but what he has written since; undisturbed it advances exactly when every path can be resumed and the settings are saved; no operation is then left to finish |
| FileApply.ResumeRepeatedly | plugin/src/engine.ts:1086-1129 | The same losses and the same settling over any number of interrupted resumes and restarts |
| FileApply.SettledInPeace | plugin/src/engine.ts:1086-1129 | A settled path the editor has left alone holds its target or his edit, still owed to him |
| Ledger.HonestLosesNothing | plugin/src/engine.ts:846-973 | Where only honest acts happen, what was owed, and each thing the editor wrote since, is at the path or saved, unless a later write of his did away with it or a move overwrote it |
| Ledger.QuietLosesNothing | plugin/src/engine.ts:846-973 | Between any two moments without a write of the editor nothing owed leaves the account |
| AtomicPackage.Package.Install | plugin/src/atomic-package.ts:103-118 | Interrupted anywhere, the state fits the journal; it stops only at a call that was stopped, and refuses only after the writer has changed the original, which then is back in the live place as he left it; finished, the target is live with every device-local item and an original aside is still the prior one; an original that has changed before the stage is recorded is left alone, and nothing is recorded |
| AtomicPackage.Package.Stage | plugin/src/atomic-package.ts:105-109 | The target is staged and the original untouched; a change of the original before or after the staging is noticed |
| AtomicPackage.Package.Switch | plugin/src/atomic-package.ts:111-117 | The same from the first record on |
| AtomicPackage.Package.Recover | plugin/src/atomic-package.ts:59-74 | From every state an interruption can leave: it stops only at a call that was stopped; undisturbed it never refuses and ends with target and items live or the original untouched; finished under an installed journal an original aside is still the prior one, and a changed one that is found there keeps it from finishing; refused, the original is back in place as its writer left it, with every item, unless he wrote at the last instant; `handled` is said exactly for a live target; only a torn first record refuses otherwise, with the original untouched |
| AtomicPackage.Package.Resume | plugin/src/atomic-package.ts:68-72 | From prepared, backed-up or promoting with the original aside, recovery lands the target beside the prior original, or gives a changed one back |
| AtomicPackage.Package.GoOn | plugin/src/atomic-package.ts:65-72 | A switch that is neither installed nor reversed ends installed, withdrawn with the original untouched, or with a changed original given back |
| AtomicPackage.Package.Vouch | plugin/src/atomic-package.ts:66 | A live target is put on record only while the original aside is the prior one |
| AtomicPackage.Package.MoveUnmanaged | plugin/src/atomic-package.ts:37-41 | Interrupted anywhere, original and stage share out the items; finished, all are in the stage; no check on the way can fail |
| AtomicPackage.Package.RestoreChanged | plugin/src/atomic-package.ts:42-57 | The changed original takes the live place back as its writer left it, with every item, after the change of authority is durable; no check on the way can fail |
| AtomicPackage.Package.GuardOriginal | plugin/src/atomic-package.ts:58 | Passes only while the original is the prior one, and then moves nothing; refuses only once a changed one is back in place with every item |
| AtomicPackage.Package.SetAside | plugin/src/atomic-package.ts:111 | The original is set aside whole and is the prior one, or is given back to the writer who raced the rename |
| AtomicPackage.Package.PromoteAndInstall | plugin/src/atomic-package.ts:116-117 | From moved items to the installed package beside the prior original, with every interruption recoverable; a changed original is given back |
| AtomicPackage.Package.Persist | plugin/src/atomic-package.ts:23-26 | The newest valid record is the old or the new one, or a torn first one, as `SlotAfter` says |
| PackageRecords.Records.Persist | plugin/src/atomic-package.ts:23 | Numbered record files behind the slot: cut short anywhere, the next read finds what `SlotAfter` allows; finished, one file is left and the number known is current; it stops only at a call that was stopped |
| PackageRecords.Records.Read | plugin/src/atomic-package.ts:25-26 | The newest valid record, none, or a refusal exactly when there are files and none is valid; the number known is current afterwards |
| PackageRecords.AmountsToOne | plugin/src/atomic-package.ts:26 | What the files amount to does not depend on the order of the listing |
| AtomicPackage.NothingLost | plugin/src/atomic-package.ts:37-118 | At every point the original as its writer left it, the staged target and each item are still somewhere, whole |
| AtomicPackage.InstallThenRecover | plugin/src/atomic-package.ts:59-118 | One interrupted installation and any number of recoveries end recovered, unless disturbed or the first record is torn; to keep them from ending, more calls must be stopped than there are attempts |
| ContentUpload.ScanReceipts | apps/server/src/content-upload.ts:111-121 | The loop finds the longest prefix of receipts whose bytes are in the file, and its offset |
| ContentUpload.CountIsLongest | apps/server/src/content-upload.ts:113-121 | No longer prefix verifies |
| ContentUpload.DatabaseAlwaysOk | apps/server/src/content-upload.ts:87-272 | In every run over crashes, expiring leases and any number of processes with one request each, receipts are contiguous chunk-aligned pieces that sum to the offset, and what the lease holder carries along is current |
| ContentUpload.DatabaseAlwaysIff | apps/server/src/content-upload.ts:87-272 | In every run at all that holds at every point exactly when every transaction finds the row as its request last saw it |
| ContentUpload.DatabaseStepIff | apps/server/src/content-upload.ts:113-130 | The same for one step from any sound state |
| ContentUpload.OutlastingIsSolo | apps/server/src/content-upload.ts:87-103 | When no lease runs out while its own process has a request under way, no process ever has two |
| ContentUpload.FileAlwaysOk | apps/server/src/content-upload.ts:87-272 | In every run whose file operations stay within their lease the file, as written and as last synced, holds every acknowledged byte |
| ContentUpload.FileAlwaysIff | apps/server/src/content-upload.ts:87-272 | In every run at all receipts cover the offset and every acknowledged byte is in the file and synced, at every point, exactly when every step finds the row as its request last saw it, spares what is acknowledged and acknowledges only what is there |
| ContentUpload.FileStepIff | apps/server/src/content-upload.ts:87-272 | The same for one step from any sound state |
| ContentUpload.ReceiptIff | apps/server/src/content-upload.ts:210-222 | A receipt is backed exactly when its bytes are in the file and synced at the moment of the transaction |
| ContentUpload.RecoveryIff | apps/server/src/content-upload.ts:111-130 | A recovery leaves backed receipts exactly when it keeps none past the longest prefix that verifies in the file and in what is synced |
| ContentUpload.TruncateIff | apps/server/src/content-upload.ts:131-133 | Whenever it comes, a truncation keeps what is acknowledged exactly when its offset is not below the row's |
| ContentUpload.WriteIff | apps/server/src/content-upload.ts:210-213 | Whenever it comes, a write keeps what is acknowledged exactly when it repeats the acknowledged bytes it meets |
| ContentUpload.PowerLossKeeps | apps/server/src/content-upload.ts:210-219 | A loss of power takes no acknowledged byte, whatever it does to what was not synced |
| ContentUpload.BlobAlwaysOk | apps/server/src/content-upload.ts:233-269 | In every run at all, with truncations and writes between the parts of the streamed read, only content of the declared size and hash is registered, and a complete upload is registered |
| ContentUpload.RecoverFile | apps/server/src/content-upload.ts:111-133 | After a scan recovery leaves exactly the longest verified prefix, whatever state the file was in |
| ContentUpload.RowUnderLease | apps/server/src/content-upload.ts:87-103 | Receipts, offset, completion and blob change only at the hands of a process whose lease is running; the lease passes on only when free or over, and is given back by its owner alone |
| ContentUpload.AlwaysBounded | apps/server/src/content-upload.ts:87-272 | In every run at all no chunk has two receipts, and no more than the declared size is put through the digest |
| ContentUpload.RecoveryKeepsAcknowledged | apps/server/src/content-upload.ts:111-130 | In a disciplined run recovery drops nothing that was acknowledged |
| ContentUpload.ContiguousSum | apps/server/src/content-upload.ts:113-121 | Contiguous receipts sum to the bytes they cover |
| UploadRequests.ServedFacts | apps/server/src/content-upload.ts:200-231 | An undisturbed chunk request adds exactly an accepted chunk to what is acknowledged and on disk, and any other request adds nothing |
| UploadRequests.ServedIntact | apps/server/src/content-upload.ts:200-231 | It leaves database and file in agreement |
| UploadRequests.ServedIsRun | apps/server/src/content-upload.ts:200-231 | A request that takes its chunk is a run of the steps of the protocol |
| UploadRequests.ReachableIntact | apps/server/src/content-upload.ts:87-272 | What a disciplined run leaves behind is a session such a request may find |
| UploadRequests.RecoversWhatIsThere | apps/server/src/content-upload.ts:104-136 | The whole recovery from any state of the file: unless the process has checked the session before and the file is long enough, exactly the longest prefix of receipts that verifies in the file is left, and otherwise all; the file is cut to what they cover, and synced if it was cut |
| UploadRequests.ReplyIff | apps/server/src/content-upload.ts:200-222 | The reply to any chunk, exactly: the next one is taken, one below the offset is acknowledged again when a receipt has its index, hash and size, and everything else is refused |
| UploadRequests.ResendIff | apps/server/src/content-upload.ts:204-208 | A chunk below the offset is acknowledged again exactly when it is the one in the file, and changes nothing that is acknowledged |
| UploadRequests.AppendIff | apps/server/src/content-upload.ts:201-222 | The receipts grow exactly by the chunk that starts at the offset of an unfinished session and has the right size |
| UploadRequests.CompleteIff | apps/server/src/content-upload.ts:232-272 | An upload is completed exactly when all of it is there and has the declared hash; what is then registered is what was staged |
| UploadRequests.DeliverAll | apps/server/src/content-upload.ts:200-231 | From any resume offset the missing chunks, delivered in order, are all taken and leave the content in the file |
| UploadRuns.LateTruncation | apps/server/src/content-upload.ts:131-133 | Two processes: the cut of a leftover tail comes after its lease has run out and takes a byte acknowledged in between |
| UploadRuns.LateWrite | apps/server/src/content-upload.ts:210-222 | Two processes: a late write comes between the sync and the receipt of another request, and the receipt is for bytes that are gone |
| UploadRuns.SharedOwner | apps/server/src/content-upload.ts:87-130 | Two requests of one process: the stalled one drops a receipt under the lease of the other, and the database ends with more offset than receipts |
| DiskReservation.MarginIs | apps/server/src/content-upload.ts:178-186 | Free space minus reservations falls short of the slack by exactly the unacknowledged bytes |
| DiskReservation.AdmissionIff | apps/server/src/content-upload.ts:174-187 | Admission leaves the reserve exactly when its surplus covers what was acknowledged after the free space was read |
| DiskReservation.AdmissionLeavesReserve | apps/server/src/content-upload.ts:174-187 | With no change in between an admitted upload leaves 64 MiB |
| DiskReservation.StaleReading | apps/server/src/content-upload.ts:174-186 | A chunk acknowledged in between lets an upload in that does not leave the reserve, although the reserve was left before |
| DiskReservation.SlackStep | apps/server/src/content-upload.ts:104-272 | No later step takes from the slack |
| DiskReservation.MarginKept | apps/server/src/content-upload.ts:104-272 | Over any admissions, chunks, crashes, recoveries, completions and expiries the margin is at least the reserve less the bytes still unacknowledged, as long as no admission has read more free space than there is at its transaction |
| DiskReservation.UnacknowledgedChunk | apps/server/src/content-upload.ts:210-219 | The margin dips by a chunk between its write and its receipt, and returns with the receipt |
| DiskReservation.OrphanedCopy | apps/server/src/content-upload.ts:235-269 | An encrypted copy left by a crash takes the reserve if only the copy in flight is counted |
| OutboundStream.UploadAdapterFile | plugin/src/outbound-stream.ts:13-39 | However the reader cuts the file, the chunks past the resume offset are sent once, in order, under their index; the misalignment throw is unreachable after validation; it succeeds exactly when the resume state is valid, the content is the declared one and unchanged, and the server answers every chunk with the offset behind it and completes |
| OutboundStream.Consume | plugin/src/outbound-stream.ts:28 | One fragment of any size keeps buffer, read position and sent chunks in step |
| OutboundStream.Send | plugin/src/outbound-stream.ts:25 | A buffer past the resume offset goes out as the next chunk and moves the acknowledged offset with it |
| OutboundStream.ServerStateIsValid | plugin/src/outbound-stream.ts:20-24 | Any offset the server reports passes the client's validation |
| OutboundStream.ServerAnswers | apps/server/src/content-upload.ts:200-231 | The server answers every missing chunk with the offset behind it |
| OutboundStream.UploadToServer | plugin/src/outbound-stream.ts:13-39 | Client and server together: success exactly when the file is the declared one, unchanged, and goes on from what is staged; then the server has registered its very bytes |
| OutboundStream.SuccessMeansSameBytes | plugin/src/outbound-stream.ts:36-39 | In every run at all, once an upload is complete what is registered is the one content with the declared hash |
| FolderReconciliation.ReconcileAndAlign | plugin/src/folder-reconciliation.ts:16-32 | For any folder plan every local and remote file is in its side's map or a version of a reported collision; every entry of a map is one of its side's files at its aligned path, a moved local one with where it is now; the collisions are exactly the clashes with all their versions; there every side has its first version of the preferred generation, remote before local and unmoved before moved, or nothing; elsewhere what landed last |
| FolderReconciliation.CanonicalPreferred | plugin/src/folder-reconciliation.ts:30 | On a clash the canonical version is the first of the best rank: remote and unmoved, remote, local |
| FolderReconciliation.ReportedIff | plugin/src/folder-reconciliation.ts:30 | A path is reported exactly when two current versions are not one file and two versions of one side came together there |
| FolderReconciliation.SideDescends | plugin/src/folder-reconciliation.ts:22-30 | Nothing in an aligned map is invented: it is a file of its side with identity and content, at its aligned path |
| FolderReconciliation.Align | plugin/src/folder-reconciliation.ts:22-28 | The groups gain exactly the side's versions, and the aligned map holds the last file per path |
| FolderReconciliation.Collide | plugin/src/folder-reconciliation.ts:30 | Reported paths are settled on the canonical generation, all others are left alone, and the report is exact |
| FolderReconciliation.DeepestDecidesIff | plugin/src/folder-reconciliation.ts:25-26 | A file follows its deepest folder exactly when that folder moved or none that holds the file did |
| FolderReconciliation.LongestMovedDecides | plugin/src/folder-reconciliation.ts:25-26 | Among the moved folders that hold a file the deepest decides |
| FolderReconciliation.NothingDropped | plugin/src/folder-reconciliation.ts:26-30 | A file of a current side with distinct identities is never dropped unreported |
| FolderReconciliation.TwoOfOneSide | plugin/src/folder-reconciliation.ts:30 | Two distinguishable files of one current side are always reported |
| FolderReconciliation.TwoFilesReportedIff | plugin/src/folder-reconciliation.ts:30 | Two files of one side alone on a path are reported exactly when both identities tell them apart |
| OperationJournal.Journal.Save | plugin/src/operation-journal.ts:27-28 | A crash anywhere, a torn write or a removal cut short leaves the previous or the new record readable; a finished save leaves only the new file; exactly the number after 2^53-1 is unreadable; it finishes when every call succeeds |
| OperationJournal.Journal.Load | plugin/src/operation-journal.ts:23-25 | Returns the record of the highest valid number, nothing for an empty journal, and an error iff there are files and none is valid |
| OperationJournal.SaveAll | plugin/src/operation-journal.ts:27-28 | Over any saves, however they end: a finished save leaves its file alone on the disk, numbered below all that come after, and the disk never becomes unreadable, while the numbers last; when every call succeeds all of them finish |
| SequencedRecords.ReadsOne | plugin/src/operation-journal.ts:24-25 | What a load returns does not depend on the order of the listing |
| SequencedRecords.ReadsIff | plugin/src/operation-journal.ts:24-25 | What is returned is the record of the one file with the highest number among those whose checksum holds and whose number is exact |
| SequencedRecords.HighestReads | plugin/src/operation-journal.ts:24-28 | A valid file numbered above all others is what a load returns |
| SequencedRecords.TornReads | plugin/src/operation-journal.ts:24-28 | A torn file changes nothing |
| SequencedRecords.OnlyFile | plugin/src/operation-journal.ts:24-28 | A lone record is readable exactly up to number 2^53-1 |
| IntentJournal.Journal.Begin | plugin/src/intent-journal.ts:21-23 | A modify is merged exactly when the last intent of the path is an unfrozen modify; either way the number is above every frozen one, and a new intent has a number and identity of its own |
| IntentJournal.Journal.End | plugin/src/intent-journal.ts:22 | The event is listed after its write; it is listed twice exactly when a flush had listed it already |
| IntentJournal.Journal.Fail | plugin/src/intent-journal.ts:22 | After a failed write the intent stays known, durable or pending |
| IntentJournal.Journal.FlushOne | plugin/src/intent-journal.ts:25 | A flushed intent is durable, listed once and no longer pending |
| IntentJournal.Journal.Freeze | plugin/src/intent-journal.ts:26 | Acknowledging the highest number returned covers nothing unreturned exactly when no pending intent is numbered below it |
| IntentJournal.Journal.Acknowledge | plugin/src/intent-journal.ts:28 | Changes may be recorded before each removal: on success exactly the events above the number stay, old and new, and the records of those chosen are gone; no record above it is removed, however far the removals come; it succeeds when they all do |
| IntentJournal.AboveInOrder | plugin/src/intent-journal.ts:28 | The events left by an acknowledgement keep their order |
| IntentJournal.Journal.RemoveRecord | plugin/src/intent-journal.ts:28 | A removal takes the record of the chosen event and no other, also when changes were recorded since |
| IntentJournal.Journal.Reload | plugin/src/intent-journal.ts:18-20 | A restart lists what is on disk by number, and counts on from the highest |
| IntentJournal.RecordAfterSnapshot | plugin/src/intent-journal.ts:21-28 | Changes recorded while everything a snapshot returned is acknowledged all stay listed, durable and numbered above it; on success nothing else is listed and no returned event has a record |
| IntentJournal.RecordAfterRestart | plugin/src/engine.ts:1132-1150 | After a restart a change gets the number after the highest on disk, or that of the modify it repeats, and is dropped by a kept number exactly when that reaches it |
| IntentJournal.FirstChangeForgotten | plugin/src/engine.ts:1150 | A run in which everything is acknowledged, the batch is not cleared, and the first change after a restart is dropped with it |
| IntentJournal.IndexedIntentCreates | plugin/src/intent-journal.ts:7 | What stands in the index stems from an observed creation or deletion at the end of its trail of moves; for renames of a vault, and for all lists without moves into or around their own start, the index is the function `IndexOf` of the events |
| IntentJournal.ObservedApart | plugin/src/intent-journal.ts:7 | No rename in a vault leads into its own start or onto a folder around it |
| IntentJournal.IndexedIff | plugin/src/intent-journal.ts:7 | A place is indexed exactly when the trail of some creation or deletion ends there |
| IntentJournal.IndexAfter | plugin/src/intent-journal.ts:7 | What one more event does to the index at each place: a folder move takes along everything at its old path and below, a file move the one file, a deleted folder takes what is below it off, creations and deletions stand at their path |
| IntentJournal.CarryAll | plugin/src/intent-journal.ts:7 | Carrying the entries of a move one by one, in any order, is the simultaneous move |
| IntentJournal.MovedIntoItself | plugin/src/intent-journal.ts:7 | A folder moved into itself loses an entry whose trail ends on another entry's start |
| RuntimeSettings.Settings.Protect | plugin/src/plugin-runtime.ts:131-146 | A protected copy is exactly the installed settings, or nothing is recorded |
| RuntimeSettings.Settings.Restore | plugin/src/plugin-runtime.ts:147-162 | A normal return means the public file held the incoming settings when last looked at; the copy is never touched; nothing the runtime wrote, before or meanwhile, is given up but what it replaces itself, unless a rename clobbers. While nobody writes and all calls succeed, that happens exactly when other bytes are aside unknowingly and the expected ones are in place, and it returns normally exactly when what an earlier attempt recorded agrees with what is found |
| RuntimeSettings.Settings.MoveAside | plugin/src/plugin-runtime.ts:157 | The public file moves aside whole or not at all, and what is aside then is what stood there; bytes already aside are overwritten exactly where the rename clobbers |
| RuntimeSettings.Settings.CopyBack | plugin/src/plugin-runtime.ts:158-160 | An occupied public path is left as it is; onto a vacant one the copy arrives whole or in part |
| RuntimeSettings.Settings.Reconsider | plugin/src/plugin-runtime.ts:150-153 | An interrupted recovery goes on only if public file and moved bytes are what it left, and a competing file holds it |
| RuntimeSettings.RestoreRepeatedly | plugin/src/plugin-runtime.ts:147-162 | Over any attempts the copy survives, and so does, where renames do not clobber, everything owed to the writer and everything he writes meanwhile that he does not replace |
| RuntimeSettings.LostSettings | plugin/src/plugin-runtime.ts:147-162 | A run in which a rename reported as failed and the expected bytes written back lose settings nobody replaced |
| VaultInventory.Inventory.Commit | plugin/src/vault-inventory.ts:57-64 | An inspection is stored exactly when its path was not marked since it began, with all flags in one stretch |
| VaultInventory.Inventory.MarkDirty | plugin/src/vault-inventory.ts:55 | A mark leaves the path dirty and unverified, and every fresh entry fresh |
| VaultInventory.Inventory.RemoveMissing | plugin/src/vault-inventory.ts:59 | The entry of a missing file goes before its flags |
| VaultInventory.Inventory.MarkBucket | plugin/src/vault-inventory.ts:59 | A bucket known at last is marked, and the buckets still agree |
| VaultInventory.Inventory.FinishMissing | plugin/src/vault-inventory.ts:59 | Clearing the flags keeps all entries fresh exactly unless the path has an entry again and was dirty |
| VaultInventory.Inventory.DropUnlisted | plugin/src/vault-inventory.ts:66 | An unlisted path loses entry and flags together |
| VaultInventory.Inventory.NeverClamped | plugin/src/vault-inventory.ts:32 | With no removal under way the pending count is never clamped, and zero only when all are verified |
| VaultInventory.Inventory.FlushedAgrees | plugin/src/vault-inventory.ts:75-82 | With nothing marked or being written, the bucket files are the index |
| VaultInventory.Inventory.BeginFlush | plugin/src/vault-inventory.ts:76-79 | Taking over the marked buckets keeps every other bucket equal to its file |
| VaultInventory.Inventory.CollectRow | plugin/src/vault-inventory.ts:76-79 | Rows collected one by one, with changes in between, leave every bucket equal to what is collected or marked again |
| VaultInventory.Inventory.WriteBucket | plugin/src/vault-inventory.ts:80 | A written bucket agrees with its file unless marked since |
| VaultInventory.Inventory.AbortFlush | plugin/src/vault-inventory.ts:81 | A failed flush marks everything it has not written |
| VaultInventory.SameCount | plugin/src/vault-inventory.ts:57-58 | An unchanged generation means no mark in between |
| VaultInventory.LostMark | plugin/src/vault-inventory.ts:59 | From any state with the path indexed, two overlapping inspections can lose a mark |
| VaultInventory.VerifyStep | plugin/src/vault-inventory.ts:67-74 | A quiet step visits at least one path, in cyclic order, and reads exactly the entries it visits that were not verified in this session, are old, or were marked; each visited entry is then verified and clean |
| VaultInventory.DrainAudit | plugin/src/vault-inventory.ts:67-74 | As many quiet steps as there are entries leave the inventory with nothing unverified |
| PendingCommit.RecoverPendingCommit | plugin/src/engine.ts:813-844 | Adopts exactly when one of the 128 newest ancestors is the commit of the receipt, by parent, device and fingerprint, and then that one, the only one in the history; drops only when the whole history holds none; holds exactly when the walk met neither the recorded parent nor its child before a missing snapshot or the limit |
| PendingCommit.CommitFingerprint | plugin/src/engine.ts:58-67 | The loops compute the fingerprint of sorted files and of the explicit folders |
| PendingCommit.FingerprintIff | plugin/src/engine.ts:58-67 | Two commits share a fingerprint exactly when they have the same files and the same folders beyond those implied, in any order and however often named |
| PendingCommit.ParentReached | plugin/src/engine.ts:819 | Meeting the recorded parent before a child of it proves the commit absent |
| PendingCommit.OtherChild | plugin/src/engine.ts:821-825 | Meeting another child of the recorded parent proves the commit absent |
| PendingCommit.HistoryEnds | plugin/src/engine.ts:820-826 | Reaching the end of the history proves the commit absent |
| Versions.CompareVersions | apps/server/src/compatibility.ts:9-18 | The result is -1 exactly when the first version is below the second and 1 exactly when it is above: the first unequal parts decide, a prerelease is below its release, then the first unequal identifiers, numbers by value and below names, names by the first unequal character or as the shorter one; that is section 11 of SemVer 2.0.0 on versions without leading zeros |
| Versions.CompareIs | apps/server/src/compatibility.ts:9-18 | The same of the comparison as a function |
| Versions.NumberOrder | apps/server/src/compatibility.ts:15 | Numbers without leading zeros are in order of length, and of one length in order of text |
| Versions.CompareIsPrecedenceIff | apps/server/src/compatibility.ts:9-18 | The code follows the precedence rules exactly when the prereleases do not first differ in two spellings of one number with unequal rests |
| Versions.AgreesIff | apps/server/src/compatibility.ts:13-16 | The same for the identifier lists alone |
| Versions.CanonicalAgrees | apps/server/src/compatibility.ts:9-18 | Without leading zeros (section 9 of SemVer 2.0.0) they agree |
| Versions.CanonicalOrder | apps/server/src/compatibility.ts:9-18 | There the code is antisymmetric and transitive |
| Versions.PrecedenceTransitive | apps/server/src/compatibility.ts:9-18 | The precedence of section 11 is transitive, with or without leading zeros |
| Versions.ValueInjective | apps/server/src/compatibility.ts:15 | A number without leading zeros has one spelling |
| Versions.LeadingZerosBreakOrder | apps/server/src/compatibility.ts:15 | 1.b, 01.x and 1.a: two ties and yet an order |

## Left out

Planner

- BatchPlan.BuildOperationBatch: takes the newest tombstone per path (line 8), the folder renames among the intents and the recorded creations as inputs; the last are modelled by `IntentJournal.IndexedIntentCreates`.
- BatchPlan.BuildOperationBatch: requires distinct identities in the tree; with equal ones `Map` overwriting decides, which no caller relies on.
- FolderPlan.RelocateAll: how many turns it needs is bounded only for folders that keep out of each other's way; in general the loop may run out of turns.
- Making.MakeFolders: does not order folders of equal depth by name; any order serves.
- Legacy files without an identity are never named by an operation and stay where they are, so they appear beside the desired files.
- Modification times, batch identity, message and cooperative yielding.
- Texts such as "a//b" and empty identities, which normalised vault paths and uuids exclude.
- The working arrays are values that each step replaces, so aliasing between `files` and the entries pushed to `moves` is not modelled.

Applying files

- FileApply.PathApply.Resume: treats one path with one target; hashes are the bytes, and each path has at most one journal per prior and one for an absent prior.
- The download itself, package paths, folder topology, enablement and the first application in `applyFinal`.
- FileApply.ResumeRepeatedly: does not say that resuming ends; an editor or a failing disk can hold it forever.

Package switch

- AtomicPackage.Package.Install: a writer changes managed files of the original directory only, not the stage or the new directory.
- AtomicPackage.Package.Recover: one package at a time, journals of other scopes or snapshots aside.
- The probe directory of `qualify`, the restoring of device-local retirements and the listing of originals.

Uploads

- ContentUpload.DatabaseAlwaysOk: assumes one request at a time per process; `ContentUpload.DatabaseAlwaysIff` has the exact condition for every run.
- ContentUpload.FileAlwaysOk: assumes that truncations and writes happen within their lease; `ContentUpload.FileAlwaysIff` has the exact condition for every run.
- ContentUpload.ScanReceipts: the scan of the receipts, with the look at the file's size, is one moment; the file does not change between two of its reads.
- DiskReservation.MarginKept: counts the encrypted copies in, and speaks of sessions of any process with no other user of the disk.
- Session expiry, cancelling, polling and the single finalizer of a process; encryption and the blob store.
- OutboundStream.UploadAdapterFile: one upload without the client's retries; the reader is a sequence of fragments.

Folder reconciliation

- FolderReconciliation.ReconcileAndAlign: the folder plan is an arbitrary choice of a path per folder; `reconcileFolders` and the tentative plans for lost folders are not part of this model.
- `observeLocalFolders`.

Journals, settings, index

- OperationJournal.Journal.Save: scope, record validation and file sizes are not modelled; a record is a text with a checksum verdict.
- IntentJournal.Journal.Reload: scopes and torn records, which make loading throw, are not modelled.
- RuntimeSettings.Settings.Restore: the lifecycle around it, and the hold it ends in, are not modelled.
- VaultInventory.Inventory.Commit: the read itself is one step at a moment the model records; scope changes, load limits and the comparison of stamps are not modelled.
- VaultInventory.Inventory.BeginFlush: the walk goes over the paths the index has when the flush begins.
- VaultInventory.VerifyStep: which entries are old enough to be read again is a parameter.

Commit receipts and versions

- PendingCommit.RecoverPendingCommit: the history does not change during the walk, and the merging of settings after an adoption is not modelled.
- Versions.CompareVersions: versions are already parsed and numbers are below 2^53; `parseVersion` and `clientCompatibility` only add pattern matching.

Everything from `packages/protocol` that the engine calls (three-way planning,
move detection, text merging, plugin selection) is an arbitrary input.
