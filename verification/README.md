# gh-copilot-codespace: a verified model

The repository lets a coding agent work on files in a remote codespace. A
client keeps a connection to a daemon on the remote side and restores it when it
is lost; the daemon searches and shows files, writes them, and applies patches
to several files at once. This project models the parts of that with the most
state and the most ways to go wrong, and proves what they promise.

`dafny verify dfyconfig.toml` checks everything.

## What is modelled

**A. The patch transaction** (`FileSystem`, `Patch*`, `ApplyPatch`). A patch is
parsed, planned, staged to hidden files and committed action by action; on any
error it is undone in reverse order. `FileSystem.Disk` is a tree of nodes with
the system calls the transaction makes, a sequence that decides which of them
fail, and another program that puts and removes files at the patch's paths
whenever the transaction passes one of its hook points. Three ghost counters
say what happened: `faults` (hooks that reported an error, cancellations, and
failures to create, rename, exchange, link or make a directory), `hardFaults`
(failed reads and unlinks) and `moves` (what the other program did); `trail`
lists the paths it acted on and `left` what it last left there. The main
results are `ApplyPatch.ApplyPatchText` and, for a plan,
`PatchTransaction.PatchTransaction.CommitPatchPlan`:

- Whatever fails and whoever interferes, every file of somebody else is still
  somewhere, unless its state had been recorded (it was read as a source of the
  patch, or the tool wrote it). After an error, what the source of a committed
  action held is in that action's backup or back at its path. After a success,
  each path of the patch is as the patch wants it, unless the other program has
  acted there since and the path is as it left it.
- With no other writer and reads and unlinks succeeding: a success is the
  simultaneous application of all actions to the tree the patch was given; an
  error, from any one failure, leaves every path as it was, no hidden file and
  no created directory.
- Without failures, exactly those patches succeed whose operations are possible
  and independent (`PatchApplicable.AllPossible`): sources are regular files with
  plain permission bits, targets are free and can be reached, the hunks have a
  place, and no two operations name one path or read one file. For a setuid file
  the backup can never match its source, and the code refuses the patch.

**B. The reconnecting client and its server** (`Reconnect`, `Executor`,
`DaemonWrite`, `DaemonSend`, `DaemonCalls`, `DaemonTables` and their proofs).
Two step systems, whose runs are all interleavings: one of callers, reconnects,
deaths, clocks and `Close`; one of calls, cancellations, probes, the server's
read loop and its workers. `ReconnectSafety.EnterExactly` says which callers get
the connection, wait, reconnect or are refused; `DaemonCancel` that a
cancellation the server has read is never overtaken by the handler;
`DaemonServes` that undisturbed calls and cancellations do reach their end;
`DaemonEnds` that a loss is told only of a generation that is over for good. The
classes `Executor.Executor`, `DaemonTables.Requests` and `DaemonTables.Pending`
are the repository's own objects, each critical section of which is proved to be
one step; `DaemonWrite.Connection` is the frame writer, and
`DaemonSend.SendRequest` shows that what it reports is a step of the calls.

**C. The single-file write** (`RootedWrite`, `RootedCases`): stage, keep a
recovery copy, exchange, look at what came out, and exchange back if it is not
what was inspected; with the other program acting at the same hook points as in
the code.

**D. Text algorithms against a simple counterpart**: the patch parser against a
printer, the hunk engine against "replace all segments at once" and against the
remote runner's second engine, streaming content search against sorting and
merging windows, the view of a file, as its reader delivers it, against its
numbered rendering, the glob matcher against the relation it computes, the paged
directory walk and its merge against the set of reachable files, the workspace's
path scan against the parser, and the search for a default alias.
`PatchGrammar.Written` is the grammar of patches, by which the parser accepts a
text or refuses it.

Files are modelled in the form the code has: classes and methods with loops
where it updates state, each proved against a function or a predicate, and
lemmas about those.

## Reading the results

- A clause under `Quiet(disk)` is about runs with no other writer and no failed
  read or unlink, and one about `disk.faults` about runs with that many other
  failures; clauses without such a condition hold of every run.
- A file's digest is its content; inodes are numbers; a node written by the tool
  has a number the file system had not used before.
- Bytes are characters below 256; UTF-8 is that of section 4 of RFC 3629.
- `SegmentMatch` is `path.Match` on one segment, `Resolver` the resolution of a
  patch path to a path without symbolic links: both are parameters, and the
  results hold for all of them.

## Where the code does less than it says

- Moving, updating or deleting a setuid, setgid or sticky file always fails
  (the backup gets only the permission bits, at `daemon_filesystem.go:2791`,
  and is compared on all of them, at `daemon_filesystem.go:2804-2809`).
  `CommitPatchPlan` states the exact condition.
- Without write deadlines, a write that failed half-way can leave part of a
  frame on a generation that stays alive, behind which the next writer writes.
  There are two windows: the context expires while the watch of
  `connection.go:268-270` is in place, but the watch's goroutine has not run
  when the token is freed; or it expires between `connection.go:272` and `273`.
  `DaemonWrite.Tears` is the exact condition, proved in
  `DaemonWrite.Connection.WriteFrame`; `DaemonWrite.TornFrame` reaches both. With
  write deadlines, or a context that cannot expire, it never happens, and a
  caller knows both beforehand.
- The workspace check compares a path with the workdir and a slash: under a
  workdir that is the root directory it admits the root itself and nothing below
  it (`WorkspacePath.PassesExactly`).
- A view leaves out the newline after the last line exactly if the file does not
  end in one and that line's length is a positive multiple of the reader's 4096
  bytes, and the line is in the range and not cut
  (`ViewFile.FileViewIsRendering`, `ViewFile.FullBufferLineDiffers`).
- The two hunk engines agree on every file exactly if every hunk changes
  something, or no file fits the hunks that do, because one of them needs a line
  behind the end of the file (`PatchEngines.EnginesAgreeExactly`). For all other
  hunks there is a file that only one engine accepts
  (`PatchEngines.EnginesDiffer`, `PatchSplice.ContextOnlyHunksDiffer`).
- In the single-file write, an error can leave the new content in place, but
  only if one of three calls after the exchange failed: the look at the live
  file, the exchange back, or the unlink of a file no longer needed
  (`RootedWrite.Hitch`, in the contract of `RootedWrite.WriteRootedFile`). The
  error then names the files it kept. `RootedCases.NewContentStays` and
  `RootedCases.NewContentNotSwappedBack` end that way.

## Model

| member | source | states |
|---|---|---|
| ApplyPatch.ApplyPatchText | cmd/gh-copilot-codespace/daemon_filesystem.go:1836-1855 | From patch text to files: nobody else's file is lost, whatever fails and whoever interferes; a success carries every operation out, read off the original tree, but at paths where the others have acted since; undisturbed, it touches nothing else, and an error from any one failure puts everything back; without failures exactly those patches succeed that parse and whose operations are possible on the tree and independent of each other |
| ApplyPatch.PatchIsFulfilled | cmd/gh-copilot-codespace/daemon_filesystem.go:1836-1855 | With others writing, each operation of a successful patch is carried out at each of its paths, unless another program has acted there since the patch began and the path is as it left it |
| ApplyPatch.AppliedCarries | cmd/gh-copilot-codespace/daemon_filesystem.go:2015-2135 | Where the planned actions are applied, each operation of the patch is carried out: an added file holds the added lines, each ended by a newline, under mode 0644; an updated one its rewritten text under its permission bits; sources and deleted files are gone |
| ApplyPatch.PatchIsApplied | cmd/gh-copilot-codespace/daemon_filesystem.go:1836-1855 | An applied plan carries out every operation and changes nothing but the named paths and missing parent directories |
| ApplyPatch.PlanIsUnique | cmd/gh-copilot-codespace/daemon_filesystem.go:2015-2135 | The operations and the tree determine the plan |
| PatchApplicable.ApplicableExactly | cmd/gh-copilot-codespace/daemon_filesystem.go:2015-2135 | A patch has a plan that suits the tree exactly if each operation is possible there and any two are independent: a condition on the patch and the tree alone |
| PatchTransaction.PatchTransaction.CommitPatchPlan | cmd/gh-copilot-codespace/daemon_filesystem.go:2409-2469 | All or nothing, for plans of any length: success is the simultaneous application of all actions with no hidden file left; any one failure leaves presence, bytes, mode and modification time of every path as they were and removes exactly the created directories; the exact condition of success. In any run, whoever interferes: no foreign file is lost; after an error what the source of a committed action held is in its backup or back at its path; after a success each path is as planned, or as the others have left it since |
| PatchTransaction.PatchTransaction.CommitStaged | cmd/gh-copilot-codespace/daemon_filesystem.go:2413-2469 | After staging, either every action is done and the backups are gone, or everything is taken back; with others writing, fulfilled but for what they have done since, or the sources' content saved |
| PatchTransaction.PatchTransaction.RunActions | cmd/gh-copilot-codespace/daemon_filesystem.go:2426-2460 | The commit loop with its hooks and checks stops with sound records: what is committed so far can be undone; if it runs to its end, every action stands but for what the others have done since |
| PatchTransaction.PatchTransaction.CommitAll | cmd/gh-copilot-codespace/daemon_filesystem.go:2434-2460 | The loop keeps the ledger: actions before the index are done, those after it are ready; and, whoever interferes, it keeps on track: those before the index stand, the staged files of the others are untouched |
| PatchTransaction.PatchTransaction.CommitNext | cmd/gh-copilot-codespace/daemon_filesystem.go:2434-2459 | One round: look at the action's paths again, hook, commit, hook; the ledger and the records stay sound |
| PatchTransaction.PatchTransaction.ValidateNext | cmd/gh-copilot-codespace/daemon_filesystem.go:2434-2446 | The context, the action's paths and the hook are looked at before the action is committed; the records stay sound and the transaction on track |
| PatchTransaction.PatchTransaction.CommitAction | cmd/gh-copilot-codespace/daemon_filesystem.go:2447-2453 | Committing one action moves the ledger on, or leaves an undo step that is filed |
| PatchTransaction.PatchTransaction.Fail | cmd/gh-copilot-codespace/daemon_filesystem.go:2416-2424 | From any sound state of the transaction, undoing, dropping staged files and removing created directories gives the original tree back |
| PatchTransaction.PatchTransaction.RollbackPatchPlan | cmd/gh-copilot-codespace/daemon_filesystem.go:2898-2909 | Undoing the committed actions last first restores every one of them, and never touches what was not recorded; whoever has interfered and whatever fails, what each source held stays in its backup or is back at its path |
| PatchTransaction.PatchTransaction.UndoAt | cmd/gh-copilot-codespace/daemon_filesystem.go:2900-2907 | Undoing the last standing action keeps the earlier ones undoable and saves what its source held |
| PatchTransaction.PatchTransaction.DropBackups | cmd/gh-copilot-codespace/daemon_filesystem.go:2463-2467 | Dropping the backups leaves no backup and changes nothing else |
| PatchTransaction.PatchTransaction.CleanUp | cmd/gh-copilot-codespace/daemon_filesystem.go:2889-2896 | Staged files nobody consumed go, then the created directories, and nothing else |
| PatchTransaction.PatchTransaction.RevalidatePatchPlan | cmd/gh-copilot-codespace/daemon_filesystem.go:2471-2478 | Succeeds only if every action is still ready; fails without a fault only if one is not |
| PatchTransaction.PatchTransaction.StagePatchPlan | cmd/gh-copilot-codespace/daemon_filesystem.go:2846-2887 | Staging adds only the missing parents and the staged files; on a failure it leaves the tree as it was; without faults it fails only for plans that do not suit the tree |
| PatchTransaction.StageAction | cmd/gh-copilot-codespace/daemon_filesystem.go:2847-2885 | One action's parents and staged file are added, or what was added is listed for clean-up |
| PatchTransaction.StageFileFor | cmd/gh-copilot-codespace/daemon_filesystem.go:2870-2884 | The staged file carries the planned content and mode and is recorded as inspected |
| PatchCommit.CommitPatchAction | cmd/gh-copilot-codespace/daemon_filesystem.go:2512-2703 | One action, whoever interferes: only its own paths and hidden files change, what the undo step captured is what was done, with a verified backup; on success its result stands, but for what the others have done since. Undisturbed and with at most one failure: done and undoable, or untouched, or undoable |
| PatchCommit.CommitAdd | cmd/gh-copilot-codespace/daemon_filesystem.go:2514-2525 | The staged file takes a path nobody has taken |
| PatchCommit.CommitDelete | cmd/gh-copilot-codespace/daemon_filesystem.go:2527-2546 | A verified backup, then the source goes; a failure leaves source and tree as they were |
| PatchCommit.CommitMoveOnly | cmd/gh-copilot-codespace/daemon_filesystem.go:2549-2622 | A move without new content, checked after the hook and taken back if what arrived is not the recorded source |
| PatchCommit.VerifyMovedPath | cmd/gh-copilot-codespace/daemon_filesystem.go:2588-2613 | After the move: the source arrived, or the move is undone, or what was moved and the backup are kept |
| PatchCommit.CommitReplacement | cmd/gh-copilot-codespace/daemon_filesystem.go:2624-2675 | An exchange of the staged file and the source, verified on both sides |
| PatchCommit.InstallReplacement | cmd/gh-copilot-codespace/daemon_filesystem.go:2625-2675 | Exchange, hook, verification, and removal of the displaced source |
| PatchCommit.VerifyReplacement | cmd/gh-copilot-codespace/daemon_filesystem.go:2634-2661 | The displaced file must be the recorded source and the live one the staged file; otherwise they are exchanged back or both kept |
| PatchCommit.TakeBackReplacement | cmd/gh-copilot-codespace/daemon_filesystem.go:2636-2661 | Exchanges back if the staged file is still live; whatever cannot be put back stays where it is |
| PatchCommit.CommitMoveAndRewrite | cmd/gh-copilot-codespace/daemon_filesystem.go:2677-2699 | A move with new content: the new path first, then the old one goes; every failure is undoable |
| PatchCommit.InstallMove | cmd/gh-copilot-codespace/daemon_filesystem.go:2677-2699 | Installs at the new path without replacing anything and files the undo step |
| PatchCommit.FinishMove | cmd/gh-copilot-codespace/daemon_filesystem.go:2691-2699 | The old path goes only if it still holds the recorded source |
| PatchCommit.PrepareUpdate | cmd/gh-copilot-codespace/daemon_filesystem.go:2549-2577 | A backup of an update implies a verified copy, ready paths and plain permission bits; a failure leaves no copy |
| PatchCommit.LookAgain | cmd/gh-copilot-codespace/daemon_filesystem.go:2566-2577 | After the hook before installing, the action's paths are ready still |
| PatchCommit.CreatePatchBackup | cmd/gh-copilot-codespace/daemon_filesystem.go:2705-2733 | A verified copy of the source under a hidden name; succeeds, faults permitting, exactly if the source is as recorded and has plain permission bits |
| PatchCommit.CopyPatchBackup | cmd/gh-copilot-codespace/daemon_filesystem.go:2735-2802 | The copy has the recorded content, permission bits and modification time, and nothing else changes |
| PatchCommit.RemoveValidatedPatchSource | cmd/gh-copilot-codespace/daemon_filesystem.go:2811-2834 | The source is unlinked only if it is the recorded file; otherwise it is where it was |
| PatchCommit.RemoveThroughSibling | cmd/gh-copilot-codespace/daemon_filesystem.go:2816-2833 | Moves aside, checks, unlinks or moves back |
| PatchCommit.ReservePatchSiblingPath | cmd/gh-copilot-codespace/daemon_filesystem.go:3116-3130 | A free hidden name beside the path, the tree being as before |
| PatchCommit.RevalidatePatchAction | cmd/gh-copilot-codespace/daemon_filesystem.go:2480-2510 | The action's source is as recorded and its new path free |
| PatchRollback.UndoRollback | cmd/gh-copilot-codespace/daemon_filesystem.go:2898-2909 | Undoing an action whose paths are as it left them restores them, the backup gone; any other file at those paths is left alone; in every case what the source held is in the backup or at the source |
| PatchRollback.RollbackAddedPath | cmd/gh-copilot-codespace/daemon_filesystem.go:2911-2927 | Removes the added file only if it is the installed one |
| PatchRollback.RollbackUpdatedPath | cmd/gh-copilot-codespace/daemon_filesystem.go:2929-2973 | Exchanges the backup in and drops the installed file; only the two paths change, and what the backup held is never lost |
| PatchRollback.RestoreByExchange | cmd/gh-copilot-codespace/daemon_filesystem.go:2947-2972 | What came out of the exchange must be the installed file, or it goes back |
| PatchRollback.RollbackMovedPath | cmd/gh-copilot-codespace/daemon_filesystem.go:2975-3026 | Source back, target and backup gone, for both kinds of move and for a source that is still there; the backup goes only when the source is back |
| PatchRollback.RestoreAndRemove | cmd/gh-copilot-codespace/daemon_filesystem.go:2992-3024 | Link the backup in, remove the installed target, drop the backup |
| PatchRollback.RestoreSource | cmd/gh-copilot-codespace/daemon_filesystem.go:2992-3003 | A missing source is linked from the backup; a source that is there must be the original |
| PatchStage.StageFile | cmd/gh-copilot-codespace/daemon_filesystem.go:3142-3187 | A hidden file with the planned content and mode, or, on a failure, the tree as before |
| PatchStage.CleanupPatchStages | cmd/gh-copilot-codespace/daemon_filesystem.go:2889-2896 | Exactly the staged files not consumed go |
| PatchStage.CleanupPatchDirectories | cmd/gh-copilot-codespace/daemon_filesystem.go:3104-3114 | The created directories go, last created first, if nothing else was put there; nothing else does |
| PatchDirectories.EnsureTargetDirectory | cmd/gh-copilot-codespace/daemon_filesystem.go:3060-3102 | Exactly the missing parents are created, outermost first; fails without a fault only if a file is in the way, and leaves nothing |
| PatchDirectories.CreateMissing | cmd/gh-copilot-codespace/daemon_filesystem.go:3085-3101 | Creates the missing directories or removes those it made |
| PatchDirectories.RemoveCreated | cmd/gh-copilot-codespace/daemon_filesystem.go:3104-3114 | Removes directories in reverse order of creation; those with something in them stay |
| PatchLedger.UnstagedIsBase | cmd/gh-copilot-codespace/daemon_filesystem.go:2846-2896 | Dropping what staging added gives the original tree |
| PatchLedger.CommitStep | cmd/gh-copilot-codespace/daemon_filesystem.go:2447-2453 | Committing an action keeps the ledger, since actions share no path |
| PatchLedger.UndoStep | cmd/gh-copilot-codespace/daemon_filesystem.go:2898-2909 | So does undoing it |
| PatchLedger.RolledBack | cmd/gh-copilot-codespace/daemon_filesystem.go:2416-2424 | With every action undone and the staged files dropped, only the created directories are left to go |
| PatchLedger.Finished | cmd/gh-copilot-codespace/daemon_filesystem.go:2460-2468 | With every action done and the backups dropped, the tree is the original with all actions applied at once |
| PatchLedger.AppliedSuits | cmd/gh-copilot-codespace/daemon_filesystem.go:2846-2887 | A plan that was applied suited the tree it was applied to |
| PatchRecords.RecordsCommit | cmd/gh-copilot-codespace/daemon_filesystem.go:2447-2453 | The transaction's own lists stay sound as an action is committed, whoever interferes |
| PatchRecords.RecordsUndo | cmd/gh-copilot-codespace/daemon_filesystem.go:2898-2909 | and as one is undone |
| PatchRecords.RecordsKept | cmd/gh-copilot-codespace/daemon_filesystem.go:2426-2459 | and while other programs change the planned paths |
| PatchActions.SavedMeans | cmd/gh-copilot-codespace/daemon_filesystem.go:2705-2733 | What is saved of a source is a regular file with its content, mode and modification time, in the backup or at its path |
| PatchRecords.SavedNext | cmd/gh-copilot-codespace/daemon_filesystem.go:2898-2909 | Undoing one action more leaves alone what was saved of the later ones |
| PatchRecords.OnTrackNext | cmd/gh-copilot-codespace/daemon_filesystem.go:2434-2459 | Carrying out the next action keeps the results of those before it, but for what the others have done, and the staged files of those after it |
| PatchRecords.AllFulfilled | cmd/gh-copilot-codespace/daemon_filesystem.go:2460-2468 | With all actions carried out, dropping hidden files leaves every path as planned, or as the others have left it since |
| PatchRecords.UndoIsSafe | cmd/gh-copilot-codespace/daemon_filesystem.go:2898-2909 | The records let the next undo step run, whatever has happened at the paths |
| PatchRecords.UndoneIsBack | cmd/gh-copilot-codespace/daemon_filesystem.go:2416-2424 | With everything undone, dropping staged files and created directories puts the tree back |
| PatchRecords.SuitsStaged | cmd/gh-copilot-codespace/daemon_filesystem.go:2431-2433 | A plan that suits the original tree finds every action ready after staging |
| PatchOrder.SuitsInAnyOrder | cmd/gh-copilot-codespace/daemon_filesystem.go:2434-2460 | Whether a plan can be applied does not depend on the order of its actions |
| PatchOrder.AppliedInAnyOrder | cmd/gh-copilot-codespace/daemon_filesystem.go:2434-2460 | Two orders of one plan leave trees that no reader can tell apart, but for inodes and modification times of written files |
| PatchPlan.BuildPatchPlan | cmd/gh-copilot-codespace/daemon_filesystem.go:2015-2135 | Succeeds, reads permitting, exactly if the operations have a plan: one action each, no path and no file shared |
| PatchPlan.PlanOperation | cmd/gh-copilot-codespace/daemon_filesystem.go:2024-2131 | An operation gets its action, or there is none that fits |
| PatchPlan.PlanAdd | cmd/gh-copilot-codespace/daemon_filesystem.go:2032-2048 | An addition: a free path not reserved before; its content reads back as the added lines and ends with a newline, its mode is 0644 |
| PatchPlan.FindsNothing | cmd/gh-copilot-codespace/daemon_filesystem.go:2036-2040 | A path is free only if nothing is there and no file is in its way: below a file the look is an error |
| PatchPlan.PlanDelete | cmd/gh-copilot-codespace/daemon_filesystem.go:2050-2068 | A deletion: a regular file whose path and inode are not reserved |
| PatchPlan.PlanUpdate | cmd/gh-copilot-codespace/daemon_filesystem.go:2070-2130 | An update or move: new content from the hunks, paths and inode not reserved, move target free |
| PatchPlan.ActionUnique | cmd/gh-copilot-codespace/daemon_filesystem.go:2024-2131 | An operation allows one action at most |
| PatchPlan.RoomMeans | cmd/gh-copilot-codespace/daemon_filesystem.go:2247-2266 | The reservations refuse an action exactly if it shares a path or a file with an earlier one |
| PatchPlan.PlanIsReady | cmd/gh-copilot-codespace/daemon_filesystem.go:2015-2135 | A plan's actions are disjoint and ready on the tree it was planned on |
| PatchHunks.RewriteLines | cmd/gh-copilot-codespace/daemon_filesystem.go:2298-2323 | The loop rewrites as specified: each hunk at the first place allowed after the one before, all replaced at once; or some hunk has no place |
| PatchHunks.FindPlace | cmd/gh-copilot-codespace/daemon_filesystem.go:2305-2317 | Context line first, then the first fit below it |
| PatchHunks.FindPatchHunk | cmd/gh-copilot-codespace/daemon_filesystem.go:2362-2378 | The least index where the old lines stand, or none |
| PatchHunks.FindPatchContext | cmd/gh-copilot-codespace/daemon_filesystem.go:2380-2387 | The least index of the context line, or none |
| PatchHunks.PatchHunkLines | cmd/gh-copilot-codespace/daemon_filesystem.go:2345-2360 | The old and the new lines of a hunk |
| PatchHunkLaws.SidesConcat | cmd/gh-copilot-codespace/daemon_filesystem.go:2345-2360 | Both sides of a hunk are read off line by line |
| PatchHunkLaws.SidesOfLine | cmd/gh-copilot-codespace/daemon_filesystem.go:2347-2358 | A kept line is on both sides, a removed one on the old side, an inserted one on the new side |
| PatchHunkLaws.RewritingMeans | cmd/gh-copilot-codespace/daemon_filesystem.go:2298-2329 | The outcome is exactly this: each hunk at its first place behind the one before, the text between the places kept, and the new lines where the old ones were |
| PatchHunks.PlacesUnique | cmd/gh-copilot-codespace/daemon_filesystem.go:2301-2323 | File and hunks determine the places |
| PatchHunks.RewritesOnce | cmd/gh-copilot-codespace/daemon_filesystem.go:2301-2323 | So the outcome, result or failure, is determined |
| PatchHunkLaws.LinesConserved | cmd/gh-copilot-codespace/daemon_filesystem.go:2288-2329 | The lines of the file change by exactly the '-' and '+' lines, as multisets |
| PatchHunkLaws.PlacedSegments | cmd/gh-copilot-codespace/daemon_filesystem.go:2301-2323 | The replaced segments are disjoint, in increasing order and within the file |
| PatchHunkLaws.ContextOnlySame | cmd/gh-copilot-codespace/daemon_filesystem.go:2288-2329 | Hunks of context lines alone change no line |
| PatchText.ApplyPatchHunks | cmd/gh-copilot-codespace/daemon_filesystem.go:2288-2329 | On text: line endings normalised, lines rewritten, endings restored; mixed endings refused |
| PatchText.TextRoundTrip | cmd/gh-copilot-codespace/daemon_filesystem.go:2331-2343 | Normalising, splitting and writing out again is the identity on every text that is accepted, LF or CRLF |
| PatchText.AcceptedEndings | cmd/gh-copilot-codespace/daemon_filesystem.go:2331-2343 | Which texts are accepted, and as what: those without a carriage return, unchanged; those whose carriage returns and newlines all come in pairs, with CRLF; no others |
| PatchText.LinesFixText | cmd/gh-copilot-codespace/daemon_filesystem.go:1810-1819 | Its lines and whether it ends with a newline determine a text |
| PatchText.WrittenLines | cmd/gh-copilot-codespace/daemon_filesystem.go:2281-2286 | Lines joined, with a newline behind the last, are read back as those lines |
| PatchText.RewritesTextOnce | cmd/gh-copilot-codespace/daemon_filesystem.go:2288-2329 | Text and hunks determine the outcome |
| PatchText.ContextOnlyKeepsText | cmd/gh-copilot-codespace/daemon_filesystem.go:2288-2329 | Context-only hunks give the original text back byte for byte |
| PatchSplice.SpliceLines | internal/ssh/client_filesystem.go:1625-1656 | The second engine, splicing in place with a moving cursor, produces the rewriting of the hunks that change anything |
| PatchSplice.FindSubsequence | internal/ssh/client_filesystem.go:1614-1623 | The least index where the lines stand, or none |
| PatchEngines.BothEngines | internal/ssh/client_filesystem.go:1625-1656 | On one file, under the condition below and with no empty anchor, both engines give the same lines or both fail |
| PatchEngines.EnginesAgreeExactly | internal/ssh/client_filesystem.go:1625-1656 | The two engines agree on every file exactly if every hunk changes something, or a hunk that changes something needs a line behind one that must reach the end of the file, where both always fail |
| PatchEngines.EnginesDiffer | internal/ssh/client_filesystem.go:1642-1643 | For every other list of hunks there is a file that one engine rewrites and the other refuses |
| PatchSplice.ContextOnlyHunksDiffer | internal/ssh/client_filesystem.go:1642-1643 | A concrete case: a context-only hunk the file lacks stops one engine and is skipped by the other |
| PatchParser.ParsePatch | cmd/gh-copilot-codespace/daemon_filesystem.go:1866-1915 | Terminates, the index only moving forward, and computes the meaning of the text that the grammar and the round trip are about |
| PatchParser.ParseAddPatch | cmd/gh-copilot-codespace/daemon_filesystem.go:1917-1939 | Reads an addition as specified, or refuses it |
| PatchParser.ParseUpdatePatch | cmd/gh-copilot-codespace/daemon_filesystem.go:1949-2013 | Reads an update with its move and hunks as specified, or refuses it |
| PatchParser.ParseHunks | cmd/gh-copilot-codespace/daemon_filesystem.go:1966-2006 | Reads the hunks up to the next operation |
| PatchRoundTrip.ParserInvertsPrinter | cmd/gh-copilot-codespace/daemon_filesystem.go:1866-2013 | For every list of well-formed operations, parsing the printed patch returns that list, with LF and with CRLF |
| PatchRoundTrip.AcceptedPrintsBack | cmd/gh-copilot-codespace/daemon_filesystem.go:1866-2013 | Every text the parser accepts means well-formed operations; printed, they mean the same again, if no line of the text still ends in a carriage return once its line endings are normalised |
| PatchRoundTrip.AcceptedAreWhole | cmd/gh-copilot-codespace/daemon_filesystem.go:1917-1939 | In what the parser accepts, an addition has lines, and no line of it holds a newline |
| PatchGrammar.AcceptsExactly | cmd/gh-copilot-codespace/daemon_filesystem.go:1866-2013 | A text means a list of operations exactly if its lines are that list written out by the grammar, in any spelling of the headers, with only empty lines behind the end marker |
| PatchGrammar.EndingKeepsMeaning | cmd/gh-copilot-codespace/daemon_filesystem.go:1876-1885 | A newline more behind an accepted text changes nothing |
| PatchGrammar.ParserInvertsPrinted | cmd/gh-copilot-codespace/daemon_filesystem.go:1866-1915 | A printed patch with any number of newlines behind its end marker is read back |
| PatchGrammar.NothingBehindEnd | cmd/gh-copilot-codespace/daemon_filesystem.go:1876-1882 | Anything else behind the end marker is refused |
| FileSystem.Disk.RenameNoReplace | cmd/gh-copilot-codespace/daemon_filesystem.go:2836-2844 | Moves a file to a free name, or changes nothing; fails without a fault only if it cannot |
| FileSystem.Disk.RenameExchange | cmd/gh-copilot-codespace/daemon_filesystem.go:2625-2628 | Swaps what two names hold, or changes nothing |
| FileSystem.Disk.Link | cmd/gh-copilot-codespace/daemon_filesystem.go:3050-3058 | A second name for a file, at a free name, or nothing |
| FileSystem.Disk.Unlink | cmd/gh-copilot-codespace/daemon_filesystem.go:2918-2924 | Removes a name; the tool may do so only for a state it has recorded, and no other file is lost |
| FileSystem.Disk.CreateTemp | cmd/gh-copilot-codespace/daemon.go:538-553 | An empty file under a name nobody uses and no planned path lies below |
| FileSystem.Disk.OpenTemp | cmd/gh-copilot-codespace/daemon.go:543-549 | Opened exclusively: an empty file with a new inode, or nothing |
| FileSystem.Disk.PathMatchesState | cmd/gh-copilot-codespace/daemon_filesystem.go:3028-3041 | True only if the path holds the recorded file; false without a failed read only if it does not |
| FileSystem.Disk.ReadPatchFile | cmd/gh-copilot-codespace/daemon_filesystem.go:2137-2199 | The state of a regular file, or an error |
| FileSystem.Disk.Others | cmd/gh-copilot-codespace/daemon_filesystem.go:2426-2459 | Another program's moves at a hook point: planned paths only, and where it acted and what it left is remembered |
| RootedWrite.WriteRootedFile | cmd/gh-copilot-codespace/daemon_rooted_unix.go:324-477 | Whoever interferes and whatever fails: success means the new content is live under the permission bits of the file that was inspected, or 0644 if there was none, and of others' files only the inspected one may go; after an error what others last left is live, or the new content is and a call failed after the exchange: the look at the live file, the exchange back, or an unlink; the error keeps every file it names, and no other hidden file is left; undisturbed, exactly the permitted writes succeed, and a replaced file keeps its permission bits; a replacement where nothing can be unlinked does end that way |
| RootedWrite.WrittenIsInstalled | cmd/gh-copilot-codespace/daemon_rooted_unix.go:340-370 | A written file has the content, and the permission bits of what was inspected |
| RootedWrite.WriteInspected | cmd/gh-copilot-codespace/daemon_rooted_unix.go:351-476 | Stage, commit, clean up, after the first look |
| RootedWrite.StageContent | cmd/gh-copilot-codespace/daemon_rooted_unix.go:351-370 | A hidden file with the content, or nothing |
| RootedWrite.Commit | cmd/gh-copilot-codespace/daemon_rooted_unix.go:371-476 | The hook before committing, then a new file or a replacement |
| RootedWrite.CommitNew | cmd/gh-copilot-codespace/daemon_rooted_unix.go:391-413 | A new file takes its name only if nobody else has |
| RootedWrite.CommitOver | cmd/gh-copilot-codespace/daemon_rooted_unix.go:384-476 | A replacement with a recovery copy, or an error that names what it kept |
| RootedWrite.CreateRecovery | cmd/gh-copilot-codespace/daemon_rooted_unix.go:164-245 | A copy of the destination if it is still as inspected, or nothing |
| RootedWrite.InspectDestination | cmd/gh-copilot-codespace/daemon_rooted_unix.go:102-162 | The state of a regular file or its absence |
| RootedWrite.ExchangeAndVerify | cmd/gh-copilot-codespace/daemon_rooted_unix.go:428-476 | Exchange and both checks: the displaced file was the inspected one, or others' files are put back or kept; what is live after an error, by the call that failed |
| RootedWrite.Verify | cmd/gh-copilot-codespace/daemon_rooted_unix.go:432-476 | After the exchange, with others acting before the checks |
| RootedWrite.SwapBack | cmd/gh-copilot-codespace/daemon_rooted_unix.go:438-461 | Exchanges back only while the staged file is live; otherwise the displaced file stays aside and is named. The staged file stays live only if the exchange fails or the look at it did |
| RootedWrite.DropBoth | cmd/gh-copilot-codespace/daemon_rooted_unix.go:463-476 | The inspected file and the recovery copy go, or the error names what is left |
| RootedCases.NewContentStays | cmd/gh-copilot-codespace/daemon_rooted_unix.go:463-476 | A write that returns an error with the new content live: nothing can be unlinked |
| RootedCases.NewContentNotSwappedBack | cmd/gh-copilot-codespace/daemon_rooted_unix.go:438-461 | Another: the exchange back fails, and the other program's file is left aside |
| ReconnectSafety.RunKeepsInvariant | internal/daemonclient/reconnect.go:142-271 | Over every run: at most one reconnect between claim and clear; published generations strictly increase; a caller starts at most two reconnects; every stream ever created is current, disposed, or held by a reconnect about to publish or dispose it |
| ReconnectSafety.StepKeepsInvariant | internal/daemonclient/reconnect.go:142-271 | Every step of callers, reconnects, deaths, the clock and `Close` keeps the invariant |
| ReconnectSafety.StepKeepsOne | internal/daemonclient/reconnect.go:145-181 | At most one reconnect is between claim and clear, and it is the one waiters wait for |
| ReconnectSafety.StepKeepsIncreasing | internal/daemonclient/reconnect.go:226-238 | Published generations strictly increase |
| ReconnectSafety.StepKeepsBounded | internal/daemonclient/reconnect.go:142-191 | A caller starts at most two reconnects |
| ReconnectSafety.StepKeepsAccounted | internal/daemonclient/reconnect.go:196-271 | No stream is forgotten |
| ReconnectSafety.StepKeepsClosing | internal/daemonclient/executor.go:641-670 | What a running `Close` holds stays true |
| ReconnectSafety.NothingPublishedAfterClose | internal/daemonclient/reconnect.go:226-232 | Once closed, in every continuation nothing is published and no reconnect is claimed |
| ReconnectSafety.EnterExactly | internal/daemonclient/reconnect.go:145-181 | In every state a run can reach: a caller gets the connection exactly if it is open, not the one to avoid and alive; waits exactly if it has none and one is on its way or may be started; starts one exactly then, after the cooldown, twice at most; otherwise it is refused |
| ReconnectSafety.WaiterWakes | internal/daemonclient/reconnect.go:156-190 | A waiting caller looks again once its reconnect is over, or gives up |
| ReconnectSafety.ReconnectRestores | internal/daemonclient/reconnect.go:196-242 | A reconnect whose steps succeed leaves a new connection published, no failure counted and no cooldown, whatever the callers and the clock do meanwhile |
| ReconnectSafety.FailureCools | internal/daemonclient/reconnect.go:246-256 | One that fails leaves the connection as it was, one failure more, and the cooldown of that many failures |
| ReconnectSafety.BackoffDoubles | internal/daemonclient/reconnect.go:308-328 | The first cooldown is the base, each further one twice the one before, up to the cap |
| ReconnectSafety.CloseDisposes | internal/daemonclient/executor.go:641-670 | When `Close` has returned, no reconnect is in flight and every stream is disposed or about to be |
| ReconnectSafety.ReconnectEnds | internal/daemonclient/reconnect.go:196-256 | Every step of a reconnect brings it nearer its end and no other step takes it back |
| Reconnect.ReconnectBackoff | internal/daemonclient/reconnect.go:308-328 | The doubling loop computes base times a power of two, capped, between base and cap |
| Executor.Executor.ObtainPass | internal/daemonclient/reconnect.go:145-181 | One pass under the lock: the connection is handed out exactly if it is open, not the one to avoid and alive; otherwise the caller waits for the reconnect in flight, claims one if the cooldown is over and it has not claimed two, or is refused; each pass is one step of the protocol |
| Executor.Executor.PublishConnection | internal/daemonclient/reconnect.go:226-242 | The end of a reconnect: published under a new generation, failures and cooldown cleared, unless closed; then the new stream is returned for disposal. It is one step of the protocol |
| Executor.Executor.RecordReconnectFailure | internal/daemonclient/reconnect.go:246-256 | A failure is one step; the cooldown is the backoff after that many failures |
| Executor.Executor.MarkClosed | internal/daemonclient/executor.go:641-646 | `Close` takes the current connection and the reconnect in flight, and no pass hands out a connection any more |
| Executor.Executor.Reread | internal/daemonclient/executor.go:657-662 | After waiting, what is current is what `Close` has disposed: nothing was published meanwhile |
| Executor.Executor.constructor | internal/daemonclient/executor.go:68-94 | A dialled executor satisfies the invariant |
| DaemonWrite.Connection.WriteFrame | internal/daemonclient/connection.go:237-283 | What reached the stream: at most the frame, after other whole frames; `written` exactly if some byte did. The frame is sent exactly under `Goes`, and a living generation stops carrying whole frames exactly under `Tears`: conditions over the stream, the context and what they do next; never with write deadlines or a context that cannot expire |
| DaemonWrite.Connection.WriteFrameWatched | internal/daemonclient/connection.go:268-282 | Without deadlines: part of a frame is left on a living generation exactly if the write failed half-way and the context expires either under the watch, whose goroutine has not run yet, or after the watch was stopped |
| DaemonWrite.Connection.WriteFrameWithDeadline | internal/daemonclient/connection.go:285-331 | With deadlines: whole frames only, always |
| DaemonWrite.Connection.WriteDaemonFrameBytes | internal/daemonclient/connection.go:333-349 | The bytes reported are exactly those written; success exactly if the stream takes all of them, in calls none of which fails or takes nothing |
| DaemonWrite.TakenMeans | internal/daemonclient/connection.go:333-349 | What is written is what the calls take up to the first that fails or takes nothing, or up to the last byte |
| DaemonWrite.Connection.AcquireToken | internal/daemonclient/connection.go:244-251 | While waiting, others' whole frames may be sent; nothing is, if the wait fails |
| DaemonWrite.TornFrame | internal/daemonclient/connection.go:268-282 | Both ways to do so, on a concrete stream: one byte of two on a generation that stays alive |
| DaemonSend.SendRequest | internal/daemonclient/executor.go:146-160 | The caller goes on waiting exactly if the frame is sent; told of a loss, the generation is dead, and the outcome is unknown exactly if some byte was written; interrupted only if its context has expired. What the frame writer reports is one step of the call protocol: the request counts as reached exactly if a byte got to the stream, the generation as torn exactly if part of the frame did |
| DaemonRuns.RunKeepsInvariant | internal/daemonclient/executor.go:129-222 | Over every interleaving of calls, cancels, probes, deaths, the server's loop and its workers, the invariant holds |
| DaemonRuns.StepKeepsInvariant | internal/daemonclient/executor.go:129-222 | Every step keeps it |
| DaemonRuns.AtMostOnce | internal/daemonclient/executor.go:136-160 | Each request is on at most one generation, at most once, and its handler is started at most once |
| DaemonRuns.RightAnswer | internal/daemonclient/executor.go:170-206 | A call that returns a reply returns what its own handler computed for its own payload on its own generation; or a cancellation it did not ask for, only after that generation has ended or got part of a frame |
| DaemonRuns.KnownLossNeverSent | internal/daemonclient/reconnect.go:123-137 | A loss with a known outcome: no byte of the request reached any stream and no handler ran |
| DaemonRuns.ServedCall | cmd/gh-copilot-codespace/daemon.go:212-222 | A worker serves a call sent on its generation, with its payload |
| DaemonCancel.CanceledNeverRuns | cmd/gh-copilot-codespace/daemon.go:187-257 | If the server has read a cancel frame before the worker started the handler, then in every continuation the handler never runs, and any reply for that request is the cancellation |
| DaemonCancel.RunIsHeeded | cmd/gh-copilot-codespace/daemon.go:187-257 | In every run, a request whose cancel frame was read is canceled in the table for as long as it is there |
| DaemonServes.CallSucceeds | internal/daemonclient/executor.go:129-206 | On a generation where nothing is under way, in any reachable state, a call that nobody disturbs runs its handler once and returns what it computed |
| DaemonServes.ResultIsSent | cmd/gh-copilot-codespace/daemon.go:212-220 | In every reachable state, what a running handler returns is sent, computed for its own call's payload, even if the call has been canceled meanwhile and the handler did not notice |
| DaemonServes.CancelReaches | internal/daemonclient/executor.go:176-206 | A cancellation delivered before the handler starts is answered as canceled, and the handler does not run |
| DaemonEnds.LossIsFinal | internal/daemonclient/executor.go:146-222 | In every run, a call that is told of a loss was sent on a generation that has ended, and stays so in every continuation |
| DaemonEnds.UndeliveredCancelIsFinal | internal/daemonclient/executor.go:208-222 | So has one whose cancel frame could not be delivered |
| DaemonEnds.WaiterIsTold | internal/daemonclient/executor.go:174-206 | A waiting call ends without a reply too: as lost once the reader has stopped or a probe has failed, as interrupted once its cancel frame has been tried |
| DaemonSafety.NextIsNew | cmd/gh-copilot-codespace/daemon.go:199-207 | The server never meets a request id that is in flight |
| DaemonSafety.GenOkServerRead | cmd/gh-copilot-codespace/daemon.go:186-209 | The server's read loop keeps the invariant |
| DaemonSafety.GenOkClientRead | internal/daemonclient/connection.go:84-120 | The client's read loop keeps the invariant |
| DaemonTables.Requests.Read | cmd/gh-copilot-codespace/daemon.go:186-209 | One turn of the read loop on the in-flight table: a request enters it, not canceled; a cancel frame cancels the request it names and no other. It is one step of the protocol, and a request is never refused as a duplicate |
| DaemonTables.Requests.CancelAll | cmd/gh-copilot-codespace/daemon.go:161-171 | The end of the stream cancels every request in flight |
| DaemonTables.Requests.Dispatch | cmd/gh-copilot-codespace/daemon.go:253-257 | The handler is started exactly if the table does not say that the request is canceled; a canceled request is answered so |
| DaemonTables.Requests.Remove | cmd/gh-copilot-codespace/daemon.go:218-220 | A request whose response is written leaves the table |
| DaemonTables.Pending.Store | internal/daemonclient/executor.go:142-144 | A call registers its channel before it writes |
| DaemonTables.Pending.Deliver | internal/daemonclient/connection.go:105-111 | A response goes to its own call's channel, if it waits and has room |
| DaemonTables.Pending.Take | internal/daemonclient/executor.go:172-173 | A waiting call takes its own reply, and its channel goes |
| Glob.MatchGlobSegments | cmd/gh-copilot-codespace/daemon_filesystem.go:1696-1725 | Terminates and is true exactly if the pattern's segments can be laid over the path's, `**` over any number |
| Glob.MatchFrom | cmd/gh-copilot-codespace/daemon_filesystem.go:1698-1723 | The loop and its recursive calls decide the same relation from any position |
| GlobBraces.ExpandBraces | cmd/gh-copilot-codespace/daemon_filesystem.go:1727-1759 | Computes the expansions in order |
| GlobBraces.SplitBraceAlternatives | cmd/gh-copilot-codespace/daemon_filesystem.go:1761-1780 | Splits at commas outside inner braces |
| GlobBraces.ExpandIsChoices | cmd/gh-copilot-codespace/daemon_filesystem.go:1727-1759 | Where braces are balanced, the expansions are every choice of one alternative per outermost group, in order; inner braces stay as they are written |
| GlobBraces.NestedStaysLiteral | cmd/gh-copilot-codespace/daemon_filesystem.go:1727-1759 | So `{a,{b,c}}` expands to `a` and `{b,c}` |
| GlobBraces.ChoicesArePicks | cmd/gh-copilot-codespace/daemon_filesystem.go:1727-1759 | The choices are exactly the concatenations of one pick per piece |
| GlobBraces.MatchGlobPattern | cmd/gh-copilot-codespace/daemon_filesystem.go:1674-1694 | True exactly if some expansion matches, by base name or by segments |
| GlobBraces.BaseNameIs | cmd/gh-copilot-codespace/daemon_filesystem.go:1674-1694 | The base name has no slash, and only a directory and a slash stand before it |
| GlobBraces.PatternMeans | cmd/gh-copilot-codespace/daemon_filesystem.go:1674-1694 | Where braces are balanced, a path matches exactly if some choice of one alternative per outermost group does |
| GrepStream.CollectGrepContent | cmd/gh-copilot-codespace/daemon_filesystem.go:1204-1332 | The one-pass search with its buffer of earlier lines feeds the collector exactly the lines in the context of a match, in order, with separators between groups |
| GrepStream.EmitMatch | cmd/gh-copilot-codespace/daemon_filesystem.go:1290-1314 | A match emits a separator if lines are left out, the earlier lines not yet shown, and itself |
| GrepBatch.RenderGrepContent | cmd/gh-copilot-codespace/daemon_filesystem.go:1373-1435 | Sorting, merging and printing windows gives the same lines and separators, in whatever order the matches come |
| GrepBatch.SortWindows | cmd/gh-copilot-codespace/daemon_filesystem.go:1399-1403 | A sorted permutation of the windows |
| GrepBatch.MergeWindows | cmd/gh-copilot-codespace/daemon_filesystem.go:1405-1414 | Disjoint windows, not touching, that cover the same lines |
| GrepBatch.PlanWindows | cmd/gh-copilot-codespace/daemon_filesystem.go:1383-1414 | They cover exactly the lines in the context of a match |
| GrepAgreement.BothSearches | cmd/gh-copilot-codespace/daemon_filesystem.go:1204-1435 | Both searches of a file give the same text, which reads back as the lines in the context of a match, numbered, with `:` or `-`, and a separator between groups; under limits the collector keeps a prefix of it on a sequence boundary, within the byte limit, marked truncated exactly if proper |
| GrepAgreement.RenderingReadsBack | cmd/gh-copilot-codespace/daemon_filesystem.go:1420-1432 | Every line of the output tells its number, whether it matches and its text |
| GrepAgreement.ContextUsed | cmd/gh-copilot-codespace/daemon_filesystem.go:1204-1225 | The context that is used: the common one if it is given, else each side's, within the byte limit |
| GrepItems.ItemsMean | cmd/gh-copilot-codespace/daemon_filesystem.go:1204-1332 | What is shown, read off the output: exactly the lines within the context of a match, in order, and a separator exactly where lines are left out between two of them |
| GrepCollector.Collector.AddLine | cmd/gh-copilot-codespace/daemon_filesystem.go:941-965 | Adds a line whole, or cuts it at the byte limit on a sequence boundary and stops |
| GrepCollector.Collector.TrimToValid | cmd/gh-copilot-codespace/daemon_filesystem.go:918-925 | The longest prefix that is valid text |
| GrepCollector.FeedIsPrefix | cmd/gh-copilot-codespace/daemon_filesystem.go:941-979 | Fed any valid lines, the collector keeps a prefix of their text, truncated exactly if proper |
| GrepCollector.NothingLongerKept | cmd/gh-copilot-codespace/daemon_filesystem.go:941-965 | Where the output stops short, it has the lines it may have, or no longer valid prefix fits the byte limit |
| GrepCollector.FeedTakes | cmd/gh-copilot-codespace/daemon_filesystem.go:941-965 | The lines counted are kept whole and are no more than the limit; the collector stops exactly at the first line for which the number of lines or of bytes is reached |
| GrepWindows.PlainNext | cmd/gh-copilot-codespace/daemon_filesystem.go:1315-1319 | One more line that does not match: shown exactly if the last window reaches it |
| GrepWindows.MatchNext | cmd/gh-copilot-codespace/daemon_filesystem.go:1290-1314 | One more line that matches: what it adds to the output |
| Utf8.CompletePrefix | cmd/gh-copilot-codespace/daemon_filesystem.go:530-543 | The longest prefix of whole sequences, and whether what follows is malformed |
| Utf8.ValidConcat | cmd/gh-copilot-codespace/daemon_filesystem.go:530-543 | Validity is decided piece by piece |
| Utf8Encoding.ValidIsEncoded | cmd/gh-copilot-codespace/daemon_filesystem.go:530-543 | Valid text is a sequence of scalar values, each encoded as in section 3 of RFC 3629 |
| Utf8Encoding.EncodedIsValid | cmd/gh-copilot-codespace/daemon_filesystem.go:530-543 | and every such sequence is valid text |
| Utf8Encoding.FullRuneMeans | cmd/gh-copilot-codespace/daemon_filesystem.go:533-535 | Bytes are full exactly if they start with a sequence, or nothing that follows can make them one |
| View.ViewTextFile | cmd/gh-copilot-codespace/daemon_filesystem.go:428-519 | However the reader splits them into fragments, lines of valid text are shown as the numbered lines of the range |
| View.AppendViewContent | cmd/gh-copilot-codespace/daemon_filesystem.go:545-569 | Appends what fits in 20 KiB with a newline, cut on a sequence boundary |
| View.ShowFragment | cmd/gh-copilot-codespace/daemon_filesystem.go:462-497 | A fragment adds its whole sequences to the line; the rest waits for the next one |
| ViewLaws.ShownIsRendering | cmd/gh-copilot-codespace/daemon_filesystem.go:428-519 | What is shown is the whole rendering, or, unforced, a prefix of it on a sequence boundary within 20 KiB |
| ViewLaws.ViewedIsRendering | cmd/gh-copilot-codespace/daemon_filesystem.go:428-519 | For any fragments of a text: the view is the rendering or that prefix; the last newline is missing exactly if the last fragment leaves its line unended and the line is in the range and not cut |
| ViewLaws.NothingLongerFits | cmd/gh-copilot-codespace/daemon_filesystem.go:545-569 | A view that is cut is cut as late as possible: no later place between two sequences, or after a number, leaves a text that fits |
| ViewFile.FileSlices | cmd/gh-copilot-codespace/daemon_filesystem.go:428-460 | The slices the reader delivers make up the lines of the file, and the last one leaves its line unended exactly if that line has no newline and fills whole buffers |
| ViewFile.FileViewIsRendering | cmd/gh-copilot-codespace/daemon_filesystem.go:428-519 | The view of a file is the numbered rendering of its lines or that prefix; the last newline is missing exactly if the last line has none, its length is a positive multiple of the buffer's, and it is in the range and not cut |
| ViewFile.ViewFile | cmd/gh-copilot-codespace/daemon_filesystem.go:428-519 | With the buffer of 4096 bytes: the numbered rendering of the range, or, unforced and if that is longer than 20 KiB, a part of it that fits; but for the newline of a last line that fills the buffer |
| ViewFile.FullBufferLineDiffers | cmd/gh-copilot-codespace/daemon_filesystem.go:433-510 | A file of one line of 4096 bytes is shown without the newline every other last line gets |
| ViewReads.RenderingReadsBack | cmd/gh-copilot-codespace/daemon_filesystem.go:462-519 | The rendering splits at its newlines into the lines of the range, from its first to its last, each behind its number in decimal, a dot and a space, and nothing else |
| ViewReads.FileLinesAreParts | cmd/gh-copilot-codespace/daemon_filesystem.go:440-460 | The lines of a file are its parts between newlines, but for an empty one behind the last newline |
| ViewLaws.ChunkIndependent | cmd/gh-copilot-codespace/daemon_filesystem.go:428-519 | Two readers delivering the same lines in different fragments get the same view |
| DirectoryWalk.WalkDirectory | internal/ssh/client_filesystem.go:942-989 | Page by page gives the same files as all at once, and paging ends |
| DirectoryWalk.WalkPage | internal/ssh/client_filesystem.go:954-985 | One page: files, and the walks of its directories at their place |
| DirectoryWalk.PageIs | internal/ssh/client_filesystem.go:125-149 | The page after the first entries holds the next ones, none twice and none left out |
| DirectoryWalk.SortedIncreasing | internal/ssh/client_filesystem.go:138-144 | The entries in strictly increasing order of their keys, the same ones |
| DirectoryWalk.IncreasingUnique | internal/ssh/client_filesystem.go:138-144 | There is only one such list |
| WalkOrder.WalkIncreasing | internal/ssh/client_filesystem.go:942-989 | Depth-first order is the order of the full relative paths, strictly increasing |
| WalkOrder.EntriesInOrder | internal/ssh/client_filesystem.go:134 | A directory's key with its slash sorts all below it in its place |
| WalkOrder.WalkLists | internal/ssh/client_filesystem.go:942-989 | The walk lists exactly the files that can be reached past no skipped name |
| WalkMerge.WalkSearchFiles | internal/ssh/client_filesystem.go:992-1015 | The heap merge yields all files of all roots, in strictly increasing order of what is shown and then of root |
| WalkMerge.PopLeast | internal/ssh/client_filesystem.go:1008-1009 | The least of the producers' next files |
| WalkMerge.SearchRoots | internal/ssh/client_filesystem.go:922-1015 | Walks and merge together: exactly the reachable files, each once for each root |
| WalkMerge.HandleGlob | internal/ssh/client_filesystem.go:1440-1474 | Of the wanted files' names the least ones up to the limit, strictly increasing, and truncated exactly if there are more |
| WalkMerge.DisplayedIncreasing | internal/ssh/client_filesystem.go:898-905 | Showing a root before each path keeps their order |
| WalkMerge.DisplayedBelow | internal/ssh/client_filesystem.go:898-905 | Below `.` a path is shown as it is, below the root directory behind its slash, below any other root behind the root and a slash |
| WalkMerge.NormMeans | internal/ssh/client_filesystem.go:898-899 | The root is shown cleaned, and with two slashes at the front exactly if it was given with two, not one or three |
| Lexicographic.LessMeans | internal/ssh/client_filesystem.go:134-144 | The order: the first place where two names differ decides, and a proper prefix comes first |
| PathScan.ScanPatch | internal/mcp/workspace.go:252-263 | Passes exactly the texts whose every header line names a path that passes the check; a patch that parses, exactly if every path of every operation does |
| PathScan.ScanCoversParser | internal/mcp/workspace.go:252-263 | In a patch that passes and parses, every path and move target, as the daemon resolves it, is the workdir or below it |
| PathScan.ScanIsExact | internal/mcp/workspace.go:252-263 | The scan of a patch that parses asks for the paths and move targets of its operations and for nothing else |
| PathScan.CheckedDirectory | internal/mcp/workspace.go:206-219 | The checked working directory is absolute and within the workdir |
| WorkspacePath.SamePath | internal/mcp/workspace.go:185-197 | The daemon resolves a checked path to the path that was checked |
| WorkspacePath.CheckedIsInside | internal/mcp/workspace.go:185-197 | What passes the check is the workdir or below it, with no way up left in it |
| WorkspacePath.PassesExactly | internal/mcp/workspace.go:185-197 | A path passes exactly if it is not blank, holds no forbidden character, scheme or way up, and lies within the workdir as the daemon resolves it; under the root directory, if it is the root |
| WorkspacePath.DownAndUp | internal/mcp/workspace.go:185-197 | A name followed by `..` cancels out, a name alone is kept; `..` at the root goes nowhere |
| Alias.DefaultAlias | internal/registry/registry.go:155-196 | For every repository and every list of taken aliases the search ends, with a valid alias of at most 128 characters that is not taken: the base if it is free, else the first free candidate |
| Alias.CandidatesDiffer | internal/registry/registry.go:185-195 | Different numbers give different candidates, even after cutting the base |
| Alias.CandidateMeans | internal/registry/registry.go:185-195 | A candidate is the base, a dash and the number, the base being cut only where the whole would be longer than 128 characters |
| Alias.BaseIsValid | internal/registry/registry.go:156-173 | The base is a valid alias, whatever the repository's name |
| Alias.BaseIsName | internal/registry/registry.go:156-173 | The base is what follows the last slash, from its first letter or digit on, cut at 128 characters, with a dash for each character an alias may not have; `codespace` if nothing is left |
| Alias.ValidNameIsBase | internal/registry/registry.go:156-173 | A name that is a valid alias is its own base |
| Alias.DecimalMeans | internal/registry/registry.go:187 | The number behind a candidate is written in decimal |
| Registry.Registry.Register | internal/registry/registry.go:39-51 | Adds a codespace exactly if alias and name are new; no codespace is ever connected twice |
| Registry.Registry.Deregister | internal/registry/registry.go:54-60 | Removes exactly that alias; its name is free again |
| Registry.Registry.Resolve | internal/registry/registry.go:64-87 | The codespace under an alias; without one, the only one connected; else which error |
| Registry.Registry.FindByName | internal/registry/registry.go:112-122 | Finds a codespace of that name exactly if there is one |
| Registry.Registry.RegisterDefault | cmd/gh-copilot-codespace/main.go:793-806 | Under its default alias a codespace can always be added, unless it is connected already; removing it restores what was there |

## Left out

- Symbolic links, directory descriptors and errno details: paths are taken as already resolved, and `os.MkdirAll` of a parent that exists does nothing.
- SSH, `gh`, tmux, process sessions and process groups, provisioners, the launcher, lifecycle tools and the user interface are not part of this model.
- JSON, base64, regular expressions, `path.Match` within a segment and MIME detection are parameters or absent; which lines match is given.
- The rg and fd backends are external programs; only the searches in the repository are modelled.
- `internal/mcp/local_copy_open_unix.go` runs the protocol of part C again, and the remote runner's own patch commit and rollback that of part A.
- Error wording, summaries and logging.
- FileSystem.Disk.Interfere: the other program puts files, never directories, and only at paths the patch names and at hook points; a test and the unlink that follows it are one step.
- PatchTransaction.PatchTransaction.CommitPatchPlan: all-or-nothing is stated for runs in which reads and unlinks succeed, as the code cannot keep it otherwise (a failed unlink at daemon_filesystem.go:2833 leaves a deleted source under its hidden name), for one failure at most, and, with a failure, for sources with plain permission bits. With other writers, that a source's content is saved is stated for the actions with an undo step; the action at which the commit fails may have none.
- PatchDirectories.CreateMissing: a directory that appears between the look and the creation does not occur, since nobody else makes directories.
- FileSystem.Disk.ReadPatchFile: opening, reading and looking again are one step, so a file that changes while it is read does not occur.
- PatchText.ApplyPatchHunks: cancellation within the hunk loop is left out; it is checked before planning each operation.
- PatchSplice.SpliceLines: an anchor that is present but empty is left out, as the two engines read it differently.
- RootedWrite.WriteRootedFile: starts from the opened parent directory; nobody acts between the live check at daemon_rooted_unix.go:437 and the swap back at line 442.
- DaemonCalls: the handshake and frames of unknown type are left out.
- DaemonWrite.Connection.AcquireToken: while a writer waits for the token, the frames the others send are whole; what follows a torn frame is not parsed.
- DaemonTables.Pending.Deliver: frames other than responses, which the loop ignores, are left out.
- Reconnect: time is a counter that any step may advance; timeouts are outcomes of the steps that wait.
- ReconnectSafety.ReconnectEnds: that a reconnect takes its next step is the scheduler's part and not stated.
- GrepStream.CollectGrepContent: lines too long for the reader, and files that turn out to be binary, are left out.
- GrepAgreement.BothSearches: context sizes are not negative and at most the byte limit, if there is one.
- View.ViewTextFile: states nothing about files with malformed text or NUL bytes, which are shown as binary, nor about cancellation.
- GlobBraces.PatternMeans: for patterns with unbalanced braces only what ExpandBraces computes is stated.
- GlobBraces.MatchGlobPattern: paths that end in a slash do not occur.
- DirectoryWalk.WalkDirectory: the tree does not change during the walk, and `heapq.nsmallest` is a sort; roots that are files, are missing or lie inside `.git` are left out.
- WalkMerge.HandleGlob: which files match the pattern is a parameter.
- Alias.DefaultAlias: the list of taken aliases is no longer than a slice can be.
- Registry.Registry.Register: executors, helper paths, clean-up functions and the lock are left out.
- PathScan.ScanPatch: the other arguments of the workspace's tools, and its table of shell sessions, are left out.
