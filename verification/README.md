# plumOS for the V90S: verified core

A Dafny model of the parts of plumOS that have to keep a handheld usable when power fails, when files
hold surprising names and when two threads share a screen, with proofs of what those parts promise.

- **Updates.** A runtime update replaces the files that plumOS manages on the card, one rename at a time, with a
  journal beside them; a system update writes the inactive one of two images. `RuntimeDisk` gives the atomic
  steps and the step lists of the updater, `RuntimeRecovery` and `RuntimeApply` say what a cut after any step
  followed by recovery leaves, `RuntimeLosses` shows the two places where a file is lost, `ManagedPaths`,
  `UpdatePackage` and `PackageBuilder` cover the packages, `PackageValidator` what the updater accepts,
  `UpdateRuns` whole histories of boots, and `RuntimeUpdater` is the updater itself, whose methods change fields
  and are tied to the step lists; `PendingUpdates` says by the texts of the files which requests it installs.
  `Lines` is how one-line files are read. `SystemSlots` is the A/B half with the init script's choice of the
  slot, and `SlotBoot` sets the two beside each other.
- **Saved state, the library index and launch commands.** `JsonText` prints, `JsonReader` is the scanning reader
  (which is no JSON parser), `JsonObjects`, `SavedLists` and `TokenBlocks` relate the two for objects and lists,
  `StateFiles` and `CoreOverrides` for the saved files, `SavedValues` says which values they accept;
  `JsonGrammar` is the grammar of RFC 8259, and by `JsonPrinted`, `JsonDocuments` and `IndexJson` everything
  written is a text of it; `StateStores` has the cursor loops and the tables that are changed in place,
  `LibraryIndex`, `LibraryRoundTrip`, `LibraryDocument`, `IndexRoundTrip` and `LibraryStore` the scanner's
  index. `ShellWords` splits the built commands the way a POSIX shell does, and `PosixWords` holds that
  splitting against the shell's own rules.
- **The screen.** `FrameExchange` interleaves the two threads of the frame drivers, `SharedFrames` has their
  critical sections in place and `FrameProgress` shows that nothing gets stuck; `PageFlip`, `ImageCache`, `Utf8` and
  `KanaMarks` are the framebuffer renderer, and `KanaTable` has the kana decompositions of the Unicode Character
  Database.
- **Smaller pieces.** `DeviceTree` patches a devicetree blob in place; `FlatTree` and `FlatBlob` write trees by the
  Devicetree Specification and say what the patcher makes of them. `TimedKeys` is the key service,
  `PathNormal` the lexical normalisation of paths, `PathLimit` the effect of its limit of 256 segments and
  `PathLeads` where a path leads before and after it.

Where the program changes fields, arrays or output text step by step, the model is a class or a method with a
loop whose `ensures` equates the result with a specification function; the lemmas are about that function.
What such a function shares with the program is said a second time in other terms: by the characters of a text, by
a table or a format of another standard, or by the values themselves (`WellMade`, `Fits`, `SaysB`, `Collected`,
`Decomposition`, `Image`, and the lemmas whose names end in `Is` or `Means`).
Automatic induction is switched off on every lemma, so each proof is in its body.

## What the code decides

Some plausible statements are false of the code; the model keeps the code and proves where the line runs.

- A cut between journaling an overwrite and moving the old file to the backup loses that file:
  `RuntimeApply.CrashRecovery` says that exactly those paths are lost (`OpenWindow`), and
  `RuntimeLosses.CutBeforeBackupLoses` is an instance. It takes no power cut: when the move itself, or the making
  of its directory, raises an error there, the exception handler's own rollback removes the file
  (scripts/plumos-system-update.py:525-543). `UpdateRuns.FailedUpdateLeaves` says that an update with an error in
  its loop leaves the tree as it was minus exactly that file.
- A rollback that was cut after it had put an overwritten file back, and is then run again, removes that file.
  `RuntimeRecovery.RepeatedRollbacks` gives the exact set of lost paths: overwrites without a backup, and
  overwrites that an earlier cut rollback restored. A cut after the removal but before the restore loses
  nothing. Deletions and new files are always undone.
- These two windows, and an update that gets to its end on a tree its package does not suit, are all that can go
  wrong: after any run without them, one more event keeps "old or new" if and only if it is not one of them
  (`UpdateRuns.OldOrNewExactly`).
- An update cut between its last journal status and the pending marker stays on the new tree without asking
  for a health confirmation (`CrashRecovery`, case `k == |all| - 1`).
- A symlink with the empty target passes the validator, since the empty path is "." there; what makes the
  validator refuse a built manifest is exactly an absolute target or one with ".." (`BuiltManifestAccepted`).
- The two programs that read the slot files strip different characters: the updater all white space, the init
  script the newlines at the end. They agree on the active slot if and only if no b stands between other blanks
  (`SlotBoot.AgreeExactly`). With a seed edited to end in a carriage return the init script boots a while an update
  takes a for the inactive slot and overwrites it (`SlotBoot.CarriageReturnOverwrites`); the texts that the programs
  and the image assembler write are read alike.
- During the trial boot of a pending slot an update overwrites the image that is running: the booted image is left
  alone if and only if the active slot was booted (`SlotBoot.BootedImageKept`). The active slot's image never is
  overwritten.
- The kana composition knows every pair of the Unicode Character Database but the two voiced iteration marks
  (`KanaTable.ComposeExactly`).
- Everything that is saved is JSON of exactly the saved values (`JsonDocuments`, `IndexJson`), but the program's
  own reader is no JSON parser: control bytes other than \b \f \n \r \t are written as \u00XX, as RFC 8259 has
  it, and read back as the five characters u00XX, so a text survives writing and reading if and only if it has
  none (`JsonReader.LiteralRoundTrip`), and a field gives it back if and only if it also fits
  (`JsonReader.BackIsSame`). What every saved table, session or set of overrides reads back as is stated without
  conditions (`FavoritesReadBack`, `RecentsReadBack`, `SessionReadsBack`, `OverridesReadBack`), and it is the
  saved one if and only if the table is a good one (`FavoritesRoundTrip` and its siblings): no game twice, texts
  that survive, and a title unless nothing short enough can take its place.
- A core override's CPU frequency is written but discarded by the loader. The program itself never sets one;
  overrides with frequencies read back as those without them (`CoreOverrides.FrequenciesDropped`).
- The array of normalised segments holds 256. A path leads to the same place after normalisation, in every
  symlink-free tree and from every directory of it, if and only if no segment was dropped after the path was last
  at its start, at the root, or 256 levels above its start (`PathLeads.LeadsSameExactly`). A path down 257 nested
  directories ends one short (`PathLeads.LongPathEndsShort`), while a long path that never has more than 256
  segments open is led correctly.
- A package leads to its target release if and only if the installed tree agrees with the target wherever the
  package's base does (`PackageBuilder.PatchGivesTarget`); for a package without a base, if and only if the tree
  has no managed path that the target lacks (`UpdateRuns.WholePackageSuits`).
- The first drawing page is apart from the visible one if and only if the start is page-aligned
  (`PageFlip.StartDisjoint`).
- The picture cache cuts a path that does not fit its slot when it stores it. The cache stays faithful if and
  only if the cut path loads to the same picture and sits in no other slot (`ImageCache.GetPicture`); otherwise
  the cut path is answered with the long path's picture (`CutPathAnswers`), and asking twice for the long path
  leaves two slots with one key (`CutPathTwice`). The frontend's own paths all fit.

## Model

| member | source | states |
|---|---|---|
| `RuntimeRecovery.UndoCut` | scripts/plumos-system-update.py:451-466 | undoing any journal prefix, cut after any step, touches only journaled paths, consumes exactly the backups it restores, and when complete leaves each path with its old content unless its overwrite has no backup |
| `RuntimeRecovery.RollbackCut` | scripts/plumos-system-update.py:445-469 | a rollback cut after any step can be continued by another one, and has lost from the backup exactly what it restored |
| `RuntimeRecovery.RollbackComplete` | scripts/plumos-system-update.py:445-469 | a complete rollback gives the pre-transaction tree minus exactly the overwrites without a backup, marks the journal rolled back and leaves nothing pending |
| `RuntimeRecovery.RepeatedRollbacks` | scripts/plumos-system-update.py:451-466 | after any number of cut rollbacks and a complete one, the paths lost are exactly the overwrites without a backup and those an earlier cut rollback had put back |
| `RuntimeApply.OpCut` | scripts/plumos-system-update.py:510-540 | one path of the update cut after any of its steps: the old content is still accounted for unless the cut falls between an overwrite's journal entry and its backup move |
| `RuntimeApply.LoopCut` | scripts/plumos-system-update.py:510-540 | the same for the whole loop: at most the last journaled path is without backup, and which one is read off the steps done |
| `RuntimeApply.LoopPatches` | scripts/plumos-system-update.py:510-540 | the loop run to its end leaves the live tree patched: deletions gone, payload in place, the rest untouched |
| `RuntimeApply.LoopJournal` | scripts/plumos-system-update.py:510-540 | and has journaled every path in order, with whether it was there, was moved to the backup and was installed |
| `RuntimeApply.ApplyCut` | scripts/plumos-system-update.py:476-552 | after every prefix of an apply: before the loop nothing has changed, in the loop a rollback is due and can succeed, after it the tree is the new one |
| `RuntimeApply.CrashRecovery` | scripts/plumos-system-update.py:494-543 | an apply cut after any step and then recovered gives the old tree minus exactly the open window, or the new tree when only the pending marker was missing |
| `RuntimeLosses.CutBeforeBackupLoses` | scripts/plumos-system-update.py:525-528 | for every tree and file, an update of that file cut right after its journal entry loses it in recovery |
| `RuntimeLosses.SecondRollbackLoses` | scripts/plumos-system-update.py:451-466 | a rollback cut after restoring a file and run again removes the file that a single rollback keeps |
| `ManagedPaths.SafeRelativeMeansReal` | scripts/plumos-system-update.py:184-188 | the accepted relative paths are "." and exactly those a directory walk can report: no empty, "." or ".." component, no leading slash |
| `UpdatePackage.SortOpsSorts` | scripts/plumos-system-update.py:472-473 | the plan is a permutation of the manifest's operations in key order, metadata last |
| `UpdatePackage.PlanByNames` | scripts/plumos-system-update.py:472-473 | in it the paths ascend, but VERSION, manifest.json and checksums.sha256 stand behind all others |
| `UpdatePackage.LoopMetadataLast` | scripts/plumos-system-update.py:505-540 | in a sorted plan, at every step either no metadata file has been touched or everything else is final |
| `UpdatePackage.MetadataCommittedLast` | scripts/plumos-system-update.py:505-552 | at every step of an apply, if VERSION, manifest.json or checksums.sha256 differs from before, every other path already has its final content |
| `PackageBuilder.ChangedEntriesAre` | scripts/build-v90s-update-package.py:220-236 | the file entries are distinct and are exactly the managed paths whose content differs from the base |
| `PackageBuilder.DeletedPathsAre` | scripts/build-v90s-update-package.py:220-240 | the deletions are distinct and exactly the managed base paths the new tree lacks |
| `PackageBuilder.RuntimeInventory` | scripts/build-v90s-update-package.py:131-139 | the inventory loop collects exactly the managed part of the tree |
| `PackageBuilder.ChangedFiles` | scripts/build-v90s-update-package.py:220-236 | the loop over the inventory yields the changed entries and their total size |
| `PackageBuilder.DeletedFiles` | scripts/build-v90s-update-package.py:220-240 | the loop over the base inventory yields the deletions |
| `PackageBuilder.BuildRuntime` | scripts/build-v90s-update-package.py:210-248 | succeeds exactly when the lines of the tree's VERSION, COMPAT_VENDOR and RUNTIME_ABI are the arguments, and then yields the diff manifest |
| `PackageValidator.CheckEntries` | scripts/plumos-system-update.py:275-330 | the loop over the declared files accepts exactly distinct, safe, managed entries present in the archive with harmless symlinks |
| `PackageValidator.CheckDeletes` | scripts/plumos-system-update.py:275-330 | the loop over the deletions accepts exactly safe managed paths |
| `PackageValidator.ValidateManifest` | scripts/plumos-system-update.py:275-330 | accepts exactly the well-made packages: for this device and vendor runtime, every declared path real, different and in the archive, everything in the archive declared, no symlink with a leading slash or ".." between its slashes, the payload's bytes as declared, and only paths that the builder collects carried or deleted |
| `PackageValidator.ValidIsWellMade` | scripts/plumos-system-update.py:275-330 | what its checks demand is exactly that, said by the texts |
| `PackageValidator.SameLists` | scripts/plumos-system-update.py:191-198 | the updater manages exactly the paths that the builder's own lists collect |
| `PackageValidator.PayloadOctetsIs` | scripts/plumos-system-update.py:297-322 | the declared size is the bytes of the files and of the symlink targets in UTF-8 |
| `PackageValidator.SymlinkStaysInside` | scripts/plumos-system-update.py:304-307 | following an accepted symlink's target from any directory never leaves that directory |
| `PackageValidator.UserPathsKept` | scripts/plumos-system-update.py:323-328 | an accepted runtime package neither carries nor deletes what PortMaster installed or a configuration that is not shipped |
| `PackageBuilder.BuiltManifestAccepted` | scripts/build-v90s-update-package.py:210-248 | the updater's validator accepts a built manifest if and only if no changed managed symlink has a target that starts with a slash or has ".." between its slashes |
| `PackageBuilder.BuiltScope` | scripts/build-v90s-update-package.py:107-139 | a built package declares what its archive holds and names managed paths only |
| `PackageBuilder.PlanOpsAre` | scripts/plumos-system-update.py:505-510 | the plan has one operation per declared or deleted path, and each installed file is staged |
| `PackageBuilder.BuiltManifestApplicable` | scripts/build-v90s-update-package.py:220-248 | a built manifest never names a path twice, so it can be applied |
| `PackageBuilder.PatchGivesTarget` | scripts/build-v90s-update-package.py:220-248 | for every live tree, base and target: applying the built manifest gives the target's managed part and keeps every other path if and only if the live tree agrees with the target wherever the base does |
| `PackageBuilder.DiffThenPatch` | scripts/build-v90s-update-package.py:220-248 | applying the manifest built from base and new to a tree whose managed part is the base makes its managed part exactly the new tree's and leaves every unmanaged path alone |
| `UpdateRuns.InstalledVersion` | scripts/plumos-system-update.py:333-361 | on a whole release the VERSION line identifies which one it is |
| `UpdateRuns.CompatibleIs` | scripts/plumos-system-update.py:333-361 | the compatibility check passes exactly when the lines of the installed files are the package's vendor runtime and, unless it is "*", its source version, the installed version is another one than the package's, and the ABI is in range |
| `UpdateRuns.AcceptedInstalls` | scripts/plumos-system-update.py:333-361 | a package that passes the compatibility checks can be applied, and gives its target release if and only if it suits the installed tree |
| `UpdateRuns.NamedSourceSuits` | scripts/plumos-system-update.py:333-361 | a package built against the release it names as its source suits every tree that accepts it |
| `UpdateRuns.WholePackageSuits` | scripts/build-v90s-update-package.py:219-244 | a package without a base, for any source, suits a tree if and only if the tree has no managed path the target lacks |
| `UpdateRuns.AcceptedLeavesWhole` | scripts/plumos-system-update.py:333-361 | an accepted package leaves a whole release if and only if it suits the installed tree or was built against its own target and so carries nothing |
| `UpdateRuns.RollbackExactly` | scripts/plumos-system-update.py:445-469 | a rollback, complete or cut anywhere, leads back to a whole release without loss if and only if no overwritten file lacked its backup and the cut is one after which no restored file is removed again |
| `UpdateRuns.EventExactly` | scripts/plumos-system-update.py:695-752 | an event keeps the invariant (a whole release, or a rollback due that leads back to one without loss) if and only if neither a cut nor a raised error falls in the two windows and an update that reaches its end suits the tree or carries nothing |
| `UpdateRuns.RunKeeps` | scripts/plumos-system-update.py:695-752 | so every run of such events keeps the invariant |
| `UpdateRuns.OldOrNew` | scripts/plumos-system-update.py:695-752 | from a whole release with no update under way, over every sequence of boots, requests, errors, confirmations and cuts in which no cut or raised error falls in the two windows and every update that reaches its end suits the tree: whenever apply-pending has returned the managed tree is wholly one release, and so it is after recovery from any stop |
| `UpdateRuns.OldOrNewExactly` | scripts/plumos-system-update.py:695-752 | these conditions are exact: after any such run, one more event leaves that true if and only if it meets them |
| `UpdateRuns.NamedOldOrNew` | scripts/plumos-system-update.py:695-752 | when every package was built against the release it names as its source, only the two windows have to be avoided |
| `UpdateRuns.FailedUpdateLeaves` | scripts/plumos-system-update.py:510-543 | an update in whose loop any step raises, followed by the whole rollback, leaves the old tree minus exactly the file whose overwrite was journaled and not yet backed up, if there is one |
| `UpdateRuns.UpdateLifecycle` | scripts/plumos-system-update.py:707-752 | an accepted update gives its target release if and only if it suits the tree; the next boot takes it back if it was not confirmed and keeps it if it was |
| `RuntimeUpdater.ExecNoError` | scripts/plumos-system-update.py:441-442 | without an error ahead, attempting steps is doing them until the power is cut |
| `RuntimeUpdater.ExecLoop` | scripts/plumos-system-update.py:510-543 | a loop in which one step raises, followed by either way out of it, is one list of steps |
| `RuntimeUpdater.Updater.constructor` | scripts/plumos-system-update.py:441-442 | the updater starts from what is on the disk |
| `RuntimeUpdater.Updater.UndoOperation` | scripts/plumos-system-update.py:451-466 | undoing one journal entry in place performs its undo steps |
| `RuntimeUpdater.Updater.RollbackRuntime` | scripts/plumos-system-update.py:445-469 | the rollback loop performs the rollback steps, last entry first |
| `RuntimeUpdater.Updater.ApplyOperation` | scripts/plumos-system-update.py:510-540 | the loop body performs the steps of its path in the journal's order |
| `RuntimeUpdater.Updater.ApplyLoop` | scripts/plumos-system-update.py:510-540 | the loop performs the steps of all paths |
| `RuntimeUpdater.Updater.RecoverPriorRuntime` | scripts/plumos-system-update.py:695-704 | boot-time recovery performs the recovery steps |
| `RuntimeUpdater.Updater.ApplyRuntime` | scripts/plumos-system-update.py:476-552 | for every error position and every cut the disk is that of the apply steps, with the rollback in place of the rest when a loop step raises; it succeeds exactly when none does |
| `RuntimeUpdater.Updater.ApplyPending` | scripts/plumos-system-update.py:707-727 | recovery, then, if the request is well made and fits the lines of the recovered files, the update, else nothing; cut by the power wherever it goes |
| `PendingUpdates.PendingInstalls` | scripts/plumos-system-update.py:707-727 | a package built from the installed release to one with another version, with harmless symlinks and for the installed vendor runtime, is installed by a boot that keeps its power: the managed tree is the new release, the user's files stay, it waits for its confirmation and can still be undone |
| `PendingUpdates.VersionFile` | scripts/plumos-system-update.py:118-122 | a file with the version and a newline is read as the version |
| `PendingUpdates.PendingRefused` | scripts/plumos-system-update.py:333-361 | a request for the installed version, from another version, for another vendor runtime or with the ABI out of range leaves exactly the recovered disk |
| `RuntimeUpdater.Updater.MarkHealthy` | scripts/plumos-system-update.py:730-742 | confirms a pending update in two steps and refuses a pending marker without a journal |
| `RuntimeUpdater.BootIsApplyPending` | scripts/plumos-system-update.py:707-727 | the boot events of whole runs are exactly what the updater's apply-pending leaves on the disk |
| `RuntimeUpdater.FailingUpdateIsPrefix` | scripts/plumos-system-update.py:541-543 | the failing boots of whole runs are prefixes of recovery, the loop up to the error, and the rollback |
| `RuntimeUpdater.FailingBootAttempts` | scripts/plumos-system-update.py:541-543 | and those are the steps apply-pending attempts when that step of its loop raises |
| `Lines.StripIs` | scripts/plumos-system-update.py:118-122 | what is read of a one-line file is the text between the blanks at both ends |
| `Lines.BlankCharacters` | scripts/plumos-system-update.py:118-122 | the blanks are the white space of the Unicode Character Database and the four separators of ASCII |
| `Lines.SubstitutedIs` | scripts/v90s-four-partition-init:445-447 | what the init script reads is the text before the newlines at the end |
| `SystemSlots.ActiveIs` | scripts/plumos-system-update.py:613-616 | the active slot is b when SYSTEM_ACTIVE says so, or is missing and the seed says so, and else a |
| `SystemSlots.ApplyCut` | scripts/plumos-system-update.py:604-692 | a system update cut anywhere changes only the inactive slot, only to a payload whose readback matched, and makes it pending only when image and description are both in place |
| `SystemSlots.ApplyComplete` | scripts/plumos-system-update.py:651-692 | run to its end it makes the inactive slot pending with the payload if the readback matched, and else changes no image |
| `SystemSlots.HealthyCut` | scripts/plumos-system-update.py:743-748 | a confirmation cut anywhere writes no image and only makes the pending slot active |
| `SystemSlots.EventSafe` | scripts/plumos-system-update.py:613-619 | no event, boots included, writes the image of the active slot, and active only becomes the pending slot |
| `SystemSlots.ActiveAlwaysComplete` | scripts/plumos-system-update.py:651-681 | over every run with cuts, errors and boots, the active slot's image is a complete payload that passed the readback, or the one it started with |
| `SystemSlots.SlotUpdater.CopyImage` | scripts/plumos-system-update.py:651-672 | the copy loop writes the temporary image only |
| `SystemSlots.SlotUpdater.ApplySystem` | scripts/plumos-system-update.py:604-692 | the system update in place: succeeds exactly when the readback matches; the slot that SYSTEM_ACTIVE or, without it, the seed names (a when neither does) keeps its image, and then the other one has the payload and is pending |
| `SystemSlots.SlotUpdater.MarkHealthy` | scripts/plumos-system-update.py:743-748 | the pending slot becomes active if it names a slot |
| `SystemSlots.SlotsAfterApply` | scripts/plumos-system-update.py:604-692 | the same about the steps of the update |
| `SlotBoot.NamedSlotKept` | scripts/plumos-system-update.py:613-619 | no event, whole or cut, writes the image of the slot that the files name as active |
| `SlotBoot.BootsComplete` | scripts/v90s-four-partition-init:445-560 | a boot runs the active or the pending slot, and only a complete image that matches its description; it goes to recovery only when the active slot's does not |
| `SlotBoot.TriedOnce` | scripts/v90s-four-partition-init:448-475 | a pending slot is tried at most once: without a confirmation the next boot rejects it and runs the active slot |
| `SlotBoot.BootedImageKept` | scripts/v90s-four-partition-init:460-470 | an update leaves the image that was booted alone if and only if the active slot was booted |
| `SlotBoot.AgreeExactly` | scripts/v90s-four-partition-init:445-447 | updater and init script agree on the active slot if and only if the updater reads no b that the init script does not |
| `SlotBoot.CarriageReturnOverwrites` | scripts/plumos-system-update.py:613-619 | with the seed "b" and a carriage return the init script boots a and an update overwrites a |
| `JsonText.WriteEscaped` | src/frontend/plumos_text_ui.c:888-924 | the printing loop appends the quoted, escaped text |
| `JsonReader.LiteralRoundTrip` | src/frontend/plumos_text_ui.c:662-709 | a printed literal reads back as the text with its other control bytes rewritten, and unchanged if and only if there are none |
| `JsonReader.BackIsSame` | src/frontend/plumos_text_ui.c:662-709 | a field gives a written text back if and only if the text fits and has no byte that does not survive |
| `JsonReader.EscapedQuotes` | src/frontend/plumos_text_ui.c:888-924 | every quote inside a printed literal follows a backslash |
| `JsonReader.FindKeyInLiteral` | src/frontend/plumos_text_ui.c:761-778 | no text inside a literal, however quoted, can be taken for a key |
| `JsonReader.FindKeyInDocument` | src/frontend/plumos_text_ui.c:761-778 | in a printed document the scan finds exactly the first literal equal to the key that a colon follows |
| `JsonReader.MatchTokens` | src/frontend/plumos_text_ui.c:711-759 | bracket matching delimits a printed container whatever brackets its literals contain |
| `JsonObjects.ObjectFinds` | src/frontend/plumos_text_ui.c:761-778 | in a printed object the scan finds the first field with the key, or nothing when there is none |
| `JsonObjects.GetStringIsLookup` | src/frontend/plumos_text_ui.c:848-864 | reading a string field of a printed object is looking it up, cut to the buffer |
| `JsonObjects.GetBoolIsLookup` | src/frontend/plumos_text_ui.c:874-886 | reading a truth value of a printed object is looking it up |
| `JsonObjects.GetLongIsLookup` | src/frontend/plumos_text_ui.c:866-872 | reading a number of a printed object gives the number printed |
| `JsonObjects.NextEntry` | src/frontend/plumos_text_ui.c:798-819 | the object loop takes exactly the next printed entry |
| `SavedLists.ListReadsBack` | src/frontend/plumos_text_ui.c:2365-2403 | loading a printed list of any entries is adding them one by one until the table is full |
| `SavedLists.ListRoundTrip` | src/frontend/plumos_text_ui.c:2408-2446 | the loading loop gives a printed list back as it was if and only if it fits the table and every entry is added back |
| `SavedLists.ListFileBody` | src/frontend/plumos_text_ui.c:780-787 | the list of a saved file is found by its name and delimited by its brackets |
| `SavedLists.TwoListFileBodies` | src/frontend/plumos_text_ui.c:1659-1737 | in a file with two lists the second is found behind everything the first contains |
| `StateFiles.FavoritesReadBack` | src/frontend/plumos_text_ui.c:2345-2446 | what any saved table of favorites reads back as: its entries as their texts come back, filtered, without repetitions, with missing titles filled in |
| `StateFiles.FavoritesRoundTrip` | src/frontend/plumos_text_ui.c:2345-2446 | a saved table of favorites loads back as it was if and only if it is a good table |
| `StateFiles.RecentsReadBack` | src/frontend/plumos_text_ui.c:2503-2618 | what any saved table of recently played games reads back as |
| `StateFiles.RecentsRoundTrip` | src/frontend/plumos_text_ui.c:2503-2618 | it loads back as it was if and only if it is a good table, every entry with a launch profile |
| `StateFiles.SessionReadsBack` | src/frontend/plumos_text_ui.c:2659-2735 | what any saved resume session reads back as, a missing reason filled in |
| `StateFiles.SessionRoundTrip` | src/frontend/plumos_text_ui.c:2659-2735 | it loads back as it was if and only if its texts fit and survive and it has a reason |
| `SavedValues.SystemIdMeans` | src/frontend/plumos_text_ui.c:418-429 | accepted system ids are nonempty, of ASCII letters, digits, "_" and "-" |
| `SavedValues.LaunchProfileMeans` | src/frontend/plumos_text_ui.c:431-442 | the same for launch profiles, with ":" and "." |
| `SavedValues.AcceptedStaysBelow` | src/frontend/plumos_text_ui.c:544-552 | an accepted relative path is not absolute and has no component ".." |
| `SavedValues.RefusedHasDots` | src/frontend/plumos_text_ui.c:544-552 | a path is refused only for being empty, absolute or "..", or for two dots beside a slash |
| `SavedValues.ContentSuffixMeans` | src/frontend/plumos_text_ui.c:490-507 | a content suffix is "#" and an accepted relative path without "#" and control characters |
| `SavedValues.OptionNames` | src/frontend/plumos_text_ui.c:444-473 | the accepted names of CPU policies, audio drivers and truth values |
| `SavedValues.CyclesMeans` | src/frontend/plumos_text_ui.c:475-488 | a number of cycles is accepted from 1 to 1000000 |
| `SavedValues.LatencyMeans` | src/frontend/plumos_text_ui.c:1636-1638 | a latency is kept from 1 to 1000 ms |
| `SavedValues.LoadedFavoritesSafe` | src/frontend/plumos_text_ui.c:2365-2403 | whatever the file contains, every loaded favorite has such a system id and a path below its directory |
| `SavedValues.OrdinaryFavorites` | src/frontend/plumos_text_ui.c:2345-2446 | up to 2048 different games whose texts are printable, fit and have a title are saved and loaded as they are |
| `SavedValues.OrdinaryRecents` | src/frontend/plumos_text_ui.c:2503-2618 | and so are up to 256 recently played ones with a launch profile |
| `SavedValues.OrdinaryOverrides` | src/frontend/plumos_text_ui.c:1543-1737 | and so are up to 256 system and 1024 ROM overrides with known options, set or not, but for their frequencies |
| `SavedValues.FavoriteOfMeans` | src/frontend/plumos_text_ui.c:2448-2471 | the entry made of a ROM has its texts where they fit, and its path where it has no title |
| `SavedValues.NoString` | src/frontend/plumos_text_ui.c:848-864 | a missing key, null and an unterminated string read as the empty text, any other value leaves the buffer as it was |
| `SavedValues.SpaceMeans` | src/frontend/plumos_text_ui.c:655-660 | the reader skips the white space of the C locale |
| `SavedValues.SignedNumbers` | src/frontend/plumos_text_ui.c:866-872 | numbers may have a sign, or white space in front |
| `JsonPrinted.QuotedDenotes` | src/frontend/plumos_text_ui.c:888-924 | a printed literal is a JSON string of exactly the text, control characters included |
| `JsonDocuments.FavoritesAreJson` | src/frontend/plumos_text_ui.c:2408-2446 | the file of any favorites is a JSON text by RFC 8259, of the object with the version and their values in order |
| `JsonDocuments.RecentsAreJson` | src/frontend/plumos_text_ui.c:2575-2618 | the same for recently played games |
| `JsonDocuments.SessionIsJson` | src/frontend/plumos_text_ui.c:2694-2735 | the same for any session |
| `JsonDocuments.OverridesAreJson` | src/frontend/plumos_text_ui.c:1659-1737 | the same for any core overrides, unset members left out |
| `IndexJson.IndexIsJson` | src/frontend/plumos_library_scan.c:1350-1494 | the index of any library is a JSON text of its head, the wanted systems with all their entries, and the summary |
| `CoreOverrides.OverridesReadBack` | src/frontend/plumos_text_ui.c:1543-1737 | what any saved core overrides read back as, both lists, invalid options cleared |
| `CoreOverrides.OverridesRoundTrip` | src/frontend/plumos_text_ui.c:1543-1737 | they load back as they were, both lists, if and only if every entry is good and has no frequency |
| `CoreOverrides.FrequenciesDropped` | src/frontend/plumos_text_ui.c:1543-1657 | any overrides read back as they do without their frequencies |
| `StateStores.DecodeStringAt` | src/frontend/plumos_text_ui.c:662-709 | the decoding loop with its cursor and bounded buffer computes the decoded text, cut to the buffer |
| `StateStores.MatchContainerAt` | src/frontend/plumos_text_ui.c:711-759 | the matching loop computes the length of the bracketed text |
| `StateStores.FindKeyFrom` | src/frontend/plumos_text_ui.c:761-778 | the scanning loop finds the value of the first matching key |
| `StateStores.FindArray` | src/frontend/plumos_text_ui.c:780-787 | a named array's body, or nothing |
| `StateStores.NextObjectFrom` | src/frontend/plumos_text_ui.c:798-819 | the next braced text and the cursor behind it |
| `StateStores.GetStringFrom` | src/frontend/plumos_text_ui.c:848-864 | the new contents of the caller's buffer |
| `StateStores.LoadList` | src/frontend/plumos_text_ui.c:2365-2403 | the loading loop of the saved lists |
| `StateStores.SaveList` | src/frontend/plumos_text_ui.c:2424-2443 | the printing loop of the saved lists writes the printed file |
| `StateStores.LoadedFavoritesDistinct` | src/frontend/plumos_text_ui.c:2365-2403 | whatever the file contains, the loaded table is within its limit and names no game twice |
| `StateStores.LoadedRecentsDistinct` | src/frontend/plumos_text_ui.c:2503-2573 | the same for recently played games |
| `StateStores.FavoriteStore.Load` | src/frontend/plumos_text_ui.c:2345-2406 | loads the table of the file, an empty one when there is no file, and fails without a list |
| `StateStores.FavoriteStore.Save` | src/frontend/plumos_text_ui.c:2408-2446 | writes the file that loads back |
| `StateStores.FavoriteStore.Find` | src/frontend/plumos_text_ui.c:2333-2343 | an index of that game, or -1 exactly when it is not in the table |
| `StateStores.FavoriteStore.Set` | src/frontend/plumos_text_ui.c:2448-2471 | replaces the game's entry where it stands or appends it, fails exactly on a full table without it, and keeps the table well-formed |
| `StateStores.FavoriteStore.Clear` | src/frontend/plumos_text_ui.c:2473-2485 | removes that game and nothing else, the later entries moving up |
| `StateStores.RecentStore.Load` | src/frontend/plumos_text_ui.c:2503-2573 | loads the table of the file; an empty file is an empty table |
| `StateStores.RecentStore.Add` | src/frontend/plumos_text_ui.c:2635-2652 | the game comes first, the others follow in their order, the oldest falls off a full table |
| `StateStores.PromotedFrom` | src/frontend/plumos_text_ui.c:2635-2652 | the two ways the code shifts the table both give "this game, then the others as they were" |
| `StateStores.PromotedDistinct` | src/frontend/plumos_text_ui.c:2635-2652 | no game is listed twice afterwards |
| `StateStores.SaveThenLoad` | src/frontend/plumos_text_ui.c:2345-2446 | the next start loads the saved table with every entry restored, and the same table if and only if it was a good one |
| `LibraryStore.WriteIndex` | src/frontend/plumos_library_scan.c:1350-1494 | the printing loops leave exactly the index document, commas included |
| `LibraryStore.CountRoms` | src/frontend/plumos_library_scan.c:1328-1348 | the counts of a system's entries and thumbnails |
| `LibraryStore.LoadRom` | src/frontend/plumos_text_ui.c:3316-3434 | one entry from its object |
| `LibraryStore.LoadRomEntries` | src/frontend/plumos_text_ui.c:3316-3434 | the nested reading loops give the entries of the first system with the id |
| `LibraryStore.ScanThenLoad` | src/frontend/plumos_library_scan.c:1350-1494 | writing an index and loading a system from it gives that system's entries in order |
| `IndexRoundTrip.IndexReadsBack` | src/frontend/plumos_library_scan.c:1350-1494 | for every library and shown system, reading the written index gives exactly its entries in order, each as it passes through the buffers, and the scan time |
| `LibraryRoundTrip.ReadRomBack` | src/frontend/plumos_text_ui.c:3316-3434 | one printed entry reads back, a null thumbnail as the empty one |
| `IndexRoundTrip.UnshownReadsEmpty` | src/frontend/plumos_text_ui.c:3316-3434 | a system that is disabled, filtered out or unknown reads as one without entries |
| `IndexRoundTrip.SeenUnchanged` | src/frontend/plumos_text_ui.c:3316-3434 | an entry with a title whose texts are plain and fit is seen as it was scanned |
| `LibraryDocument.ReadyBack` | src/frontend/plumos_library_scan.c:1350-1494 | the total time is read from the summary behind any number of systems |
| `ShellWords.SplitWord` | src/frontend/plumos_text_ui.c:595-616 | a shell reads one written word as exactly its characters, whatever quotes it contains |
| `ShellWords.SplitCommand` | src/frontend/plumos_text_ui.c:2915-2964 | splitting a built command gives back its words one for one |
| `ShellWords.WordKind` | src/frontend/plumos_text_ui.c:595-616 | only assignment words are taken for assignments; a quoted word never is |
| `ShellWords.CommandReadsBack` | src/frontend/plumos_text_ui.c:2865-3111 | the shell makes of every built command the intended assignments and arguments |
| `ShellWords.CommandBuffer.Append` | src/frontend/plumos_text_ui.c:219-232 | appends exactly when text and terminator fit |
| `ShellWords.CommandBuffer.AppendQuoted` | src/frontend/plumos_text_ui.c:595-616 | succeeds exactly when the quoted text fits, and then appends it |
| `ShellWords.CommandBuffer.Build` | src/frontend/plumos_text_ui.c:2915-2964 | a command fails exactly when it does not fit the buffer |
| `ShellWords.RetroarchCommand` | src/frontend/plumos_text_ui.c:2915-2964 | launcher, system, core and ROM path arrive as single arguments, unchanged, then the options that are set |
| `ShellWords.PyxelCommand` | src/frontend/plumos_text_ui.c:3005-3024 | the pyxel command reads back with its policy setting and arguments |
| `ShellWords.PicoarchCommand` | src/frontend/plumos_text_ui.c:3049-3071 | the picoarch command reads back with both settings and its arguments |
| `ShellWords.StandaloneCommand` | src/frontend/plumos_text_ui.c:3091-3111 | the standalone command reads back |
| `FrameExchange.NextKeeps` | docker/plumos-v90s-toolchain/picoarch/picoarch_v90s_fbdev.h:71-160 | every step of either thread or the caller keeps the exchange invariant |
| `FrameExchange.RunEvents` | docker/plumos-v90s-toolchain/picoarch/picoarch_v90s_fbdev.h:71-160 | so every state that any schedule reaches from a good one satisfies the invariant |
| `FrameExchange.NeverWrittenWhileShown` | docker/plumos-v90s-toolchain/picoarch/picoarch_v90s_fbdev.h:140-160 | under every interleaving the buffer being shown is neither written nor released |
| `FrameExchange.WholeFramesInOrder` | docker/plumos-v90s-toolchain/patches/pcsx_v90s_fbdev.h:82-107 | each shown picture is one whole produced frame and frames are shown in strictly increasing production order |
| `FrameExchange.NoFrameLostSilently` | docker/plumos-v90s-toolchain/patches/pcsx_v90s_fbdev.h:156-211 | a frame not shown is being shown, still pending, or was replaced by a newer one; at exit only the last one can be pending |
| `FrameProgress.NoDeadlock` | docker/plumos-v90s-toolchain/patches/pcsx_v90s_fbdev.h:82-211 | under every schedule, while a call of the producer is unfinished one of the threads can move |
| `FrameProgress.SubmittedIsProduced` | docker/plumos-v90s-toolchain/patches/pcsx_v90s_fbdev.h:156-187 | a frame submitted with the mutex free is produced and waits, in the waiting frame's buffer, the one not shown, or the first |
| `FrameProgress.WaitingIsShown` | docker/plumos-v90s-toolchain/patches/pcsx_v90s_fbdev.h:82-107 | a waiting frame is shown whole by a presenter that runs, unless it is told to stop |
| `FrameProgress.StopFrees` | docker/plumos-v90s-toolchain/patches/pcsx_v90s_fbdev.h:190-211 | told to stop, the presenter ends and the buffers are freed after it |
| `SharedFrames.CopyFrame` | docker/plumos-v90s-toolchain/patches/pcsx_v90s_fbdev.h:156-187 | the row loop lays the whole frame out in the buffer |
| `SharedFrames.ProducerSection` | docker/plumos-v90s-toolchain/patches/pcsx_v90s_fbdev.h:156-187 | the producer's steps of the interleaved protocol from the choice of the buffer to the publication do to the exchanged frames what the method does |
| `SharedFrames.TakeSection` | docker/plumos-v90s-toolchain/patches/pcsx_v90s_fbdev.h:82-107 | so does the presenter's step that takes the pending frame |
| `SharedFrames.ReleaseSection` | docker/plumos-v90s-toolchain/patches/pcsx_v90s_fbdev.h:82-107 | and the one that gives the shown frame's buffer back |
| `SharedFrames.Exchange.Present` | docker/plumos-v90s-toolchain/patches/pcsx_v90s_fbdev.h:156-187 | a frame that fits is stored whole in the buffer that is not being shown and becomes pending; one that does not fit changes nothing |
| `SharedFrames.Exchange.Take` | docker/plumos-v90s-toolchain/picoarch/picoarch_v90s_fbdev.h:71-96 | the presenter takes the pending frame, if there is one |
| `SharedFrames.Exchange.Release` | docker/plumos-v90s-toolchain/picoarch/picoarch_v90s_fbdev.h:71-96 | a shown frame's buffer becomes free again |
| `SharedFrames.ProduceWhileShown` | docker/plumos-v90s-toolchain/picoarch/picoarch_v90s_fbdev.h:140-160 | producing while a frame is shown leaves the shown picture alone |
| `Utf8.DecoderFollowsGrammar` | src/frontend/plumos_fbdev_renderer.h:746-800 | the decoder consumes more than one byte exactly on the multi-byte sequences of section 4 of RFC 3629, and their length |
| `Utf8.DecodeEncoded` | src/frontend/plumos_fbdev_renderer.h:746-839 | decoding an encoded scalar value gives it back whatever follows |
| `Utf8.EncodeDecoded` | src/frontend/plumos_fbdev_renderer.h:746-839 | encoding a decoded well-formed sequence gives its bytes back |
| `Utf8.EncodedText` | src/frontend/plumos_fbdev_renderer.h:802-839 | the same for whole texts, and encoded texts are well formed |
| `Utf8.WellFormedText` | src/frontend/plumos_fbdev_renderer.h:746-839 | re-encoding a decoded well-formed text gives back its bytes |
| `KanaMarks.Composed` | src/frontend/plumos_fbdev_renderer.h:841-893 | a composed kana is neither a base nor a mark of another composition |
| `KanaTable.ComposeExactly` | src/frontend/plumos_fbdev_renderer.h:841-893 | a base and a mark are composed to a kana if and only if the Unicode Character Database decomposes it to them and it is no iteration mark |
| `KanaTable.ComposeExpanded` | src/frontend/plumos_fbdev_renderer.h:895-931 | composing a decomposed text gives it back, but for the iteration marks |
| `KanaTable.DecomposedName` | src/frontend/plumos_fbdev_renderer.h:895-931 | and so does normalising its bytes, when the result fits |
| `KanaTable.HaBecomesBaOrPa` | src/frontend/plumos_fbdev_renderer.h:878-890 | the bytes of ha with the voicing mark become ba, with the semi-voicing mark pa |
| `KanaMarks.NormalizedText` | src/frontend/plumos_fbdev_renderer.h:895-931 | for any input and buffer size the output is well-formed UTF-8, no longer than the input, a code-point prefix of the composed text that ends only for lack of room, without a composable pair |
| `KanaMarks.NormalizedTwice` | src/frontend/plumos_fbdev_renderer.h:895-931 | normalising again changes nothing |
| `KanaMarks.AppendCodepoint` | src/frontend/plumos_fbdev_renderer.h:802-839 | appends a code point exactly when it fits with the terminator |
| `KanaMarks.NormalizeKanaMarks` | src/frontend/plumos_fbdev_renderer.h:895-931 | the loop computes the normalised text |
| `PageFlip.UsableMeans` | src/frontend/plumos_fbdev_renderer.h:3468-3492 | the framebuffers that pass are exactly those of 9 to 32 bits whose shown page lies in the memory |
| `PageFlip.StartsDoubleMeans` | src/frontend/plumos_fbdev_renderer.h:3496-3508 | two pages are used exactly when the lines make room for them, the shown one ends within them, and the memory holds the page that is drawn first |
| `PageFlip.TwoFullPages` | src/frontend/plumos_fbdev_renderer.h:3468-3508 | an ordinary framebuffer of two full pages is used with both, and its rows fit |
| `PageFlip.PaintedReads` | src/frontend/plumos_fbdev_renderer.h:161-173 | the bytes of a painted pixel, lowest first, are the colour |
| `PageFlip.PixelSteps` | src/frontend/plumos_fbdev_renderer.h:155-156 | pixels follow one another along a row, and rows at the distance of the line length |
| `PageFlip.TurnedPixel` | src/frontend/plumos_fbdev_renderer.h:151-154 | turned by 180 degrees, each pixel is as far from the last one as it was from the first |
| `PageFlip.StartDisjoint` | src/frontend/plumos_fbdev_renderer.h:3478-3508 | the first drawing page shares no byte with the visible one if and only if the start is aligned |
| `PageFlip.StoreColor` | src/frontend/plumos_fbdev_renderer.h:142-174 | the colour's bytes, lowest first, and nothing else |
| `PageFlip.CopyPage` | src/frontend/plumos_fbdev_renderer.h:232-278 | copying a page changes that page only |
| `PageFlip.PixelInPage` | src/frontend/plumos_fbdev_renderer.h:142-174 | with rows that fit the line length every screen pixel lies in its page |
| `PageFlip.Renderer.constructor` | src/frontend/plumos_fbdev_renderer.h:3440-3508 | both pages lie in the mapping; they are separate exactly for an aligned start or without double buffering |
| `PageFlip.Renderer.PutPixel` | src/frontend/plumos_fbdev_renderer.h:142-174 | paints exactly the pixel's bytes when they are in the mapping; with fitting rows it stays in the drawing page and never shows |
| `PageFlip.Renderer.Present` | src/frontend/plumos_fbdev_renderer.h:232-278 | the panel shows what was drawn; a failed pan copies it to the visible page and ends double buffering; afterwards the pages are separate |
| `ImageCache.VictimIsOldest` | src/frontend/plumos_fbdev_renderer.h:419-476 | the slot that makes way is free or the least recently used |
| `ImageCache.HitKeys` | src/frontend/plumos_fbdev_renderer.h:419-476 | a hit moves its key to the front of the use order |
| `ImageCache.MissKeys` | src/frontend/plumos_fbdev_renderer.h:419-476 | a miss puts its key in front and drops the last key of a full cache |
| `ImageCache.StaysCached` | src/frontend/plumos_fbdev_renderer.h:419-476 | a picture stays cached through any lookups of fewer other pictures than there are slots |
| `ImageCache.StoredExact` | src/frontend/plumos_fbdev_renderer.h:419-476 | a picture stored under another key leaves the cache faithful if and only if that key loads to the same and no other slot has it |
| `ImageCache.Cache.constructor` | src/frontend/plumos_fbdev_renderer.h:419-476 | an empty cache |
| `ImageCache.Cache.Find` | src/frontend/plumos_fbdev_renderer.h:419-476 | the slot that holds a key, or none exactly when no slot does |
| `ImageCache.Cache.Victim` | src/frontend/plumos_fbdev_renderer.h:419-476 | a free slot or one with the lowest counter |
| `ImageCache.Cache.Lookup` | src/frontend/plumos_fbdev_renderer.h:419-476 | a lookup equals a fresh load, keeps every key in one slot, follows the least-recently-used order without overflow, and changes no slot when loading fails |
| `ImageCache.Cache.LookupGlyph` | src/frontend/plumos_fbdev_renderer.h:1146-1234 | the same for glyphs, where lack of memory costs exactly the slot that was to make way |
| `ImageCache.GetPicture` | src/frontend/plumos_fbdev_renderer.h:419-476 | the picture cache with its path checks: a path that fits keeps the cache faithful; one that is stored cut does if and only if the cut path loads to the same picture and is in no other slot; stored paths always fit |
| `ImageCache.CutPathAnswers` | src/frontend/plumos_fbdev_renderer.h:419-476 | after a path that does not fit, its cut path is answered with the long path's picture |
| `ImageCache.CutPathTwice` | src/frontend/plumos_fbdev_renderer.h:419-476 | asking twice for a path that does not fit leaves two slots with one key |
| `DeviceTree.ReadName` | scripts/patch-v90s-boot-package-lcd-timing.py:37-42 | the zero-terminated ASCII name in its range, or an error |
| `DeviceTree.WriteCell` | scripts/patch-v90s-boot-package-lcd-timing.py:85-148 | a big-endian cell and no other byte |
| `DeviceTree.OpenPath` | scripts/patch-v90s-boot-package-lcd-timing.py:78-82 | the nonempty names of the open nodes |
| `DeviceTree.ReadToken` | scripts/patch-v90s-boot-package-lcd-timing.py:85-148 | the next token, its end and the open nodes after it, with every range check |
| `DeviceTree.WriteProperty` | scripts/patch-v90s-boot-package-lcd-timing.py:122-133 | a property is rejected exactly when a check fails, and then nothing is written |
| `DeviceTree.PatchCells` | scripts/patch-v90s-boot-package-lcd-timing.py:85-148 | raises exactly when the blob does not walk, a cell may not be written or one is missing; else every requested cell has its value, no other byte differs and the report lists the writes in order |
| `DeviceTree.PatchedWalk` | scripts/patch-v90s-boot-package-lcd-timing.py:85-148 | on a well-formed blob the patched one walks to the same nodes and properties at the same offsets |
| `DeviceTree.PatchBack` | scripts/patch-v90s-boot-package-lcd-timing.py:85-148 | patching back with the roles of old and new values exchanged goes through and restores every byte |
| `DeviceTree.FindEntry` | scripts/patch-v90s-boot-package-lcd-timing.py:45-53 | the first table entry named dtb |
| `DeviceTree.PatchEntry` | scripts/patch-v90s-boot-package-lcd-timing.py:182-186 | raises exactly when the blob is not patchable; else the patched blob replaces it, nothing outside it changes and the report lists the writes in order |
| `DeviceTree.PatchPackage` | scripts/patch-v90s-boot-package-lcd-timing.py:151-189 | either an error with the package unchanged, exactly when nothing is requested, no entry is found or its blob is not patchable, or the package with only the requested cells of its blob changed, and the report of the writes in order |
| `DeviceTree.EntryStays` | scripts/patch-v90s-boot-package-lcd-timing.py:45-53 | a package that keeps its entry table finds the same blob again |
| `DeviceTree.PackageStays` | scripts/patch-v90s-boot-package-lcd-timing.py:151-189 | a patched package whose blob lies behind the entry table finds the same entry, and a well-formed blob walks to the same nodes and properties |
| `DeviceTree.PackageBack` | scripts/patch-v90s-boot-package-lcd-timing.py:151-189 | patching that package back with the roles of old and new values exchanged goes through and restores every byte of it |
| `FlatTree.NameRead` | scripts/patch-v90s-boot-package-lcd-timing.py:37-42 | a name is read exactly when it stands there as ASCII with its terminator before the limit |
| `FlatTree.WalkWithoutEnd` | scripts/patch-v90s-boot-package-lcd-timing.py:85-148 | a structure block without its end token is read to its end |
| `FlatBlob.ReadsBack` | scripts/patch-v90s-boot-package-lcd-timing.py:85-148 | of a blob laid out by the Devicetree Specification the walk reads exactly the nodes and properties of its tree, with their paths, lengths and places |
| `FlatBlob.PatchableIsFit` | scripts/patch-v90s-boot-package-lcd-timing.py:85-148 | it can be patched exactly when every requested property is there, each one of that name one cell with the expected value |
| `FlatBlob.PatchesTheTree` | scripts/patch-v90s-boot-package-lcd-timing.py:85-148 | and the only result is the blob of the tree with the requested cells |
| `FlatBlob.EntryFound` | scripts/patch-v90s-boot-package-lcd-timing.py:45-53 | the entry named dtb is found behind any entries with other names |
| `FlatBlob.PatchesThePackage` | scripts/patch-v90s-boot-package-lcd-timing.py:151-189 | in a package, the same, and everything around the blob stays |
| `FlatBlob.PatchStored` | scripts/patch-v90s-boot-package-lcd-timing.py:151-189 | the patcher run on a package that carries the blob of a tree: it succeeds exactly when the tree fits, and leaves the package with the blob of the tree with the requested cells |
| `TimedKeys.Service.constructor` | src/services/plumos_v90s_hardware_keys.c:301-320 | no deadline, latch or pending change at the start |
| `TimedKeys.Service.GamepadKey` | src/services/plumos_v90s_hardware_keys.c:404-420 | deadline and latch follow the hold that the events describe |
| `TimedKeys.Service.GamepadClosed` | src/services/plumos_v90s_hardware_keys.c:457-462 | losing the gamepad cancels the hold |
| `TimedKeys.Service.VolumeKeysClosed` | src/services/plumos_v90s_hardware_keys.c:463-466 | losing the volume keys ends the repeat |
| `TimedKeys.Service.ChangeVolume` | src/services/plumos_v90s_hardware_keys.c:223-262 | one step up or down within 0 and 12; fails only when it had to write and could not |
| `TimedKeys.Service.VolumeKey` | src/services/plumos_v90s_hardware_keys.c:421-446 | a press acts once, starts the repeat and sets the persist deadline when it worked; a release ends its own repeat only |
| `TimedKeys.Service.CheckExit` | src/services/plumos_v90s_hardware_keys.c:472-482 | the exit helper runs exactly when it is due |
| `TimedKeys.Service.CheckRepeat` | src/services/plumos_v90s_hardware_keys.c:483-495 | a due repeat acts once more and is set again |
| `TimedKeys.Service.PersistPending` | src/services/plumos_v90s_hardware_keys.c:284-299 | each helper that works clears its own flag only |
| `TimedKeys.Service.CheckPersist` | src/services/plumos_v90s_hardware_keys.c:496-502 | a change is unsaved exactly while a deadline is set, so failed saves are retried |
| `TimedKeys.Service.Tick` | src/services/plumos_v90s_hardware_keys.c:472-502 | one turn of the loop runs the exit helper once if due and else not |
| `TimedKeys.DueMeans` | src/services/plumos_v90s_hardware_keys.c:472-482 | the exit is due when both buttons have been down for 1000 ms and it has not been run since |
| `TimedKeys.VolumeMeans` | src/services/plumos_v90s_hardware_keys.c:196-221 | a missing state file means volume 8, and what is beyond the scale is its end |
| `TimedKeys.OncePerHold` | src/services/plumos_v90s_hardware_keys.c:412-420 | between two runs of the exit helper a button was released or the gamepad lost |
| `TimedKeys.NeverEarly` | src/services/plumos_v90s_hardware_keys.c:472-482 | the helper runs only after both buttons were down for 1000 ms without a break |
| `TimedKeys.HoldBegan` | src/services/plumos_v90s_hardware_keys.c:412-420 | a hold starts at a press from which both buttons stayed down |
| `PathNormal.SegmentsAreNormal` | src/frontend/plumos_frontend.c:143-228 | no empty or "." segment, ".." only as a leading run of a relative path |
| `PathNormal.NormalizedTwice` | src/frontend/plumos_frontend.c:143-228 | normalising again changes nothing |
| `PathNormal.NormalizedNoLonger` | src/frontend/plumos_frontend.c:143-228 | the result is never longer than the path, so every path shorter than 4096 is normalised when there is room for 4096 |
| `PathLimit.SegmentsWhole` | src/frontend/plumos_frontend.c:143-228 | the kept segments are those of normalisation without a limit if and only if no segment was dropped after the path was last at its start or at the lowest place |
| `PathLimit.ShortPathInStep` | src/frontend/plumos_frontend.c:143-228 | a path of at most 256 segments, empty ones and "." aside, never loses one |
| `PathLeads.NormalizedLeads` | src/frontend/plumos_frontend.c:143-228 | in every symlink-free tree, a path that leads somewhere leads there after normalisation if no segment was dropped after it was last at its start or at the lowest place |
| `PathLeads.LossShows` | src/frontend/plumos_frontend.c:143-228 | when a segment is missing, some tree and start lead the path and its normalised form apart |
| `PathLeads.LeadsSameExactly` | src/frontend/plumos_frontend.c:143-228 | so normalisation is right in all trees and from all starts if and only if that holds, which is if and only if no kept segment is missing |
| `PathLeads.LongPathEndsShort` | src/frontend/plumos_frontend.c:143-228 | down 257 nested directories a path leads to the last one, and normalised to the one above it |
| `PathNormal.CollectSegments` | src/frontend/plumos_frontend.c:143-228 | the segment loop computes the kept segments |
| `PathNormal.AppendText` | src/frontend/plumos_frontend.c:108-117 | appends exactly when text and terminator fit |
| `PathNormal.NormalizePath` | src/frontend/plumos_frontend.c:143-228 | the normalised text, or nothing for the empty path and text that does not fit |
| `PathNormal.ResolvePath` | src/frontend/plumos_frontend.c:230-251 | an absolute path alone, a relative one below its base, normalised |
| `PathLeads.ResolvedLeads` | src/frontend/plumos_frontend.c:79-94 | a relative path below a base leads where it leads from the base's directory |

## Left out

- Signatures, SHA-256, archives, free-space checks, remounting and fsync: equal hashes are read as equal content, and a rename or a journal write is one durable step.
- The request file is an input of each boot, and removing the staging area and the request is not modelled; the range test of the runtime ABI is an input as well.
- Directories at managed targets: a tree is a flat map from paths to files and symlinks, so no path is a prefix of another one.
- Reading VERSION, COMPAT_VENDOR or RUNTIME_ABI through a symlink.
- Errors raised inside a rollback: they stop it like a cut.
- The init script's fast boot, which trusts an earlier verification of an image, and the format of the description file: a description is the content it describes.
- FlatBlob.PatchStored: the blobs have the layout of the Devicetree Specification in the order header, reserved memory, structure, strings; other orders are covered by DeviceTree.PatchPackage only.
- UpdateRuns.OldOrNew: says nothing about the events after the first one that breaks its conditions; what that one leaves is stated by RuntimeApply.CrashRecovery, RuntimeRecovery.RepeatedRollbacks, UpdateRuns.FailedUpdateLeaves and PackageBuilder.PatchGivesTarget.
- Core overrides and the session in place: their loading and saving are functions, while the tables of favorites and recents are changed in place.
- The other operations on core overrides, among them the lookup of the dos system with its fallback path.
- JsonObjects.GetLongIsLookup: numbers are unbounded; the overflow of strtol is not modelled.
- Temporary files and renames around the saved files and the index: saving yields the text.
- The scanner's directory walk, its check for entries seen before, thumbnail lookup and sorting; ROM ids appear as their printed text.
- Launch plans up to their command: joining paths, testing for files, external commands, and running the command.
- The mutex and the condition variable of SharedFrames: there, one critical section is one method.
- FrameExchange.NoFrameLostSilently: says nothing about when a waiting thread is scheduled; scaling, colour conversion and page flipping inside the frame drivers are not modelled.
- PageFlip.Renderer.Present: geometry is in unbounded integers, so 32-bit wrap-around is not modelled; copying between pages that overlap reads the old bytes.
- Drawing, layouts, palettes and text measuring in the renderer.
- ImageCache.Cache.Lookup: libpng and FreeType are one unchanging function from keys to pictures; reloading the font, and which of several free slots is taken, are not modelled, and once the use counter overflows only the order of use is lost.
- DeviceTree.PatchCells: which error is raised is not distinguished.
- TimedKeys.Service.Tick: the power menu and its debouncing, reopening devices and polling are not modelled; helpers are inputs that say whether they worked.
