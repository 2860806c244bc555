# What an OmniStore installation keeps when it crashes, and what its locks and algorithms promise

OmniStore keeps a user's files in ordinary directories, an ownership ledger and other tables in
SQLite, and, for every operation that touches more than one of the two, a journal with phase
markers. This project models that logic in Dafny and proves what it promises:

* **The crash-recovery journals.** Overwriting upload, replacing and completing parts of an S3
  multipart upload, moving and deleting inside one source, moving between sources, and moving to,
  restoring from and purging the trash. Durable state is files, markers and rows; one step is one
  rename, one file written or removed, one marker, one committed transaction. Removing or copying a
  tree is one step a node. A crash keeps the steps taken and drops the rest, the open transaction
  included. Recovery is a decision from durable state alone, and recovery can crash too, any
  number of times. The main theorems quantify over the point of every crash.
* **The lock managers.** The hierarchical path lock with its queue, the reference-counted
  lifecycle registry and the persistent WebDAV locks (sections 6 and 7 of RFC 4918), each as a
  state machine with safety over whole runs, for the first two with progress too, and as the
  class the program has.
* **Algorithms with a simple meaning.** Listing pagination, permission resolution, the
  aws-chunked decoder, ledger reconciliation, quotas and the exclusion globs, each against a
  declarative meaning written down separately.

`Crash` has the framework: durable state, plans of steps, what a cut plan leaves, what a chain of
cut recoveries leaves, and `Machine`, one process life with a limited number of steps left. In
each protocol module a plan says which steps the code takes, an invariant says what every cut
leaves, and lemmas prove it. Beside it stands a module whose name ends in `Run`, with methods in
the code's own form: they work on a `Machine`, which lets them take the plan's steps only and dies
exactly when it runs out of steps. Each is proved to run on while steps are left and to leave what
its plan, cut there, leaves; so every such life is one of the histories the lemmas are about. `Paths`, `Segments`,
`Strings`, `Sorting`, `Sets` and `Wrappers` are shared.

Where the code falls short of the promise, the exact condition is proved instead:

* An upload of a new file whose rollback is cut between removing the temporary file and removing
  the journal is refused by every later recovery (`Upload.StrandedExactly`); the old state is intact.
  Some history ends so exactly when the file is new (`Upload.RefusalIsPossibleExactly`).
* Replacing a part by identical bytes can be refused, and nothing else can
  (`MultipartPart.RefusalIsPossibleExactly`).
* A completed object that replaces another of the same size and modification time is taken for the
  old one after a crash (`MultipartComplete.CommitsExactly`), so the upload is kept although its object
  is already in place. Some history ends so exactly when the new object has the old one's size and
  time and is not the old one (`MultipartComplete.ReplacedButKeptExactly`).
* Across filesystems, an uncommitted trash operation whose tree is at its destination only is moved
  back without a marker; a second crash while that move removes the destination makes the next
  recovery lose the nodes removed so far (`Trash.SecondCrashLoses`), and no other cut does
  (`Trash.ExposedCut`). Some history ends unsettled exactly when the operation moves a tree of more
  than one node across filesystems and its rows can be committed (`TrashHistories.UnsettledExactly`).
* Undoing a move whose target is free on disk while tables still have rows at or below it takes those
  rows to the source, or is refused for good where two ledger rows would then share a path
  (`StaleTargets.MisplacedExactly`, `StaleTargets.RefusedExactly`).
* Restoring a tree to a place below the path named like its own trash key can fail on a row that would
  have moved out of the way later (`TrashRecords.OrderMatters`); anywhere else only real clashes fail
  (`TrashRecords.ClearExactly`).
* Restoring a tree gives every image row back exactly when no image under the path was in the
  trash already (`TrashRecords.RestoreUndoesTrash`): trashing takes such rows from the older entry.
* A truncated listing carries a token to go on with exactly when at least one key was asked for. With
  `max-keys=0` the page is empty, has no token, and is reported truncated exactly when some key
  matches (`Pagination.TokenExactly`).

## Model

| member | source | states |
|---|---|---|
| Upload.UploadIsAtomic | internal/files/upload_recovery.go:361-507 | for every crash point of the upload and of any chain of recoveries: the next recovery ends with exactly the old file and row or exactly the new ones and no temp, backup, journal or marker; a refusal needs a new file and a cut recovery, and the old state is then intact |
| Upload.StrandedExactly | internal/files/upload_recovery.go:736-748 | a cut recovery leaves a state every later one refuses if and only if a new file's prepared upload was being rolled back and the cut fell right after its temporary file was removed |
| Upload.RefusalIsPossibleExactly | internal/files/upload_recovery.go:480-507 | some crash of the upload and of its recoveries makes recovery refuse for good if and only if the file uploaded is new |
| Upload.RecoverySettles | internal/files/upload_recovery.go:617-751 | the whole decision table: from every recoverable state recovery is refused exactly when stranded, else stays recoverable at each step and settles, on the new side exactly when it completes |
| Upload.RefusesExactly | internal/files/upload_recovery.go:677-751 | when recovery refuses, whatever it finds on disk: exactly the combinations of temporary, final and backup file in which neither the new file is in place nor the upload can be taken back |
| Upload.ForeignFileStays | internal/files/upload_recovery.go:442-507 | a file at the object's path that is not the uploaded one survives recovery and rollback, on any disk and cut anywhere |
| Upload.ForwardSafe | internal/files/service.go:967-1034 | every state the upload passes is recoverable and not stranded; at its end file and row are the new ones and nothing is left over |
| UploadRun.RunUpload | internal/files/service.go:967-1034 | the upload as one process life: it dies exactly when its steps run out and leaves what the plan cut there leaves; done means new file and row and nothing left over, died a recoverable, not stranded state |
| UploadRun.WriteUploadTemp | internal/files/service.go:1064-1104 | writing the temporary file goes through every shorter prefix and ends with the whole content, unless the process runs out of steps first |
| UploadRun.InstallUploadedFile | internal/files/upload_recovery.go:361-378 | takes all the install steps there is power for, the backup only when a file is replaced |
| UploadRun.RollbackUploadOperation | internal/files/upload_recovery.go:442-507 | refuses exactly the unsafe combinations of final, backup and temp, and otherwise takes all the rollback steps there is power for |
| UploadRun.RollbackPlannedUpload | internal/files/upload_recovery.go:389-421 | refuses exactly when the target was touched before the journal was prepared, and otherwise drops the temp and the journal as far as there is power |
| UploadRun.RecoverFileUpload | internal/files/upload_recovery.go:617-751 | one recovery as one process life: refused exactly when stranded, dead exactly when its steps run out and then recoverable, settled otherwise |
| MultipartPart.PartIsAtomic | internal/s3api/multipart_part_recovery.go:258-439 | for every chain of crashes: row and part file end both old or both new, the old bytes restored exactly; a refusal means old and new bytes are identical and still on disk |
| MultipartPart.RefusalIsPossibleExactly | internal/s3api/multipart_part_recovery.go:329-333 | some crash makes recovery refuse if and only if the uploaded bytes are the part's own |
| MultipartPart.RecoverySettles | internal/s3api/multipart_part_recovery.go:362-439 | the decision table: refused exactly in the ambiguous states, else every step stays recoverable and row and file agree at the end |
| MultipartPart.RefusesExactly | internal/s3api/multipart_part_recovery.go:299-439 | when recovery refuses, whatever it finds: the new row without its file, a row that is neither old nor new, or files of which taking the part back would lose one |
| MultipartPart.OtherFileStays | internal/s3api/multipart_part_recovery.go:299-439 | while the upload exists, a file in the part's place that is not the new part survives recovery, on any disk and cut anywhere |
| MultipartPart.ForwardSafe | internal/s3api/multipart.go:222-302 | every state part replacement passes is recoverable and its last holds the new part only |
| MultipartPartRun.UploadPart | internal/s3api/multipart.go:149-302 | one process life, dead exactly when its steps run out: a part whose file does not match its row is refused and left exactly as it was; done means the new row, the new file, no backup |
| MultipartPartRun.BrokenOldPart | internal/s3api/multipart.go:240-252 | a new part dropped because the old one is broken changes nothing but its own temporary file |
| MultipartPartRun.RollbackPart | internal/s3api/multipart_part_recovery.go:299-360 | refuses exactly the unsafe combinations of files and otherwise takes all the rollback steps there is power for |
| MultipartPartRun.RecoverPart | internal/s3api/multipart_part_recovery.go:571-610 | one recovery as one process life: refused exactly when ambiguous, dead exactly when its steps run out, settled otherwise |
| MultipartComplete.CompleteIsAtomic | internal/s3api/multipart_recovery.go:337-372 | upload recovery and then completion recovery, after any crashes of any of them: the upload with all its parts, whole for the same request, and the previous object (or, on the collision below, the new one), or the upload gone, the object the requested part files in order and the composite tag stored |
| MultipartComplete.CommitsExactly | internal/s3api/multipart_recovery.go:352-366 | while the completion is journalled and the upload is there, startup commits exactly when the ordinary recovery leaves the new object and size or time tell it from the old one; which object is in place afterwards is said either way |
| MultipartComplete.GoneUploadLeavesObject | internal/s3api/multipart_recovery.go:337-351 | once the upload is gone its completion is only tidied away: object and stored tag stay as they are, on any disk and cut anywhere |
| MultipartComplete.ReplacedButKeptExactly | internal/s3api/multipart_recovery.go:358-362 | some crashes make startup keep the upload with its object replaced if and only if the new object has the old one's size and time and is not the old one |
| MultipartComplete.CutBeforeCommit | internal/s3api/multipart.go:434-450 | such a history: the process dies between the ordinary upload and the commit |
| MultipartComplete.RecoverySettles | cmd/omnistore/main.go:158-184 | both recoveries in startup order are refused only where the ordinary upload is stranded and otherwise settle |
| MultipartComplete.ForwardSafe | internal/s3api/multipart.go:326-450 | every state of a completion with the upload inside it is recoverable; at its end the upload is gone |
| MultipartComplete.SelectParts | internal/s3api/multipart.go:348-386 | selection succeeds exactly on strictly ascending, matching parts of allowed sizes and then yields them in order with their total size |
| MultipartComplete.WholePartsAssemble | internal/s3api/multipart_recovery.go:244-276 | part files that match their rows, one after another, are the bytes whose digests the request names |
| MultipartComplete.SequentialPartReader.Read | internal/s3api/multipart.go:654-679 | each read hands out the next bytes of the concatenated parts, at least one until the end, and reports the end exactly there |
| MultipartComplete.SequentialPartReader.CopyAll | internal/s3api/multipart.go:654-679 | reading to the end delivers the parts' bytes in order, whatever the short reads |
| MultipartCompleteRun.ResolveCompletion | internal/s3api/multipart_recovery.go:337-372 | commits exactly when the upload is gone already, or the object has the parts' bytes and is not to be taken for the old one, and takes all the steps there is power for |
| MultipartCompleteRun.RecoverCompletion | internal/s3api/multipart_recovery.go:425-465 | one startup as one process life: refused exactly where the upload is stranded, dead exactly when its steps run out, settled otherwise |
| MultipartCompleteRun.Complete | internal/s3api/multipart.go:326-450 | Complete from the request on, as one process life: refused without a trace exactly when the upload is gone, the request is not acceptable or a part file does not match; done means the object is the part files asked for, in order, and the upload is gone |
| MultipartCompleteRun.HashSelectedParts | internal/s3api/multipart_recovery.go:244-276 | accepts exactly when every part file asked for is there and matches |
| PathOps.PathOperationIsAtomic | internal/files/path_recovery.go:421-549 | for every chain of crashes, disk and all three tables end together at the source or together at the target, a journalled delete ends with both gone, and recovery is never refused |
| PathOps.RecoverySettles | internal/files/path_recovery.go:421-549 | the decision table: a move ends at the target exactly when its database marker exists, an uncommitted delete always rolls forward |
| PathOps.MarkerDecides | internal/files/path_recovery.go:508-549 | a move cut before its database marker ends at the source and one cut at or after it at the target, whatever the restarts and wherever each is cut |
| PathOps.RefusesExactly | internal/files/path_recovery.go:471-549 | when recovery refuses, on any disk and any tables: by the places that exist and by a clash of rows |
| PathOps.MovedExactly | internal/files/path_recovery.go:196-242 | what was at the source or followed it, on disk and in each table, is at the target with the same suffix; all else is as it was |
| PathOps.DeletedExactly | internal/files/path_recovery.go:244-277 | of each table exactly the rows at the path and, for a directory, those below it are gone, and of the disk exactly the subtree |
| StaleTargets.StaleMoveEnds | internal/files/path_recovery.go:421-549 | a move whose target is free on disk but not in the tables, after any crashes: refused, or at the target, or the tree at the source with the tables as they were or with the target's rows rebased onto the source |
| StaleTargets.RefusedExactly | internal/files/path_recovery.go:525-544 | recovery of such a move can be refused for good if and only if two ledger rows would share a path once the target's rows were rebased onto the source |
| StaleTargets.MisplacedExactly | internal/files/path_recovery.go:525-544 | such a move is undone with its tables changed if and only if some row lay at or below the target and there is no such clash |
| PathOps.MetadataMoves | internal/files/path_recovery.go:196-242 | moving a subtree's rows is injective, idempotent and undone by the reverse move, in the ledger, image and share tables alike |
| PathOps.MoveForwardSafe | internal/files/service.go:1284-1326 | every state a same-source move passes is recoverable; at its end disk and tables are at the target |
| PathOps.DeleteForwardSafe | internal/files/service.go:1146-1177 | every state a permanent delete passes, node by node, is recoverable; at its end disk and rows are gone |
| PathOps.CommittedDeleteIsInert | internal/files/path_recovery.go:456-469 | once a delete has its database marker, no restart, however cut, changes disk or tables again, so what was written there since survives |
| PathOps.RecoveryKeepsGuardedWrites | internal/files/path_recovery.go:351-398 | recovery of a journal the write guard does not count, on any disk and cut anywhere, leaves everything at or below the written path alone |
| PathOps.GuardPendingWrite | internal/files/path_recovery.go:351-398 | lets a write through exactly when none of its paths is at, above or below a path of a pending journal, committed deletes aside |
| PathOps.UpdateRecords | internal/files/path_recovery.go:196-242 | the row-by-row update under the unique index fails exactly when the moved ledger as a whole would hold two rows at one path |
| PathOps.MovePathMetadata | internal/files/path_recovery.go:196-242 | all three tables move or none does, which is what the move's transaction step does |
| PathOpsRun.RunPathOperation | internal/files/service.go:1284-1326 | a move or delete as one process life, dead exactly when its steps run out and then recoverable; done means the end state with no journal |
| PathOpsRun.RecoverPathOperation | internal/files/path_recovery.go:421-549 | one recovery as one process life: never refused, dead exactly when its steps run out, and otherwise on the side its database marker says |
| Transfer.TransferIsAtomic | internal/files/transfer_recovery.go:308-429 | for every chain of crashes: the source tree is untouched while the commit marker is absent, the target tree complete once it exists, and one recovery puts tree, ledger, image and share rows on one side |
| Transfer.RecoverySettles | internal/files/transfer_recovery.go:308-429 | the decision table: from every recoverable state recovery proceeds and ends on the target if the commit marker was there, else exactly in the starting state |
| Transfer.ForwardSafe | internal/files/transfer.go:125-181 | every state of the node-by-node copy, the record switch and the node-by-node removal is recoverable; the end is at the target |
| Transfer.RollbackUndoesSync | internal/files/transfer.go:556-579 | rolling records back after the switch returns every row, owner included, to the source |
| Transfer.RollbackKeepsSource | internal/files/transfer.go:556-579 | rolling records back when none were switched changes no row |
| Transfer.ReconcileRestores | internal/files/transfer.go:573-577 | reconciling against the untouched source tree restores the starting ledger exactly, sizes and times included |
| Transfer.OwnersTravel | internal/files/transfer.go:412-483 | on the target each moved file has one row at its new path with its old owner and its copy's size and time; the source's rows are exactly its remaining files; other target rows are as they were |
| Transfer.PlacesTravel | internal/files/transfer.go:475-480 | an image or share row that pointed at the moved root or below it points to the same place on the target; every other one is as it was |
| Transfer.TreeTravels | internal/files/transfer.go:125-181 | each moved node is at its new place with its bytes and gone from the old one; at the new place there is nothing else, and both trees are otherwise as they were |
| Transfer.RefusesExactly | internal/files/transfer_recovery.go:370-403 | when recovery refuses, whatever it finds: past the commit marker without the target's marker or tree, before it without the source |
| Transfer.SyncTransferRecords | internal/files/transfer.go:412-483 | the row-by-row switch yields the switched ledger as a whole |
| Transfer.MoveFileRecordsBack | internal/files/transfer.go:581-612 | bringing rows back one by one displaces exactly the rows in the way and empties the target subtree |
| Transfer.RollbackTransferRecords | internal/files/transfer.go:556-579 | the reverse transaction over all three tables |
| Transfer.MovePlaceRows | internal/files/transfer.go:492-554 | image and share rows are repointed one by one, those of the subtree and no others |
| TransferRun.RunTransfer | internal/files/transfer.go:125-181 | the move as one process life, dead exactly when its steps run out and then recoverable; done means settled on the target |
| TransferRun.RecoverTransfer | internal/files/transfer_recovery.go:308-429 | one recovery as one process life: never refused, dead exactly when its steps run out, and otherwise on the side the commit marker says |
| Trash.TrashIsAtomic | internal/files/trash_recovery.go:225-309 | after one crash anywhere, and after any number where the tree moves by a rename or no exposed recovery dies while removing: the complete tree is in exactly one place, the payload if and only if the entry row survives; a purge leaves neither |
| Trash.RecoverySettles | internal/files/trash_recovery.go:311-467 | the decision table of move, restore and purge: never refused from a recoverable state, and settled on the side the entry row says |
| Trash.RefusesExactly | internal/files/trash_recovery.go:311-467 | when recovery refuses, whatever it finds: no tree at all, or a committed move to the trash with one in both places |
| Trash.CommittedMovesOn | internal/files/trash_recovery.go:336-349 | a committed operation whose tree is found where it began is carried on, on any disk |
| Trash.RecoveryTidies | internal/files/trash_recovery.go:336-385 | a recovery that runs to its end, whatever it found, leaves neither journal nor marker, and no entry's directory where it undid a move to the trash or completed a restore |
| Trash.ExposedCut | internal/files/trash_recovery.go:351-359 | when the unmarked move back is cut, the next recovery settles if and only if the cut was not inside the removal of the destination |
| Trash.SecondCrashLoses | internal/files/trash_recovery.go:363-375 | cut inside that removal, the next recovery deletes the complete tree and keeps exactly the nodes not yet removed |
| TrashHistories.UnsettledExactly | internal/files/trash_recovery.go:350-385 | some crashes leave the operation unsettled after a full recovery if and only if it moves a tree of more than one node across filesystems with rows that can be committed |
| TrashHistories.LosingHistory | internal/files/trash_recovery.go:351-359 | such a history: dead with the tree moved and nothing committed, then dead once recovery removed a node of the tree it had copied back |
| Trash.RecoverySafe | internal/files/trash_recovery.go:311-478 | every step of a recovery that is not exposed stays recoverable |
| Trash.ForwardSafe | internal/files/trash.go:65-123 | every state of a trash operation is recoverable; it ends at the destination, or, when a restore's rows clash, with everything as it was |
| Trash.MoveTreeEffect | internal/files/trash.go:578-598 | a tree moved by rename or by copy, marker and removal is whole at the other place and gone from the first |
| TrashRun.MoveFilesystemTree | internal/files/trash.go:578-598 | takes one rename, or the copy, the marker if any, and the removal, as far as there is power |
| TrashRun.RunMoveToTrash | internal/files/trash.go:39-132 | moving to the trash as one process life, dead exactly when its steps run out and then recoverable; done means payload, entry and trashed rows together |
| TrashRun.RunRestoreTrash | internal/files/trash.go:277-377 | restoring as one process life, dead exactly when its steps run out: refused exactly when a row would land on another and then unchanged; done means the tree at its target and the entry gone |
| TrashRun.RunPurgeTrash | internal/files/trash.go:501-534 | purging as one process life, dead exactly when its steps run out: done means payload, directory and rows gone |
| TrashRun.RecoverTrash | internal/files/trash_recovery.go:225-309 | one recovery as one process life: never refused, dead exactly when its steps run out; died means recoverable, or exposed and removing |
| TrashRun.Rollback | internal/files/trash_recovery.go:350-385 | the uncommitted branches, by which places exist and which markers do, taken as far as there is power |
| TrashRun.Finish | internal/files/trash_recovery.go:336-349 | the committed branches, by which places exist, taken as far as there is power |
| TrashRecords.TrashAllExact | internal/files/trash.go:195-223 | each planned file's active row is filed under the key with its owner kept, an unknown file gets an unowned row, and every other row stays |
| TrashRecords.RestoreUndoesTrash | internal/files/trash.go:415-498 | trashing and restoring in place returns every ledger and share row, and every image row exactly when no image there was in the trash already |
| TrashRecords.PurgeForgetsTrashed | internal/files/trash.go:536-552 | forgets the rows of the trashed files, every image under the path, those an older entry had included, and the shares under it that were not in the trash before; no other row |
| TrashRecords.MoveRecordsToTrash | internal/files/trash.go:195-216 | the per-file update-or-insert loop yields the trashed ledger |
| TrashRecords.RestoreRecords | internal/files/trash.go:415-452 | row by row, in the order they are queried, it fails exactly when a row would land on another as that one then is; otherwise every row of the entry is back |
| TrashRecords.ClearExactly | internal/files/trash.go:436-452 | to a place apart from the path named like the trash key, the order does not matter: a restore goes through exactly when the restored ledger as a whole has no clash |
| TrashRecords.OrderMatters | internal/files/trash.go:436-452 | to a place below that path it can: two rows that clash in one order and not in the other |
| TrashRecords.RestoreRecordsTx | internal/files/trash.go:415-498 | all three tables or none, on exactly that condition; afterwards no two ledger rows share a path |
| TrashRecords.RestoredPlaces | internal/files/trash.go:436-495 | wherever a tree is restored to, its records, image rows and share rows follow it with their suffix and are no longer trashed; rows of other entries stay |
| TrashRecords.TrashedPlaces | internal/files/trash.go:217-223 | what trashing makes of each image and share row, by its path |
| Paths.SharedPathMeansNested | internal/locks/locks.go:51-53 | two subtrees that share a path are nested |
| Paths.RebaseUndone | internal/files/path_recovery.go:196-242 | moving a path's subtree there and back is the identity |
| Paths.RebaseIsIdempotent | internal/files/path_recovery.go:196-242 | moving a subtree twice is moving it once |
| Paths.RebaseIsInjective | internal/files/path_recovery.go:196-242 | distinct paths outside the target stay distinct when a subtree moves there |
| Paths.RebaseExactly | internal/files/path_recovery.go:223-231 | what follows the moved root follows it to its new place, and paths elsewhere stay |
| PathLocks.ConflictMeansSharedPath | internal/locks/locks.go:55-65 | two keys conflict exactly when they are equal or their subtrees share a path |
| PathLocks.KeysConflictExactly | internal/locks/locks.go:38-65 | two keys, each a source, a zero character and a path, conflict exactly when the sources are equal and one path is at or below the other |
| PathLocks.CoversExactly | internal/locks/locks.go:38-53 | what a key covers: the paths of its source at or below its path |
| Strings.LessExactly | internal/locks/locks.go:67-77 | the order keys are sorted and listed in: the first character that differs decides, and a beginning comes before what it begins |
| PathLocks.NormalizeKeys | internal/locks/locks.go:67-77 | the same keys, strictly sorted |
| PathLocks.ExclusionAlways | internal/locks/locks.go:93-163 | in every reachable state no two holders, one of them writing, have conflicting keys |
| PathLocks.ExclusionByPath | internal/locks/locks.go:93-163 | while a writer holds a subtree nobody else holds any path of it, also in terms of the key text |
| PathLocks.ConflictsKeepOrder | internal/locks/locks.go:106-114 | over any run, a younger request is not granted while an older one it conflicts with waits |
| PathLocks.NoStarvation | internal/locks/locks.go:79-127 | however requests arrive and overtake, a waiting request has seen at most its initial burden of relevant steps, and if it still cannot go another relevant step is possible |
| PathLocks.BurdenFalls | internal/locks/locks.go:79-127 | no step of anyone adds to a waiting request's burden and every relevant one lowers it |
| PathLocks.Drains | internal/locks/locks.go:116-163 | without arrivals every step lowers the work by one and the manager stops only when empty |
| PathLocks.OnlyReleaseUnblocks | internal/locks/locks.go:120-122 | an arrival or a grant never lets a blocked request through, so waking on release loses no wake-up |
| PathLocks.DisjointMayOvertake | internal/locks/locks.go:106-114 | a request conflicting with nobody older can go although it is not the oldest |
| PathLocks.CountersTellHolders | internal/locks/locks.go:93-105 | looking at the per-key counters is looking at the holders |
| PathLocks.Manager.CanAcquire | internal/locks/locks.go:93-114 | true exactly when no holder and no older waiter conflicts |
| PathLocks.Manager.WaiterConflicts | internal/locks/locks.go:79-91 | true exactly when one writes and some keys conflict |
| PathLocks.Manager.Join | internal/locks/locks.go:116-119 | a request joins the queue's end with its keys normalized |
| PathLocks.Manager.TryAcquire | internal/locks/locks.go:120-143 | grants exactly when allowed, keeps exclusion, exact counters and that no sleeper could go |
| PathLocks.Manager.ReleaseLease | internal/locks/locks.go:145-163 | drops one lease, keeps the counters exact and wakes everyone; a second call does nothing |
| Lifecycle.WriteExcludes | internal/lifecycle/manager.go:46-89 | in every reachable state a write lease on a key excludes every other lease that holds it, across deletions of the key's entry |
| Lifecycle.RefsAreLeases | internal/lifecycle/manager.go:46-89 | in every reachable state a key's reference count is the number of its leases, acquiring, holding or releasing, and all of them have the mutex registered now |
| Lifecycle.LeasesNeverDeadlock | internal/lifecycle/manager.go:59-65 | with normalized keys some lease can always take its next step, even where waiting writers go before readers |
| Lifecycle.WorkFalls | internal/lifecycle/manager.go:59-87 | every step of a lease brings the leases nearer their end |
| Lifecycle.AddRefsExact | internal/lifecycle/manager.go:49-57 | registering adds one reference a key and keeps live keys' mutexes |
| Lifecycle.DropRefsExact | internal/lifecycle/manager.go:78-85 | unregistering takes one off and deletes exactly the keys with no other lease |
| Lifecycle.NormalizedKeys | internal/lifecycle/manager.go:91-111 | exactly the valid requested keys, strictly sorted |
| Lifecycle.Manager.RegisterKeys | internal/lifecycle/manager.go:49-57 | the registering critical section, key by key |
| Lifecycle.Manager.UnregisterKeys | internal/lifecycle/manager.go:78-85 | the unregistering critical section, key by key |
| Pagination.FollowTokens | internal/s3api/handler.go:313-358 | following tokens with max-keys of at least 1 ends: each page is the one its token resumes, only the last is not truncated, none is over the limit, and the pages' contents and prefixes, put together, are the whole listing |
| Pagination.PagesAreTheListing | internal/s3api/handler.go:313-358 | for any pages got by following tokens, however many: the pages so far and the listing the last token resumes are the whole listing |
| Pagination.ListPage | internal/s3api/handler.go:313-358 | a page takes the matching keys in order until it is full, ends at the first key that would open an entry of its own, and its token is the last key consumed; a page that is not truncated took them all |
| Pagination.PageIsUnique | internal/s3api/handler.go:313-358 | keys, prefix, delimiter and limit leave exactly one such page |
| Pagination.TokenExactly | internal/s3api/handler.go:335-357 | a truncated page has a token if and only if at least one key was asked for; with none asked for it is empty and truncated exactly when some key matches |
| Pagination.ListObjectsV2 | internal/s3api/handler.go:274-362 | other delimiters, malformed or negative max-keys, malformed tokens and other encodings are refused, max-keys is capped at 1000, a token takes the place of start-after, and the answer is the one page, escaped and with its token encoded |
| Pagination.CutAtBoundary | internal/s3api/handler.go:321-334 | where a page ends, objects and common prefixes of the rest are exactly what is missing |
| Pagination.ResumeAfter | internal/s3api/handler.go:317-320 | the keys past a consumed key are exactly the rest of the matching keys |
| Pagination.DisplayIsContiguous | internal/s3api/handler.go:321-330 | keys rolled up into one common prefix are neighbours |
| Pagination.CommonPrefixesExact | internal/s3api/handler.go:321-341 | a text is listed as a common prefix, once, exactly when some matching key is the prefix, a name without a delimiter, a delimiter and a rest, and it is that key up to and with the delimiter |
| Pagination.ObjectsExact | internal/s3api/handler.go:342-351 | an object is listed exactly when it matches, can be read, and is not to be rolled up, that is, has no delimiter past the prefix |
| Pagination.DisplayExactly | internal/s3api/handler.go:321-334 | what a key is rolled up into, by its parts |
| Pagination.SentExactly | internal/s3api/handler.go:339-362 | what is sent: the same keys in order, each escaped or none, and the token encoded |
| Pagination.MatchingExact | internal/s3api/handler.go:317-320 | a key matches exactly when it is stored, past the start and has the prefix |
| Permissions.PermissionOf | internal/sources/permissions.go:351-407 | the one-pass scan of grouped rows yields read-write exactly when some policy's longest-prefix rule or base does, and nothing exactly when all do |
| Permissions.JoinExactly | internal/sources/permissions.go:359-364 | a policy with one rule has a row with base and rule, and no row that says anything else |
| Permissions.CanAccessSubtree | internal/sources/permissions.go:481-533 | true exactly when every path at or below is permitted, infinitely many of them |
| Permissions.CheckedPrefixesSuffice | internal/sources/permissions.go:500-532 | checking the path and the finitely many rule prefixes below it is necessary and sufficient |
| Permissions.RepresentedByRule | internal/sources/permissions.go:500-532 | any path of a subtree has the permission of its root or of a rule below it |
| PersistentLocks.AtMostOneLock | internal/locks/persistent.go:130-165 | in every reachable state at most one unexpired lock covers a path (section 6.1 of RFC 4918); every operation of the store is proved to be a run of this state machine |
| PersistentLocks.LockCoversExactly | internal/locks/persistent.go:316-321 | a lock of depth zero covers its path only, one of infinite depth that and everything below |
| PersistentLocks.IntersectMeansShared | internal/locks/persistent.go:312-321 | two locks intersect exactly when some path is covered by both |
| PersistentLocks.MutationMeetsCoveredPath | internal/locks/persistent.go:307-310 | a mutation meets a lock exactly when it affects a path the lock covers |
| PersistentLocks.CheckedIsPassed | internal/locks/persistent.go:93-112 | checking scopes one by one is checking every affected path |
| PersistentLocks.Store.GuardMutations | internal/locks/persistent.go:81-127 | passes exactly when every active lock covering an affected path had its token submitted by its owner (section 7.4 of RFC 4918), and then keeps all else out |
| PersistentLocks.Store.EndGuard | internal/locks/persistent.go:113-127 | exactly the locks rooted in removed subtrees go; a second call does nothing |
| PersistentLocks.Store.Create | internal/locks/persistent.go:130-165 | succeeds exactly when no active lock of the source covers any path the new one would |
| PersistentLocks.Store.Refresh | internal/locks/persistent.go:167-190 | extends a lock exactly for its owner and through a path it covers, and tells a stranger from a missing lock |
| PersistentLocks.Store.Unlock | internal/locks/persistent.go:192-210 | removes a lock exactly for its owner and through a path it covers |
| PersistentLocks.Store.Discover | internal/locks/persistent.go:213-230 | finds exactly the active locks covering a path, and there is at most one |
| PersistentLocks.Store.DeleteLocksRootedAt | internal/locks/persistent.go:260-273 | removes the locks rooted at or below a path, or all of the source at its root |
| Chunked.RoundTrip | internal/s3api/chunked.go:68-122 | for any split into chunks, buffers and short reads of a valid body: no error, a beginning of the payload and all of it when the end is reported, which takes at most one more productive read than it has bytes |
| Chunked.EndIsVerified | internal/s3api/chunked.go:68-143 | for any input and any reads, even after errors, the end is reported only if some read found the input at an ending (a zero-size header and the trailers after it) and everything delivered has the announced length and the checksum that those trailers give |
| Chunked.DecodedIsValid | internal/s3api/chunked.go:68-143 | the round trip backwards: an input decoded to its end without a failure is the wire of a valid body, chunk by chunk, and what was delivered is its payload |
| Chunked.DecodesExactly | internal/s3api/chunked.go:68-143 | some reads decode an input without a failure if and only if it is the wire of a body whose payload has the announced length and the checksum in its trailer |
| Chunked.PlainHeaderIsValid | internal/s3api/chunked.go:82-91 | the plain hexadecimal header of a chunk is read back as its size |
| Chunked.SizeOfExactly | internal/s3api/chunked.go:82-91 | a header with an extension is read by what stands before its semicolon |
| Chunked.ParseHexExactly | internal/s3api/chunked.go:82-91 | which texts are sizes, and which size each is |
| Chunked.BreakingOffFails | internal/s3api/chunked.go:72-122 | a stream that breaks off before its end is an error at the next read |
| Chunked.Reader.Verify | internal/s3api/chunked.go:124-143 | the constant-time comparison accepts exactly equal checksums |
| Chunked.Reader.ReadNext | internal/s3api/chunked.go:68-122 | one read does exactly what the specification's read does, errors included |
| Reconcile.LedgerEqualsDisk | internal/files/records.go:66-130 | afterwards the ordinary active rows are the scanned files in path, size and time |
| Reconcile.OwnersAndOthersStay | internal/files/records.go:86-118 | rows of files still there keep their owner; managed and other rows are untouched |
| Reconcile.CountsAddUp | internal/files/records.go:86-118 | rows after are rows before plus added less removed |
| Reconcile.SecondRunIsIdle | internal/files/records.go:66-130 | a second run changes nothing and reports nothing |
| Reconcile.ReconcileSource | internal/files/records.go:66-130 | fails exactly when a new file's path is held by another kind of row; otherwise the reconciled ledger and exact counts |
| Reconcile.TransferReconcilesAlike | internal/files/transfer.go:573-577 | the reconciliation in the rollback of a cross-source move is this one |
| Reconcile.ManagedNameExactly | internal/security/relpath.go:30-33 | the managed name in any case, the long s included |
| Reconcile.ContainsExactly | internal/security/relpath.go:35-42 | a path is managed exactly when one of its segments is the name |
| Quota.Upload | internal/files/service.go:939-1014 | a successful upload leaves source usage at most the larger of quota and previous usage, and owner usage likewise, even if files went meanwhile (that nothing else happens meanwhile is QuotaHistories.EveryLandingIsWithin) |
| Quota.WriteKeepsQuota | internal/files/service.go:280-286 | a write within its allowance, with the replaced file's credit, keeps that bound |
| Quota.AllowanceIsTight | internal/files/service.go:280-286 | a write of the whole allowance reaches the bound exactly |
| Quota.ComputeGuard | internal/files/service.go:235-346 | limited exactly when a quota applies, by the smaller of the source's allowance and the user's with the caller's credit |
| Quota.WriteUploadTemp | internal/files/service.go:1064-1092 | reading one byte past the limit suffices: success exactly for bodies within it, written whole |
| Quota.Usage | internal/files/service.go:155-187 | the walk adds up every file |
| Quota.LimitedGuardsAreAlone | internal/files/service.go:235-257 | in every interleaving of the read, check and upgrade loop with other guards, quota changes and other locking, a limited guard is the only guard past its check and its quota still stands |
| Quota.SecondLookDecides | internal/files/service.go:235-280 | a guard whose quota is set or lifted between its two looks is limited by what the second one finds, or starts over |
| QuotaHistories.UsageStaysWithin | internal/files/service.go:235-346 | in every interleaving of guarded writes, renames, removals, quota changes and other locking, usage stays within any bound that the usage at the start and every quota in force are within |
| QuotaHistories.QuotaIsKept | internal/files/service.go:235-346 | while a quota stands, usage is at most the quota or what it was at the start, in every interleaving |
| QuotaHistories.EveryLandingIsWithin | internal/files/service.go:280-286 | after any history, a limited guard's write leaves usage at most the quota in force or the usage it was measured against, the replaced file's credit included |
| QuotaHistories.ReplacementLands | internal/files/service.go:235-346 | the other direction: every replacement within its allowance can land, to the last byte, and leaves nothing behind but the new size |
| QuotaHistories.UnlimitedLands | internal/files/service.go:235-257 | without a quota a new name lands whatever its size |
| Exclude.MatchMeansCut | internal/security/exclude.go:60-82 | the recursion matches exactly when some cut of the path gives each pattern segment its run |
| Exclude.PrefixMatchIsClosed | internal/security/exclude.go:87-98 | an exclusion covers everything below what it covers |
| Exclude.PrefixMatchIsInherited | internal/security/exclude.go:87-98 | a path is excluded exactly when a path at or above it matches |
| Exclude.ManagedPathsAreExcluded | internal/security/exclude.go:11-22 | whatever the user's patterns, every path with a `.omnistore` segment at any depth is excluded |
| Exclude.TemporaryPathsAreExcluded | internal/security/exclude.go:11-22 | likewise every path with a segment that matches one of the three names of temporary files |
| Exclude.ExcludeMatcher.Match | internal/security/exclude.go:45-57 | the loop over compiled patterns |
| Exclude.ExcludeMatcher.MatchPrefix | internal/security/exclude.go:87-98 | the loop over a path and its parents |
| Exclude.ExcludeMatcher.CompileAll | internal/security/exclude.go:31-42 | every pattern that is not empty once cleaned is kept, in order |
| Exclude.CleanExactly | internal/security/exclude.go:31-42 | what is left of a user's pattern: backslashes are slashes, the white space around it goes, and then the slashes around it |
| Exclude.CompiledOne | internal/security/exclude.go:31-42 | a pattern of which nothing is left is dropped; any other gives its segments |

## Left out

- One operation per journal is modelled, with its crashes and recoveries; an operation that ends in an
  error inside a living process, with the undo it then tries, is not, nor is what later operations
  make of a journal such an error left behind, apart from writes after a committed delete.
- Journals, markers, single files' renames and SQLite commits are atomic and durable steps; the
  encoding of journals, their validation and directory syncing are not modelled, nor are the
  `.operation-*.tmp` files of a journal being written.
- Symbolic links, permission bits, changes made to the tree by others and I/O errors are taken not to
  occur; random identifiers are fresh; digests are stood for by the bytes they are taken of.
- Copies across sources, image-bed uploads and managed-file writes have smaller variants of these
  protocols, which would only add easier members.
- WebDAV lock rows are not part of the recovery models; path recovery does not clean them.
- Transfer.TransferIsAtomic: one set of names stands for all that a scan of the source skips. Nodes in it
  are not copied and go with the source tree, and the theorem is about all other nodes. The code does so
  with the program's internal names only: its plan refuses a tree with an excluded or managed path before
  anything happens, which is not modelled. Nor is the temporary file of a single file's copy, which lies
  beside the target.
- Transfer.RecoverySettles: the ledger is taken to agree with the disk when the move starts and nothing to
  lie at or below the target in any table; the code checks the target on disk only.
- PathOps.PathOperationIsAtomic: a move of a file is taken to find no rows strictly below it, and no rows at
  or below the target (StaleTargets says what becomes of them); orphaned markers whose journal is gone are
  left by recovery, as in the code.
- Trash.TrashIsAtomic: a tree is its nodes and their bytes; modification times, which a copy across
  filesystems changes, and the parent directories of a restored path are not modelled.
- TrashRecords.TrashAllExact: nothing is filed under the new key before.
- MultipartComplete.CompleteIsAtomic: making an object's parent directories before its upload is not modelled.
- MultipartPartRun.UploadPart: a crash before the journal can leave the part's temporary file, which only the
  expiry of the whole upload removes.
- PathLocks.Manager.TryAcquire: goroutine scheduling is the order of the manager's critical sections; a
  condition variable's wake-up is the emptying of the set of sleepers.
- Lifecycle.LeasesNeverDeadlock: a goroutine that asks for a lease while it holds another is not covered.
- Pagination.ListObjectsV2: base64 and URL escaping are parameters; the metadata of a listed object is not modelled.
- Permissions.CanAccessSubtree: database errors and path normalization are not modelled.
- PersistentLocks.Store.Create: the clock is taken not to step back; timestamps other than the expiry and
  the owner's XML are not modelled.
- Chunked.RoundTrip: trailer parsing, base64 and the checksum functions are parameters, with the choice of
  checksum by trailer name and the parsing of the announced length.
- Exclude.MatchMeansCut: matching one segment is the standard library's and a parameter.
- Quota.Upload: 64-bit overflow of sums of sizes is not modelled; every caller's credit for the user is zero.
- QuotaHistories.UsageStaysWithin: a reconciliation that corrects the size of an owner's row after a change made
  to the tree by others is not among the events.
- HTTP handlers, sessions, signatures, auditing, thumbnails, backup and the user interface are not part of
  this model.
