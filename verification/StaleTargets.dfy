/** Moves onto stale rows (path_recovery.go). */
module StaleTargets {
  import opened Crash
  import opened Paths
  import opened PathOps

  // A same-source move whose target is free on disk while tables still have rows at or below it
  // (internal/files/path_recovery.go, internal/files/service.go).  Undoing the move takes those rows
  // along to the source.

  /** As for any move, but for the rows at the target. */
  predicate StaleStarted(job: Job) {
    var op, s := job.op, job.start;
    && op.Move? && !Under(op.from, op.to)
    && !s.journal && !s.filesystemReady && !s.databaseReady
    && Exists(s, op.from) && NothingUnder(s.tree, op.to) && Unique(s.meta.records)
    && RowsFit(s.tree, op.from, op.isDir) && RowsFit(s.meta.records, op.from, op.isDir)
  }

  /** The tables once a move is undone: what lay at or below the target is at the source too. */
  function Returned(job: Job): Metadata
    requires job.op.Move?
  {
    RebaseMetadata(job.start.meta, job.op.to, job.op.from, job.op.isDir)
  }

  predicate CanCommit(job: Job)
    requires job.op.Move?
  {
    CanMove(job.start.meta, job.op.from, job.op.to, job.op.isDir)
  }

  predicate CanReturn(job: Job)
    requires job.op.Move?
  {
    CanMove(job.start.meta, job.op.to, job.op.from, job.op.isDir)
  }

  predicate HasStaleRows(job: Job)
    requires job.op.Move?
  {
    var m, to := job.start.meta, job.op.to;
    !NothingUnder(m.records, to) || !NothingUnder(m.images, to) || !NothingUnder(m.shares, to)
  }

  /** The steps up to the request's end, or up to its transaction if that fails. */
  function StepsTaken(op: Op, canCommit: bool): seq<Step>
    requires op.Move?
  {
    if canCommit then MovePlan(op) else [WriteJournal, RenameTree(op.from, op.to), MarkFilesystemReady]
  }

  // -------------------------------------------------------- rebasing there and back

  lemma PathThereAndBack(p: string, from: string, to: string, isDir: bool)
    requires Apart(from, to) && (!isDir && Under(from, p) ==> p == from)
    ensures var moved, returned := RecordPath(p, from, to, isDir), RecordPath(p, to, from, isDir);
            && RecordPath(moved, from, to, isDir) == moved
            && RecordPath(moved, to, from, isDir) == returned
            && RecordPath(returned, to, from, isDir) == returned
            && (returned == p <==> !Under(to, p))
  {
    assert from + "" == from && to + "" == to;
    if Under(from, p) {
      ApartSubtreesAreDisjoint(from, to, p);
      RebaseLandsUnder(p, from, to);
      ApartSubtreesAreDisjoint(to, from, Rebase(p, from, to));
      RebaseUndone(p, from, to);
    } else if Under(to, p) {
      RebaseLandsUnder(p, to, from);
      ApartSubtreesAreDisjoint(from, to, Rebase(p, to, from));
    }
  }

  lemma MovedStays(t: Table, from: string, to: string, isDir: bool)
    requires Apart(from, to) && RowsFit(t, from, isDir)
    ensures var moved := RebaseRecords(t, from, to, isDir); RebaseRecords(moved, from, to, isDir) == moved
  {
    forall id | id in t ensures RecordPath(RecordPath(t[id], from, to, isDir), from, to, isDir) == RecordPath(t[id], from, to, isDir) {
      PathThereAndBack(t[id], from, to, isDir);
    }
  }

  lemma MovedReturns(t: Table, from: string, to: string, isDir: bool)
    requires Apart(from, to) && RowsFit(t, from, isDir)
    ensures RebaseRecords(RebaseRecords(t, from, to, isDir), to, from, isDir) == RebaseRecords(t, to, from, isDir)
  {
    forall id | id in t ensures RecordPath(RecordPath(t[id], from, to, isDir), to, from, isDir) == RecordPath(t[id], to, from, isDir) {
      PathThereAndBack(t[id], from, to, isDir);
    }
  }

  lemma ReturnedStays(t: Table, from: string, to: string, isDir: bool)
    requires Apart(from, to) && RowsFit(t, from, isDir)
    ensures var returned := RebaseRecords(t, to, from, isDir); RebaseRecords(returned, to, from, isDir) == returned
  {
    forall id | id in t ensures RecordPath(RecordPath(t[id], to, from, isDir), to, from, isDir) == RecordPath(t[id], to, from, isDir) {
      PathThereAndBack(t[id], from, to, isDir);
    }
  }

  lemma ReturnedIsSame(t: Table, from: string, to: string, isDir: bool)
    requires Apart(from, to) && RowsFit(t, from, isDir)
    ensures RebaseRecords(t, to, from, isDir) == t <==> NothingUnder(t, to)
  {
    forall id | id in t ensures RecordPath(t[id], to, from, isDir) == t[id] <==> !Under(to, t[id]) {
      PathThereAndBack(t[id], from, to, isDir);
    }
    var returned := RebaseRecords(t, to, from, isDir);
    assert forall id <- t :: returned[id] == RecordPath(t[id], to, from, isDir);
  }

  lemma TableThereAndBack(t: Table, from: string, to: string, isDir: bool)
    requires Apart(from, to) && RowsFit(t, from, isDir)
    ensures var moved, returned := RebaseRecords(t, from, to, isDir), RebaseRecords(t, to, from, isDir);
            && RebaseRecords(moved, from, to, isDir) == moved
            && RebaseRecords(moved, to, from, isDir) == returned
            && RebaseRecords(returned, to, from, isDir) == returned
            && (returned == t <==> NothingUnder(t, to))
  {
    MovedStays(t, from, to, isDir);
    MovedReturns(t, from, to, isDir);
    ReturnedStays(t, from, to, isDir);
    ReturnedIsSame(t, from, to, isDir);
  }

  /** An image or share row is rebased as a directory's rows are. */
  lemma LinksThereAndBack(t: Table, from: string, to: string)
    requires Apart(from, to)
    ensures var moved, returned := RebaseTable(t, from, to), RebaseTable(t, to, from);
            && RebaseTable(moved, from, to) == moved
            && RebaseTable(moved, to, from) == returned
            && RebaseTable(returned, to, from) == returned
            && (returned == t <==> NothingUnder(t, to))
  {
    TableThereAndBack(t, from, to, true);
    assert forall u: Table :: RebaseRecords(u, from, to, true) == RebaseTable(u, from, to);
    assert forall u: Table :: RebaseRecords(u, to, from, true) == RebaseTable(u, to, from);
  }

  lemma MetadataThereAndBack(job: Job)
    requires StaleStarted(job)
    ensures Apart(job.op.from, job.op.to)
    ensures var op, m := job.op, MovedMetadata(job);
            && RebaseMetadata(m, op.from, op.to, op.isDir) == m
            && RebaseMetadata(m, op.to, op.from, op.isDir) == Returned(job)
            && RebaseMetadata(Returned(job), op.to, op.from, op.isDir) == Returned(job)
            && (Returned(job) == job.start.meta <==> !HasStaleRows(job))
  {
    var op, m := job.op, job.start.meta;
    assert exists id :: id in job.start.tree && job.start.tree[id] == op.from;
    TableThereAndBack(m.records, op.from, op.to, op.isDir);
    LinksThereAndBack(m.images, op.from, op.to);
    LinksThereAndBack(m.shares, op.from, op.to);
  }

  /** The tree's side of the move does not depend on the tables. */
  lemma TreeThereAndBack(job: Job)
    requires StaleStarted(job)
    ensures var op := job.op;
            && op.from in job.start.tree.Values && op.to !in job.start.tree.Values
            && op.to in MovedTree(job).Values && op.from !in MovedTree(job).Values
            && RebaseTable(MovedTree(job), op.to, op.from) == job.start.tree
  {
    var bare := Job(job.op, job.start.(meta := Metadata(map[], map[], map[])));
    TreeMoves(bare);
  }

  // ------------------------------------------------------------------ invariant

  predicate AtReturned(job: Job, d: Disk)
    requires job.op.Move?
  {
    CanReturn(job) && d.tree == job.start.tree && d.meta == Returned(job)
  }

  predicate Arrived(job: Job, d: Disk)
    requires job.op.Move?
  {
    CanCommit(job) && AtTarget(job, d)
  }

  predicate StaleRecoverable(job: Job, d: Disk) {
    && job.op.Move?
    && (d.tree == job.start.tree || d.tree == MovedTree(job))
    && (d.meta == job.start.meta || (CanCommit(job) && d.meta == MovedMetadata(job)) || (CanReturn(job) && d.meta == Returned(job)))
    && (d.journal && d.databaseReady ==> Arrived(job, d))
    && (!d.journal ==> AtSource(job, d) || Arrived(job, d) || AtReturned(job, d))
  }

  lemma DropSafe(job: Job, d: Disk)
    requires StaleRecoverable(job, d) && (AtSource(job, d) || Arrived(job, d) || AtReturned(job, d))
    ensures Safe(Apply, StaleRecoverable, job, d, DropJournalPlan())
    ensures Exec(Apply, d, DropJournalPlan()) == d.(journal := false, filesystemReady := false, databaseReady := false)
  {
    var p0: seq<Step> := [];
    SafeWhen(Apply, StaleRecoverable, job, d, p0, true, RemoveJournal);
    var p1 := p0 + When(true, RemoveJournal);
    SafeWhen(Apply, StaleRecoverable, job, d, p1, true, RemoveFilesystemReady);
    var p2 := p1 + When(true, RemoveFilesystemReady);
    SafeWhen(Apply, StaleRecoverable, job, d, p2, true, RemoveDatabaseReady);
    assert p2 + When(true, RemoveDatabaseReady) == DropJournalPlan();
  }

  lemma ThenDrop(job: Job, d: Disk, steps: seq<Step>)
    requires Safe(Apply, StaleRecoverable, job, d, steps)
    requires var e := Exec(Apply, d, steps); job.op.Move? && (AtSource(job, e) || Arrived(job, e) || AtReturned(job, e))
    ensures Safe(Apply, StaleRecoverable, job, d, steps + DropJournalPlan())
    ensures Exec(Apply, d, steps + DropJournalPlan())
         == Exec(Apply, d, steps).(journal := false, filesystemReady := false, databaseReady := false)
  {
    SafeEnds(Apply, StaleRecoverable, job, d, steps);
    DropSafe(job, Exec(Apply, d, steps));
    SafeAppend(Apply, StaleRecoverable, job, d, steps, DropJournalPlan());
    ExecAppend(Apply, d, steps, DropJournalPlan());
  }

  lemma BeginSafe(job: Job)
    requires StaleStarted(job)
    ensures var plan := [WriteJournal, RenameTree(job.op.from, job.op.to), MarkFilesystemReady];
            && Safe(Apply, StaleRecoverable, job, job.start, plan)
            && Exec(Apply, job.start, plan) == job.start.(tree := MovedTree(job), journal := true, filesystemReady := true)
  {
    var s, op := job.start, job.op;
    var p0: seq<Step> := [];
    SafeWhen(Apply, StaleRecoverable, job, s, p0, true, WriteJournal);
    var p1 := p0 + When(true, WriteJournal);
    SafeWhen(Apply, StaleRecoverable, job, s, p1, true, RenameTree(op.from, op.to));
    var p2 := p1 + When(true, RenameTree(op.from, op.to));
    SafeWhen(Apply, StaleRecoverable, job, s, p2, true, MarkFilesystemReady);
    assert p2 + When(true, MarkFilesystemReady) == [WriteJournal, RenameTree(op.from, op.to), MarkFilesystemReady];
  }

  lemma StepsSafe(job: Job)
    requires StaleStarted(job)
    ensures Safe(Apply, StaleRecoverable, job, job.start, StepsTaken(job.op, CanCommit(job)))
  {
    BeginSafe(job);
    if CanCommit(job) {
      var s, op := job.start, job.op;
      var begin := [WriteJournal, RenameTree(op.from, op.to), MarkFilesystemReady];
      SafeWhen(Apply, StaleRecoverable, job, s, begin, true, MoveMetadata(op.from, op.to, op.isDir));
      var p1 := begin + When(true, MoveMetadata(op.from, op.to, op.isDir));
      SafeWhen(Apply, StaleRecoverable, job, s, p1, true, MarkDatabaseReady);
      var p2 := p1 + When(true, MarkDatabaseReady);
      ThenDrop(job, s, p2);
      assert p2 + DropJournalPlan() == MovePlan(op);
    }
  }

  // ------------------------------------------------------------------- recovery

  lemma UndoMetadata(job: Job, d: Disk)
    requires StaleStarted(job) && StaleRecoverable(job, d) && CanReturn(job)
    ensures RebaseMetadata(d.meta, job.op.to, job.op.from, job.op.isDir) == Returned(job)
    ensures Apply(d, MoveMetadata(job.op.to, job.op.from, job.op.isDir)) == d.(meta := Returned(job))
  {
    MetadataThereAndBack(job);
  }

  lemma UndoPlan(job: Job, d: Disk)
    requires StaleStarted(job) && StaleRecoverable(job, d) && d.journal && !d.databaseReady && CanReturn(job)
    ensures var op := job.op; var back := !Exists(d, op.from);
            && RecoverMovePlan(op, d) == Proceed([MoveMetadata(op.to, op.from, op.isDir)] + When(back, RenameTree(op.to, op.from)) + DropJournalPlan())
            && (if back then RebaseTable(d.tree, op.to, op.from) == job.start.tree else d.tree == job.start.tree)
  {
    TreeThereAndBack(job);
    UndoMetadata(job, d);
  }

  lemma UndoSafe(job: Job, d: Disk)
    requires StaleStarted(job) && StaleRecoverable(job, d) && d.journal && !d.databaseReady && CanReturn(job)
    ensures RecoverMovePlan(job.op, d).Proceed?
    ensures var p := RecoverMovePlan(job.op, d).steps; var e := Exec(Apply, d, p);
            Safe(Apply, StaleRecoverable, job, d, p) && !e.journal && AtReturned(job, e)
  {
    var op := job.op;
    UndoPlan(job, d);
    UndoMetadata(job, d);
    var p0: seq<Step> := [];
    SafeWhen(Apply, StaleRecoverable, job, d, p0, true, MoveMetadata(op.to, op.from, op.isDir));
    var p1 := [MoveMetadata(op.to, op.from, op.isDir)];
    assert p0 + When(true, MoveMetadata(op.to, op.from, op.isDir)) == p1;
    var back := !Exists(d, op.from);
    SafeWhen(Apply, StaleRecoverable, job, d, p1, back, RenameTree(op.to, op.from));
    ThenDrop(job, d, p1 + When(back, RenameTree(op.to, op.from)));
  }

  lemma FinishPlan(job: Job, d: Disk)
    requires StaleStarted(job) && StaleRecoverable(job, d) && d.journal && d.databaseReady
    ensures var move := MoveMetadata(job.op.from, job.op.to, job.op.isDir);
            RecoverMovePlan(job.op, d) == Proceed([move] + DropJournalPlan()) && Apply(d, move) == d
  {
    TreeThereAndBack(job);
    MetadataThereAndBack(job);
  }

  lemma FinishSafe(job: Job, d: Disk)
    requires StaleStarted(job) && StaleRecoverable(job, d) && d.journal && d.databaseReady
    ensures RecoverMovePlan(job.op, d).Proceed?
    ensures var p := RecoverMovePlan(job.op, d).steps; var e := Exec(Apply, d, p);
            Safe(Apply, StaleRecoverable, job, d, p) && !e.journal && Arrived(job, e)
  {
    var move := MoveMetadata(job.op.from, job.op.to, job.op.isDir);
    FinishPlan(job, d);
    var p0: seq<Step> := [];
    SafeWhen(Apply, StaleRecoverable, job, d, p0, true, move);
    assert p0 + When(true, move) == [move];
    ThenDrop(job, d, [move]);
  }

  /** The decision table over stale rows: a committed move is completed, and an uncommitted one is
      refused exactly when the stale rows cannot go to the source, and else undone with them there. */
  lemma StaleRecovery(job: Job, d: Disk, order: seq<nat>)
    requires StaleStarted(job) && StaleRecoverable(job, d)
    ensures RecoveryPlan(job.op, order, d).Refuse? <==> d.journal && !d.databaseReady && !CanReturn(job)
    ensures RecoveryPlan(job.op, order, d).Proceed? ==>
              var p := RecoveryPlan(job.op, order, d).steps; var e := Exec(Apply, d, p);
              && Safe(Apply, StaleRecoverable, job, d, p) && !e.journal
              && (!d.journal ==> e == d)
              && (d.journal && d.databaseReady ==> Arrived(job, e))
              && (d.journal && !d.databaseReady ==> AtReturned(job, e))
  {
    if d.journal {
      if d.databaseReady {
        FinishSafe(job, d);
      } else if CanReturn(job) {
        UndoSafe(job, d);
      } else {
        MetadataThereAndBack(job);
      }
    }
  }

  // ------------------------------------------------------------- whole histories

  function StaleAfterCrashes(job: Job, cut: nat, lives: seq<Life<seq<nat>>>): Disk
    requires job.op.Move?
  {
    AfterCrashes(Apply, Recover, job, job.start, StepsTaken(job.op, CanCommit(job)), cut, lives)
  }

  lemma StaysRecoverable(job: Job, cut: nat, lives: seq<Life<seq<nat>>>)
    requires StaleStarted(job)
    ensures StaleRecoverable(job, StaleAfterCrashes(job, cut, lives))
  {
    StepsSafe(job);
    forall life, d | life in lives && StaleRecoverable(job, d) && Recover(job, life.order, d).Proceed?
      ensures Safe(Apply, StaleRecoverable, job, d, Recover(job, life.order, d).steps)
    {
      StaleRecovery(job, d, life.order);
    }
    CrashesKeep(Apply, StaleRecoverable, Recover, job, job.start, StepsTaken(job.op, CanCommit(job)), cut, lives);
  }

  /** Cut right after its journal is written, the move is undone, or not, with all stale rows there. */
  lemma JournalOnly(job: Job)
    requires StaleStarted(job)
    ensures StaleAfterCrashes(job, 1, []) == job.start.(journal := true)
  {
    assert Cut(StepsTaken(job.op, CanCommit(job)), 1) == [WriteJournal];
    assert [WriteJournal][1..] == [];
  }

  /** Recovery of a move can be refused for good exactly when two ledger rows would share a path once
      the rows at the target were rebased onto the source. */
  lemma RefusedExactly(job: Job)
    requires StaleStarted(job)
    ensures (exists cut: nat, lives: seq<Life<seq<nat>>> :: RecoveryPlan(job.op, [], StaleAfterCrashes(job, cut, lives)).Refuse?)
       <==> !CanReturn(job)
  {
    forall cut: nat, lives: seq<Life<seq<nat>>> | RecoveryPlan(job.op, [], StaleAfterCrashes(job, cut, lives)).Refuse?
      ensures !CanReturn(job)
    {
      StaysRecoverable(job, cut, lives);
      StaleRecovery(job, StaleAfterCrashes(job, cut, lives), []);
    }
    if !CanReturn(job) {
      JournalOnly(job);
      StaysRecoverable(job, 1, []);
      StaleRecovery(job, StaleAfterCrashes(job, 1, []), []);
    }
  }

  /** Recovery runs to its end, the tree is where it was, and the tables are not as they were. */
  ghost predicate Misplaces(job: Job, cut: nat, lives: seq<Life<seq<nat>>>)
    requires job.op.Move?
  {
    var d := StaleAfterCrashes(job, cut, lives);
    && RecoveryPlan(job.op, [], d).Proceed?
    && var e := Exec(Apply, d, RecoveryPlan(job.op, [], d).steps);
       e.tree == job.start.tree && e.meta != job.start.meta
  }

  /** A move is undone with rows misplaced exactly when some row lay at or below the target and the
      rebased rows do not clash; the rows then end as Returned says. */
  lemma MisplacedExactly(job: Job)
    requires StaleStarted(job)
    ensures (exists cut: nat, lives: seq<Life<seq<nat>>> :: Misplaces(job, cut, lives)) <==> CanReturn(job) && HasStaleRows(job)
  {
    MetadataThereAndBack(job);
    TreeThereAndBack(job);
    forall cut: nat, lives: seq<Life<seq<nat>>> | Misplaces(job, cut, lives) ensures CanReturn(job) && HasStaleRows(job) {
      StaysRecoverable(job, cut, lives);
      StaleRecovery(job, StaleAfterCrashes(job, cut, lives), []);
    }
    if CanReturn(job) && HasStaleRows(job) {
      JournalOnly(job);
      StaysRecoverable(job, 1, []);
      StaleRecovery(job, StaleAfterCrashes(job, 1, []), []);
      assert Misplaces(job, 1, []);
    }
  }

  /** With any rows at the target and any crashes: recovery is refused, or disk and tables end at the
      target together, or the tree ends at the source with the tables as they were or as Returned says. */
  lemma StaleMoveEnds(job: Job, cut: nat, lives: seq<Life<seq<nat>>>, last: seq<nat>)
    requires StaleStarted(job)
    ensures var d := StaleAfterCrashes(job, cut, lives);
            match RecoveryPlan(job.op, last, d)
            case Refuse => !CanReturn(job) && !d.databaseReady
            case Proceed(steps) =>
              var e := Exec(Apply, d, steps);
              !e.journal && (AtSource(job, e) || Arrived(job, e) || AtReturned(job, e))
  {
    StaysRecoverable(job, cut, lives);
    StaleRecovery(job, StaleAfterCrashes(job, cut, lives), last);
  }
}
