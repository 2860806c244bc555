/** Upload (internal/files/upload_recovery.go). */
module Upload {
  import opened Crash
  import opened Wrappers

  // Overwriting upload with a recovery journal (internal/files/upload_recovery.go and the
  // upload path of internal/files/service.go).
  //
  // An upload writes a temporary file, moves the old file aside, moves the new one into place,
  // upserts the ledger row and then cleans up.  Startup recovery sees only which files,
  // markers and rows exist.

  type Bytes = string

  /** A file's content digest is modelled by its bytes, so two files match exactly when bytes
      (hence size and digest) and modification time agree. */
  datatype File = File(bytes: Bytes, mtime: int)

  datatype Row = Row(size: nat, mtime: int, owner: Option<nat>)

  /** `upload` is the size, digest and time the prepared journal records. */
  datatype Op = Op(replaced: bool, upload: File, owner: Option<nat>)

  datatype Disk = Disk(
    temp: Option<File>,
    final: Option<File>,
    backup: Option<File>,
    row: Option<Row>,
    journal: bool,
    prepared: bool,
    databaseReady: bool)

  datatype Step =
    | WriteJournal
    | WriteTemp(file: File)
    | WritePrepared
    | MoveFinalToBackup
    | MoveTempToFinal
    | UpsertRow(owner: Option<nat>)
    | MarkDatabaseReady
    | RemoveTemp
    | RemoveFinal
    | RemoveBackup
    | MoveBackupToFinal
    | RemoveJournal
    | RemovePrepared
    | RemoveDatabaseReady

  function Apply(d: Disk, step: Step): Disk {
    match step
    case WriteJournal => d.(journal := true)
    case WriteTemp(file) => d.(temp := Some(file))
    case WritePrepared => d.(prepared := true)
    case MoveFinalToBackup => d.(final := None, backup := d.final)
    case MoveTempToFinal => d.(temp := None, final := d.temp)
    case UpsertRow(owner) =>
      if d.final.Some? then d.(row := Some(Row(|d.final.value.bytes|, d.final.value.mtime, owner))) else d
    case MarkDatabaseReady => d.(databaseReady := true)
    case RemoveTemp => d.(temp := None)
    case RemoveFinal => d.(final := None)
    case RemoveBackup => d.(backup := None)
    case MoveBackupToFinal => d.(backup := None, final := d.backup)
    case RemoveJournal => d.(journal := false)
    case RemovePrepared => d.(prepared := false)
    case RemoveDatabaseReady => d.(databaseReady := false)
  }

  // ---------------------------------------------------------------- forward plan

  /** The temporary file grows byte by byte. */
  function TempWrites(file: File): (steps: seq<Step>)
    ensures |steps| == |file.bytes| + 1
  {
    seq(|file.bytes| + 1, n requires 0 <= n <= |file.bytes| => WriteTemp(File(file.bytes[..n], file.mtime)))
  }

  function InstallPlan(op: Op): seq<Step> {
    When(op.replaced, MoveFinalToBackup) + [MoveTempToFinal]
  }

  function WritingPlan(op: Op): seq<Step> {
    [WriteJournal] + TempWrites(op.upload) + [WritePrepared]
  }

  function RecordPlan(op: Op): seq<Step> {
    [UpsertRow(op.owner), MarkDatabaseReady]
  }

  function UploadPlan(op: Op): seq<Step> {
    WritingPlan(op) + InstallPlan(op) + RecordPlan(op) + FinishPlan(op)
  }

  // --------------------------------------------------------------- recovery plan

  /** Removing a file that is already gone is a step without effect. */
  function DropJournalPlan(): seq<Step> {
    [RemoveJournal, RemovePrepared, RemoveDatabaseReady]
  }

  function OrphanPlan(d: Disk): seq<Step> {
    When(d.databaseReady, RemoveDatabaseReady) + When(d.prepared, RemovePrepared)
  }

  predicate PlannedIsUnsafe(op: Op, d: Disk) {
    || (!op.replaced && d.final.Some?)
    || (op.replaced && (d.final.None? || d.backup.Some?))
  }

  function PlannedRollback(op: Op, d: Disk): Decision<Step> {
    if PlannedIsUnsafe(op, d) then Refuse
    else Proceed(When(d.temp.Some?, RemoveTemp) + DropJournalPlan())
  }

  function FinishPlan(op: Op): seq<Step> {
    [RemoveTemp] + When(op.replaced, RemoveBackup) + DropJournalPlan()
  }

  predicate FinalMatches(op: Op, d: Disk) {
    d.final == Some(op.upload)
  }

  predicate RollbackIsUnsafe(op: Op, d: Disk) {
    if op.replaced then
      || (d.backup.Some? && d.final.Some? && !FinalMatches(op, d))
      || (d.backup.None? && d.final.None?)
      || (d.backup.None? && FinalMatches(op, d) && d.temp.None?)
    else
      d.final.Some? && !FinalMatches(op, d)
  }

  /** The new file goes, and the old one comes back. */
  function RestoreFilesPlan(op: Op, d: Disk): seq<Step> {
    When(d.temp.Some?, RemoveTemp)
    + When(d.final.Some? && (if op.replaced then d.backup.Some? else true), RemoveFinal)
    + When(op.replaced && d.backup.Some?, MoveBackupToFinal)
  }

  function PreparedRollback(op: Op, d: Disk): Decision<Step> {
    if RollbackIsUnsafe(op, d) then Refuse
    else Proceed(RestoreFilesPlan(op, d) + DropJournalPlan())
  }

  predicate CanComplete(op: Op, d: Disk) {
    d.temp.None? && FinalMatches(op, d)
  }

  predicate CanRollBack(op: Op, d: Disk) {
    || (!op.replaced && d.temp.Some? && d.final.None?)
    || (op.replaced && (
          || (d.temp.Some? && d.final.Some? && d.backup.None?)
          || (d.temp.Some? && d.final.None? && d.backup.Some?)
          || (d.temp.None? && d.final.None? && d.backup.Some?)
          || (d.temp.None? && d.final.Some? && d.backup.None? && !FinalMatches(op, d))))
  }

  function CompletePlan(op: Op): seq<Step> {
    RecordPlan(op) + FinishPlan(op)
  }

  /** What RecoverFileUploadOperations decides from durable state. */
  function RecoveryPlan(op: Op, d: Disk): Decision<Step> {
    if !d.journal then Proceed(OrphanPlan(d))
    else if !d.prepared then PlannedRollback(op, d)
    else if d.databaseReady then Proceed(FinishPlan(op))
    else if CanComplete(op, d) then Proceed(CompletePlan(op))
    else if CanRollBack(op, d) then PreparedRollback(op, d)
    else Refuse
  }

  /** Recovery completes, rather than rolls back, exactly in these states. */
  predicate RecoveryCompletes(op: Op, d: Disk) {
    d.journal && d.prepared && (d.databaseReady || CanComplete(op, d))
  }

  // ---------------------------------------------------- recovery on any disk

  /** When recovery refuses, whatever it finds.  Before the journal is prepared: when the object is not
      where it was left.  After it, short of the database marker: unless the new file is in place, or
      can be taken back, which for a replacement means that exactly one old or new file is there beside
      the temporary one, and for a new file that it has not been moved into place. */
  lemma RefusesExactly(op: Op, d: Disk)
    ensures RecoveryPlan(op, d).Refuse? <==>
            && d.journal
            && if !d.prepared then if op.replaced then d.final.None? || d.backup.Some? else d.final.Some?
               else
                 && !d.databaseReady && !(d.temp.None? && d.final == Some(op.upload))
                 && if op.replaced then d.final.Some? == d.backup.Some? else d.temp.None? || d.final.Some?
    ensures PreparedRollback(op, d).Refuse? <==>
              if op.replaced && d.backup.None? then d.final.None? || (d.final == Some(op.upload) && d.temp.None?)
              else d.final.Some? && d.final != Some(op.upload)
  {
  }

  predicate KeepsFinal(step: Step) {
    !step.MoveFinalToBackup? && !step.MoveTempToFinal? && !step.RemoveFinal? && !step.MoveBackupToFinal?
  }

  lemma {:induction false} FinalIsKept(d: Disk, steps: seq<Step>)
    requires forall step <- steps :: KeepsFinal(step)
    ensures Exec(Apply, d, steps).final == d.final
    decreases |steps|
  {
    if steps != [] {
      assert KeepsFinal(steps[0]);
      FinalIsKept(Apply(d, steps[0]), steps[1..]);
    }
  }

  lemma RollbackKeepsFinal(op: Op, d: Disk)
    requires d.final.Some? && d.final != Some(op.upload) && PreparedRollback(op, d).Proceed?
    ensures forall step <- PreparedRollback(op, d).steps :: KeepsFinal(step)
  {
  }

  lemma RecoveryKeepsFinal(op: Op, d: Disk)
    requires d.final.Some? && d.final != Some(op.upload) && RecoveryPlan(op, d).Proceed?
    ensures forall step <- RecoveryPlan(op, d).steps :: KeepsFinal(step)
  {
    if PreparedRollback(op, d).Proceed? {
      RollbackKeepsFinal(op, d);
    }
  }

  /** A file at the object's path that is not the uploaded one survives recovery, on any disk and
      however far recovery gets; so does it when a failed request takes its upload back. */
  lemma ForeignFileStays(op: Op, d: Disk, cut: nat)
    requires d.final.Some? && d.final != Some(op.upload)
    ensures RecoveryPlan(op, d).Proceed? ==> Exec(Apply, d, Cut(RecoveryPlan(op, d).steps, cut)).final == d.final
    ensures PreparedRollback(op, d).Proceed? ==> Exec(Apply, d, Cut(PreparedRollback(op, d).steps, cut)).final == d.final
  {
    if PreparedRollback(op, d).Proceed? {
      RollbackKeepsFinal(op, d);
      FinalIsKept(d, Cut(PreparedRollback(op, d).steps, cut));
    }
    if RecoveryPlan(op, d).Proceed? {
      RecoveryKeepsFinal(op, d);
      FinalIsKept(d, Cut(RecoveryPlan(op, d).steps, cut));
    }
  }

  // ------------------------------------------------------------------ invariant

  /** The job: the operation and the disk on which it started. */
  datatype Job = Job(op: Op, start: Disk)

  /** The request checked that the target exists exactly when it will be replaced, and a fresh
      operation identifier has no files or markers yet. */
  predicate Started(job: Job) {
    && job.start == Disk(None, job.start.final, None, job.start.row, false, false, false)
    && job.op.replaced == job.start.final.Some?
  }

  function NewRow(op: Op): Option<Row> {
    Some(Row(|op.upload.bytes|, op.upload.mtime, op.owner))
  }

  predicate HoldsOld(job: Job, d: Disk) {
    d.final == job.start.final && d.row == job.start.row
  }

  predicate HoldsNew(job: Job, d: Disk) {
    d.final == Some(job.op.upload) && d.row == NewRow(job.op)
  }

  /** Nothing of the operation is left over. */
  predicate Clean(d: Disk) {
    d.temp.None? && d.backup.None? && !d.journal && !d.prepared && !d.databaseReady
  }

  predicate Settled(job: Job, d: Disk) {
    Clean(d) && (HoldsOld(job, d) || HoldsNew(job, d))
  }

  /** The journal is gone: only orphaned markers may remain. */
  predicate Unjournalled(job: Job, d: Disk) {
    !d.journal && d.temp.None? && d.backup.None? && (HoldsOld(job, d) || HoldsNew(job, d))
  }

  /** The journal is planned: nothing but the temporary file has been touched. */
  predicate Planned(job: Job, d: Disk) {
    d.journal && !d.prepared && !d.databaseReady && d.backup.None? && HoldsOld(job, d)
  }

  /** The new file is complete and the ledger still has the old row. */
  predicate Installing(job: Job, d: Disk) {
    && d.journal && d.prepared && !d.databaseReady && d.row == job.start.row
    && (d.temp.Some? ==> d.temp == Some(job.op.upload))
    && if job.op.replaced then
         (d.final == job.start.final && d.backup.None?)
         || (d.final.None? && d.backup == job.start.final)
       else d.final.None? && d.backup.None?
  }

  /** The new file is in place; the row may or may not have been written. */
  predicate Installed(job: Job, d: Disk) {
    && d.journal && d.prepared && !d.databaseReady && d.temp.None?
    && d.final == Some(job.op.upload)
    && (d.row == job.start.row || d.row == NewRow(job.op))
    && (d.backup.None? || (job.op.replaced && d.backup == job.start.final))
    && (d.backup.None? ==> job.op.replaced ==> d.row == job.start.row ==> job.start.final == Some(job.op.upload))
  }

  predicate Committed(job: Job, d: Disk) {
    && d.journal && d.prepared && d.databaseReady && d.temp.None? && HoldsNew(job, d)
    && (d.backup.None? || d.backup == job.start.final)
  }

  /** Every durable state an upload, its crashes and its recoveries can leave. */
  predicate Recoverable(job: Job, d: Disk) {
    || Unjournalled(job, d)
    || Planned(job, d)
    || Installing(job, d)
    || Installed(job, d)
    || Committed(job, d)
  }

  /** The one state recovery will not touch: a new file's upload was being rolled back, its
      temporary file is gone and its prepared journal is not. */
  predicate Stranded(op: Op, d: Disk) {
    && !op.replaced && d.journal && d.prepared && !d.databaseReady
    && d.temp.None? && d.final.None?
  }

  // ------------------------------------------------------- the forward direction

  /** What an interrupted upload, not yet any recovery, can leave. */
  predicate Interrupted(job: Job, d: Disk) {
    Recoverable(job, d) && !Stranded(job.op, d)
  }

  lemma {:induction false} TempWritesSafe(job: Job, d: Disk, n: nat)
    requires Planned(job, d) && n <= |job.op.upload.bytes|
    ensures Safe(Apply, Interrupted, job, d, TempWrites(job.op.upload)[n..])
    ensures Exec(Apply, d, TempWrites(job.op.upload)[n..]) == d.(temp := Some(job.op.upload))
    decreases |job.op.upload.bytes| - n
  {
    var file := job.op.upload;
    var steps := TempWrites(file)[n..];
    var next := Apply(d, steps[0]);
    assert steps[0] == WriteTemp(File(file.bytes[..n], file.mtime));
    assert steps[1..] == TempWrites(file)[n + 1..];
    if n == |file.bytes| {
      assert file.bytes[..n] == file.bytes;
      assert steps[1..] == [];
    } else {
      TempWritesSafe(job, next, n + 1);
    }
  }

  lemma WritingSafe(job: Job)
    requires Started(job)
    ensures Safe(Apply, Interrupted, job, job.start, WritingPlan(job.op))
    ensures Exec(Apply, job.start, WritingPlan(job.op))
         == job.start.(journal := true, temp := Some(job.op.upload), prepared := true)
  {
    var op, s := job.op, job.start;
    var p0: seq<Step> := [];
    SafeWhen(Apply, Interrupted, job, s, p0, true, WriteJournal);
    var p1 := p0 + When(true, WriteJournal);
    TempWritesSafe(job, Exec(Apply, s, p1), 0);
    assert TempWrites(op.upload)[0..] == TempWrites(op.upload);
    SafeAppend(Apply, Interrupted, job, s, p1, TempWrites(op.upload));
    ExecAppend(Apply, s, p1, TempWrites(op.upload));
    var p2 := p1 + TempWrites(op.upload);
    SafeWhen(Apply, Interrupted, job, s, p2, true, WritePrepared);
    assert p2 + When(true, WritePrepared) == WritingPlan(op);
  }

  lemma InstallSafe(job: Job, d: Disk)
    requires Started(job)
    requires d == job.start.(journal := true, temp := Some(job.op.upload), prepared := true)
    ensures Safe(Apply, Interrupted, job, d, InstallPlan(job.op))
    ensures Exec(Apply, d, InstallPlan(job.op))
         == d.(temp := None, final := Some(job.op.upload), backup := job.start.final)
  {
    var op := job.op;
    var p0: seq<Step> := [];
    SafeWhen(Apply, Interrupted, job, d, p0, op.replaced, MoveFinalToBackup);
    var p1 := p0 + When(op.replaced, MoveFinalToBackup);
    SafeWhen(Apply, Interrupted, job, d, p1, true, MoveTempToFinal);
    assert p1 + When(true, MoveTempToFinal) == InstallPlan(op);
  }

  lemma RecordSafe(job: Job, d: Disk)
    requires Started(job)
    requires d == job.start.(journal := true, prepared := true, final := Some(job.op.upload), backup := job.start.final)
    ensures Safe(Apply, Interrupted, job, d, RecordPlan(job.op))
    ensures Exec(Apply, d, RecordPlan(job.op)) == d.(row := NewRow(job.op), databaseReady := true)
  {
    var op := job.op;
    var p0: seq<Step> := [];
    SafeWhen(Apply, Interrupted, job, d, p0, true, UpsertRow(op.owner));
    var p1 := p0 + When(true, UpsertRow(op.owner));
    SafeWhen(Apply, Interrupted, job, d, p1, true, MarkDatabaseReady);
    assert p1 + When(true, MarkDatabaseReady) == RecordPlan(op);
  }

  /** The journal goes once the upload is committed and its files are cleaned up. */
  lemma CommittedDropSafe(job: Job, d: Disk)
    requires Started(job) && Committed(job, d) && d.backup.None?
    ensures Safe(Apply, Interrupted, job, d, DropJournalPlan())
    ensures Exec(Apply, d, DropJournalPlan()) == d.(journal := false, prepared := false, databaseReady := false)
  {
    var p0: seq<Step> := [];
    SafeWhen(Apply, Interrupted, job, d, p0, true, RemoveJournal);
    var p1 := p0 + When(true, RemoveJournal);
    SafeWhen(Apply, Interrupted, job, d, p1, true, RemovePrepared);
    var p2 := p1 + When(true, RemovePrepared);
    SafeWhen(Apply, Interrupted, job, d, p2, true, RemoveDatabaseReady);
    assert p2 + When(true, RemoveDatabaseReady) == DropJournalPlan();
  }

  lemma FinishSafe(job: Job, d: Disk)
    requires Started(job) && Committed(job, d)
    ensures Safe(Apply, Interrupted, job, d, FinishPlan(job.op))
    ensures Clean(Exec(Apply, d, FinishPlan(job.op))) && HoldsNew(job, Exec(Apply, d, FinishPlan(job.op)))
  {
    var op := job.op;
    var p0: seq<Step> := [];
    SafeWhen(Apply, Interrupted, job, d, p0, true, RemoveTemp);
    var p1 := p0 + When(true, RemoveTemp);
    SafeWhen(Apply, Interrupted, job, d, p1, op.replaced, RemoveBackup);
    var p2 := p1 + When(op.replaced, RemoveBackup);
    var e := Exec(Apply, d, p2);
    assert e == d.(temp := None, backup := None);
    CommittedDropSafe(job, e);
    SafeAppend(Apply, Interrupted, job, d, p2, DropJournalPlan());
    ExecAppend(Apply, d, p2, DropJournalPlan());
    assert p2 + DropJournalPlan() == FinishPlan(op);
  }

  /** Every durable state the upload passes through is recoverable, and its last state holds
      the new file and the new row with nothing left over. */
  lemma ForwardSafe(job: Job)
    requires Started(job)
    ensures Safe(Apply, Interrupted, job, job.start, UploadPlan(job.op))
    ensures Clean(Exec(Apply, job.start, UploadPlan(job.op)))
    ensures HoldsNew(job, Exec(Apply, job.start, UploadPlan(job.op)))
  {
    var op, s := job.op, job.start;
    var p1 := WritingPlan(op);
    WritingSafe(job);
    var d1 := Exec(Apply, s, p1);
    InstallSafe(job, d1);
    var p2 := p1 + InstallPlan(op);
    SafeAppend(Apply, Interrupted, job, s, p1, InstallPlan(op));
    ExecAppend(Apply, s, p1, InstallPlan(op));
    var d2 := Exec(Apply, s, p2);
    RecordSafe(job, d2);
    var p3 := p2 + RecordPlan(op);
    SafeAppend(Apply, Interrupted, job, s, p2, RecordPlan(op));
    ExecAppend(Apply, s, p2, RecordPlan(op));
    FinishSafe(job, Exec(Apply, s, p3));
    SafeAppend(Apply, Interrupted, job, s, p3, FinishPlan(op));
    ExecAppend(Apply, s, p3, FinishPlan(op));
  }

  // ------------------------------------------------------------------- recovery

  lemma DropJournalSafe(job: Job, d: Disk)
    requires Recoverable(job, d) && d.temp.None? && d.backup.None?
    requires HoldsOld(job, d) || HoldsNew(job, d)
    ensures Safe(Apply, Recoverable, job, d, DropJournalPlan())
    ensures Exec(Apply, d, DropJournalPlan()) == d.(journal := false, prepared := false, databaseReady := false)
  {
    var p0: seq<Step> := [];
    SafeWhen(Apply, Recoverable, job, d, p0, true, RemoveJournal);
    var p1 := p0 + When(true, RemoveJournal);
    SafeWhen(Apply, Recoverable, job, d, p1, true, RemovePrepared);
    var p2 := p1 + When(true, RemovePrepared);
    SafeWhen(Apply, Recoverable, job, d, p2, true, RemoveDatabaseReady);
    assert p2 + When(true, RemoveDatabaseReady) == DropJournalPlan();
  }

  lemma OrphanSafe(job: Job, d: Disk)
    requires Unjournalled(job, d)
    ensures Safe(Apply, Recoverable, job, d, OrphanPlan(d))
    ensures Exec(Apply, d, OrphanPlan(d)) == d.(prepared := false, databaseReady := false)
  {
    var p0: seq<Step> := [];
    SafeWhen(Apply, Recoverable, job, d, p0, d.databaseReady, RemoveDatabaseReady);
    var p1 := p0 + When(d.databaseReady, RemoveDatabaseReady);
    SafeWhen(Apply, Recoverable, job, d, p1, d.prepared, RemovePrepared);
    assert p1 + When(d.prepared, RemovePrepared) == OrphanPlan(d);
  }

  /** Appending the journal removal to a safe run. */
  lemma ThenDropJournal(job: Job, d: Disk, steps: seq<Step>)
    requires Safe(Apply, Recoverable, job, d, steps)
    requires var e := Exec(Apply, d, steps);
             && Recoverable(job, e) && e.temp.None? && e.backup.None?
             && (HoldsOld(job, e) || HoldsNew(job, e))
    ensures Safe(Apply, Recoverable, job, d, steps + DropJournalPlan())
    ensures Exec(Apply, d, steps + DropJournalPlan())
         == Exec(Apply, d, steps).(journal := false, prepared := false, databaseReady := false)
  {
    DropJournalSafe(job, Exec(Apply, d, steps));
    SafeAppend(Apply, Recoverable, job, d, steps, DropJournalPlan());
    ExecAppend(Apply, d, steps, DropJournalPlan());
  }

  lemma CompleteSafe(job: Job, d: Disk)
    requires Started(job)
    requires Recoverable(job, d) && d.journal && d.prepared && !d.databaseReady && CanComplete(job.op, d)
    ensures Safe(Apply, Recoverable, job, d, CompletePlan(job.op))
    ensures Clean(Exec(Apply, d, CompletePlan(job.op)))
    ensures HoldsNew(job, Exec(Apply, d, CompletePlan(job.op)))
  {
    var p0: seq<Step> := [];
    SafeWhen(Apply, Recoverable, job, d, p0, true, UpsertRow(job.op.owner));
    var p1 := p0 + When(true, UpsertRow(job.op.owner));
    SafeWhen(Apply, Recoverable, job, d, p1, true, MarkDatabaseReady);
    var p2 := p1 + When(true, MarkDatabaseReady);
    assert p2 == RecordPlan(job.op);
    var e := Exec(Apply, d, p2);
    FinishSafe(job, e);
    SafeWeaken(Apply, Interrupted, Recoverable, job, e, FinishPlan(job.op));
    SafeAppend(Apply, Recoverable, job, d, p2, FinishPlan(job.op));
    ExecAppend(Apply, d, p2, FinishPlan(job.op));
  }

  lemma PlannedRollbackSafe(job: Job, d: Disk)
    requires Started(job) && Planned(job, d)
    ensures PlannedRollback(job.op, d).Proceed?
    ensures var p := PlannedRollback(job.op, d).steps;
            && Safe(Apply, Recoverable, job, d, p)
            && Clean(Exec(Apply, d, p)) && HoldsOld(job, Exec(Apply, d, p))
  {
    var p0: seq<Step> := [];
    SafeWhen(Apply, Recoverable, job, d, p0, d.temp.Some?, RemoveTemp);
    var p1 := p0 + When(d.temp.Some?, RemoveTemp);
    ThenDropJournal(job, d, p1);
    assert p1 + DropJournalPlan() == PlannedRollback(job.op, d).steps;
  }

  /** Rolling back a prepared upload restores the old file.  This covers recovery and the
      rollback a failed request runs before it returns. */
  lemma PreparedRollbackSafe(job: Job, d: Disk)
    requires Started(job)
    requires (Installing(job, d) && !(job.op.replaced && CanComplete(job.op, d)))
          || (Installed(job, d) && d.row == job.start.row && (job.op.replaced ==> d.backup.Some?))
    ensures PreparedRollback(job.op, d).Proceed?
    ensures var p := PreparedRollback(job.op, d).steps;
            && Safe(Apply, Recoverable, job, d, p)
            && Clean(Exec(Apply, d, p)) && HoldsOld(job, Exec(Apply, d, p))
  {
    var op := job.op;
    var p0: seq<Step> := [];
    SafeWhen(Apply, Recoverable, job, d, p0, d.temp.Some?, RemoveTemp);
    var p1 := p0 + When(d.temp.Some?, RemoveTemp);
    var dropFinal := d.final.Some? && (if op.replaced then d.backup.Some? else true);
    SafeWhen(Apply, Recoverable, job, d, p1, dropFinal, RemoveFinal);
    var p2 := p1 + When(dropFinal, RemoveFinal);
    SafeWhen(Apply, Recoverable, job, d, p2, op.replaced && d.backup.Some?, MoveBackupToFinal);
    var p3 := p2 + When(op.replaced && d.backup.Some?, MoveBackupToFinal);
    ThenDropJournal(job, d, p3);
    assert p3 + DropJournalPlan() == PreparedRollback(op, d).steps;
  }

  /** The decision table: recovery refuses a recoverable state exactly when it is stranded, and
      otherwise every state it passes through is recoverable again and it ends settled, with
      the new file and row exactly when it decided to complete. */
  lemma RecoverySettles(job: Job, d: Disk)
    requires Started(job) && Recoverable(job, d)
    ensures RecoveryPlan(job.op, d).Refuse? <==> Stranded(job.op, d)
    ensures Stranded(job.op, d) ==> HoldsOld(job, d)
    ensures RecoveryPlan(job.op, d).Proceed? ==>
              var p := RecoveryPlan(job.op, d).steps;
              && Safe(Apply, Recoverable, job, d, p)
              && Settled(job, Exec(Apply, d, p))
              && (RecoveryCompletes(job.op, d) ==> HoldsNew(job, Exec(Apply, d, p)))
              && (d.journal && !RecoveryCompletes(job.op, d) ==> HoldsOld(job, Exec(Apply, d, p)))
              && (!d.journal ==> Exec(Apply, d, p).final == d.final && Exec(Apply, d, p).row == d.row)
  {
    if !d.journal {
      OrphanSafe(job, d);
    } else if !d.prepared {
      PlannedRollbackSafe(job, d);
    } else if d.databaseReady {
      FinishSafe(job, d);
      SafeWeaken(Apply, Interrupted, Recoverable, job, d, FinishPlan(job.op));
    } else if CanComplete(job.op, d) {
      CompleteSafe(job, d);
    } else if CanRollBack(job.op, d) {
      PreparedRollbackSafe(job, d);
    }
  }

  // ------------------------------------------------------------- whole histories

  function Recover(job: Job, order: (), d: Disk): Decision<Step> {
    RecoveryPlan(job.op, d)
  }

  /** The durable state after the upload is cut and the recoveries of later restarts are cut. */
  function UploadAfterCrashes(job: Job, cut: nat, lives: seq<Life<()>>): Disk {
    AfterCrashes(Apply, Recover, job, job.start, UploadPlan(job.op), cut, lives)
  }

  lemma UploadStaysRecoverable(job: Job, cut: nat, lives: seq<Life<()>>)
    requires Started(job)
    ensures Recoverable(job, UploadAfterCrashes(job, cut, lives))
    ensures lives == [] ==> !Stranded(job.op, UploadAfterCrashes(job, cut, lives))
  {
    ForwardSafe(job);
    SafeWeaken(Apply, Interrupted, Recoverable, job, job.start, UploadPlan(job.op));
    forall life, d | life in lives && Recoverable(job, d) && Recover(job, life.order, d).Proceed?
      ensures Safe(Apply, Recoverable, job, d, Recover(job, life.order, d).steps)
    {
      RecoverySettles(job, d);
    }
    CrashesKeep(Apply, Recoverable, Recover, job, job.start, UploadPlan(job.op), cut, lives);
    CutKeeps(Apply, Interrupted, job, job.start, UploadPlan(job.op), cut);
  }

  /** Upload is atomic: after any crash of the upload and any crashes of later recoveries, the
      next recovery settles on exactly the old file and row or exactly the new ones and leaves
      nothing behind.  It refuses only the stranded state, which a replacing upload never
      reaches, and even there the old file and row are intact. */
  lemma UploadIsAtomic(job: Job, cut: nat, lives: seq<Life<()>>)
    requires Started(job)
    ensures var d := UploadAfterCrashes(job, cut, lives);
            match RecoveryPlan(job.op, d)
            case Proceed(steps) => Settled(job, Exec(Apply, d, steps))
            case Refuse => !job.op.replaced && lives != [] && HoldsOld(job, d)
  {
    UploadStaysRecoverable(job, cut, lives);
    RecoverySettles(job, UploadAfterCrashes(job, cut, lives));
  }

  /** Steps that neither touch the target file nor create a journal. */
  predicate Quiet(step: Step) {
    step.UpsertRow? || step.MarkDatabaseReady? || step.RemoveTemp? || step.RemoveBackup?
    || step.RemoveJournal? || step.RemovePrepared? || step.RemoveDatabaseReady?
  }

  lemma {:induction false} QuietRun(d: Disk, steps: seq<Step>)
    requires forall step <- steps :: Quiet(step)
    ensures Exec(Apply, d, steps).final == d.final
    ensures Exec(Apply, d, steps).journal ==> d.journal
    ensures Exec(Apply, d, steps).prepared ==> d.prepared
    decreases |steps|
  {
    if steps != [] {
      var d1 := Apply(d, steps[0]);
      assert Quiet(steps[0]);
      QuietRun(d1, steps[1..]);
    }
  }

  /** The rollback of a new file's prepared upload, cut at each place. */
  lemma CutNewFileRollback(d: Disk, cut: nat)
    requires d.journal && d.prepared && !d.databaseReady && d.temp.Some? && d.final.None?
    ensures var e := Exec(Apply, d, Cut([RemoveTemp, RemoveJournal, RemovePrepared, RemoveDatabaseReady], cut));
            e.journal && e.temp.None? <==> cut == 1
  {
    var steps := [RemoveTemp, RemoveJournal, RemovePrepared, RemoveDatabaseReady];
    if cut == 0 {
      assert Cut(steps, cut) == [];
    } else if cut == 1 {
      assert Cut(steps, cut) == [RemoveTemp];
      assert [RemoveTemp][1..] == [];
    } else {
      var kept := Cut(steps, cut);
      assert kept == [RemoveTemp, RemoveJournal] + kept[2..];
      assert kept[1..] == [RemoveJournal] + kept[2..];
      assert kept[1..][1..] == kept[2..];
      QuietRun(Apply(Apply(d, RemoveTemp), RemoveJournal), kept[2..]);
    }
  }

  /** Exactly when a crash of recovery strands the operation: a new file's upload whose
      prepared journal and temporary file both exist, cut after the temporary file is removed. */
  lemma StrandedExactly(job: Job, d: Disk, cut: nat)
    requires Started(job) && Recoverable(job, d) && RecoveryPlan(job.op, d).Proceed?
    ensures Stranded(job.op, Exec(Apply, d, Cut(RecoveryPlan(job.op, d).steps, cut)))
       <==> !job.op.replaced && d.journal && d.prepared && d.temp.Some? && cut == 1
  {
    var steps := RecoveryPlan(job.op, d).steps;
    if !job.op.replaced && d.journal && d.prepared && d.temp.Some? {
      assert steps == [RemoveTemp, RemoveJournal, RemovePrepared, RemoveDatabaseReady];
      QuietRun(d, Cut(steps, cut));
      CutNewFileRollback(d, cut);
      if cut == 1 {
        assert Cut(steps, cut) == [RemoveTemp] && [RemoveTemp][1..] == [];
      }
    } else if !job.op.replaced {
      QuietRun(d, Cut(steps, cut));
    }
  }

  /** Cut once the upload is prepared, and again once its temporary file is gone: stranded for good. */
  lemma StrandingHistory(job: Job)
    requires Started(job) && !job.op.replaced
    ensures RecoveryPlan(job.op, UploadAfterCrashes(job, |WritingPlan(job.op)|, [Life((), 1)])).Refuse?
  {
    var op, cut := job.op, |WritingPlan(job.op)|;
    WritingSafe(job);
    assert Cut(UploadPlan(op), cut) == WritingPlan(op);
    var lives := [Life((), 1)];
    assert lives[..0] == [];
    var d := UploadAfterCrashes(job, cut, []);
    assert d == job.start.(journal := true, temp := Some(op.upload), prepared := true);
    RecoverySettles(job, d);
    StrandedExactly(job, d, 1);
    UploadStaysRecoverable(job, cut, lives);
    RecoverySettles(job, UploadAfterCrashes(job, cut, lives));
  }

  /** Some crashes make recovery refuse for good if and only if the file uploaded is new. */
  lemma RefusalIsPossibleExactly(job: Job)
    requires Started(job)
    ensures (exists cut: nat, lives: seq<Life<()>> :: RecoveryPlan(job.op, UploadAfterCrashes(job, cut, lives)).Refuse?)
       <==> !job.op.replaced
  {
    forall cut: nat, lives: seq<Life<()>> | RecoveryPlan(job.op, UploadAfterCrashes(job, cut, lives)).Refuse?
      ensures !job.op.replaced
    {
      UploadIsAtomic(job, cut, lives);
    }
    if !job.op.replaced {
      StrandingHistory(job);
    }
  }
}
