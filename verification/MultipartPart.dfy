/** Part replacement (internal/s3api/multipart.go). */
module MultipartPart {
  import opened Crash
  import opened Wrappers

  // Replacing one part of a multipart upload (UploadPart in internal/s3api/multipart.go and
  // internal/s3api/multipart_part_recovery.go).
  //
  // The part's bytes, its database row and a journal live in different stores.  Recovery is told
  // by the row, and by which files exist and match, whether to commit or to roll back.

  /** Size and MD5 of a part are modelled by its bytes. */
  type Bytes = string

  datatype Row = Row(etag: Bytes, createdAt: int)

  datatype Op = Op(part: Row, previous: Option<Row>)

  datatype Disk = Disk(
    temp: Option<Bytes>,
    final: Option<Bytes>,
    backup: Option<Bytes>,
    row: Option<Row>,
    upload: Option<int>,   // the upload's row, with its time of last change
    journal: bool)

  datatype Step =
    | WriteTemp(bytes: Bytes)
    | WriteJournal
    | MoveFinalToBackup
    | MoveTempToFinal
    | Commit(part: Row)
    | RemoveTemp
    | RemoveFinal
    | RemoveBackup
    | MoveBackupToFinal
    | RemoveJournal

  function Apply(d: Disk, step: Step): Disk {
    match step
    case WriteTemp(bytes) => d.(temp := Some(bytes))
    case WriteJournal => d.(journal := true)
    case MoveFinalToBackup => d.(final := None, backup := d.final)
    case MoveTempToFinal => d.(temp := None, final := d.temp)
    case Commit(part) =>
      // One transaction: it fails, changing nothing, when the upload's row is gone.
      if d.upload.Some? then d.(row := Some(part), upload := Some(part.createdAt)) else d
    case RemoveTemp => d.(temp := None)
    case RemoveFinal => d.(final := None)
    case RemoveBackup => d.(backup := None)
    case MoveBackupToFinal => d.(backup := None, final := d.backup)
    case RemoveJournal => d.(journal := false)
  }

  // ---------------------------------------------------------------------- plans

  /** The temporary file grows byte by byte. */
  function TempWrites(bytes: Bytes): (steps: seq<Step>)
    ensures |steps| == |bytes| + 1
  {
    seq(|bytes| + 1, n requires 0 <= n <= |bytes| => WriteTemp(bytes[..n]))
  }

  function CleanupPlan(): seq<Step> {
    [RemoveTemp, RemoveBackup, RemoveJournal]
  }

  function CommitPlan(op: Op): seq<Step> {
    [Commit(op.part)] + CleanupPlan()
  }

  /** The old part's file must be there and match its row, or the new part is dropped. */
  predicate OldPartIsBroken(d: Disk) {
    d.row.Some? && d.final != Some(d.row.value.etag)
  }

  function StalePlan(d: Disk): seq<Step> {
    When(d.row.None? && d.final.Some?, RemoveFinal) + When(d.backup.Some?, RemoveBackup)
  }

  function InstallPlan(op: Op): seq<Step> {
    [WriteJournal] + When(op.previous.Some?, MoveFinalToBackup) + [MoveTempToFinal]
  }

  function ReplacePlan(op: Op, d: Disk): seq<Step> {
    StalePlan(d) + InstallPlan(op) + CommitPlan(op)
  }

  function AfterTempPlan(op: Op, d: Disk): seq<Step> {
    if OldPartIsBroken(d) then [RemoveTemp] else ReplacePlan(op, d)
  }

  function UploadPartPlan(op: Op, d: Disk): seq<Step> {
    TempWrites(op.part.etag) + AfterTempPlan(op, d)
  }

  predicate FinalIsNew(op: Op, d: Disk) {
    d.final == Some(op.part.etag)
  }

  predicate RollbackIsUnsafe(op: Op, d: Disk) {
    if op.previous.Some? then
      if d.backup.Some? then
        d.backup != Some(op.previous.value.etag) || (d.final.Some? && !FinalIsNew(op, d))
      else d.final.None? || FinalIsNew(op, d)
    else d.final.Some? && !FinalIsNew(op, d)
  }

  function RollbackPlan(op: Op, d: Disk): Decision<Step> {
    if RollbackIsUnsafe(op, d) then Refuse
    else Proceed(
        When(d.temp.Some?, RemoveTemp)
        + When(d.final.Some? && (d.backup.Some? || op.previous.None?), RemoveFinal)
        + When(d.backup.Some?, MoveBackupToFinal)
        + [RemoveJournal])
  }

  predicate CanRollBack(op: Op, d: Disk) {
    || d.temp.Some?
    || (d.backup.Some? && d.final.None?)
    || (op.previous.Some? && d.final.Some? && !FinalIsNew(op, d) && d.backup.None?)
  }

  /** What resolveMultipartPartOperation decides from durable state. */
  function RecoveryPlan(op: Op, d: Disk): Decision<Step> {
    if !d.journal then Proceed([])
    else if d.upload.None? then Proceed([RemoveTemp, RemoveFinal, RemoveBackup, RemoveJournal])
    else if d.row == Some(op.part) then
      if FinalIsNew(op, d) then Proceed(CleanupPlan()) else Refuse
    else if d.row != op.previous then Refuse
    else if d.temp.None? && FinalIsNew(op, d) then Proceed(CommitPlan(op))
    else if op.previous.None? && d.temp.None? && d.final.None? && d.backup.None? then Proceed([RemoveJournal])
    else if CanRollBack(op, d) then RollbackPlan(op, d)
    else Refuse
  }

  predicate RecoveryCompletes(op: Op, d: Disk) {
    d.journal && (d.upload.None? || d.row == Some(op.part) || (d.temp.None? && FinalIsNew(op, d)))
  }

  // ---------------------------------------------------- recovery on any disk

  /** When recovery refuses, whatever it finds.  With the new row: when the file is not the new part.
      Otherwise: when the row is not the recorded one, or else unless the new part is in place, or can
      be taken back without losing a file that is neither the old part nor the new one. */
  lemma RefusesExactly(op: Op, d: Disk)
    ensures var isNew := d.final == Some(op.part.etag); var isForeign := d.final.Some? && !isNew;
            RecoveryPlan(op, d).Refuse? <==>
            && d.journal && d.upload.Some?
            && if d.row == Some(op.part) then !isNew
               else
                 || d.row != op.previous
                 || (op.previous.None? && isForeign)
                 || (op.previous.Some? && !(d.temp.None? && isNew)
                     && if d.backup.Some? then d.backup.value != op.previous.value.etag || isForeign else !isForeign)
  {
  }

  /** The commit's transaction needs the upload's row and changes nothing without it. */
  lemma CommitNeedsUpload(d: Disk, part: Row)
    ensures Apply(d, Commit(part)) == if d.upload == None then d else d.(row := Some(part), upload := Some(part.createdAt))
  {
  }

  predicate KeepsFinal(step: Step) {
    !step.MoveFinalToBackup? && !step.MoveTempToFinal? && !step.RemoveFinal? && !step.MoveBackupToFinal?
  }

  lemma {:induction false} FinalIsKept(d: Disk, steps: seq<Step>)
    requires forall step <- steps :: KeepsFinal(step)
    ensures Exec(Apply, d, steps).final == d.final
    decreases |steps|
  {
    if steps != [] {
      assert KeepsFinal(steps[0]);
      FinalIsKept(Apply(d, steps[0]), steps[1..]);
    }
  }

  /** A file in the part's place that is not the new part survives recovery while the upload exists, on
      any disk and however far recovery gets. */
  lemma OtherFileStays(op: Op, d: Disk, cut: nat)
    requires d.final.Some? && d.final != Some(op.part.etag) && d.upload.Some? && RecoveryPlan(op, d).Proceed?
    ensures Exec(Apply, d, Cut(RecoveryPlan(op, d).steps, cut)).final == d.final
  {
    FinalIsKept(d, Cut(RecoveryPlan(op, d).steps, cut));
  }

  // ------------------------------------------------------------------ invariant

  datatype Job = Job(op: Op, start: Disk)

  /** The upload exists, the old row is the one the operation recorded and its file matches; the
      temporary name is fresh.  Stale final and backup files without a row are allowed. */
  predicate Started(job: Job) {
    && job.start.upload.Some? && !job.start.journal && job.start.temp.None?
    && job.op.previous == job.start.row
    && (job.start.row.Some? ==> job.start.final == Some(job.start.row.value.etag))
  }

  predicate HoldsOld(job: Job, d: Disk) {
    d.row == job.start.row && (d.row.Some? ==> d.final == Some(d.row.value.etag))
  }

  predicate HoldsNew(job: Job, d: Disk) {
    d.row == Some(job.op.part) && d.final == Some(job.op.part.etag)
  }

  predicate Unjournalled(job: Job, d: Disk) {
    !d.journal && d.upload.Some? && (HoldsOld(job, d) || HoldsNew(job, d))
  }

  /** The old part's file, which the operation sets aside. */
  function OldFile(job: Job): Option<Bytes> {
    if job.start.row.Some? then Some(job.start.row.value.etag) else None
  }

  predicate Replacing(job: Job, d: Disk) {
    && d.journal && d.upload.Some? && d.row == job.start.row
    && (d.temp.Some? ==> d.temp == Some(job.op.part.etag))
    && ((d.final == OldFile(job) && d.backup.None?) || (d.final.None? && d.backup == OldFile(job)))
  }

  predicate Installed(job: Job, d: Disk) {
    && d.journal && d.upload.Some? && d.temp.None? && d.final == Some(job.op.part.etag)
    && ((d.row == job.start.row && d.backup == OldFile(job))
        || (d.row == Some(job.op.part) && (d.backup.None? || d.backup == OldFile(job))))
  }

  predicate Recoverable(job: Job, d: Disk) {
    Unjournalled(job, d) || Replacing(job, d) || Installed(job, d)
  }

  /** The operation is over and row and file agree on the old part or on the new one. */
  predicate Settled(job: Job, d: Disk) {
    !d.journal && (HoldsOld(job, d) || HoldsNew(job, d))
  }

  /** The bytes uploaded are the bytes the part already has. */
  predicate SameBytes(op: Op) {
    op.previous.Some? && op.previous.value.etag == op.part.etag
  }

  /** The recoverable states recovery refuses, all of them with identical old and new bytes. */
  predicate Ambiguous(op: Op, d: Disk) {
    && SameBytes(op) && d.journal
    && if op.previous.value.createdAt == op.part.createdAt then d.final.None?
       else d.temp.Some? && d.final.Some? && d.backup.None? && d.row == op.previous
  }

  // ------------------------------------------------------- the forward direction

  lemma {:induction false} TempWritesEffect(bytes: Bytes, d: Disk, n: nat)
    requires n <= |bytes|
    ensures Exec(Apply, d, TempWrites(bytes)[n..]) == d.(temp := Some(bytes))
    decreases |bytes| - n
  {
    var steps := TempWrites(bytes)[n..];
    assert steps[1..] == TempWrites(bytes)[n + 1..];
    if n == |bytes| {
      assert bytes[..n] == bytes;
      assert steps[1..] == [];
    } else {
      TempWritesEffect(bytes, Apply(d, steps[0]), n + 1);
    }
  }

  lemma {:induction false} TempWritesSafe(job: Job, d: Disk, n: nat)
    requires Unjournalled(job, d) && n <= |job.op.part.etag| + 1
    ensures Safe(Apply, Recoverable, job, d, TempWrites(job.op.part.etag)[n..])
    decreases |job.op.part.etag| + 1 - n
  {
    var steps := TempWrites(job.op.part.etag)[n..];
    if steps != [] {
      assert steps[1..] == TempWrites(job.op.part.etag)[n + 1..];
      TempWritesSafe(job, Apply(d, steps[0]), n + 1);
    }
  }

  lemma StaleSafe(job: Job, d: Disk)
    requires Started(job) && d == job.start.(temp := Some(job.op.part.etag))
    ensures Safe(Apply, Recoverable, job, d, StalePlan(d))
    ensures Exec(Apply, d, StalePlan(d)) == d.(final := OldFile(job), backup := None)
  {
    var p0: seq<Step> := [];
    SafeWhen(Apply, Recoverable, job, d, p0, d.row.None? && d.final.Some?, RemoveFinal);
    var p1 := p0 + When(d.row.None? && d.final.Some?, RemoveFinal);
    SafeWhen(Apply, Recoverable, job, d, p1, d.backup.Some?, RemoveBackup);
    assert p1 + When(d.backup.Some?, RemoveBackup) == StalePlan(d);
  }

  lemma InstallSafe(job: Job, d: Disk)
    requires Started(job)
    requires d == job.start.(temp := Some(job.op.part.etag), final := OldFile(job), backup := None)
    ensures Safe(Apply, Recoverable, job, d, InstallPlan(job.op))
    ensures Exec(Apply, d, InstallPlan(job.op))
         == d.(journal := true, temp := None, final := Some(job.op.part.etag), backup := OldFile(job))
  {
    var op := job.op;
    var p0: seq<Step> := [];
    SafeWhen(Apply, Recoverable, job, d, p0, true, WriteJournal);
    var p1 := p0 + When(true, WriteJournal);
    SafeWhen(Apply, Recoverable, job, d, p1, op.previous.Some?, MoveFinalToBackup);
    var p2 := p1 + When(op.previous.Some?, MoveFinalToBackup);
    SafeWhen(Apply, Recoverable, job, d, p2, true, MoveTempToFinal);
    assert p2 + When(true, MoveTempToFinal) == InstallPlan(op);
  }

  lemma ReplaceSafe(job: Job, d: Disk)
    requires Started(job) && d == job.start.(temp := Some(job.op.part.etag))
    ensures Safe(Apply, Recoverable, job, d, ReplacePlan(job.op, d))
    ensures Exec(Apply, d, ReplacePlan(job.op, d))
         == Disk(None, Some(job.op.part.etag), None, Some(job.op.part), Some(job.op.part.createdAt), false)
  {
    var op := job.op;
    var p1 := StalePlan(d);
    StaleSafe(job, d);
    InstallSafe(job, Exec(Apply, d, p1));
    var p2 := p1 + InstallPlan(op);
    SafeAppend(Apply, Recoverable, job, d, p1, InstallPlan(op));
    ExecAppend(Apply, d, p1, InstallPlan(op));
    SafeAppend(Apply, Recoverable, job, d, p2, CommitPlan(op));
    ExecAppend(Apply, d, p2, CommitPlan(op));
  }

  /** Every durable state UploadPart passes through is recoverable, and it ends with the new
      row and the new bytes. */
  lemma ForwardSafe(job: Job)
    requires Started(job)
    ensures Safe(Apply, Recoverable, job, job.start, UploadPartPlan(job.op, job.start))
    ensures Exec(Apply, job.start, UploadPartPlan(job.op, job.start))
         == Disk(None, Some(job.op.part.etag), None, Some(job.op.part), Some(job.op.part.createdAt), false)
  {
    var op, s := job.op, job.start;
    var writes := TempWrites(op.part.etag);
    TempWritesSafe(job, s, 0);
    TempWritesEffect(op.part.etag, s, 0);
    assert writes[0..] == writes;
    var d := Exec(Apply, s, writes);
    assert ReplacePlan(op, s) == ReplacePlan(op, d);
    ReplaceSafe(job, d);
    SafeAppend(Apply, Recoverable, job, s, writes, ReplacePlan(op, d));
    ExecAppend(Apply, s, writes, ReplacePlan(op, d));
  }

  // ------------------------------------------------------------------- recovery

  /** Rolling back puts the old bytes back exactly. */
  lemma RollbackSafe(job: Job, d: Disk)
    requires Started(job) && d.row == job.start.row
    requires Replacing(job, d) || Installed(job, d)
    requires d.backup.None? && job.op.previous.Some? ==> !SameBytes(job.op)
    ensures RollbackPlan(job.op, d).Proceed?
    ensures Safe(Apply, Recoverable, job, d, RollbackPlan(job.op, d).steps)
    ensures Exec(Apply, d, RollbackPlan(job.op, d).steps)
         == d.(temp := None, final := OldFile(job), backup := None, journal := false)
  {
    var op := job.op;
    var p0: seq<Step> := [];
    SafeWhen(Apply, Recoverable, job, d, p0, d.temp.Some?, RemoveTemp);
    var p1 := p0 + When(d.temp.Some?, RemoveTemp);
    var drop := d.final.Some? && (d.backup.Some? || op.previous.None?);
    SafeWhen(Apply, Recoverable, job, d, p1, drop, RemoveFinal);
    var p2 := p1 + When(drop, RemoveFinal);
    SafeWhen(Apply, Recoverable, job, d, p2, d.backup.Some?, MoveBackupToFinal);
    var p3 := p2 + When(d.backup.Some?, MoveBackupToFinal);
    SafeWhen(Apply, Recoverable, job, d, p3, true, RemoveJournal);
    assert p3 + When(true, RemoveJournal) == RollbackPlan(op, d).steps;
  }

  /** The decision table: recovery refuses a recoverable state exactly when it is ambiguous, and
      otherwise stays recoverable at every step and ends with row and file both old or both
      new, as it decided, and with the temporary and backup files gone. */
  lemma RecoverySettles(job: Job, d: Disk)
    requires Started(job) && Recoverable(job, d)
    ensures RecoveryPlan(job.op, d).Refuse? <==> Ambiguous(job.op, d)
    ensures RecoveryPlan(job.op, d).Proceed? ==>
              var p := RecoveryPlan(job.op, d).steps;
              var e := Exec(Apply, d, p);
              && Safe(Apply, Recoverable, job, d, p)
              && Settled(job, e)
              && (d.journal ==> e.temp.None? && e.backup.None?)
              && (d.journal ==> if RecoveryCompletes(job.op, d) then HoldsNew(job, e) else HoldsOld(job, e))
              && (!d.journal ==> e == d)
  {
    if !d.journal {
    } else if d.row == Some(job.op.part) {
      if FinalIsNew(job.op, d) {
      }
    } else if d.temp.None? && FinalIsNew(job.op, d) {
    } else if job.op.previous.None? && d.temp.None? && d.final.None? && d.backup.None? {
      var p0: seq<Step> := [];
      SafeWhen(Apply, Recoverable, job, d, p0, true, RemoveJournal);
      assert p0 + When(true, RemoveJournal) == [RemoveJournal];
    } else if CanRollBack(job.op, d) && !Ambiguous(job.op, d) {
      RollbackSafe(job, d);
    }
  }

  // ------------------------------------------------------------- whole histories

  function Recover(job: Job, order: (), d: Disk): Decision<Step> {
    RecoveryPlan(job.op, d)
  }

  function PartAfterCrashes(job: Job, cut: nat, lives: seq<Life<()>>): Disk {
    AfterCrashes(Apply, Recover, job, job.start, UploadPartPlan(job.op, job.start), cut, lives)
  }

  lemma PartStaysRecoverable(job: Job, cut: nat, lives: seq<Life<()>>)
    requires Started(job)
    ensures Recoverable(job, PartAfterCrashes(job, cut, lives))
  {
    ForwardSafe(job);
    forall life, d | life in lives && Recoverable(job, d) && Recover(job, life.order, d).Proceed?
      ensures Safe(Apply, Recoverable, job, d, Recover(job, life.order, d).steps)
    {
      RecoverySettles(job, d);
    }
    CrashesKeep(Apply, Recoverable, Recover, job, job.start, UploadPartPlan(job.op, job.start), cut, lives);
  }

  /** Part replacement is atomic: after any crash of UploadPart and any crashes of later
      recoveries, the next recovery leaves row and file both old or both new.  It refuses only
      when old and new bytes are identical, and then the row is intact and its bytes are still
      on disk. */
  lemma PartIsAtomic(job: Job, cut: nat, lives: seq<Life<()>>)
    requires Started(job)
    ensures var d := PartAfterCrashes(job, cut, lives);
            match RecoveryPlan(job.op, d)
            case Proceed(steps) => Settled(job, Exec(Apply, d, steps))
            case Refuse =>
              && SameBytes(job.op) && d.row == job.start.row
              && (d.final == Some(job.op.part.etag) || d.backup == Some(job.op.part.etag))
  {
    PartStaysRecoverable(job, cut, lives);
    RecoverySettles(job, PartAfterCrashes(job, cut, lives));
  }

  /** The condition is exact: some crash makes recovery refuse if and only if the uploaded bytes
      are the ones the part already has. */
  lemma RefusalIsPossibleExactly(job: Job)
    requires Started(job)
    ensures (exists cut: nat, lives: seq<Life<()>> :: RecoveryPlan(job.op, PartAfterCrashes(job, cut, lives)).Refuse?)
       <==> SameBytes(job.op)
  {
    forall cut: nat, lives: seq<Life<()>> | RecoveryPlan(job.op, PartAfterCrashes(job, cut, lives)).Refuse?
      ensures SameBytes(job.op)
    {
      PartIsAtomic(job, cut, lives);
    }
    if SameBytes(job.op) {
      var cut := AmbiguousCut(job);
    }
  }

  /** Cut just after its journal is written, or after the old part is moved away where the new one
      was made in the same instant, replacing a part by itself cannot be told from having done so. */
  lemma AmbiguousCut(job: Job) returns (cut: nat)
    requires Started(job) && SameBytes(job.op)
    ensures RecoveryPlan(job.op, PartAfterCrashes(job, cut, [])).Refuse?
  {
    var op, s := job.op, job.start;
    var before := TempWrites(op.part.etag) + StalePlan(s);
    TempWritesEffect(op.part.etag, s, 0);
    assert TempWrites(op.part.etag)[0..] == TempWrites(op.part.etag);
    StaleSafe(job, Exec(Apply, s, TempWrites(op.part.etag)));
    ExecAppend(Apply, s, TempWrites(op.part.etag), StalePlan(s));
    var d := Exec(Apply, s, before);
    var moved := op.previous.value.createdAt == op.part.createdAt;
    var kept := [WriteJournal] + When(moved, MoveFinalToBackup);
    KeptEffect(d, moved);
    ExecAppend(Apply, s, before, kept);
    cut := |before + kept|;
    CutOfReplace(op, s, kept, cut);
  }

  lemma KeptEffect(d: Disk, moved: bool)
    ensures var e := Apply(d, WriteJournal);
            Exec(Apply, d, [WriteJournal] + When(moved, MoveFinalToBackup)) == if moved then Apply(e, MoveFinalToBackup) else e
  {
    ExecAppend(Apply, d, [WriteJournal], When(moved, MoveFinalToBackup));
    assert [WriteJournal][1..] == [];
    assert [MoveFinalToBackup][1..] == [];
  }

  lemma CutOfReplace(op: Op, s: Disk, kept: seq<Step>, cut: nat)
    requires !OldPartIsBroken(s) && kept <= InstallPlan(op) && cut == |TempWrites(op.part.etag) + StalePlan(s) + kept|
    ensures Cut(UploadPartPlan(op, s), cut) == TempWrites(op.part.etag) + StalePlan(s) + kept
  {
  }

}
