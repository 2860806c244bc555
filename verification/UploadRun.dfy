/** The upload and its recovery as the code runs them (internal/files/upload_recovery.go and
  internal/files/service.go), step by step on a Machine.
 */
module UploadRun {
  import opened Crash
  import opened Upload
  import opened Wrappers

  method RemoveUploadJournal(m: Machine<Disk, Step>) returns (r: Status)
    requires m.Valid() && m.apply == Apply && m.Next(DropJournalPlan())
    modifies m
    ensures m.Valid() && !r.Refused?
    ensures m.Ran(r, old(m.taken), |DropJournalPlan()|)
  {
    r := m.Do(RemoveJournal);
    :- r;
    :- m.Do(RemovePrepared);
    :- m.Do(RemoveDatabaseReady);
    return Done;
  }

  method FinishUploadOperation(m: Machine<Disk, Step>, op: Op) returns (r: Status)
    requires m.Valid() && m.apply == Apply && m.Next(FinishPlan(op))
    modifies m
    ensures m.Valid() && !r.Refused?
    ensures m.Ran(r, old(m.taken), |FinishPlan(op)|)
  {
    r := m.Do(RemoveTemp);
    :- r;
    if op.replaced {
      :- m.Do(RemoveBackup);
    }
    r := RemoveUploadJournal(m);
  }

  method RollbackPlannedUpload(m: Machine<Disk, Step>, op: Op) returns (r: Status)
    requires m.Valid() && m.apply == Apply
    requires PlannedRollback(op, m.state).Proceed? ==> m.Next(PlannedRollback(op, m.state).steps)
    modifies m
    ensures m.Valid() && (r.Refused? <==> PlannedRollback(op, old(m.state)).Refuse?)
    ensures r.Refused? ==> m.taken == old(m.taken)
    ensures !r.Refused? ==> m.Ran(r, old(m.taken), |PlannedRollback(op, old(m.state)).steps|)
  {
    var finalExists, backupExists := m.state.final.Some?, m.state.backup.Some?;
    if (!op.replaced && finalExists) || (op.replaced && (!finalExists || backupExists)) {
      return Refused;
    }
    if m.state.temp.Some? {
      :- m.Do(RemoveTemp);
    }
    r := RemoveUploadJournal(m);
  }

  method RestoreFiles(m: Machine<Disk, Step>, op: Op) returns (r: Status)
    requires m.Valid() && m.apply == Apply && m.Next(RestoreFilesPlan(op, m.state))
    modifies m
    ensures m.Valid() && !r.Refused?
    ensures m.Ran(r, old(m.taken), |RestoreFilesPlan(op, old(m.state))|)
  {
    var finalExists, backupExists := m.state.final.Some?, m.state.backup.Some?;
    if m.state.temp.Some? {
      :- m.Do(RemoveTemp);
    }
    if op.replaced {
      if backupExists {
        if finalExists {
          :- m.Do(RemoveFinal);
        }
        :- m.Do(MoveBackupToFinal);
      }
    } else if finalExists {
      :- m.Do(RemoveFinal);
    }
    return Done;
  }

  method RollbackUploadOperation(m: Machine<Disk, Step>, op: Op) returns (r: Status)
    requires m.Valid() && m.apply == Apply
    requires PreparedRollback(op, m.state).Proceed? ==> m.Next(PreparedRollback(op, m.state).steps)
    modifies m
    ensures m.Valid() && (r.Refused? <==> PreparedRollback(op, old(m.state)).Refuse?)
    ensures r.Refused? ==> m.taken == old(m.taken)
    ensures !r.Refused? ==> m.Ran(r, old(m.taken), |PreparedRollback(op, old(m.state)).steps|)
  {
    var tempExists, finalExists := m.state.temp.Some?, m.state.final.Some?;
    var backupExists := m.state.backup.Some?;
    var finalMatches := m.state.final == Some(op.upload);
    if op.replaced {
      if backupExists && finalExists && !finalMatches {
        return Refused;
      }
      if !backupExists && !finalExists {
        return Refused;
      }
      if !backupExists && finalExists && finalMatches && !tempExists {
        return Refused;
      }
    } else if finalExists && !finalMatches {
      return Refused;
    }
    m.Split(m.taken, RestoreFilesPlan(op, m.state), DropJournalPlan());
    :- RestoreFiles(m, op);
    r := RemoveUploadJournal(m);
  }

  method InstallUploadedFile(m: Machine<Disk, Step>, op: Op) returns (r: Status)
    requires m.Valid() && m.apply == Apply && m.Next(InstallPlan(op))
    modifies m
    ensures m.Valid() && !r.Refused?
    ensures m.Ran(r, old(m.taken), |InstallPlan(op)|)
    ensures r.Done? ==>
              m.state == old(m.state).(temp := None, final := old(m.state).temp,
                                       backup := if op.replaced then old(m.state).final else old(m.state).backup)
  {
    if op.replaced {
      :- m.Do(MoveFinalToBackup);
    }
    :- m.Do(MoveTempToFinal);
    return Done;
  }

  method WriteUploadTemp(m: Machine<Disk, Step>, file: File) returns (r: Status)
    requires m.Valid() && m.apply == Apply && m.Next(TempWrites(file))
    modifies m
    ensures m.Valid() && !r.Refused?
    ensures m.Ran(r, old(m.taken), |TempWrites(file)|)
    ensures r.Done? ==> m.state == old(m.state).(temp := Some(file))
  {
    var n := 0;
    while n <= |file.bytes|
      invariant 0 <= n <= |file.bytes| + 1
      invariant m.Valid() && m.taken == old(m.taken) + n
      invariant n == 0 ==> m.state == old(m.state)
      invariant n > 0 ==> m.state == old(m.state).(temp := Some(File(file.bytes[..n - 1], file.mtime)))
    {
      :- m.Do(WriteTemp(File(file.bytes[..n], file.mtime)));
      n := n + 1;
    }
    assert file.bytes[..n - 1] == file.bytes;
    return Done;
  }

  /** The upload, as one process life.  A target that exists without permission to overwrite is
      refused before anything durable happens.  A crash at any step leaves a state recovery
      can settle. */
  method RunUpload(m: Machine<Disk, Step>, upload: File, overwrite: bool, owner: Option<nat>)
    returns (r: Status)
    requires m.Valid() && m.apply == Apply && m.taken == 0 && m.boot == m.state
    requires Clean(m.state)
    requires m.plan == UploadPlan(Op(m.state.final.Some?, upload, owner))
    modifies m
    ensures m.Valid()
    ensures r.Refused? <==> old(m.state).final.Some? && !overwrite
    ensures r.Refused? ==> m.state == old(m.state)
    ensures !r.Refused? ==> m.Lived(r)
    ensures var job := Job(Op(old(m.state).final.Some?, upload, owner), old(m.state));
            && (r.Done? ==> Clean(m.state) && HoldsNew(job, m.state))
            && (r.Crashed? ==> Interrupted(job, m.state))
  {
    var replaced := m.state.final.Some?;
    if replaced && !overwrite {
      return Refused;
    }
    var op := Op(replaced, upload, owner);
    ghost var job := Job(op, m.state);
    ForwardSafe(job);
    r := UploadSteps(m, op);
    m.RanIsLived(r);
    SafeCut(Apply, Interrupted, job, m.boot, m.plan, m.taken);
    if r.Done? {
      assert m.plan[..m.taken] == m.plan;
    }
  }

  method WriteUpload(m: Machine<Disk, Step>, op: Op) returns (r: Status)
    requires m.Valid() && m.apply == Apply && m.Next(WritingPlan(op))
    modifies m
    ensures m.Valid() && !r.Refused?
    ensures m.Ran(r, old(m.taken), |WritingPlan(op)|)
  {
    r := m.Do(WriteJournal);
    :- r;
    :- WriteUploadTemp(m, op.upload);
    :- m.Do(WritePrepared);
    return Done;
  }

  method UploadSteps(m: Machine<Disk, Step>, op: Op) returns (r: Status)
    requires m.Valid() && m.apply == Apply && Clean(m.state) && op.replaced == m.state.final.Some?
    requires m.Next(UploadPlan(op))
    modifies m
    ensures m.Valid() && !r.Refused?
    ensures m.Ran(r, old(m.taken), |UploadPlan(op)|)
  {
    r := WriteUpload(m, op);
    :- r;
    :- InstallUploadedFile(m, op);
    :- m.Do(UpsertRow(op.owner));
    :- m.Do(MarkDatabaseReady);
    r := FinishUploadOperation(m, op);
  }

  /** Startup recovery of one journal, as one process life: it refuses exactly the stranded
      state, a crash anywhere leaves a state the next recovery can take up, and a run to the
      end settles the upload. */
  method RecoverFileUpload(m: Machine<Disk, Step>, op: Op, ghost job: Job) returns (r: Status, completed: bool)
    requires m.Valid() && m.apply == Apply && m.taken == 0 && m.boot == m.state
    requires Started(job) && job.op == op && Recoverable(job, m.state)
    requires RecoveryPlan(op, m.state).Proceed? ==> m.plan == RecoveryPlan(op, m.state).steps
    modifies m
    ensures m.Valid()
    ensures r.Refused? <==> Stranded(op, old(m.state))
    ensures if r.Refused? then m.state == old(m.state) else m.Lived(r)
    ensures r.Crashed? ==> Recoverable(job, m.state)
    ensures r.Done? ==> Settled(job, m.state)
    ensures r.Done? && old(m.state).journal ==> if completed then HoldsNew(job, m.state) else HoldsOld(job, m.state)
  {
    ghost var start := m.state;
    RecoverySettles(job, start);
    r, completed := RecoverySteps(m, op);
    if !r.Refused? {
      m.RanIsLived(r);
      m.Ends(Recoverable, job);
    }
  }

  method RecoverySteps(m: Machine<Disk, Step>, op: Op) returns (r: Status, completed: bool)
    requires m.Valid() && m.apply == Apply
    requires RecoveryPlan(op, m.state).Proceed? ==> m.Next(RecoveryPlan(op, m.state).steps)
    modifies m
    ensures m.Valid() && (r.Refused? <==> RecoveryPlan(op, old(m.state)).Refuse?)
    ensures r.Refused? ==> m.taken == old(m.taken) && m.state == old(m.state)
    ensures !r.Refused? ==> m.Ran(r, old(m.taken), |RecoveryPlan(op, old(m.state)).steps|)
    ensures r.Done? ==> (completed <==> RecoveryCompletes(op, old(m.state)))
  {
    completed := false;
    if !m.state.journal {
      r := RemoveOrphans(m);
      return;
    }
    if !m.state.prepared {
      r := RollbackPlannedUpload(m, op);
      return;
    }
    if m.state.databaseReady {
      r := FinishUploadOperation(m, op);
      return r, true;
    }
    r, completed := RecoverPrepared(m, op);
  }

  method RemoveOrphans(m: Machine<Disk, Step>) returns (r: Status)
    requires m.Valid() && m.apply == Apply && m.Next(OrphanPlan(m.state))
    modifies m
    ensures m.Valid() && !r.Refused?
    ensures m.Ran(r, old(m.taken), |OrphanPlan(old(m.state))|)
  {
    if m.state.databaseReady {
      :- m.Do(RemoveDatabaseReady);
    }
    if m.state.prepared {
      :- m.Do(RemovePrepared);
    }
    return Done;
  }

  method CompleteUpload(m: Machine<Disk, Step>, op: Op) returns (r: Status)
    requires m.Valid() && m.apply == Apply && m.Next(CompletePlan(op))
    modifies m
    ensures m.Valid() && !r.Refused?
    ensures m.Ran(r, old(m.taken), |CompletePlan(op)|)
  {
    r := m.Do(UpsertRow(op.owner));
    :- r;
    :- m.Do(MarkDatabaseReady);
    r := FinishUploadOperation(m, op);
  }

  /** A prepared upload that has not reached the database: the files decide. */
  method RecoverPrepared(m: Machine<Disk, Step>, op: Op) returns (r: Status, completed: bool)
    requires m.Valid() && m.apply == Apply && m.state.journal && m.state.prepared && !m.state.databaseReady
    requires RecoveryPlan(op, m.state).Proceed? ==> m.Next(RecoveryPlan(op, m.state).steps)
    modifies m
    ensures m.Valid() && (r.Refused? <==> RecoveryPlan(op, old(m.state)).Refuse?)
    ensures r.Refused? ==> m.taken == old(m.taken) && m.state == old(m.state)
    ensures !r.Refused? ==> m.Ran(r, old(m.taken), |RecoveryPlan(op, old(m.state)).steps|)
    ensures r.Done? ==> (completed <==> RecoveryCompletes(op, old(m.state)))
  {
    var tempExists, finalExists := m.state.temp.Some?, m.state.final.Some?;
    var backupExists := m.state.backup.Some?;
    var finalMatches := m.state.final == Some(op.upload);
    completed := !tempExists && finalExists && finalMatches;
    if completed {
      r := CompleteUpload(m, op);
      return;
    }
    var canRollback :=
      || (!op.replaced && tempExists && !finalExists)
      || (op.replaced && (
            || (tempExists && finalExists && !backupExists)
            || (tempExists && !finalExists && backupExists)
            || (!tempExists && !finalExists && backupExists)
            || (!tempExists && finalExists && !backupExists && !finalMatches)));
    if canRollback {
      r := RollbackUploadOperation(m, op);
      return;
    }
    return Refused, false;
  }
}
