/** Replacing a part and its recovery as the code runs them (internal/s3api/multipart.go and
  internal/s3api/multipart_part_recovery.go), step by step on a Machine.
 */
module MultipartPartRun {
  import opened Crash
  import opened MultipartPart
  import opened Wrappers

  method CleanupCommittedPart(m: Machine<Disk, Step>) returns (r: Status)
    requires m.Valid() && m.apply == Apply && m.Next(CleanupPlan())
    modifies m
    ensures m.Valid() && !r.Refused?
    ensures m.Ran(r, old(m.taken), |CleanupPlan()|)
  {
    r := m.Do(RemoveTemp);
    :- r;
    :- m.Do(RemoveBackup);
    :- m.Do(RemoveJournal);
    return Done;
  }

  method RollbackPart(m: Machine<Disk, Step>, op: Op) returns (r: Status)
    requires m.Valid() && m.apply == Apply
    requires RollbackPlan(op, m.state).Proceed? ==> m.Next(RollbackPlan(op, m.state).steps)
    modifies m
    ensures m.Valid() && (r.Refused? <==> RollbackPlan(op, old(m.state)).Refuse?)
    ensures r.Refused? ==> m.taken == old(m.taken) && m.state == old(m.state)
    ensures !r.Refused? ==> m.Ran(r, old(m.taken), |RollbackPlan(op, old(m.state)).steps|)
  {
    var tempExists, finalExists := m.state.temp.Some?, m.state.final.Some?;
    var backupExists := m.state.backup.Some?;
    var finalIsNew := m.state.final == Some(op.part.etag);
    if op.previous.Some? {
      if backupExists {
        var backupIsPrevious := m.state.backup.value == op.previous.value.etag;
        if !backupIsPrevious || (finalExists && !finalIsNew) {
          return Refused;
        }
      } else if !finalExists {
        return Refused;
      } else if finalIsNew {
        return Refused;
      }
    } else if finalExists && !finalIsNew {
      return Refused;
    }
    if tempExists {
      :- m.Do(RemoveTemp);
    }
    if backupExists {
      if finalExists {
        :- m.Do(RemoveFinal);
      }
      :- m.Do(MoveBackupToFinal);
    } else if op.previous.None? && finalExists {
      :- m.Do(RemoveFinal);
    }
    :- m.Do(RemoveJournal);
    return Done;
  }

  method WritePartTemp(m: Machine<Disk, Step>, bytes: Bytes) returns (r: Status)
    requires m.Valid() && m.apply == Apply && m.Next(TempWrites(bytes))
    modifies m
    ensures m.Valid() && !r.Refused?
    ensures m.Ran(r, old(m.taken), |TempWrites(bytes)|)
    ensures r.Done? ==> m.state == old(m.state).(temp := Some(bytes))
  {
    var n := 0;
    while n <= |bytes|
      invariant 0 <= n <= |bytes| + 1
      invariant m.Valid() && m.taken == old(m.taken) + n
      invariant n == 0 ==> m.state == old(m.state)
      invariant n > 0 ==> m.state == old(m.state).(temp := Some(bytes[..n - 1]))
    {
      :- m.Do(WriteTemp(bytes[..n]));
      n := n + 1;
    }
    assert bytes[..n - 1] == bytes;
    return Done;
  }

  method RemoveStaleFiles(m: Machine<Disk, Step>) returns (r: Status)
    requires m.Valid() && m.apply == Apply && m.Next(StalePlan(m.state))
    modifies m
    ensures m.Valid() && !r.Refused?
    ensures m.Ran(r, old(m.taken), |StalePlan(old(m.state))|)
  {
    var backupExists := m.state.backup.Some?;
    if m.state.row.None? && m.state.final.Some? {
      :- m.Do(RemoveFinal);
    }
    if backupExists {
      :- m.Do(RemoveBackup);
    }
    return Done;
  }

  method InstallPart(m: Machine<Disk, Step>, op: Op) returns (r: Status)
    requires m.Valid() && m.apply == Apply && m.Next(InstallPlan(op))
    modifies m
    ensures m.Valid() && !r.Refused?
    ensures m.Ran(r, old(m.taken), |InstallPlan(op)|)
  {
    r := m.Do(WriteJournal);
    :- r;
    if op.previous.Some? {
      :- m.Do(MoveFinalToBackup);
    }
    :- m.Do(MoveTempToFinal);
    return Done;
  }

  method CommitPart(m: Machine<Disk, Step>, op: Op) returns (r: Status)
    requires m.Valid() && m.apply == Apply && m.Next(CommitPlan(op))
    modifies m
    ensures m.Valid() && !r.Refused?
    ensures m.Ran(r, old(m.taken), |CommitPlan(op)|)
  {
    r := m.Do(Commit(op.part));
    :- r;
    r := CleanupCommittedPart(m);
  }

  method ReplacePart(m: Machine<Disk, Step>, op: Op) returns (r: Status)
    requires m.Valid() && m.apply == Apply
    requires m.Next(ReplacePlan(op, m.state))
    modifies m
    ensures m.Valid() && !r.Refused?
    ensures m.Ran(r, old(m.taken), |ReplacePlan(op, old(m.state))|)
  {
    m.Split(m.taken, StalePlan(m.state) + InstallPlan(op), CommitPlan(op));
    m.Split(m.taken, StalePlan(m.state), InstallPlan(op));
    :- RemoveStaleFiles(m);
    :- InstallPart(m, op);
    r := CommitPart(m, op);
  }

  method FinishUploadPart(m: Machine<Disk, Step>, op: Op, ghost start: Disk) returns (r: Status)
    requires m.Valid() && m.apply == Apply && m.state == start.(temp := Some(op.part.etag))
    requires m.Next(AfterTempPlan(op, start))
    modifies m
    ensures m.Valid() && m.Ran(r, old(m.taken), |AfterTempPlan(op, start)|)
    ensures r.Refused? ==> OldPartIsBroken(start)
    ensures r.Done? ==> !OldPartIsBroken(start)
  {
    if m.state.row.Some? && m.state.final != Some(m.state.row.value.etag) {
      :- m.Do(RemoveTemp);
      return Refused;
    }
    assert ReplacePlan(op, m.state) == ReplacePlan(op, start);
    r := ReplacePart(m, op);
  }

  method UploadPartSteps(m: Machine<Disk, Step>, op: Op) returns (r: Status)
    requires m.Valid() && m.apply == Apply
    requires m.Next(TempWrites(op.part.etag)) && m.At(m.taken + |TempWrites(op.part.etag)|, AfterTempPlan(op, m.state))
    modifies m
    ensures m.Valid() && m.Ran(r, old(m.taken), |TempWrites(op.part.etag)| + |AfterTempPlan(op, old(m.state))|)
    ensures r.Refused? ==> OldPartIsBroken(old(m.state))
    ensures r.Done? ==> !OldPartIsBroken(old(m.state))
  {
    ghost var start := m.state;
    r := WritePartTemp(m, op.part.etag);
    :- r;
    r := FinishUploadPart(m, op, start);
  }

  /** UploadPart as one process life.  A part whose stored file does not match its row is left
      exactly as it was; otherwise a crash at any step leaves a recoverable state. */
  method UploadPart(m: Machine<Disk, Step>, part: Row) returns (r: Status)
    requires m.Valid() && m.apply == Apply && m.taken == 0 && m.boot == m.state
    requires m.state.upload.Some? && !m.state.journal && m.state.temp.None?
    requires m.plan == UploadPartPlan(Op(part, m.state.row), m.state)
    modifies m
    ensures m.Valid() && m.Lived(r)
    ensures !r.Crashed? ==> (r.Refused? <==> old(m.state).row.Some? && old(m.state).final != Some(old(m.state).row.value.etag))
    ensures r.Refused? ==> m.state == old(m.state)
    ensures r.Done? ==> m.state == old(m.state).(row := Some(part), final := Some(part.etag), backup := None,
                                                 upload := Some(part.createdAt))
    ensures r.Crashed? && !OldPartIsBroken(old(m.state)) ==>
              Recoverable(Job(Op(part, old(m.state).row), old(m.state)), m.state)
  {
    var op := Op(part, m.state.row);
    ghost var job := Job(op, m.state);
    ghost var start := m.state;
    m.Split(0, TempWrites(part.etag), AfterTempPlan(op, start));
    r := UploadPartSteps(m, op);
    m.RanIsLived(r);
    if OldPartIsBroken(start) {
      if r.Refused? {
        assert m.plan[..m.taken] == m.plan;
        BrokenOldPart(op, start);
      }
    } else {
      ForwardSafe(job);
      m.Ends(Recoverable, job);
    }
  }

  /** A part whose file is missing or damaged is refused without a trace. */
  lemma BrokenOldPart(op: Op, d: Disk)
    requires OldPartIsBroken(d) && d.temp.None?
    ensures Exec(Apply, d, UploadPartPlan(op, d)) == d
  {
    var bytes := op.part.etag;
    TempWritesEffect(bytes, d, 0);
    assert TempWrites(bytes)[0..] == TempWrites(bytes);
    ExecAppend(Apply, d, TempWrites(bytes), [RemoveTemp]);
    assert [RemoveTemp][1..] == [];
  }

  /** With the old row still there, the files decide. */
  method ResolveByFiles(m: Machine<Disk, Step>, op: Op) returns (r: Status, completed: bool)
    requires m.Valid() && m.apply == Apply && m.state.journal && m.state.upload.Some?
    requires m.state.row == op.previous && op.previous != Some(op.part)
    requires RecoveryPlan(op, m.state).Proceed? ==> m.Next(RecoveryPlan(op, m.state).steps)
    modifies m
    ensures m.Valid() && (r.Refused? <==> RecoveryPlan(op, old(m.state)).Refuse?)
    ensures r.Refused? ==> m.taken == old(m.taken) && m.state == old(m.state)
    ensures !r.Refused? ==> m.Ran(r, old(m.taken), |RecoveryPlan(op, old(m.state)).steps|)
    ensures r.Done? ==> (completed <==> RecoveryCompletes(op, old(m.state)))
  {
    var tempExists, finalExists := m.state.temp.Some?, m.state.final.Some?;
    var backupExists := m.state.backup.Some?;
    var finalIsNew := m.state.final == Some(op.part.etag);
    completed := !tempExists && finalExists && finalIsNew;
    if completed {
      r := CommitPart(m, op);
      return;
    }
    if op.previous.None? && !tempExists && !finalExists && !backupExists {
      r := m.Do(RemoveJournal);
      return;
    }
    var canRollback := tempExists || (backupExists && !finalExists)
                       || (op.previous.Some? && finalExists && !finalIsNew && !backupExists);
    if canRollback {
      r := RollbackPart(m, op);
      return;
    }
    return Refused, false;
  }

  method RemovePartFiles(m: Machine<Disk, Step>) returns (r: Status)
    requires m.Valid() && m.apply == Apply && m.Next([RemoveTemp, RemoveFinal, RemoveBackup, RemoveJournal])
    modifies m
    ensures m.Valid() && !r.Refused? && m.Ran(r, old(m.taken), 4)
  {
    r := m.Do(RemoveTemp);
    :- r;
    :- m.Do(RemoveFinal);
    :- m.Do(RemoveBackup);
    :- m.Do(RemoveJournal);
    return Done;
  }

  method RecoverySteps(m: Machine<Disk, Step>, op: Op) returns (r: Status, completed: bool)
    requires m.Valid() && m.apply == Apply
    requires RecoveryPlan(op, m.state).Proceed? ==> m.Next(RecoveryPlan(op, m.state).steps)
    modifies m
    ensures m.Valid() && (r.Refused? <==> RecoveryPlan(op, old(m.state)).Refuse?)
    ensures r.Refused? ==> m.taken == old(m.taken) && m.state == old(m.state)
    ensures !r.Refused? ==> m.Ran(r, old(m.taken), |RecoveryPlan(op, old(m.state)).steps|)
    ensures r.Done? ==> (completed <==> RecoveryCompletes(op, old(m.state)))
  {
    completed := false;
    if !m.state.journal {
      return Done, false;
    }
    if m.state.upload.None? {
      r := RemovePartFiles(m);
      return r, true;
    }
    var current := m.state.row;
    if current == Some(op.part) {
      if m.state.final != Some(op.part.etag) {
        return Refused, false;
      }
      r := CleanupCommittedPart(m);
      return r, true;
    }
    if op.previous.Some? {
      if current.None? || current.value != op.previous.value {
        return Refused, false;
      }
    } else if current.Some? {
      return Refused, false;
    }
    r, completed := ResolveByFiles(m, op);
  }

  /** Startup recovery of one part journal, as one process life. */
  method RecoverPart(m: Machine<Disk, Step>, op: Op, ghost job: Job) returns (r: Status, completed: bool)
    requires m.Valid() && m.apply == Apply && m.taken == 0 && m.boot == m.state
    requires Started(job) && job.op == op && Recoverable(job, m.state)
    requires RecoveryPlan(op, m.state).Proceed? ==> m.plan == RecoveryPlan(op, m.state).steps
    modifies m
    ensures m.Valid()
    ensures r.Refused? <==> Ambiguous(op, old(m.state))
    ensures if r.Refused? then m.state == old(m.state) else m.Lived(r)
    ensures r.Crashed? ==> Recoverable(job, m.state)
    ensures r.Done? ==> Settled(job, m.state)
    ensures r.Done? && old(m.state).journal ==> if completed then HoldsNew(job, m.state) else HoldsOld(job, m.state)
  {
    ghost var start := m.state;
    RecoverySettles(job, start);
    r, completed := RecoverySteps(m, op);
    if !r.Refused? {
      m.RanIsLived(r);
      m.Ends(Recoverable, job);
    }
  }
}
