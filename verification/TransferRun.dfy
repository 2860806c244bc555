/** A cross-source move and its recovery as the code runs them (internal/files/transfer.go and
  internal/files/transfer_recovery.go), step by step on a Machine.
 */
module TransferRun {
  import opened Crash
  import opened Paths
  import opened Transfer
  import opened Wrappers

  method CopyTree(m: Machine<Disk, Step>, op: Op, copies: Copies) returns (r: Status)
    requires m.Valid() && m.apply == Apply && m.Next(CopyAll(op, copies))
    modifies m
    ensures m.Valid() && !r.Refused?
    ensures m.Ran(r, old(m.taken), |copies|)
  {
    for i := 0 to |copies|
      invariant m.Valid() && m.taken == old(m.taken) + i
    {
      :- m.Do(CopyNode(op, copies[i].0, copies[i].1));
    }
    return Done;
  }

  method RemoveSourceTree(m: Machine<Disk, Step>, order: seq<string>) returns (r: Status)
    requires m.Valid() && m.apply == Apply && m.Next(RemoveSources(order))
    modifies m
    ensures m.Valid() && !r.Refused?
    ensures m.Ran(r, old(m.taken), |order|)
  {
    for i := 0 to |order|
      invariant m.Valid() && m.taken == old(m.taken) + i
    {
      :- m.Do(RemoveSource(order[i]));
    }
    return Done;
  }

  method RemoveTargetTree(m: Machine<Disk, Step>, order: seq<string>) returns (r: Status)
    requires m.Valid() && m.apply == Apply && m.Next(RemoveTargets(order))
    modifies m
    ensures m.Valid() && !r.Refused?
    ensures m.Ran(r, old(m.taken), |order|)
  {
    for i := 0 to |order|
      invariant m.Valid() && m.taken == old(m.taken) + i
    {
      :- m.Do(RemoveTarget(order[i]));
    }
    return Done;
  }

  method RemoveTransferOperation(m: Machine<Disk, Step>) returns (r: Status)
    requires m.Valid() && m.apply == Apply && m.Next(DropJournalPlan())
    modifies m
    ensures m.Valid() && !r.Refused?
    ensures m.Ran(r, old(m.taken), |DropJournalPlan()|)
  {
    r := m.Do(RemoveJournal);
    :- r;
    :- m.Do(RemoveTargetReady);
    :- m.Do(RemoveDatabaseReady);
    return Done;
  }

  method CommitTransfer(m: Machine<Disk, Step>, op: Op) returns (r: Status)
    requires m.Valid() && m.apply == Apply && m.Next(CommitPlan(op))
    modifies m
    ensures m.Valid() && !r.Refused?
    ensures m.Ran(r, old(m.taken), |CommitPlan(op)|)
  {
    r := m.Do(MarkTargetReady);
    :- r;
    :- m.Do(SyncRecords(op));
    :- m.Do(MarkDatabaseReady);
    return Done;
  }

  method FinishTransfer(m: Machine<Disk, Step>, removeSource: bool, order: Order) returns (r: Status)
    requires m.Valid() && m.apply == Apply && m.Next(FinishPlan(removeSource, order))
    modifies m
    ensures m.Valid() && !r.Refused?
    ensures m.Ran(r, old(m.taken), |FinishPlan(removeSource, order)|)
  {
    m.Split(m.taken, if removeSource then RemoveSources(order.source) else [], DropJournalPlan());
    if removeSource {
      :- RemoveSourceTree(m, order.source);
    }
    r := RemoveTransferOperation(m);
  }

  method UndoTransfer(m: Machine<Disk, Step>, removeTarget: bool, order: Order) returns (r: Status)
    requires m.Valid() && m.apply == Apply && m.Next(UndoPlan(removeTarget, order))
    modifies m
    ensures m.Valid() && !r.Refused?
    ensures m.Ran(r, old(m.taken), |UndoPlan(removeTarget, order)|)
  {
    m.Split(m.taken, if removeTarget then RemoveTargets(order.target) else [], DropJournalPlan());
    if removeTarget {
      :- RemoveTargetTree(m, order.target);
    }
    r := RemoveTransferOperation(m);
  }

  method BeginTransfer(m: Machine<Disk, Step>, op: Op, copies: Copies) returns (r: Status)
    requires m.Valid() && m.apply == Apply && m.Next(BeginPlan(op, copies))
    modifies m
    ensures m.Valid() && !r.Refused?
    ensures m.Ran(r, old(m.taken), |BeginPlan(op, copies)|)
  {
    m.Split(m.taken, [WriteJournal], CopyAll(op, copies));
    :- m.Do(WriteJournal);
    r := CopyTree(m, op, copies);
  }

  method CopyAndCommit(m: Machine<Disk, Step>, op: Op, copies: Copies) returns (r: Status)
    requires m.Valid() && m.apply == Apply && m.Next(BeginPlan(op, copies) + CommitPlan(op))
    modifies m
    ensures m.Valid() && !r.Refused?
    ensures m.Ran(r, old(m.taken), |BeginPlan(op, copies) + CommitPlan(op)|)
  {
    m.Split(m.taken, BeginPlan(op, copies), CommitPlan(op));
    :- BeginTransfer(m, op, copies);
    r := CommitTransfer(m, op);
  }

  method TransferSteps(m: Machine<Disk, Step>, op: Op, copies: Copies, order: Order) returns (r: Status)
    requires m.Valid() && m.apply == Apply && m.Next(TransferPlan(op, copies, order))
    modifies m
    ensures m.Valid() && !r.Refused?
    ensures m.Ran(r, old(m.taken), |TransferPlan(op, copies, order)|)
  {
    m.Split(m.taken, BeginPlan(op, copies) + CommitPlan(op), FinishPlan(true, order));
    :- CopyAndCommit(m, op, copies);
    r := FinishTransfer(m, true, order);
  }

  /** A cross-source move, as one process life. */
  method RunTransfer(m: Machine<Disk, Step>, job: Job, copies: Copies, order: Order) returns (r: Status)
    requires m.Valid() && m.apply == Apply && m.taken == 0 && m.boot == m.state == job.start
    requires Started(job) && ValidCopies(job, copies) && ValidOrder(job, order)
    requires m.plan == TransferPlan(job.op, copies, order)
    modifies m
    ensures m.Valid() && !r.Refused? && m.Lived(r)
    ensures r.Done? ==> Settled(job, m.state) && AtTarget(job, m.state)
    ensures r.Crashed? ==> Recoverable(job, m.state)
  {
    ForwardSafe(job, copies, order);
    r := TransferSteps(m, job.op, copies, order);
    m.RanIsLived(r);
    m.Ends(Recoverable, job);
  }

  method CleanupTransferRecoveryArtifacts(m: Machine<Disk, Step>) returns (r: Status)
    requires m.Valid() && m.apply == Apply && m.Next(OrphanPlan(m.state))
    modifies m
    ensures m.Valid() && !r.Refused?
    ensures m.Ran(r, old(m.taken), |OrphanPlan(old(m.state))|)
  {
    if m.state.databaseReady {
      :- m.Do(RemoveDatabaseReady);
    }
    if m.state.targetReady {
      :- m.Do(RemoveTargetReady);
    }
    return Done;
  }

  method RecoverySteps(m: Machine<Disk, Step>, op: Op, order: Order) returns (r: Status)
    requires m.Valid() && m.apply == Apply
    requires RecoveryPlan(op, order, m.state).Proceed? ==> m.Next(RecoveryPlan(op, order, m.state).steps)
    modifies m
    ensures m.Valid() && (r.Refused? <==> RecoveryPlan(op, order, old(m.state)).Refuse?)
    ensures r.Refused? ==> m.taken == old(m.taken)
    ensures !r.Refused? ==> m.Ran(r, old(m.taken), |RecoveryPlan(op, order, old(m.state)).steps|)
  {
    if !m.state.journal {
      r := CleanupTransferRecoveryArtifacts(m);
      return;
    }
    var sourceExists, targetExists := op.from in m.state.source, op.to in m.state.target;
    if m.state.databaseReady && !m.state.targetReady {
      return Refused;
    }
    if m.state.databaseReady {
      if !targetExists {
        return Refused;
      }
      r := FinishTransfer(m, sourceExists, order);
      return;
    }
    if !sourceExists {
      return Refused;
    }
    m.Split(m.taken, RestoreRecordsPlan(op), UndoPlan(targetExists, order));
    :- m.Do(RollbackRecords(op));
    :- m.Do(ReconcileSource(op));
    r := UndoTransfer(m, targetExists, order);
  }

  /** Startup recovery of one journal, as one process life. */
  method RecoverTransfer(m: Machine<Disk, Step>, job: Job, order: Order) returns (r: Status)
    requires m.Valid() && m.apply == Apply && m.taken == 0 && m.boot == m.state
    requires Started(job) && Recoverable(job, m.state) && ValidOrder(job, order)
    requires RecoveryPlan(job.op, order, m.state).Proceed? ==> m.plan == RecoveryPlan(job.op, order, m.state).steps
    modifies m
    ensures m.Valid() && !r.Refused? && m.Lived(r)
    ensures r.Done? ==> Settled(job, m.state)
    ensures r.Done? && old(m.state).journal ==>
              if old(m.state).databaseReady then AtTarget(job, m.state) else AtSource(job, m.state)
    ensures r.Crashed? ==> Recoverable(job, m.state)
  {
    ghost var start := m.state;
    RecoverySettles(job, start, order);
    r := RecoverySteps(m, job.op, order);
    m.RanIsLived(r);
    m.Ends(Recoverable, job);
  }
}
