/** Moves, deletes and their recovery as the code runs them (internal/files/service.go and
  internal/files/path_recovery.go), step by step on a Machine.
 */
module PathOpsRun {
  import opened Crash
  import opened Paths
  import opened PathOps

  method RemovePathOperation(m: Machine<Disk, Step>) returns (r: Status)
    requires m.Valid() && m.apply == Apply && m.Next(DropJournalPlan())
    modifies m
    ensures m.Valid() && !r.Refused?
    ensures m.Ran(r, old(m.taken), |DropJournalPlan()|)
  {
    r := m.Do(RemoveJournal);
    :- r;
    :- m.Do(RemoveFilesystemReady);
    :- m.Do(RemoveDatabaseReady);
    return Done;
  }

  method RemoveTree(m: Machine<Disk, Step>, path: string, order: seq<nat>) returns (r: Status)
    requires m.Valid() && m.apply == Apply && m.Next(RemoveAll(path, order))
    modifies m
    ensures m.Valid() && !r.Refused?
    ensures m.Ran(r, old(m.taken), |order|)
  {
    for i := 0 to |order|
      invariant m.Valid() && m.taken == old(m.taken) + i
    {
      :- m.Do(RemoveNode(path, order[i]));
    }
    return Done;
  }

  method MoveSteps(m: Machine<Disk, Step>, op: Op) returns (r: Status)
    requires op.Move? && m.Valid() && m.apply == Apply && m.Next(MovePlan(op))
    modifies m
    ensures m.Valid() && !r.Refused?
    ensures m.Ran(r, old(m.taken), |MovePlan(op)|)
  {
    r := m.Do(WriteJournal);
    :- r;
    :- m.Do(RenameTree(op.from, op.to));
    :- m.Do(MarkFilesystemReady);
    :- m.Do(MoveMetadata(op.from, op.to, op.isDir));
    :- m.Do(MarkDatabaseReady);
    r := RemovePathOperation(m);
  }

  method FinishDelete(m: Machine<Disk, Step>, op: Op) returns (r: Status)
    requires m.Valid() && m.apply == Apply && m.Next(FinishDeletePlan(op))
    modifies m
    ensures m.Valid() && !r.Refused?
    ensures m.Ran(r, old(m.taken), |FinishDeletePlan(op)|)
  {
    r := m.Do(DeleteMetadata(op.from, op.isDir));
    :- r;
    :- m.Do(MarkDatabaseReady);
    r := RemovePathOperation(m);
  }

  method DeleteSteps(m: Machine<Disk, Step>, op: Op, order: seq<nat>) returns (r: Status)
    requires op.Delete? && m.Valid() && m.apply == Apply && m.Next(DeletePlan(op, order))
    modifies m
    ensures m.Valid() && !r.Refused?
    ensures m.Ran(r, old(m.taken), |DeletePlan(op, order)|)
  {
    ghost var removal := RemoveAll(op.from, order);
    m.Split(m.taken, BeginDeletePlan(op, order), FinishDeletePlan(op));
    m.Split(m.taken, [WriteJournal] + removal, [MarkFilesystemReady]);
    m.Split(m.taken, [WriteJournal], removal);
    :- m.Do(WriteJournal);
    :- RemoveTree(m, op.from, order);
    :- m.Do(MarkFilesystemReady);
    r := FinishDelete(m, op);
  }

  /** A move or a delete, as one process life. */
  method RunPathOperation(m: Machine<Disk, Step>, job: Job, order: seq<nat>) returns (r: Status)
    requires m.Valid() && m.apply == Apply && m.taken == 0 && m.boot == m.state == job.start
    requires Started(job) && Covers(order, job) && m.plan == ForwardPlan(job.op, order)
    modifies m
    ensures m.Valid() && !r.Refused? && m.Lived(r)
    ensures r.Done? ==> !m.state.journal && if job.op.Move? then AtTarget(job, m.state) else Deleted(job, m.state)
    ensures r.Crashed? ==> Recoverable(job, m.state)
  {
    if job.op.Move? {
      MoveForwardSafe(job);
      r := MoveSteps(m, job.op);
    } else {
      DeleteForwardSafe(job, order);
      r := DeleteSteps(m, job.op, order);
    }
    m.RanIsLived(r);
    m.Ends(Recoverable, job);
  }

  method RecoverDelete(m: Machine<Disk, Step>, op: Op, order: seq<nat>) returns (r: Status)
    requires m.Valid() && m.apply == Apply && m.Next(RecoverDeletePlan(op, order))
    modifies m
    ensures m.Valid() && !r.Refused?
    ensures m.Ran(r, old(m.taken), |RecoverDeletePlan(op, order)|)
  {
    m.Split(m.taken, RemoveAll(op.from, order), FinishDeletePlan(op));
    :- RemoveTree(m, op.from, order);
    r := FinishDelete(m, op);
  }

  method RecoverySteps(m: Machine<Disk, Step>, op: Op, order: seq<nat>) returns (r: Status)
    requires m.Valid() && m.apply == Apply
    requires op.Move? ==> Unique(m.state.meta.records) && Apart(op.from, op.to)
    requires RecoveryPlan(op, order, m.state).Proceed? ==> m.Next(RecoveryPlan(op, order, m.state).steps)
    modifies m
    ensures m.Valid() && (r.Refused? <==> RecoveryPlan(op, order, old(m.state)).Refuse?)
    ensures r.Refused? ==> m.taken == old(m.taken)
    ensures !r.Refused? ==> m.Ran(r, old(m.taken), |RecoveryPlan(op, order, old(m.state)).steps|)
  {
    if !m.state.journal {
      return Done;
    }
    if op.Delete? {
      if m.state.databaseReady {
        r := RemovePathOperation(m);
      } else {
        r := RecoverDelete(m, op, order);
      }
      return;
    }
    r := RecoverMove(m, op);
  }

  method RecoverMove(m: Machine<Disk, Step>, op: Op) returns (r: Status)
    requires m.Valid() && m.apply == Apply && op.Move?
    requires Unique(m.state.meta.records) && Apart(op.from, op.to)
    requires RecoverMovePlan(op, m.state).Proceed? ==> m.Next(RecoverMovePlan(op, m.state).steps)
    modifies m
    ensures m.Valid() && (r.Refused? <==> RecoverMovePlan(op, old(m.state)).Refuse?)
    ensures r.Refused? ==> m.taken == old(m.taken)
    ensures !r.Refused? ==> m.Ran(r, old(m.taken), |RecoverMovePlan(op, old(m.state)).steps|)
  {
    var fromExists, toExists := op.from in m.state.tree.Values, op.to in m.state.tree.Values;
    var databaseReady := m.state.databaseReady;
    if (databaseReady && (fromExists || !toExists)) || (!databaseReady && fromExists == toExists) {
      return Refused;
    }
    var from, to := if databaseReady then op.from else op.to, if databaseReady then op.to else op.from;
    var canMove, moved := MovePathMetadata(m.state.meta, from, to, op.isDir);
    if !canMove {
      return Refused;
    }
    :- m.Do(MoveMetadata(from, to, op.isDir));
    if !databaseReady && toExists {
      :- m.Do(RenameTree(op.to, op.from));
    }
    r := RemovePathOperation(m);
  }

  /** Startup recovery of one journal, as one process life. */
  method RecoverPathOperation(m: Machine<Disk, Step>, job: Job, order: seq<nat>) returns (r: Status)
    requires m.Valid() && m.apply == Apply && m.taken == 0 && m.boot == m.state
    requires Started(job) && Recoverable(job, m.state) && Covers(order, job)
    requires RecoveryPlan(job.op, order, m.state).Proceed? ==> m.plan == RecoveryPlan(job.op, order, m.state).steps
    modifies m
    ensures m.Valid() && !r.Refused? && m.Lived(r)
    ensures r.Done? ==> Settled(job, m.state)
    ensures r.Done? && old(m.state).journal && job.op.Move? ==>
              if old(m.state).databaseReady then AtTarget(job, m.state) else AtSource(job, m.state)
    ensures r.Done? && old(m.state).journal && job.op.Delete? ==> Deleted(job, m.state)
    ensures r.Crashed? ==> Recoverable(job, m.state)
  {
    ghost var start := m.state;
    RecoverySettles(job, start, order);
    if job.op.Move? {
      MetadataMoves(job);
    }
    r := RecoverySteps(m, job.op, order);
    m.RanIsLived(r);
    m.Ends(Recoverable, job);
  }
}
