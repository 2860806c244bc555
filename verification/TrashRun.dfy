/** Trash operations and their recovery as the code runs them (internal/files/trash.go and
  internal/files/trash_recovery.go), step by step on a Machine.
 */
module TrashRun {
  import opened Crash
  import opened Paths
  import opened Trash
  import opened TrashRecords
  import opened Wrappers

  method RunCopy(m: Machine<Disk, Step>, to: Side, copies: seq<string>) returns (r: Status)
    requires m.Valid() && m.apply == Apply && m.Next(CopyTree(to, copies))
    modifies m
    ensures m.Valid() && !r.Refused?
    ensures m.Ran(r, old(m.taken), |copies|)
  {
    for i := 0 to |copies|
      invariant m.Valid() && m.taken == old(m.taken) + i
    {
      CopyTreeAt(to, copies, i);
      :- m.Do(CopyNode(to, copies[i]));
    }
    return Done;
  }

  method RunRemove(m: Machine<Disk, Step>, side: Side, removal: seq<string>) returns (r: Status)
    requires m.Valid() && m.apply == Apply && m.Next(RemoveTree(side, removal))
    modifies m
    ensures m.Valid() && !r.Refused?
    ensures m.Ran(r, old(m.taken), |removal|)
  {
    for i := 0 to |removal|
      invariant m.Valid() && m.taken == old(m.taken) + i
    {
      RemoveTreeAt(side, removal, i);
      :- m.Do(RemoveNode(side, removal[i]));
    }
    return Done;
  }

  method CopyAndMark(m: Machine<Disk, Step>, to: Side, mark: seq<Step>, copies: seq<string>) returns (r: Status)
    requires m.Valid() && m.apply == Apply && |mark| <= 1 && m.Next(CopyMarkPlan(to, mark, copies))
    modifies m
    ensures m.Valid() && !r.Refused?
    ensures m.Ran(r, old(m.taken), |CopyMarkPlan(to, mark, copies)|)
  {
    m.Split(m.taken, CopyTree(to, copies), mark);
    :- RunCopy(m, to, copies);
    if mark != [] {
      :- m.Do(mark[0]);
    }
    return Done;
  }

  method CopyMarkRemove(m: Machine<Disk, Step>, to: Side, mark: seq<Step>, order: Order) returns (r: Status)
    requires m.Valid() && m.apply == Apply && |mark| <= 1
    requires m.Next(CopyMarkPlan(to, mark, order.copies) + RemoveTree(Other(to), order.removal))
    modifies m
    ensures m.Valid() && !r.Refused?
    ensures m.Ran(r, old(m.taken), |CopyMarkPlan(to, mark, order.copies)| + |order.removal|)
  {
    m.Split(m.taken, CopyMarkPlan(to, mark, order.copies), RemoveTree(Other(to), order.removal));
    :- CopyAndMark(m, to, mark, order.copies);
    r := RunRemove(m, Other(to), order.removal);
  }

  /** moveFilesystemTreeTracked; without a mark it is moveFilesystemTree. */
  method MoveFilesystemTree(m: Machine<Disk, Step>, op: Op, to: Side, mark: seq<Step>, order: Order) returns (r: Status)
    requires m.Valid() && m.apply == Apply && |mark| <= 1 && m.Next(MoveTree(op, to, mark, order))
    modifies m
    ensures m.Valid() && !r.Refused?
    ensures m.Ran(r, old(m.taken), |MoveTree(op, to, mark, order)|)
  {
    if op.sameFilesystem {
      r := m.Do(RenameTree(to));
    } else {
      r := CopyMarkRemove(m, to, mark, order);
    }
  }

  method WriteTrashOperation(m: Machine<Disk, Step>) returns (r: Status)
    requires m.Valid() && m.apply == Apply && m.Next(BeginPlan())
    modifies m
    ensures m.Valid() && !r.Refused?
    ensures m.Ran(r, old(m.taken), |BeginPlan()|)
  {
    r := m.Do(RemoveReady);
    :- r;
    :- m.Do(RemoveRollbackReady);
    :- m.Do(WriteJournal);
    return Done;
  }

  method RemoveTrashOperation(m: Machine<Disk, Step>) returns (r: Status)
    requires m.Valid() && m.apply == Apply && m.Next(DropPlan())
    modifies m
    ensures m.Valid() && !r.Refused?
    ensures m.Ran(r, old(m.taken), |DropPlan()|)
  {
    r := m.Do(RemoveJournal);
    :- r;
    :- m.Do(RemoveReady);
    :- m.Do(RemoveRollbackReady);
    return Done;
  }

  /** From the open transaction's commit on. */
  method CommitTrash(m: Machine<Disk, Step>, op: Op, after: Metadata) returns (r: Status)
    requires m.Valid() && m.apply == Apply && m.Next(CommitPlan(op, after))
    modifies m
    ensures m.Valid() && !r.Refused?
    ensures m.Ran(r, old(m.taken), |CommitPlan(op, after)|)
  {
    r := m.Do(Commit(after));
    :- r;
    if op.kind.Restore? {
      :- m.Do(RemoveContainer);
    }
    r := RemoveTrashOperation(m);
  }

  method BeginMove(m: Machine<Disk, Step>, op: Op, order: Order) returns (r: Status)
    requires m.Valid() && m.apply == Apply && m.Next(BeginMovePlan(op, order))
    modifies m
    ensures m.Valid() && !r.Refused?
    ensures m.Ran(r, old(m.taken), |BeginMovePlan(op, order)|)
  {
    ghost var begin := BeginPlan() + When(op.kind.MoveToTrash?, MakeContainer);
    m.Split(m.taken, begin, MoveTree(op, Destination(op), [MarkReady], order));
    m.Split(m.taken, BeginPlan(), When(op.kind.MoveToTrash?, MakeContainer));
    :- WriteTrashOperation(m);
    if op.kind.MoveToTrash? {
      :- m.Do(MakeContainer);
    }
    r := MoveFilesystemTree(m, op, Destination(op), [MarkReady], order);
  }

  method MoveSteps(m: Machine<Disk, Step>, op: Op, after: Metadata, order: Order) returns (r: Status)
    requires m.Valid() && m.apply == Apply && m.Next(BeginMovePlan(op, order) + CommitPlan(op, after))
    modifies m
    ensures m.Valid() && !r.Refused?
    ensures m.Ran(r, old(m.taken), |BeginMovePlan(op, order) + CommitPlan(op, after)|)
  {
    m.Split(m.taken, BeginMovePlan(op, order), CommitPlan(op, after));
    :- BeginMove(m, op, order);
    r := CommitTrash(m, op, after);
  }

  /** Wherever a life of the operation ends, the state is recoverable, and settled if it is over. */
  lemma ForwardEnds(job: Job, order: Order, taken: nat)
    requires Started(job) && ValidOrder(job, order) && taken <= |ForwardPlan(job, order)|
    ensures var d := Exec(Apply, job.start, ForwardPlan(job, order)[..taken]);
            && Recoverable(job, d)
            && (taken == |ForwardPlan(job, order)| ==>
                  Settled(job, d) && (if job.after.None? then AtOrigin(job, d)
                                      else if job.op.kind.Purge? then Gone(job, d) else AtDestination(job, d)))
  {
    ForwardSafe(job, order);
    SafeCut(Apply, Recoverable, job, job.start, ForwardPlan(job, order), taken);
    if taken == |ForwardPlan(job, order)| {
      assert ForwardPlan(job, order)[..taken] == ForwardPlan(job, order);
    }
  }

  /** MoveToTrash, as one process life. */
  method RunMoveToTrash(m: Machine<Disk, Step>, job: Job, from: string, files: seq<Planned>, next: nat, order: Order)
      returns (r: Status)
    requires m.Valid() && m.apply == Apply && m.taken == 0 && m.boot == m.state == job.start
    requires Started(job) && job.op.kind.MoveToTrash? && ValidOrder(job, order) && m.plan == ForwardPlan(job, order)
    requires ValidPlan(job.start.meta.records, files, next) && FreshKey(job.start.meta, job.op.key)
    requires job.after == Some(Trashed(job.start.meta, from, job.op.key, files, next))
    modifies m
    ensures m.Valid() && !r.Refused? && m.Lived(r)
    ensures r.Done? ==> Settled(job, m.state) && AtDestination(job, m.state)
    ensures r.Crashed? ==> Recoverable(job, m.state)
  {
    var key, meta := job.op.key, m.state.meta;
    var records := MoveRecordsToTrash(meta.records, from, key, files, next);
    var after := Metadata(meta.entries[key := from], records, TrashImages(meta.images, from, key), TrashShares(meta.shares, from, key));
    r := MoveSteps(m, job.op, after, order);
    m.RanIsLived(r);
    ForwardEnds(job, order, m.taken);
  }

  method RestoreSteps(m: Machine<Disk, Step>, op: Op, after: Option<Metadata>, order: Order) returns (r: Status)
    requires m.Valid() && m.apply == Apply
    requires m.Next(if after.None? then BeginPlan() + DropPlan() else BeginMovePlan(op, order) + CommitPlan(op, after.value))
    modifies m
    ensures m.Valid() && (r.Refused? ==> after.None?) && (r.Done? ==> after.Some?)
    ensures var plan := if after.None? then BeginPlan() + DropPlan() else BeginMovePlan(op, order) + CommitPlan(op, after.value);
            m.Ran(r, old(m.taken), |plan|)
  {
    if after.None? {
      m.Split(m.taken, BeginPlan(), DropPlan());
      :- WriteTrashOperation(m);
      :- RemoveTrashOperation(m);
      return Refused;
    }
    r := MoveSteps(m, op, after.value, order);
  }

  /** RestoreTrash, as one process life.  It refuses when a restored row would clash with another,
      and leaves everything as it was. */
  method RunRestoreTrash(m: Machine<Disk, Step>, job: Job, target: string, ids: seq<nat>, order: Order) returns (r: Status)
    requires m.Valid() && m.apply == Apply && m.taken == 0 && m.boot == m.state == job.start
    requires Started(job) && job.op.kind.Restore? && ValidOrder(job, order) && m.plan == ForwardPlan(job, order)
    requires Restorable(job.start.meta, job.op.key, ids)
    requires job.after == RestoredOrClash(job.start.meta, job.op.key, target, ids)
    modifies m
    ensures m.Valid() && m.Lived(r)
    ensures r.Done? ==> Settled(job, m.state) && AtDestination(job, m.state)
    ensures !r.Crashed? ==> (r.Refused? <==> job.after.None?)
    ensures r.Refused? ==> Settled(job, m.state) && AtOrigin(job, m.state)
                           && !ClearInOrder(job.start.meta.records, job.op.key, target, ids)
    ensures r.Crashed? ==> Recoverable(job, m.state)
  {
    var after := RestoreRecordsTx(m.state.meta, job.op.key, target, ids);
    r := RestoreSteps(m, job.op, after, order);
    m.RanIsLived(r);
    ForwardEnds(job, order, m.taken);
  }

  method PurgeTree(m: Machine<Disk, Step>, order: Order) returns (r: Status)
    requires m.Valid() && m.apply == Apply && m.Next(PurgePlan(order))
    modifies m
    ensures m.Valid() && !r.Refused?
    ensures m.Ran(r, old(m.taken), |PurgePlan(order)|)
    ensures r.Done? ==> m.state.meta == old(m.state).meta
  {
    ghost var d := m.state;
    ghost var at := m.taken;
    m.Split(m.taken, RemoveTree(Payload, order.removal), [RemoveContainer]);
    for i := 0 to |order.removal|
      invariant m.Valid() && m.taken == at + i && m.state.meta == d.meta
    {
      RemoveTreeAt(Payload, order.removal, i);
      :- m.Do(RemoveNode(Payload, order.removal[i]));
    }
    r := m.Do(RemoveContainer);
  }

  method PurgeSteps(m: Machine<Disk, Step>, op: Op, order: Order) returns (r: Status)
    requires m.Valid() && m.apply == Apply
    requires m.Next(BeginPlan() + PurgePlan(order) + ([Commit(Purged(m.state.meta, op.key))] + DropPlan()))
    modifies m
    ensures m.Valid() && !r.Refused?
    ensures m.Ran(r, old(m.taken), |BeginPlan()| + |PurgePlan(order)| + 1 + |DropPlan()|)
  {
    var meta := m.state.meta;
    ghost var forget := [Commit(Purged(meta, op.key))] + DropPlan();
    m.Split(m.taken, BeginPlan() + PurgePlan(order), forget);
    m.Split(m.taken, BeginPlan(), PurgePlan(order));
    :- WriteTrashOperation(m);
    :- PurgeTree(m, order);
    :- m.Do(Commit(Purged(meta, op.key)));
    r := RemoveTrashOperation(m);
  }

  /** PurgeTrash, as one process life. */
  method RunPurgeTrash(m: Machine<Disk, Step>, job: Job, order: Order) returns (r: Status)
    requires m.Valid() && m.apply == Apply && m.taken == 0 && m.boot == m.state == job.start
    requires Started(job) && job.op.kind.Purge? && ValidOrder(job, order) && m.plan == ForwardPlan(job, order)
    modifies m
    ensures m.Valid() && !r.Refused? && m.Lived(r)
    ensures r.Done? ==> Settled(job, m.state) && Gone(job, m.state)
    ensures r.Crashed? ==> Recoverable(job, m.state)
  {
    r := PurgeSteps(m, job.op, order);
    m.RanIsLived(r);
    ForwardEnds(job, order, m.taken);
  }

  /** An optional removal of the entry's directory. */
  method Tidy(m: Machine<Disk, Step>, tidy: bool) returns (r: Status)
    requires m.Valid() && m.apply == Apply && m.Next(When(tidy, RemoveContainer))
    modifies m
    ensures m.Valid() && !r.Refused?
    ensures m.Ran(r, old(m.taken), |When(tidy, RemoveContainer)|)
  {
    if tidy {
      :- m.Do(RemoveContainer);
    }
    return Done;
  }

  /** The unmarked move of the single-location branches. */
  method MoveUnmarked(m: Machine<Disk, Step>, op: Op, to: Side, make: bool, tidy: bool, order: Order) returns (r: Status)
    requires m.Valid() && m.apply == Apply
    requires m.Next(When(make, MakeContainer) + MoveTree(op, to, [], order) + When(tidy, RemoveContainer))
    modifies m
    ensures m.Valid() && !r.Refused?
    ensures m.Ran(r, old(m.taken), |When(make, MakeContainer) + MoveTree(op, to, [], order) + When(tidy, RemoveContainer)|)
  {
    ghost var move := MoveTree(op, to, [], order);
    m.Split(m.taken, When(make, MakeContainer) + move, When(tidy, RemoveContainer));
    m.Split(m.taken, When(make, MakeContainer), move);
    if make {
      :- m.Do(MakeContainer);
    }
    :- MoveFilesystemTree(m, op, to, [], order);
    r := Tidy(m, tidy);
  }

  method Discard(m: Machine<Disk, Step>, side: Side, tidy: bool, order: Order) returns (r: Status)
    requires m.Valid() && m.apply == Apply
    requires m.Next(RemoveTree(side, order.removal) + When(tidy, RemoveContainer))
    modifies m
    ensures m.Valid() && !r.Refused?
    ensures m.Ran(r, old(m.taken), |RemoveTree(side, order.removal) + When(tidy, RemoveContainer)|)
  {
    m.Split(m.taken, RemoveTree(side, order.removal), When(tidy, RemoveContainer));
    :- RunRemove(m, side, order.removal);
    r := Tidy(m, tidy);
  }

  method TakeBackTree(m: Machine<Disk, Step>, op: Op, order: Order) returns (r: Status)
    requires m.Valid() && m.apply == Apply && m.Next(TakeBackPlan(op, order))
    modifies m
    ensures m.Valid() && !r.Refused?
    ensures m.Ran(r, old(m.taken), |TakeBackPlan(op, order)|)
  {
    m.Split(m.taken, RemoveTree(Origin(op), order.removal), MoveTree(op, Origin(op), [MarkRollbackReady], order));
    :- RunRemove(m, Origin(op), order.removal);
    r := MoveFilesystemTree(m, op, Origin(op), [MarkRollbackReady], order);
  }

  method TakeBack(m: Machine<Disk, Step>, op: Op, tidy: bool, order: Order) returns (r: Status)
    requires m.Valid() && m.apply == Apply && m.Next(TakeBackPlan(op, order) + When(tidy, RemoveContainer))
    modifies m
    ensures m.Valid() && !r.Refused?
    ensures m.Ran(r, old(m.taken), |TakeBackPlan(op, order) + When(tidy, RemoveContainer)|)
  {
    m.Split(m.taken, TakeBackPlan(op, order), When(tidy, RemoveContainer));
    :- TakeBackTree(m, op, order);
    r := Tidy(m, tidy);
  }

  method Rollback(m: Machine<Disk, Step>, op: Op, order: Order) returns (r: Status)
    requires m.Valid() && m.apply == Apply
    requires RollbackPlan(op, order, m.state).Proceed? ==> m.Next(RollbackPlan(op, order, m.state).steps)
    modifies m
    ensures m.Valid() && (r.Refused? <==> RollbackPlan(op, order, old(m.state)).Refuse?)
    ensures r.Refused? ==> m.taken == old(m.taken)
    ensures !r.Refused? ==> m.Ran(r, old(m.taken), |RollbackPlan(op, order, old(m.state)).steps|)
  {
    var tidy := op.kind.MoveToTrash?;
    var originExists, destinationExists := ROOT in At(m.state, Origin(op)), ROOT in At(m.state, Destination(op));
    if destinationExists && !originExists {
      r := MoveUnmarked(m, op, Origin(op), op.kind.Restore?, tidy, order);
    } else if destinationExists && originExists {
      if m.state.rollbackReady {
        r := Discard(m, Destination(op), tidy, order);
      } else if m.state.ready {
        r := TakeBack(m, op, tidy, order);
      } else {
        r := Discard(m, Destination(op), tidy, order);
      }
    } else if originExists {
      r := Tidy(m, tidy);
    } else {
      return Refused;
    }
  }

  method Finish(m: Machine<Disk, Step>, op: Op, order: Order) returns (r: Status)
    requires m.Valid() && m.apply == Apply
    requires FinishPlan(op, order, m.state).Proceed? ==> m.Next(FinishPlan(op, order, m.state).steps)
    modifies m
    ensures m.Valid() && (r.Refused? <==> FinishPlan(op, order, old(m.state)).Refuse?)
    ensures r.Refused? ==> m.taken == old(m.taken)
    ensures !r.Refused? ==> m.Ran(r, old(m.taken), |FinishPlan(op, order, old(m.state)).steps|)
  {
    var tidy := op.kind.Restore?;
    var originExists, destinationExists := ROOT in At(m.state, Origin(op)), ROOT in At(m.state, Destination(op));
    if destinationExists && !originExists {
      r := Tidy(m, tidy);
    } else if !destinationExists && originExists {
      r := MoveUnmarked(m, op, Destination(op), op.kind.MoveToTrash?, tidy, order);
    } else if destinationExists && originExists && op.kind.Restore? {
      r := Discard(m, Origin(op), tidy, order);
    } else {
      return Refused;
    }
  }

  method ResolvePurge(m: Machine<Disk, Step>, op: Op, order: Order) returns (r: Status)
    requires op.kind.Purge? && m.Valid() && m.apply == Apply && m.Next(ResolvePlan(op, order, m.state).steps)
    modifies m
    ensures m.Valid() && !r.Refused?
    ensures m.Ran(r, old(m.taken), |ResolvePlan(op, order, old(m.state)).steps|)
  {
    var meta := m.state.meta;
    m.Split(m.taken, PurgePlan(order), When(HasEntry(op, meta), Commit(Purged(meta, op.key))));
    :- PurgeTree(m, order);
    if op.key in m.state.meta.entries {
      :- m.Do(Commit(Purged(m.state.meta, op.key)));
    }
    return Done;
  }

  method Resolve(m: Machine<Disk, Step>, op: Op, order: Order) returns (r: Status)
    requires m.Valid() && m.apply == Apply
    requires ResolvePlan(op, order, m.state).Proceed? ==> m.Next(ResolvePlan(op, order, m.state).steps)
    modifies m
    ensures m.Valid() && (r.Refused? <==> ResolvePlan(op, order, old(m.state)).Refuse?)
    ensures r.Refused? ==> m.taken == old(m.taken)
    ensures !r.Refused? ==> m.Ran(r, old(m.taken), |ResolvePlan(op, order, old(m.state)).steps|)
  {
    if op.kind.Purge? {
      r := ResolvePurge(m, op, order);
      return;
    }
    var hasEntry := op.key in m.state.meta.entries;
    if hasEntry == op.kind.MoveToTrash? {
      r := Finish(m, op, order);
    } else {
      r := Rollback(m, op, order);
    }
  }

  method RecoverySteps(m: Machine<Disk, Step>, op: Op, order: Order) returns (r: Status)
    requires m.Valid() && m.apply == Apply
    requires RecoveryPlan(op, order, m.state).Proceed? ==> m.Next(RecoveryPlan(op, order, m.state).steps)
    modifies m
    ensures m.Valid() && (r.Refused? <==> RecoveryPlan(op, order, old(m.state)).Refuse?)
    ensures r.Refused? ==> m.taken == old(m.taken)
    ensures !r.Refused? ==> m.Ran(r, old(m.taken), |RecoveryPlan(op, order, old(m.state)).steps|)
  {
    if !m.state.journal {
      if m.state.ready {
        :- m.Do(RemoveReady);
      }
      if m.state.rollbackReady {
        :- m.Do(RemoveRollbackReady);
      }
      return Done;
    }
    ghost var resolution := ResolvePlan(op, order, m.state);
    if resolution.Proceed? {
      m.Split(m.taken, resolution.steps, DropPlan());
    }
    :- Resolve(m, op, order);
    r := RemoveTrashOperation(m);
  }

  /** Startup recovery of one journal, as one process life: refused never, settled when it runs to
      its end, and still recoverable when it dies unless it was exposed and died removing. */
  method RecoverTrash(m: Machine<Disk, Step>, job: Job, order: Order) returns (r: Status)
    requires m.Valid() && m.apply == Apply && m.taken == 0 && m.boot == m.state
    requires Started(job) && Recoverable(job, m.state) && ValidOrder(job, order)
    requires RecoveryPlan(job.op, order, m.state).Proceed? ==> m.plan == RecoveryPlan(job.op, order, m.state).steps
    modifies m
    ensures m.Valid() && !r.Refused? && m.Lived(r)
    ensures r.Done? ==> Settled(job, m.state)
    ensures r.Done? && old(m.state).journal ==>
              if job.op.kind.Purge? then Gone(job, m.state)
              else if IsCommitted(job.op, old(m.state).meta) then AtDestination(job, m.state) else AtOrigin(job, m.state)
    ensures r.Crashed? ==>
              Recoverable(job, m.state)
              || (Exposed(job, old(m.state)) && CutWhileRemoving(job.op, order, m.taken))
  {
    ghost var start := m.state;
    RecoverySettles(job, start, order);
    r := RecoverySteps(m, job.op, order);
    m.RanIsLived(r);
    if r.Done? {
      assert m.plan[..m.taken] == m.plan;
    } else {
      RecoveryCut(job, start, order, m.taken);
    }
  }

  lemma RecoveryCut(job: Job, d: Disk, order: Order, taken: nat)
    requires Started(job) && Recoverable(job, d) && ValidOrder(job, order)
    requires RecoveryPlan(job.op, order, d).Proceed? && taken <= |RecoveryPlan(job.op, order, d).steps|
    ensures Recoverable(job, Exec(Apply, d, RecoveryPlan(job.op, order, d).steps[..taken]))
            || (Exposed(job, d) && CutWhileRemoving(job.op, order, taken))
  {
    var steps := RecoveryPlan(job.op, order, d).steps;
    assert Cut(steps, taken) == steps[..taken];
    if Exposed(job, d) {
      if !CutWhileRemoving(job.op, order, taken) {
        OtherCutsAreSafe(job, d, order, taken);
      }
    } else {
      RecoverySafe(job, d, order);
      SafeCut(Apply, Recoverable, job, d, steps, taken);
    }
  }
}
