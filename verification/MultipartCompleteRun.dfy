/** Completing an upload and its recovery as the code runs them (internal/s3api/multipart.go and
  internal/s3api/multipart_recovery.go), step by step on a Machine.
 */
module MultipartCompleteRun {
  import opened Crash
  import opened MultipartComplete
  import opened Wrappers
  import U = Upload

  method RemoveUploadDirectory(m: Machine<World, Step>, order: seq<int>) returns (r: Status)
    requires m.Valid() && m.apply == Apply && m.Next(RemoveParts(order))
    modifies m
    ensures m.Valid() && !r.Refused?
    ensures m.Ran(r, old(m.taken), |order|)
  {
    for i := 0 to |order|
      invariant m.Valid() && m.taken == old(m.taken) + i
    {
      :- m.Do(RemovePart(order[i]));
    }
    return Done;
  }

  method RemoveUploadAndJournal(m: Machine<World, Step>, order: seq<int>) returns (r: Status)
    requires m.Valid() && m.apply == Apply && m.Next(CleanupPlan(order))
    modifies m
    ensures m.Valid() && !r.Refused?
    ensures m.Ran(r, old(m.taken), |CleanupPlan(order)|)
  {
    r := RemoveUploadDirectory(m, order);
    :- r;
    :- m.Do(RemoveCompletion);
    return Done;
  }

  method CommitCompletion(m: Machine<World, Step>, op: Op, order: seq<int>) returns (r: Status)
    requires m.Valid() && m.apply == Apply && m.Next(CommitPlan(op, order))
    modifies m
    ensures m.Valid() && !r.Refused?
    ensures m.Ran(r, old(m.taken), |CommitPlan(op, order)|)
  {
    r := m.Do(Object(U.UpsertRow(Some(op.owner))));
    :- r;
    :- m.Do(Commit(op.parts));
    r := RemoveUploadAndJournal(m, order);
  }

  method ResolveCompletion(m: Machine<World, Step>, op: Op, order: seq<int>, objectReady: bool)
    returns (r: Status, committed: bool)
    requires m.Valid() && m.apply == Apply && m.state.completion
    requires m.Next(ResolvePlan(op, order, m.state, objectReady))
    modifies m
    ensures m.Valid() && !r.Refused?
    ensures m.Ran(r, old(m.taken), |ResolvePlan(op, order, old(m.state), objectReady)|)
    ensures r.Done? ==> (committed <==> ResolveCommits(op, old(m.state), objectReady))
  {
    committed := false;
    if !m.state.upload {
      r := RemoveUploadAndJournal(m, order);
      return r, true;
    }
    var final := m.state.target.final;
    var matches := final.Some? && final.value.bytes == Concat(op.parts);
    if !matches {
      :- m.Do(RemoveCompletion);
      return Done, false;
    }
    if !objectReady && op.previous.Some?
       && |final.value.bytes| == op.previous.value.0 && final.value.mtime == op.previous.value.1 {
      :- m.Do(RemoveCompletion);
      return Done, false;
    }
    r := CommitCompletion(m, op, order);
    return r, true;
  }

  lemma LiftedStep(w: World, steps: seq<U.Step>, i: nat)
    requires i < |steps|
    ensures Exec(Apply, w, Lift(steps)[..i + 1]) == Apply(Exec(Apply, w, Lift(steps)[..i]), Object(steps[i]))
  {
    assert Lift(steps)[..i + 1] == Lift(steps)[..i] + [Object(steps[i])];
    ExecAppend(Apply, w, Lift(steps)[..i], [Object(steps[i])]);
    assert [Object(steps[i])][1..] == [];
  }

  /** The ordinary upload or its recovery running inside this operation, as the steps the Upload
      module proves its code takes. */
  method RunObjectSteps(m: Machine<World, Step>, steps: seq<U.Step>) returns (r: Status)
    requires m.Valid() && m.apply == Apply && m.Next(Lift(steps))
    modifies m
    ensures m.Valid() && !r.Refused?
    ensures m.Ran(r, old(m.taken), |steps|)
    ensures r.Done? ==> m.state == Exec(Apply, old(m.state), Lift(steps))
  {
    ghost var s := m.state;
    for i := 0 to |steps|
      invariant m.Valid() && m.taken == old(m.taken) + i
      invariant m.state == Exec(Apply, s, Lift(steps)[..i])
    {
      LiftedStep(s, steps, i);
      :- m.Do(Object(steps[i]));
    }
    assert Lift(steps)[..|steps|] == Lift(steps);
    return Done;
  }

  /** After the ordinary upload the object is the new one, so the completion commits. */
  lemma UploadedObjectCommits(job: Job, w: World, order: seq<int>)
    requires Started(job) && w == job.start.(completion := true)
    ensures var w' := Exec(Apply, w, Lift(U.UploadPlan(ObjectJob(job).op)));
            && ResolveCommits(job.op, w', true) && w'.upload && w'.completion
            && ResolvePlan(job.op, order, w', true) == CommitPlan(job.op, order)
  {
    LiftRuns(w, U.UploadPlan(ObjectJob(job).op));
    U.ForwardSafe(ObjectJob(job));
  }

  /** hashSelectedParts: every file asked for is read and must be the one its row describes. */
  method HashSelectedParts(files: map<int, Bytes>, requested: seq<Requested>) returns (ok: bool)
    ensures ok <==> forall r <- requested :: Stored(files, r)
  {
    for i := 0 to |requested|
      invariant forall k :: 0 <= k < i ==> Stored(files, requested[k])
    {
      if requested[i].number !in files || files[requested[i].number] != requested[i].etag {
        assert requested[i] in requested;
        return false;
      }
    }
    return true;
  }

  const BUFFER_SIZE := 32 * 1024

  /** The body of the upload, read from the part files. */
  method ReadParts(files: map<int, Bytes>, requested: seq<Requested>) returns (body: Bytes)
    requires forall r <- requested :: r.number in files
    ensures body == Concat(PartFiles(files, requested))
  {
    var reader := new SequentialPartReader(PartFiles(files, requested));
    body := reader.CopyAll(BUFFER_SIZE);
  }

  /** The ordinary upload the journalled completion runs. */
  method UploadObject(m: Machine<World, Step>, job: Job) returns (r: Status)
    requires m.Valid() && m.apply == Apply && m.state == job.start.(completion := true) && Started(job)
    requires m.Next(Lift(U.UploadPlan(ObjectJob(job).op)))
    modifies m
    ensures m.Valid() && !r.Refused?
    ensures m.Ran(r, old(m.taken), |U.UploadPlan(ObjectJob(job).op)|)
    ensures r.Done? ==> m.state == Exec(Apply, old(m.state), Lift(U.UploadPlan(ObjectJob(job).op)))
  {
    WholePartsAssemble(job.start, job.requested);
    var body := ReadParts(m.state.partFiles, job.requested);
    var op := U.Op(m.state.target.final.Some?, U.File(body, job.mtime), Some(job.op.owner));
    r := RunObjectSteps(m, U.UploadPlan(op));
  }

  /** The journal, and the upload under it: afterwards the completion commits. */
  method BeginCompletion(m: Machine<World, Step>, job: Job, ghost order: seq<int>) returns (r: Status)
    requires m.Valid() && m.apply == Apply && m.state == job.start && Started(job)
    requires m.Next(BeginPlan(job))
    modifies m
    ensures m.Valid() && !r.Refused?
    ensures m.Ran(r, old(m.taken), |BeginPlan(job)|)
    ensures r.Done? ==>
              && m.state.completion && ResolveCommits(job.op, m.state, true)
              && ResolvePlan(job.op, order, m.state, true) == CommitPlan(job.op, order)
  {
    m.Split(m.taken, [WriteCompletion], Lift(U.UploadPlan(ObjectJob(job).op)));
    :- m.Do(WriteCompletion);
    UploadedObjectCommits(job, m.state, order);
    r := UploadObject(m, job);
  }

  method CompleteSteps(m: Machine<World, Step>, job: Job, order: seq<int>) returns (r: Status, committed: bool)
    requires m.Valid() && m.apply == Apply && m.state == job.start && Started(job)
    requires m.Next(CompletePlan(job, order))
    modifies m
    ensures m.Valid() && !r.Refused?
    ensures m.Ran(r, old(m.taken), |CompletePlan(job, order)|)
    ensures r.Done? ==> committed
  {
    committed := false;
    m.Split(m.taken, BeginPlan(job), CommitPlan(job.op, order));
    :- BeginCompletion(m, job, order);
    r, committed := ResolveCompletion(m, job.op, order, true);
  }

  function PreviousObject(w: World): Option<(nat, int)> {
    match w.target.final
    case None => None
    case Some(file) => Some((|file.bytes|, file.mtime))
  }

  function JobOf(w: World, requested: seq<Requested>, owner: nat, mtime: int): Job {
    Job(Op(Etags(requested), owner, PreviousObject(w)), w, mtime, requested)
  }

  /** The upload exists, the request is acceptable, and the files asked for are what their rows say. */
  predicate Completable(w: World, requested: seq<Requested>, maxObject: int) {
    w.upload && Acceptable(requested, w.partRows, maxObject) && PartsAreWhole(w, requested)
  }

  lemma CompletableStarts(w: World, requested: seq<Requested>, maxObject: int, owner: nat, mtime: int)
    requires Completable(w, requested, maxObject) && !w.completion && U.Clean(w.target)
    ensures Started(JobOf(w, requested, owner, mtime))
  {
  }

  /** The choice of the parts; nothing durable happens. */
  method ChooseParts(w: World, requested: seq<Requested>, maxObject: int) returns (ok: bool, selected: seq<Bytes>)
    ensures ok <==> Completable(w, requested, maxObject)
    ensures ok ==> selected == Etags(requested)
  {
    if !w.upload {
      return false, [];
    }
    var error, total;
    error, selected, total := SelectParts(requested, w.partRows, maxObject);
    if error.Some? {
      return false, [];
    }
    ok := HashSelectedParts(w.partFiles, requested);
    assert forall i :: 0 <= i < |requested| ==> Stored(w.partRows, requested[i]);
  }

  /** Complete, as one process life: refused without a trace exactly when the request cannot be
      completed, and otherwise done with the object made of the part files asked for, in order. */
  method Complete(m: Machine<World, Step>, requested: seq<Requested>, maxObject: int, owner: nat, mtime: int, order: seq<int>)
      returns (r: Status)
    requires m.Valid() && m.apply == Apply && m.taken == 0 && m.boot == m.state
    requires !m.state.completion && U.Clean(m.state.target) && Covers(order, m.state)
    requires m.plan == CompletePlan(JobOf(m.state, requested, owner, mtime), order)
    modifies m
    ensures m.Valid() && (r.Refused? <==> !Completable(old(m.state), requested, maxObject))
    ensures if r.Refused? then m.state == old(m.state) else m.Lived(r)
    ensures r.Crashed? ==> Recoverable(JobOf(old(m.state), requested, owner, mtime), m.state)
    ensures r.Done? ==> Settled(JobOf(old(m.state), requested, owner, mtime), m.state) && !m.state.upload
    ensures r.Done? ==> m.state.target.final == Some(U.File(Assembled(old(m.state).partFiles, requested), mtime))
  {
    var ok, selected := ChooseParts(m.state, requested, maxObject);
    if !ok {
      return Refused;
    }
    var job := Job(Op(selected, owner, PreviousObject(m.state)), m.state, mtime, requested);
    CompletableStarts(m.state, requested, maxObject, owner, mtime);
    ForwardSafe(job, order);
    WholePartsAssemble(job.start, requested);
    var committed;
    r, committed := CompleteSteps(m, job, order);
    m.RanIsLived(r);
    m.Ends(Recoverable, job);
  }

  method ResolveIfPending(m: Machine<World, Step>, op: Op, order: seq<int>) returns (r: Status, committed: bool)
    requires m.Valid() && m.apply == Apply && m.Next(ResolvePlan(op, order, m.state, false))
    modifies m
    ensures m.Valid() && !r.Refused?
    ensures m.Ran(r, old(m.taken), |ResolvePlan(op, order, old(m.state), false)|)
  {
    if !m.state.completion {
      return Done, false;
    }
    r, committed := ResolveCompletion(m, op, order, false);
  }

  /** The ordinary upload's recovery, and then the completion's. */
  method RunBothRecoveries(m: Machine<World, Step>, op: Op, order: seq<int>, steps: seq<U.Step>) returns (r: Status, committed: bool)
    requires m.Valid() && m.apply == Apply
    requires m.Next(Lift(steps) + ResolvePlan(op, order, Exec(Apply, m.state, Lift(steps)), false))
    modifies m
    ensures m.Valid() && !r.Refused?
    ensures m.Ran(r, old(m.taken), |steps| + |ResolvePlan(op, order, Exec(Apply, old(m.state), Lift(steps)), false)|)
  {
    committed := false;
    m.Split(m.taken, Lift(steps), ResolvePlan(op, order, Exec(Apply, m.state, Lift(steps)), false));
    r := RunObjectSteps(m, steps);
    if r.Done? {
      r, committed := ResolveIfPending(m, op, order);
    }
  }

  method RecoverySteps(m: Machine<World, Step>, job: Job, order: seq<int>) returns (r: Status, committed: bool)
    requires m.Valid() && m.apply == Apply
    requires RecoveryPlan(job, order, m.state).Proceed? ==> m.Next(RecoveryPlan(job, order, m.state).steps)
    modifies m
    ensures m.Valid() && (r.Refused? <==> RecoveryPlan(job, order, old(m.state)).Refuse?)
    ensures r.Refused? ==> m.taken == old(m.taken)
    ensures !r.Refused? ==> m.Ran(r, old(m.taken), |RecoveryPlan(job, order, old(m.state)).steps|)
  {
    var decision := U.RecoveryPlan(ObjectJob(job).op, m.state.target);
    if decision.Refuse? {
      return Refused, false;
    }
    r, committed := RunBothRecoveries(m, job.op, order, decision.steps);
  }

  /** Startup over one interrupted completion, as one process life. */
  method RecoverCompletion(m: Machine<World, Step>, job: Job, order: seq<int>) returns (r: Status, committed: bool)
    requires m.Valid() && m.apply == Apply && m.taken == 0 && m.boot == m.state
    requires Started(job) && Recoverable(job, m.state) && Covers(order, m.state)
    requires RecoveryPlan(job, order, m.state).Proceed? ==> m.plan == RecoveryPlan(job, order, m.state).steps
    modifies m
    ensures m.Valid()
    ensures r.Refused? <==> U.Stranded(ObjectJob(job).op, old(m.state).target)
    ensures if r.Refused? then m.state == old(m.state) else m.Lived(r)
    ensures r.Crashed? ==> Recoverable(job, m.state)
    ensures r.Done? ==> Settled(job, m.state)
  {
    RecoverySettles(job, m.state, order);
    r, committed := RecoverySteps(m, job, order);
    if !r.Refused? {
      m.RanIsLived(r);
      m.Ends(Recoverable, job);
    }
  }
}
