/** Completion (internal/s3api/multipart_recovery.go). */
module MultipartComplete {
  import opened Crash
  import opened Wrappers
  import U = Upload

  // Completing a multipart upload (Complete in internal/s3api/multipart.go and
  // internal/s3api/multipart_recovery.go), on top of the ordinary upload it runs inside.
  //
  // Startup runs the ordinary upload's recovery first and the completion's after it.

  type Bytes = string

  /** A part's digest is modelled by its bytes, so a composite tag is the digests in order. */
  datatype EtagRow = EtagRow(parts: seq<Bytes>, size: nat, mtime: int)

  datatype Op = Op(
    parts: seq<Bytes>,
    owner: nat,
    previous: Option<(nat, int)>)   // size and time of the object that was there

  datatype World = World(
    target: U.Disk,
    upload: bool,
    partRows: map<int, Bytes>,
    partFiles: map<int, Bytes>,
    etag: Option<EtagRow>,
    completion: bool)

  datatype Step =
    | Object(step: U.Step)
    | WriteCompletion
    | Commit(parts: seq<Bytes>)
    | RemovePart(number: int)
    | RemoveCompletion

  function Apply(w: World, step: Step): World {
    match step
    case Object(s) => w.(target := U.Apply(w.target, s))
    case WriteCompletion => w.(completion := true)
    case Commit(parts) =>
      // One transaction stores the composite tag and deletes the upload and its part rows; it
      // fails, changing nothing, when the upload's row is gone.
      if w.upload && w.target.final.Some? then
        var file := w.target.final.value;
        w.(etag := Some(EtagRow(parts, |file.bytes|, file.mtime)), upload := false, partRows := map[])
      else w
    case RemovePart(number) => w.(partFiles := w.partFiles - {number})
    case RemoveCompletion => w.(completion := false)
  }

  function Concat(parts: seq<Bytes>): Bytes {
    if parts == [] then "" else parts[0] + Concat(parts[1..])
  }

  // ---------------------------------------------------------------------- plans

  function Lift(steps: seq<U.Step>): (lifted: seq<Step>)
    ensures |lifted| == |steps|
    ensures forall i :: 0 <= i < |steps| ==> lifted[i] == Object(steps[i])
  {
    if steps == [] then [] else [Object(steps[0])] + Lift(steps[1..])
  }

  function RemoveParts(order: seq<int>): (steps: seq<Step>)
    ensures |steps| == |order|
    ensures forall i :: 0 <= i < |order| ==> steps[i] == RemovePart(order[i])
  {
    if order == [] then [] else [RemovePart(order[0])] + RemoveParts(order[1..])
  }

  /** Removing the upload's directory, in whatever order its parts are listed. */
  function CleanupPlan(order: seq<int>): seq<Step> {
    RemoveParts(order) + [RemoveCompletion]
  }

  function CommitPlan(op: Op, order: seq<int>): seq<Step> {
    [Object(U.UpsertRow(Some(op.owner))), Commit(op.parts)] + CleanupPlan(order)
  }

  function ObjectJob(job: Job): U.Job {
    U.Job(U.Op(job.start.target.final.Some?, U.File(Concat(job.op.parts), job.mtime), Some(job.op.owner)),
          job.start.target)
  }

  function BeginPlan(job: Job): seq<Step> {
    [WriteCompletion] + Lift(U.UploadPlan(ObjectJob(job).op))
  }

  function CompletePlan(job: Job, order: seq<int>): seq<Step> {
    BeginPlan(job) + CommitPlan(job.op, order)
  }

  predicate ObjectMatches(op: Op, w: World) {
    w.target.final.Some? && w.target.final.value.bytes == Concat(op.parts)
  }

  /** Nothing shows that the object was replaced: it has the old object's size and time. */
  predicate LooksUntouched(op: Op, w: World) {
    w.target.final.Some? &&
    op.previous == Some((|w.target.final.value.bytes|, w.target.final.value.mtime))
  }

  /** What resolveMultipartCompletion does.  At startup nobody vouches that the object was
      written, so `objectReady` is false. */
  function ResolvePlan(op: Op, order: seq<int>, w: World, objectReady: bool): seq<Step> {
    if !w.completion then []
    else if !w.upload then CleanupPlan(order)
    else if ResolveCommits(op, w, objectReady) then CommitPlan(op, order)
    else [RemoveCompletion]
  }

  predicate ResolveCommits(op: Op, w: World, objectReady: bool) {
    !w.upload || (ObjectMatches(op, w) && (objectReady || !LooksUntouched(op, w)))
  }

  /** Startup: the ordinary upload's recovery, then the completion's. */
  function RecoveryPlan(job: Job, order: seq<int>, w: World): Decision<Step> {
    match U.RecoveryPlan(ObjectJob(job).op, w.target)
    case Refuse => Refuse
    case Proceed(steps) =>
      Proceed(Lift(steps) + ResolvePlan(job.op, order, Exec(Apply, w, Lift(steps)), false))
  }

  lemma {:induction false} CleaningKeepsObject(w: World, steps: seq<Step>)
    requires forall step <- steps :: step.RemovePart? || step.RemoveCompletion?
    ensures var e := Exec(Apply, w, steps); e.target == w.target && e.etag == w.etag && e.partRows == w.partRows
    decreases |steps|
  {
    if steps != [] {
      assert steps[0] in steps;
      CleaningKeepsObject(Apply(w, steps[0]), steps[1..]);
    }
  }

  /** Once the upload is gone its completion is only tidied away: whatever is at the object's path now,
      and the tag stored for it, stay as they are, wherever this is cut. */
  lemma GoneUploadLeavesObject(op: Op, order: seq<int>, w: World, objectReady: bool, cut: nat)
    requires !w.upload
    ensures var e := Exec(Apply, w, Cut(ResolvePlan(op, order, w, objectReady), cut));
            e.target == w.target && e.etag == w.etag && e.partRows == w.partRows
  {
    CleaningKeepsObject(w, Cut(ResolvePlan(op, order, w, objectReady), cut));
  }

  // -------------------------------------------------------------- what was asked for

  datatype Requested = Requested(number: int, etag: Bytes)

  predicate Stored(stored: map<int, Bytes>, r: Requested) {
    r.number in stored && stored[r.number] == r.etag
  }

  function Etags(requested: seq<Requested>): (etags: seq<Bytes>)
    ensures |etags| == |requested|
    ensures forall i :: 0 <= i < |requested| ==> etags[i] == requested[i].etag
  {
    seq(|requested|, i requires 0 <= i < |requested| => requested[i].etag)
  }

  /** Every part asked for has its row, and its file matches the row. */
  predicate PartsAreWhole(w: World, requested: seq<Requested>) {
    forall r <- requested :: Stored(w.partRows, r) && Stored(w.partFiles, r)
  }

  /** The files of the parts asked for, and their bytes one after another. */
  function PartFiles(files: map<int, Bytes>, requested: seq<Requested>): seq<Bytes>
    requires forall r <- requested :: r.number in files
  {
    seq(|requested|, i requires 0 <= i < |requested| => files[requested[i].number])
  }

  function Assembled(files: map<int, Bytes>, requested: seq<Requested>): Bytes
    requires forall r <- requested :: r.number in files
  {
    if requested == [] then "" else files[requested[0].number] + Assembled(files, requested[1..])
  }

  lemma {:induction false} WholePartsAssemble(w: World, requested: seq<Requested>)
    requires PartsAreWhole(w, requested)
    ensures PartFiles(w.partFiles, requested) == Etags(requested)
    ensures Assembled(w.partFiles, requested) == Concat(Etags(requested))
  {
    assert forall i :: 0 <= i < |requested| ==> Stored(w.partFiles, requested[i]);
    if requested != [] {
      assert Etags(requested)[1..] == Etags(requested[1..]);
      WholePartsAssemble(w, requested[1..]);
    }
  }

  // ------------------------------------------------------------------ invariant

  /** `mtime` is the time the new object's file gets. */
  datatype Job = Job(op: Op, start: World, mtime: int, requested: seq<Requested>)

  /** The upload and the parts asked for exist, the recorded previous object is the one on disk, and
      no operation is pending on the object. */
  predicate Started(job: Job) {
    && job.start.upload && !job.start.completion
    && PartsAreWhole(job.start, job.requested) && job.op.parts == Etags(job.requested)
    && U.Started(ObjectJob(job))
    && job.op.previous == (if job.start.target.final.Some? then
                             Some((|job.start.target.final.value.bytes|, job.start.target.final.value.mtime))
                           else None)
  }

  predicate Covers(order: seq<int>, w: World) {
    forall number <- w.partFiles :: number in order
  }

  /** Upload row and parts are all as they were. */
  predicate Intact(job: Job, w: World) {
    w.upload && w.partRows == job.start.partRows && w.partFiles == job.start.partFiles
    && w.etag == job.start.etag
  }

  function NewEtag(job: Job): Option<EtagRow> {
    Some(EtagRow(job.op.parts, |Concat(job.op.parts)|, job.mtime))
  }

  predicate ObjectIsNew(job: Job, w: World) {
    U.Clean(w.target) && U.HoldsNew(ObjectJob(job), w.target)
  }

  predicate CommittedRows(job: Job, w: World) {
    !w.upload && w.partRows == map[] && w.etag == NewEtag(job) && ObjectIsNew(job, w)
  }

  /** The new file is indistinguishable from the old one by size and time. */
  predicate Collides(job: Job) {
    job.op.previous == Some((|Concat(job.op.parts)|, job.mtime))
  }

  predicate KeepsObject(job: Job, w: World) {
    || w.target.final == job.start.target.final
    || (Collides(job) && w.target.final == Some(U.File(Concat(job.op.parts), job.mtime)))
  }

  predicate Pending(job: Job, w: World) {
    && Intact(job, w) && U.Recoverable(ObjectJob(job), w.target)
    && (!w.completion ==> U.Settled(ObjectJob(job), w.target) && KeepsObject(job, w))
  }

  predicate Committed(job: Job, w: World) {
    && CommittedRows(job, w) && w.partFiles.Keys <= job.start.partFiles.Keys
    && (!w.completion ==> w.partFiles == map[])
  }

  predicate Recoverable(job: Job, w: World) {
    Pending(job, w) || Committed(job, w)
  }

  /** Either the upload is still there, with all its parts and the previous object, or it is gone
      and the object is the parts in order with its composite tag stored.  When the new file
      has the old one's size and time, an upload kept for a retry may already have its object
      in place. */
  predicate Settled(job: Job, w: World) {
    && !w.completion && U.Settled(ObjectJob(job), w.target)
    && if w.upload then
         && Intact(job, w) && KeepsObject(job, w)
       else
         && CommittedRows(job, w) && w.partFiles == map[]
         && w.target.final == Some(U.File(Concat(job.op.parts), job.mtime))
  }

  // --------------------------------------------------------------------- proofs

  lemma {:induction false} LiftRuns(w: World, steps: seq<U.Step>)
    ensures Exec(Apply, w, Lift(steps)) == w.(target := Exec(U.Apply, w.target, steps))
    decreases |steps|
  {
    if steps != [] {
      var lifted := Lift(steps);
      assert lifted[1..] == Lift(steps[1..]);
      LiftRuns(Apply(w, lifted[0]), steps[1..]);
    }
  }

  lemma {:induction false} LiftSafe(job: Job, w: World, steps: seq<U.Step>)
    requires Intact(job, w) && w.completion
    requires Safe(U.Apply, U.Recoverable, ObjectJob(job), w.target, steps)
    ensures Safe(Apply, Recoverable, job, w, Lift(steps))
    decreases |steps|
  {
    if steps != [] {
      var lifted := Lift(steps);
      assert lifted[1..] == Lift(steps[1..]);
      LiftSafe(job, Apply(w, lifted[0]), steps[1..]);
    }
  }

  lemma {:induction false} RemovePartsRuns(w: World, order: seq<int>)
    ensures Exec(Apply, w, RemoveParts(order)) == w.(partFiles := w.partFiles - (set n | n in order))
    decreases |order|
  {
    if order == [] {
      assert w.partFiles - (set n | n in order) == w.partFiles;
    } else {
      var steps := RemoveParts(order);
      assert steps[1..] == RemoveParts(order[1..]);
      RemovePartsRuns(Apply(w, steps[0]), order[1..]);
      assert (w.partFiles - {order[0]}) - (set n | n in order[1..]) == w.partFiles - (set n | n in order);
    }
  }

  lemma {:induction false} RemovePartsSafe(job: Job, w: World, order: seq<int>)
    requires Committed(job, w) && w.completion
    ensures Safe(Apply, Recoverable, job, w, RemoveParts(order))
    decreases |order|
  {
    if order != [] {
      var steps := RemoveParts(order);
      assert steps[1..] == RemoveParts(order[1..]);
      RemovePartsSafe(job, Apply(w, steps[0]), order[1..]);
    }
  }

  lemma CleanupSafe(job: Job, w: World, order: seq<int>)
    requires Committed(job, w) && w.completion && Covers(order, w)
    ensures Safe(Apply, Recoverable, job, w, CleanupPlan(order))
    ensures Exec(Apply, w, CleanupPlan(order)) == w.(partFiles := map[], completion := false)
  {
    RemovePartsSafe(job, w, order);
    RemovePartsRuns(w, order);
    forall n | n in w.partFiles ensures n in (set k | k in order) {
      assert n in order;
    }
    assert w.partFiles - (set n | n in order) == map[];
    SafeWhen(Apply, Recoverable, job, w, RemoveParts(order), true, RemoveCompletion);
    assert RemoveParts(order) + When(true, RemoveCompletion) == CleanupPlan(order);
  }

  lemma CommitSafe(job: Job, w: World, order: seq<int>)
    requires Started(job) && Intact(job, w) && w.completion && ObjectIsNew(job, w) && Covers(order, w)
    ensures Safe(Apply, Recoverable, job, w, CommitPlan(job.op, order))
    ensures Settled(job, Exec(Apply, w, CommitPlan(job.op, order)))
    ensures !Exec(Apply, w, CommitPlan(job.op, order)).upload
  {
    var upsert := Object(U.UpsertRow(Some(job.op.owner)));
    var p0: seq<Step> := [];
    SafeWhen(Apply, Recoverable, job, w, p0, true, upsert);
    var p1 := p0 + When(true, upsert);
    SafeWhen(Apply, Recoverable, job, w, p1, true, Commit(job.op.parts));
    var p2 := p1 + When(true, Commit(job.op.parts));
    CleanupSafe(job, Exec(Apply, w, p2), order);
    SafeAppend(Apply, Recoverable, job, w, p2, CleanupPlan(order));
    ExecAppend(Apply, w, p2, CleanupPlan(order));
    assert p2 + CleanupPlan(order) == CommitPlan(job.op, order);
  }

  lemma ResolveSafe(job: Job, w: World, order: seq<int>)
    requires Started(job) && Recoverable(job, w) && U.Settled(ObjectJob(job), w.target) && Covers(order, w)
    ensures Safe(Apply, Recoverable, job, w, ResolvePlan(job.op, order, w, false))
    ensures Recoverable(job, Exec(Apply, w, ResolvePlan(job.op, order, w, false)))
    ensures w.completion ==> Settled(job, Exec(Apply, w, ResolvePlan(job.op, order, w, false)))
    ensures !w.completion ==> Exec(Apply, w, ResolvePlan(job.op, order, w, false)) == w
  {
    var p0: seq<Step> := [];
    if !w.completion {
    } else if !w.upload {
      CleanupSafe(job, w, order);
    } else if !ObjectMatches(job.op, w) || LooksUntouched(job.op, w) {
      SafeWhen(Apply, Recoverable, job, w, p0, true, RemoveCompletion);
      assert p0 + When(true, RemoveCompletion) == [RemoveCompletion];
    } else {
      CommitSafe(job, w, order);
    }
  }

  /** The journal is written and the object uploaded by the ordinary path. */
  lemma BeginSafe(job: Job, order: seq<int>)
    requires Started(job) && Covers(order, job.start)
    ensures var w := Exec(Apply, job.start, BeginPlan(job));
            && Safe(Apply, Recoverable, job, job.start, BeginPlan(job))
            && Intact(job, w) && w.completion && ObjectIsNew(job, w) && Covers(order, w)
  {
    var s, ojob := job.start, ObjectJob(job);
    var steps := U.UploadPlan(ojob.op);
    var p0: seq<Step> := [];
    SafeWhen(Apply, Recoverable, job, s, p0, true, WriteCompletion);
    assert p0 + When(true, WriteCompletion) == [WriteCompletion];
    var w1 := Exec(Apply, s, [WriteCompletion]);
    U.ForwardSafe(ojob);
    SafeWeaken(U.Apply, U.Interrupted, U.Recoverable, ojob, w1.target, steps);
    LiftSafe(job, w1, steps);
    LiftRuns(w1, steps);
    SafeAppend(Apply, Recoverable, job, s, [WriteCompletion], Lift(steps));
    ExecAppend(Apply, s, [WriteCompletion], Lift(steps));
  }

  /** Every durable state Complete passes through is recoverable and it ends committed. */
  lemma ForwardSafe(job: Job, order: seq<int>)
    requires Started(job) && Covers(order, job.start)
    ensures Safe(Apply, Recoverable, job, job.start, CompletePlan(job, order))
    ensures Settled(job, Exec(Apply, job.start, CompletePlan(job, order)))
    ensures !Exec(Apply, job.start, CompletePlan(job, order)).upload
  {
    var begin := BeginPlan(job);
    BeginSafe(job, order);
    CommitSafe(job, Exec(Apply, job.start, begin), order);
    SafeAppend(Apply, Recoverable, job, job.start, begin, CommitPlan(job.op, order));
    ExecAppend(Apply, job.start, begin, CommitPlan(job.op, order));
  }

  /** Both recoveries together: refused only where the ordinary upload is stranded; otherwise
      every state on the way is recoverable and they end settled. */
  lemma RecoverySettles(job: Job, w: World, order: seq<int>)
    requires Started(job) && Recoverable(job, w) && Covers(order, w)
    ensures RecoveryPlan(job, order, w).Refuse? <==> U.Stranded(ObjectJob(job).op, w.target)
    ensures RecoveryPlan(job, order, w).Proceed? ==>
              && Safe(Apply, Recoverable, job, w, RecoveryPlan(job, order, w).steps)
              && Settled(job, Exec(Apply, w, RecoveryPlan(job, order, w).steps))
  {
    var ojob := ObjectJob(job);
    if !w.completion || !w.upload {
      assert Lift([]) == [];
      ResolveSafe(job, w, order);
      assert [] + ResolvePlan(job.op, order, w, false) == ResolvePlan(job.op, order, w, false);
    } else {
      U.RecoverySettles(ojob, w.target);
      if U.RecoveryPlan(ojob.op, w.target).Proceed? {
        var steps := U.RecoveryPlan(ojob.op, w.target).steps;
        LiftSafe(job, w, steps);
        LiftRuns(w, steps);
        var w1 := Exec(Apply, w, Lift(steps));
        ResolveSafe(job, w1, order);
        SafeAppend(Apply, Recoverable, job, w, Lift(steps), ResolvePlan(job.op, order, w1, false));
        ExecAppend(Apply, w, Lift(steps), ResolvePlan(job.op, order, w1, false));
      }
    }
  }

  function CompleteAfterCrashes(job: Job, order: seq<int>, cut: nat, lives: seq<Life<seq<int>>>): World {
    AfterCrashes(Apply, RecoveryPlan, job, job.start, CompletePlan(job, order), cut, lives)
  }

  /** Complete is atomic over any crashes of the completion, of the upload inside it and of the
      recoveries of either: the next startup keeps the upload with every part, so that the same
      request can be repeated, and the previous object, or finds it gone with the object equal to
      the requested part files in order and the composite tag stored.  Startup refuses only where
      the ordinary upload is stranded, which replacing an existing object never is, and even there
      upload, parts and old object are intact. */
  lemma CompleteIsAtomic(job: Job, order: seq<int>, cut: nat, lives: seq<Life<seq<int>>>, last: seq<int>)
    requires Started(job) && Covers(order, job.start) && Covers(last, job.start)
    requires forall life <- lives :: Covers(life.order, job.start)
    ensures var w := CompleteAfterCrashes(job, order, cut, lives);
            match RecoveryPlan(job, last, w)
            case Proceed(steps) =>
              var e := Exec(Apply, w, steps);
              && Settled(job, e)
              && (if e.upload then PartsAreWhole(e, job.requested)
                  else e.target.final == Some(U.File(Assembled(job.start.partFiles, job.requested), job.mtime)))
            case Refuse => Intact(job, w) && job.start.target.final.None? && w.target.final.None?
  {
    ForwardSafe(job, order);
    forall life, w | life in lives && Recoverable(job, w) && RecoveryPlan(job, life.order, w).Proceed?
      ensures Safe(Apply, Recoverable, job, w, RecoveryPlan(job, life.order, w).steps)
    {
      RecoverySettles(job, w, life.order);
    }
    CrashesKeep(Apply, Recoverable, RecoveryPlan, job, job.start, CompletePlan(job, order), cut, lives);
    RecoverySettles(job, CompleteAfterCrashes(job, order, cut, lives), last);
    WholePartsAssemble(job.start, job.requested);
  }

  function NewObject(job: Job): U.File {
    U.File(Concat(job.op.parts), job.mtime)
  }

  /** The ordinary upload's recovery leaves the new object. */
  predicate ObjectArrives(job: Job, d: U.Disk) {
    if d.journal then U.RecoveryCompletes(ObjectJob(job).op, d) else d.final == Some(NewObject(job))
  }

  /** After the ordinary upload's recovery the object is the new one or the old one, and what the
      completion's recovery then does is all that is left to do. */
  lemma ObjectRecovered(job: Job, w: World, order: seq<int>)
    requires Started(job) && Recoverable(job, w) && w.upload && w.completion
    requires RecoveryPlan(job, order, w).Proceed?
    ensures var w1 := w.(target := Exec(U.Apply, w.target, U.RecoveryPlan(ObjectJob(job).op, w.target).steps));
            && U.Settled(ObjectJob(job), w1.target)
            && w1.target.final == (if ObjectArrives(job, w.target) then Some(NewObject(job)) else job.start.target.final)
            && Exec(Apply, w, RecoveryPlan(job, order, w).steps) == Exec(Apply, w1, ResolvePlan(job.op, order, w1, false))
  {
    var ojob := ObjectJob(job);
    U.RecoverySettles(ojob, w.target);
    var steps := U.RecoveryPlan(ojob.op, w.target).steps;
    LiftRuns(w, steps);
    var w1 := Exec(Apply, w, Lift(steps));
    ExecAppend(Apply, w, Lift(steps), ResolvePlan(job.op, order, w1, false));
  }

  /** The completion's own decision, on a settled object. */
  lemma ResolvesExactly(job: Job, w: World, order: seq<int>)
    requires Started(job) && Intact(job, w) && w.completion && U.Settled(ObjectJob(job), w.target) && Covers(order, w)
    ensures var e := Exec(Apply, w, ResolvePlan(job.op, order, w, false));
            && (!e.upload <==> !Collides(job) && w.target.final == Some(NewObject(job)))
            && e.target.final == w.target.final
  {
    if w.target.final == Some(NewObject(job)) && !Collides(job) {
      assert ObjectIsNew(job, w);
      CommitSafe(job, w, order);
    } else {
      assert [RemoveCompletion][1..] == [];
      assert Exec(Apply, w, [RemoveCompletion]) == Apply(w, RemoveCompletion);
    }
  }

  /** Which way startup decides while the completion is journalled and the upload is there: it
      commits exactly when the ordinary upload's recovery leaves the new object and the new object
      can be told from the old one by size or time. */
  lemma CommitsExactly(job: Job, w: World, order: seq<int>)
    requires Started(job) && Recoverable(job, w) && Covers(order, w)
    requires w.upload && w.completion && RecoveryPlan(job, order, w).Proceed?
    ensures var e := Exec(Apply, w, RecoveryPlan(job, order, w).steps);
            && (!e.upload <==> !Collides(job) && ObjectArrives(job, w.target))
            && e.target.final == (if ObjectArrives(job, w.target) then Some(NewObject(job)) else job.start.target.final)
  {
    ObjectRecovered(job, w, order);
    var w1 := w.(target := Exec(U.Apply, w.target, U.RecoveryPlan(ObjectJob(job).op, w.target).steps));
    ResolvesExactly(job, w1, order);
    if job.start.target.final == Some(NewObject(job)) {
      assert Collides(job);
    }
  }

  /** After these crashes startup keeps the upload although the object is no longer the old one. */
  predicate KeptButReplaced(job: Job, order: seq<int>, cut: nat, lives: seq<Life<seq<int>>>, last: seq<int>) {
    var w := CompleteAfterCrashes(job, order, cut, lives);
    && (forall life <- lives :: Covers(life.order, job.start))
    && RecoveryPlan(job, last, w).Proceed?
    && var e := Exec(Apply, w, RecoveryPlan(job, last, w).steps);
       e.upload && e.target.final != job.start.target.final
  }

  /** Cut between the ordinary upload and the commit, a completion that collides is kept for a retry. */
  lemma CutBeforeCommit(job: Job, order: seq<int>, last: seq<int>)
    requires Started(job) && Covers(order, job.start) && Covers(last, job.start)
    requires Collides(job) && job.start.target.final != Some(NewObject(job))
    ensures KeptButReplaced(job, order, |BeginPlan(job)|, [], last)
  {
    BeginSafe(job, order);
    var cut := |BeginPlan(job)|;
    assert Cut(CompletePlan(job, order), cut) == BeginPlan(job);
    CommitsExactly(job, Exec(Apply, job.start, BeginPlan(job)), last);
  }

  /** The promise fails on some history exactly when the new object has the old one's size and time
      and is not the old one: then, and only then, an upload can be kept whose object is replaced. */
  lemma ReplacedButKeptExactly(job: Job, order: seq<int>, last: seq<int>)
    requires Started(job) && Covers(order, job.start) && Covers(last, job.start)
    ensures (exists cut: nat, lives: seq<Life<seq<int>>> :: KeptButReplaced(job, order, cut, lives, last))
       <==> Collides(job) && job.start.target.final != Some(NewObject(job))
  {
    forall cut: nat, lives: seq<Life<seq<int>>> | KeptButReplaced(job, order, cut, lives, last)
      ensures Collides(job) && job.start.target.final != Some(NewObject(job))
    {
      CompleteIsAtomic(job, order, cut, lives, last);
    }
    if Collides(job) && job.start.target.final != Some(NewObject(job)) {
      CutBeforeCommit(job, order, last);
    }
  }

  // ------------------------------------------------------- choosing the parts

  const MIN_PART_SIZE := 5 * 1024 * 1024
  const MAX_PARTS := 10000

  datatype SelectError = InvalidPart | InvalidPartOrder | EntityTooSmall | EntityTooLarge

  predicate InRange(r: Requested) {
    1 <= r.number <= MAX_PARTS
  }

  /** Parts are given in strictly increasing order, all exist with the digest the client names,
      all but the last are large enough, and together they are within the object limit. */
  predicate Acceptable(requested: seq<Requested>, stored: map<int, Bytes>, maxObject: int) {
    && 0 < |requested| <= MAX_PARTS
    && (forall i :: 0 <= i < |requested| ==> InRange(requested[i]) && Stored(stored, requested[i]))
    && (forall i, j :: 0 <= i < j < |requested| ==> requested[i].number < requested[j].number)
    && (forall i :: 0 <= i < |requested| - 1 ==> MIN_PART_SIZE <= |requested[i].etag|)
    && (maxObject > 0 ==> |Concat(Etags(requested))| <= maxObject)
  }

  lemma {:induction false} ConcatAppend(a: seq<Bytes>, b: seq<Bytes>)
    ensures Concat(a + b) == Concat(a) + Concat(b)
  {
    if a == [] {
      assert a + b == b;
    } else {
      assert (a + b)[1..] == a[1..] + b;
      ConcatAppend(a[1..], b);
    }
  }

  /** Selecting parts succeeds exactly on acceptable requests and then names their bytes in
      order and their total size. */
  method SelectParts(requested: seq<Requested>, stored: map<int, Bytes>, maxObject: int)
    returns (error: Option<SelectError>, selected: seq<Bytes>, total: nat)
    ensures error.None? <==>
              && 1 <= |requested| <= 10_000
              && (forall i :: 0 <= i < |requested| ==>
                    var r := requested[i]; 1 <= r.number <= 10_000 && r.number in stored && stored[r.number] == r.etag)
              && (forall i, j :: 0 <= i < j < |requested| ==> requested[i].number < requested[j].number)
              && (forall i :: 0 <= i < |requested| - 1 ==> 5 * 1024 * 1024 <= |requested[i].etag|)
              && (maxObject > 0 ==> |Concat(Etags(requested))| <= maxObject)
    ensures error.None? <==> Acceptable(requested, stored, maxObject)
    ensures error.None? ==> selected == Etags(requested) && total == |Concat(selected)|
    ensures error == Some(InvalidPartOrder) ==>
              exists i {:trigger requested[i]} :: 0 < i < |requested| && requested[i - 1].number >= requested[i].number
    ensures error == Some(EntityTooSmall) ==>
              exists i :: 0 <= i < |requested| - 1 && |requested[i].etag| < MIN_PART_SIZE
    ensures error == Some(EntityTooLarge) ==> 0 < maxObject < |Concat(Etags(requested))|
  {
    selected, total := [], 0;
    if |requested| == 0 || |requested| > MAX_PARTS {
      return Some(InvalidPart), [], 0;
    }
    for i := 0 to |requested|
      invariant forall k :: 0 <= k < i ==> InRange(requested[k])
      invariant forall j, k :: 0 <= j < k < i ==> requested[j].number < requested[k].number
    {
      if requested[i].number < 1 || requested[i].number > MAX_PARTS {
        return Some(InvalidPart), [], 0;
      }
      if i > 0 && requested[i - 1].number >= requested[i].number {
        return Some(InvalidPartOrder), [], 0;
      }
    }
    for i := 0 to |requested|
      invariant forall k :: 0 <= k < i ==> Stored(stored, requested[k])
      invariant forall k :: 0 <= k < i && k < |requested| - 1 ==> MIN_PART_SIZE <= |requested[k].etag|
      invariant selected == Etags(requested)[..i]
      invariant total == |Concat(selected)|
    {
      var r := requested[i];
      if r.number !in stored || stored[r.number] != r.etag {
        return Some(InvalidPart), [], 0;
      }
      var part := stored[r.number];
      if i < |requested| - 1 && |part| < MIN_PART_SIZE {
        return Some(EntityTooSmall), [], 0;
      }
      ConcatAppend(selected, [part]);
      assert [part][1..] == [];
      assert Concat([part]) == part + Concat([]) == part;
      total := total + |part|;
      selected := selected + [part];
    }
    assert Etags(requested)[..|requested|] == Etags(requested);
    if maxObject > 0 && total > maxObject {
      return Some(EntityTooLarge), [], 0;
    }
    return None, selected, total;
  }

  // --------------------------------------------------------- reading the parts

  /** What a reader has yet to give: the rest of the open part file, then the files after it. */
  function Unread(parts: seq<Bytes>, index: nat, current: Option<Bytes>): Bytes
    requires index <= |parts| && (current.Some? ==> index < |parts|)
  {
    match current
    case Some(rest) => rest + Concat(parts[index + 1..])
    case None => Concat(parts[index..])
  }

  lemma TurningToAPart(parts: seq<Bytes>, index: nat)
    requires index <= |parts|
    ensures index == |parts| ==> Unread(parts, index, None) == ""
    ensures index < |parts| ==> Unread(parts, index, None) == Unread(parts, index, Some(parts[index]))
    ensures index < |parts| ==> Unread(parts, index, Some("")) == Unread(parts, index + 1, None)
  {
    if index < |parts| {
      assert parts[index..][1..] == parts[index + 1..];
    }
  }

  lemma TakingFromAPart(parts: seq<Bytes>, index: nat, rest: Bytes, n: nat)
    requires index < |parts| && n <= |rest|
    ensures Unread(parts, index, Some(rest)) == rest[..n] + Unread(parts, index, Some(rest[n..]))
  {
    assert rest == rest[..n] + rest[n..];
  }

  /** The body handed to the ordinary upload: the part files, one after another. */
  class SequentialPartReader {
    const parts: seq<Bytes>
    var index: nat
    var current: Option<Bytes>   // what is left of the open part file

    ghost predicate Valid()
      reads this
    {
      index <= |parts| && (current.Some? ==> index < |parts|)
    }

    /** Everything not yet read. */
    ghost function Remaining(): Bytes
      reads this
      requires Valid()
    {
      Unread(parts, index, current)
    }

    constructor (parts: seq<Bytes>)
      ensures Valid() && this.parts == parts && Remaining() == Concat(parts)
    {
      this.parts := parts;
      index := 0;
      current := None;
      new;
      assert parts[0..] == parts;
    }

    /** One Read with a buffer of `size` bytes.  The file under it may give fewer bytes than
        asked for, but gives at least one unless it is at its end. */
    method Read(size: nat) returns (chunk: Bytes, eof: bool)
      requires Valid() && size > 0
      modifies this
      ensures Valid() && |chunk| <= size
      ensures old(Remaining()) == chunk + Remaining()
      ensures eof <==> old(Remaining()) == ""
      ensures !eof ==> chunk != ""
    {
      while true
        invariant Valid()
        invariant Remaining() == old(Remaining())
        decreases |parts| - index, if current.None? then 1 else 0
      {
        TurningToAPart(parts, index);
        if current.None? {
          if index >= |parts| {
            return "", true;
          }
          current := Some(parts[index]);
        }
        var rest := current.value;
        if rest == "" {
          current := None;
          index := index + 1;
        } else {
          var limit := if |rest| < size then |rest| else size;
          var n: nat :| 1 <= n <= limit;
          chunk := rest[..n];
          current := Some(rest[n..]);
          TakingFromAPart(parts, index, rest, n);
          return chunk, false;
        }
      }
    }

    /** Copying the reader to its end delivers the parts in order. */
    method CopyAll(size: nat) returns (body: Bytes)
      requires Valid() && size > 0
      modifies this
      ensures Valid() && body == old(Remaining()) && Remaining() == ""
    {
      body := "";
      var eof := false;
      ghost var whole := Remaining();
      ghost var rest := whole;
      while !eof
        invariant Valid() && rest == Remaining() && body + rest == whole
        invariant eof ==> rest == ""
        decreases |rest|, !eof
      {
        var chunk;
        chunk, eof := Read(size);
        rest := Remaining();
        body := body + chunk;
      }
    }
  }
}
