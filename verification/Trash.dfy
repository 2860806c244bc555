/** Trash, restore, purge (internal/files/trash.go and trash_recovery.go). */
module Trash {
  import opened Crash
  import opened Paths
  import opened TrashRecords
  import opened Wrappers

  // Moving a tree to the trash, restoring it and purging it (internal/files/trash.go and
  // internal/files/trash_recovery.go).
  //
  // The rows of one operation change in a single transaction that stays open while the tree is
  // moved and is committed afterwards, so the entry row is the commit point.  Within one filesystem
  // the tree moves by one rename; across filesystems it is copied node by node, marked ready, and
  // removed node by node.

  datatype Node = Dir | File(bytes: string)

  /** A tree by what follows its root's path; the root itself is the empty path. */
  type Tree = map<string, Node>

  const ROOT := ""

  /** The two places a tree can be: in its source, or as an entry's payload. */
  datatype Side = Home | Payload

  datatype Kind = MoveToTrash | Restore | Purge

  datatype Op = Op(kind: Kind, key: string, sameFilesystem: bool)

  /** `container` is the entry's own directory, which holds the payload. */
  datatype Disk = Disk(
    home: Tree,
    payload: Tree,
    container: bool,
    meta: Metadata,
    journal: bool,
    ready: bool,
    rollbackReady: bool)

  datatype Step =
    | WriteJournal
    | MakeContainer
    | RenameTree(to: Side)
    | CopyNode(to: Side, path: string)
    | MarkReady
    | MarkRollbackReady
    | RemoveNode(side: Side, path: string)
    | RemoveContainer
    | Commit(meta: Metadata)
    | RemoveJournal
    | RemoveReady
    | RemoveRollbackReady

  function Other(side: Side): Side {
    if side.Home? then Payload else Home
  }

  function At(d: Disk, side: Side): Tree {
    if side.Home? then d.home else d.payload
  }

  function With(d: Disk, side: Side, t: Tree): Disk {
    if side.Home? then d.(home := t) else d.(payload := t)
  }

  /** A payload needs its entry's directory. */
  predicate CanHold(d: Disk, side: Side) {
    side.Home? || d.container
  }

  function Apply(d: Disk, step: Step): Disk {
    match step
    case WriteJournal => d.(journal := true)
    case MakeContainer => d.(container := true)
    case RenameTree(to) =>
      if CanHold(d, to) && At(d, to) == map[] then With(With(d, to, At(d, Other(to))), Other(to), map[]) else d
    case CopyNode(to, path) =>
      if CanHold(d, to) && path in At(d, Other(to)) then With(d, to, At(d, to)[path := At(d, Other(to))[path]]) else d
    case MarkReady => d.(ready := true)
    case MarkRollbackReady => d.(rollbackReady := true)
    case RemoveNode(side, path) => With(d, side, At(d, side) - {path})
    case RemoveContainer => d.(container := false)
    case Commit(meta) => d.(meta := meta)
    case RemoveJournal => d.(journal := false)
    case RemoveReady => d.(ready := false)
    case RemoveRollbackReady => d.(rollbackReady := false)
  }

  function Origin(op: Op): Side {
    if op.kind.MoveToTrash? then Home else Payload
  }

  function Destination(op: Op): Side {
    Other(Origin(op))
  }

  predicate HasEntry(op: Op, meta: Metadata) {
    op.key in meta.entries
  }

  /** The entry row decides: present once a move is committed, absent once a restore is. */
  predicate IsCommitted(op: Op, meta: Metadata) {
    HasEntry(op, meta) <==> op.kind.MoveToTrash?
  }

  predicate Exists(d: Disk, side: Side) {
    ROOT in At(d, side)
  }

  // ---------------------------------------------------------------------- plans

  /** The order a tree is copied in and the order it is removed in. */
  datatype Order = Order(copies: seq<string>, removal: seq<string>)

  /** `after` are the rows the operation's transaction commits, or None when it fails. */
  datatype Job = Job(op: Op, start: Disk, after: Option<Metadata>)

  function CopyTree(to: Side, copies: seq<string>): (steps: seq<Step>)
    ensures |steps| == |copies|
  {
    if copies == [] then [] else [CopyNode(to, copies[0])] + CopyTree(to, copies[1..])
  }

  function RemoveTree(side: Side, removal: seq<string>): (steps: seq<Step>)
    ensures |steps| == |removal|
  {
    if removal == [] then [] else [RemoveNode(side, removal[0])] + RemoveTree(side, removal[1..])
  }

  function CopyMarkPlan(to: Side, mark: seq<Step>, copies: seq<string>): seq<Step> {
    CopyTree(to, copies) + mark
  }

  lemma {:induction false} CopyTreeAt(to: Side, copies: seq<string>, i: nat)
    requires i < |copies|
    ensures CopyTree(to, copies)[i] == CopyNode(to, copies[i])
    decreases |copies|
  {
    if i > 0 {
      CopyTreeAt(to, copies[1..], i - 1);
    }
  }

  lemma {:induction false} RemoveTreeAt(side: Side, removal: seq<string>, i: nat)
    requires i < |removal|
    ensures RemoveTree(side, removal)[i] == RemoveNode(side, removal[i])
    decreases |removal|
  {
    if i > 0 {
      RemoveTreeAt(side, removal[1..], i - 1);
    }
  }

  /** A rename, or a copy, an optional marker and a removal. */
  function MoveTree(op: Op, to: Side, mark: seq<Step>, order: Order): seq<Step> {
    if op.sameFilesystem then [RenameTree(to)]
    else CopyMarkPlan(to, mark, order.copies) + RemoveTree(Other(to), order.removal)
  }

  function BeginPlan(): seq<Step> {
    [RemoveReady, RemoveRollbackReady, WriteJournal]
  }

  function DropPlan(): seq<Step> {
    [RemoveJournal, RemoveReady, RemoveRollbackReady]
  }

  /** Up to the commit, with the transaction open. */
  function BeginMovePlan(op: Op, order: Order): seq<Step> {
    BeginPlan() + When(op.kind.MoveToTrash?, MakeContainer) + MoveTree(op, Destination(op), [MarkReady], order)
  }

  /** What follows the move of the tree. */
  function CommitPlan(op: Op, after: Metadata): seq<Step> {
    [Commit(after)] + When(op.kind.Restore?, RemoveContainer) + DropPlan()
  }

  function PurgePlan(order: Order): seq<Step> {
    RemoveTree(Payload, order.removal) + [RemoveContainer]
  }

  function ForwardPlan(job: Job, order: Order): seq<Step> {
    var op := job.op;
    if job.after.None? then BeginPlan() + DropPlan()
    else if op.kind.Purge? then BeginPlan() + PurgePlan(order) + ([Commit(job.after.value)] + DropPlan())
    else
      BeginMovePlan(op, order) + CommitPlan(op, job.after.value)
  }

  /** The destination is the complete one: clear the origin and move the tree back. */
  function TakeBackPlan(op: Op, order: Order): seq<Step> {
    RemoveTree(Origin(op), order.removal) + MoveTree(op, Origin(op), [MarkRollbackReady], order)
  }

  /** The part of recovery that undoes an uncommitted move or restore. */
  function RollbackPlan(op: Op, order: Order, d: Disk): Decision<Step> {
    var tidy := When(op.kind.MoveToTrash?, RemoveContainer);
    var origin, destination := Origin(op), Destination(op);
    if Exists(d, destination) && !Exists(d, origin) then
      Proceed(When(op.kind.Restore?, MakeContainer) + MoveTree(op, origin, [], order) + tidy)
    else if Exists(d, destination) && Exists(d, origin) then
      if d.rollbackReady || !d.ready then Proceed(RemoveTree(destination, order.removal) + tidy)
      else Proceed(TakeBackPlan(op, order) + tidy)
    else if Exists(d, origin) then Proceed(tidy)
    else Refuse
  }

  /** The part of recovery that completes a committed move or restore. */
  function FinishPlan(op: Op, order: Order, d: Disk): Decision<Step> {
    var tidy := When(op.kind.Restore?, RemoveContainer);
    var origin, destination := Origin(op), Destination(op);
    if Exists(d, destination) && !Exists(d, origin) then Proceed(tidy)
    else if !Exists(d, destination) && Exists(d, origin) then
      Proceed(When(op.kind.MoveToTrash?, MakeContainer) + MoveTree(op, destination, [], order) + tidy)
    else if Exists(d, destination) && Exists(d, origin) && op.kind.Restore? then
      Proceed(RemoveTree(origin, order.removal) + tidy)
    else Refuse
  }

  function ResolvePlan(op: Op, order: Order, d: Disk): Decision<Step> {
    if op.kind.Purge? then
      Proceed(PurgePlan(order) + When(HasEntry(op, d.meta), Commit(Purged(d.meta, op.key))))
    else if IsCommitted(op, d.meta) then FinishPlan(op, order, d)
    else RollbackPlan(op, order, d)
  }

  function OrphanPlan(d: Disk): seq<Step> {
    When(d.ready, RemoveReady) + When(d.rollbackReady, RemoveRollbackReady)
  }

  /** What RecoverTrashOperations decides from durable state. */
  function RecoveryPlan(op: Op, order: Order, d: Disk): Decision<Step> {
    if !d.journal then Proceed(OrphanPlan(d))
    else match ResolvePlan(op, order, d)
      case Refuse => Refuse
      case Proceed(steps) => Proceed(steps + DropPlan())
  }

  // ---------------------------------------------------- recovery on any disk

  /** When recovery refuses, whatever it finds: when there is no tree, or when a committed move to the
      trash has one in both places. */
  lemma RefusesExactly(op: Op, order: Order, d: Disk)
    ensures RecoveryPlan(op, order, d).Refuse? <==>
            && d.journal && !op.kind.Purge?
            && (if ROOT in d.home then ROOT in d.payload && op.kind.MoveToTrash? && op.key in d.meta.entries
                else ROOT !in d.payload)
  {
  }

  lemma DropEffect(d: Disk)
    ensures Exec(Apply, d, DropPlan()) == d.(journal := false, ready := false, rollbackReady := false)
  {
  }

  lemma TidyEffect(d: Disk, removes: bool)
    ensures Exec(Apply, d, When(removes, RemoveContainer)) == d.(container := d.container && !removes)
  {
    assert [RemoveContainer][1..] == [];
  }

  lemma EndsTidy(d: Disk, steps: seq<Step>, removes: bool)
    ensures Exec(Apply, d, steps + When(removes, RemoveContainer) + DropPlan()) == Tidied(Exec(Apply, d, steps), removes)
  {
    var mid := Exec(Apply, d, steps);
    ExecAppend(Apply, d, steps, When(removes, RemoveContainer));
    ExecAppend(Apply, d, steps + When(removes, RemoveContainer), DropPlan());
    TidyEffect(mid, removes);
    DropEffect(Exec(Apply, mid, When(removes, RemoveContainer)));
  }

  /** The end of a recovery. */
  function Tidied(d: Disk, removes: bool): Disk {
    d.(journal := false, ready := false, rollbackReady := false, container := d.container && !removes)
  }

  /** A recovery that runs to its end leaves neither journal nor marker, whatever it found, and no
      entry's directory where it undid a move to the trash or completed a restore. */
  lemma RecoveryTidies(op: Op, order: Order, d: Disk)
    requires d.journal && !op.kind.Purge? && RecoveryPlan(op, order, d).Proceed?
    ensures var e := Exec(Apply, d, RecoveryPlan(op, order, d).steps);
            !e.journal && !e.ready && !e.rollbackReady && (op.key !in d.meta.entries ==> !e.container)
  {
    var first := ResolveEndsTidy(op, order, d);
    EndsTidy(d, first, op.key !in d.meta.entries);
  }

  lemma ResolveEndsTidy(op: Op, order: Order, d: Disk) returns (first: seq<Step>)
    requires !op.kind.Purge? && ResolvePlan(op, order, d).Proceed?
    ensures ResolvePlan(op, order, d).steps == first + When(op.key !in d.meta.entries, RemoveContainer)
  {
    var steps, tidy := ResolvePlan(op, order, d).steps, When(op.key !in d.meta.entries, RemoveContainer);
    first := steps[..|steps| - |tidy|];
    assert steps == first + tidy;
  }

  /** Whatever comes of it, an operation begins by removing stale markers and writing its journal. */
  lemma JournalFirst(job: Job, order: Order)
    ensures |ForwardPlan(job, order)| >= 3
    ensures Exec(Apply, job.start, ForwardPlan(job, order)[..3]) == job.start.(ready := false, rollbackReady := false, journal := true)
  {
    var s, p := job.start, ForwardPlan(job, order)[..3];
    assert p == [RemoveReady, RemoveRollbackReady, WriteJournal];
    assert p[1..] == [RemoveRollbackReady, WriteJournal] && p[1..][1..] == [WriteJournal] && p[1..][1..][1..] == [];
    assert Exec(Apply, s, p) == Exec(Apply, Apply(s, RemoveReady), p[1..]);
  }

  /** No step puts anything into a payload without its entry's directory. */
  lemma PayloadNeedsContainer(d: Disk, step: Step)
    requires !d.container
    ensures Apply(d, step).payload.Keys <= d.payload.Keys
  {
  }

  // ------------------------------------------------------------------ invariant

  function Whole(job: Job): Tree {
    At(job.start, Origin(job.op))
  }

  /** Some nodes of the tree, each as it was. */
  predicate PartOf(t: Tree, whole: Tree) {
    forall p <- t :: p in whole && t[p] == whole[p]
  }

  /** Some nodes of the tree, never without the root. */
  predicate Partial(whole: Tree, t: Tree) {
    PartOf(t, whole) && (t != map[] ==> ROOT in t)
  }

  /** One complete tree, in its place before the operation; stale markers do no harm. */
  predicate Started(job: Job) {
    var op, s := job.op, job.start;
    && !s.journal && ROOT in Whole(job) && At(s, Destination(op)) == map[]
    && (s.container <==> s.payload != map[])
    && !IsCommittedOrPurged(op, s.meta)
    && (job.after.None? ==> op.kind.Restore?)
    && (job.after.Some? ==> IsCommittedOrPurged(op, job.after.value))
    && (op.kind.Purge? ==> job.after == Some(Purged(s.meta, op.key)))
  }

  predicate IsCommittedOrPurged(op: Op, meta: Metadata) {
    if op.kind.Purge? then !HasEntry(op, meta) else IsCommitted(op, meta)
  }

  /** The tree is complete where it was, and recovery will clear the other place. */
  predicate Held(job: Job, d: Disk) {
    var op := job.op;
    && At(d, Origin(op)) == Whole(job) && Partial(Whole(job), At(d, Destination(op)))
    && (At(d, Destination(op)) == map[] || !d.ready || d.rollbackReady)
  }

  /** The tree is complete where it is going, and recovery will move it back from there. */
  predicate Moved(job: Job, d: Disk) {
    var op := job.op;
    && At(d, Destination(op)) == Whole(job) && Partial(Whole(job), At(d, Origin(op)))
    && ((op.sameFilesystem && At(d, Origin(op)) == map[]) || (d.ready && !d.rollbackReady))
  }

  predicate AtOrigin(job: Job, d: Disk) {
    var op := job.op;
    At(d, Origin(op)) == Whole(job) && At(d, Destination(op)) == map[] && d.meta == job.start.meta
  }

  predicate AtDestination(job: Job, d: Disk) {
    var op := job.op;
    At(d, Origin(op)) == map[] && At(d, Destination(op)) == Whole(job) && job.after == Some(d.meta)
  }

  predicate ContainerFits(job: Job, d: Disk) {
    && (d.payload != map[] ==> d.container)
    && (job.op.kind.Restore? && d.meta == job.start.meta ==> d.container)
    && (!d.journal ==> (d.container <==> d.payload != map[]))
  }

  predicate MoveRecoverable(job: Job, d: Disk) {
    && ContainerFits(job, d)
    && (AtOrigin(job, d) || AtDestination(job, d) ||
        (d.journal && d.meta == job.start.meta && (Held(job, d) || Moved(job, d))))
  }

  predicate Gone(job: Job, d: Disk) {
    d.payload == map[] && !d.container && d.home == job.start.home && job.after == Some(d.meta)
  }

  predicate PurgeRecoverable(job: Job, d: Disk) {
    && d.home == job.start.home && Partial(Whole(job), d.payload) && (d.payload != map[] ==> d.container)
    && (Gone(job, d) || (d.meta == job.start.meta && (d.journal || (d.payload == Whole(job) && d.container))))
  }

  predicate Recoverable(job: Job, d: Disk) {
    if job.op.kind.Purge? then PurgeRecoverable(job, d) else MoveRecoverable(job, d)
  }

  /** Nothing of the operation is left: the tree is in exactly one place, the payload if and only
      if the entry row survives.  A purge leaves neither. */
  predicate Settled(job: Job, d: Disk) {
    && !d.journal && !d.ready && !d.rollbackReady
    && (d.container <==> d.payload != map[])
    && (d.payload != map[] <==> HasEntry(job.op, d.meta))
    && (if job.op.kind.Purge? then Gone(job, d) || AtOrigin(job, d) else AtOrigin(job, d) || AtDestination(job, d))
  }

  predicate RootLast(removal: seq<string>) {
    removal != [] && removal[|removal| - 1] == ROOT && ROOT !in removal[..|removal| - 1]
  }

  predicate NoDuplicates(s: seq<string>) {
    forall i, j :: 0 <= i < j < |s| ==> s[i] != s[j]
  }

  /** A directory is made before what it holds and removed after it. */
  predicate ValidOrder(job: Job, order: Order) {
    && order.copies != [] && order.copies[0] == ROOT && (forall p <- Whole(job) :: p in order.copies)
    && RootLast(order.removal) && NoDuplicates(order.removal)
    && (forall p <- order.removal :: p in Whole(job)) && (forall p <- Whole(job) :: p in order.removal)
  }

  // -------------------------------------------------------- what loops come to

  lemma CopyOne(d: Disk, to: Side, path: string)
    requires CanHold(d, to) && PartOf(At(d, to), At(d, Other(to)))
    ensures var e := Apply(d, CopyNode(to, path)); var from := At(d, Other(to));
            && e == With(d, to, At(e, to)) && CanHold(e, to) && At(e, Other(to)) == from
            && At(e, to).Keys == At(d, to).Keys + ({path} * from.Keys)
            && PartOf(At(e, to), from)
  {
  }

  lemma WithAgain(d: Disk, side: Side, t: Tree, u: Tree)
    ensures With(With(d, side, t), side, u) == With(d, side, u) && At(With(d, side, t), side) == t
    ensures At(With(d, side, t), Other(side)) == At(d, Other(side)) && With(d, side, At(d, side)) == d
  {
  }

  function Among(copies: seq<string>, whole: Tree): set<string> {
    set p | p in copies && p in whole
  }

  /** The nodes that were copied, on top of what was there. */
  lemma {:induction false} CopyEffect(d: Disk, to: Side, copies: seq<string>)
    requires CanHold(d, to) && PartOf(At(d, to), At(d, Other(to)))
    ensures var e := Exec(Apply, d, CopyTree(to, copies)); var from := At(d, Other(to));
            && e == With(d, to, At(e, to))
            && At(e, to).Keys == At(d, to).Keys + Among(copies, from)
            && PartOf(At(e, to), from)
    decreases |copies|
  {
    var steps, from := CopyTree(to, copies), At(d, Other(to));
    WithAgain(d, to, map[], map[]);
    if copies != [] {
      assert steps[1..] == CopyTree(to, copies[1..]);
      assert Among(copies, from) == ({copies[0]} * from.Keys) + Among(copies[1..], from);
      CopyOne(d, to, copies[0]);
      var next := Apply(d, steps[0]);
      CopyEffect(next, to, copies[1..]);
      WithAgain(d, to, At(next, to), At(Exec(Apply, next, steps[1..]), to));
    }
  }

  function Without(t: Tree, gone: seq<string>): Tree {
    t - set p | p in gone
  }

  lemma {:induction false} RemoveEffect(d: Disk, side: Side, removal: seq<string>)
    ensures Exec(Apply, d, RemoveTree(side, removal)) == With(d, side, Without(At(d, side), removal))
    decreases |removal|
  {
    var steps := RemoveTree(side, removal);
    if removal == [] {
      assert Without(At(d, side), removal) == At(d, side);
    } else {
      assert steps[1..] == RemoveTree(side, removal[1..]);
      RemoveEffect(Apply(d, steps[0]), side, removal[1..]);
      assert Without(At(d, side), removal) == Without(At(d, side) - {removal[0]}, removal[1..]);
    }
  }

  lemma CopyAllEffect(d: Disk, to: Side, copies: seq<string>)
    requires CanHold(d, to) && PartOf(At(d, to), At(d, Other(to)))
    requires forall p <- At(d, Other(to)) :: p in copies
    ensures Exec(Apply, d, CopyTree(to, copies)) == With(d, to, At(d, Other(to)))
  {
    CopyEffect(d, to, copies);
    var e := Exec(Apply, d, CopyTree(to, copies));
    assert At(e, to).Keys == At(d, Other(to)).Keys;
    assert At(e, to) == At(d, Other(to));
  }

  lemma RemoveAllEffect(d: Disk, side: Side, removal: seq<string>)
    requires forall p <- At(d, side) :: p in removal
    ensures Exec(Apply, d, RemoveTree(side, removal)) == With(d, side, map[])
  {
    RemoveEffect(d, side, removal);
    assert Without(At(d, side), removal) == map[];
  }

  function Marked(d: Disk, mark: seq<Step>): Disk {
    Exec(Apply, d, mark)
  }

  predicate ValidMark(mark: seq<Step>) {
    mark == [] || mark == [MarkReady] || mark == [MarkRollbackReady]
  }

  lemma MarkedKeeps(d: Disk, mark: seq<Step>)
    requires ValidMark(mark)
    ensures Marked(d, mark) == if mark == [] then d else Apply(d, mark[0])
    ensures Marked(d, mark).home == d.home && Marked(d, mark).payload == d.payload
  {
    if mark != [] {
      assert mark[1..] == [];
      assert Exec(Apply, Apply(d, mark[0]), mark[1..]) == Apply(d, mark[0]);
    }
  }

  lemma CopyMarkRemoveEffect(d: Disk, to: Side, mark: seq<Step>, order: Order)
    requires CanHold(d, to) && At(d, to) == map[] && ValidMark(mark)
    requires forall p <- At(d, Other(to)) :: p in order.copies && p in order.removal
    ensures Exec(Apply, d, CopyMarkPlan(to, mark, order.copies) + RemoveTree(Other(to), order.removal))
         == With(With(Marked(d, mark), to, At(d, Other(to))), Other(to), map[])
  {
    CopyAllEffect(d, to, order.copies);
    var copied := With(d, to, At(d, Other(to)));
    ExecAppend(Apply, d, CopyTree(to, order.copies), mark);
    MarkedKeeps(d, mark);
    MarkedKeeps(copied, mark);
    var marked := Marked(copied, mark);
    assert marked == With(Marked(d, mark), to, At(d, Other(to)));
    RemoveAllEffect(marked, Other(to), order.removal);
    ExecAppend(Apply, d, CopyMarkPlan(to, mark, order.copies), RemoveTree(Other(to), order.removal));
  }

  /** A tree is moved whole: what was at one place is at the other, and nothing stays behind. */
  lemma MoveTreeEffect(op: Op, d: Disk, to: Side, mark: seq<Step>, order: Order)
    requires CanHold(d, to) && At(d, to) == map[] && ValidMark(mark)
    requires forall p <- At(d, Other(to)) :: p in order.copies && p in order.removal
    ensures var marked := if op.sameFilesystem then d else Marked(d, mark);
            Exec(Apply, d, MoveTree(op, to, mark, order)) == With(With(marked, to, At(d, Other(to))), Other(to), map[])
  {
    if op.sameFilesystem {
      assert [RenameTree(to)][1..] == [];
    } else {
      CopyMarkRemoveEffect(d, to, mark, order);
    }
  }

  /** A committed operation whose tree is found where it began is carried on. */
  lemma CommittedMovesOn(op: Op, order: Order, d: Disk)
    requires d.journal && !op.kind.Purge? && IsCommitted(op, d.meta)
    requires ROOT in At(d, Origin(op)) && At(d, Destination(op)) == map[]
    requires forall p <- At(d, Origin(op)) :: p in order.copies && p in order.removal
    ensures RecoveryPlan(op, order, d).Proceed?
    ensures var e := Exec(Apply, d, RecoveryPlan(op, order, d).steps);
            && (if op.kind.MoveToTrash? then e.payload == d.home && e.home == map[] else e.home == d.payload && e.payload == map[])
            && e.container == op.kind.MoveToTrash? && e.meta == d.meta && !e.journal
  {
    var make, move := When(op.kind.MoveToTrash?, MakeContainer), MoveTree(op, Destination(op), [], order);
    var tidy := When(op.kind.Restore?, RemoveContainer);
    var made := Exec(Apply, d, make);
    assert [MakeContainer][1..] == [];
    assert made == if op.kind.MoveToTrash? then d.(container := true) else d;
    MoveTreeEffect(op, made, Destination(op), [], order);
    ExecAppend(Apply, d, make, move);
    EndsTidy(d, make + move, op.kind.Restore?);
    assert RecoveryPlan(op, order, d) == Proceed(make + move + tidy + DropPlan());
  }

  // ------------------------------------------------------------- loops are safe

  /** Whatever part of the tree is at `side`, the state is recoverable. */
  ghost predicate Free(job: Job, d: Disk, side: Side) {
    forall t: Tree {:trigger With(d, side, t)} :: Partial(Whole(job), t) ==> Recoverable(job, With(d, side, t))
  }

  lemma FreeAgain(job: Job, d: Disk, side: Side, t: Tree)
    requires Free(job, d, side)
    ensures Free(job, With(d, side, t), side)
  {
    forall u: Tree | Partial(Whole(job), u) ensures Recoverable(job, With(With(d, side, t), side, u)) {
      assert With(With(d, side, t), side, u) == With(d, side, u);
    }
  }

  lemma CopyOneKeeps(job: Job, d: Disk, to: Side, path: string)
    requires Free(job, d, to) && Partial(Whole(job), At(d, to)) && At(d, Other(to)) == Whole(job)
    requires CanHold(d, to) && (path == ROOT || ROOT in At(d, to)) && ROOT in Whole(job)
    ensures var next := Apply(d, CopyNode(to, path));
            && Free(job, next, to) && Partial(Whole(job), At(next, to)) && At(next, Other(to)) == Whole(job)
            && CanHold(next, to) && ROOT in At(next, to)
  {
    CopyOne(d, to, path);
    var next := Apply(d, CopyNode(to, path));
    FreeAgain(job, d, to, At(next, to));
  }

  lemma {:induction false} CopySafe(job: Job, d: Disk, to: Side, copies: seq<string>)
    requires Free(job, d, to) && Partial(Whole(job), At(d, to)) && At(d, Other(to)) == Whole(job)
    requires CanHold(d, to) && ROOT in Whole(job)
    requires copies != [] ==> copies[0] == ROOT || ROOT in At(d, to)
    ensures Safe(Apply, Recoverable, job, d, CopyTree(to, copies))
    decreases |copies|
  {
    assert With(d, to, At(d, to)) == d;
    var steps := CopyTree(to, copies);
    if copies != [] {
      var next := Apply(d, steps[0]);
      CopyOneKeeps(job, d, to, copies[0]);
      CopySafe(job, next, to, copies[1..]);
      assert steps[1..] == CopyTree(to, copies[1..]);
    }
  }

  lemma {:induction false} RemoveSafe(job: Job, d: Disk, side: Side, removal: seq<string>)
    requires Free(job, d, side) && Partial(Whole(job), At(d, side)) && RootLast(removal)
    requires forall p <- At(d, side) :: p in removal
    ensures Safe(Apply, Recoverable, job, d, RemoveTree(side, removal))
    decreases |removal|
  {
    assert With(d, side, At(d, side)) == d;
    var steps := RemoveTree(side, removal);
    var next := Apply(d, steps[0]);
    var rest := At(d, side) - {removal[0]};
    assert next == With(d, side, rest);
    assert Partial(Whole(job), rest);
    FreeAgain(job, d, side, rest);
    if |removal| == 1 {
      assert steps[1..] == [];
    } else {
      assert removal[1..][..|removal| - 2] == removal[..|removal| - 1][1..];
      RemoveSafe(job, next, side, removal[1..]);
      assert steps[1..] == RemoveTree(side, removal[1..]);
    }
  }

  lemma FreeWhileHeld(job: Job, d: Disk)
    requires Started(job) && !job.op.kind.Purge? && d.journal && d.meta == job.start.meta && d.container
    requires At(d, Origin(job.op)) == Whole(job) && (!d.ready || d.rollbackReady)
    ensures Free(job, d, Destination(job.op))
  {
  }

  lemma FreeWhileMoved(job: Job, d: Disk)
    requires Started(job) && !job.op.kind.Purge? && d.journal && d.meta == job.start.meta && d.container
    requires At(d, Destination(job.op)) == Whole(job) && d.ready && !d.rollbackReady
    ensures Free(job, d, Origin(job.op))
  {
  }

  lemma OneStepSafe(job: Job, d: Disk, step: Step)
    requires Recoverable(job, d) && Recoverable(job, Apply(d, step))
    ensures Safe(Apply, Recoverable, job, d, [step])
    ensures Exec(Apply, d, [step]) == Apply(d, step)
  {
    var p0: seq<Step> := [];
    SafeWhen(Apply, Recoverable, job, d, p0, true, step);
    assert p0 + When(true, step) == [step];
  }

  /** Copying the whole tree, marking, and removing the first copy: safe if any part of the tree is
      harmless at the target before the mark, and at the source after it. */
  lemma CopyMarkRemoveSafe(job: Job, d: Disk, to: Side, mark: Step, order: Order)
    requires ValidOrder(job, order) && ValidMark([mark]) && ROOT in Whole(job)
    requires CanHold(d, to) && At(d, to) == map[] && At(d, Other(to)) == Whole(job)
    requires Free(job, d, to) && Free(job, Apply(With(d, to, Whole(job)), mark), Other(to))
    ensures Safe(Apply, Recoverable, job, d,
                 CopyMarkPlan(to, [mark], order.copies) + RemoveTree(Other(to), order.removal))
  {
    var copy, remove := CopyTree(to, order.copies), RemoveTree(Other(to), order.removal);
    CopySafe(job, d, to, order.copies);
    CopyAllEffect(d, to, order.copies);
    var copied := With(d, to, Whole(job));
    var marked := Apply(copied, mark);
    MarkedKeeps(copied, [mark]);
    assert With(marked, Other(to), Whole(job)) == marked;
    OneStepSafe(job, copied, mark);
    SafeAppend(Apply, Recoverable, job, d, copy, [mark]);
    ExecAppend(Apply, d, copy, [mark]);
    RemoveSafe(job, marked, Other(to), order.removal);
    SafeAppend(Apply, Recoverable, job, d, copy + [mark], remove);
  }

  /** What a move of the whole tree leaves, if it began at the other side. */
  lemma WholeTreeMoves(job: Job, d: Disk, to: Side, mark: Step, order: Order)
    requires ValidOrder(job, order) && ValidMark([mark])
    requires CanHold(d, to) && At(d, to) == map[] && At(d, Other(to)) == Whole(job)
    ensures Exec(Apply, d, MoveTree(job.op, to, [mark], order)) ==
            With(With(if job.op.sameFilesystem then d else Apply(d, mark), to, Whole(job)), Other(to), map[])
  {
    MoveTreeEffect(job.op, d, to, [mark], order);
    MarkedKeeps(d, [mark]);
  }

  lemma RenameSafe(job: Job, d: Disk, to: Side)
    requires Started(job) && !job.op.kind.Purge? && job.op.sameFilesystem && Recoverable(job, d)
    requires d.journal && d.meta == job.start.meta && d.container
    requires At(d, to) == map[] && At(d, Other(to)) == Whole(job)
    ensures Safe(Apply, Recoverable, job, d, [RenameTree(to)])
  {
    var e := Apply(d, RenameTree(to));
    assert e == With(With(d, to, Whole(job)), Other(to), map[]);
    if to == Destination(job.op) {
      assert Moved(job, e);
    } else {
      assert AtOrigin(job, e);
    }
    OneStepSafe(job, d, RenameTree(to));
  }

  lemma CopyForwardSafe(job: Job, d: Disk, order: Order)
    requires Started(job) && !job.op.kind.Purge? && ValidOrder(job, order)
    requires d.journal && AtOrigin(job, d) && d.container && !d.ready && !d.rollbackReady
    ensures var to := Destination(job.op);
            Safe(Apply, Recoverable, job, d, CopyMarkPlan(to, [MarkReady], order.copies) + RemoveTree(Other(to), order.removal))
  {
    var to := Destination(job.op);
    var marked := Apply(With(d, to, Whole(job)), MarkReady);
    assert At(marked, to) == Whole(job) && At(d, Other(to)) == Whole(job) && At(d, to) == map[];
    FreeWhileHeld(job, d);
    FreeWhileMoved(job, marked);
    CopyMarkRemoveSafe(job, d, to, MarkReady, order);
  }

  lemma CopyBackwardSafe(job: Job, d: Disk, order: Order)
    requires Started(job) && !job.op.kind.Purge? && ValidOrder(job, order)
    requires d.journal && d.meta == job.start.meta && d.container && d.ready && !d.rollbackReady
    requires At(d, Origin(job.op)) == map[] && At(d, Destination(job.op)) == Whole(job)
    ensures var to := Origin(job.op);
            Safe(Apply, Recoverable, job, d, CopyMarkPlan(to, [MarkRollbackReady], order.copies) + RemoveTree(Other(to), order.removal))
  {
    var to := Origin(job.op);
    var marked := Apply(With(d, to, Whole(job)), MarkRollbackReady);
    assert At(marked, to) == Whole(job);
    FreeWhileMoved(job, d);
    FreeWhileHeld(job, marked);
    CopyMarkRemoveSafe(job, d, to, MarkRollbackReady, order);
  }

  lemma MoveForwardSafe(job: Job, d: Disk, order: Order)
    requires Started(job) && !job.op.kind.Purge? && ValidOrder(job, order) && Recoverable(job, d)
    requires d.journal && AtOrigin(job, d) && d.container && !d.ready && !d.rollbackReady
    ensures Safe(Apply, Recoverable, job, d, MoveTree(job.op, Destination(job.op), [MarkReady], order))
  {
    if job.op.sameFilesystem {
      RenameSafe(job, d, Destination(job.op));
    } else {
      CopyForwardSafe(job, d, order);
    }
  }

  lemma MoveBackSafe(job: Job, d: Disk, order: Order)
    requires Started(job) && !job.op.kind.Purge? && ValidOrder(job, order) && Recoverable(job, d)
    requires d.journal && d.meta == job.start.meta && d.container && d.ready && !d.rollbackReady
    requires At(d, Origin(job.op)) == map[] && At(d, Destination(job.op)) == Whole(job)
    ensures Safe(Apply, Recoverable, job, d, MoveTree(job.op, Origin(job.op), [MarkRollbackReady], order))
  {
    if job.op.sameFilesystem {
      RenameSafe(job, d, Origin(job.op));
    } else {
      CopyBackwardSafe(job, d, order);
    }
  }

  // -------------------------------------------------------------- whole plans

  lemma Associate<T>(steps: seq<T>, tidy: seq<T>, drop: seq<T>)
    ensures steps + tidy + drop == steps + (tidy + drop)
  {
  }

  predicate Finished(job: Job, d: Disk) {
    && Recoverable(job, d) && (d.container <==> d.payload != map[])
    && (if job.op.kind.Purge? then Gone(job, d) || AtOrigin(job, d) else AtOrigin(job, d) || AtDestination(job, d))
  }

  /** Where the operation is finished, markers no longer matter and the journal may go. */
  lemma MarkersDoNotMatter(job: Job, d: Disk, ready: bool, rollbackReady: bool)
    requires Started(job) && Finished(job, d)
    ensures Recoverable(job, d.(journal := false, ready := ready, rollbackReady := rollbackReady))
  {
  }

  lemma FinishedIsSettled(job: Job, d: Disk)
    requires Started(job) && Finished(job, d)
    ensures Settled(job, d.(journal := false, ready := false, rollbackReady := false))
  {
  }

  /** Clearing the journal and the markers once the tree is where it belongs. */
  lemma DropSafe(job: Job, d: Disk)
    requires Started(job) && Finished(job, d)
    ensures Safe(Apply, Recoverable, job, d, DropPlan())
    ensures Exec(Apply, d, DropPlan()) == d.(journal := false, ready := false, rollbackReady := false)
    ensures Settled(job, Exec(Apply, d, DropPlan()))
  {
    FinishedIsSettled(job, d);
    MarkersDoNotMatter(job, d, d.ready, d.rollbackReady);
    MarkersDoNotMatter(job, d, false, d.rollbackReady);
    MarkersDoNotMatter(job, d, false, false);
    var p0: seq<Step> := [];
    SafeWhen(Apply, Recoverable, job, d, p0, true, RemoveJournal);
    var p1 := p0 + When(true, RemoveJournal);
    SafeWhen(Apply, Recoverable, job, d, p1, true, RemoveReady);
    var p2 := p1 + When(true, RemoveReady);
    SafeWhen(Apply, Recoverable, job, d, p2, true, RemoveRollbackReady);
    assert p2 + When(true, RemoveRollbackReady) == DropPlan();
  }

  lemma BeginSafe(job: Job)
    requires Started(job)
    ensures Safe(Apply, Recoverable, job, job.start, BeginPlan())
    ensures Exec(Apply, job.start, BeginPlan()) == job.start.(journal := true, ready := false, rollbackReady := false)
  {
    var d := job.start;
    var p0: seq<Step> := [];
    SafeWhen(Apply, Recoverable, job, d, p0, true, RemoveReady);
    var p1 := p0 + When(true, RemoveReady);
    SafeWhen(Apply, Recoverable, job, d, p1, true, RemoveRollbackReady);
    var p2 := p1 + When(true, RemoveRollbackReady);
    SafeWhen(Apply, Recoverable, job, d, p2, true, WriteJournal);
    assert p2 + When(true, WriteJournal) == BeginPlan();
  }

  /** One optional step and then the journal. */
  lemma TidySafe(job: Job, d: Disk, tidy: bool)
    requires Started(job) && Recoverable(job, d)
    requires Finished(job, if tidy then Apply(d, RemoveContainer) else d)
    ensures var plan := When(tidy, RemoveContainer) + DropPlan(); var e := Exec(Apply, d, plan);
            && Safe(Apply, Recoverable, job, d, plan) && Settled(job, e)
            && e == (if tidy then d.(container := false) else d).(journal := false, ready := false, rollbackReady := false)
  {
    var p0: seq<Step> := [];
    SafeWhen(Apply, Recoverable, job, d, p0, tidy, RemoveContainer);
    assert p0 + When(tidy, RemoveContainer) == When(tidy, RemoveContainer);
    var e := Exec(Apply, d, When(tidy, RemoveContainer));
    DropSafe(job, e);
    SafeAppend(Apply, Recoverable, job, d, When(tidy, RemoveContainer), DropPlan());
    ExecAppend(Apply, d, When(tidy, RemoveContainer), DropPlan());
  }

  /** The move is over; the transaction commits. */
  lemma CommitSafe(job: Job, d: Disk)
    requires Started(job) && !job.op.kind.Purge? && job.after.Some? && Recoverable(job, d) && d.journal
    requires At(d, Origin(job.op)) == map[] && At(d, Destination(job.op)) == Whole(job) && d.meta == job.start.meta
    ensures var plan := CommitPlan(job.op, job.after.value); var e := Exec(Apply, d, plan);
            Safe(Apply, Recoverable, job, d, plan) && Settled(job, e) && AtDestination(job, e)
  {
    var commit := [Commit(job.after.value)];
    var e := Apply(d, Commit(job.after.value));
    OneStepSafe(job, d, Commit(job.after.value));
    TidySafe(job, e, job.op.kind.Restore?);
    var rest := When(job.op.kind.Restore?, RemoveContainer) + DropPlan();
    SafeAppend(Apply, Recoverable, job, d, commit, rest);
    ExecAppend(Apply, d, commit, rest);
    assert commit + rest == CommitPlan(job.op, job.after.value);
  }

  lemma ReadyToMove(job: Job)
    requires Started(job) && !job.op.kind.Purge?
    ensures var plan := BeginPlan() + When(job.op.kind.MoveToTrash?, MakeContainer);
            var e := job.start.(journal := true, ready := false, rollbackReady := false, container := true);
            && Safe(Apply, Recoverable, job, job.start, plan) && Exec(Apply, job.start, plan) == e
            && Recoverable(job, e) && AtOrigin(job, e)
  {
    BeginSafe(job);
    SafeWhen(Apply, Recoverable, job, job.start, BeginPlan(), job.op.kind.MoveToTrash?, MakeContainer);
    SafeEnds(Apply, Recoverable, job, job.start, BeginPlan() + When(job.op.kind.MoveToTrash?, MakeContainer));
  }

  lemma MoveOnward(job: Job, d: Disk, order: Order)
    requires Started(job) && ValidOrder(job, order) && !job.op.kind.Purge? && Recoverable(job, d)
    requires d.journal && AtOrigin(job, d) && d.container && !d.ready && !d.rollbackReady
    ensures var op := job.op; var move := MoveTree(op, Destination(op), [MarkReady], order); var e := Exec(Apply, d, move);
            && Safe(Apply, Recoverable, job, d, move) && e.journal && e.meta == job.start.meta
            && At(e, Origin(op)) == map[] && At(e, Destination(op)) == Whole(job)
  {
    MoveForwardSafe(job, d, order);
    WholeTreeMoves(job, d, Destination(job.op), MarkReady, order);
  }

  lemma BeginMoveSafe(job: Job, order: Order)
    requires Started(job) && ValidOrder(job, order) && !job.op.kind.Purge?
    ensures var op, plan := job.op, BeginMovePlan(job.op, order); var e := Exec(Apply, job.start, plan);
            && Safe(Apply, Recoverable, job, job.start, plan) && e.journal && e.meta == job.start.meta
            && At(e, Origin(op)) == map[] && At(e, Destination(op)) == Whole(job)
  {
    var op := job.op;
    var begin, move := BeginPlan() + When(op.kind.MoveToTrash?, MakeContainer), MoveTree(op, Destination(op), [MarkReady], order);
    ReadyToMove(job);
    MoveOnward(job, Exec(Apply, job.start, begin), order);
    SafeAppend(Apply, Recoverable, job, job.start, begin, move);
    ExecAppend(Apply, job.start, begin, move);
  }

  lemma MoveForwardPlanSafe(job: Job, order: Order)
    requires Started(job) && ValidOrder(job, order) && !job.op.kind.Purge? && job.after.Some?
    ensures var plan := ForwardPlan(job, order); var e := Exec(Apply, job.start, plan);
            Safe(Apply, Recoverable, job, job.start, plan) && Settled(job, e) && AtDestination(job, e)
  {
    var begin, commit := BeginMovePlan(job.op, order), CommitPlan(job.op, job.after.value);
    BeginMoveSafe(job, order);
    SafeEnds(Apply, Recoverable, job, job.start, begin);
    CommitSafe(job, Exec(Apply, job.start, begin));
    SafeAppend(Apply, Recoverable, job, job.start, begin, commit);
    ExecAppend(Apply, job.start, begin, commit);
  }

  /** Emptying the entry's directory, from any recoverable state of a purge. */
  lemma PurgeTreeSafe(job: Job, d: Disk, order: Order)
    requires Started(job) && ValidOrder(job, order) && job.op.kind.Purge? && Recoverable(job, d) && d.journal
    ensures Safe(Apply, Recoverable, job, d, PurgePlan(order))
    ensures Exec(Apply, d, PurgePlan(order)) == d.(payload := map[], container := false)
  {
    var remove := RemoveTree(Payload, order.removal);
    RemoveAllEffect(d, Payload, order.removal);
    var e := With(d, Payload, map[]);
    if d.payload == map[] {
      NothingRemoved(job, d, order.removal);
    } else {
      RemoveSafe(job, d, Payload, order.removal);
    }
    SafeEnds(Apply, Recoverable, job, d, remove);
    OneStepSafe(job, e, RemoveContainer);
    SafeAppend(Apply, Recoverable, job, d, remove, [RemoveContainer]);
    ExecAppend(Apply, d, remove, [RemoveContainer]);
  }

  lemma {:induction false} NothingRemoved(job: Job, d: Disk, removal: seq<string>)
    requires Recoverable(job, d) && d.payload == map[]
    ensures Safe(Apply, Recoverable, job, d, RemoveTree(Payload, removal))
    decreases |removal|
  {
    var steps := RemoveTree(Payload, removal);
    if removal != [] {
      assert Apply(d, steps[0]) == d;
      NothingRemoved(job, d, removal[1..]);
      assert steps[1..] == RemoveTree(Payload, removal[1..]);
    }
  }

  /** Deleting the rows and clearing the journal once the payload is gone. */
  lemma ForgetSafe(job: Job, d: Disk, forget: bool)
    requires Started(job) && job.op.kind.Purge? && Recoverable(job, d) && d.journal
    requires d.payload == map[] && !d.container && (d.meta == job.start.meta <==> forget)
    ensures var plan := When(forget, Commit(job.after.value)) + DropPlan(); var e := Exec(Apply, d, plan);
            Safe(Apply, Recoverable, job, d, plan) && Settled(job, e) && Gone(job, e)
  {
    var p0: seq<Step> := [];
    SafeWhen(Apply, Recoverable, job, d, p0, forget, Commit(job.after.value));
    var p1 := When(forget, Commit(job.after.value));
    assert p0 + p1 == p1;
    DropSafe(job, Exec(Apply, d, p1));
    SafeAppend(Apply, Recoverable, job, d, p1, DropPlan());
    ExecAppend(Apply, d, p1, DropPlan());
  }

  lemma PurgeForwardSafe(job: Job, order: Order)
    requires Started(job) && ValidOrder(job, order) && job.op.kind.Purge?
    ensures var plan := ForwardPlan(job, order); var e := Exec(Apply, job.start, plan);
            Safe(Apply, Recoverable, job, job.start, plan) && Settled(job, e) && Gone(job, e)
  {
    var d := job.start;
    var forget := [Commit(job.after.value)] + DropPlan();
    BeginSafe(job);
    var d1 := Exec(Apply, d, BeginPlan());
    SafeEnds(Apply, Recoverable, job, d, BeginPlan());
    PurgeTreeSafe(job, d1, order);
    SafeAppend(Apply, Recoverable, job, d, BeginPlan(), PurgePlan(order));
    ExecAppend(Apply, d, BeginPlan(), PurgePlan(order));
    var d2 := Exec(Apply, d1, PurgePlan(order));
    SafeEnds(Apply, Recoverable, job, d1, PurgePlan(order));
    ForgetSafe(job, d2, true);
    assert When(true, Commit(job.after.value)) + DropPlan() == forget;
    SafeAppend(Apply, Recoverable, job, d, BeginPlan() + PurgePlan(order), forget);
    ExecAppend(Apply, d, BeginPlan() + PurgePlan(order), forget);
  }

  /** The operation itself is safe at every step and ends where it should; a restore whose rows
      clash with others stops with everything as it was. */
  lemma ForwardSafe(job: Job, order: Order)
    requires Started(job) && ValidOrder(job, order)
    ensures var plan := ForwardPlan(job, order); var e := Exec(Apply, job.start, plan);
            && Safe(Apply, Recoverable, job, job.start, plan) && Settled(job, e)
            && (if job.after.None? then AtOrigin(job, e)
                else if job.op.kind.Purge? then Gone(job, e) else AtDestination(job, e))
  {
    if job.after.None? {
      BeginSafe(job);
      SafeEnds(Apply, Recoverable, job, job.start, BeginPlan());
      DropSafe(job, Exec(Apply, job.start, BeginPlan()));
      SafeAppend(Apply, Recoverable, job, job.start, BeginPlan(), DropPlan());
      ExecAppend(Apply, job.start, BeginPlan(), DropPlan());
    } else if job.op.kind.Purge? {
      PurgeForwardSafe(job, order);
    } else {
      MoveForwardPlanSafe(job, order);
    }
  }

  // ----------------------------------------------------------------- recovery

  /** The one recovery that is not safe at every step: across filesystems, an uncommitted
      operation whose tree is at the destination only is moved back without a marker. */
  predicate Exposed(job: Job, d: Disk) {
    && !job.op.sameFilesystem && !job.op.kind.Purge? && d.journal && !IsCommitted(job.op, d.meta)
    && Exists(d, Destination(job.op)) && !Exists(d, Origin(job.op))
  }

  lemma UncommittedHasStartMetadata(job: Job, d: Disk)
    requires Started(job) && !job.op.kind.Purge? && Recoverable(job, d)
    ensures IsCommitted(job.op, d.meta) <==> AtDestination(job, d)
    ensures !IsCommitted(job.op, d.meta) ==> d.meta == job.start.meta
  {
  }

  /** Nothing is left at the destination: only the entry's directory and the journal remain. */
  lemma BackHomeSafe(job: Job, d: Disk)
    requires Started(job) && !job.op.kind.Purge? && Recoverable(job, d) && d.journal && AtOrigin(job, d)
    ensures var plan := When(job.op.kind.MoveToTrash?, RemoveContainer) + DropPlan(); var e := Exec(Apply, d, plan);
            Safe(Apply, Recoverable, job, d, plan) && Settled(job, e) && AtOrigin(job, e)
  {
    TidySafe(job, d, job.op.kind.MoveToTrash?);
  }

  /** The copy at the destination is dropped: the origin is known to be complete. */
  lemma DiscardSafe(job: Job, d: Disk, order: Order)
    requires Started(job) && ValidOrder(job, order) && !job.op.kind.Purge? && Recoverable(job, d)
    requires d.journal && d.meta == job.start.meta && Held(job, d) && (d.rollbackReady || !d.ready)
    requires d.container
    ensures var plan := RemoveTree(Destination(job.op), order.removal); var e := Exec(Apply, d, plan);
            Safe(Apply, Recoverable, job, d, plan) && AtOrigin(job, e) && e == With(d, Destination(job.op), map[])
  {
    FreeWhileHeld(job, d);
    RemoveSafe(job, d, Destination(job.op), order.removal);
    RemoveAllEffect(d, Destination(job.op), order.removal);
  }

  lemma ClearOriginSafe(job: Job, d: Disk, order: Order)
    requires Started(job) && ValidOrder(job, order) && !job.op.kind.Purge?
    requires d.journal && d.meta == job.start.meta && Moved(job, d) && d.ready && !d.rollbackReady && d.container
    ensures var to := Origin(job.op);
            && Safe(Apply, Recoverable, job, d, RemoveTree(to, order.removal))
            && Exec(Apply, d, RemoveTree(to, order.removal)) == With(d, to, map[])
            && Recoverable(job, With(d, to, map[]))
  {
    var to := Origin(job.op);
    FreeWhileMoved(job, d);
    RemoveSafe(job, d, to, order.removal);
    RemoveAllEffect(d, to, order.removal);
    SafeEnds(Apply, Recoverable, job, d, RemoveTree(to, order.removal));
  }

  /** The destination is complete: what is left at the origin is cleared and the tree moved back,
      under the rollback marker. */
  lemma TakeBackSafe(job: Job, d: Disk, order: Order)
    requires Started(job) && ValidOrder(job, order) && !job.op.kind.Purge?
    requires d.journal && d.meta == job.start.meta && Moved(job, d) && d.ready && !d.rollbackReady
    requires d.container
    ensures var plan := TakeBackPlan(job.op, order); var e := Exec(Apply, d, plan);
            Safe(Apply, Recoverable, job, d, plan) && AtOrigin(job, e) && e.journal
  {
    var to := Origin(job.op);
    ClearOriginSafe(job, d, order);
    MoveBackSafe(job, With(d, to, map[]), order);
    SafeAppend(Apply, Recoverable, job, d, RemoveTree(to, order.removal), MoveTree(job.op, to, [MarkRollbackReady], order));
    TakeBackEffect(job.op, d, to, order);
  }

  /** Within one filesystem the tree comes back by one rename. */
  lemma RenameBackSafe(job: Job, d: Disk, order: Order)
    requires Started(job) && ValidOrder(job, order) && !job.op.kind.Purge? && Recoverable(job, d)
    requires d.journal && d.meta == job.start.meta && Moved(job, d) && At(d, Origin(job.op)) == map[]
    requires job.op.sameFilesystem
    ensures var plan := When(job.op.kind.Restore?, MakeContainer) + MoveTree(job.op, Origin(job.op), [], order);
            var e := Exec(Apply, d, plan);
            Safe(Apply, Recoverable, job, d, plan) && AtOrigin(job, e) && e.journal
  {
    var to := Origin(job.op);
    var p0: seq<Step> := [];
    SafeWhen(Apply, Recoverable, job, d, p0, job.op.kind.Restore?, MakeContainer);
    var make := When(job.op.kind.Restore?, MakeContainer);
    assert p0 + make == make;
    OneStepSafe(job, d, RenameTree(to));
    SafeAppend(Apply, Recoverable, job, d, make, [RenameTree(to)]);
    ExecAppend(Apply, d, make, [RenameTree(to)]);
  }

  /** A plan that brings the tree home, and then the journal's end. */
  lemma HomewardSafe(job: Job, d: Disk, steps: seq<Step>)
    requires Started(job) && !job.op.kind.Purge? && Safe(Apply, Recoverable, job, d, steps)
    requires AtOrigin(job, Exec(Apply, d, steps)) && Exec(Apply, d, steps).journal
    ensures var plan := steps + When(job.op.kind.MoveToTrash?, RemoveContainer) + DropPlan(); var e := Exec(Apply, d, plan);
            Safe(Apply, Recoverable, job, d, plan) && Settled(job, e) && AtOrigin(job, e)
  {
    var tidy := When(job.op.kind.MoveToTrash?, RemoveContainer);
    SafeEnds(Apply, Recoverable, job, d, steps);
    BackHomeSafe(job, Exec(Apply, d, steps));
    SafeAppend(Apply, Recoverable, job, d, steps, tidy + DropPlan());
    ExecAppend(Apply, d, steps, tidy + DropPlan());
    Associate(steps, tidy, DropPlan());
  }

  lemma RollbackSafe(job: Job, d: Disk, order: Order)
    requires Started(job) && ValidOrder(job, order) && !job.op.kind.Purge? && Recoverable(job, d)
    requires d.journal && !IsCommitted(job.op, d.meta) && !Exposed(job, d)
    ensures RollbackPlan(job.op, order, d).Proceed?
    ensures var plan := RollbackPlan(job.op, order, d).steps + DropPlan(); var e := Exec(Apply, d, plan);
            Safe(Apply, Recoverable, job, d, plan) && Settled(job, e) && AtOrigin(job, e)
  {
    UncommittedHasStartMetadata(job, d);
    var op := job.op;
    var origin, destination := Origin(op), Destination(op);
    if Exists(d, destination) && !Exists(d, origin) {
      RenameBackSafe(job, d, order);
      HomewardSafe(job, d, When(op.kind.Restore?, MakeContainer) + MoveTree(op, origin, [], order));
    } else if Exists(d, destination) && (d.rollbackReady || !d.ready) {
      DiscardSafe(job, d, order);
      HomewardSafe(job, d, RemoveTree(destination, order.removal));
    } else if Exists(d, destination) {
      TakeBackSafe(job, d, order);
      HomewardSafe(job, d, TakeBackPlan(op, order));
    } else {
      BackHomeSafe(job, d);
    }
  }

  lemma ResolvePurgeSafe(job: Job, d: Disk, order: Order)
    requires Started(job) && ValidOrder(job, order) && job.op.kind.Purge? && Recoverable(job, d) && d.journal
    ensures var plan := ResolvePlan(job.op, order, d).steps + DropPlan(); var e := Exec(Apply, d, plan);
            Safe(Apply, Recoverable, job, d, plan) && Settled(job, e) && Gone(job, e)
  {
    var d1 := Exec(Apply, d, PurgePlan(order));
    PurgeTreeSafe(job, d, order);
    SafeEnds(Apply, Recoverable, job, d, PurgePlan(order));
    var forget := When(HasEntry(job.op, d.meta), Commit(Purged(d.meta, job.op.key)));
    ForgetSafe(job, d1, HasEntry(job.op, d.meta));
    SafeAppend(Apply, Recoverable, job, d, PurgePlan(order), forget + DropPlan());
    ExecAppend(Apply, d, PurgePlan(order), forget + DropPlan());
    Associate(PurgePlan(order), forget, DropPlan());
  }

  lemma OrphansSafe(job: Job, d: Disk)
    requires Started(job) && Recoverable(job, d) && !d.journal
    ensures Safe(Apply, Recoverable, job, d, OrphanPlan(d))
    ensures Settled(job, Exec(Apply, d, OrphanPlan(d)))
    ensures Exec(Apply, d, OrphanPlan(d)) == d.(ready := false, rollbackReady := false)
  {
    MarkersDoNotMatter(job, d, false, d.rollbackReady);
    MarkersDoNotMatter(job, d, false, false);
    FinishedIsSettled(job, d);
    var p0: seq<Step> := [];
    SafeWhen(Apply, Recoverable, job, d, p0, d.ready, RemoveReady);
    var p1 := p0 + When(d.ready, RemoveReady);
    SafeWhen(Apply, Recoverable, job, d, p1, d.rollbackReady, RemoveRollbackReady);
    assert p1 + When(d.rollbackReady, RemoveRollbackReady) == OrphanPlan(d);
  }

  /** Recovery of a state that is not exposed: it proceeds, every step of it is recoverable, and it
      ends with the tree at the destination if the transaction had committed, else at the origin. */
  lemma RecoverySafe(job: Job, d: Disk, order: Order)
    requires Started(job) && ValidOrder(job, order) && Recoverable(job, d) && !Exposed(job, d)
    ensures RecoveryPlan(job.op, order, d).Proceed?
    ensures var plan := RecoveryPlan(job.op, order, d).steps; var e := Exec(Apply, d, plan);
            && Safe(Apply, Recoverable, job, d, plan) && Settled(job, e)
            && (d.journal ==> if job.op.kind.Purge? then Gone(job, e)
                              else if IsCommitted(job.op, d.meta) then AtDestination(job, e) else AtOrigin(job, e))
  {
    if !d.journal {
      OrphansSafe(job, d);
    } else if job.op.kind.Purge? {
      ResolvePurgeSafe(job, d, order);
    } else if IsCommitted(job.op, d.meta) {
      UncommittedHasStartMetadata(job, d);
      TidySafe(job, d, job.op.kind.Restore?);
    } else {
      RollbackSafe(job, d, order);
    }
  }

  // ------------------------------------------------------- the exposed recovery

  /** The steps of an exposed recovery up to the end of its copy. */
  function CopyBackPlan(op: Op, order: Order): seq<Step> {
    When(op.kind.Restore?, MakeContainer) + CopyTree(Origin(op), order.copies)
  }

  /** The recovery died after it began to remove the destination and before it was done. */
  predicate CutWhileRemoving(op: Op, order: Order, cut: nat) {
    |CopyBackPlan(op, order)| < cut < |CopyBackPlan(op, order)| + |order.removal|
  }

  lemma ExposedIsMoved(job: Job, d: Disk)
    requires Started(job) && Recoverable(job, d) && Exposed(job, d)
    ensures d.meta == job.start.meta && d.container && At(d, Origin(job.op)) == map[]
    ensures At(d, Destination(job.op)) == Whole(job) && d.ready && !d.rollbackReady
  {
    UncommittedHasStartMetadata(job, d);
  }

  lemma Regroup<T>(make: seq<T>, copy: seq<T>, remove: seq<T>, tidy: seq<T>, drop: seq<T>)
    ensures make + (copy + [] + remove) + tidy + drop == make + copy + remove + (tidy + drop)
  {
  }

  lemma ExposedPlan(job: Job, d: Disk, order: Order)
    requires Started(job) && ValidOrder(job, order) && Recoverable(job, d) && Exposed(job, d)
    ensures RecoveryPlan(job.op, order, d) ==
            Proceed(CopyBackPlan(job.op, order) + RemoveTree(Destination(job.op), order.removal)
                    + (When(job.op.kind.MoveToTrash?, RemoveContainer) + DropPlan()))
  {
    var op := job.op;
    var make, tidy := When(op.kind.Restore?, MakeContainer), When(op.kind.MoveToTrash?, RemoveContainer);
    var copy, remove := CopyTree(Origin(op), order.copies), RemoveTree(Destination(op), order.removal);
    assert MoveTree(op, Origin(op), [], order) == CopyMarkPlan(Origin(op), [], order.copies) + remove == copy + [] + remove;
    Regroup(make, copy, remove, tidy, DropPlan());
    assert RollbackPlan(op, order, d) == Proceed(make + MoveTree(op, Origin(op), [], order) + tidy);
  }

  /** Copying back is safe and leaves the tree complete in both places. */
  lemma CopyBackSafe(job: Job, d: Disk, order: Order)
    requires Started(job) && ValidOrder(job, order) && Recoverable(job, d) && Exposed(job, d)
    ensures var plan := CopyBackPlan(job.op, order);
            Safe(Apply, Recoverable, job, d, plan) && Exec(Apply, d, plan) == With(d, Origin(job.op), Whole(job))
  {
    ExposedIsMoved(job, d);
    var op := job.op;
    var make := When(op.kind.Restore?, MakeContainer);
    var p0: seq<Step> := [];
    SafeWhen(Apply, Recoverable, job, d, p0, op.kind.Restore?, MakeContainer);
    assert p0 + make == make;
    assert Exec(Apply, d, make) == d;
    FreeWhileMoved(job, d);
    CopySafe(job, d, Origin(op), order.copies);
    CopyAllEffect(d, Origin(op), order.copies);
    SafeAppend(Apply, Recoverable, job, d, make, CopyTree(Origin(op), order.copies));
    ExecAppend(Apply, d, make, CopyTree(Origin(op), order.copies));
  }

  lemma RemoveTreePrefix(side: Side, removal: seq<string>, k: nat)
    requires k <= |removal|
    ensures RemoveTree(side, removal)[..k] == RemoveTree(side, removal[..k])
  {
    forall i | 0 <= i < k ensures RemoveTree(side, removal)[i] == RemoveTree(side, removal[..k])[i] {
      RemoveTreeAt(side, removal, i);
      RemoveTreeAt(side, removal[..k], i);
    }
  }

  /** An exposed recovery that runs to its end settles. */
  lemma ExposedSettles(job: Job, d: Disk, order: Order)
    requires Started(job) && ValidOrder(job, order) && Recoverable(job, d) && Exposed(job, d)
    ensures var copy, remove := CopyBackPlan(job.op, order), RemoveTree(Destination(job.op), order.removal);
            var rest := When(job.op.kind.MoveToTrash?, RemoveContainer) + DropPlan();
            var e := Exec(Apply, d, copy + remove); var f := Exec(Apply, e, rest);
            && AtOrigin(job, e) && Safe(Apply, Recoverable, job, e, rest)
            && Exec(Apply, d, copy + remove + rest) == f && Settled(job, f) && AtOrigin(job, f)
  {
    ExposedIsMoved(job, d);
    CopyBackSafe(job, d, order);
    var copy, remove := CopyBackPlan(job.op, order), RemoveTree(Destination(job.op), order.removal);
    var rest := When(job.op.kind.MoveToTrash?, RemoveContainer) + DropPlan();
    var copied := With(d, Origin(job.op), Whole(job));
    RemoveAllEffect(copied, Destination(job.op), order.removal);
    ExecAppend(Apply, d, copy, remove);
    var e := Exec(Apply, d, copy + remove);
    assert AtOrigin(job, e) && e.journal;
    BackHomeSafe(job, e);
    ExecAppend(Apply, d, copy + remove, rest);
  }

  lemma CutRemoval(d: Disk, side: Side, removal: seq<string>, k: nat)
    requires k <= |removal|
    ensures Exec(Apply, d, RemoveTree(side, removal)[..k]) == With(d, side, Without(At(d, side), removal[..k]))
  {
    RemoveTreePrefix(side, removal, k);
    RemoveEffect(d, side, removal[..k]);
  }

  /** Part of a removal takes its first node and leaves its root. */
  lemma PartOfRemoval(job: Job, order: Order, k: nat)
    requires ValidOrder(job, order) && 0 < k < |order.removal| && ROOT in Whole(job)
    ensures var left := Without(Whole(job), order.removal[..k]);
            ROOT in left && order.removal[0] !in left && order.removal[0] in Whole(job)
  {
    assert order.removal[0] == order.removal[..k][0];
    assert order.removal[..k] <= order.removal[..|order.removal| - 1];
  }

  /** The state a cut inside the removal leaves: complete at the origin, broken at the destination,
      and marked as if the destination were the complete one. */
  lemma BrokenState(job: Job, d: Disk, order: Order, cut: nat)
    requires Started(job) && ValidOrder(job, order) && Recoverable(job, d) && Exposed(job, d)
    requires CutWhileRemoving(job.op, order, cut)
    ensures var k := cut - |CopyBackPlan(job.op, order)|;
            var left := Without(Whole(job), order.removal[..k]);
            && ROOT in left && order.removal[0] !in left && order.removal[0] in Whole(job)
            && Exec(Apply, d, Cut(RecoveryPlan(job.op, order, d).steps, cut))
               == With(With(d, Origin(job.op), Whole(job)), Destination(job.op), left)
  {
    ExposedPlan(job, d, order);
    ExposedIsMoved(job, d);
    CopyBackSafe(job, d, order);
    var copy, remove := CopyBackPlan(job.op, order), RemoveTree(Destination(job.op), order.removal);
    var k := cut - |copy|;
    CutInSecond(copy, remove, When(job.op.kind.MoveToTrash?, RemoveContainer) + DropPlan(), cut);
    ExecAppend(Apply, d, copy, remove[..k]);
    CutRemoval(With(d, Origin(job.op), Whole(job)), Destination(job.op), order.removal, k);
    PartOfRemoval(job, order, k);
  }

  lemma TakeBackEffect(op: Op, d: Disk, to: Side, order: Order)
    requires d.container
    requires forall p <- At(d, to) :: p in order.removal
    requires forall p <- At(d, Other(to)) :: p in order.copies && p in order.removal
    ensures var f := Exec(Apply, d, RemoveTree(to, order.removal) + MoveTree(op, to, [MarkRollbackReady], order));
            At(f, to) == At(d, Other(to)) && At(f, Other(to)) == map[] && f.meta == d.meta && f.journal == d.journal
  {
    var clear, move := RemoveTree(to, order.removal), MoveTree(op, to, [MarkRollbackReady], order);
    RemoveAllEffect(d, to, order.removal);
    var cleared := With(d, to, map[]);
    assert At(cleared, Other(to)) == At(d, Other(to));
    MoveTreeEffect(op, cleared, to, [MarkRollbackReady], order);
    MarkedKeeps(cleared, [MarkRollbackReady]);
    ExecAppend(Apply, d, clear, move);
  }

  /** Marked ready and not rolled back, with something in both places: whatever is at the
      destination, recovery clears the origin and brings exactly that home. */
  lemma ReadyBringsBack(op: Op, d: Disk, order: Order)
    requires !op.kind.Purge? && d.journal && !IsCommitted(op, d.meta) && d.container && d.ready && !d.rollbackReady
    requires Exists(d, Origin(op)) && Exists(d, Destination(op))
    requires forall p <- At(d, Origin(op)) :: p in order.removal
    requires forall p <- At(d, Destination(op)) :: p in order.copies && p in order.removal
    ensures RecoveryPlan(op, order, d).Proceed?
    ensures var f := Exec(Apply, d, RecoveryPlan(op, order, d).steps);
            At(f, Origin(op)) == At(d, Destination(op)) && At(f, Destination(op)) == map[] && f.meta == d.meta
  {
    var steps, tidy := TakeBackPlan(op, order), When(op.kind.MoveToTrash?, RemoveContainer);
    assert ResolvePlan(op, order, d) == Proceed(steps + tidy);
    Associate(steps, tidy, DropPlan());
    TakeBackEffect(op, d, Origin(op), order);
    ExecAppend(Apply, d, steps, tidy + DropPlan());
    RestKeepsTrees(Exec(Apply, d, steps), op.kind.MoveToTrash?);
  }

  /** A tree with a node missing settles nowhere. */
  lemma BrokenIsUnsettled(job: Job, d: Disk, left: Tree)
    requires Started(job) && !job.op.kind.Purge? && d.meta == job.start.meta
    requires At(d, Origin(job.op)) == left && At(d, Destination(job.op)) == map[] && left != Whole(job)
    ensures !Settled(job, d)
  {
  }

  /** From a broken state the next recovery deletes the complete tree and brings home the broken
      one: the nodes the first recovery had removed are lost. */
  lemma SecondCrashLoses(job: Job, d: Disk, order: Order, cut: nat, last: Order)
    requires Started(job) && ValidOrder(job, order) && ValidOrder(job, last) && Recoverable(job, d) && Exposed(job, d)
    requires CutWhileRemoving(job.op, order, cut)
    ensures var e := Exec(Apply, d, Cut(RecoveryPlan(job.op, order, d).steps, cut));
            var left := Without(Whole(job), order.removal[..cut - |CopyBackPlan(job.op, order)|]);
            && RecoveryPlan(job.op, last, e).Proceed?
            && var f := Exec(Apply, e, RecoveryPlan(job.op, last, e).steps);
               At(f, Origin(job.op)) == left && At(f, Destination(job.op)) == map[] && left != Whole(job)
               && !Settled(job, f)
  {
    ExposedIsMoved(job, d);
    BrokenState(job, d, order, cut);
    var left := Without(Whole(job), order.removal[..cut - |CopyBackPlan(job.op, order)|]);
    var e := With(With(d, Origin(job.op), Whole(job)), Destination(job.op), left);
    assert At(e, Origin(job.op)) == Whole(job) && At(e, Destination(job.op)) == left;
    ReadyBringsBack(job.op, e, last);
    BrokenIsUnsettled(job, Exec(Apply, e, RecoveryPlan(job.op, last, e).steps), left);
  }

  lemma RestKeepsTrees(d: Disk, tidy: bool)
    ensures var f := Exec(Apply, d, When(tidy, RemoveContainer) + DropPlan());
            f.home == d.home && f.payload == d.payload && f.meta == d.meta
  {
    var steps := When(tidy, RemoveContainer);
    ExecAppend(Apply, d, steps, DropPlan());
    assert tidy ==> steps[1..] == [];
    var e := Exec(Apply, d, steps);
    assert e.home == d.home && e.payload == d.payload && e.meta == d.meta;
    assert DropPlan()[1..] == [RemoveReady, RemoveRollbackReady];
    assert [RemoveReady, RemoveRollbackReady][1..] == [RemoveRollbackReady];
    assert [RemoveRollbackReady][1..] == [];
  }

  /** Any other cut of an exposed recovery leaves a recoverable state. */
  lemma OtherCutsAreSafe(job: Job, d: Disk, order: Order, cut: nat)
    requires Started(job) && ValidOrder(job, order) && Recoverable(job, d) && Exposed(job, d)
    requires !CutWhileRemoving(job.op, order, cut)
    ensures Recoverable(job, Exec(Apply, d, Cut(RecoveryPlan(job.op, order, d).steps, cut)))
  {
    ExposedPlan(job, d, order);
    CopyBackSafe(job, d, order);
    ExposedSettles(job, d, order);
    var copy, remove := CopyBackPlan(job.op, order), RemoveTree(Destination(job.op), order.removal);
    var rest := When(job.op.kind.MoveToTrash?, RemoveContainer) + DropPlan();
    if cut <= |copy| {
      SafeCut(Apply, Recoverable, job, d, copy, cut);
      CutInFirst(copy, remove, rest, cut);
    } else {
      CutInThird(copy, remove, rest, cut);
      var j := cut - |copy| - |remove|;
      CutKeeps(Apply, Recoverable, job, Exec(Apply, d, copy + remove), rest, j);
      ExecAppend(Apply, d, copy + remove, Cut(rest, j));
    }
  }

  // -------------------------------------------------------------- main results

  /** The recovery decision table, in full: from every recoverable state recovery proceeds and,
      if it runs to its end, settles the operation on the side the entry row says. */
  lemma RecoverySettles(job: Job, d: Disk, order: Order)
    requires Started(job) && ValidOrder(job, order) && Recoverable(job, d)
    ensures RecoveryPlan(job.op, order, d).Proceed?
    ensures var e := Exec(Apply, d, RecoveryPlan(job.op, order, d).steps);
            && Settled(job, e)
            && (d.journal ==> if job.op.kind.Purge? then Gone(job, e)
                              else if IsCommitted(job.op, d.meta) then AtDestination(job, e) else AtOrigin(job, e))
  {
    if Exposed(job, d) {
      ExposedPlan(job, d, order);
      ExposedSettles(job, d, order);
    } else {
      RecoverySafe(job, d, order);
    }
  }

  /** Whether an exposed recovery can be cut without harm, exactly: the next recovery settles the
      operation if and only if this one was not cut while removing the destination. */
  lemma ExposedCut(job: Job, d: Disk, order: Order, cut: nat, last: Order)
    requires Started(job) && ValidOrder(job, order) && ValidOrder(job, last) && Recoverable(job, d) && Exposed(job, d)
    ensures var e := Exec(Apply, d, Cut(RecoveryPlan(job.op, order, d).steps, cut));
            && RecoveryPlan(job.op, last, e).Proceed?
            && (Settled(job, Exec(Apply, e, RecoveryPlan(job.op, last, e).steps))
                <==> !CutWhileRemoving(job.op, order, cut))
  {
    if CutWhileRemoving(job.op, order, cut) {
      SecondCrashLoses(job, d, order, cut, last);
    } else {
      OtherCutsAreSafe(job, d, order, cut);
      RecoverySettles(job, Exec(Apply, d, Cut(RecoveryPlan(job.op, order, d).steps, cut)), last);
    }
  }

  function Recover(job: Job, order: Order, d: Disk): Decision<Step> {
    RecoveryPlan(job.op, order, d)
  }

  function TrashAfterCrashes(job: Job, order: Order, cut: nat, lives: seq<Life<Order>>): Disk {
    AfterCrashes(Apply, Recover, job, job.start, ForwardPlan(job, order), cut, lives)
  }

  /** No recovery that started exposed died while removing the destination. */
  ghost predicate Spared(job: Job, order: Order, cut: nat, lives: seq<Life<Order>>) {
    lives != [] ==>
      var before, last := lives[..|lives| - 1], lives[|lives| - 1];
      && Spared(job, order, cut, before)
      && (Exposed(job, TrashAfterCrashes(job, order, cut, before)) ==> !CutWhileRemoving(job.op, last.order, last.cut))
  }

  lemma {:induction false} CrashesRecoverable(job: Job, order: Order, cut: nat, lives: seq<Life<Order>>)
    requires Started(job) && ValidOrder(job, order) && forall life <- lives :: ValidOrder(job, life.order)
    requires job.op.sameFilesystem || Spared(job, order, cut, lives)
    ensures Recoverable(job, TrashAfterCrashes(job, order, cut, lives))
    decreases |lives|
  {
    if lives == [] {
      ForwardSafe(job, order);
      CutKeeps(Apply, Recoverable, job, job.start, ForwardPlan(job, order), cut);
    } else {
      var before, last := lives[..|lives| - 1], lives[|lives| - 1];
      CrashesRecoverable(job, order, cut, before);
      var d := TrashAfterCrashes(job, order, cut, before);
      assert last in lives;
      RecoverySettles(job, d, last.order);
      if Exposed(job, d) {
        OtherCutsAreSafe(job, d, last.order, last.cut);
      } else {
        RecoverySafe(job, d, last.order);
        CutKeeps(Apply, Recoverable, job, d, RecoveryPlan(job.op, last.order, d).steps, last.cut);
      }
    }
  }

  /** Trash operations are atomic.  Cut the operation anywhere (with no further crash, `lives` is
      empty and Spared holds), or cut every recovery anywhere too if the tree moves by a rename or
      no exposed recovery is cut while removing: one recovery that runs to its end leaves the
      complete tree in exactly one place, the payload if and only if the entry row survives. */
  lemma TrashIsAtomic(job: Job, order: Order, cut: nat, lives: seq<Life<Order>>, last: Order)
    requires Started(job) && ValidOrder(job, order) && ValidOrder(job, last)
    requires forall life <- lives :: ValidOrder(job, life.order)
    requires job.op.sameFilesystem || job.op.kind.Purge? || Spared(job, order, cut, lives)
    ensures var d := TrashAfterCrashes(job, order, cut, lives);
            && RecoveryPlan(job.op, last, d).Proceed?
            && var e := Exec(Apply, d, RecoveryPlan(job.op, last, d).steps);
               Settled(job, e) && (AtOrigin(job, e) || job.after == Some(e.meta))
  {
    if job.op.kind.Purge? {
      PurgeIsSpared(job, order, cut, lives);
    }
    CrashesRecoverable(job, order, cut, lives);
    RecoverySettles(job, TrashAfterCrashes(job, order, cut, lives), last);
  }

  lemma {:induction false} PurgeIsSpared(job: Job, order: Order, cut: nat, lives: seq<Life<Order>>)
    requires job.op.kind.Purge?
    ensures Spared(job, order, cut, lives)
    decreases |lives|
  {
    if lives != [] {
      PurgeIsSpared(job, order, cut, lives[..|lives| - 1]);
    }
  }
}
