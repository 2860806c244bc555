/** Move and delete (internal/files/path_recovery.go). */
module PathOps {
  import opened Crash
  import opened Paths

  // Moving and deleting inside one source (move and DeleteWithLockTokens in
  // internal/files/service.go, internal/files/path_recovery.go).
  //
  // Files and rows are kept by identity, each with the path it is at, so a subtree move changes
  // paths and nothing else.

  /** A table of paths: file nodes by inode, or rows by id. */
  type Table = map<nat, string>

  datatype Metadata = Metadata(records: Table, images: Table, shares: Table)

  datatype Op =
    | Move(from: string, to: string, isDir: bool)
    | Delete(from: string, isDir: bool)

  datatype Disk = Disk(
    tree: Table,
    meta: Metadata,
    journal: bool,
    filesystemReady: bool,
    databaseReady: bool)

  datatype Step =
    | WriteJournal
    | RenameTree(from: string, to: string)
    | MarkFilesystemReady
    | MoveMetadata(from: string, to: string, isDir: bool)
    | MarkDatabaseReady
    | RemoveNode(path: string, node: nat)
    | DeleteMetadata(path: string, isDir: bool)
    | RemoveJournal
    | RemoveFilesystemReady
    | RemoveDatabaseReady

  function RebaseTable(t: Table, from: string, to: string): (r: Table)
    ensures r.Keys == t.Keys
  {
    map id | id in t :: Rebase(t[id], from, to)
  }

  /** The ledger's own update: a moved file's row gets the target path itself. */
  function RebaseRecords(t: Table, from: string, to: string, isDir: bool): (r: Table)
    ensures r.Keys == t.Keys
  {
    map id | id in t :: RecordPath(t[id], from, to, isDir)
  }

  function RecordPath(path: string, from: string, to: string, isDir: bool): string {
    if Under(from, path) && !isDir then to else Rebase(path, from, to)
  }

  /** No two rows share a path, which the ledger's unique index enforces. */
  predicate Unique(t: Table) {
    forall a, b :: a in t && b in t && a != b ==> t[a] != t[b]
  }

  lemma UniqueExactly(t: Table, id: nat, path: string)
    requires id !in t
    ensures Unique(map[]) && (Unique(t[id := path]) <==> Unique(t) && path !in t.Values)
  {
    var more := t[id := path];
    if Unique(more) {
      assert forall a <- t :: more[a] == t[a] && more[a] != more[id];
    }
  }

  /** A file's row, and anything recorded below it, goes to the target itself; a directory's rows keep
      what follows its path. */
  lemma RecordPathExactly(from: string, to: string, rest: string, path: string, isDir: bool)
    ensures RecordPath(from, from, to, isDir) == to
    ensures RecordPath(from + "/" + rest, from, to, isDir) == if isDir then to + "/" + rest else to
    ensures !Under(from, path) ==> RecordPath(path, from, to, isDir) == path
  {
    UnderExactly(from, from + "/" + rest);
    RebaseExactly(from, to, rest, path);
  }

  function RebaseMetadata(m: Metadata, from: string, to: string, isDir: bool): Metadata {
    Metadata(RebaseRecords(m.records, from, to, isDir), RebaseTable(m.images, from, to), RebaseTable(m.shares, from, to))
  }

  predicate Removes(path: string, isDir: bool, p: string) {
    if isDir then Under(path, p) else p == path
  }

  function DropRows(t: Table, path: string, isDir: bool): Table {
    map id | id in t && !Removes(path, isDir, t[id]) :: t[id]
  }

  function DropMetadata(m: Metadata, path: string, isDir: bool): Metadata {
    Metadata(DropRows(m.records, path, isDir), DropRows(m.images, path, isDir), DropRows(m.shares, path, isDir))
  }

  function Apply(d: Disk, step: Step): Disk {
    match step
    case WriteJournal => d.(journal := true)
    case RenameTree(from, to) => d.(tree := RebaseTable(d.tree, from, to))
    case MarkFilesystemReady => d.(filesystemReady := true)
    case MoveMetadata(from, to, isDir) =>
      // One transaction: it fails, changing nothing, when two ledger rows would share a path.
      var meta := RebaseMetadata(d.meta, from, to, isDir);
      if Unique(meta.records) then d.(meta := meta) else d
    case MarkDatabaseReady => d.(databaseReady := true)
    case RemoveNode(path, node) =>
      if node in d.tree && Under(path, d.tree[node]) then d.(tree := d.tree - {node}) else d
    case DeleteMetadata(path, isDir) => d.(meta := DropMetadata(d.meta, path, isDir))
    case RemoveJournal => d.(journal := false)
    case RemoveFilesystemReady => d.(filesystemReady := false)
    case RemoveDatabaseReady => d.(databaseReady := false)
  }

  predicate Exists(d: Disk, path: string) {
    path in d.tree.Values
  }

  // ---------------------------------------------------------------------- plans

  function DropJournalPlan(): seq<Step> {
    [RemoveJournal, RemoveFilesystemReady, RemoveDatabaseReady]
  }

  /** Removing a subtree, in whatever order its nodes are listed. */
  function RemoveAll(path: string, order: seq<nat>): (steps: seq<Step>)
    ensures |steps| == |order|
    ensures forall i :: 0 <= i < |order| ==> steps[i] == RemoveNode(path, order[i])
  {
    if order == [] then [] else [RemoveNode(path, order[0])] + RemoveAll(path, order[1..])
  }

  function MovePlan(op: Op): seq<Step>
    requires op.Move?
  {
    [WriteJournal, RenameTree(op.from, op.to), MarkFilesystemReady]
    + [MoveMetadata(op.from, op.to, op.isDir), MarkDatabaseReady] + DropJournalPlan()
  }

  function FinishDeletePlan(op: Op): seq<Step> {
    [DeleteMetadata(op.from, op.isDir), MarkDatabaseReady] + DropJournalPlan()
  }

  function BeginDeletePlan(op: Op, order: seq<nat>): seq<Step> {
    [WriteJournal] + RemoveAll(op.from, order) + [MarkFilesystemReady]
  }

  function DeletePlan(op: Op, order: seq<nat>): seq<Step>
    requires op.Delete?
  {
    BeginDeletePlan(op, order) + FinishDeletePlan(op)
  }

  function ForwardPlan(op: Op, order: seq<nat>): seq<Step> {
    if op.Move? then MovePlan(op) else DeletePlan(op, order)
  }

  function RecoverDeletePlan(op: Op, order: seq<nat>): seq<Step> {
    RemoveAll(op.from, order) + FinishDeletePlan(op)
  }

  /** The transaction goes through: no two ledger rows would share a path. */
  predicate CanMove(m: Metadata, from: string, to: string, isDir: bool) {
    Unique(RebaseMetadata(m, from, to, isDir).records)
  }

  function RecoverMovePlan(op: Op, d: Disk): Decision<Step>
    requires op.Move?
  {
    if d.databaseReady then
      if Exists(d, op.from) || !Exists(d, op.to) || !CanMove(d.meta, op.from, op.to, op.isDir) then Refuse
      else Proceed([MoveMetadata(op.from, op.to, op.isDir)] + DropJournalPlan())
    else if !CanMove(d.meta, op.to, op.from, op.isDir) then Refuse
    else if Exists(d, op.from) && !Exists(d, op.to) then
      Proceed([MoveMetadata(op.to, op.from, op.isDir)] + DropJournalPlan())
    else if !Exists(d, op.from) && Exists(d, op.to) then
      Proceed([MoveMetadata(op.to, op.from, op.isDir), RenameTree(op.to, op.from)] + DropJournalPlan())
    else Refuse
  }

  /** What RecoverPathOperations decides from durable state. */
  function RecoveryPlan(op: Op, order: seq<nat>, d: Disk): Decision<Step> {
    if !d.journal then Proceed([])
    else if op.Move? then RecoverMovePlan(op, d)
    else if d.databaseReady then Proceed(DropJournalPlan())
    else Proceed(RecoverDeletePlan(op, order))
  }

  // ------------------------------------------------------------------ invariant

  datatype Job = Job(op: Op, start: Disk)

  predicate NothingUnder(t: Table, path: string) {
    forall id <- t :: !Under(path, t[id])
  }

  /** Only a directory's ledger rows lie strictly below the moved path. */
  predicate RowsFit(t: Table, path: string, isDir: bool) {
    !isDir ==> forall id <- t :: Under(path, t[id]) ==> t[id] == path
  }

  /** What the request checked before it wrote its journal: the source exists, the target does
      not and is not inside it; and the ledger, image and share rows agree with the disk in
      having nothing at or below the target and, for a file, nothing below the source. */
  predicate Started(job: Job) {
    var op, s := job.op, job.start;
    && !s.journal && !s.filesystemReady && !s.databaseReady && Exists(s, op.from) && Unique(s.meta.records)
    && RowsFit(s.tree, op.from, op.isDir) && RowsFit(s.meta.records, op.from, op.isDir)
    && RowsFit(s.meta.images, op.from, op.isDir) && RowsFit(s.meta.shares, op.from, op.isDir)
    && (op.Move? ==>
          && !Under(op.from, op.to)
          && NothingUnder(s.tree, op.to) && NothingUnder(s.meta.records, op.to)
          && NothingUnder(s.meta.images, op.to) && NothingUnder(s.meta.shares, op.to))
  }

  function MovedTree(job: Job): Table
    requires job.op.Move?
  {
    RebaseTable(job.start.tree, job.op.from, job.op.to)
  }

  function MovedMetadata(job: Job): Metadata
    requires job.op.Move?
  {
    RebaseMetadata(job.start.meta, job.op.from, job.op.to, job.op.isDir)
  }

  /** Disk and metadata are both at the old place. */
  predicate AtSource(job: Job, d: Disk) {
    d.tree == job.start.tree && d.meta == job.start.meta
  }

  /** Disk and metadata are both at the new place. */
  predicate AtTarget(job: Job, d: Disk)
    requires job.op.Move?
  {
    d.tree == MovedTree(job) && d.meta == MovedMetadata(job)
  }

  predicate MoveRecoverable(job: Job, d: Disk)
    requires job.op.Move?
  {
    && (d.tree == job.start.tree || d.tree == MovedTree(job))
    && (d.meta == job.start.meta || d.meta == MovedMetadata(job))
    && (d.journal && d.databaseReady ==> AtTarget(job, d))
    && (!d.journal ==> AtSource(job, d) || AtTarget(job, d))
  }

  /** The disk with everything at or below the path gone and everything else untouched. */
  predicate Deleted(job: Job, d: Disk) {
    && d.tree == DropRows(job.start.tree, job.op.from, true)
    && d.meta == DropMetadata(job.start.meta, job.op.from, job.op.isDir)
  }

  predicate PartlyDeleted(job: Job, d: Disk) {
    && (forall id <- d.tree :: id in job.start.tree && d.tree[id] == job.start.tree[id])
    && (forall id <- job.start.tree :: !Under(job.op.from, job.start.tree[id]) ==> id in d.tree)
    && (d.meta == job.start.meta || d.meta == DropMetadata(job.start.meta, job.op.from, job.op.isDir))
  }

  predicate DeleteRecoverable(job: Job, d: Disk) {
    && PartlyDeleted(job, d)
    && (d.journal && d.databaseReady ==> Deleted(job, d))
    && (!d.journal ==> AtSource(job, d) || Deleted(job, d))
  }

  predicate Recoverable(job: Job, d: Disk) {
    if job.op.Move? then MoveRecoverable(job, d) else DeleteRecoverable(job, d)
  }

  predicate Covers(order: seq<nat>, job: Job) {
    forall id <- job.start.tree :: Under(job.op.from, job.start.tree[id]) ==> id in order
  }

  // ---------------------------------------------------------- rebasing whole tables

  lemma RebaseTableUndone(t: Table, from: string, to: string)
    requires NothingUnder(t, to)
    ensures RebaseTable(RebaseTable(t, from, to), to, from) == t
  {
    forall id | id in t ensures RebaseTable(RebaseTable(t, from, to), to, from)[id] == t[id] {
      RebaseUndone(t[id], from, to);
    }
  }

  lemma RebaseTableIdempotent(t: Table, from: string, to: string)
    requires Apart(from, to)
    ensures RebaseTable(RebaseTable(t, from, to), from, to) == RebaseTable(t, from, to)
  {
    forall id | id in t
      ensures RebaseTable(RebaseTable(t, from, to), from, to)[id] == RebaseTable(t, from, to)[id]
    {
      RebaseIsIdempotent(t[id], from, to);
    }
  }

  lemma RebaseNothing(t: Table, from: string, to: string)
    requires NothingUnder(t, from)
    ensures RebaseTable(t, from, to) == t
  {
  }

  lemma RebaseKeepsUnique(t: Table, from: string, to: string)
    requires Unique(t) && NothingUnder(t, to)
    ensures Unique(RebaseTable(t, from, to))
  {
    forall a, b | a in t && b in t && a != b
      ensures RebaseTable(t, from, to)[a] != RebaseTable(t, from, to)[b]
    {
      RebaseIsInjective(t[a], t[b], from, to);
    }
  }

  /** For rows that fit the operation, the ledger's update is the plain rebase. */
  lemma RecordsRebaseLikeTheRest(t: Table, from: string, to: string, isDir: bool)
    requires RowsFit(t, from, isDir)
    ensures RebaseRecords(t, from, to, isDir) == RebaseTable(t, from, to)
  {
    forall id | id in t ensures RebaseRecords(t, from, to, isDir)[id] == RebaseTable(t, from, to)[id] {
      if !isDir && Under(from, t[id]) {
        assert Rebase(from, from, to) == to + "";
      }
    }
  }

  lemma RowsFitAfter(t: Table, from: string, to: string, isDir: bool)
    requires RowsFit(t, from, isDir) && NothingUnder(t, to)
    ensures RowsFit(RebaseTable(t, from, to), to, isDir)
  {
    if !isDir {
      forall id | id in t && Under(to, Rebase(t[id], from, to))
        ensures Rebase(t[id], from, to) == to
      {
        assert t[id] == from;
        assert Rebase(from, from, to) == to + "";
      }
    }
  }

  /** Metadata moves: the move applied to either place gives the target, and the reverse move
      applied to either place gives back the source, without ever clashing. */
  lemma MetadataMoves(job: Job)
    requires Started(job) && job.op.Move?
    ensures Unique(job.start.meta.records) && Unique(MovedMetadata(job).records)
    ensures var op := job.op;
            && RebaseMetadata(job.start.meta, op.from, op.to, op.isDir) == MovedMetadata(job)
            && RebaseMetadata(MovedMetadata(job), op.from, op.to, op.isDir) == MovedMetadata(job)
            && RebaseMetadata(MovedMetadata(job), op.to, op.from, op.isDir) == job.start.meta
            && RebaseMetadata(job.start.meta, op.to, op.from, op.isDir) == job.start.meta
  {
    var op, m := job.op, job.start.meta;
    TableMoves(m.records, op);
    TableMoves(m.images, op);
    TableMoves(m.shares, op);
    RebaseKeepsUnique(m.records, op.from, op.to);
    RecordsMove(m.records, op);
  }

  lemma TableMoves(t: Table, op: Op)
    requires op.Move? && Apart(op.from, op.to) && NothingUnder(t, op.to)
    ensures var moved := RebaseTable(t, op.from, op.to);
            && RebaseTable(moved, op.from, op.to) == moved
            && RebaseTable(moved, op.to, op.from) == t
            && RebaseTable(t, op.to, op.from) == t
  {
    RebaseTableIdempotent(t, op.from, op.to);
    RebaseTableUndone(t, op.from, op.to);
    RebaseNothing(t, op.to, op.from);
  }

  lemma NothingLeftUnder(t: Table, from: string, to: string)
    requires Apart(from, to)
    ensures NothingUnder(RebaseTable(t, from, to), from)
  {
    forall id | id in t ensures !Under(from, Rebase(t[id], from, to)) {
      if Under(from, t[id]) {
        RebaseLandsUnder(t[id], from, to);
        ApartSubtreesAreDisjoint(to, from, Rebase(t[id], from, to));
      }
    }
  }

  lemma RecordsMove(t: Table, op: Op)
    requires op.Move? && Apart(op.from, op.to) && NothingUnder(t, op.to) && RowsFit(t, op.from, op.isDir)
    ensures var moved := RebaseRecords(t, op.from, op.to, op.isDir);
            && moved == RebaseTable(t, op.from, op.to)
            && RebaseRecords(moved, op.from, op.to, op.isDir) == moved
            && RebaseRecords(moved, op.to, op.from, op.isDir) == t
            && RebaseRecords(t, op.to, op.from, op.isDir) == t
  {
    TableMoves(t, op);
    RecordsRebaseLikeTheRest(t, op.from, op.to, op.isDir);
    var moved := RebaseTable(t, op.from, op.to);
    RowsFitAfter(t, op.from, op.to, op.isDir);
    RecordsRebaseLikeTheRest(moved, op.to, op.from, op.isDir);
    NothingLeftUnder(t, op.from, op.to);
    RecordsRebaseLikeTheRest(moved, op.from, op.to, op.isDir);
    RecordsRebaseLikeTheRest(t, op.to, op.from, op.isDir);
  }

  /** On disk the moved path exists at exactly one of the two places. */
  lemma TreeMoves(job: Job)
    requires Started(job) && job.op.Move?
    ensures job.op.from in job.start.tree.Values && job.op.to !in job.start.tree.Values
    ensures job.op.to in MovedTree(job).Values && job.op.from !in MovedTree(job).Values
    ensures RebaseTable(MovedTree(job), job.op.to, job.op.from) == job.start.tree
    ensures RebaseTable(job.start.tree, job.op.from, job.op.to) == MovedTree(job)
  {
    TableMoves(job.start.tree, job.op);
    NothingLeftUnder(job.start.tree, job.op.from, job.op.to);
    var id :| id in job.start.tree && job.start.tree[id] == job.op.from;
    assert Rebase(job.op.from, job.op.from, job.op.to) == job.op.to + "";
    assert MovedTree(job)[id] == job.op.to;
  }

  // ----------------------------------------------------------------- safe moves

  lemma DropJournalSafe(job: Job, d: Disk)
    requires Recoverable(job, d) && (if job.op.Move? then AtSource(job, d) || AtTarget(job, d) else Deleted(job, d))
    ensures Safe(Apply, Recoverable, job, d, DropJournalPlan())
    ensures Exec(Apply, d, DropJournalPlan()) == d.(journal := false, filesystemReady := false, databaseReady := false)
  {
    var p0: seq<Step> := [];
    SafeWhen(Apply, Recoverable, job, d, p0, true, RemoveJournal);
    var p1 := p0 + When(true, RemoveJournal);
    SafeWhen(Apply, Recoverable, job, d, p1, true, RemoveFilesystemReady);
    var p2 := p1 + When(true, RemoveFilesystemReady);
    SafeWhen(Apply, Recoverable, job, d, p2, true, RemoveDatabaseReady);
    assert p2 + When(true, RemoveDatabaseReady) == DropJournalPlan();
  }

  lemma ThenDropJournal(job: Job, d: Disk, steps: seq<Step>)
    requires Safe(Apply, Recoverable, job, d, steps)
    requires var e := Exec(Apply, d, steps);
             if job.op.Move? then AtSource(job, e) || AtTarget(job, e) else Deleted(job, e)
    ensures Safe(Apply, Recoverable, job, d, steps + DropJournalPlan())
    ensures Exec(Apply, d, steps + DropJournalPlan())
         == Exec(Apply, d, steps).(journal := false, filesystemReady := false, databaseReady := false)
  {
    SafeEnds(Apply, Recoverable, job, d, steps);
    DropJournalSafe(job, Exec(Apply, d, steps));
    SafeAppend(Apply, Recoverable, job, d, steps, DropJournalPlan());
    ExecAppend(Apply, d, steps, DropJournalPlan());
  }

  lemma MoveForwardSafe(job: Job)
    requires Started(job) && job.op.Move?
    ensures Safe(Apply, Recoverable, job, job.start, MovePlan(job.op))
    ensures AtTarget(job, Exec(Apply, job.start, MovePlan(job.op)))
    ensures !Exec(Apply, job.start, MovePlan(job.op)).journal
  {
    var op := job.op;
    TreeMoves(job);
    MetadataMoves(job);
    var p0: seq<Step> := [];
    SafeWhen(Apply, Recoverable, job, job.start, p0, true, WriteJournal);
    var p1 := p0 + When(true, WriteJournal);
    SafeWhen(Apply, Recoverable, job, job.start, p1, true, RenameTree(op.from, op.to));
    var p2 := p1 + When(true, RenameTree(op.from, op.to));
    SafeWhen(Apply, Recoverable, job, job.start, p2, true, MarkFilesystemReady);
    var p3 := p2 + When(true, MarkFilesystemReady);
    SafeWhen(Apply, Recoverable, job, job.start, p3, true, MoveMetadata(op.from, op.to, op.isDir));
    var p4 := p3 + When(true, MoveMetadata(op.from, op.to, op.isDir));
    SafeWhen(Apply, Recoverable, job, job.start, p4, true, MarkDatabaseReady);
    var p5 := p4 + When(true, MarkDatabaseReady);
    ThenDropJournal(job, job.start, p5);
    assert p5 + DropJournalPlan() == MovePlan(op);
  }

  /** The decision table for moves: never refused in a recoverable state, and disk and metadata
      end together, at the target exactly when the database marker exists. */
  lemma MoveRecoverySettles(job: Job, d: Disk)
    requires Started(job) && job.op.Move? && Recoverable(job, d) && d.journal
    ensures RecoverMovePlan(job.op, d).Proceed?
    ensures var p := RecoverMovePlan(job.op, d).steps;
            && Safe(Apply, Recoverable, job, d, p) && !Exec(Apply, d, p).journal
            && (if d.databaseReady then AtTarget(job, Exec(Apply, d, p)) else AtSource(job, Exec(Apply, d, p)))
  {
    if d.databaseReady {
      MoveFinishes(job, d);
    } else {
      MoveRollsBack(job, d);
    }
  }

  lemma MoveFinishes(job: Job, d: Disk)
    requires Started(job) && job.op.Move? && Recoverable(job, d) && d.journal && d.databaseReady
    ensures RecoverMovePlan(job.op, d).Proceed?
    ensures var p := RecoverMovePlan(job.op, d).steps; var e := Exec(Apply, d, p);
            Safe(Apply, Recoverable, job, d, p) && !e.journal && AtTarget(job, e)
  {
    var op := job.op;
    TreeMoves(job);
    MetadataMoves(job);
    var p0: seq<Step> := [];
    SafeWhen(Apply, Recoverable, job, d, p0, true, MoveMetadata(op.from, op.to, op.isDir));
    var p1 := p0 + When(true, MoveMetadata(op.from, op.to, op.isDir));
    ThenDropJournal(job, d, p1);
    assert p1 + DropJournalPlan() == RecoverMovePlan(op, d).steps;
  }

  lemma MoveRollsBack(job: Job, d: Disk)
    requires Started(job) && job.op.Move? && Recoverable(job, d) && d.journal && !d.databaseReady
    ensures RecoverMovePlan(job.op, d).Proceed?
    ensures var p := RecoverMovePlan(job.op, d).steps; var e := Exec(Apply, d, p);
            Safe(Apply, Recoverable, job, d, p) && !e.journal && AtSource(job, e)
  {
    var op := job.op;
    TreeMoves(job);
    MetadataMoves(job);
    var p0: seq<Step> := [];
    SafeWhen(Apply, Recoverable, job, d, p0, true, MoveMetadata(op.to, op.from, op.isDir));
    var p1 := p0 + When(true, MoveMetadata(op.to, op.from, op.isDir));
    var back := !Exists(d, op.from);
    SafeWhen(Apply, Recoverable, job, d, p1, back, RenameTree(op.to, op.from));
    var p2 := p1 + When(back, RenameTree(op.to, op.from));
    ThenDropJournal(job, d, p2);
    assert p2 + DropJournalPlan() == RecoverMovePlan(op, d).steps;
  }

  // --------------------------------------------------------------- safe deletes

  lemma {:induction false} RemoveAllSafe(job: Job, d: Disk, order: seq<nat>)
    requires job.op.Delete? && PartlyDeleted(job, d) && d.journal && !d.databaseReady
    ensures Safe(Apply, Recoverable, job, d, RemoveAll(job.op.from, order))
    ensures var e := Exec(Apply, d, RemoveAll(job.op.from, order));
            && PartlyDeleted(job, e) && e.meta == d.meta && e.journal && !e.databaseReady
            && (forall id <- e.tree :: id in d.tree && !(id in order && Under(job.op.from, d.tree[id])))
    decreases |order|
  {
    if order != [] {
      var steps := RemoveAll(job.op.from, order);
      assert steps[1..] == RemoveAll(job.op.from, order[1..]);
      var next := Apply(d, steps[0]);
      RemoveAllSafe(job, next, order[1..]);
      var e := Exec(Apply, next, steps[1..]);
      forall id | id in e.tree ensures id in d.tree && !(id in order && Under(job.op.from, d.tree[id])) {
        assert id in next.tree;
        if id in order && id != order[0] {
          assert id in order[1..];
        }
      }
    }
  }

  lemma FinishDeleteSafe(job: Job, d: Disk)
    requires Started(job) && job.op.Delete? && PartlyDeleted(job, d) && d.journal && !d.databaseReady
    requires forall id <- d.tree :: !Under(job.op.from, d.tree[id])
    ensures Safe(Apply, Recoverable, job, d, FinishDeletePlan(job.op))
    ensures Deleted(job, Exec(Apply, d, FinishDeletePlan(job.op)))
    ensures !Exec(Apply, d, FinishDeletePlan(job.op)).journal
  {
    var op := job.op;
    assert d.tree == DropRows(job.start.tree, op.from, true);
    DropTwice(job.start.meta, op.from, op.isDir);
    var p0: seq<Step> := [];
    SafeWhen(Apply, Recoverable, job, d, p0, true, DeleteMetadata(op.from, op.isDir));
    var p1 := p0 + When(true, DeleteMetadata(op.from, op.isDir));
    SafeWhen(Apply, Recoverable, job, d, p1, true, MarkDatabaseReady);
    var p2 := p1 + When(true, MarkDatabaseReady);
    ThenDropJournal(job, d, p2);
    assert p2 + DropJournalPlan() == FinishDeletePlan(op);
  }

  lemma DropTwice(m: Metadata, path: string, isDir: bool)
    ensures DropMetadata(DropMetadata(m, path, isDir), path, isDir) == DropMetadata(m, path, isDir)
  {
    forall t ensures DropRows(DropRows(t, path, isDir), path, isDir) == DropRows(t, path, isDir) {
      var u := DropRows(t, path, isDir);
      assert DropRows(u, path, isDir) == u;
    }
  }

  lemma RecoverDeleteSafe(job: Job, d: Disk, order: seq<nat>)
    requires Started(job) && job.op.Delete? && PartlyDeleted(job, d) && d.journal && !d.databaseReady
    requires Covers(order, job)
    ensures Safe(Apply, Recoverable, job, d, RecoverDeletePlan(job.op, order))
    ensures Deleted(job, Exec(Apply, d, RecoverDeletePlan(job.op, order)))
    ensures !Exec(Apply, d, RecoverDeletePlan(job.op, order)).journal
  {
    var steps := RemoveAll(job.op.from, order);
    RemoveAllSafe(job, d, order);
    FinishDeleteSafe(job, Exec(Apply, d, steps));
    SafeAppend(Apply, Recoverable, job, d, steps, FinishDeletePlan(job.op));
    ExecAppend(Apply, d, steps, FinishDeletePlan(job.op));
  }

  lemma JournalledDeleteSafe(job: Job)
    requires Started(job) && job.op.Delete?
    ensures Safe(Apply, Recoverable, job, job.start, [WriteJournal])
    ensures Exec(Apply, job.start, [WriteJournal]) == job.start.(journal := true)
  {
    var p0: seq<Step> := [];
    SafeWhen(Apply, Recoverable, job, job.start, p0, true, WriteJournal);
    assert p0 + When(true, WriteJournal) == [WriteJournal];
  }

  lemma BeginDeleteSafe(job: Job, order: seq<nat>)
    requires Started(job) && job.op.Delete? && Covers(order, job)
    ensures var plan := BeginDeletePlan(job.op, order); var e := Exec(Apply, job.start, plan);
            && Safe(Apply, Recoverable, job, job.start, plan)
            && PartlyDeleted(job, e) && e.journal && !e.databaseReady
            && forall id <- e.tree :: !Under(job.op.from, e.tree[id])
  {
    var s, removal := job.start, RemoveAll(job.op.from, order);
    JournalledDeleteSafe(job);
    RemoveAllSafe(job, s.(journal := true), order);
    SafeAppend(Apply, Recoverable, job, s, [WriteJournal], removal);
    ExecAppend(Apply, s, [WriteJournal], removal);
    SafeWhen(Apply, Recoverable, job, s, [WriteJournal] + removal, true, MarkFilesystemReady);
  }

  lemma DeleteForwardSafe(job: Job, order: seq<nat>)
    requires Started(job) && job.op.Delete? && Covers(order, job)
    ensures Safe(Apply, Recoverable, job, job.start, DeletePlan(job.op, order))
    ensures Deleted(job, Exec(Apply, job.start, DeletePlan(job.op, order)))
    ensures !Exec(Apply, job.start, DeletePlan(job.op, order)).journal
  {
    var op, s := job.op, job.start;
    var begin := BeginDeletePlan(op, order);
    BeginDeleteSafe(job, order);
    FinishDeleteSafe(job, Exec(Apply, s, begin));
    SafeAppend(Apply, Recoverable, job, s, begin, FinishDeletePlan(op));
    ExecAppend(Apply, s, begin, FinishDeletePlan(op));
  }

  // ------------------------------------------------------------- whole histories

  function Recover(job: Job, order: seq<nat>, d: Disk): Decision<Step> {
    RecoveryPlan(job.op, order, d)
  }

  function PathAfterCrashes(job: Job, order: seq<nat>, cut: nat, lives: seq<Life<seq<nat>>>): Disk {
    AfterCrashes(Apply, Recover, job, job.start, ForwardPlan(job.op, order), cut, lives)
  }

  predicate Settled(job: Job, d: Disk) {
    !d.journal && (AtSource(job, d) || (if job.op.Move? then AtTarget(job, d) else Deleted(job, d)))
  }

  lemma RecoverySettles(job: Job, d: Disk, order: seq<nat>)
    requires Started(job) && Recoverable(job, d) && Covers(order, job)
    ensures RecoveryPlan(job.op, order, d).Proceed?
    ensures var p := RecoveryPlan(job.op, order, d).steps;
            var e := Exec(Apply, d, p);
            && Safe(Apply, Recoverable, job, d, p) && Settled(job, e)
            && (d.journal && job.op.Move? ==> if d.databaseReady then AtTarget(job, e) else AtSource(job, e))
            && (d.journal && job.op.Delete? ==> Deleted(job, e))
            && (!d.journal ==> e == d)
  {
    if d.journal {
      if job.op.Move? {
        MoveRecoverySettles(job, d);
      } else if d.databaseReady {
        DropJournalSafe(job, d);
      } else {
        RecoverDeleteSafe(job, d, order);
      }
    }
  }

  /** A move or delete is atomic under any crashes: recovery is never refused, and disk and all
      three tables end together at the source, together at the target, or, for a delete whose
      journal was written, together gone, with everything outside the paths untouched. */
  lemma PathOperationIsAtomic(job: Job, order: seq<nat>, cut: nat, lives: seq<Life<seq<nat>>>, last: seq<nat>)
    requires Started(job) && Covers(order, job) && Covers(last, job)
    requires forall life <- lives :: Covers(life.order, job)
    ensures var d := PathAfterCrashes(job, order, cut, lives);
            && RecoveryPlan(job.op, last, d).Proceed?
            && Settled(job, Exec(Apply, d, RecoveryPlan(job.op, last, d).steps))
            && (job.op.Delete? && d.journal ==>
                  Deleted(job, Exec(Apply, d, RecoveryPlan(job.op, last, d).steps)))
  {
    if job.op.Move? {
      MoveForwardSafe(job);
    } else {
      DeleteForwardSafe(job, order);
    }
    forall life, d | life in lives && Recoverable(job, d) && Recover(job, life.order, d).Proceed?
      ensures Safe(Apply, Recoverable, job, d, Recover(job, life.order, d).steps)
    {
      RecoverySettles(job, d, life.order);
    }
    CrashesKeep(Apply, Recoverable, Recover, job, job.start, ForwardPlan(job.op, order), cut, lives);
    RecoverySettles(job, PathAfterCrashes(job, order, cut, lives), last);
  }

  // ---------------------------------------------- which side a move ends on

  /** A move whose database marker was not written yet. */
  predicate Undecided(job: Job, d: Disk) {
    job.op.Move? && MoveRecoverable(job, d) && !d.databaseReady && (!d.journal ==> AtSource(job, d))
  }

  predicate Decided(job: Job, d: Disk) {
    job.op.Move? && AtTarget(job, d) && (d.journal ==> d.databaseReady)
  }

  lemma DropKeepsSide(job: Job, d: Disk, inv: (Job, Disk) -> bool)
    requires (inv == Undecided && Undecided(job, d) && AtSource(job, d)) || (inv == Decided && Decided(job, d))
    ensures Safe(Apply, inv, job, d, DropJournalPlan())
  {
    var p0: seq<Step> := [];
    SafeWhen(Apply, inv, job, d, p0, true, RemoveJournal);
    var p1 := p0 + When(true, RemoveJournal);
    SafeWhen(Apply, inv, job, d, p1, true, RemoveFilesystemReady);
    var p2 := p1 + When(true, RemoveFilesystemReady);
    SafeWhen(Apply, inv, job, d, p2, true, RemoveDatabaseReady);
    assert p2 + When(true, RemoveDatabaseReady) == DropJournalPlan();
  }

  lemma UndecidedIsUndone(job: Job, d: Disk)
    requires Started(job) && Undecided(job, d) && d.journal
    ensures RecoverMovePlan(job.op, d).Proceed?
    ensures Safe(Apply, Undecided, job, d, RecoverMovePlan(job.op, d).steps)
  {
    var op := job.op;
    TreeMoves(job);
    MetadataMoves(job);
    var p0: seq<Step> := [];
    SafeWhen(Apply, Undecided, job, d, p0, true, MoveMetadata(op.to, op.from, op.isDir));
    var p1 := p0 + When(true, MoveMetadata(op.to, op.from, op.isDir));
    var back := !Exists(d, op.from);
    SafeWhen(Apply, Undecided, job, d, p1, back, RenameTree(op.to, op.from));
    var p2 := p1 + When(back, RenameTree(op.to, op.from));
    DropKeepsSide(job, Exec(Apply, d, p2), Undecided);
    SafeAppend(Apply, Undecided, job, d, p2, DropJournalPlan());
    assert p2 + DropJournalPlan() == RecoverMovePlan(op, d).steps;
  }

  lemma DecidedIsFinished(job: Job, d: Disk)
    requires Started(job) && Decided(job, d) && d.journal
    ensures RecoverMovePlan(job.op, d).Proceed?
    ensures Safe(Apply, Decided, job, d, RecoverMovePlan(job.op, d).steps)
  {
    var op := job.op;
    TreeMoves(job);
    MetadataMoves(job);
    var p0: seq<Step> := [];
    SafeWhen(Apply, Decided, job, d, p0, true, MoveMetadata(op.from, op.to, op.isDir));
    var p1 := p0 + When(true, MoveMetadata(op.from, op.to, op.isDir));
    DropKeepsSide(job, Exec(Apply, d, p1), Decided);
    SafeAppend(Apply, Decided, job, d, p1, DropJournalPlan());
    assert p1 + DropJournalPlan() == RecoverMovePlan(op, d).steps;
  }

  /** The steps of a move before its database marker. */
  function UndecidedPlan(op: Op): seq<Step>
    requires op.Move?
  {
    [WriteJournal, RenameTree(op.from, op.to), MarkFilesystemReady, MoveMetadata(op.from, op.to, op.isDir)]
  }

  lemma UndecidedSafe(job: Job)
    requires Started(job) && job.op.Move?
    ensures Safe(Apply, Undecided, job, job.start, UndecidedPlan(job.op))
    ensures Decided(job, Apply(Exec(Apply, job.start, UndecidedPlan(job.op)), MarkDatabaseReady))
  {
    var op := job.op;
    MetadataMoves(job);
    var p0: seq<Step> := [];
    SafeWhen(Apply, Undecided, job, job.start, p0, true, WriteJournal);
    var p1 := p0 + When(true, WriteJournal);
    SafeWhen(Apply, Undecided, job, job.start, p1, true, RenameTree(op.from, op.to));
    var p2 := p1 + When(true, RenameTree(op.from, op.to));
    SafeWhen(Apply, Undecided, job, job.start, p2, true, MarkFilesystemReady);
    var p3 := p2 + When(true, MarkFilesystemReady);
    SafeWhen(Apply, Undecided, job, job.start, p3, true, MoveMetadata(op.from, op.to, op.isDir));
    assert p3 + When(true, MoveMetadata(op.from, op.to, op.isDir)) == UndecidedPlan(op);
  }

  lemma CutDecides(job: Job, cut: nat)
    requires Started(job) && job.op.Move?
    ensures var d := Exec(Apply, job.start, Cut(MovePlan(job.op), cut));
            if cut < 5 then Undecided(job, d) else Decided(job, d)
  {
    var first, mark := UndecidedPlan(job.op), [MarkDatabaseReady];
    UndecidedSafe(job);
    assert MovePlan(job.op) == first + mark + DropJournalPlan();
    if cut < 5 {
      CutInFirst(first, mark, DropJournalPlan(), cut);
      SafeCut(Apply, Undecided, job, job.start, first, cut);
    } else {
      CutInThird(first, mark, DropJournalPlan(), cut);
      ExecAppend(Apply, job.start, first, mark);
      assert mark[1..] == [];
      var d := Exec(Apply, job.start, first + mark);
      DropKeepsSide(job, d, Decided);
      CutKeeps(Apply, Decided, job, d, DropJournalPlan(), cut - 5);
      ExecAppend(Apply, job.start, first + mark, Cut(DropJournalPlan(), cut - 5));
    }
  }

  lemma {:induction false} CrashesKeepSide(job: Job, order: seq<nat>, cut: nat, lives: seq<Life<seq<nat>>>)
    requires Started(job) && job.op.Move?
    ensures var d := PathAfterCrashes(job, order, cut, lives);
            if cut < 5 then Undecided(job, d) else Decided(job, d)
    decreases |lives|
  {
    if lives == [] {
      CutDecides(job, cut);
    } else {
      var before, last := lives[..|lives| - 1], lives[|lives| - 1];
      CrashesKeepSide(job, order, cut, before);
      var d := PathAfterCrashes(job, order, cut, before);
      if d.journal {
        if cut < 5 {
          UndecidedIsUndone(job, d);
          CutKeeps(Apply, Undecided, job, d, RecoverMovePlan(job.op, d).steps, last.cut);
        } else {
          DecidedIsFinished(job, d);
          CutKeeps(Apply, Decided, job, d, RecoverMovePlan(job.op, d).steps, last.cut);
        }
      }
    }
  }

  /** The fifth step, the database marker, decides: a move cut before it ends at the source, one cut
      at or after it at the target, whatever the restarts. */
  lemma MarkerDecides(job: Job, order: seq<nat>, cut: nat, lives: seq<Life<seq<nat>>>, last: seq<nat>)
    requires Started(job) && job.op.Move? && Covers(last, job)
    ensures var d := PathAfterCrashes(job, order, cut, lives);
            && RecoveryPlan(job.op, last, d).Proceed?
            && var e := Exec(Apply, d, RecoveryPlan(job.op, last, d).steps);
               if cut < 5 then AtSource(job, e) else AtTarget(job, e)
  {
    var d := PathAfterCrashes(job, order, cut, lives);
    CrashesKeepSide(job, order, cut, lives);
    RecoverySettles(job, d, last);
  }

  /** When recovery refuses, on any disk: after the marker unless the path is only at the target, before
      it if it is at both places or neither, and whenever the rows would clash. */
  lemma RefusesExactly(op: Op, order: seq<nat>, d: Disk)
    ensures RecoveryPlan(op, order, d).Refuse? <==>
            && d.journal && op.Move?
            && var atSource, atTarget := op.from in d.tree.Values, op.to in d.tree.Values;
               if d.databaseReady then !(atTarget && !atSource && Unique(RebaseRecords(d.meta.records, op.from, op.to, op.isDir)))
               else atSource == atTarget || !Unique(RebaseRecords(d.meta.records, op.to, op.from, op.isDir))
  {
  }

  /** What is left of a table: exactly the rows neither at the path nor, for a directory, below it. */
  ghost predicate LeftOf(left: Table, before: Table, path: string, isDir: bool) {
    forall id ::
      && (id in left <==> id in before && before[id] != path && !(isDir && path + "/" <= before[id]))
      && (id in left ==> left[id] == before[id])
  }

  /** What a delete leaves: on disk nothing at or below the path and everything else, in the tables
      every row but those of the path and, for a directory, of what lay below it. */
  lemma DeletedExactly(job: Job, d: Disk)
    requires Deleted(job, d)
    ensures LeftOf(d.tree, job.start.tree, job.op.from, true)
    ensures LeftOf(d.meta.records, job.start.meta.records, job.op.from, job.op.isDir)
    ensures LeftOf(d.meta.images, job.start.meta.images, job.op.from, job.op.isDir)
    ensures LeftOf(d.meta.shares, job.start.meta.shares, job.op.from, job.op.isDir)
  {
  }

  /** Where a move puts a node or row: what followed the source follows the target. */
  predicate MovesAlong(before: Table, after: Table, op: Op, id: nat, suffix: string)
    requires op.Move?
  {
    && (id in before <==> id in after)
    && (id in before && before[id] == op.from ==> after[id] == op.to)
    && (id in before && before[id] == op.from + "/" + suffix ==> after[id] == op.to + "/" + suffix)
    && (id in before && !Under(op.from, before[id]) ==> after[id] == before[id])
  }

  lemma MovedExactly(job: Job, d: Disk, id: nat, suffix: string)
    requires Started(job) && job.op.Move? && AtTarget(job, d)
    ensures MovesAlong(job.start.tree, d.tree, job.op, id, suffix)
    ensures MovesAlong(job.start.meta.records, d.meta.records, job.op, id, suffix)
    ensures MovesAlong(job.start.meta.images, d.meta.images, job.op, id, suffix)
    ensures MovesAlong(job.start.meta.shares, d.meta.shares, job.op, id, suffix)
  {
    RebaseExactly(job.op.from, job.op.to, suffix, "");
    RecordsRebaseLikeTheRest(job.start.meta.records, job.op.from, job.op.to, job.op.isDir);
    UnderExactly(job.op.from, job.op.from + "/" + suffix);
  }

  // -------------------------------------------------- data written while pending

  /** The rows of a table at or below a path. */
  function Below(t: Table, path: string): Table {
    map id | id in t && Under(path, t[id]) :: t[id]
  }

  /** Nothing at or below `target` is added, moved or removed between two states. */
  predicate Untouched(before: Disk, after: Disk, target: string) {
    && Below(before.tree, target) == Below(after.tree, target)
    && Below(before.meta.records, target) == Below(after.meta.records, target)
    && Below(before.meta.images, target) == Below(after.meta.images, target)
    && Below(before.meta.shares, target) == Below(after.meta.shares, target)
  }

  predicate StepAvoids(step: Step, target: string) {
    match step
    case RenameTree(from, to) => Apart(from, target) && Apart(to, target)
    case MoveMetadata(from, to, _) => Apart(from, target) && Apart(to, target)
    case RemoveNode(path, _) => Apart(path, target)
    case DeleteMetadata(path, _) => Apart(path, target)
    case _ => true
  }

  lemma RebaseAvoids(t: Table, r: Table, from: string, to: string, target: string)
    requires Apart(from, target) && Apart(to, target) && r.Keys == t.Keys
    requires forall id <- t :: r[id] == t[id] || (Under(from, t[id]) && Under(to, r[id]))
    ensures Below(r, target) == Below(t, target)
  {
    forall id | id in t ensures r[id] == t[id] || (!Under(target, t[id]) && !Under(target, r[id])) {
      if r[id] != t[id] {
        ApartSubtreesAreDisjoint(from, target, t[id]);
        ApartSubtreesAreDisjoint(to, target, r[id]);
      }
    }
  }

  lemma RebaseMoves(t: Table, from: string, to: string, isDir: bool)
    ensures forall id <- t :: var r := RebaseRecords(t, from, to, isDir)[id];
                              r == t[id] || (Under(from, t[id]) && Under(to, r))
    ensures forall id <- t :: var r := RebaseTable(t, from, to)[id];
                              r == t[id] || (Under(from, t[id]) && Under(to, r))
  {
    forall id | id in t && Under(from, t[id]) ensures Under(to, Rebase(t[id], from, to)) {
      RebaseLandsUnder(t[id], from, to);
    }
  }

  lemma DropAvoids(t: Table, path: string, isDir: bool, target: string)
    requires Apart(path, target)
    ensures Below(DropRows(t, path, isDir), target) == Below(t, target)
  {
    forall id | id in t && Under(target, t[id]) ensures !Removes(path, isDir, t[id]) {
      ApartSubtreesAreDisjoint(target, path, t[id]);
    }
  }

  lemma MetadataAvoids(m: Metadata, from: string, to: string, isDir: bool, target: string)
    requires Apart(from, target) && Apart(to, target)
    ensures var r := RebaseMetadata(m, from, to, isDir);
            && Below(r.records, target) == Below(m.records, target)
            && Below(r.images, target) == Below(m.images, target)
            && Below(r.shares, target) == Below(m.shares, target)
  {
    RebaseMoves(m.records, from, to, isDir);
    RebaseAvoids(m.records, RebaseRecords(m.records, from, to, isDir), from, to, target);
    RebaseMoves(m.images, from, to, isDir);
    RebaseAvoids(m.images, RebaseTable(m.images, from, to), from, to, target);
    RebaseMoves(m.shares, from, to, isDir);
    RebaseAvoids(m.shares, RebaseTable(m.shares, from, to), from, to, target);
  }

  lemma StepKeeps(d: Disk, step: Step, target: string)
    requires StepAvoids(step, target)
    ensures Untouched(d, Apply(d, step), target)
  {
    match step
    case RenameTree(from, to) =>
      RebaseMoves(d.tree, from, to, true);
      RebaseAvoids(d.tree, RebaseTable(d.tree, from, to), from, to, target);
    case MoveMetadata(from, to, isDir) =>
      MetadataAvoids(d.meta, from, to, isDir, target);
    case RemoveNode(path, node) =>
      if node in d.tree && Under(path, d.tree[node]) {
        ApartSubtreesAreDisjoint(path, target, d.tree[node]);
      }
    case DeleteMetadata(path, isDir) =>
      DropAvoids(d.meta.records, path, isDir, target);
      DropAvoids(d.meta.images, path, isDir, target);
      DropAvoids(d.meta.shares, path, isDir, target);
    case _ =>
  }

  lemma {:induction false} AvoidingRun(d: Disk, steps: seq<Step>, target: string)
    requires forall step <- steps :: StepAvoids(step, target)
    ensures Untouched(d, Exec(Apply, d, steps), target)
    decreases |steps|
  {
    if steps != [] {
      assert StepAvoids(steps[0], target);
      StepKeeps(d, steps[0], target);
      AvoidingRun(Apply(d, steps[0]), steps[1..], target);
    }
  }

  /** A journal found on disk, and whether its database marker exists. */
  datatype Pending = Pending(op: Op, committed: bool)

  predicate Blocks(pending: Pending, target: string) {
    && !(pending.op.Delete? && pending.committed)
    && (!Apart(target, pending.op.from) || (pending.op.Move? && !Apart(target, pending.op.to)))
  }

  /** The write guard lets a write through exactly when no pending journal still has authority
      over a path at, above or below it. */
  method GuardPendingWrite(pending: seq<Pending>, targets: seq<string>) returns (allowed: bool)
    ensures allowed <==> forall p, target :: p in pending && target in targets && !(p.op.Delete? && p.committed) ==>
                           Apart(target, p.op.from) && (p.op.Move? ==> Apart(target, p.op.to))
  {
    for i := 0 to |pending|
      invariant forall k, target :: 0 <= k < i && target in targets ==> !Blocks(pending[k], target)
    {
      var p := pending[i];
      if !(p.op.Delete? && p.committed) {
        for j := 0 to |targets|
          invariant forall k :: 0 <= k < j ==> !Blocks(p, targets[k])
        {
          var target := targets[j];
          var paths := if p.op.Move? then [p.op.from, p.op.to] else [p.op.from];
          for k := 0 to |paths|
            invariant forall n :: 0 <= n < k ==> Apart(target, paths[n])
          {
            if target == paths[k] || paths[k] + "/" <= target || target + "/" <= paths[k] {
              assert p in pending && target in targets && !Apart(target, paths[k]);
              return false;
            }
          }
          assert Apart(target, paths[0]);
          assert p.op.Move? ==> Apart(target, paths[1]);
        }
      }
    }
    assert forall p, target :: p in pending && target in targets ==> !Blocks(p, target);
    return true;
  }

  /** What the guard is for: recovery of a journal that does not block a path, on whatever disk
      it finds and however far it gets, leaves everything at or below the path alone. */
  lemma RecoveryKeepsGuardedWrites(op: Op, d: Disk, order: seq<nat>, target: string, cut: nat)
    requires !Blocks(Pending(op, d.databaseReady), target)
    requires RecoveryPlan(op, order, d).Proceed?
    ensures Untouched(d, Exec(Apply, d, Cut(RecoveryPlan(op, order, d).steps, cut)), target)
  {
    var steps := RecoveryPlan(op, order, d).steps;
    forall step | step in steps ensures StepAvoids(step, target) {
      if op.Delete? && !d.databaseReady && d.journal {
        var i :| 0 <= i < |steps| && steps[i] == step;
        assert i < |order| ==> step == RemoveNode(op.from, order[i]);
      }
    }
    AvoidingRun(d, Cut(steps, cut), target);
  }

  /** A committed delete never touches its path again: whatever was written there since survives
      any number of restarts, however each is cut. */
  lemma CommittedDeleteIsInert(op: Op, d: Disk, lives: seq<Life<seq<nat>>>)
    requires op.Delete? && (d.journal ==> d.databaseReady)
    ensures var e := AfterCrashes(Apply, Recover, Job(op, d), d, [], 0, lives);
            e.tree == d.tree && e.meta == d.meta
  {
    var job := Job(op, d);
    forall life, e | life in lives && Inert(job, e) && Recover(job, life.order, e).Proceed?
      ensures Safe(Apply, Inert, job, e, Recover(job, life.order, e).steps)
    {
      InertRecovery(job, e, life.order);
    }
    CrashesKeep(Apply, Inert, Recover, job, d, [], 0, lives);
  }

  predicate Inert(job: Job, d: Disk) {
    d.tree == job.start.tree && d.meta == job.start.meta && (d.journal ==> d.databaseReady)
  }

  lemma InertRecovery(job: Job, d: Disk, order: seq<nat>)
    requires job.op.Delete? && Inert(job, d)
    ensures Safe(Apply, Inert, job, d, RecoveryPlan(job.op, order, d).steps)
  {
    if d.journal {
      var p0: seq<Step> := [];
      SafeWhen(Apply, Inert, job, d, p0, true, RemoveJournal);
      var p1 := p0 + When(true, RemoveJournal);
      SafeWhen(Apply, Inert, job, d, p1, true, RemoveFilesystemReady);
      var p2 := p1 + When(true, RemoveFilesystemReady);
      SafeWhen(Apply, Inert, job, d, p2, true, RemoveDatabaseReady);
      assert p2 + When(true, RemoveDatabaseReady) == DropJournalPlan();
    }
  }

  // ------------------------------------------------------- moving rows one by one

  /** The image and share updates: one row at a time. */
  method UpdatePaths(t: Table, from: string, to: string) returns (r: Table)
    ensures r == RebaseTable(t, from, to)
  {
    r := t;
    var pending := set id | id in t && Under(from, t[id]);
    while pending != {}
      invariant pending <= t.Keys && r.Keys == t.Keys
      invariant forall id <- t :: id in pending ==> Under(from, t[id])
      invariant forall id <- t :: r[id] == if id in pending then t[id] else Rebase(t[id], from, to)
      decreases pending
    {
      var id :| id in pending;
      r := r[id := to + t[id][|from|..]];
      pending := pending - {id};
    }
  }

  /** Where the ledger's update stands: the pending rows have still to move. */
  ghost predicate Moving(t: Table, from: string, to: string, isDir: bool, pending: set<nat>, r: Table) {
    && pending <= t.Keys && r.Keys == t.Keys && Unique(r)
    && forall id <- t :: if id in pending then Under(from, t[id]) && r[id] == t[id]
                         else r[id] == RecordPath(t[id], from, to, isDir)
  }

  /** A row about to land on another row's path clashes with it in the end too: a row still to be
      moved lies under the source, where nothing lands. */
  lemma ClashIsFinal(t: Table, from: string, to: string, isDir: bool, pending: set<nat>, r: Table, id: nat, other: nat)
    requires Apart(from, to) && Moving(t, from, to, isDir, pending, r) && id in pending && other in r && other != id
    requires r[other] == RecordPath(t[id], from, to, isDir)
    ensures !Unique(RebaseRecords(t, from, to, isDir))
  {
    var moved := RebaseRecords(t, from, to, isDir);
    if other in pending {
      if isDir {
        RebaseLandsUnder(t[id], from, to);
      }
      assert Under(to, r[other]);
      ApartSubtreesAreDisjoint(from, to, t[other]);
      assert false;
    }
    assert moved[other] == moved[id];
  }

  /** The ledger's update, under its unique index.  It fails on a clash between two rows, and the
      transaction with it; it clashes only when the moved ledger as a whole would. */
  method UpdateRecords(t: Table, from: string, to: string, isDir: bool) returns (ok: bool, r: Table)
    requires Unique(t) && Apart(from, to)
    ensures ok <==> Unique(RebaseRecords(t, from, to, isDir))
    ensures r == if ok then RebaseRecords(t, from, to, isDir) else t
  {
    r := t;
    var pending := set id | id in t && Under(from, t[id]);
    while pending != {}
      invariant Moving(t, from, to, isDir, pending, r)
      decreases pending
    {
      var id :| id in pending;
      var newRel := RecordPath(t[id], from, to, isDir);
      if other :| other in r && other != id && r[other] == newRel {
        ClashIsFinal(t, from, to, isDir, pending, r, id, other);
        return false, t;
      }
      r := r[id := newRel];
      pending := pending - {id};
    }
    assert r == RebaseRecords(t, from, to, isDir);
    return true, r;
  }

  /** movePathMetadata: one transaction over the three tables, all or nothing. */
  method MovePathMetadata(meta: Metadata, from: string, to: string, isDir: bool) returns (ok: bool, r: Metadata)
    requires Unique(meta.records) && Apart(from, to)
    ensures ok <==> Unique(RebaseMetadata(meta, from, to, isDir).records)
    ensures r == if ok then RebaseMetadata(meta, from, to, isDir) else meta
    ensures forall d: Disk :: d.meta == meta ==> Apply(d, MoveMetadata(from, to, isDir)) == d.(meta := r)
  {
    var images := UpdatePaths(meta.images, from, to);
    var shares := UpdatePaths(meta.shares, from, to);
    var records;
    ok, records := UpdateRecords(meta.records, from, to, isDir);
    return ok, if ok then Metadata(records, images, shares) else meta;
  }
}
