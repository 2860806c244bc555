/** Cross-source move (internal/files/transfer.go). */
module Transfer {
  import opened Crash
  import opened Paths
  import opened Wrappers

  // Moving a subtree to another source (transfer in internal/files/transfer.go and
  // internal/files/transfer_recovery.go).
  //
  // The tree is copied node by node, the ledger is switched over in one transaction, and the
  // source tree is then removed node by node.  The database marker is the commit point.

  datatype Node = Dir | File(bytes: string, mtime: int)

  type Tree = map<string, Node>

  datatype Row = Row(owner: Option<nat>, size: nat, mtime: int)

  type Rows = map<string, Row>

  /** An image or share row: which of the two sources it points into, and where. */
  datatype Place = Place(onTarget: bool, path: string)

  type Places = map<nat, Place>

  datatype Ledger = Ledger(sourceRows: Rows, targetRows: Rows, images: Places, shares: Places)

  datatype Disk = Disk(
    source: Tree,
    target: Tree,
    ledger: Ledger,
    journal: bool,
    targetReady: bool,
    databaseReady: bool)

  /** `hidden` are the source's paths that a scan skips: internal, excluded and managed names.  A move
      begins only where those of its tree are internal names. */
  datatype Op = Op(from: string, to: string, hidden: set<string>)

  datatype Step =
    | WriteJournal
    | CopyNode(op: Op, path: string, mtime: int)
    | MarkTargetReady
    | SyncRecords(op: Op)
    | MarkDatabaseReady
    | RemoveSource(path: string)
    | RollbackRecords(op: Op)
    | ReconcileSource(op: Op)
    | RemoveTarget(path: string)
    | RemoveJournal
    | RemoveTargetReady
    | RemoveDatabaseReady

  function Copied(node: Node, mtime: int): Node {
    if node.File? then File(node.bytes, mtime) else Dir
  }

  /** Images and shares follow the subtree to the other source. */
  function MovePlaces(t: Places, toTarget: bool, from: string, to: string): (r: Places)
    ensures r.Keys == t.Keys
  {
    map id | id in t :: if t[id].onTarget != toTarget && Under(from, t[id].path)
                        then Place(toTarget, Rebase(t[id].path, from, to)) else t[id]
  }

  function OwnerOf(rows: Rows, path: string): Option<nat> {
    if path in rows then rows[path].owner else None
  }

  function WithoutSubtree(rows: Rows, root: string): Rows {
    map p | p in rows && !Under(root, p) :: rows[p]
  }

  /** The rows of the copied files: owners from the source's rows, size and time from disk. */
  function CopiedRows(op: Op, sourceRows: Rows, target: Tree): Rows {
    map q | q in target && Under(op.to, q) && target[q].File? ::
      Row(OwnerOf(sourceRows, Rebase(q, op.to, op.from)), |target[q].bytes|, target[q].mtime)
  }

  function Synced(op: Op, l: Ledger, target: Tree): Ledger {
    Ledger(
      WithoutSubtree(l.sourceRows, op.from),
      WithoutSubtree(l.targetRows, op.to) + CopiedRows(op, l.sourceRows, target),
      MovePlaces(l.images, true, op.from, op.to),
      MovePlaces(l.shares, true, op.from, op.to))
  }

  predicate ComesBack(op: Op, targetRows: Rows, path: string) {
    Under(op.from, path) && Rebase(path, op.from, op.to) in targetRows
  }

  function BackPaths(op: Op, targetRows: Rows): set<string> {
    set q | q in targetRows && Under(op.to, q) :: Rebase(q, op.to, op.from)
  }

  function RestoredRows(op: Op, sourceRows: Rows, targetRows: Rows): Rows {
    map p | p in sourceRows.Keys + BackPaths(op, targetRows) && (p in sourceRows || ComesBack(op, targetRows, p)) ::
      if ComesBack(op, targetRows, p) then targetRows[Rebase(p, op.from, op.to)] else sourceRows[p]
  }

  function RolledBack(op: Op, l: Ledger): Ledger {
    Ledger(
      RestoredRows(op, l.sourceRows, l.targetRows),
      WithoutSubtree(l.targetRows, op.to),
      MovePlaces(l.images, false, op.to, op.from),
      MovePlaces(l.shares, false, op.to, op.from))
  }

  /** Reconciling the source: one row per scanned file, keeping owners that are known. */
  function Reconciled(op: Op, sourceRows: Rows, source: Tree): Rows {
    map p | p in source && source[p].File? && p !in op.hidden ::
      Row(OwnerOf(sourceRows, p), |source[p].bytes|, source[p].mtime)
  }

  function Apply(d: Disk, step: Step): Disk {
    match step
    case WriteJournal => d.(journal := true)
    case CopyNode(op, path, mtime) =>
      if path in d.source then
        d.(target := d.target[Rebase(path, op.from, op.to) := Copied(d.source[path], mtime)])
      else d
    case MarkTargetReady => d.(targetReady := true)
    case SyncRecords(op) => d.(ledger := Synced(op, d.ledger, d.target))
    case MarkDatabaseReady => d.(databaseReady := true)
    case RemoveSource(path) => d.(source := d.source - {path})
    case RollbackRecords(op) => d.(ledger := RolledBack(op, d.ledger))
    case ReconcileSource(op) =>
      d.(ledger := d.ledger.(sourceRows := Reconciled(op, d.ledger.sourceRows, d.source)))
    case RemoveTarget(path) => d.(target := d.target - {path})
    case RemoveJournal => d.(journal := false)
    case RemoveTargetReady => d.(targetReady := false)
    case RemoveDatabaseReady => d.(databaseReady := false)
  }

  // ---------------------------------------------------------------------- plans

  /** The order in which the nodes of the two trees are removed. */
  datatype Order = Order(source: seq<string>, target: seq<string>)

  /** A node to copy and the time its copy gets. */
  type Copies = seq<(string, int)>

  function CopyAll(op: Op, copies: Copies): (steps: seq<Step>)
    ensures |steps| == |copies|
    ensures forall i :: 0 <= i < |copies| ==> steps[i] == CopyNode(op, copies[i].0, copies[i].1)
  {
    if copies == [] then [] else [CopyNode(op, copies[0].0, copies[0].1)] + CopyAll(op, copies[1..])
  }

  function RemoveSources(order: seq<string>): (steps: seq<Step>)
    ensures |steps| == |order|
    ensures forall i :: 0 <= i < |order| ==> steps[i] == RemoveSource(order[i])
  {
    if order == [] then [] else [RemoveSource(order[0])] + RemoveSources(order[1..])
  }

  function RemoveTargets(order: seq<string>): (steps: seq<Step>)
    ensures |steps| == |order|
    ensures forall i :: 0 <= i < |order| ==> steps[i] == RemoveTarget(order[i])
  {
    if order == [] then [] else [RemoveTarget(order[0])] + RemoveTargets(order[1..])
  }

  function DropJournalPlan(): seq<Step> {
    [RemoveJournal, RemoveTargetReady, RemoveDatabaseReady]
  }

  function FinishPlan(removeSource: bool, order: Order): seq<Step> {
    (if removeSource then RemoveSources(order.source) else []) + DropJournalPlan()
  }

  function CommitPlan(op: Op): seq<Step> {
    [MarkTargetReady, SyncRecords(op), MarkDatabaseReady]
  }

  function BeginPlan(op: Op, copies: Copies): seq<Step> {
    [WriteJournal] + CopyAll(op, copies)
  }

  function TransferPlan(op: Op, copies: Copies, order: Order): seq<Step> {
    BeginPlan(op, copies) + CommitPlan(op) + FinishPlan(true, order)
  }

  function UndoPlan(removeTarget: bool, order: Order): seq<Step> {
    (if removeTarget then RemoveTargets(order.target) else []) + DropJournalPlan()
  }

  function RestoreRecordsPlan(op: Op): seq<Step> {
    [RollbackRecords(op), ReconcileSource(op)]
  }

  function RollbackPlan(op: Op, removeTarget: bool, order: Order): seq<Step> {
    RestoreRecordsPlan(op) + UndoPlan(removeTarget, order)
  }

  function OrphanPlan(d: Disk): seq<Step> {
    When(d.databaseReady, RemoveDatabaseReady) + When(d.targetReady, RemoveTargetReady)
  }

  /** What RecoverTransferOperations decides from durable state. */
  function RecoveryPlan(op: Op, order: Order, d: Disk): Decision<Step> {
    if !d.journal then Proceed(OrphanPlan(d))
    else if d.databaseReady then
      if !d.targetReady || op.to !in d.target then Refuse
      else Proceed(FinishPlan(op.from in d.source, order))
    else if op.from !in d.source then Refuse
    else Proceed(RollbackPlan(op, op.to in d.target, order))
  }

  // ------------------------------------------------------------------ invariant

  datatype Job = Job(op: Op, start: Disk)

  predicate Moves(job: Job, path: string) {
    path in job.start.source && Under(job.op.from, path) && path !in job.op.hidden
  }

  predicate Fresh(job: Job) {
    var op, s := job.op, job.start;
    && (forall q <- s.target :: !Under(op.to, q))
    && (forall q <- s.ledger.targetRows :: !Under(op.to, q))
    && (forall id <- s.ledger.images :: s.ledger.images[id].onTarget ==> !Under(op.to, s.ledger.images[id].path))
    && (forall id <- s.ledger.shares :: s.ledger.shares[id].onTarget ==> !Under(op.to, s.ledger.shares[id].path))
  }

  /** The source exists and its ledger agrees with its disk; nothing is at or below the target,
      on disk or in any table; and the operation's identifier is fresh. */
  predicate Started(job: Job) {
    var op, s := job.op, job.start;
    && !s.journal && !s.targetReady && !s.databaseReady
    && Moves(job, op.from)
    && s.ledger.sourceRows == Reconciled(op, s.ledger.sourceRows, s.source)
    && Fresh(job)
  }

  /** The target source holds its own files and faithful copies of some moved nodes. */
  predicate PartlyCopied(job: Job, target: Tree) {
    && (forall q <- job.start.target :: q in target && target[q] == job.start.target[q])
    && (forall q <- target :: q in job.start.target || Under(job.op.to, q))
    && (forall q <- target :: Under(job.op.to, q) ==>
          var p := Rebase(q, job.op.to, job.op.from);
          Moves(job, p) && target[q] == Copied(job.start.source[p], if target[q].File? then target[q].mtime else 0))
    && ((exists q <- target :: Under(job.op.to, q)) ==> job.op.to in target)
  }

  /** Every moved node has its copy. */
  predicate Complete(job: Job, target: Tree) {
    && PartlyCopied(job, target)
    && forall p <- job.start.source :: Moves(job, p) ==> Rebase(p, job.op.from, job.op.to) in target
  }

  /** Everything but some nodes of the subtree is left, and the root is the last to go. */
  predicate PartlyRemoved(job: Job, source: Tree) {
    && (forall p <- source :: p in job.start.source && source[p] == job.start.source[p])
    && (forall p <- job.start.source :: !Under(job.op.from, p) ==> p in source)
    && ((exists p <- source :: Under(job.op.from, p)) ==> job.op.from in source)
  }

  predicate Removed(job: Job, source: Tree) {
    PartlyRemoved(job, source) && job.op.from !in source
  }

  /** Every row is on the source's side; only sizes and times of moved files may be off, which
      reconciling repairs. */
  predicate OnSource(job: Job, l: Ledger) {
    var s := job.start.ledger;
    && l.targetRows == s.targetRows && l.images == s.images && l.shares == s.shares
    && l.sourceRows.Keys == s.sourceRows.Keys
    && (forall p <- s.sourceRows :: l.sourceRows[p].owner == s.sourceRows[p].owner)
  }

  /** Every row is on the target's side and agrees with its disk. */
  predicate OnTarget(job: Job, l: Ledger, target: Tree) {
    l == Synced(job.op, job.start.ledger, target)
  }

  predicate AtSource(job: Job, d: Disk) {
    d.source == job.start.source && d.target == job.start.target && d.ledger == job.start.ledger
  }

  predicate AtTarget(job: Job, d: Disk) {
    Removed(job, d.source) && Complete(job, d.target) && OnTarget(job, d.ledger, d.target)
  }

  predicate Uncommitted(job: Job, d: Disk) {
    && d.journal && !d.databaseReady
    && d.source == job.start.source && PartlyCopied(job, d.target)
    && (OnSource(job, d.ledger) || (Complete(job, d.target) && OnTarget(job, d.ledger, d.target)))
  }

  predicate Committed(job: Job, d: Disk) {
    && d.journal && d.databaseReady && d.targetReady
    && PartlyRemoved(job, d.source) && Complete(job, d.target) && OnTarget(job, d.ledger, d.target)
  }

  predicate Recoverable(job: Job, d: Disk) {
    || Uncommitted(job, d)
    || Committed(job, d)
    || (!d.journal && ((AtSource(job, d) && !d.databaseReady) || AtTarget(job, d)))
  }

  predicate Settled(job: Job, d: Disk) {
    !d.journal && !d.targetReady && !d.databaseReady && (AtSource(job, d) || AtTarget(job, d))
  }

  predicate RootLast(order: seq<string>, root: string) {
    order != [] && order[|order| - 1] == root && root !in order[..|order| - 1]
  }

  /** Directories are emptied before they are removed, so the root goes last. */
  predicate ValidOrder(job: Job, order: Order) {
    && RootLast(order.source, job.op.from) && RootLast(order.target, job.op.to)
    && (forall p <- job.start.source :: Under(job.op.from, p) ==> p in order.source)
    && (forall p <- order.source :: Under(job.op.from, p))
    && (forall p <- job.start.source :: Moves(job, p) ==> Rebase(p, job.op.from, job.op.to) in order.target)
    && (forall q <- order.target :: Under(job.op.to, q))
  }

  /** Directories are made before what they hold, so the root comes first. */
  predicate ValidCopies(job: Job, copies: Copies) {
    && copies != [] && copies[0].0 == job.op.from
    && (forall c <- copies :: Moves(job, c.0))
    && (forall p <- job.start.source :: Moves(job, p) ==> exists c <- copies :: c.0 == p)
  }

  // ------------------------------------------------------------- the two trees

  /** One more node copied: its parent directories, the root first of all, are already there. */
  lemma CopyKeeps(job: Job, target: Tree, path: string, mtime: int)
    requires Started(job) && PartlyCopied(job, target) && Moves(job, path)
    requires path == job.op.from || job.op.to in target
    ensures var q := Rebase(path, job.op.from, job.op.to);
            PartlyCopied(job, target[q := Copied(job.start.source[path], mtime)])
    ensures path == job.op.from ==> Rebase(path, job.op.from, job.op.to) == job.op.to
  {
    var q := Rebase(path, job.op.from, job.op.to);
    RebaseLandsUnder(path, job.op.from, job.op.to);
    RebaseUndone(path, job.op.from, job.op.to);
    if path == job.op.from {
      assert q == job.op.to + "";
    }
  }

  lemma NothingCopied(job: Job, target: Tree)
    requires PartlyCopied(job, target) && job.op.to !in target
    ensures target == job.start.target
  {
    forall q | q in target ensures q in job.start.target {
      assert !Under(job.op.to, q);
    }
  }

  lemma CopiedThenComplete(job: Job, target: Tree, copies: Copies)
    requires PartlyCopied(job, target) && ValidCopies(job, copies)
    requires forall c <- copies :: Rebase(c.0, job.op.from, job.op.to) in target
    ensures Complete(job, target)
  {
    forall p | p in job.start.source && Moves(job, p)
      ensures Rebase(p, job.op.from, job.op.to) in target
    {
      var c :| c in copies && c.0 == p;
    }
  }

  // --------------------------------------------------------------- the ledgers

  /** Image and share rows sent over come back where they were. */
  lemma PlacesReturn(t: Places, from: string, to: string)
    requires forall id <- t :: t[id].onTarget ==> !Under(to, t[id].path)
    ensures MovePlaces(MovePlaces(t, true, from, to), false, to, from) == t
    ensures MovePlaces(t, false, to, from) == t
  {
    forall id | id in t
      ensures MovePlaces(MovePlaces(t, true, from, to), false, to, from)[id] == t[id]
    {
      if Under(from, t[id].path) && !t[id].onTarget {
        RebaseLandsUnder(t[id].path, from, to);
        RebaseUndone(t[id].path, from, to);
      }
    }
  }

  lemma NothingComesBack(job: Job, path: string)
    requires Started(job)
    ensures !ComesBack(job.op, job.start.ledger.targetRows, path)
  {
    if Under(job.op.from, path) {
      RebaseLandsUnder(path, job.op.from, job.op.to);
    }
  }

  /** Rolling records back when none were switched over changes none. */
  lemma RollbackKeepsSource(job: Job, l: Ledger)
    requires Started(job) && OnSource(job, l)
    ensures OnSource(job, RolledBack(job.op, l))
  {
    var s := job.start.ledger;
    PlacesReturn(s.images, job.op.from, job.op.to);
    PlacesReturn(s.shares, job.op.from, job.op.to);
    assert BackPaths(job.op, s.targetRows) == {};
    forall p ensures !ComesBack(job.op, s.targetRows, p) {
      NothingComesBack(job, p);
    }
    assert RestoredRows(job.op, l.sourceRows, l.targetRows) == l.sourceRows;
  }

  /** The switched-over ledger has, in the target, the row of a moved file exactly where its copy
      is, with the owner the source's row had. */
  lemma SyncedRow(job: Job, target: Tree, p: string)
    requires Started(job) && Complete(job, target) && Under(job.op.from, p)
    ensures var rows := CopiedRows(job.op, job.start.ledger.sourceRows, target);
            var q := Rebase(p, job.op.from, job.op.to);
            && (q in rows <==> p in job.start.ledger.sourceRows)
            && (q in rows ==> rows[q].owner == job.start.ledger.sourceRows[p].owner)
  {
    var q := Rebase(p, job.op.from, job.op.to);
    RebaseLandsUnder(p, job.op.from, job.op.to);
    RebaseUndone(p, job.op.from, job.op.to);
    assert q in target <==> Moves(job, p);
  }

  lemma SwitchedRowsReturn(job: Job, target: Tree)
    requires Started(job) && Complete(job, target)
    ensures var op, s := job.op, job.start.ledger;
            var back := RestoredRows(op, WithoutSubtree(s.sourceRows, op.from), Synced(op, s, target).targetRows);
            back.Keys == s.sourceRows.Keys && forall p <- s.sourceRows :: back[p].owner == s.sourceRows[p].owner
  {
    var op, s := job.op, job.start.ledger;
    var rows := CopiedRows(op, s.sourceRows, target);
    var switched := Synced(op, s, target).targetRows;
    assert switched == WithoutSubtree(s.targetRows, op.to) + rows;
    var left := WithoutSubtree(s.sourceRows, op.from);
    var back := RestoredRows(op, left, switched);
    forall p ensures p in back <==> p in s.sourceRows
             ensures p in back ==> back[p].owner == s.sourceRows[p].owner
    {
      if Under(op.from, p) {
        SyncedRow(job, target, p);
        var q := Rebase(p, op.from, op.to);
        RebaseLandsUnder(p, op.from, op.to);
        RebaseUndone(p, op.from, op.to);
        assert q in switched <==> q in rows;
        assert ComesBack(op, switched, p) <==> p in s.sourceRows;
        if q in switched {
          assert Rebase(q, op.to, op.from) in BackPaths(op, switched);
        }
      } else {
        assert !ComesBack(op, switched, p);
      }
    }
  }

  lemma TargetRowsReturn(op: Op, targetRows: Rows, added: Rows)
    requires forall q <- targetRows :: !Under(op.to, q)
    requires forall q <- added :: Under(op.to, q)
    ensures WithoutSubtree(WithoutSubtree(targetRows, op.to) + added, op.to) == targetRows
  {
  }

  /** Rolling records back after the switch puts every row back on the source's side. */
  lemma RollbackUndoesSync(job: Job, target: Tree)
    requires Started(job) && Complete(job, target)
    ensures OnSource(job, RolledBack(job.op, Synced(job.op, job.start.ledger, target)))
  {
    var op, s := job.op, job.start.ledger;
    PlacesReturn(s.images, op.from, op.to);
    PlacesReturn(s.shares, op.from, op.to);
    SwitchedRowsReturn(job, target);
    TargetRowsReturn(op, s.targetRows, CopiedRows(op, s.sourceRows, target));
  }

  /** Reconciling against the untouched source tree restores the ledger exactly. */
  lemma ReconcileRestores(job: Job, l: Ledger)
    requires Started(job) && OnSource(job, l)
    ensures l.(sourceRows := Reconciled(job.op, l.sourceRows, job.start.source)) == job.start.ledger
  {
    var s := job.start.ledger;
    var again := Reconciled(job.op, l.sourceRows, job.start.source);
    forall p ensures p in again <==> p in s.sourceRows
             ensures p in again ==> again[p] == s.sourceRows[p]
    {
    }
    assert again == s.sourceRows;
  }

  // -------------------------------------------------------------- whole plans

  lemma {:induction false} CopyLoop(job: Job, d: Disk, copies: Copies)
    requires Started(job) && Uncommitted(job, d) && d.ledger == job.start.ledger
    requires forall c <- copies :: Moves(job, c.0)
    requires copies != [] ==> copies[0].0 == job.op.from || job.op.to in d.target
    ensures var e := Exec(Apply, d, CopyAll(job.op, copies));
            && Safe(Apply, Recoverable, job, d, CopyAll(job.op, copies))
            && Uncommitted(job, e) && e == d.(target := e.target)
            && d.target.Keys <= e.target.Keys
            && forall c <- copies :: Rebase(c.0, job.op.from, job.op.to) in e.target
    decreases |copies|
  {
    var steps := CopyAll(job.op, copies);
    if copies != [] {
      assert copies[0] in copies;
      CopyKeeps(job, d.target, copies[0].0, copies[0].1);
      var next := Apply(d, steps[0]);
      assert next == d.(target := next.target);
      assert job.op.to in next.target;
      CopyLoop(job, next, copies[1..]);
      assert steps[1..] == CopyAll(job.op, copies[1..]);
    }
  }

  lemma {:induction false} RemoveTargetLoop(job: Job, d: Disk, order: seq<string>)
    requires Started(job) && Uncommitted(job, d) && OnSource(job, d.ledger)
    requires RootLast(order, job.op.to) && forall q <- order :: Under(job.op.to, q)
    requires forall q <- d.target :: Under(job.op.to, q) ==> q in order
    ensures var e := Exec(Apply, d, RemoveTargets(order));
            && Safe(Apply, Recoverable, job, d, RemoveTargets(order))
            && Uncommitted(job, e) && e == d.(target := job.start.target)
    decreases |order|
  {
    var steps := RemoveTargets(order);
    var next := Apply(d, steps[0]);
    assert Uncommitted(job, next);
    if |order| == 1 {
      NothingCopied(job, next.target);
      assert steps[1..] == [];
    } else {
      assert order[1..][..|order| - 2] == order[..|order| - 1][1..];
      RemoveTargetLoop(job, next, order[1..]);
      assert steps[1..] == RemoveTargets(order[1..]);
    }
  }

  lemma {:induction false} RemoveSourceLoop(job: Job, d: Disk, order: seq<string>)
    requires Committed(job, d)
    requires RootLast(order, job.op.from) && forall p <- order :: Under(job.op.from, p)
    requires forall p <- d.source :: Under(job.op.from, p) ==> p in order
    ensures var e := Exec(Apply, d, RemoveSources(order));
            && Safe(Apply, Recoverable, job, d, RemoveSources(order))
            && Committed(job, e) && Removed(job, e.source)
    decreases |order|
  {
    var steps := RemoveSources(order);
    var next := Apply(d, steps[0]);
    assert Committed(job, next);
    if |order| == 1 {
      assert steps[1..] == [];
    } else {
      assert order[1..][..|order| - 2] == order[..|order| - 1][1..];
      RemoveSourceLoop(job, next, order[1..]);
      assert steps[1..] == RemoveSources(order[1..]);
    }
  }

  /** Clearing the journal of a finished transfer, forwards or backwards. */
  lemma DropJournalSafe(job: Job, d: Disk)
    requires Recoverable(job, d) && d.journal
    requires (AtSource(job, d) && !d.databaseReady) || AtTarget(job, d)
    ensures Safe(Apply, Recoverable, job, d, DropJournalPlan())
    ensures Exec(Apply, d, DropJournalPlan()) == d.(journal := false, targetReady := false, databaseReady := false)
  {
    var p0: seq<Step> := [];
    SafeWhen(Apply, Recoverable, job, d, p0, true, RemoveJournal);
    var p1 := p0 + When(true, RemoveJournal);
    SafeWhen(Apply, Recoverable, job, d, p1, true, RemoveTargetReady);
    var p2 := p1 + When(true, RemoveTargetReady);
    SafeWhen(Apply, Recoverable, job, d, p2, true, RemoveDatabaseReady);
    assert p2 + When(true, RemoveDatabaseReady) == DropJournalPlan();
  }

  /** Past the commit point the transfer is finished. */
  lemma FinishSafe(job: Job, d: Disk, removeSource: bool, order: Order)
    requires Started(job) && Committed(job, d) && ValidOrder(job, order)
    requires job.op.from in d.source ==> removeSource
    ensures var plan := FinishPlan(removeSource, order); var e := Exec(Apply, d, plan);
            Safe(Apply, Recoverable, job, d, plan) && Settled(job, e) && AtTarget(job, e)
  {
    var removal := if removeSource then RemoveSources(order.source) else [];
    if removeSource {
      RemoveSourceLoop(job, d, order.source);
    }
    var e := Exec(Apply, d, removal);
    DropJournalSafe(job, e);
    SafeAppend(Apply, Recoverable, job, d, removal, DropJournalPlan());
    ExecAppend(Apply, d, removal, DropJournalPlan());
  }

  lemma UndoSafe(job: Job, d: Disk, removeTarget: bool, order: Order)
    requires Started(job) && Uncommitted(job, d) && d.ledger == job.start.ledger && ValidOrder(job, order)
    requires job.op.to in d.target ==> removeTarget
    ensures var plan := UndoPlan(removeTarget, order); var e := Exec(Apply, d, plan);
            Safe(Apply, Recoverable, job, d, plan) && Settled(job, e) && AtSource(job, e)
  {
    var removal := if removeTarget then RemoveTargets(order.target) else [];
    if removeTarget {
      forall q | q in d.target && Under(job.op.to, q) ensures q in order.target {
        RebaseUndone(q, job.op.to, job.op.from);
      }
      RemoveTargetLoop(job, d, order.target);
    } else {
      NothingCopied(job, d.target);
    }
    var e := Exec(Apply, d, removal);
    DropJournalSafe(job, e);
    SafeAppend(Apply, Recoverable, job, d, removal, DropJournalPlan());
    ExecAppend(Apply, d, removal, DropJournalPlan());
  }

  lemma RestoreRecordsSafe(job: Job, d: Disk)
    requires Started(job) && Uncommitted(job, d)
    ensures Safe(Apply, Recoverable, job, d, RestoreRecordsPlan(job.op))
    ensures Exec(Apply, d, RestoreRecordsPlan(job.op)) == d.(ledger := job.start.ledger)
  {
    var op := job.op;
    var l := RolledBack(op, d.ledger);
    assert OnSource(job, l) by {
      if OnSource(job, d.ledger) {
        RollbackKeepsSource(job, d.ledger);
      } else {
        RollbackUndoesSync(job, d.target);
      }
    }
    ReconcileRestores(job, l);
    var d1 := d.(ledger := l);
    assert Apply(d, RollbackRecords(op)) == d1;
    assert Apply(d1, ReconcileSource(op)) == d.(ledger := job.start.ledger);
    var p0: seq<Step> := [];
    SafeWhen(Apply, Recoverable, job, d, p0, true, RollbackRecords(op));
    var p1 := p0 + When(true, RollbackRecords(op));
    SafeWhen(Apply, Recoverable, job, d, p1, true, ReconcileSource(op));
    assert p1 + When(true, ReconcileSource(op)) == RestoreRecordsPlan(op);
  }

  /** Before the commit point the transfer is undone, whether or not its rows were switched. */
  lemma RollbackSafe(job: Job, d: Disk, removeTarget: bool, order: Order)
    requires Started(job) && Uncommitted(job, d) && ValidOrder(job, order)
    requires job.op.to in d.target ==> removeTarget
    ensures var plan := RollbackPlan(job.op, removeTarget, order); var e := Exec(Apply, d, plan);
            Safe(Apply, Recoverable, job, d, plan) && Settled(job, e) && AtSource(job, e)
  {
    var records, undo := RestoreRecordsPlan(job.op), UndoPlan(removeTarget, order);
    RestoreRecordsSafe(job, d);
    UndoSafe(job, Exec(Apply, d, records), removeTarget, order);
    SafeAppend(Apply, Recoverable, job, d, records, undo);
    ExecAppend(Apply, d, records, undo);
  }

  lemma CommitSafe(job: Job, d: Disk)
    requires Started(job) && Uncommitted(job, d) && Complete(job, d.target) && d.ledger == job.start.ledger
    ensures var e := Exec(Apply, d, CommitPlan(job.op));
            Safe(Apply, Recoverable, job, d, CommitPlan(job.op)) && Committed(job, e)
  {
    var op := job.op;
    var p0: seq<Step> := [];
    SafeWhen(Apply, Recoverable, job, d, p0, true, MarkTargetReady);
    var p1 := p0 + When(true, MarkTargetReady);
    SafeWhen(Apply, Recoverable, job, d, p1, true, SyncRecords(op));
    var p2 := p1 + When(true, SyncRecords(op));
    SafeWhen(Apply, Recoverable, job, d, p2, true, MarkDatabaseReady);
    assert p2 + When(true, MarkDatabaseReady) == CommitPlan(op);
  }

  lemma ForwardSafe(job: Job, copies: Copies, order: Order)
    requires Started(job) && ValidCopies(job, copies) && ValidOrder(job, order)
    ensures var plan := TransferPlan(job.op, copies, order); var e := Exec(Apply, job.start, plan);
            Safe(Apply, Recoverable, job, job.start, plan) && Settled(job, e) && AtTarget(job, e)
  {
    var d := job.start;
    var p0: seq<Step> := [];
    assert PartlyCopied(job, d.target);
    SafeWhen(Apply, Recoverable, job, d, p0, true, WriteJournal);
    var p1 := [WriteJournal];
    assert p0 + When(true, WriteJournal) == p1;
    var d1 := Exec(Apply, d, p1);
    CopyLoop(job, d1, copies);
    var p2 := p1 + CopyAll(job.op, copies);
    SafeAppend(Apply, Recoverable, job, d, p1, CopyAll(job.op, copies));
    ExecAppend(Apply, d, p1, CopyAll(job.op, copies));
    var d2 := Exec(Apply, d, p2);
    CopiedThenComplete(job, d2.target, copies);
    CommitSafe(job, d2);
    var p3 := p2 + CommitPlan(job.op);
    SafeAppend(Apply, Recoverable, job, d, p2, CommitPlan(job.op));
    ExecAppend(Apply, d, p2, CommitPlan(job.op));
    FinishSafe(job, Exec(Apply, d, p3), true, order);
    SafeAppend(Apply, Recoverable, job, d, p3, FinishPlan(true, order));
    ExecAppend(Apply, d, p3, FinishPlan(true, order));
  }

  lemma OrphanSafe(job: Job, d: Disk)
    requires Recoverable(job, d) && !d.journal
    ensures Safe(Apply, Recoverable, job, d, OrphanPlan(d))
    ensures Settled(job, Exec(Apply, d, OrphanPlan(d)))
  {
    var p0: seq<Step> := [];
    SafeWhen(Apply, Recoverable, job, d, p0, d.databaseReady, RemoveDatabaseReady);
    var p1 := p0 + When(d.databaseReady, RemoveDatabaseReady);
    SafeWhen(Apply, Recoverable, job, d, p1, d.targetReady, RemoveTargetReady);
    assert p1 + When(d.targetReady, RemoveTargetReady) == OrphanPlan(d);
  }

  /** From every recoverable state recovery proceeds, stays recoverable at every step, and ends
      settled: on the target if the commit marker was there, else on the source. */
  lemma RecoverySettles(job: Job, d: Disk, order: Order)
    requires Started(job) && Recoverable(job, d) && ValidOrder(job, order)
    ensures RecoveryPlan(job.op, order, d).Proceed?
    ensures var steps := RecoveryPlan(job.op, order, d).steps; var e := Exec(Apply, d, steps);
            && Safe(Apply, Recoverable, job, d, steps) && Settled(job, e)
            && (d.journal ==> if d.databaseReady then AtTarget(job, e) else AtSource(job, e))
  {
    var op := job.op;
    if !d.journal {
      OrphanSafe(job, d);
    } else if d.databaseReady {
      assert Rebase(op.from, op.from, op.to) == op.to + "";
      FinishSafe(job, d, op.from in d.source, order);
    } else {
      RollbackSafe(job, d, op.to in d.target, order);
    }
  }

  function Recover(job: Job, order: Order, d: Disk): Decision<Step> {
    RecoveryPlan(job.op, order, d)
  }

  /** A cross-source move loses nothing and is atomic.  Cut it after any number of steps and cut
      every recovery after any number of its own: as long as the commit marker is absent the
      source tree is untouched, once it exists the target tree is complete, and one recovery that
      runs to its end puts tree, ledger, image and share rows on one side. */
  lemma TransferIsAtomic(job: Job, copies: Copies, order: Order, cut: nat, lives: seq<Life<Order>>, last: Order)
    requires Started(job) && ValidCopies(job, copies) && ValidOrder(job, order) && ValidOrder(job, last)
    requires forall life <- lives :: ValidOrder(job, life.order)
    ensures var d := AfterCrashes(Apply, Recover, job, job.start, TransferPlan(job.op, copies, order), cut, lives);
            && (d.journal && !d.databaseReady ==> d.source == job.start.source)
            && (d.databaseReady ==> Complete(job, d.target))
            && (d.source == job.start.source || Complete(job, d.target))
            && RecoveryPlan(job.op, last, d).Proceed?
            && Settled(job, Exec(Apply, d, RecoveryPlan(job.op, last, d).steps))
  {
    ForwardSafe(job, copies, order);
    forall life, d | life in lives && Recoverable(job, d) && Recover(job, life.order, d).Proceed?
      ensures Safe(Apply, Recoverable, job, d, Recover(job, life.order, d).steps)
    {
      RecoverySettles(job, d, life.order);
    }
    CrashesKeep(Apply, Recoverable, Recover, job, job.start, TransferPlan(job.op, copies, order), cut, lives);
    RecoverySettles(job, AfterCrashes(Apply, Recover, job, job.start, TransferPlan(job.op, copies, order), cut, lives), last);
  }

  /** What being on the target means to a reader of the tables: each moved file has one row, at its
      new path, with its old owner and its copy's size and time; the source has rows for exactly
      the files it still holds; the target's other rows are as they were. */
  lemma OwnersTravel(job: Job, d: Disk)
    requires Started(job) && AtTarget(job, d)
    ensures d.ledger.sourceRows == Reconciled(job.op, job.start.ledger.sourceRows, d.source)
    ensures forall p <- job.start.source :: Moves(job, p) && job.start.source[p].File? ==>
              var q := Rebase(p, job.op.from, job.op.to);
              && q in d.target && d.target[q].File? && d.target[q].bytes == job.start.source[p].bytes
              && q in d.ledger.targetRows
              && d.ledger.targetRows[q] == Row(job.start.ledger.sourceRows[p].owner, |d.target[q].bytes|, d.target[q].mtime)
    ensures forall q :: !Under(job.op.to, q) ==>
              (q in d.ledger.targetRows <==> q in job.start.ledger.targetRows)
              && (q in d.ledger.targetRows ==> d.ledger.targetRows[q] == job.start.ledger.targetRows[q])
    ensures forall q <- d.ledger.targetRows :: Under(job.op.to, q) ==> q in d.target
  {
    SourceRowsAgree(job, d);
    forall p | p in job.start.source && Moves(job, p) && job.start.source[p].File?
      ensures var q := Rebase(p, job.op.from, job.op.to);
              && q in d.target && d.target[q].File? && d.target[q].bytes == job.start.source[p].bytes
              && q in d.ledger.targetRows
              && d.ledger.targetRows[q] == Row(job.start.ledger.sourceRows[p].owner, |d.target[q].bytes|, d.target[q].mtime)
    {
      RebaseLandsUnder(p, job.op.from, job.op.to);
      RebaseUndone(p, job.op.from, job.op.to);
    }
  }

  /** An image or share row that pointed into the moved tree points to the same place on the target;
      every other one is as it was. */
  predicate PlaceTravels(op: Op, before: Places, after: Places, id: nat, suffix: string) {
    && (id in before <==> id in after)
    && (id in before && before[id] == Place(false, op.from) ==> after[id] == Place(true, op.to))
    && (id in before && before[id] == Place(false, op.from + "/" + suffix) ==> after[id] == Place(true, op.to + "/" + suffix))
    && (id in before && (before[id].onTarget || !Under(op.from, before[id].path)) ==> after[id] == before[id])
  }

  lemma PlacesTravel(job: Job, d: Disk, id: nat, suffix: string)
    requires Started(job) && AtTarget(job, d)
    ensures PlaceTravels(job.op, job.start.ledger.images, d.ledger.images, id, suffix)
    ensures PlaceTravels(job.op, job.start.ledger.shares, d.ledger.shares, id, suffix)
  {
    RebaseExactly(job.op.from, job.op.to, suffix, "");
    UnderExactly(job.op.from, job.op.from + "/" + suffix);
  }

  /** Where the move puts a node: the source has nothing left at its old place, the target has at its
      new place what was moved and nothing else. */
  predicate NodeTravels(job: Job, d: Disk, p: string, q: string) {
    && p !in d.source
    && (q in d.target <==> p in job.start.source && p !in job.op.hidden)
    && (q in d.target ==>
          match job.start.source[p]
          case Dir => d.target[q] == Dir
          case File(bytes, _) => d.target[q].File? && d.target[q].bytes == bytes)
  }

  lemma TreeTravels(job: Job, d: Disk, suffix: string, path: string)
    requires Started(job) && AtTarget(job, d)
    ensures NodeTravels(job, d, job.op.from, job.op.to)
    ensures NodeTravels(job, d, job.op.from + "/" + suffix, job.op.to + "/" + suffix)
    ensures !Under(job.op.from, path) ==>
              (path in d.source <==> path in job.start.source) && (path in d.source ==> d.source[path] == job.start.source[path])
    ensures !Under(job.op.to, path) ==>
              (path in d.target <==> path in job.start.target) && (path in d.target ==> d.target[path] == job.start.target[path])
  {
    NodeMoved(job, d, job.op.from);
    NodeMoved(job, d, job.op.from + "/" + suffix);
    RebaseExactly(job.op.from, job.op.to, suffix, "");
    UnderExactly(job.op.from, job.op.from + "/" + suffix);
  }

  lemma NodeMoved(job: Job, d: Disk, p: string)
    requires Started(job) && AtTarget(job, d) && Under(job.op.from, p)
    ensures NodeTravels(job, d, p, Rebase(p, job.op.from, job.op.to))
  {
    RebaseLandsUnder(p, job.op.from, job.op.to);
    RebaseUndone(p, job.op.from, job.op.to);
  }

  /** A copied file has its original's bytes and the time it was given. */
  predicate IsCopy(op: Op, source: Tree, copies: Copies, q: string, node: Node) {
    exists i :: 0 <= i < |copies| && IsCopyOf(op, source, copies[i], q, node)
  }

  predicate IsCopyOf(op: Op, source: Tree, c: (string, int), q: string, node: Node) {
    c.0 in source && q == Rebase(c.0, op.from, op.to)
    && match source[c.0]
       case Dir => node == Dir
       case File(bytes, _) => node == File(bytes, c.1)
  }

  lemma {:induction false} CopiesGetTheirTimes(op: Op, d: Disk, copies: Copies, q: string)
    ensures var e := Exec(Apply, d, CopyAll(op, copies));
            q in e.target ==> (q in d.target && e.target[q] == d.target[q]) || IsCopy(op, d.source, copies, q, e.target[q])
    decreases |copies|
  {
    if copies != [] {
      var next := Apply(d, CopyNode(op, copies[0].0, copies[0].1));
      var e := Exec(Apply, next, CopyAll(op, copies[1..]));
      CopiesGetTheirTimes(op, next, copies[1..], q);
      assert CopyAll(op, copies)[1..] == CopyAll(op, copies[1..]);
      if q in e.target && IsCopy(op, d.source, copies[1..], q, e.target[q]) {
        var i :| 0 <= i < |copies| - 1 && IsCopyOf(op, d.source, copies[1..][i], q, e.target[q]);
        assert copies[i + 1] == copies[1..][i];
      }
      if q in next.target && (q !in d.target || next.target[q] != d.target[q]) {
        assert IsCopyOf(op, d.source, copies[0], q, next.target[q]);
      }
    }
  }

  /** When recovery refuses, on any disk: after the commit marker if the target's marker or tree is
      missing, before it if the source is. */
  lemma RefusesExactly(op: Op, order: Order, d: Disk)
    ensures RecoveryPlan(op, order, d).Refuse? <==>
              d.journal && if d.databaseReady then !(d.targetReady && op.to in d.target) else op.from !in d.source
  {
  }

  lemma SourceRowsAgree(job: Job, d: Disk)
    requires Started(job) && AtTarget(job, d)
    ensures d.ledger.sourceRows == Reconciled(job.op, job.start.ledger.sourceRows, d.source)
  {
    var again := Reconciled(job.op, job.start.ledger.sourceRows, d.source);
    forall p ensures p in again <==> p in d.ledger.sourceRows
             ensures p in again ==> again[p] == d.ledger.sourceRows[p]
    {
      assert p in d.source ==> !Under(job.op.from, p);
    }
  }

  // ------------------------------------------------------ the rows, one by one

  /** One row brought back displaces the row in its way and no other. */
  lemma OneMoreBack(op: Op, sourceRows: Rows, moved: Rows, q: string, row: Row)
    requires Under(op.to, q)
    ensures RestoredRows(op, sourceRows, moved)[Rebase(q, op.to, op.from) := row]
         == RestoredRows(op, sourceRows, moved[q := row])
  {
    var newRel := Rebase(q, op.to, op.from);
    RebaseLandsUnder(q, op.to, op.from);
    RebaseUndone(q, op.to, op.from);
    var more := moved[q := row];
    forall p ensures ComesBack(op, more, p) <==> ComesBack(op, moved, p) || p == newRel {
      if Under(op.from, p) {
        RebaseUndone(p, op.from, op.to);
      }
    }
    SameRestored(op, sourceRows, moved, more, newRel, row);
  }

  lemma SameRestored(op: Op, sourceRows: Rows, moved: Rows, more: Rows, newRel: string, row: Row)
    requires forall p :: ComesBack(op, more, p) <==> ComesBack(op, moved, p) || p == newRel
    requires forall p :: ComesBack(op, more, p) ==>
               var q := Rebase(p, op.from, op.to);
               if p == newRel then more[q] == row else q in moved && more[q] == moved[q]
    ensures RestoredRows(op, sourceRows, moved)[newRel := row] == RestoredRows(op, sourceRows, more)
  {
    var left, right := RestoredRows(op, sourceRows, moved)[newRel := row], RestoredRows(op, sourceRows, more);
    forall p ensures p in left <==> p in right
             ensures p in left ==> left[p] == right[p]
    {
      BackPathsExact(op, moved, p);
      BackPathsExact(op, more, p);
    }
  }

  lemma BackPathsExact(op: Op, rows: Rows, p: string)
    ensures ComesBack(op, rows, p) <==> p in BackPaths(op, rows)
  {
    if ComesBack(op, rows, p) {
      RebaseLandsUnder(p, op.from, op.to);
      RebaseUndone(p, op.from, op.to);
    } else if p in BackPaths(op, rows) {
      var q :| q in rows && Under(op.to, q) && p == Rebase(q, op.to, op.from);
      RebaseLandsUnder(q, op.to, op.from);
      RebaseUndone(q, op.to, op.from);
    }
  }

  /** Only rows at or below the target come back. */
  lemma OnlySubtreeComesBack(op: Op, sourceRows: Rows, targetRows: Rows, subtree: Rows)
    requires subtree == map q | q in targetRows && Under(op.to, q) :: targetRows[q]
    ensures RestoredRows(op, sourceRows, subtree) == RestoredRows(op, sourceRows, targetRows)
  {
    forall p ensures ComesBack(op, subtree, p) <==> ComesBack(op, targetRows, p) {
      if Under(op.from, p) {
        RebaseLandsUnder(p, op.from, op.to);
      }
    }
    assert BackPaths(op, subtree) == BackPaths(op, targetRows);
  }

  lemma NothingBackYet(op: Op, sourceRows: Rows)
    ensures RestoredRows(op, sourceRows, map[]) == sourceRows
  {
  }

  /** The rows at or below the target that are no longer waiting. */
  ghost function MovedRows(op: Op, targetRows: Rows, pending: set<string>): Rows {
    map q | q in targetRows && Under(op.to, q) && q !in pending :: targetRows[q]
  }

  lemma OneMoreMoved(op: Op, targetRows: Rows, pending: set<string>, q: string)
    requires q in pending && q in targetRows && Under(op.to, q)
    ensures MovedRows(op, targetRows, pending - {q}) == MovedRows(op, targetRows, pending)[q := targetRows[q]]
  {
  }

  /** moveFileRecordsTx: each row under the target goes back, displacing whatever row is in its way. */
  method MoveFileRecordsBack(op: Op, sourceRows: Rows, targetRows: Rows) returns (source: Rows, target: Rows)
    ensures source == RestoredRows(op, sourceRows, targetRows)
    ensures target == WithoutSubtree(targetRows, op.to)
  {
    source, target := sourceRows, targetRows;
    var pending := set q | q in targetRows && Under(op.to, q);
    NothingBackYet(op, sourceRows);
    assert MovedRows(op, targetRows, pending) == map[];
    ghost var subtree := pending;
    while pending != {}
      invariant pending <= subtree
      invariant target == targetRows - (subtree - pending)
      invariant source == RestoredRows(op, sourceRows, MovedRows(op, targetRows, pending))
      decreases pending
    {
      var q :| q in pending;
      var row := target[q];
      OneMoreMoved(op, targetRows, pending, q);
      OneMoreBack(op, sourceRows, MovedRows(op, targetRows, pending), q, row);
      source, target := ReplaceRow(source, Rebase(q, op.to, op.from), row), target - {q};
      pending := pending - {q};
    }
    OnlySubtreeComesBack(op, sourceRows, targetRows, MovedRows(op, targetRows, {}));
    assert target == WithoutSubtree(targetRows, op.to);
  }

  /** Delete whatever row has the path, then give the path to this one. */
  function ReplaceRow(rows: Rows, path: string, row: Row): (r: Rows)
    ensures r == rows[path := row]
  {
    (rows - {path})[path := row]
  }

  /** moveImageRecordsTx and moveShareRecordsTx: one row at a time. */
  method MovePlaceRows(t: Places, toTarget: bool, from: string, to: string) returns (r: Places)
    ensures r == MovePlaces(t, toTarget, from, to)
  {
    r := t;
    var pending := set id | id in t && t[id].onTarget != toTarget && Under(from, t[id].path);
    while pending != {}
      invariant pending <= t.Keys && r.Keys == t.Keys
      invariant forall id <- pending :: t[id].onTarget != toTarget && Under(from, t[id].path)
      invariant forall id <- t :: r[id] == if id in pending then t[id] else MovePlaces(t, toTarget, from, to)[id]
      decreases pending
    {
      var id :| id in pending;
      r := r[id := Place(toTarget, to + t[id].path[|from|..])];
      pending := pending - {id};
    }
  }

  /** The rows of the first of the copied files. */
  ghost function RowsOf(want: Rows, files: seq<string>): Rows {
    map q | q in want && q in files :: want[q]
  }

  lemma OneMoreRow(before: Rows, want: Rows, files: seq<string>, i: nat)
    requires i < |files| && files[i] in want
    ensures before + RowsOf(want, files[..i + 1]) == (before + RowsOf(want, files[..i]))[files[i] := want[files[i]]]
  {
    assert files[..i + 1] == files[..i] + [files[i]];
  }

  method InsertCopiedRows(op: Op, sourceRows: Rows, target: Tree, files: seq<string>, before: Rows) returns (rows: Rows)
    requires forall q :: q in files <==> q in target && Under(op.to, q) && target[q].File?
    ensures rows == before + CopiedRows(op, sourceRows, target)
  {
    rows := before;
    ghost var want := CopiedRows(op, sourceRows, target);
    for i := 0 to |files|
      invariant rows == before + RowsOf(want, files[..i])
    {
      var q := files[i];
      assert q in files;
      var sourceRel := op.from + q[|op.to|..];
      var owner := if sourceRel in sourceRows then sourceRows[sourceRel].owner else None;
      OneMoreRow(before, want, files, i);
      rows := rows[q := Row(owner, |target[q].bytes|, target[q].mtime)];
    }
    assert RowsOf(want, files[..|files|]) == want;
  }

  /** syncTransferRecords: clear the target's rows, insert one per copied file with the owner its
      source row had, clear the source's rows, and repoint images and shares. */
  method SyncTransferRecords(op: Op, l: Ledger, target: Tree, files: seq<string>) returns (r: Ledger)
    requires forall q :: q in files <==> q in target && Under(op.to, q) && target[q].File?
    ensures r == Synced(op, l, target)
  {
    var rows := map q | q in l.targetRows && !Under(op.to, q) :: l.targetRows[q];
    rows := InsertCopiedRows(op, l.sourceRows, target, files, rows);
    var left := map p | p in l.sourceRows && !Under(op.from, p) :: l.sourceRows[p];
    var images := MovePlaceRows(l.images, true, op.from, op.to);
    var shares := MovePlaceRows(l.shares, true, op.from, op.to);
    return Ledger(left, rows, images, shares);
  }

  /** rollbackTransferRecords: the reverse transaction. */
  method RollbackTransferRecords(op: Op, l: Ledger) returns (r: Ledger)
    ensures r == RolledBack(op, l)
  {
    var source, target := MoveFileRecordsBack(op, l.sourceRows, l.targetRows);
    var images := MovePlaceRows(l.images, false, op.to, op.from);
    var shares := MovePlaceRows(l.shares, false, op.to, op.from);
    return Ledger(source, target, images, shares);
  }
}
