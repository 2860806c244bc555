/** Trash histories (trash_recovery.go). */
module TrashHistories {
  import opened Crash
  import opened Trash
  import opened TrashRecords
  import opened Wrappers

  // Which histories of crashes a trash operation survives, told from what is known before it begins
  // (internal/files/trash_recovery.go).

  // ------------------------------------------------------------- some order

  lemma Enumerate(s: set<string>) returns (q: seq<string>)
    ensures NoDuplicates(q) && forall p :: p in q <==> p in s
  {
    if s == {} {
      q := [];
    } else {
      var p :| p in s;
      var rest := Enumerate(s - {p});
      q := [p] + rest;
    }
  }

  /** Every tree can be copied root first and removed root last. */
  lemma SomeOrder(job: Job) returns (order: Order)
    requires Started(job)
    ensures ValidOrder(job, order)
  {
    var q := Enumerate(Whole(job).Keys - {ROOT});
    order := Order([ROOT] + q, q + [ROOT]);
    assert order.removal[..|order.removal| - 1] == q;
  }

  // ------------------------------------------------------- nothing was ever moved

  predicate LeavesTrees(step: Step) {
    !step.RenameTree? && !step.CopyNode? && !step.RemoveNode? && !step.Commit?
  }

  lemma TreesLeftBy(d: Disk, step: Step)
    requires LeavesTrees(step)
    ensures var e := Apply(d, step); e.home == d.home && e.payload == d.payload && e.meta == d.meta
  {
  }

  lemma {:induction false} TreesLeft(d: Disk, steps: seq<Step>)
    requires forall step <- steps :: LeavesTrees(step)
    ensures var e := Exec(Apply, d, steps); e.home == d.home && e.payload == d.payload && e.meta == d.meta
    decreases |steps|
  {
    if steps != [] {
      TreesLeftBy(d, steps[0]);
      TreesLeft(Apply(d, steps[0]), steps[1..]);
    }
  }

  /** Recovery of a restore whose tree is where it was only tidies up. */
  lemma OnlyTidies(job: Job, d: Disk, order: Order)
    requires Started(job) && job.op.kind.Restore? && AtOrigin(job, d)
    ensures RecoveryPlan(job.op, order, d).Proceed?
    ensures forall step <- RecoveryPlan(job.op, order, d).steps :: LeavesTrees(step)
  {
  }

  /** A restore whose rows clash never touches the trees. */
  lemma {:induction false} ClashIsSpared(job: Job, order: Order, cut: nat, lives: seq<Life<Order>>)
    requires Started(job) && job.after.None?
    ensures AtOrigin(job, TrashAfterCrashes(job, order, cut, lives)) && Spared(job, order, cut, lives)
    decreases |lives|
  {
    if lives == [] {
      TreesLeft(job.start, Cut(ForwardPlan(job, order), cut));
    } else {
      var before, last := lives[..|lives| - 1], lives[|lives| - 1];
      ClashIsSpared(job, order, cut, before);
      var d := TrashAfterCrashes(job, order, cut, before);
      OnlyTidies(job, d, last.order);
      TreesLeft(d, Cut(RecoveryPlan(job.op, last.order, d).steps, last.cut));
    }
  }

  // ----------------------------------------------------------- nothing but a root

  /** The tree has a node below its root. */
  predicate HasMore(job: Job) {
    exists p <- Whole(job) :: p != ROOT
  }

  lemma RemovalLength(job: Job, order: Order)
    requires Started(job) && ValidOrder(job, order)
    ensures |order.removal| >= 2 <==> HasMore(job)
  {
    var n := |order.removal|;
    if n >= 2 {
      assert order.removal[0] in Whole(job) && order.removal[0] in order.removal[..n - 1];
    }
  }

  lemma {:induction false} RootIsSpared(job: Job, order: Order, cut: nat, lives: seq<Life<Order>>)
    requires Started(job) && !HasMore(job) && forall life <- lives :: ValidOrder(job, life.order)
    ensures Spared(job, order, cut, lives)
    decreases |lives|
  {
    if lives != [] {
      var last := lives[|lives| - 1];
      assert last in lives;
      RemovalLength(job, last.order);
      RootIsSpared(job, order, cut, lives[..|lives| - 1]);
    }
  }

  // -------------------------------------------------------------- the condition

  /** After these crashes a recovery that runs to its end does not settle the operation. */
  ghost predicate EndsUnsettled(job: Job, order: Order, cut: nat, lives: seq<Life<Order>>, last: Order) {
    && ValidOrder(job, order) && ValidOrder(job, last) && (forall life <- lives :: ValidOrder(job, life.order))
    && var d := TrashAfterCrashes(job, order, cut, lives);
       RecoveryPlan(job.op, last, d).Refuse? || !Settled(job, Exec(Apply, d, RecoveryPlan(job.op, last, d).steps))
  }

  /** What can be known before the operation begins: it crosses filesystems, it moves a tree of more
      than one node, and its rows can be committed. */
  predicate CanLose(job: Job) {
    !job.op.sameFilesystem && !job.op.kind.Purge? && job.after.Some? && HasMore(job)
  }

  /** The operation dies with the tree moved and nothing committed. */
  lemma DiesExposed(job: Job, order: Order)
    requires Started(job) && ValidOrder(job, order) && CanLose(job)
    ensures var d := TrashAfterCrashes(job, order, |BeginMovePlan(job.op, order)|, []);
            Recoverable(job, d) && Exposed(job, d)
  {
    BeginMoveSafe(job, order);
    SafeEnds(Apply, Recoverable, job, job.start, BeginMovePlan(job.op, order));
    assert Cut(ForwardPlan(job, order), |BeginMovePlan(job.op, order)|) == BeginMovePlan(job.op, order);
  }

  lemma OneLife(job: Job, order: Order, cut: nat, life: Life<Order>)
    ensures var d := TrashAfterCrashes(job, order, cut, []);
            RecoveryPlan(job.op, life.order, d).Proceed? ==>
              TrashAfterCrashes(job, order, cut, [life]) == Exec(Apply, d, Cut(RecoveryPlan(job.op, life.order, d).steps, life.cut))
  {
    assert [life][..0] == [];
  }

  /** The losing history: the operation dies so, and its recovery dies once it has removed a node of
      the tree it copied back. */
  lemma LosingHistory(job: Job, order: Order)
    requires Started(job) && ValidOrder(job, order) && CanLose(job)
    ensures EndsUnsettled(job, order, |BeginMovePlan(job.op, order)|, [Life(order, |CopyBackPlan(job.op, order)| + 1)], order)
  {
    var cut, life := |BeginMovePlan(job.op, order)|, Life(order, |CopyBackPlan(job.op, order)| + 1);
    var d := TrashAfterCrashes(job, order, cut, []);
    DiesExposed(job, order);
    OneLife(job, order, cut, life);
    RemovalLength(job, order);
    RecoverySettles(job, d, order);
    SecondCrashLoses(job, d, order, life.cut, order);
  }

  /** Some crashes leave a trash operation unsettled if and only if it moves a tree of more than one
      node across filesystems with rows that can be committed. */
  lemma UnsettledExactly(job: Job)
    requires Started(job)
    ensures (exists order: Order, cut: nat, lives: seq<Life<Order>>, last: Order :: EndsUnsettled(job, order, cut, lives, last))
       <==> CanLose(job)
  {
    forall order: Order, cut: nat, lives: seq<Life<Order>>, last: Order | EndsUnsettled(job, order, cut, lives, last)
      ensures CanLose(job)
    {
      if !CanLose(job) {
        if job.after.None? {
          ClashIsSpared(job, order, cut, lives);
        } else if !HasMore(job) {
          RootIsSpared(job, order, cut, lives);
        }
        TrashIsAtomic(job, order, cut, lives, last);
      }
    }
    if CanLose(job) {
      var order := SomeOrder(job);
      LosingHistory(job, order);
    }
  }
}
