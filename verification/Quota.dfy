/** Storage quotas (internal/files/service.go). */
module Quota {
  import opened Wrappers
  import Locks = PathLocks

  // Storage quotas (beginQuotaWriteForUser, applyUserQuotaGuard and writeUploadTempAt in
  // internal/files/service.go).
  //
  // A quota of zero is no quota.

  // ----------------------------------------------------------------------- usage

  /** Sizes of the files of a source by path, or of a user's ledger rows by source and path. */
  ghost function Total<K>(sizes: map<K, nat>): nat
    decreases |sizes|
  {
    if sizes == map[] then 0
    else var k :| k in sizes; sizes[k] + Total(sizes - {k})
  }

  lemma {:induction false} TotalSplits<K>(sizes: map<K, nat>, k: K)
    requires k in sizes
    ensures Total(sizes) == sizes[k] + Total(sizes - {k})
    decreases |sizes|
  {
    var chosen :| chosen in sizes && Total(sizes) == sizes[chosen] + Total(sizes - {chosen});
    if chosen != k {
      TotalSplits(sizes - {chosen}, k);
      TotalSplits(sizes - {k}, chosen);
      assert sizes - {chosen} - {k} == sizes - {k} - {chosen};
    }
  }

  function SizeAt<K>(sizes: map<K, nat>, k: K): nat {
    if k in sizes then sizes[k] else 0
  }

  lemma TotalWithout<K>(sizes: map<K, nat>, k: K, size: nat)
    ensures Total(sizes) == Total(sizes - {k}) + SizeAt(sizes, k)
    ensures Total(sizes[k := size]) == Total(sizes - {k}) + size
  {
    TotalSplits(sizes[k := size], k);
    assert sizes[k := size] - {k} == sizes - {k};
    if k in sizes {
      TotalSplits(sizes, k);
    } else {
      assert sizes - {k} == sizes;
    }
  }

  /** What is left of the sizes after some entries went. */
  predicate Shrunk<K(!new)>(before: map<K, nat>, after: map<K, nat>) {
    forall k <- after :: k in before && after[k] == before[k]
  }

  lemma {:induction false} ShrinkingLowersTotal<K(!new)>(before: map<K, nat>, after: map<K, nat>)
    requires Shrunk(before, after)
    ensures Total(after) <= Total(before)
    decreases |after|
  {
    if after != map[] {
      var k :| k in after;
      TotalSplits(after, k);
      TotalSplits(before, k);
      ShrinkingLowersTotal(before - {k}, after - {k});
    }
  }

  /** StorageUsage: a walk over the files. */
  method Usage<K>(sizes: map<K, nat>) returns (usage: nat)
    ensures usage == Total(sizes)
  {
    usage := 0;
    var rest := sizes;
    while rest != map[]
      invariant usage + Total(rest) == Total(sizes)
      decreases |rest|
    {
      var k :| k in rest;
      TotalSplits(rest, k);
      usage := usage + rest[k];
      rest := rest - {k};
    }
  }

  // ----------------------------------------------------------------------- guards

  /** `limited` is false when neither the source nor the user has a quota. */
  datatype Guard = Guard(limited: bool, maxBytes: nat)

  function Max(a: int, b: int): int {
    if a >= b then a else b
  }

  /** What a quota leaves for a write that replaces some bytes. */
  function Allowance(quota: nat, usage: nat, replaced: nat): nat {
    Max(quota - usage, 0) + replaced
  }

  /** A write within its allowance leaves usage at most the quota, or at most what it was where that
      was more already, even if files went in the meantime, the replaced one included. */
  lemma WriteKeepsQuota<K(!new)>(before: map<K, nat>, after: map<K, nat>, k: K, quota: nat, written: nat)
    requires Shrunk(before, after)
    requires written <= Allowance(quota, Total(before), SizeAt(before, k))
    ensures Total(after[k := written]) <= Max(quota, Total(before))
  {
    TotalWithout(after, k, written);
    TotalWithout(before, k, written);
    ShrinkingLowersTotal(before - {k}, after - {k});
  }

  /** The allowance is no smaller than it must be: one more byte would break the quota. */
  lemma AllowanceIsTight<K(!new)>(before: map<K, nat>, k: K, quota: nat)
    ensures Total(before[k := Allowance(quota, Total(before), SizeAt(before, k))]) == Max(quota, Total(before))
  {
    TotalWithout(before, k, Allowance(quota, Total(before), SizeAt(before, k)));
  }

  type RowKey = (int, string)

  /** A ledger row: its size and its owner. */
  datatype Row = Row(size: nat, owner: Option<int>)

  type Rows = map<RowKey, Row>

  function OwnedBy(rows: Rows, user: int): map<RowKey, nat> {
    map k | k in rows && rows[k].owner == Some(user) :: rows[k].size
  }

  /** Whose bytes a row counts for: its owner's and nobody else's. */
  lemma OwnedExactly(rows: Rows, k: RowKey, row: Row, user: int)
    ensures OwnedBy(map[], user) == map[]
    ensures OwnedBy(rows[k := row], user)
         == if row.owner == Some(user) then OwnedBy(rows, user)[k := row.size] else OwnedBy(rows, user) - {k}
  {
  }

  /** The guard's arithmetic, with the source's and then the user's quota.  `userCredit` is room the
      caller knows the user will get back. */
  method ComputeGuard(sourceQuota: nat, files: map<string, nat>, source: int, path: string, owner: Option<int>,
                      userQuota: nat, rows: Rows, userCredit: nat)
      returns (guard: Guard)
    ensures guard.limited <==> sourceQuota != 0 || (owner.Some? && userQuota != 0)
    ensures sourceQuota != 0 ==> guard.maxBytes <= Allowance(sourceQuota, Total(files), SizeAt(files, path))
    ensures owner.Some? && userQuota != 0 ==>
              var owned := OwnedBy(rows, owner.value);
              guard.maxBytes <= Allowance(userQuota, Total(owned), SizeAt(owned, (source, path))) + userCredit
    ensures guard.limited ==>
              (sourceQuota != 0 && guard.maxBytes == Allowance(sourceQuota, Total(files), SizeAt(files, path)))
              || (owner.Some? && userQuota != 0
                  && guard.maxBytes == Allowance(userQuota, Total(OwnedBy(rows, owner.value)),
                                                 SizeAt(OwnedBy(rows, owner.value), (source, path))) + userCredit)
  {
    guard := Guard(false, 0);
    if sourceQuota != 0 {
      var usage := Usage(files);
      var replacedBytes := if path in files then files[path] else 0;
      var available := if sourceQuota < usage then 0 else sourceQuota - usage;
      guard := Guard(true, available + replacedBytes);
    }
    if owner.None? || userQuota == 0 {
      return;
    }
    var owned := OwnedBy(rows, owner.value);
    var usage := Usage(owned);
    var replacedBytes := if (source, path) in rows && rows[(source, path)].owner == owner then rows[(source, path)].size else 0;
    var available := if userQuota < usage then 0 else userQuota - usage;
    var userMax := available + replacedBytes + userCredit;
    if !guard.limited || userMax < guard.maxBytes {
      guard := guard.(maxBytes := userMax);
    }
    guard := guard.(limited := true);
  }

  const MAX_INT64 := 0x7fff_ffff_ffff_ffff

  /** writeUploadTempAt: a limited body is read one byte past its limit at most; what is written is
      the whole body, or the upload fails. */
  method WriteUploadTemp(body: string, guard: Guard) returns (ok: bool, content: string)
    requires |body| <= MAX_INT64
    ensures ok <==> !guard.limited || |body| <= guard.maxBytes
    ensures ok ==> content == body
    ensures guard.limited && guard.maxBytes < MAX_INT64 ==> |content| <= guard.maxBytes + 1
  {
    content := body;
    if guard.limited && guard.maxBytes < MAX_INT64 && |body| > guard.maxBytes + 1 {
      content := body[..guard.maxBytes + 1];
    }
    ok := !(guard.limited && |content| > guard.maxBytes);
  }

  /** An upload against both quotas.  `filesLater` and `rowsLater` are what is left of the source and
      of the ledger when it lands: others may have removed things, but not added (QuotaHistories has
      the interleavings). */
  method Upload(sourceQuota: nat, files: map<string, nat>, source: int, path: string, owner: Option<int>, userQuota: nat, rows: Rows,
                body: string, filesLater: map<string, nat>, rowsLater: Rows)
      returns (ok: bool, filesAfter: map<string, nat>, rowsAfter: Rows)
    requires Shrunk(files, filesLater) && |body| <= MAX_INT64
    requires forall k <- rowsLater :: k in rows && rowsLater[k] == rows[k]
    ensures !ok ==> filesAfter == filesLater && rowsAfter == rowsLater
    ensures ok ==> filesAfter == filesLater[path := |body|] && rowsAfter == rowsLater[(source, path) := Row(|body|, owner)]
    ensures ok && sourceQuota != 0 ==> Total(filesAfter) <= Max(sourceQuota, Total(files))
    ensures ok && owner.Some? && userQuota != 0 ==>
              Total(OwnedBy(rowsAfter, owner.value)) <= Max(userQuota, Total(OwnedBy(rows, owner.value)))
    ensures sourceQuota == 0 && (owner.None? || userQuota == 0) ==> ok
  {
    var guard := ComputeGuard(sourceQuota, files, source, path, owner, userQuota, rows, 0);
    var content;
    ok, content := WriteUploadTemp(body, guard);
    if !ok {
      return false, filesLater, rowsLater;
    }
    filesAfter := filesLater[path := |content|];
    rowsAfter := rowsLater[(source, path) := Row(|content|, owner)];
    if sourceQuota != 0 {
      WriteKeepsQuota(files, filesLater, path, sourceQuota, |body|);
    }
    if owner.Some? && userQuota != 0 {
      var user := owner.value;
      WriteKeepsQuota(OwnedBy(rows, user), OwnedBy(rowsLater, user), (source, path), userQuota, |body|);
      assert OwnedBy(rowsAfter, user) == OwnedBy(rowsLater, user)[(source, path) := |body|];
    }
  }

  // --------------------------------------------------- guards beside each other

  /** Where a guard's loop of read, check and upgrade stands; every lock is a request to the lock
      manager. */
  datatype Phase =
    | Reading(lease: nat)
    | Upgrading
    | Writing(lease: nat)
    | Retrying
    | Unlimited(lease: nat)
    | Limited(lease: nat, quota: nat)

  /** The guards on one quota, that quota, and the lock manager they share with everyone else. */
  datatype System = System(locks: Locks.State, quota: nat, guards: map<nat, Phase>)

  datatype Action =
    | AskRead(guard: nat, lease: nat)
    | CheckRead(guard: nat)
    | AskWrite(guard: nat, lease: nat)
    | CheckWrite(guard: nat)
    | Close(guard: nat)
    | Grant(index: nat)
    | Other(step: Locks.Step)
    | SetQuota(lease: nat, quota: nat)

  function Ask(key: string, lease: nat, write: bool): Locks.Step {
    Locks.Arrive(Locks.Request(lease, [key], write))
  }

  function Leases(phase: Phase): set<nat> {
    if phase.Upgrading? || phase.Retrying? then {} else {phase.lease}
  }

  predicate IsGuards(s: System, lease: nat) {
    exists g <- s.guards :: lease in Leases(s.guards[g])
  }

  predicate Holds(s: System, lease: nat, key: string, write: bool) {
    lease in s.locks.held && s.locks.held[lease].keys == [key] && s.locks.held[lease].write == write
  }

  /** The quota is only changed under its own write lock. */
  predicate Enabled(s: System, key: string, a: Action) {
    match a
    case AskRead(g, lease) => (g !in s.guards || s.guards[g].Retrying?) && Locks.Enabled(s.locks, Ask(key, lease, false))
    case AskWrite(g, lease) => g in s.guards && s.guards[g].Upgrading? && Locks.Enabled(s.locks, Ask(key, lease, true))
    case CheckRead(g) => g in s.guards && s.guards[g].Reading? && s.guards[g].lease in s.locks.held
    case CheckWrite(g) => g in s.guards && s.guards[g].Writing? && s.guards[g].lease in s.locks.held
    case Close(g) => g in s.guards && (s.guards[g].Unlimited? || s.guards[g].Limited?)
    case Grant(i) => Locks.Enabled(s.locks, Locks.Grant(i))
    case Other(step) => Locks.Enabled(s.locks, step) && (step.Release? ==> !IsGuards(s, step.id))
    case SetQuota(lease, _) => !IsGuards(s, lease) && Holds(s, lease, key, true)
  }

  function Released(s: System, g: nat, phase: Phase): System
    requires g in s.guards && Leases(s.guards[g]) != {}
  {
    System(Locks.Next(s.locks, Locks.Release(s.guards[g].lease)), s.quota, s.guards[g := phase])
  }

  function Next(s: System, key: string, a: Action): System
    requires Enabled(s, key, a)
  {
    match a
    case AskRead(g, lease) => System(Locks.Next(s.locks, Ask(key, lease, false)), s.quota, s.guards[g := Reading(lease)])
    case AskWrite(g, lease) => System(Locks.Next(s.locks, Ask(key, lease, true)), s.quota, s.guards[g := Writing(lease)])
    case CheckRead(g) =>
      if s.quota == 0 then s.(guards := s.guards[g := Unlimited(s.guards[g].lease)]) else Released(s, g, Upgrading)
    case CheckWrite(g) =>
      if s.quota == 0 then Released(s, g, Retrying) else s.(guards := s.guards[g := Limited(s.guards[g].lease, s.quota)])
    case Close(g) =>
      System(Locks.Next(s.locks, Locks.Release(s.guards[g].lease)), s.quota, s.guards - {g})
    case Grant(i) => s.(locks := Locks.Next(s.locks, Locks.Grant(i)))
    case Other(step) => s.(locks := Locks.Next(s.locks, step))
    case SetQuota(_, quota) => s.(quota := quota)
  }

  /** A guard's request, wherever it is. */
  predicate Requested(s: System, lease: nat, key: string, write: bool) {
    || Holds(s, lease, key, write)
    || exists i :: 0 <= i < |s.locks.queue| && s.locks.queue[i] == Locks.Request(lease, [key], write)
  }

  ghost predicate GuardFits(s: System, key: string, phase: Phase) {
    match phase
    case Reading(lease) => Requested(s, lease, key, false)
    case Writing(lease) => Requested(s, lease, key, true)
    case Unlimited(lease) => Holds(s, lease, key, false) && s.quota == 0
    case Limited(lease, quota) => Holds(s, lease, key, true) && s.quota == quota != 0
    case _ => true
  }

  ghost predicate Inv(s: System, key: string) {
    && Locks.Inv(s.locks)
    && (forall g <- s.guards :: GuardFits(s, key, s.guards[g]))
    && (forall g, h :: g in s.guards && h in s.guards && g != h ==> Leases(s.guards[g]) !! Leases(s.guards[h]))
  }

  /** Two holders of one key, one of them writing, are one. */
  lemma OneWriter(s: System, key: string, a: nat, b: nat, write: bool)
    requires Locks.Inv(s.locks) && Holds(s, a, key, true) && Holds(s, b, key, write)
    ensures a == b
  {
    if a != b {
      var x, y := s.locks.held[a], s.locks.held[b];
      assert Locks.KeysConflict(x.keys[0], y.keys[0]);
      assert Locks.Conflicts(x, y);
    }
  }

  /** What a lock step leaves of a request that it does not release. */
  lemma RequestStays(s: System, t: System, step: Locks.Step, lease: nat, key: string, write: bool)
    requires Locks.Inv(s.locks) && Locks.Enabled(s.locks, step) && t.locks == Locks.Next(s.locks, step)
    requires step.Release? ==> step.id != lease
    requires Requested(s, lease, key, write)
    ensures Requested(t, lease, key, write) && (Holds(s, lease, key, write) ==> Holds(t, lease, key, write))
  {
    if !Holds(s, lease, key, write) {
      var i :| 0 <= i < |s.locks.queue| && s.locks.queue[i] == Locks.Request(lease, [key], write);
      if step == Locks.Grant(i) {
        assert Holds(t, lease, key, write);
      } else {
        Locks.StillWaits(s.locks, step, i);
        assert t.locks.queue[Locks.PositionAfter(step, i)] == s.locks.queue[i];
      }
    }
  }

  /** A guard that an action is not about keeps fitting. */
  lemma OthersFit(s: System, t: System, key: string, step: Locks.Step, g: nat)
    requires Inv(s, key) && g in s.guards && t.quota == s.quota
    requires Locks.Enabled(s.locks, step) && t.locks == Locks.Next(s.locks, step)
    requires step.Release? ==> step.id !in Leases(s.guards[g])
    ensures GuardFits(t, key, s.guards[g])
  {
    match s.guards[g]
    case Reading(lease) => RequestStays(s, t, step, lease, key, false);
    case Writing(lease) => RequestStays(s, t, step, lease, key, true);
    case Unlimited(lease) => RequestStays(s, t, step, lease, key, false);
    case Limited(lease, _) => RequestStays(s, t, step, lease, key, true);
    case _ =>
  }

  lemma FitsKnownLease(s: System, key: string, lease: nat, phase: Phase)
    requires GuardFits(s, key, phase) && lease in Leases(phase)
    ensures lease in s.locks.held || exists i :: 0 <= i < |s.locks.queue| && s.locks.queue[i].id == lease
  {
  }

  /** A lease no request has yet is no guard's. */
  lemma NewLease(s: System, key: string, lease: nat, write: bool)
    requires Inv(s, key) && Locks.Enabled(s.locks, Ask(key, lease, write))
    ensures !IsGuards(s, lease)
  {
    forall g | g in s.guards ensures lease !in Leases(s.guards[g]) {
      if lease in Leases(s.guards[g]) {
        FitsKnownLease(s, key, lease, s.guards[g]);
      }
    }
  }

  lemma AskKeepsInv(s: System, key: string, a: Action)
    requires Inv(s, key) && Enabled(s, key, a) && (a.AskRead? || a.AskWrite?)
    ensures Inv(Next(s, key, a), key)
  {
    var t, write := Next(s, key, a), a.AskWrite?;
    var step := Ask(key, a.lease, write);
    Locks.StepKeepsInv(s.locks, step);
    NewLease(s, key, a.lease, write);
    assert t.locks.queue[|s.locks.queue|] == Locks.Request(a.lease, [key], write);
    assert Requested(t, a.lease, key, write);
    forall g | g in t.guards ensures GuardFits(t, key, t.guards[g]) {
      if g != a.guard {
        OthersFit(s, t, key, step, g);
      }
    }
    assert forall g <- s.guards :: a.lease !in Leases(s.guards[g]);
  }

  lemma LockStepKeepsInv(s: System, key: string, step: Locks.Step)
    requires Inv(s, key) && Locks.Enabled(s.locks, step) && (step.Release? ==> !IsGuards(s, step.id))
    ensures Inv(s.(locks := Locks.Next(s.locks, step)), key)
  {
    var t := s.(locks := Locks.Next(s.locks, step));
    Locks.StepKeepsInv(s.locks, step);
    forall g | g in t.guards ensures GuardFits(t, key, t.guards[g]) {
      OthersFit(s, t, key, step, g);
    }
  }

  /** Letting go of a lease: the guard moves to a phase without one, or is gone. */
  lemma ReleaseKeepsInv(s: System, key: string, g: nat, guards: map<nat, Phase>)
    requires Inv(s, key) && g in s.guards && Leases(s.guards[g]) != {} && s.guards[g].lease in s.locks.held
    requires guards == s.guards - {g} || guards == s.guards[g := Upgrading] || guards == s.guards[g := Retrying]
    ensures Inv(System(Locks.Next(s.locks, Locks.Release(s.guards[g].lease)), s.quota, guards), key)
  {
    var step := Locks.Release(s.guards[g].lease);
    var t := System(Locks.Next(s.locks, step), s.quota, guards);
    Locks.StepKeepsInv(s.locks, step);
    forall h | h in t.guards ensures GuardFits(t, key, t.guards[h]) {
      if h != g {
        OthersFit(s, t, key, step, h);
      }
    }
  }

  lemma CheckKeepsInv(s: System, key: string, a: Action)
    requires Inv(s, key) && Enabled(s, key, a) && (a.CheckRead? || a.CheckWrite?)
    ensures Inv(Next(s, key, a), key)
  {
    var t, phase := Next(s, key, a), s.guards[a.guard];
    assert GuardFits(s, key, phase);
    assert Holds(s, phase.lease, key, a.CheckWrite?);
    if (a.CheckRead? && s.quota != 0) || (a.CheckWrite? && s.quota == 0) {
      ReleaseKeepsInv(s, key, a.guard, t.guards);
    } else {
      forall g | g in t.guards ensures GuardFits(t, key, t.guards[g]) {
        assert g != a.guard ==> GuardFits(s, key, s.guards[g]);
      }
    }
  }

  lemma SetQuotaKeepsInv(s: System, key: string, a: Action)
    requires Inv(s, key) && Enabled(s, key, a) && a.SetQuota?
    ensures Inv(Next(s, key, a), key)
  {
    var t := Next(s, key, a);
    forall g | g in t.guards ensures GuardFits(t, key, t.guards[g]) {
      var phase := s.guards[g];
      assert GuardFits(s, key, phase);
      if phase.Limited? || phase.Unlimited? {
        OneWriter(s, key, a.lease, phase.lease, phase.Limited?);
      }
    }
  }

  lemma ActionKeepsInv(s: System, key: string, a: Action)
    requires Inv(s, key) && Enabled(s, key, a)
    ensures Inv(Next(s, key, a), key)
  {
    match a
    case AskRead(_, _) => AskKeepsInv(s, key, a);
    case AskWrite(_, _) => AskKeepsInv(s, key, a);
    case CheckRead(_) => CheckKeepsInv(s, key, a);
    case CheckWrite(_) => CheckKeepsInv(s, key, a);
    case Close(g) =>
      assert GuardFits(s, key, s.guards[g]);
      ReleaseKeepsInv(s, key, g, s.guards - {g});
    case Grant(i) => LockStepKeepsInv(s, key, Locks.Grant(i));
    case Other(step) => LockStepKeepsInv(s, key, step);
    case SetQuota(_, _) => SetQuotaKeepsInv(s, key, a);
  }

  predicate ValidRun(s: System, key: string, actions: seq<Action>)
    decreases |actions|
  {
    actions != [] ==> Enabled(s, key, actions[0]) && ValidRun(Next(s, key, actions[0]), key, actions[1..])
  }

  function Run(s: System, key: string, actions: seq<Action>): System
    requires ValidRun(s, key, actions)
    decreases |actions|
  {
    if actions == [] then s else Run(Next(s, key, actions[0]), key, actions[1..])
  }

  lemma {:induction false} RunKeepsInv(s: System, key: string, actions: seq<Action>)
    requires Inv(s, key) && ValidRun(s, key, actions)
    ensures Inv(Run(s, key, actions), key)
    decreases |actions|
  {
    if actions != [] {
      ActionKeepsInv(s, key, actions[0]);
      RunKeepsInv(Next(s, key, actions[0]), key, actions[1..]);
    }
  }

  lemma LimitedIsAlone(s: System, key: string, g: nat, h: nat)
    requires Inv(s, key) && g in s.guards && h in s.guards && g != h && s.guards[g].Limited?
    ensures !s.guards[h].Limited? && !s.guards[h].Unlimited?
  {
    assert GuardFits(s, key, s.guards[g]);
    if s.guards[h].Limited? || s.guards[h].Unlimited? {
      assert GuardFits(s, key, s.guards[h]);
      OneWriter(s, key, s.guards[g].lease, s.guards[h].lease, s.guards[h].Limited?);
    }
  }

  /** In every interleaving of guards with each other, with changes of the quota and with any other
      use of the lock manager: a limited guard is the only guard there is past its check, and the
      quota it or an unlimited guard was measured against still stands. */
  lemma LimitedGuardsAreAlone(key: string, quota: nat, actions: seq<Action>, g: nat, h: nat)
    requires ValidRun(System(Locks.State([], map[]), quota, map[]), key, actions)
    ensures var s := Run(System(Locks.State([], map[]), quota, map[]), key, actions);
            && (g in s.guards && s.guards[g].Limited? ==> s.quota == s.guards[g].quota != 0)
            && (g in s.guards && s.guards[g].Unlimited? ==> s.quota == 0)
            && (g in s.guards && h in s.guards && g != h && s.guards[g].Limited? ==>
                  !s.guards[h].Limited? && !s.guards[h].Unlimited?)
  {
    var start := System(Locks.State([], map[]), quota, map[]);
    RunKeepsInv(start, key, actions);
    var s := Run(start, key, actions);
    if g in s.guards {
      assert GuardFits(s, key, s.guards[g]);
      if s.guards[g].Limited? && h in s.guards && g != h {
        LimitedIsAlone(s, key, g, h);
      }
    }
  }

  // --------------------------------------------------------- a guard by itself

  /** The actions can be taken one after the other and lead from the one state to the other. */
  predicate Leads(s: System, key: string, actions: seq<Action>, t: System) {
    ValidRun(s, key, actions) && Run(s, key, actions) == t
  }

  lemma LeadsOn(s: System, key: string, first: Action, rest: seq<Action>, t: System)
    requires Enabled(s, key, first) && Leads(Next(s, key, first), key, rest, t)
    ensures Leads(s, key, [first] + rest, t)
  {
    assert ([first] + rest)[1..] == rest;
  }

  lemma {:induction false} LeadsFarther(s: System, key: string, first: seq<Action>, t: System, second: seq<Action>, u: System)
    requires Leads(s, key, first, t) && Leads(t, key, second, u)
    ensures Leads(s, key, first + second, u)
    decreases |first|
  {
    if first == [] {
      assert first + second == second;
    } else {
      LeadsFarther(Next(s, key, first[0]), key, first[1..], t, second, u);
      assert first + second == [first[0]] + (first[1..] + second);
      LeadsOn(s, key, first[0], first[1..] + second, u);
    }
  }

  function Idle(): Locks.State {
    Locks.State([], map[])
  }

  function Alone(key: string, lease: nat, write: bool): Locks.State {
    Locks.State([], map[lease := Locks.Request(lease, [key], write)])
  }

  /** Nobody else asks: a guard that reads a quota asks for the write lock, one that reads none is
      through. */
  lemma ReadsAlone(key: string, quota: nat, guards: map<nat, Phase>, g: nat, lease: nat)
    requires g !in guards || guards[g].Retrying?
    ensures Leads(System(Idle(), quota, guards), key, [AskRead(g, lease), Grant(0), CheckRead(g)],
                  if quota == 0 then System(Alone(key, lease, false), 0, guards[g := Unlimited(lease)])
                  else System(Idle(), quota, guards[g := Upgrading]))
  {
    var s := System(Idle(), quota, guards);
    var asked, granted := Next(s, key, AskRead(g, lease)), System(Alone(key, lease, false), quota, guards[g := Reading(lease)]);
    assert asked.locks == Locks.State([Locks.Request(lease, [key], false)], map[]);
    assert Next(asked, key, Grant(0)) == granted;
    var checked := Next(granted, key, CheckRead(g));
    assert quota != 0 ==> checked.locks == Idle();
    assert checked.guards == guards[g := checked.guards[g]];
    LeadsOn(granted, key, CheckRead(g), [], checked);
    LeadsOn(asked, key, Grant(0), [CheckRead(g)], checked);
    LeadsOn(s, key, AskRead(g, lease), [Grant(0), CheckRead(g)], checked);
  }

  lemma WriteGranted(key: string, quota: nat, guards: map<nat, Phase>, g: nat, lease: nat)
    requires g in guards && guards[g].Upgrading?
    ensures Leads(System(Idle(), quota, guards), key, [AskWrite(g, lease), Grant(0)],
                  System(Alone(key, lease, true), quota, guards[g := Writing(lease)]))
  {
    var s := System(Idle(), quota, guards);
    var asked, granted := Next(s, key, AskWrite(g, lease)), System(Alone(key, lease, true), quota, guards[g := Writing(lease)]);
    assert asked.locks == Locks.State([Locks.Request(lease, [key], true)], map[]);
    assert Next(asked, key, Grant(0)) == granted;
    LeadsOn(asked, key, Grant(0), [], granted);
    LeadsOn(s, key, AskWrite(g, lease), [Grant(0)], granted);
  }

  /** Under the write lock it is limited by the quota it finds, or starts over if there is none. */
  lemma WritesAlone(key: string, quota: nat, guards: map<nat, Phase>, g: nat, lease: nat)
    requires g in guards && guards[g].Upgrading?
    ensures Leads(System(Idle(), quota, guards), key, [AskWrite(g, lease), Grant(0), CheckWrite(g)],
                  if quota == 0 then System(Idle(), 0, guards[g := Retrying])
                  else System(Alone(key, lease, true), quota, guards[g := Limited(lease, quota)]))
  {
    var s := System(Idle(), quota, guards);
    var granted := System(Alone(key, lease, true), quota, guards[g := Writing(lease)]);
    WriteGranted(key, quota, guards, g, lease);
    var checked := Next(granted, key, CheckWrite(g));
    assert quota == 0 ==> checked.locks == Idle();
    assert checked.guards == guards[g := checked.guards[g]];
    LeadsOn(granted, key, CheckWrite(g), [], checked);
    LeadsFarther(s, key, [AskWrite(g, lease), Grant(0)], granted, [CheckWrite(g)], checked);
  }

  /** A change of the quota under its write lock, while no guard holds or waits for it. */
  lemma QuotaChanges(key: string, quota: nat, guards: map<nat, Phase>, lease: nat, next: nat)
    requires forall g <- guards :: Leases(guards[g]) == {}
    ensures Leads(System(Idle(), quota, guards), key,
                  [Other(Ask(key, lease, true)), Other(Locks.Grant(0)), SetQuota(lease, next), Other(Locks.Release(lease))],
                  System(Idle(), next, guards))
  {
    var s := System(Idle(), quota, guards);
    var asked, granted := Next(s, key, Other(Ask(key, lease, true))), System(Alone(key, lease, true), quota, guards);
    assert asked.locks == Locks.State([Locks.Request(lease, [key], true)], map[]);
    assert Next(asked, key, Other(Locks.Grant(0))) == granted;
    var changed, done := granted.(quota := next), System(Idle(), next, guards);
    assert Next(changed, key, Other(Locks.Release(lease))) == done;
    LeadsOn(changed, key, Other(Locks.Release(lease)), [], done);
    LeadsOn(granted, key, SetQuota(lease, next), [Other(Locks.Release(lease))], done);
    LeadsOn(asked, key, Other(Locks.Grant(0)), [SetQuota(lease, next), Other(Locks.Release(lease))], done);
    LeadsOn(s, key, Other(Ask(key, lease, true)),
            [Other(Locks.Grant(0)), SetQuota(lease, next), Other(Locks.Release(lease))], done);
  }

  /** A guard whose quota is set or lifted between its two looks does what the second one says. */
  lemma SecondLookDecides(key: string, quota: nat, g: nat, a: nat, lease: nat, next: nat, b: nat)
    requires quota > 0
    ensures Leads(System(Idle(), quota, map[]), key,
                  [AskRead(g, a), Grant(0), CheckRead(g)]
                  + [Other(Ask(key, lease, true)), Other(Locks.Grant(0)), SetQuota(lease, next), Other(Locks.Release(lease))]
                  + [AskWrite(g, b), Grant(0), CheckWrite(g)],
                  if next == 0 then System(Idle(), 0, map[g := Retrying])
                  else System(Alone(key, b, true), next, map[g := Limited(b, next)]))
  {
    var s, t, u := System(Idle(), quota, map[]), System(Idle(), quota, map[g := Upgrading]), System(Idle(), next, map[g := Upgrading]);
    var looks := [AskRead(g, a), Grant(0), CheckRead(g)];
    var changes := [Other(Ask(key, lease, true)), Other(Locks.Grant(0)), SetQuota(lease, next), Other(Locks.Release(lease))];
    ReadsAlone(key, quota, map[], g, a);
    QuotaChanges(key, quota, map[g := Upgrading], lease, next);
    WritesAlone(key, next, map[g := Upgrading], g, b);
    LeadsFarther(s, key, looks, t, changes, u);
    LeadsFarther(s, key, looks + changes, u, [AskWrite(g, b), Grant(0), CheckWrite(g)],
                 if next == 0 then System(Idle(), 0, map[g := Retrying])
                 else System(Alone(key, b, true), next, map[g := Limited(b, next)]));
  }

  /** A guard that is through lets go when it is closed. */
  lemma ClosesAlone(key: string, quota: nat, guards: map<nat, Phase>, g: nat, lease: nat, write: bool)
    requires g in guards && guards[g] == if write then Limited(lease, quota) else Unlimited(lease)
    ensures Leads(System(Alone(key, lease, write), quota, guards), key, [Close(g)], System(Idle(), quota, guards - {g}))
  {
    var s := System(Alone(key, lease, write), quota, guards);
    assert Next(s, key, Close(g)) == System(Idle(), quota, guards - {g});
    LeadsOn(s, key, Close(g), [], System(Idle(), quota, guards - {g}));
  }
}
