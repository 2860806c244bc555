/** Leases (internal/lifecycle/manager.go). */
module Lifecycle {
  import opened Sets
  import opened Sorting

  // Leases on storage sources and users (internal/lifecycle/manager.go): a registry of
  // reference-counted mutexes, created on first use and forgotten after the last.

  datatype Key = Key(kind: nat, id: int)

  predicate Less(a: Key, b: Key) {
    if a.kind != b.kind then a.kind < b.kind else a.id < b.id
  }

  predicate IsManaged(k: Key) {
    k.kind != 0 && k.id > 0
  }

  lemma LessIsStrictOrder()
    ensures StrictOrder(Less)
  {
  }

  /** Invalid keys are dropped and the rest sorted, each once. */
  method NormalizedKeys(requested: seq<Key>) returns (keys: seq<Key>)
    ensures StrictlySorted(Less, keys)
    ensures forall i, j :: 0 <= i < j < |keys| ==>
              keys[i].kind < keys[j].kind || (keys[i].kind == keys[j].kind && keys[i].id < keys[j].id)
    ensures forall k :: k in keys <==> k in requested && k.kind != 0 && k.id > 0
  {
    var seen: set<Key> := {};
    keys := [];
    for i := 0 to |requested|
      invariant seen == set k | k in keys
      invariant forall k :: k in keys <==> k in requested[..i] && IsManaged(k)
      invariant forall a, b :: 0 <= a < b < |keys| ==> keys[a] != keys[b]
    {
      var item := requested[i];
      assert requested[..i + 1] == requested[..i] + [item];
      if item.kind == 0 || item.id <= 0 {
        continue;
      }
      if item in seen {
        continue;
      }
      seen := seen + {item};
      keys := keys + [item];
    }
    assert requested[..|requested|] == requested;
    LessIsStrictOrder();
    SortSorts(Less, keys);
    SortKeepsDistinct(keys);
    SortedDistinct(Less, Sort(Less, keys));
    keys := Sort(Less, keys);
  }

  lemma SortKeepsDistinct(s: seq<Key>)
    requires forall a, b :: 0 <= a < b < |s| ==> s[a] != s[b]
    ensures forall a, b :: 0 <= a < b < |Sort(Less, s)| ==> Sort(Less, s)[a] != Sort(Less, s)[b]
  {
    LessIsStrictOrder();
    SortSorts(Less, s);
    OnceEach(s);
    var t := Sort(Less, s);
    forall a, b | 0 <= a < b < |t| ensures t[a] != t[b] {
      TwiceCounts(t, a, b);
    }
  }

  lemma TwiceCounts(t: seq<Key>, a: nat, b: nat)
    requires a < b < |t|
    ensures t[a] == t[b] ==> multiset(t)[t[b]] >= 2
  {
    assert t == t[..b] + [t[b]] + t[b + 1..];
    assert t[..b][a] == t[a];
    assert t[a] in multiset(t[..b]);
  }

  lemma {:induction false} OnceEach(s: seq<Key>)
    requires forall a, b :: 0 <= a < b < |s| ==> s[a] != s[b]
    ensures forall k :: multiset(s)[k] <= 1
  {
    if s != [] {
      var n := |s| - 1;
      OnceEach(s[..n]);
      assert s == s[..n] + [s[n]];
      assert s[n] !in s[..n];
    }
  }

  // ------------------------------------------------------------------- registry

  /** `entries` maps a key to its mutex, `refs` counts the leases on each mutex ever made, and
      mutexes from `unused` on do not exist yet. */
  datatype Registry = Registry(entries: map<Key, nat>, refs: map<nat, nat>, unused: nat)

  function AddRef(r: Registry, k: Key): Registry {
    if k in r.entries && r.entries[k] in r.refs then
      r.(refs := r.refs[r.entries[k] := r.refs[r.entries[k]] + 1])
    else Registry(r.entries[k := r.unused], r.refs[r.unused := 1], r.unused + 1)
  }

  /** The mutex captured at acquisition loses a reference; at zero the key's entry is deleted. */
  function DropRef(r: Registry, k: Key, mutex: nat): Registry {
    if mutex !in r.refs || r.refs[mutex] == 0 then r
    else
      var n := r.refs[mutex] - 1;
      Registry(if n == 0 then r.entries - {k} else r.entries, r.refs[mutex := n], r.unused)
  }

  function AddRefs(r: Registry, keys: seq<Key>): Registry {
    if keys == [] then r else AddRef(AddRefs(r, keys[..|keys| - 1]), keys[|keys| - 1])
  }

  function DropRefs(r: Registry, keys: seq<Key>, mutexes: seq<nat>): Registry
    requires |keys| == |mutexes|
  {
    if keys == [] then r
    else var n := |keys| - 1; DropRef(DropRefs(r, keys[..n], mutexes[..n]), keys[n], mutexes[n])
  }

  /** Live keys have distinct, existing, counted mutexes. */
  ghost predicate Sound(r: Registry) {
    && (forall k <- r.entries :: r.entries[k] in r.refs && r.refs[r.entries[k]] > 0 && r.entries[k] < r.unused)
    && (forall m <- r.refs :: m < r.unused)
    && (forall k, l :: k in r.entries && l in r.entries && k != l ==> r.entries[k] != r.entries[l])
  }

  function Refs(r: Registry, k: Key): nat {
    if k in r.entries && r.entries[k] in r.refs then r.refs[r.entries[k]] else 0
  }

  predicate Distinct(keys: seq<Key>) {
    forall a, b :: 0 <= a < b < |keys| ==> keys[a] != keys[b]
  }

  lemma AddRefIsSound(r: Registry, k: Key)
    requires Sound(r)
    ensures Sound(AddRef(r, k)) && r.unused <= AddRef(r, k).unused
  {
  }

  lemma AddRefExact(r: Registry, k: Key)
    requires Sound(r)
    ensures var t := AddRef(r, k);
            && Sound(t) && r.unused <= t.unused
            && (forall l :: Refs(t, l) == Refs(r, l) + if l == k then 1 else 0)
            && (forall l <- r.entries :: l in t.entries && t.entries[l] == r.entries[l])
            && t.entries.Keys == r.entries.Keys + {k}
  {
    AddRefIsSound(r, k);
    forall l ensures Refs(AddRef(r, k), l) == Refs(r, l) + if l == k then 1 else 0 {
    }
  }

  lemma DropRefExact(r: Registry, k: Key)
    requires Sound(r) && k in r.entries
    ensures var t := DropRef(r, k, r.entries[k]);
            && Sound(t) && r.unused == t.unused
            && (forall l :: Refs(r, l) == Refs(t, l) + if l == k then 1 else 0)
            && t.entries.Keys == r.entries.Keys - (if Refs(r, k) == 1 then {k} else {})
            && (forall l <- t.entries :: t.entries[l] == r.entries[l])
  {
  }

  /** Registering adds one reference to each key and keeps the mutex of every key already live. */
  lemma {:induction false} AddRefsExact(r: Registry, keys: seq<Key>)
    requires Sound(r) && Distinct(keys)
    ensures var t := AddRefs(r, keys);
            && Sound(t) && r.unused <= t.unused
            && (forall k :: Refs(t, k) == Refs(r, k) + if k in keys then 1 else 0)
            && (forall k <- r.entries :: k in t.entries && t.entries[k] == r.entries[k])
            && (forall k :: k in t.entries <==> k in r.entries || k in keys)
    decreases |keys|
  {
    if keys != [] {
      var n := |keys| - 1;
      AddRefsExact(r, keys[..n]);
      AddRefExact(AddRefs(r, keys[..n]), keys[n]);
      LastIsNew(keys);
    }
  }

  lemma LastIsNew(keys: seq<Key>)
    requires keys != [] && Distinct(keys)
    ensures var n := |keys| - 1; keys[n] !in keys[..n] && forall k :: k in keys <==> k in keys[..n] || k == keys[n]
  {
    var n := |keys| - 1;
    assert keys == keys[..n] + [keys[n]];
  }

  /** Unregistering takes one reference off each key, deletes exactly the keys that had no other,
      and keeps the mutex of the rest. */
  lemma {:induction false} DropRefsExact(r: Registry, keys: seq<Key>, mutexes: seq<nat>)
    requires Sound(r) && Distinct(keys) && |keys| == |mutexes|
    requires forall i :: 0 <= i < |keys| ==> keys[i] in r.entries && r.entries[keys[i]] == mutexes[i]
    ensures var t := DropRefs(r, keys, mutexes);
            && Sound(t) && r.unused == t.unused
            && (forall k :: Refs(r, k) == Refs(t, k) + if k in keys then 1 else 0)
            && (forall k :: k in t.entries <==> k in r.entries && !(k in keys && Refs(r, k) == 1))
            && (forall k <- t.entries :: t.entries[k] == r.entries[k])
    decreases |keys|
  {
    if keys != [] {
      var n := |keys| - 1;
      DropRefsExact(r, keys[..n], mutexes[..n]);
      LastIsNew(keys);
      DropRefExact(DropRefs(r, keys[..n], mutexes[..n]), keys[n]);
    }
  }

  // -------------------------------------------------------------- state machine

  /** One call to acquire and its release.  The first `held` of its mutexes are locked; `releasing`
      is set once the release function was called. */
  datatype Lease = Lease(keys: seq<Key>, mutexes: seq<nat>, write: bool, held: nat, releasing: bool)

  datatype State = State(registry: Registry, leases: map<nat, Lease>)

  datatype Step =
    | Register(id: nat, keys: seq<Key>, write: bool)
    | LockNext(id: nat)
    | Release(id: nat)
    | UnlockLast(id: nat)
    | Unregister(id: nat)

  function MutexesOf(r: Registry, keys: seq<Key>): (mutexes: seq<nat>)
    requires forall k <- keys :: k in r.entries
    ensures |mutexes| == |keys| && forall i :: 0 <= i < |keys| ==> mutexes[i] == r.entries[keys[i]]
  {
    if keys == [] then [] else MutexesOf(r, keys[..|keys| - 1]) + [r.entries[keys[|keys| - 1]]]
  }

  predicate Locks(lease: Lease, mutex: nat) {
    lease.held <= |lease.mutexes| && mutex in lease.mutexes[..lease.held]
  }

  predicate WaitsFor(lease: Lease, mutex: nat) {
    !lease.releasing && lease.held < |lease.mutexes| && lease.mutexes[lease.held] == mutex
  }

  /** A read lock goes past readers, a write lock past nobody. */
  predicate Available(s: State, id: nat)
    requires id in s.leases && s.leases[id].held < |s.leases[id].mutexes|
  {
    var lease := s.leases[id];
    forall other <- s.leases :: other != id && Locks(s.leases[other], lease.mutexes[lease.held]) ==>
      !lease.write && !s.leases[other].write
  }

  predicate Enabled(s: State, step: Step) {
    match step
    case Register(id, keys, _) => id !in s.leases && Distinct(keys)
    case LockNext(id) =>
      && id in s.leases && !s.leases[id].releasing && s.leases[id].held < |s.leases[id].mutexes|
      && Available(s, id)
    case Release(id) => id in s.leases && !s.leases[id].releasing && s.leases[id].held == |s.leases[id].mutexes|
    case UnlockLast(id) => id in s.leases && s.leases[id].releasing && s.leases[id].held > 0
    case Unregister(id) => id in s.leases && s.leases[id].releasing && s.leases[id].held == 0
  }

  ghost function Next(s: State, step: Step): State {
    match step
    case Register(id, keys, write) =>
      var registry := AddRefs(s.registry, keys);
      if forall k <- keys :: k in registry.entries then
        State(registry, s.leases[id := Lease(keys, MutexesOf(registry, keys), write, 0, false)])
      else s
    case LockNext(id) =>
      if id in s.leases then s.(leases := s.leases[id := s.leases[id].(held := s.leases[id].held + 1)]) else s
    case Release(id) =>
      if id in s.leases then s.(leases := s.leases[id := s.leases[id].(releasing := true)]) else s
    case UnlockLast(id) =>
      if id in s.leases && s.leases[id].held > 0 then
        s.(leases := s.leases[id := s.leases[id].(held := s.leases[id].held - 1)])
      else s
    case Unregister(id) =>
      if id in s.leases && |s.leases[id].keys| == |s.leases[id].mutexes| then
        State(DropRefs(s.registry, s.leases[id].keys, s.leases[id].mutexes), s.leases - {id})
      else s
  }

  /** The leases registered on a key: acquiring it, holding it or letting it go. */
  function Users(leases: map<nat, Lease>, k: Key): set<nat> {
    set id | id in leases && k in leases[id].keys
  }

  ghost predicate LeaseFits(r: Registry, lease: Lease) {
    && Distinct(lease.keys) && |lease.keys| == |lease.mutexes| && lease.held <= |lease.mutexes|
    && forall i :: 0 <= i < |lease.keys| ==> lease.keys[i] in r.entries && r.entries[lease.keys[i]] == lease.mutexes[i]
  }

  ghost predicate CountsAreExact(s: State) {
    forall k :: Refs(s.registry, k) == |Users(s.leases, k)| && (k in s.registry.entries <==> Users(s.leases, k) != {})
  }

  /** No mutex is locked by two leases unless both only read. */
  ghost predicate MutexesExclude(s: State) {
    forall a, b, m :: a in s.leases && b in s.leases && a != b && Locks(s.leases[a], m) && Locks(s.leases[b], m) ==>
      !s.leases[a].write && !s.leases[b].write
  }

  /** A key's reference count is the number of its leases, and every lease's mutexes are those its
      keys have in the registry now, however often a key was deleted and made again. */
  ghost predicate Inv(s: State) {
    && Sound(s.registry) && CountsAreExact(s) && MutexesExclude(s)
    && forall id <- s.leases :: LeaseFits(s.registry, s.leases[id])
  }

  lemma AfterRegister(s: State, id: nat, keys: seq<Key>, write: bool)
    requires Inv(s) && Enabled(s, Register(id, keys, write))
    ensures var r := AddRefs(s.registry, keys);
            && Sound(r) && (forall k <- keys :: k in r.entries)
            && Next(s, Register(id, keys, write)) == State(r, s.leases[id := Lease(keys, MutexesOf(r, keys), write, 0, false)])
  {
    AddRefsExact(s.registry, keys);
  }

  lemma OneMoreUser(leases: map<nat, Lease>, id: nat, lease: Lease, k: Key)
    requires id !in leases
    ensures Users(leases[id := lease], k) == Users(leases, k) + if k in lease.keys then {id} else {}
    ensures |Users(leases[id := lease], k)| == |Users(leases, k)| + if k in lease.keys then 1 else 0
  {
    assert Users(leases[id := lease], k) == Users(leases, k) + if k in lease.keys then {id} else {};
    assert id !in Users(leases, k);
  }

  lemma RegisterKeepsCounts(s: State, id: nat, keys: seq<Key>, write: bool)
    requires Inv(s) && Enabled(s, Register(id, keys, write))
    ensures CountsAreExact(Next(s, Register(id, keys, write)))
  {
    AfterRegister(s, id, keys, write);
    AddRefsExact(s.registry, keys);
    var t := Next(s, Register(id, keys, write));
    forall k
      ensures Refs(t.registry, k) == |Users(t.leases, k)|
      ensures k in t.registry.entries <==> Users(t.leases, k) != {}
    {
      OneMoreUser(s.leases, id, t.leases[id], k);
    }
  }

  lemma RegisterKeepsFit(s: State, id: nat, keys: seq<Key>, write: bool, a: nat)
    requires Inv(s) && Enabled(s, Register(id, keys, write))
    requires a in s.leases || a == id
    ensures var t := Next(s, Register(id, keys, write)); a in t.leases && LeaseFits(t.registry, t.leases[a])
  {
    AfterRegister(s, id, keys, write);
    AddRefsExact(s.registry, keys);
    assert a in s.leases ==> LeaseFits(s.registry, s.leases[a]);
  }

  lemma RegisterKeepsInv(s: State, id: nat, keys: seq<Key>, write: bool)
    requires Inv(s) && Enabled(s, Register(id, keys, write))
    ensures Inv(Next(s, Register(id, keys, write)))
  {
    var t := Next(s, Register(id, keys, write));
    RegisterKeepsCounts(s, id, keys, write);
    AfterRegister(s, id, keys, write);
    forall a | a in t.leases ensures LeaseFits(t.registry, t.leases[a]) {
      RegisterKeepsFit(s, id, keys, write, a);
    }
    assert forall m :: !Locks(t.leases[id], m);
    assert MutexesExclude(t);
  }

  lemma UnregisterKeepsInv(s: State, id: nat)
    requires Inv(s) && Enabled(s, Unregister(id))
    ensures Inv(Next(s, Unregister(id)))
  {
    var lease := s.leases[id];
    assert LeaseFits(s.registry, lease);
    DropRefsExact(s.registry, lease.keys, lease.mutexes);
    var t := Next(s, Unregister(id));
    forall k
      ensures Refs(t.registry, k) == |Users(t.leases, k)|
      ensures k in t.registry.entries <==> Users(t.leases, k) != {}
    {
      assert Users(t.leases, k) == Users(s.leases, k) - {id};
      assert id in Users(s.leases, k) <==> k in lease.keys;
      if k in lease.keys && Refs(s.registry, k) == 1 {
        assert Users(t.leases, k) == {};
      }
    }
    forall a | a in t.leases ensures LeaseFits(t.registry, t.leases[a]) {
      StillLive(s, id, a);
    }
  }

  /** A key another lease uses outlives this one. */
  lemma StillLive(s: State, id: nat, other: nat)
    requires Inv(s) && id in s.leases && other in s.leases && other != id
    requires |s.leases[id].keys| == |s.leases[id].mutexes|
    ensures LeaseFits(DropRefs(s.registry, s.leases[id].keys, s.leases[id].mutexes), s.leases[other])
  {
    var lease, o := s.leases[id], s.leases[other];
    assert LeaseFits(s.registry, lease) && LeaseFits(s.registry, o);
    DropRefsExact(s.registry, lease.keys, lease.mutexes);
    forall i | 0 <= i < |o.keys| && o.keys[i] in lease.keys ensures Refs(s.registry, o.keys[i]) != 1 {
      assert {id, other} <= Users(s.leases, o.keys[i]);
      SubsetIsSmaller({id, other}, Users(s.leases, o.keys[i]));
    }
  }

  lemma LockKeepsExclusion(s: State, id: nat)
    requires Inv(s) && Enabled(s, LockNext(id))
    ensures MutexesExclude(Next(s, LockNext(id)))
  {
    var t, lease := Next(s, LockNext(id)), s.leases[id];
    var mutex := lease.mutexes[lease.held];
    forall a, m | a in t.leases && Locks(t.leases[a], m) ensures Locks(s.leases[a], m) || (a == id && m == mutex) {
      if a == id {
        assert lease.mutexes[..lease.held + 1] == lease.mutexes[..lease.held] + [mutex];
      }
    }
    forall a, b, m | a in t.leases && b in t.leases && a != b && Locks(t.leases[a], m) && Locks(t.leases[b], m)
      ensures !t.leases[a].write && !t.leases[b].write
    {
      var other := if a == id then b else a;
      assert (a == id || b == id) && m == mutex ==> Locks(s.leases[other], m);
    }
  }

  lemma LockKeepsInv(s: State, id: nat)
    requires Inv(s) && Enabled(s, LockNext(id))
    ensures Inv(Next(s, LockNext(id)))
  {
    var t := Next(s, LockNext(id));
    LockKeepsExclusion(s, id);
    assert LeaseFits(s.registry, s.leases[id]);
    forall k ensures Users(t.leases, k) == Users(s.leases, k) {
    }
    forall a | a in t.leases ensures LeaseFits(t.registry, t.leases[a]) {
      assert LeaseFits(s.registry, s.leases[a]);
    }
  }

  lemma SameHoldKeepsInv(s: State, step: Step)
    requires Inv(s) && Enabled(s, step) && (step.Release? || step.UnlockLast?)
    ensures Inv(Next(s, step))
  {
    var t, lease := Next(s, step), s.leases[step.id];
    assert LeaseFits(s.registry, lease);
    forall k ensures Users(t.leases, k) == Users(s.leases, k) {
    }
    forall a, m | a in t.leases && Locks(t.leases[a], m) ensures Locks(s.leases[a], m) {
      assert a == step.id && step.UnlockLast? ==> lease.mutexes[..lease.held - 1] <= lease.mutexes[..lease.held];
    }
  }

  lemma StepKeepsInv(s: State, step: Step)
    requires Inv(s) && Enabled(s, step)
    ensures Inv(Next(s, step))
  {
    match step
    case Register(id, keys, write) => RegisterKeepsInv(s, id, keys, write);
    case LockNext(id) => LockKeepsInv(s, id);
    case Unregister(id) => UnregisterKeepsInv(s, id);
    case _ => SameHoldKeepsInv(s, step);
  }

  ghost predicate ValidRun(s: State, steps: seq<Step>)
    decreases |steps|
  {
    steps != [] ==> Enabled(s, steps[0]) && ValidRun(Next(s, steps[0]), steps[1..])
  }

  ghost function Run(s: State, steps: seq<Step>): State
    decreases |steps|
  {
    if steps == [] then s else Run(Next(s, steps[0]), steps[1..])
  }

  const EMPTY := State(Registry(map[], map[], 0), map[])

  lemma {:induction false} RunKeepsInv(s: State, steps: seq<Step>)
    requires Inv(s) && ValidRun(s, steps)
    ensures Inv(Run(s, steps))
    decreases |steps|
  {
    if steps != [] {
      StepKeepsInv(s, steps[0]);
      RunKeepsInv(Next(s, steps[0]), steps[1..]);
    }
  }

  predicate Holds(lease: Lease, k: Key) {
    lease.held <= |lease.keys| && k in lease.keys[..lease.held]
  }

  /** In every reachable state a Write lease excludes every other lease on its keys: although a
      key's mutex may have been deleted and made again, all who hold the key hold the same one. */
  lemma WriteExcludes(steps: seq<Step>, a: nat, b: nat, k: Key)
    requires ValidRun(EMPTY, steps)
    ensures var s := Run(EMPTY, steps);
            a in s.leases && b in s.leases && a != b && s.leases[a].write && Holds(s.leases[a], k) ==>
              !Holds(s.leases[b], k)
  {
    RunKeepsInv(EMPTY, steps);
    var s := Run(EMPTY, steps);
    if a in s.leases && b in s.leases && a != b && Holds(s.leases[a], k) && Holds(s.leases[b], k) {
      HeldMutex(s, a, k);
      HeldMutex(s, b, k);
    }
  }

  lemma HeldMutex(s: State, a: nat, k: Key)
    requires Inv(s) && a in s.leases && Holds(s.leases[a], k)
    ensures k in s.registry.entries && Locks(s.leases[a], s.registry.entries[k])
  {
    var lease := s.leases[a];
    assert LeaseFits(s.registry, lease);
    var i :| 0 <= i < lease.held && lease.keys[i] == k;
    assert lease.mutexes[..lease.held][i] == lease.mutexes[i];
  }

  /** In every reachable state the reference counts are the leases, and leases on one key share
      one mutex, whether they wait for it or hold it. */
  lemma RefsAreLeases(steps: seq<Step>, k: Key)
    requires ValidRun(EMPTY, steps)
    ensures var s := Run(EMPTY, steps);
            && Refs(s.registry, k) == |Users(s.leases, k)|
            && (k in s.registry.entries <==> Users(s.leases, k) != {})
            && forall a, i :: a in s.leases && 0 <= i < |s.leases[a].keys| && s.leases[a].keys[i] == k ==>
                 i < |s.leases[a].mutexes| && k in s.registry.entries && s.leases[a].mutexes[i] == s.registry.entries[k]
  {
    RunKeepsInv(EMPTY, steps);
    var s := Run(EMPTY, steps);
    forall a | a in s.leases ensures LeaseFits(s.registry, s.leases[a]) {
    }
  }

  // ------------------------------------------------------------------- progress

  ghost predicate AllSorted(s: State) {
    forall id <- s.leases :: StrictlySorted(Less, s.leases[id].keys)
  }

  /** As Available, and moreover a reader lets a waiting writer go first. */
  predicate AvailableBehindWriters(s: State, id: nat)
    requires id in s.leases && s.leases[id].held < |s.leases[id].mutexes|
  {
    var lease := s.leases[id];
    && Available(s, id)
    && (!lease.write ==> forall other <- s.leases :: s.leases[other].write ==>
          !WaitsFor(s.leases[other], lease.mutexes[lease.held]))
  }

  /** A step that a lease can take by itself, even if waiting writers go before readers. */
  predicate CanMove(s: State, step: Step) {
    && Enabled(s, step) && !step.Register?
    && (step.LockNext? ==> AvailableBehindWriters(s, step.id))
  }

  predicate Acquiring(s: State, id: nat) {
    id in s.leases && !s.leases[id].releasing && s.leases[id].held < |s.leases[id].keys|
  }

  function NextKey(s: State, id: nat): Key
    requires Acquiring(s, id)
  {
    s.leases[id].keys[s.leases[id].held]
  }

  /** Of the leases still acquiring, one that waits for the greatest key. */
  lemma {:induction false} GreatestWaiter(s: State, ids: set<nat>) returns (top: nat)
    requires ids != {} && forall id <- ids :: Acquiring(s, id)
    ensures top in ids && forall id <- ids :: !Less(NextKey(s, top), NextKey(s, id))
    decreases |ids|
  {
    LessIsStrictOrder();
    var first :| first in ids;
    var rest := ids - {first};
    top := first;
    if rest != {} {
      var other := GreatestWaiter(s, rest);
      top := if Less(NextKey(s, first), NextKey(s, other)) then other else first;
    }
    forall id | id in ids ensures !Less(NextKey(s, top), NextKey(s, id)) {
      assert id == first || id in rest;
    }
  }

  lemma NotHeldBy(r: Registry, mine: Lease, other: Lease)
    requires Sound(r) && LeaseFits(r, mine) && LeaseFits(r, other) && StrictlySorted(Less, other.keys)
    requires mine.held < |mine.keys| && other.held < |other.keys|
    requires !Less(mine.keys[mine.held], other.keys[other.held])
    ensures !Locks(other, mine.mutexes[mine.held])
  {
  }

  /** The key the greatest waiter wants is not held: a holder would wait for a greater one. */
  lemma OthersDoNotHold(s: State, top: nat, id: nat)
    requires Inv(s) && AllSorted(s) && Acquiring(s, top) && Acquiring(s, id)
    requires !Less(NextKey(s, top), NextKey(s, id))
    ensures s.leases[top].held < |s.leases[top].mutexes|
    ensures !Locks(s.leases[id], s.leases[top].mutexes[s.leases[top].held])
  {
    assert LeaseFits(s.registry, s.leases[top]) && LeaseFits(s.registry, s.leases[id]);
    NotHeldBy(s.registry, s.leases[top], s.leases[id]);
  }

  /** Leases never deadlock: as long as there is one, some lease can take its next step, provided
      that holders go on to release. */
  lemma NoDeadlock(s: State)
    requires Inv(s) && AllSorted(s) && s.leases != map[]
    ensures exists step :: CanMove(s, step)
  {
    if id :| id in s.leases && !Acquiring(s, id) {
      assert LeaseFits(s.registry, s.leases[id]);
      if !s.leases[id].releasing {
        assert CanMove(s, Release(id));
      } else if s.leases[id].held > 0 {
        assert CanMove(s, UnlockLast(id));
      } else {
        assert CanMove(s, Unregister(id));
      }
    } else {
      var top := GreatestWaiter(s, s.leases.Keys);
      forall id | id in s.leases
        ensures s.leases[top].held < |s.leases[top].mutexes| && !Locks(s.leases[id], s.leases[top].mutexes[s.leases[top].held])
      {
        OthersDoNotHold(s, top, id);
      }
      var mutex := s.leases[top].mutexes[s.leases[top].held];
      if writer :| writer in s.leases && s.leases[writer].write && WaitsFor(s.leases[writer], mutex) {
        assert CanMove(s, LockNext(writer));
      } else {
        assert CanMove(s, LockNext(top));
      }
    }
  }

  lemma StepKeepsSorted(s: State, step: Step)
    requires AllSorted(s) && Enabled(s, step) && (step.Register? ==> StrictlySorted(Less, step.keys))
    ensures AllSorted(Next(s, step))
  {
  }

  lemma {:induction false} RunKeepsSorted(s: State, steps: seq<Step>)
    requires Inv(s) && AllSorted(s) && ValidRun(s, steps)
    requires forall step <- steps :: step.Register? ==> StrictlySorted(Less, step.keys)
    ensures AllSorted(Run(s, steps))
    decreases |steps|
  {
    if steps != [] {
      assert steps[0] in steps;
      StepKeepsInv(s, steps[0]);
      StepKeepsSorted(s, steps[0]);
      RunKeepsSorted(Next(s, steps[0]), steps[1..]);
    }
  }

  /** In every reachable state of leases with normalized keys some lease can take its next step, and a
      reader's need not go before a writer that waits for the same mutex. */
  lemma LeasesNeverDeadlock(steps: seq<Step>)
    requires ValidRun(EMPTY, steps) && forall step <- steps :: step.Register? ==> StrictlySorted(Less, step.keys)
    ensures var s := Run(EMPTY, steps);
            s.leases != map[] ==>
              exists step :: Enabled(s, step) && !step.Register?
                && (step.LockNext? && !s.leases[step.id].write ==>
                      forall other <- s.leases ::
                        (s.leases[other].write && !s.leases[other].releasing && s.leases[other].held < |s.leases[other].mutexes|)
                        ==> s.leases[other].mutexes[s.leases[other].held] != s.leases[step.id].mutexes[s.leases[step.id].held])
  {
    RunKeepsInv(EMPTY, steps);
    RunKeepsSorted(EMPTY, steps);
    var s := Run(EMPTY, steps);
    if s.leases != map[] {
      NoDeadlock(s);
      var step :| CanMove(s, step);
      assert Enabled(s, step);
    }
  }

  /** Steps a lease has still to take. */
  function Remaining(lease: Lease): nat {
    if lease.releasing then lease.held + 1
    else 2 * |lease.mutexes| + 2 - (if lease.held <= |lease.mutexes| then lease.held else |lease.mutexes|)
  }

  ghost function Work(leases: map<nat, Lease>): nat
    decreases |leases|
  {
    if leases == map[] then 0
    else var id :| id in leases; Remaining(leases[id]) + Work(leases - {id})
  }

  lemma {:induction false} WorkSplits(leases: map<nat, Lease>, id: nat)
    requires id in leases
    ensures Work(leases) == Remaining(leases[id]) + Work(leases - {id})
    decreases |leases|
  {
    var chosen :| chosen in leases && Work(leases) == Remaining(leases[chosen]) + Work(leases - {chosen});
    if chosen != id {
      WorkSplits(leases - {chosen}, id);
      WorkSplits(leases - {id}, chosen);
      assert leases - {chosen} - {id} == leases - {id} - {chosen};
    }
  }

  lemma SameWithout(leases: map<nat, Lease>, id: nat, lease: Lease)
    ensures leases[id := lease] - {id} == leases - {id}
  {
  }

  /** Every step of a lease brings all leases nearer their end, so with NoDeadlock all of them get
      there once no more are requested. */
  lemma WorkFalls(s: State, step: Step)
    requires Inv(s) && Enabled(s, step) && !step.Register?
    ensures Work(Next(s, step).leases) < Work(s.leases)
  {
    var t, id := Next(s, step), step.id;
    assert LeaseFits(s.registry, s.leases[id]);
    WorkSplits(s.leases, id);
    if step.Unregister? {
      assert t.leases == s.leases - {id};
    } else {
      WorkSplits(t.leases, id);
      SameWithout(s.leases, id, t.leases[id]);
      assert t.leases == s.leases[id := t.leases[id]];
    }
  }

  // ---------------------------------------------------------- the code, as run

  /** The registry's two critical sections. */
  class Manager {
    var registry: Registry

    constructor ()
      ensures registry == Registry(map[], map[], 0)
    {
      registry := Registry(map[], map[], 0);
    }

    /** The first half of acquire: one reference and one mutex for each key. */
    method RegisterKeys(keys: seq<Key>) returns (mutexes: seq<nat>)
      requires Sound(registry) && Distinct(keys)
      modifies this
      ensures Sound(registry) && registry == AddRefs(old(registry), keys)
      ensures forall k <- keys :: k in registry.entries
      ensures mutexes == MutexesOf(registry, keys)
    {
      ghost var before := registry;
      mutexes := [];
      for i := 0 to |keys|
        invariant registry == AddRefs(before, keys[..i]) && |mutexes| == i
        invariant Sound(registry)
        invariant forall k :: 0 <= k < i ==> keys[k] in registry.entries && mutexes[k] == registry.entries[keys[k]]
      {
        var item := keys[i];
        assert keys[..i + 1][..i] == keys[..i];
        AddRefsExact(before, keys[..i + 1]);
        var entries, refs := registry.entries, registry.refs;
        if item in entries {
          registry := registry.(refs := refs[entries[item] := refs[entries[item]] + 1]);
        } else {
          registry := Registry(entries[item := registry.unused], refs[registry.unused := 1], registry.unused + 1);
        }
        mutexes := mutexes + [registry.entries[item]];
      }
      assert keys[..|keys|] == keys;
    }

    /** The end of the release function. */
    method UnregisterKeys(keys: seq<Key>, mutexes: seq<nat>)
      requires Sound(registry) && Distinct(keys) && |keys| == |mutexes|
      requires forall i :: 0 <= i < |keys| ==> keys[i] in registry.entries && registry.entries[keys[i]] == mutexes[i]
      modifies this
      ensures Sound(registry) && registry == DropRefs(old(registry), keys, mutexes)
    {
      ghost var before := registry;
      for i := 0 to |keys|
        invariant registry == DropRefs(before, keys[..i], mutexes[..i]) && Sound(registry)
      {
        DropNext(before, keys, mutexes, i);
        var mutex := mutexes[i];
        var n := registry.refs[mutex] - 1;
        registry := Registry(if n == 0 then registry.entries - {keys[i]} else registry.entries, registry.refs[mutex := n], registry.unused);
      }
      assert keys[..|keys|] == keys && mutexes[..|mutexes|] == mutexes;
    }
  }

  /** Midway, the next key still has the mutex that was captured. */
  lemma NextIsLive(r: Registry, keys: seq<Key>, mutexes: seq<nat>, i: nat)
    requires Sound(r) && Distinct(keys) && |keys| == |mutexes| && i < |keys|
    requires forall k :: 0 <= k < |keys| ==> keys[k] in r.entries && r.entries[keys[k]] == mutexes[k]
    ensures var t := DropRefs(r, keys[..i], mutexes[..i]);
            Sound(t) && keys[i] in t.entries && t.entries[keys[i]] == mutexes[i]
  {
    DropRefsExact(r, keys[..i], mutexes[..i]);
    assert keys[i] !in keys[..i];
  }

  lemma DropNext(r: Registry, keys: seq<Key>, mutexes: seq<nat>, i: nat)
    requires Sound(r) && Distinct(keys) && |keys| == |mutexes| && i < |keys|
    requires forall k :: 0 <= k < |keys| ==> keys[k] in r.entries && r.entries[keys[k]] == mutexes[k]
    ensures var t := DropRefs(r, keys[..i], mutexes[..i]); var u := DropRefs(r, keys[..i + 1], mutexes[..i + 1]);
            && mutexes[i] in t.refs && t.refs[mutexes[i]] > 0
            && u == DropRef(t, keys[i], mutexes[i]) && Sound(u)
  {
    NextIsLive(r, keys, mutexes, i);
    DropRefExact(DropRefs(r, keys[..i], mutexes[..i]), keys[i]);
    assert keys[..i + 1][..i] == keys[..i] && mutexes[..i + 1][..i] == mutexes[..i];
  }
}
