/** The in-memory path lock (internal/locks/locks.go). */
module PathLocks {
  import opened Crash
  import opened Paths
  import opened Sets
  import opened Sorting
  import opened Strings
  import opened Wrappers

  // The in-memory path lock (internal/locks/locks.go): hierarchical read and write locks with a
  // queue that only conflicting requests wait in.
  //
  // The manager's critical sections are the steps of a state machine over the queue and the leases
  // not yet released.

  const SEPARATOR := '\0'

  // ----------------------------------------------------------------------- keys

  /** A path key names a source and a path in it; any other key stands for itself only. */
  datatype PathKey = PathKey(source: string, path: string)

  function SplitPathKey(key: string): Option<PathKey> {
    match IndexOf(key, SEPARATOR)
    case None => None
    case Some(i) => Some(PathKey(key[..i], key[i + 1..]))
  }

  predicate KeysConflict(left: string, right: string) {
    left == right ||
    var l, r := SplitPathKey(left), SplitPathKey(right);
    l.Some? && r.Some? && l.value.source == r.value.source
    && (IsSameOrDescendant(l.value.path, r.value.path) || IsSameOrDescendant(r.value.path, l.value.path))
  }

  /** A path key covers its path and everything below it. */
  predicate Covers(key: string, source: string, path: string) {
    var k := SplitPathKey(key);
    k.Some? && k.value.source == source && IsSameOrDescendant(k.value.path, path)
  }

  /** How the code makes a key of a source and a path in it. */
  function KeyOf(source: string, path: string): string {
    source + [SEPARATOR] + path
  }

  lemma SplitUndoesKey(source: string, path: string)
    requires SEPARATOR !in source
    ensures SplitPathKey(KeyOf(source, path)) == Some(PathKey(source, path))
  {
    var key := KeyOf(source, path);
    IndexOfFirst(source, SEPARATOR, path);
    assert key[..|source|] == source && key[|source| + 1..] == path;
  }

  /** On the text of keys: paths of one source conflict when one is at or below the other. */
  lemma KeysConflictExactly(s: string, p: string, t: string, q: string)
    requires SEPARATOR !in s && SEPARATOR !in t
    ensures KeysConflict(s + "\0" + p, t + "\0" + q) <==> s == t && (IsSameOrDescendant(p, q) || IsSameOrDescendant(q, p))
  {
    SplitUndoesKey(s, p);
    SplitUndoesKey(t, q);
    assert s + "\0" + p == KeyOf(s, p) && t + "\0" + q == KeyOf(t, q);
  }

  lemma CoversExactly(s: string, p: string, t: string, q: string)
    requires SEPARATOR !in s
    ensures Covers(s + "\0" + p, t, q) <==> s == t && IsSameOrDescendant(p, q)
  {
    SplitUndoesKey(s, p);
    assert s + "\0" + p == KeyOf(s, p);
  }

  /** A key of another kind covers no path and conflicts with itself alone. */
  lemma PlainKeysConflictExactly(plain: string, key: string)
    requires SEPARATOR !in plain
    ensures (KeysConflict(plain, key) <==> plain == key) && (KeysConflict(key, plain) <==> plain == key)
    ensures forall source, path :: !Covers(plain, source, path)
  {
  }

  /** Two keys conflict exactly when they are equal or their subtrees share a path. */
  lemma ConflictMeansSharedPath(left: string, right: string)
    ensures KeysConflict(left, right) <==>
            left == right || exists source, path :: Covers(left, source, path) && Covers(right, source, path)
  {
    var l, r := SplitPathKey(left), SplitPathKey(right);
    if KeysConflict(left, right) && left != right {
      var path := if IsSameOrDescendant(l.value.path, r.value.path) then r.value.path else l.value.path;
      assert Covers(left, l.value.source, path) && Covers(right, l.value.source, path);
    }
    if source, path :| Covers(left, source, path) && Covers(right, source, path) {
      if l.value.path != "" && r.value.path != "" {
        SharedPathMeansNested(l.value.path, r.value.path, path);
      }
    }
  }

  /** Sorted and without duplicates. */
  method NormalizeKeys(keys: seq<string>) returns (out: seq<string>)
    ensures StrictlySorted(Less, out) && forall key :: key in out <==> key in keys
  {
    LessIsStrictOrder();
    SortSorts(Less, keys);
    out := DropRepeats(Sort(Less, keys));
  }

  method DropRepeats(ordered: seq<string>) returns (out: seq<string>)
    requires Sorted(Less, ordered)
    ensures StrictlySorted(Less, out) && forall key :: key in out <==> key in ordered
  {
    out := [];
    for i := 0 to |ordered|
      invariant StrictlySorted(Less, out)
      invariant forall key :: key in out <==> key in ordered[..i]
      invariant if i == 0 then out == [] else out != [] && out[|out| - 1] == ordered[i - 1]
    {
      var key := ordered[i];
      assert ordered[..i + 1] == ordered[..i] + [key];
      if |out| == 0 || out[|out| - 1] != key {
        ExtendsStrictly(out, ordered, i);
        out := out + [key];
      }
    }
    assert ordered[..|ordered|] == ordered;
  }

  lemma ExtendsStrictly(out: seq<string>, ordered: seq<string>, i: nat)
    requires Sorted(Less, ordered) && i < |ordered| && StrictlySorted(Less, out)
    requires i > 0 ==> out != [] && out[|out| - 1] == ordered[i - 1] && ordered[i - 1] != ordered[i]
    requires i == 0 ==> out == []
    ensures StrictlySorted(Less, out + [ordered[i]])
  {
    forall k | 0 <= k < |out| ensures Less(out[k], ordered[i]) {
      var last := out[|out| - 1];
      LessIsTotal(last, ordered[i]);
      if k < |out| - 1 {
        LessIsTransitive(out[k], last, ordered[i]);
      }
    }
  }

  // -------------------------------------------------------------- state machine

  /** One call to acquire. */
  datatype Request = Request(id: nat, keys: seq<string>, write: bool)

  /** `queue` waits, oldest first; `held` are the leases handed out and not yet released. */
  datatype State = State(queue: seq<Request>, held: map<nat, Request>)

  datatype Step = Arrive(request: Request) | Grant(index: nat) | Release(id: nat)

  predicate Conflicts(a: Request, b: Request) {
    (a.write || b.write) && exists i, j :: 0 <= i < |a.keys| && 0 <= j < |b.keys| && KeysConflict(a.keys[i], b.keys[j])
  }

  lemma ConflictFlips(a: Request, b: Request)
    requires Conflicts(a, b)
    ensures Conflicts(b, a)
  {
    var i, j :| 0 <= i < |a.keys| && 0 <= j < |b.keys| && KeysConflict(a.keys[i], b.keys[j]);
    assert KeysConflict(b.keys[j], a.keys[i]);
  }

  lemma ConflictsIsSymmetric(a: Request, b: Request)
    ensures Conflicts(a, b) == Conflicts(b, a)
  {
    if Conflicts(a, b) {
      ConflictFlips(a, b);
    } else if Conflicts(b, a) {
      ConflictFlips(b, a);
    }
  }

  predicate NoHolderConflicts(held: map<nat, Request>, r: Request) {
    forall id <- held :: !Conflicts(r, held[id])
  }

  /** A request may go ahead when it conflicts with no holder and with nobody older in the queue. */
  predicate CanGrant(s: State, i: nat) {
    && i < |s.queue| && NoHolderConflicts(s.held, s.queue[i])
    && forall j :: 0 <= j < i ==> !Conflicts(s.queue[i], s.queue[j])
  }

  predicate Enabled(s: State, step: Step) {
    match step
    case Arrive(r) => r.id !in s.held && forall i :: 0 <= i < |s.queue| ==> s.queue[i].id != r.id
    case Grant(i) => CanGrant(s, i)
    case Release(id) => id in s.held
  }

  function Without(queue: seq<Request>, i: nat): seq<Request>
    requires i < |queue|
  {
    queue[..i] + queue[i + 1..]
  }

  function Next(s: State, step: Step): State {
    match step
    case Arrive(r) => s.(queue := s.queue + [r])
    case Grant(i) =>
      if i < |s.queue| then State(Without(s.queue, i), s.held[s.queue[i].id := s.queue[i]]) else s
    case Release(id) => s.(held := s.held - {id})
  }

  predicate DistinctIds(s: State) {
    && (forall i, j :: 0 <= i < j < |s.queue| ==> s.queue[i].id != s.queue[j].id)
    && (forall i :: 0 <= i < |s.queue| ==> s.queue[i].id !in s.held)
    && (forall id <- s.held :: s.held[id].id == id)
  }

  /** No two distinct holders, at least one of them a writer, own conflicting keys. */
  predicate Exclusive(s: State) {
    forall a, b :: a in s.held && b in s.held && a != b ==> !Conflicts(s.held[a], s.held[b])
  }

  predicate Inv(s: State) {
    DistinctIds(s) && Exclusive(s)
  }

  lemma StepKeepsInv(s: State, step: Step)
    requires Inv(s) && Enabled(s, step)
    ensures Inv(Next(s, step))
  {
    if step.Grant? {
      var r := s.queue[step.index];
      forall id | id in s.held ensures !Conflicts(r, s.held[id]) && !Conflicts(s.held[id], r) {
        ConflictsIsSymmetric(r, s.held[id]);
      }
    }
  }

  predicate ValidRun(s: State, steps: seq<Step>)
    decreases |steps|
  {
    steps != [] ==> Enabled(s, steps[0]) && ValidRun(Next(s, steps[0]), steps[1..])
  }

  /** Exclusion holds in every reachable state. */
  lemma {:induction false} ExclusionAlways(s: State, steps: seq<Step>)
    requires Inv(s) && ValidRun(s, steps)
    ensures Inv(Exec(Next, s, steps))
    decreases |steps|
  {
    if steps != [] {
      StepKeepsInv(s, steps[0]);
      ExclusionAlways(Next(s, steps[0]), steps[1..]);
    }
  }

  /** In terms of paths: while a writer holds a subtree, nobody else holds any path of it. */
  lemma ExclusionByPath(s: State, a: nat, b: nat, source: string, path: string, p: string, q: string)
    requires Inv(s) && a in s.held && b in s.held && a != b && (s.held[a].write || s.held[b].write)
    ensures !((exists k <- s.held[a].keys :: Covers(k, source, path)) && (exists k <- s.held[b].keys :: Covers(k, source, path)))
    ensures SEPARATOR !in source && source + "\0" + p in s.held[a].keys && source + "\0" + q in s.held[b].keys ==>
              !IsSameOrDescendant(p, q) && !IsSameOrDescendant(q, p)
  {
    if SEPARATOR !in source && source + "\0" + p in s.held[a].keys && source + "\0" + q in s.held[b].keys {
      KeysConflictExactly(source, p, source, q);
      var i :| 0 <= i < |s.held[a].keys| && s.held[a].keys[i] == source + "\0" + p;
      var j :| 0 <= j < |s.held[b].keys| && s.held[b].keys[j] == source + "\0" + q;
      assert !Conflicts(s.held[a], s.held[b]);
    }
    forall k, l | k in s.held[a].keys && l in s.held[b].keys ensures !(Covers(k, source, path) && Covers(l, source, path)) {
      ConflictMeansSharedPath(k, l);
      var i :| 0 <= i < |s.held[a].keys| && s.held[a].keys[i] == k;
      var j :| 0 <= j < |s.held[b].keys| && s.held[b].keys[j] == l;
      assert !Conflicts(s.held[a], s.held[b]);
    }
  }

  // ------------------------------------------------------------------- progress

  /** Where a waiting request stands after a step that does not grant it. */
  function PositionAfter(step: Step, i: nat): nat {
    if step.Grant? && step.index < i then i - 1 else i
  }

  lemma StillWaits(s: State, step: Step, i: nat)
    requires Inv(s) && Enabled(s, step) && i < |s.queue| && step != Grant(i)
    ensures PositionAfter(step, i) < |Next(s, step).queue|
    ensures Next(s, step).queue[PositionAfter(step, i)] == s.queue[i]
  {
  }

  /** Only a release lets a blocked request through, so waking waiters on release is enough. */
  lemma OnlyReleaseUnblocks(s: State, step: Step, i: nat)
    requires Inv(s) && Enabled(s, step) && i < |s.queue| && step != Grant(i) && !step.Release?
    requires !CanGrant(s, i)
    ensures !CanGrant(Next(s, step), PositionAfter(step, i))
  {
    var t, r, p := Next(s, step), s.queue[i], PositionAfter(step, i);
    StillWaits(s, step, i);
    if id :| id in s.held && Conflicts(r, s.held[id]) {
      assert t.held[id] == s.held[id];
    } else {
      var j :| 0 <= j < i && Conflicts(r, s.queue[j]);
      if step == Grant(j) {
        assert t.held[s.queue[j].id] == s.queue[j];
      } else {
        StillWaits(s, step, j);
        assert t.queue[PositionAfter(step, j)] == s.queue[j];
      }
    }
  }

  predicate AsleepAreBlocked(s: State, asleep: set<nat>) {
    forall i :: 0 <= i < |s.queue| && s.queue[i].id in asleep ==> !CanGrant(s, i)
  }

  lemma SleepersStayBlocked(s: State, step: Step, asleep: set<nat>)
    requires Inv(s) && Enabled(s, step) && !step.Release? && AsleepAreBlocked(s, asleep)
    requires step.Arrive? ==> step.request.id !in asleep
    ensures AsleepAreBlocked(Next(s, step), asleep)
  {
    var t := Next(s, step);
    forall p | 0 <= p < |t.queue| && t.queue[p].id in asleep ensures !CanGrant(t, p) {
      var i := if step.Grant? && step.index <= p then p + 1 else p;
      OnlyReleaseUnblocks(s, step, i);
    }
  }

  /** Requests overtake, but never one they conflict with: with every lease released, two requests
      on disjoint subtrees are both grantable whatever their order. */
  lemma DisjointMayOvertake(s: State, i: nat)
    requires i < |s.queue| && s.held == map[] && forall j :: 0 <= j < i ==> !Conflicts(s.queue[i], s.queue[j])
    ensures CanGrant(s, i) && CanGrant(s, 0)
  {
  }

  /** The holders that stand between the request at position i, or one older, and its grant. */
  function InTheWay(s: State, i: nat): set<nat>
    requires i < |s.queue|
  {
    set id | id in s.held && exists j :: 0 <= j <= i && Conflicts(s.queue[j], s.held[id])
  }

  /** How many relevant steps a waiting request can still be made to wait for. */
  function Burden(s: State, i: nat): nat
    requires i < |s.queue|
  {
    2 * i + |InTheWay(s, i)|
  }

  predicate Relevant(s: State, step: Step, i: nat)
    requires i < |s.queue|
  {
    match step
    case Arrive(_) => false
    case Grant(k) => k < i
    case Release(id) => id in InTheWay(s, i)
  }

  /** No step of anyone adds to a waiting request's burden, and every relevant one lightens it. */
  lemma BurdenFalls(s: State, step: Step, i: nat)
    requires Inv(s) && Enabled(s, step) && i < |s.queue| && step != Grant(i)
    ensures PositionAfter(step, i) < |Next(s, step).queue|
    ensures Burden(Next(s, step), PositionAfter(step, i)) + (if Relevant(s, step, i) then 1 else 0) <= Burden(s, i)
  {
    StillWaits(s, step, i);
    var t, p := Next(s, step), PositionAfter(step, i);
    match step
    case Arrive(_) =>
      assert InTheWay(t, p) <= InTheWay(s, i);
      SubsetIsSmaller(InTheWay(t, p), InTheWay(s, i));
    case Release(id) =>
      assert InTheWay(t, p) <= InTheWay(s, i) - {id};
      SubsetIsSmaller(InTheWay(t, p), InTheWay(s, i) - {id});
    case Grant(k) =>
      GrantAddsLittle(s, k, i);
      SubsetIsSmaller(InTheWay(t, p), InTheWay(s, i) + if k < i then {s.queue[k].id} else {});
  }

  /** An older request granted may come to be in the way; a younger one does not. */
  lemma GrantAddsLittle(s: State, k: nat, i: nat)
    requires Inv(s) && CanGrant(s, k) && i < |s.queue| && k != i
    requires PositionAfter(Grant(k), i) < |Next(s, Grant(k)).queue|
    ensures InTheWay(Next(s, Grant(k)), PositionAfter(Grant(k), i)) <= InTheWay(s, i) + if k < i then {s.queue[k].id} else {}
  {
    var t, p := Next(s, Grant(k)), PositionAfter(Grant(k), i);
    forall h | h in InTheWay(t, p) ensures h in InTheWay(s, i) || (k < i && h == s.queue[k].id) {
      var j :| 0 <= j <= p && Conflicts(t.queue[j], t.held[h]);
      var was := if j < k then j else j + 1;
      assert t.queue[j] == s.queue[was] && was <= i;
      if h == s.queue[k].id && i < k {
        ConflictsIsSymmetric(s.queue[k], s.queue[j]);
      }
    }
  }

  /** While a request cannot be granted, some relevant step can be taken: a holder in the way can
      release, or the oldest request of all can be granted. */
  lemma RelevantStepExists(s: State, i: nat)
    requires Inv(s) && i < |s.queue| && !CanGrant(s, i)
    ensures exists step :: Enabled(s, step) && Relevant(s, step, i)
  {
    if InTheWay(s, i) != {} {
      var id :| id in InTheWay(s, i);
      assert Enabled(s, Release(id)) && Relevant(s, Release(id), i);
    } else {
      assert forall id <- s.held :: id !in InTheWay(s, i);
      assert CanGrant(s, 0);
      assert Enabled(s, Grant(0)) && Relevant(s, Grant(0), i);
    }
  }

  predicate NeverGranted(steps: seq<Step>, i: nat)
    decreases |steps|
  {
    steps != [] ==> steps[0] != Grant(i) && NeverGranted(steps[1..], PositionAfter(steps[0], i))
  }

  /** Conflicting requests are granted in the order they came: as long as the older one waits, so
      does the younger. */
  lemma {:induction false} ConflictsKeepOrder(s: State, steps: seq<Step>, i: nat, j: nat)
    requires Inv(s) && ValidRun(s, steps) && i < j < |s.queue| && Conflicts(s.queue[j], s.queue[i])
    requires NeverGranted(steps, i)
    ensures NeverGranted(steps, j)
    decreases |steps|
  {
    if steps != [] {
      StepKeepsInv(s, steps[0]);
      StillWaits(s, steps[0], i);
      StillWaits(s, steps[0], j);
      ConflictsKeepOrder(Next(s, steps[0]), steps[1..], PositionAfter(steps[0], i), PositionAfter(steps[0], j));
    }
  }

  /** The relevant steps of a run, seen from one waiting request. */
  function RelevantSteps(s: State, steps: seq<Step>, i: nat): nat
    requires i < |s.queue|
    decreases |steps|
  {
    if steps == [] || steps[0] == Grant(i) || PositionAfter(steps[0], i) >= |Next(s, steps[0]).queue| then 0
    else (if Relevant(s, steps[0], i) then 1 else 0) + RelevantSteps(Next(s, steps[0]), steps[1..], PositionAfter(steps[0], i))
  }

  function PositionAtEnd(steps: seq<Step>, i: nat): nat
    decreases |steps|
  {
    if steps == [] then i else PositionAtEnd(steps[1..], PositionAfter(steps[0], i))
  }

  /** No starvation.  However requests keep arriving and overtaking, a request that is still waiting
      has seen at most its burden of relevant steps, and if it still cannot go another relevant step
      is possible.  So once holders that are in the way release and grantable requests are
      granted, it is granted after finitely many of them. */
  lemma {:induction false} NoStarvation(s: State, steps: seq<Step>, i: nat)
    requires Inv(s) && ValidRun(s, steps) && i < |s.queue| && NeverGranted(steps, i)
    ensures var e, p := Exec(Next, s, steps), PositionAtEnd(steps, i);
            && p < |e.queue| && e.queue[p] == s.queue[i]
            && RelevantSteps(s, steps, i) + Burden(e, p) <= Burden(s, i)
            && (CanGrant(e, p) || exists step :: Enabled(e, step) && Relevant(e, step, p))
    decreases |steps|
  {
    if steps == [] {
      if !CanGrant(s, i) {
        RelevantStepExists(s, i);
      }
    } else {
      StepKeepsInv(s, steps[0]);
      StillWaits(s, steps[0], i);
      BurdenFalls(s, steps[0], i);
      NoStarvation(Next(s, steps[0]), steps[1..], PositionAfter(steps[0], i));
    }
  }

  function Work(s: State): nat {
    2 * |s.queue| + |s.held|
  }

  lemma MapGrows(m: map<nat, Request>, id: nat, r: Request)
    requires id !in m
    ensures |m[id := r]| == |m| + 1
  {
    assert m[id := r].Keys == m.Keys + {id};
    assert |m[id := r]| == |m[id := r].Keys| && |m| == |m.Keys|;
  }

  lemma WorkFalls(s: State, step: Step)
    requires Inv(s) && Enabled(s, step) && !step.Arrive?
    ensures Work(Next(s, step)) + 1 == Work(s)
  {
    if step.Release? {
      MapGrows(s.held - {step.id}, step.id, s.held[step.id]);
      assert (s.held - {step.id})[step.id := s.held[step.id]] == s.held;
    } else {
      MapGrows(s.held, s.queue[step.index].id, s.queue[step.index]);
    }
  }

  predicate IsOver(s: State) {
    s.held == map[] && forall i :: 0 <= i < |s.queue| ==> !CanGrant(s, i)
  }

  /** Left to drain, the manager empties: without arrivals every step lowers the work by one, and it
      can stop only when nobody waits and nobody holds. */
  lemma {:induction false} Drains(s: State, steps: seq<Step>)
    requires Inv(s) && ValidRun(s, steps) && forall step <- steps :: !step.Arrive?
    ensures var e := Exec(Next, s, steps);
            Work(e) + |steps| == Work(s) && (IsOver(e) ==> e.queue == [])
    decreases |steps|
  {
    if steps == [] {
      if IsOver(s) && s.queue != [] {
        assert CanGrant(s, 0);
      }
    } else {
      assert steps[0] in steps;
      StepKeepsInv(s, steps[0]);
      WorkFalls(s, steps[0]);
      Drains(Next(s, steps[0]), steps[1..]);
    }
  }

  // -------------------------------------------------------- per-key counters

  datatype Entry = Entry(readers: nat, writers: nat)

  type Entries = map<string, Entry>

  function Holding(held: map<nat, Request>, key: string, write: bool): set<nat> {
    set id | id in held && held[id].write == write && key in held[id].keys
  }

  /** The counters are exact: a key has an entry when someone holds it, with one reader or writer
      counted for each lease that does. */
  ghost predicate Exact(entries: Entries, held: map<nat, Request>) {
    forall key ::
      && (key in entries <==> Holding(held, key, false) != {} || Holding(held, key, true) != {})
      && (key in entries ==>
            && entries[key].readers == |Holding(held, key, false)|
            && entries[key].writers == |Holding(held, key, true)|)
  }

  function Counters(entries: Entries, key: string): Entry {
    if key in entries then entries[key] else Entry(0, 0)
  }

  /** One counted key leaves a request free to go. */
  predicate Allows(entries: Entries, key: string, r: Request)
    requires key in entries
  {
    r.write || entries[key].writers > 0 ==> forall i :: 0 <= i < |r.keys| ==> !KeysConflict(r.keys[i], key)
  }

  /** Looking at the counters is looking at the holders. */
  lemma CountersTellHolders(entries: Entries, held: map<nat, Request>, r: Request)
    requires Exact(entries, held)
    ensures (forall key <- entries :: Allows(entries, key, r)) <==> NoHolderConflicts(held, r)
  {
    if NoHolderConflicts(held, r) {
      forall key | key in entries ensures Allows(entries, key, r) {
      }
    } else {
      var id :| id in held && Conflicts(r, held[id]);
      var i, j :| 0 <= i < |r.keys| && 0 <= j < |held[id].keys| && KeysConflict(r.keys[i], held[id].keys[j]);
      var key := held[id].keys[j];
      assert id in Holding(held, key, held[id].write);
      assert key in entries && !Allows(entries, key, r);
    }
  }

  lemma HoldingMore(held: map<nat, Request>, r: Request, key: string, write: bool)
    requires r.id !in held
    ensures Holding(held[r.id := r], key, write)
         == Holding(held, key, write) + if r.write == write && key in r.keys then {r.id} else {}
  {
  }

  lemma HoldingLess(held: map<nat, Request>, id: nat, key: string, write: bool)
    requires id in held
    ensures Holding(held - {id}, key, write) == Holding(held, key, write) - {id}
    ensures id in Holding(held, key, write) <==> held[id].write == write && key in held[id].keys
  {
  }

  /** The counters after taking or dropping one lease's hold on some of its keys. */
  ghost predicate Adjusted(before: Entries, after: Entries, keys: seq<string>, write: bool, up: bool) {
    forall key ::
      var b, a := Counters(before, key), Counters(after, key);
      && (key in after ==> a != Entry(0, 0))
      && (if key !in keys then a == b
          else if up then a == (if write then b.(writers := b.writers + 1) else b.(readers := b.readers + 1))
          else b == (if write then a.(writers := a.writers + 1) else a.(readers := a.readers + 1)))
  }

  lemma CountersAreExact(entries: Entries, held: map<nat, Request>, key: string)
    requires Exact(entries, held)
    ensures Counters(entries, key) == Entry(|Holding(held, key, false)|, |Holding(held, key, true)|)
  {
  }

  lemma TakeCounts(before: Entries, after: Entries, held: map<nat, Request>, r: Request, key: string)
    requires Counters(before, key) == Entry(|Holding(held, key, false)|, |Holding(held, key, true)|)
    requires r.id !in held && Adjusted(before, after, r.keys, r.write, true)
    ensures Counters(after, key)
         == Entry(|Holding(held[r.id := r], key, false)|, |Holding(held[r.id := r], key, true)|)
  {
    HoldingMore(held, r, key, false);
    HoldingMore(held, r, key, true);
    var b, a := Counters(before, key), Counters(after, key);
    if key !in r.keys {
      assert a == b;
    } else if r.write {
      assert a == Entry(b.readers, b.writers + 1);
      assert r.id !in Holding(held, key, true);
    } else {
      assert a == Entry(b.readers + 1, b.writers);
      assert r.id !in Holding(held, key, false);
    }
  }

  lemma TakeIsExact(before: Entries, after: Entries, held: map<nat, Request>, r: Request)
    requires Exact(before, held) && r.id !in held && Adjusted(before, after, r.keys, r.write, true)
    ensures Exact(after, held[r.id := r])
  {
    forall key
      ensures Counters(after, key)
           == Entry(|Holding(held[r.id := r], key, false)|, |Holding(held[r.id := r], key, true)|)
    {
      CountersAreExact(before, held, key);
      TakeCounts(before, after, held, r, key);
    }
    ExactFromCounters(after, held[r.id := r]);
  }

  lemma DropIsExact(before: Entries, after: Entries, held: map<nat, Request>, id: nat)
    requires Exact(before, held) && id in held && Adjusted(before, after, held[id].keys, held[id].write, false)
    ensures Exact(after, held - {id})
  {
    forall key
      ensures Counters(after, key)
           == Entry(|Holding(held - {id}, key, false)|, |Holding(held - {id}, key, true)|)
    {
      HoldingLess(held, id, key, false);
      HoldingLess(held, id, key, true);
    }
    ExactFromCounters(after, held - {id});
  }

  lemma ExactFromCounters(entries: Entries, held: map<nat, Request>)
    requires forall key :: Counters(entries, key) == Entry(|Holding(held, key, false)|, |Holding(held, key, true)|)
    requires forall key <- entries :: entries[key] != Entry(0, 0)
    ensures Exact(entries, held)
  {
    forall key
      ensures key in entries <==> Holding(held, key, false) != {} || Holding(held, key, true) != {}
      ensures key in entries ==> entries[key] == Entry(|Holding(held, key, false)|, |Holding(held, key, true)|)
    {
      assert Counters(entries, key) == Entry(|Holding(held, key, false)|, |Holding(held, key, true)|);
    }
  }

  // ---------------------------------------------------------- the code, as run

  /** The lock manager.  `leases` are the release functions handed out and not yet called, with what
      each captured; `asleep` are the waiters that found they could not go and wait to be woken. */
  class Manager {
    var entries: Entries
    var waiters: seq<Request>
    var leases: map<nat, Request>
    var asleep: set<nat>
    var nextId: nat

    ghost function Abstract(): State
      reads this
    {
      State(waiters, leases)
    }

    ghost predicate Valid()
      reads this
    {
      && Inv(Abstract()) && Exact(entries, leases)
      && (forall id <- leases :: StrictlySorted(Less, leases[id].keys) && id < nextId)
      && (forall i :: 0 <= i < |waiters| ==> StrictlySorted(Less, waiters[i].keys) && waiters[i].id < nextId)
      // No wake-up is lost: a sleeping waiter could not go anyway.
      && AsleepAreBlocked(Abstract(), asleep)
    }

    constructor ()
      ensures Valid() && Abstract() == State([], map[])
    {
      entries, waiters, leases, asleep, nextId := map[], [], map[], {}, 0;
    }

    /** The first half of acquire: join the queue. */
    method Join(keys: seq<string>, write: bool) returns (id: nat)
      requires Valid()
      modifies this
      ensures Valid() && |waiters| == |old(waiters)| + 1 && waiters[|waiters| - 1].id == id
      ensures waiters[|waiters| - 1].write == write && forall key :: key in waiters[|waiters| - 1].keys <==> key in keys
      ensures Enabled(old(Abstract()), Arrive(waiters[|waiters| - 1]))
      ensures Abstract() == Next(old(Abstract()), Arrive(waiters[|waiters| - 1]))
      ensures id !in asleep
    {
      var normalized := NormalizeKeys(keys);
      id := nextId;
      nextId := nextId + 1;
      ghost var before := Abstract();
      var r := Request(id, normalized, write);
      SleepersStayBlocked(before, Arrive(r), asleep - {id});
      waiters := waiters + [r];
      asleep := asleep - {id};
      assert Abstract() == Next(before, Arrive(r));
    }

    /** waiterConflicts. */
    static method WaiterConflicts(left: Request, right: Request) returns (r: bool)
      ensures r <==> Conflicts(left, right)
    {
      if !left.write && !right.write {
        return false;
      }
      for i := 0 to |left.keys|
        invariant forall k, j :: 0 <= k < i && 0 <= j < |right.keys| ==> !KeysConflict(left.keys[k], right.keys[j])
      {
        for j := 0 to |right.keys|
          invariant forall n :: 0 <= n < j ==> !KeysConflict(left.keys[i], right.keys[n])
        {
          if KeysConflict(left.keys[i], right.keys[j]) {
            return true;
          }
        }
      }
      return false;
    }

    static method EntryAllows(entries: Entries, key: string, candidate: Request) returns (r: bool)
      requires key in entries
      ensures r <==> Allows(entries, key, candidate)
    {
      if entries[key].writers == 0 && !candidate.write {
        return true;
      }
      for i := 0 to |candidate.keys|
        invariant forall k :: 0 <= k < i ==> !KeysConflict(candidate.keys[k], key)
      {
        if KeysConflict(candidate.keys[i], key) {
          return false;
        }
      }
      return true;
    }

    /** The loop over the counters in canAcquire. */
    static method NoEntryConflicts(entries: Entries, ghost leases: map<nat, Request>, candidate: Request) returns (r: bool)
      requires Exact(entries, leases)
      ensures r <==> NoHolderConflicts(leases, candidate)
    {
      CountersTellHolders(entries, leases, candidate);
      var pending := entries.Keys;
      while pending != {}
        invariant pending <= entries.Keys
        invariant forall key <- entries.Keys - pending :: Allows(entries, key, candidate)
        decreases pending
      {
        var key :| key in pending;
        var allowed := EntryAllows(entries, key, candidate);
        if !allowed {
          return false;
        }
        pending := pending - {key};
      }
      return true;
    }

    /** canAcquire: no conflicting holder, and nobody older in the queue who conflicts. */
    method CanAcquire(index: nat) returns (r: bool)
      requires Valid() && index < |waiters|
      ensures r <==> CanGrant(Abstract(), index)
    {
      var candidate := waiters[index];
      var free := NoEntryConflicts(entries, leases, candidate);
      if !free {
        return false;
      }
      for j := 0 to index
        invariant forall k :: 0 <= k < j ==> !Conflicts(candidate, waiters[k])
      {
        var blocked := WaiterConflicts(candidate, waiters[j]);
        if blocked {
          return false;
        }
      }
      return true;
    }

    static method Take(entries: Entries, keys: seq<string>, write: bool) returns (r: Entries)
      requires StrictlySorted(Less, keys) && forall key <- entries :: entries[key] != Entry(0, 0)
      ensures Adjusted(entries, r, keys, write, true)
    {
      LessIsStrictOrder();
      StrictlySortedIsDistinct(Less, keys);
      r := entries;
      for i := 0 to |keys|
        invariant Adjusted(entries, r, keys[..i], write, true)
      {
        var key := keys[i];
        var active := if key in r then r[key] else Entry(0, 0);
        assert keys[..i + 1] == keys[..i] + [key];
        assert key !in keys[..i];
        assert Counters(r, key) == Counters(entries, key);
        r := r[key := if write then active.(writers := active.writers + 1) else active.(readers := active.readers + 1)];
      }
      assert keys[..|keys|] == keys;
    }

    /** The second half of acquire, run whenever the waiter is awake: take the lease or sleep. */
    method TryAcquire(index: nat) returns (granted: bool)
      requires Valid() && index < |waiters|
      modifies this
      ensures Valid() && (granted <==> CanGrant(old(Abstract()), index))
      ensures Abstract() == if granted then Next(old(Abstract()), Grant(index)) else old(Abstract())
      ensures !granted ==> old(waiters)[index].id in asleep
    {
      granted := CanAcquire(index);
      var candidate := waiters[index];
      if !granted {
        asleep := asleep + {candidate.id};
        return;
      }
      ghost var before := Abstract();
      StepKeepsInv(before, Grant(index));
      var taken := Take(entries, candidate.keys, candidate.write);
      TakeIsExact(entries, taken, leases, candidate);
      SleepersStayBlocked(before, Grant(index), asleep);
      waiters := waiters[..index] + waiters[index + 1..];
      leases := leases[candidate.id := candidate];
      entries := taken;
      assert Abstract() == Next(before, Grant(index));
    }

    static method Drop(entries: Entries, keys: seq<string>, write: bool) returns (r: Entries)
      requires StrictlySorted(Less, keys) && forall key <- entries :: entries[key] != Entry(0, 0)
      requires forall key <- keys :: key in entries && (if write then entries[key].writers > 0 else entries[key].readers > 0)
      ensures Adjusted(entries, r, keys, write, false)
    {
      LessIsStrictOrder();
      StrictlySortedIsDistinct(Less, keys);
      r := entries;
      for i := 0 to |keys|
        invariant Adjusted(entries, r, keys[..i], write, false)
      {
        var key := keys[i];
        assert keys[..i + 1] == keys[..i] + [key];
        assert key !in keys[..i] && key in keys;
        assert Counters(r, key) == Counters(entries, key);
        var active := if write then r[key].(writers := r[key].writers - 1) else r[key].(readers := r[key].readers - 1);
        if active.readers == 0 && active.writers == 0 {
          r := r - {key};
        } else {
          r := r[key := active];
        }
      }
      assert keys[..|keys|] == keys;
    }

    /** The release function; a second call does nothing.  Everyone is woken. */
    method ReleaseLease(id: nat)
      requires Valid()
      modifies this
      ensures Valid()
      ensures Abstract() == Next(old(Abstract()), Release(id))
      ensures id in old(leases) ==> asleep == {}
    {
      if id !in leases {
        assert leases - {id} == leases;
        return;
      }
      var lease := leases[id];
      forall key | key in lease.keys
        ensures key in entries && (if lease.write then entries[key].writers > 0 else entries[key].readers > 0)
      {
        assert id in Holding(leases, key, lease.write);
      }
      StepKeepsInv(Abstract(), Release(id));
      var dropped := Drop(entries, lease.keys, lease.write);
      DropIsExact(entries, dropped, leases, id);
      entries := dropped;
      leases := leases - {id};
      asleep := {};
    }
  }
}
