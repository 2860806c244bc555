/** WebDAV locks (internal/locks/persistent.go). */
module PersistentLocks {
  import opened Paths
  import opened Wrappers

  // Persistent exclusive write locks (internal/locks/persistent.go), as WebDAV has them: RFC 4918,
  // sections 6 and 7.
  //
  // Every operation reads the clock itself, so its readings are parameters; the clock does not step
  // back.

  datatype Depth = Zero | Infinity

  datatype Lock = Lock(source: int, path: string, depth: Depth, owner: int, expires: int)

  /** The lock rows, by token. */
  type Table = map<string, Lock>

  /** The paths an operation touches in one source. */
  datatype Scope = Scope(path: string, includeDescendants: bool)

  datatype Mutation = Mutation(source: int, scopes: seq<Scope>)

  datatype Outcome = Success(lock: Lock) | Locked | NotFound | Forbidden

  predicate LockCovers(path: string, depth: Depth, target: string) {
    path == target || (depth.Infinity? && IsSameOrDescendant(path, target))
  }

  predicate LockScopesIntersect(pathA: string, depthA: Depth, pathB: string, depthB: Depth) {
    LockCovers(pathA, depthA, pathB) || LockCovers(pathB, depthB, pathA)
  }

  predicate Affects(scope: Scope, path: string) {
    path == scope.path || (scope.includeDescendants && IsSameOrDescendant(scope.path, path))
  }

  predicate MutationIntersectsLock(scope: Scope, lock: Lock) {
    LockCovers(lock.path, lock.depth, scope.path)
    || (scope.includeDescendants && IsSameOrDescendant(scope.path, lock.path))
  }

  /** Which paths a lock covers: its root, and with infinite depth everything below it. */
  lemma LockCoversExactly(path: string, depth: Depth, target: string)
    ensures LockCovers(path, Zero, target) <==> target == path
    ensures LockCovers(path, Infinity, target) <==>
              path == "" || target == path || exists rest :: target == path + "/" + rest
  {
    UnderExactly(path, target);
  }

  /** Which paths an operation affects, likewise. */
  lemma AffectsExactly(path: string, target: string)
    ensures Affects(Scope(path, false), target) <==> target == path
    ensures Affects(Scope(path, true), target) <==> path == "" || target == path || exists rest :: target == path + "/" + rest
  {
    UnderExactly(path, target);
  }

  lemma SharedMeansNested(a: string, b: string, path: string)
    requires IsSameOrDescendant(a, path) && IsSameOrDescendant(b, path)
    ensures IsSameOrDescendant(a, b) || IsSameOrDescendant(b, a)
  {
    if a != "" && b != "" {
      SharedPathMeansNested(a, b, path);
    }
  }

  /** Two locks intersect exactly when some path is covered by both. */
  lemma IntersectMeansShared(pathA: string, depthA: Depth, pathB: string, depthB: Depth)
    ensures LockScopesIntersect(pathA, depthA, pathB, depthB) <==>
            exists path :: LockCovers(pathA, depthA, path) && LockCovers(pathB, depthB, path)
  {
    if LockCovers(pathA, depthA, pathB) {
      assert LockCovers(pathB, depthB, pathB);
    }
    if LockCovers(pathB, depthB, pathA) {
      assert LockCovers(pathA, depthA, pathA);
    }
    if path :| LockCovers(pathA, depthA, path) && LockCovers(pathB, depthB, path) {
      if path != pathA && path != pathB {
        SharedMeansNested(pathA, pathB, path);
      }
    }
  }

  /** A mutation meets a lock exactly when it affects a path the lock covers. */
  lemma MutationMeetsCoveredPath(scope: Scope, lock: Lock)
    ensures MutationIntersectsLock(scope, lock) <==>
            exists path :: Affects(scope, path) && LockCovers(lock.path, lock.depth, path)
  {
    if LockCovers(lock.path, lock.depth, scope.path) {
      assert Affects(scope, scope.path);
    }
    if scope.includeDescendants && IsSameOrDescendant(scope.path, lock.path) {
      assert Affects(scope, lock.path) && LockCovers(lock.path, lock.depth, lock.path);
    }
    if path :| Affects(scope, path) && LockCovers(lock.path, lock.depth, path) {
      if path != scope.path && path != lock.path {
        SharedMeansNested(scope.path, lock.path, path);
      }
    }
  }

  // -------------------------------------------------------------- state machine

  datatype State = State(table: Table, clock: int)

  datatype Step =
    | CleanUp(now: int)
    | Added(token: string, lock: Lock, now: int)
    | Extended(token: string, expires: int, now: int)
    | Remove(token: string)
    | RemoveRootedAt(source: int, root: string)

  function Unexpired(table: Table, now: int): Table {
    map token | token in table && table[token].expires > now :: table[token]
  }

  /** The locks that go with a removed subtree: those rooted in it. */
  function NotRootedAt(table: Table, source: int, root: string): Table {
    map token | token in table && !(table[token].source == source && IsSameOrDescendant(root, table[token].path)) ::
      table[token]
  }

  predicate Overlap(a: Lock, b: Lock) {
    a.source == b.source && LockScopesIntersect(a.path, a.depth, b.path, b.depth)
  }

  /** No active lock shares a path with the new one. */
  predicate IsFree(table: Table, lock: Lock, now: int) {
    forall token <- table :: table[token].expires > now ==> !Overlap(lock, table[token])
  }

  predicate Enabled(s: State, step: Step) {
    match step
    case CleanUp(now) => s.clock <= now
    case Added(token, lock, now) => s.clock <= now && token !in s.table && IsFree(s.table, lock, now)
    case Extended(token, _, now) => s.clock <= now && token in s.table && s.table[token].expires > s.clock
    case _ => true
  }

  function Next(s: State, step: Step): State {
    match step
    case CleanUp(now) => State(Unexpired(s.table, now), now)
    case Added(token, lock, now) => State(s.table[token := lock], now)
    case Extended(token, expires, now) =>
      if token in s.table then State(s.table[token := s.table[token].(expires := expires)], now) else s
    case Remove(token) => s.(table := s.table - {token})
    case RemoveRootedAt(source, root) => s.(table := NotRootedAt(s.table, source, root))
  }

  /** Unexpired locks never overlap. */
  predicate Exclusive(s: State) {
    forall a, b :: a in s.table && b in s.table && a != b && s.table[a].expires > s.clock && s.table[b].expires > s.clock ==>
      !Overlap(s.table[a], s.table[b])
  }

  lemma StepKeepsExclusive(s: State, step: Step)
    requires Exclusive(s) && Enabled(s, step)
    ensures Exclusive(Next(s, step))
  {
    var t := Next(s, step);
    forall a, b | a in t.table && b in t.table && a != b && t.table[a].expires > t.clock && t.table[b].expires > t.clock
      ensures !Overlap(t.table[a], t.table[b])
    {
      if step.Added? && (a == step.token || b == step.token) {
        var other := if a == step.token then b else a;
        assert !Overlap(step.lock, s.table[other]);
      } else {
        assert s.table[a].expires > s.clock && s.table[b].expires > s.clock;
      }
    }
  }

  predicate ValidRun(s: State, steps: seq<Step>)
    decreases |steps|
  {
    steps != [] ==> Enabled(s, steps[0]) && ValidRun(Next(s, steps[0]), steps[1..])
  }

  function Run(s: State, steps: seq<Step>): State
    decreases |steps|
  {
    if steps == [] then s else Run(Next(s, steps[0]), steps[1..])
  }

  /** An operation of the store is a run of the state machine. */
  predicate IsRun(s: State, steps: seq<Step>, t: State) {
    ValidRun(s, steps) && Run(s, steps) == t
  }

  lemma IsRunOfOne(s: State, step: Step)
    requires Enabled(s, step)
    ensures IsRun(s, [step], Next(s, step))
  {
    assert [step][1..] == [];
  }

  lemma IsRunOfTwo(s: State, first: Step, second: Step)
    requires Enabled(s, first) && Enabled(Next(s, first), second)
    ensures IsRun(s, [first, second], Next(Next(s, first), second))
  {
    IsRunOfOne(Next(s, first), second);
    assert [first, second][1..] == [second];
  }

  lemma {:induction false} RunKeepsExclusive(s: State, steps: seq<Step>)
    requires Exclusive(s) && ValidRun(s, steps)
    ensures Exclusive(Run(s, steps))
    decreases |steps|
  {
    if steps != [] {
      StepKeepsExclusive(s, steps[0]);
      RunKeepsExclusive(Next(s, steps[0]), steps[1..]);
    }
  }

  /** In every reachable state, at any time not before its last clock reading, at most one unexpired
      lock covers a path of a source. */
  lemma AtMostOneLock(start: int, steps: seq<Step>, now: int, a: string, b: string, path: string)
    requires ValidRun(State(map[], start), steps) && Run(State(map[], start), steps).clock <= now
    ensures var t := Run(State(map[], start), steps).table;
            (a in t && b in t && t[a].expires > now && t[b].expires > now && t[a].source == t[b].source
             && LockCovers(t[a].path, t[a].depth, path) && LockCovers(t[b].path, t[b].depth, path))
            ==> a == b
  {
    var s := Run(State(map[], start), steps);
    RunKeepsExclusive(State(map[], start), steps);
    var t := s.table;
    if a in t && b in t && a != b {
      IntersectMeansShared(t[a].path, t[a].depth, t[b].path, t[b].depth);
      assert t[a].expires > now && t[b].expires > now ==> t[a].expires > s.clock && t[b].expires > s.clock;
    }
  }

  // ---------------------------------------------------------- the code, as run

  /** The lock on a path a mutation affects is not the caller's. */
  predicate Stops(table: Table, token: string, mutation: Mutation, scope: Scope, tokens: set<string>, owner: Option<int>, now: int)
    requires token in table
  {
    && table[token].source == mutation.source && table[token].expires > now
    && MutationIntersectsLock(scope, table[token]) && !(token in tokens && owner == Some(table[token].owner))
  }

  predicate CoversAffected(lock: Lock, mutation: Mutation, path: string) {
    && lock.source == mutation.source && LockCovers(lock.path, lock.depth, path)
    && exists scope <- mutation.scopes :: Affects(scope, path)
  }

  /** Every active lock that covers a path the mutation affects is the caller's. */
  ghost predicate Passes(table: Table, mutation: Mutation, tokens: set<string>, owner: Option<int>, now: int) {
    forall token, path ::
      token in table && table[token].expires > now && CoversAffected(table[token], mutation, path)
      ==> token in tokens && owner == Some(table[token].owner)
  }

  /** Looking at the scopes one by one is looking at the affected paths. */
  lemma CheckedIsPassed(table: Table, mutation: Mutation, tokens: set<string>, owner: Option<int>, now: int)
    ensures Passes(table, mutation, tokens, owner, now) <==>
            forall token, scope :: token in table && scope in mutation.scopes ==>
              !Stops(table, token, mutation, scope, tokens, owner, now)
  {
    forall token, scope | token in table && scope in mutation.scopes && Stops(table, token, mutation, scope, tokens, owner, now)
      ensures !Passes(table, mutation, tokens, owner, now)
    {
      MutationMeetsCoveredPath(scope, table[token]);
      var path :| Affects(scope, path) && LockCovers(table[token].path, table[token].depth, path);
      assert CoversAffected(table[token], mutation, path);
    }
    forall token, path | token in table && table[token].expires > now && CoversAffected(table[token], mutation, path)
      && !(token in tokens && owner == Some(table[token].owner))
      ensures exists scope :: scope in mutation.scopes && Stops(table, token, mutation, scope, tokens, owner, now)
    {
      var scope :| scope in mutation.scopes && Affects(scope, path);
      MutationMeetsCoveredPath(scope, table[token]);
      assert Stops(table, token, mutation, scope, tokens, owner, now);
    }
  }

  /** What the end of a guard does. */
  function Removals(removed: seq<(int, string)>): seq<Step> {
    seq(|removed|, i requires 0 <= i < |removed| => RemoveRootedAt(removed[i].0, removed[i].1))
  }

  lemma {:induction false} RunAppends(s: State, steps: seq<Step>, last: Step)
    requires ValidRun(s, steps) && Enabled(Run(s, steps), last)
    ensures IsRun(s, steps + [last], Next(Run(s, steps), last))
    decreases |steps|
  {
    if steps == [] {
      IsRunOfOne(s, last);
      assert steps + [last] == [last];
    } else {
      RunAppends(Next(s, steps[0]), steps[1..], last);
      assert (steps + [last])[1..] == steps[1..] + [last];
    }
  }

  lemma RemovesOneMore(s: State, removed: seq<(int, string)>, i: nat, t: State)
    requires i < |removed| && IsRun(s, Removals(removed[..i]), t)
    ensures IsRun(s, Removals(removed[..i + 1]), Next(t, RemoveRootedAt(removed[i].0, removed[i].1)))
  {
    RunAppends(s, Removals(removed[..i]), RemoveRootedAt(removed[i].0, removed[i].1));
    assert Removals(removed[..i + 1]) == Removals(removed[..i]) + [RemoveRootedAt(removed[i].0, removed[i].1)];
  }

  /** The locks rooted in removed subtrees go, and no others. */
  lemma {:induction false} RemovalsExactly(s: State, removed: seq<(int, string)>)
    ensures var t := Run(s, Removals(removed));
            && t.clock == s.clock
            && (forall token :: token in t.table <==> token in s.table && forall r <- removed ::
                  !(s.table[token].source == r.0 && IsSameOrDescendant(r.1, s.table[token].path)))
            && (forall token <- t.table :: t.table[token] == s.table[token])
    decreases |removed|
  {
    if removed != [] {
      var next := Next(s, RemoveRootedAt(removed[0].0, removed[0].1));
      assert Removals(removed)[1..] == Removals(removed[1..]);
      RemovalsExactly(next, removed[1..]);
      assert forall r :: r in removed <==> r == removed[0] || r in removed[1..];
    }
  }

  /** The store; `guarded` is true between a successful guard and the call of its end function,
      while every other operation waits. */
  class Store {
    var table: Table
    var guarded: bool
    ghost var clock: int

    ghost predicate Valid()
      reads this
    {
      Exclusive(State(table, clock))
    }

    constructor ()
      ensures Valid() && table == map[] && !guarded
    {
      table, guarded, clock := map[], false, 0;
    }

    method CleanupExpired(now: int)
      requires Valid() && clock <= now
      modifies this`table, this`clock
      ensures Valid() && clock == now && table == Unexpired(old(table), now)
      ensures forall token :: token in table <==> token in old(table) && old(table)[token].expires > now
      ensures forall token <- table :: table[token] == old(table)[token]
      ensures IsRun(old(State(table, clock)), [CleanUp(now)], State(table, clock))
    {
      StepKeepsExclusive(State(table, clock), CleanUp(now));
      IsRunOfOne(State(table, clock), CleanUp(now));
      table := map token | token in table && table[token].expires > now :: table[token];
      clock := now;
    }

    /** The active locks of a source, each once. */
    method ListSource(source: int, now: int) returns (tokens: seq<string>)
      ensures forall token :: token in tokens <==> token in table && table[token].source == source && table[token].expires > now
      ensures forall i, j :: 0 <= i < j < |tokens| ==> tokens[i] != tokens[j]
    {
      tokens := [];
      var pending := table.Keys;
      while pending != {}
        invariant pending <= table.Keys
        invariant forall token :: token in tokens <==>
                    token in table.Keys - pending && table[token].source == source && table[token].expires > now
        invariant forall i, j :: 0 <= i < j < |tokens| ==> tokens[i] != tokens[j]
        decreases pending
      {
        var token :| token in pending;
        if table[token].source == source && table[token].expires > now {
          tokens := tokens + [token];
        }
        pending := pending - {token};
      }
    }

    /** The loop over one source's locks in a guard. */
    method CheckMutation(mutation: Mutation, tokens: set<string>, owner: Option<int>, now: int) returns (ok: bool)
      ensures ok <==> forall token, scope :: token in table && scope in mutation.scopes ==>
                        !Stops(table, token, mutation, scope, tokens, owner, now)
    {
      var active := ListSource(mutation.source, now);
      for i := 0 to |active|
        invariant forall k, scope :: 0 <= k < i && scope in mutation.scopes ==>
                    !Stops(table, active[k], mutation, scope, tokens, owner, now)
      {
        var token := active[i];
        assert token in active;
        var lock := table[token];
        for j := 0 to |mutation.scopes|
          invariant forall k :: 0 <= k < j ==> !Stops(table, token, mutation, mutation.scopes[k], tokens, owner, now)
        {
          if MutationIntersectsLock(mutation.scopes[j], lock) {
            var tokenSubmitted, ownerMatches := token in tokens, owner.Some? && lock.owner == owner.value;
            if !tokenSubmitted || !ownerMatches {
              assert Stops(table, token, mutation, mutation.scopes[j], tokens, owner, now);
              return false;
            }
            break;
          }
        }
      }
      ok := true;
      forall token, scope | token in table && scope in mutation.scopes
        ensures !Stops(table, token, mutation, scope, tokens, owner, now)
      {
        if token in active {
          var k :| 0 <= k < |active| && active[k] == token;
          assert !Stops(table, active[k], mutation, scope, tokens, owner, now);
        }
      }
    }

    /** A guarded write passes exactly when every active lock that covers a path it affects had its
        token submitted by its owner; it then keeps every other operation out. */
    method GuardMutations(mutations: seq<Mutation>, submitted: seq<string>, owner: Option<int>, now: int, later: seq<int>)
        returns (ok: bool)
      requires Valid() && !guarded && clock <= now && |later| == |mutations| && forall k :: 0 <= k < |later| ==> now <= later[k]
      modifies this
      ensures Valid() && clock == now && table == Unexpired(old(table), now) && guarded == ok
      ensures IsRun(old(State(table, clock)), [CleanUp(now)], State(table, clock))
      ensures ok <==> forall k :: 0 <= k < |mutations| ==>
                Passes(table, mutations[k], (set token | token in submitted), owner, later[k])
    {
      CleanupExpired(now);
      var tokens := set token | token in submitted;
      ghost var t := table;
      for i := 0 to |mutations|
        invariant table == t && clock == now && !guarded
        invariant forall k :: 0 <= k < i ==> Passes(t, mutations[k], tokens, owner, later[k])
      {
        CheckedIsPassed(table, mutations[i], tokens, owner, later[i]);
        ok := CheckMutation(mutations[i], tokens, owner, later[i]);
        if !ok {
          return;
        }
      }
      guarded := true;
      return true;
    }

    method DeleteLocksRootedAt(source: int, root: string)
      requires Valid()
      modifies this`table
      ensures Valid() && table == NotRootedAt(old(table), source, root)
      ensures State(table, clock) == Next(old(State(table, clock)), RemoveRootedAt(source, root))
    {
      StepKeepsExclusive(State(table, clock), RemoveRootedAt(source, root));
      if root == "" {
        table := map token | token in table && table[token].source != source :: table[token];
      } else {
        table := map token | token in table
                   && !(table[token].source == source && (table[token].path == root || root + "/" <= table[token].path)) :: table[token];
      }
    }

    /** The guard's end function: the locks rooted in removed subtrees go, and no others; a second
        call does nothing. */
    method EndGuard(removed: seq<(int, string)>)
      requires Valid()
      modifies this
      ensures Valid() && !guarded && clock == old(clock)
      ensures forall token :: token in table <==>
                token in old(table) && (old(guarded) ==> forall r <- removed ::
                  !(old(table)[token].source == r.0 && IsSameOrDescendant(r.1, old(table)[token].path)))
      ensures forall token <- table :: table[token] == old(table)[token]
      ensures IsRun(old(State(table, clock)), if old(guarded) then Removals(removed) else [], State(table, clock))
    {
      if !guarded {
        return;
      }
      guarded := false;
      ghost var before := State(table, clock);
      for i := 0 to |removed|
        invariant Valid() && !guarded && clock == old(clock)
        invariant IsRun(before, Removals(removed[..i]), State(table, clock))
      {
        RemovesOneMore(before, removed, i, State(table, clock));
        DeleteLocksRootedAt(removed[i].0, removed[i].1);
      }
      assert removed[..|removed|] == removed;
      RemovalsExactly(before, removed);
    }

    /** LOCK: an exclusive lock is made exactly when no active lock of the source covers any path the
        new one would. */
    method Create(token: string, source: int, path: string, depth: Depth, owner: int, timeout: int, now: int, listed: int, stamped: int)
        returns (r: Outcome)
      requires Valid() && !guarded && clock <= now <= listed <= stamped && token !in table
      modifies this
      ensures Valid() && !guarded && (r.Success? || r.Locked?)
      ensures r.Success? <==> forall other, p ::
                (other in old(table) && old(table)[other].source == source
                 && old(table)[other].expires > listed && LockCovers(path, depth, p))
                ==> !LockCovers(old(table)[other].path, old(table)[other].depth, p)
      ensures r.Success? ==> r.lock == Lock(source, path, depth, owner, stamped + timeout)
                             && table == Unexpired(old(table), now)[token := r.lock] && clock == stamped
      ensures r.Locked? ==> table == Unexpired(old(table), now) && clock == now
      ensures IsRun(old(State(table, clock)), if r.Success? then [CleanUp(now), Added(token, r.lock, stamped)] else [CleanUp(now)],
                    State(table, clock))
    {
      CleanupExpired(now);
      var active := ListSource(source, listed);
      var lock := Lock(source, path, depth, owner, stamped + timeout);
      ghost var t := table;
      for i := 0 to |active|
        invariant table == t && clock == now && !guarded
        invariant forall k :: 0 <= k < i ==> active[k] in table && !Overlap(lock, table[active[k]])
      {
        var existing := table[active[i]];
        assert active[i] in active;
        IntersectMeansShared(path, depth, existing.path, existing.depth);
        if LockScopesIntersect(path, depth, existing.path, existing.depth) {
          return Locked;
        }
      }
      forall other | other in table && table[other].expires > listed && table[other].source == source
        ensures !Overlap(lock, table[other])
      {
        assert other in active;
      }
      FreeMeansDisjoint(table, lock, listed);
      assert IsFree(table, lock, stamped);
      StepKeepsExclusive(State(table, clock), Added(token, lock, stamped));
      IsRunOfTwo(old(State(table, clock)), CleanUp(now), Added(token, lock, stamped));
      table := table[token := lock];
      clock := stamped;
      return Success(lock);
    }

    /** A lock is extended only for its owner and through a path it covers. */
    method Refresh(token: string, owner: int, source: int, path: string, timeout: int, now: int, stamped: int) returns (r: Outcome)
      requires Valid() && !guarded && clock <= now <= stamped
      modifies this
      ensures Valid() && !guarded
      ensures r.Success? <==> && token in old(table) && old(table)[token].expires > now
                              && old(table)[token].owner == owner && old(table)[token].source == source
                              && LockCovers(old(table)[token].path, old(table)[token].depth, path)
      ensures r.Forbidden? <==> token in old(table) && old(table)[token].expires > now && old(table)[token].owner != owner
      ensures r.Success? ==> r.lock == old(table)[token].(expires := stamped + timeout)
                             && table == Unexpired(old(table), now)[token := r.lock]
      ensures !r.Success? ==> (r.Forbidden? || r.NotFound?) && table == Unexpired(old(table), now)
      ensures IsRun(old(State(table, clock)),
                    if r.Success? then [CleanUp(now), Extended(token, r.lock.expires, stamped)] else [CleanUp(now)],
                    State(table, clock))
    {
      CleanupExpired(now);
      if token !in table {
        return NotFound;
      }
      var lock := table[token];
      if lock.owner != owner {
        return Forbidden;
      }
      if lock.source != source || !LockCovers(lock.path, lock.depth, path) {
        return NotFound;
      }
      lock := lock.(expires := stamped + timeout);
      StepKeepsExclusive(State(table, clock), Extended(token, stamped + timeout, stamped));
      IsRunOfTwo(old(State(table, clock)), CleanUp(now), Extended(token, stamped + timeout, stamped));
      table := table[token := lock];
      clock := stamped;
      return Success(lock);
    }

    /** A lock is removed only for its owner and through a path it covers. */
    method Unlock(token: string, owner: int, source: int, path: string, now: int) returns (r: Outcome)
      requires Valid() && !guarded && clock <= now
      modifies this
      ensures Valid() && !guarded
      ensures r.Success? <==> && token in old(table) && old(table)[token].expires > now
                              && old(table)[token].owner == owner && old(table)[token].source == source
                              && LockCovers(old(table)[token].path, old(table)[token].depth, path)
      ensures r.Forbidden? <==> token in old(table) && old(table)[token].expires > now && old(table)[token].owner != owner
      ensures !r.Success? ==> (r.Forbidden? || r.NotFound?) && table == Unexpired(old(table), now)
      ensures r.Success? ==> table == Unexpired(old(table), now) - {token}
      ensures IsRun(old(State(table, clock)), if r.Success? then [CleanUp(now), Remove(token)] else [CleanUp(now)],
                    State(table, clock))
    {
      CleanupExpired(now);
      if token !in table {
        return NotFound;
      }
      var lock := table[token];
      if lock.owner != owner {
        return Forbidden;
      }
      if lock.source != source || !LockCovers(lock.path, lock.depth, path) {
        return NotFound;
      }
      StepKeepsExclusive(State(table, clock), Remove(token));
      IsRunOfTwo(old(State(table, clock)), CleanUp(now), Remove(token));
      table := table - {token};
      return Success(lock);
    }

    /** Discover finds the one lock that covers a path, if there is one. */
    method Discover(source: int, path: string, now: int, listed: int) returns (tokens: seq<string>)
      requires Valid() && !guarded && clock <= now <= listed
      modifies this
      ensures Valid() && !guarded && table == Unexpired(old(table), now)
      ensures IsRun(old(State(table, clock)), [CleanUp(now)], State(table, clock))
      ensures forall token :: token in tokens <==>
                token in table && table[token].source == source
                && table[token].expires > listed && LockCovers(table[token].path, table[token].depth, path)
      ensures forall a, b :: a in tokens && b in tokens ==> a == b
    {
      CleanupExpired(now);
      var active := ListSource(source, listed);
      tokens := [];
      ghost var t := table;
      for i := 0 to |active|
        invariant table == t && clock == now && !guarded
        invariant forall token :: token in tokens <==>
                    token in active[..i] && token in table && LockCovers(table[token].path, table[token].depth, path)
      {
        assert active[i] in active;
        assert active[..i + 1] == active[..i] + [active[i]];
        if LockCovers(table[active[i]].path, table[active[i]].depth, path) {
          tokens := tokens + [active[i]];
        }
      }
      assert active[..|active|] == active;
      forall a, b | a in tokens && b in tokens ensures a == b {
        IntersectMeansShared(table[a].path, table[a].depth, table[b].path, table[b].depth);
      }
    }
  }

  lemma FreeMeansDisjoint(table: Table, lock: Lock, now: int)
    requires forall other <- table :: table[other].expires > now && table[other].source == lock.source ==> !Overlap(lock, table[other])
    ensures IsFree(table, lock, now)
    ensures forall other, p ::
              (other in table && table[other].source == lock.source && table[other].expires > now
               && LockCovers(lock.path, lock.depth, p))
              ==> !LockCovers(table[other].path, table[other].depth, p)
  {
    forall other, p | other in table && table[other].source == lock.source && table[other].expires > now
      && LockCovers(lock.path, lock.depth, p) ensures !LockCovers(table[other].path, table[other].depth, p)
    {
      IntersectMeansShared(lock.path, lock.depth, table[other].path, table[other].depth);
    }
  }
}
