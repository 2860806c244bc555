/** Quotas, over histories (service.go). */
module QuotaHistories {
  import opened Quota
  import opened Wrappers

  // Guarded writes beside everything else that changes what a quota counts (internal/files/service.go).
  //
  // What is counted is a source's files by path, or a user's ledger rows by source and path.  A
  // guard is measured while it holds the quota's write lock.  Whoever replaces or renames holds the
  // persistent lock store's mutex as well (GuardMutation, released only when the mutation is over),
  // from before its quota guard is asked for until after it is closed; removals and the writing of
  // new names do without.

  /** What a limited guard was told: the usage it saw, the entry it may replace, and that entry's size. */
  datatype Mark<K> = Mark(usage: nat, credit: Option<K>, replaced: nat, maxBytes: nat)

  datatype World<K> = World(sys: System, counted: map<K, nat>, marks: map<nat, Mark<K>>, mutator: Option<nat>)

  datatype Event<K> =
    | Lock(id: nat)
    | Unlock(id: nat)
    | OfGuards(action: Action)
    | Measure(guard: nat, credit: Option<K>)
    | Land(guard: nat, added: map<K, nat>)
    | Rename(id: nat, from: K, to: K)
    | Remove(gone: set<K>)

  function Credited<K>(counted: map<K, nat>, credit: Option<K>): map<K, nat> {
    if credit.Some? then counted - {credit.value} else counted
  }

  function CreditSize<K>(counted: map<K, nat>, credit: Option<K>): nat {
    if credit.Some? then SizeAt(counted, credit.value) else 0
  }

  function CreditOf<K>(w: World<K>, guard: nat): Option<K> {
    if guard in w.marks then w.marks[guard].credit else None
  }

  /** A guard lands once, within what it was told. */
  ghost predicate MayLand<K>(w: World<K>, guard: nat, added: map<K, nat>) {
    && guard in w.sys.guards
    && (w.sys.guards[guard].Unlimited?
        || (w.sys.guards[guard].Limited? && guard in w.marks && Total(added) <= w.marks[guard].maxBytes))
    && added.Keys !! Credited(w.counted, CreditOf(w, guard)).Keys
  }

  ghost predicate Possible<K>(w: World<K>, key: string, e: Event<K>) {
    match e
    case Lock(_) => w.mutator.None?
    case Unlock(id) => w.mutator == Some(id) && CreditOf(w, id).None?
    case OfGuards(a) => !a.CheckWrite? && Enabled(w.sys, key, a)
    case Measure(g, credit) => Enabled(w.sys, key, CheckWrite(g)) && (credit.Some? ==> w.mutator == Some(g))
    case Land(g, added) => MayLand(w, g, added)
    case Rename(id, from, to) => w.mutator == Some(id) && id !in w.sys.guards && from in w.counted && to !in w.counted
    case Remove(_) => true
  }

  ghost function After<K>(w: World<K>, key: string, e: Event<K>): World<K>
    requires Possible(w, key, e)
  {
    match e
    case Lock(id) => w.(mutator := Some(id))
    case Unlock(_) => w.(mutator := None)
    case OfGuards(a) =>
      w.(sys := Next(w.sys, key, a), marks := if a.Close? then w.marks - {a.guard} else w.marks)
    case Measure(g, credit) =>
      var sys := Next(w.sys, key, CheckWrite(g));
      if sys.guards[g].Limited? then
        var usage, replaced := Total(w.counted), CreditSize(w.counted, credit);
        w.(sys := sys, marks := w.marks[g := Mark(usage, credit, replaced, Allowance(sys.quota, usage, replaced))])
      else w.(sys := sys)
    case Land(g, added) => w.(counted := Credited(w.counted, CreditOf(w, g)) + added, marks := w.marks - {g})
    case Rename(_, from, to) => w.(counted := (w.counted - {from})[to := w.counted[from]])
    case Remove(gone) => w.(counted := w.counted - gone)
  }

  // -------------------------------------------------------------- sums

  lemma UnionLess<K>(a: map<K, nat>, b: map<K, nat>, k: K)
    requires a.Keys !! b.Keys && k in b
    ensures (a + b) - {k} == a + (b - {k}) && (a + b)[k] == b[k] && a.Keys !! (b - {k}).Keys
    ensures |b - {k}| < |b|
  {
    assert k !in a.Keys;
    assert b.Keys == (b - {k}).Keys + {k};
    assert |(b - {k}).Keys| == |b - {k}| && |b.Keys| == |b|;
  }

  lemma {:induction false} TotalOfUnion<K>(a: map<K, nat>, b: map<K, nat>)
    requires a.Keys !! b.Keys
    ensures Total(a + b) == Total(a) + Total(b)
    decreases |b|
  {
    if b == map[] {
      assert a + b == a;
    } else {
      var k :| k in b;
      TotalSplits(b, k);
      UnionLess(a, b, k);
      TotalSplits(a + b, k);
      TotalOfUnion(a, b - {k});
    }
  }

  lemma TotalOfRename<K>(counted: map<K, nat>, from: K, to: K)
    requires from in counted && to !in counted
    ensures Total((counted - {from})[to := counted[from]]) == Total(counted)
  {
    TotalSplits(counted, from);
    TotalWithout(counted - {from}, to, counted[from]);
    assert counted - {from} - {to} == counted - {from};
  }

  lemma CreditSplits<K>(counted: map<K, nat>, credit: Option<K>)
    ensures Total(Credited(counted, credit)) + CreditSize(counted, credit) == Total(counted)
  {
    if credit.Some? {
      TotalWithout(counted, credit.value, 0);
    }
  }

  lemma RemovalLowers<K(!new)>(counted: map<K, nat>, gone: set<K>, credit: Option<K>)
    ensures Total(counted - gone) <= Total(counted)
    ensures Total(Credited(counted - gone, credit)) <= Total(Credited(counted, credit))
  {
    ShrinkingLowersTotal(counted, counted - gone);
    ShrinkingLowersTotal(Credited(counted, credit), Credited(counted - gone, credit));
  }

  // --------------------------------------------------------- the invariant

  /** What a guard was told still bounds what there is. */
  ghost predicate MarkHolds<K>(w: World<K>, g: nat, mark: Mark<K>) {
    && g in w.sys.guards && w.sys.guards[g].Limited?
    && mark.maxBytes == Allowance(w.sys.guards[g].quota, mark.usage, mark.replaced)
    && Total(Credited(w.counted, mark.credit)) + mark.replaced <= mark.usage
    && (mark.credit.Some? ==> w.mutator == Some(g))
  }

  ghost predicate MarksHold<K>(w: World<K>) {
    forall g <- w.marks :: MarkHolds(w, g, w.marks[g])
  }

  ghost predicate WorldInv<K>(w: World<K>, key: string) {
    Inv(w.sys, key) && MarksHold(w)
  }

  /** What a guard's landing leaves. */
  lemma LandingKeepsQuota<K>(w: World<K>, key: string, g: nat, added: map<K, nat>)
    requires WorldInv(w, key) && MayLand(w, g, added) && w.sys.guards[g].Limited?
    ensures Total(After(w, key, Land(g, added)).counted) <= Max(w.sys.quota, w.marks[g].usage)
  {
    var mark := w.marks[g];
    assert MarkHolds(w, g, mark) && GuardFits(w.sys, key, w.sys.guards[g]);
    TotalOfUnion(Credited(w.counted, mark.credit), added);
  }

  /** Nobody else's mark is there when a guard lands. */
  lemma LandsAlone<K>(w: World<K>, key: string, g: nat, added: map<K, nat>, h: nat)
    requires WorldInv(w, key) && MayLand(w, g, added) && h in w.marks
    ensures g == h
  {
    assert MarkHolds(w, h, w.marks[h]);
    if g != h {
      LimitedIsAlone(w.sys, key, h, g);
    }
  }

  lemma GuardEventKeeps<K>(w: World<K>, key: string, a: Action)
    requires WorldInv(w, key) && Possible(w, key, OfGuards(a))
    ensures WorldInv(After(w, key, OfGuards(a)), key)
  {
    var v := After(w, key, OfGuards(a));
    ActionKeepsInv(w.sys, key, a);
    forall g | g in v.marks ensures MarkHolds(v, g, v.marks[g]) {
      assert MarkHolds(w, g, w.marks[g]);
    }
  }

  lemma MeasureKeeps<K>(w: World<K>, key: string, g: nat, credit: Option<K>)
    requires WorldInv(w, key) && Possible(w, key, Measure(g, credit))
    ensures WorldInv(After(w, key, Measure(g, credit)), key)
  {
    var v := After(w, key, Measure(g, credit));
    ActionKeepsInv(w.sys, key, CheckWrite(g));
    CreditSplits(w.counted, credit);
    forall h | h in v.marks ensures MarkHolds(v, h, v.marks[h]) {
      if h != g || !v.sys.guards[g].Limited? {
        assert MarkHolds(w, h, w.marks[h]);
      }
    }
  }

  lemma CountedEventKeeps<K(!new)>(w: World<K>, key: string, e: Event<K>)
    requires WorldInv(w, key) && Possible(w, key, e) && (e.Rename? || e.Remove? || e.Land?)
    ensures WorldInv(After(w, key, e), key)
  {
    var v := After(w, key, e);
    forall h | h in v.marks ensures MarkHolds(v, h, v.marks[h]) {
      var mark := w.marks[h];
      assert MarkHolds(w, h, mark);
      match e
      case Rename(id, from, to) => TotalOfRename(w.counted, from, to);
      case Remove(gone) => RemovalLowers(w.counted, gone, mark.credit);
      case Land(g, added) => LandsAlone(w, key, g, added, h);
    }
  }

  lemma EventKeeps<K(!new)>(w: World<K>, key: string, e: Event<K>)
    requires WorldInv(w, key) && Possible(w, key, e)
    ensures WorldInv(After(w, key, e), key)
  {
    match e
    case OfGuards(a) => GuardEventKeeps(w, key, a);
    case Measure(g, credit) => MeasureKeeps(w, key, g, credit);
    case Lock(_) => MutatorKeeps(w, After(w, key, e), key);
    case Unlock(_) => MutatorKeeps(w, After(w, key, e), key);
    case _ => CountedEventKeeps(w, key, e);
  }

  lemma MutatorKeeps<K>(w: World<K>, v: World<K>, key: string)
    requires WorldInv(w, key) && v == w.(mutator := v.mutator)
    requires w.mutator.Some? ==> CreditOf(w, w.mutator.value).None?
    ensures WorldInv(v, key)
  {
    forall g | g in v.marks ensures MarkHolds(v, g, v.marks[g]) {
      assert MarkHolds(w, g, w.marks[g]);
    }
  }

  // ------------------------------------------------------------ whole histories

  ghost predicate ValidHistory<K>(w: World<K>, key: string, events: seq<Event<K>>)
    decreases |events|
  {
    events != [] ==> Possible(w, key, events[0]) && ValidHistory(After(w, key, events[0]), key, events[1..])
  }

  ghost function History<K>(w: World<K>, key: string, events: seq<Event<K>>): World<K>
    requires ValidHistory(w, key, events)
    decreases |events|
  {
    if events == [] then w else History(After(w, key, events[0]), key, events[1..])
  }

  /** Every quota that is set is one, and within the bound. */
  predicate SetsWithin<K>(events: seq<Event<K>>, bound: nat) {
    forall e <- events :: e.OfGuards? && e.action.SetQuota? ==> 0 < e.action.quota <= bound
  }

  /** What the guards saw was within the bound, and so is what there is. */
  ghost predicate Bounded<K>(w: World<K>, bound: nat) {
    && 0 < w.sys.quota <= bound && Total(w.counted) <= bound
    && forall g <- w.marks :: w.marks[g].usage <= bound
  }

  lemma EventKeepsBound<K(!new)>(w: World<K>, key: string, e: Event<K>, bound: nat)
    requires WorldInv(w, key) && Possible(w, key, e) && Bounded(w, bound) && SetsWithin([e], bound)
    ensures Bounded(After(w, key, e), bound)
  {
    match e
    case OfGuards(a) => assert e in [e];
    case Rename(_, from, to) => TotalOfRename(w.counted, from, to);
    case Remove(gone) => RemovalLowers(w.counted, gone, None);
    case Land(g, added) =>
      assert GuardFits(w.sys, key, w.sys.guards[g]);
      LandingKeepsQuota(w, key, g, added);
    case _ =>
  }

  lemma {:induction false} HistoryKeepsBound<K(!new)>(w: World<K>, key: string, events: seq<Event<K>>, bound: nat)
    requires WorldInv(w, key) && ValidHistory(w, key, events) && Bounded(w, bound) && SetsWithin(events, bound)
    ensures Bounded(History(w, key, events), bound) && WorldInv(History(w, key, events), key)
    decreases |events|
  {
    if events != [] {
      assert events[0] in events;
      EventKeeps(w, key, events[0]);
      EventKeepsBound(w, key, events[0], bound);
      HistoryKeepsBound(After(w, key, events[0]), key, events[1..], bound);
    }
  }

  ghost function Fresh<K>(counted: map<K, nat>, quota: nat): World<K> {
    World(System(Locks.State([], map[]), quota, map[]), counted, map[], None)
  }

  /** In every interleaving of guarded writes, renames, removals, changes of the quota and other use of
      the lock manager, usage stays within any bound that the usage at the start and every quota in
      force are within. */
  lemma UsageStaysWithin<K(!new)>(counted: map<K, nat>, quota: nat, key: string, events: seq<Event<K>>, bound: nat)
    requires ValidHistory(Fresh(counted, quota), key, events)
    requires 0 < quota <= bound && Total(counted) <= bound && SetsWithin(events, bound)
    ensures Total(History(Fresh(counted, quota), key, events).counted) <= bound
  {
    HistoryKeepsBound(Fresh(counted, quota), key, events, bound);
  }

  /** In particular, while a quota stands usage is at most the quota, or at most what it was at the
      start where that was more. */
  lemma QuotaIsKept<K(!new)>(counted: map<K, nat>, quota: nat, key: string, events: seq<Event<K>>)
    requires quota > 0 && ValidHistory(Fresh(counted, quota), key, events)
    requires forall e <- events :: e.OfGuards? ==> !e.action.SetQuota?
    ensures Total(History(Fresh(counted, quota), key, events).counted) <= Max(quota, Total(counted))
  {
    UsageStaysWithin(counted, quota, key, events, Max(quota, Total(counted)));
  }

  lemma {:induction false} HistoryKeeps<K(!new)>(w: World<K>, key: string, events: seq<Event<K>>)
    requires WorldInv(w, key) && ValidHistory(w, key, events)
    ensures WorldInv(History(w, key, events), key)
    decreases |events|
  {
    if events != [] {
      EventKeeps(w, key, events[0]);
      HistoryKeeps(After(w, key, events[0]), key, events[1..]);
    }
  }

  /** Whatever happened before, quotas of none included: a limited guard's landing leaves usage at most
      the quota in force, or at most what it was when the guard was measured. */
  lemma EveryLandingIsWithin<K(!new)>(counted: map<K, nat>, quota: nat, key: string, events: seq<Event<K>>, g: nat, added: map<K, nat>)
    requires ValidHistory(Fresh(counted, quota), key, events)
    requires var w := History(Fresh(counted, quota), key, events);
             Possible(w, key, Land(g, added)) && w.sys.guards[g].Limited?
    ensures var w := History(Fresh(counted, quota), key, events);
            Total(After(w, key, Land(g, added)).counted) <= Max(w.sys.quota, w.marks[g].usage)
  {
    HistoryKeeps(Fresh(counted, quota), key, events);
    LandingKeepsQuota(History(Fresh(counted, quota), key, events), key, g, added);
  }

  // ------------------------------------------------- a replacement by itself

  ghost predicate Reaches<K(!new)>(w: World<K>, key: string, events: seq<Event<K>>, v: World<K>) {
    ValidHistory(w, key, events) && History(w, key, events) == v
  }

  lemma ReachesOn<K(!new)>(w: World<K>, key: string, first: Event<K>, rest: seq<Event<K>>, v: World<K>)
    requires Possible(w, key, first) && Reaches(After(w, key, first), key, rest, v)
    ensures Reaches(w, key, [first] + rest, v)
  {
    assert ([first] + rest)[1..] == rest;
  }

  function AsEvents<K(!new)>(actions: seq<Action>): seq<Event<K>> {
    if actions == [] then [] else [OfGuards(actions[0])] + AsEvents(actions[1..])
  }

  /** What guards do by themselves they do in a history, up to a measurement. */
  lemma {:induction false} GuardsReach<K(!new)>(w: World<K>, key: string, actions: seq<Action>, t: System, rest: seq<Event<K>>, v: World<K>)
    requires Leads(w.sys, key, actions, t) && (forall a <- actions :: !a.CheckWrite? && !a.Close?)
    requires Reaches(w.(sys := t), key, rest, v)
    ensures Reaches(w, key, AsEvents(actions) + rest, v)
    decreases |actions|
  {
    if actions == [] {
      assert AsEvents<K>(actions) + rest == rest;
    } else {
      var first: Event<K> := OfGuards(actions[0]);
      GuardsReach(After(w, key, first), key, actions[1..], t, rest, v);
      assert AsEvents<K>(actions) + rest == [first] + (AsEvents(actions[1..]) + rest);
      ReachesOn(w, key, first, AsEvents(actions[1..]) + rest, v);
    }
  }

  function Asking(g: nat, a: nat, b: nat): seq<Action> {
    [AskRead(g, a), Grant(0), CheckRead(g)] + [AskWrite(g, b), Grant(0)]
  }

  lemma AskingLeads(key: string, quota: nat, g: nat, a: nat, b: nat)
    requires quota > 0
    ensures Leads(System(Idle(), quota, map[]), key, Asking(g, a, b), System(Alone(key, b, true), quota, map[g := Writing(b)]))
  {
    ReadsAlone(key, quota, map[], g, a);
    WriteGranted(key, quota, map[g := Upgrading], g, b);
    LeadsFarther(System(Idle(), quota, map[]), key, [AskRead(g, a), Grant(0), CheckRead(g)],
                 System(Idle(), quota, map[g := Upgrading]), [AskWrite(g, b), Grant(0)],
                 System(Alone(key, b, true), quota, map[g := Writing(b)]));
  }

  lemma ClosingReaches<K(!new)>(w: World<K>, key: string, g: nat, lease: nat, write: bool, rest: seq<Event<K>>, v: World<K>)
    requires w.sys == System(Alone(key, lease, write), w.sys.quota, map[g := if write then Limited(lease, w.sys.quota) else Unlimited(lease)])
    requires w.marks == map[] && Reaches(w.(sys := System(Idle(), w.sys.quota, map[])), key, rest, v)
    ensures Reaches(w, key, [OfGuards(Close(g))] + rest, v)
  {
    ClosesAlone(key, w.sys.quota, w.sys.guards, g, lease, write);
    assert w.sys.guards - {g} == map[] && w.marks - {g} == map[];
    ReachesOn(w, key, OfGuards(Close(g)), rest, v);
  }

  /** Every replacement within its allowance can land, to the last byte, and leaves nothing behind but
      the new size. */
  lemma ReplacementLands<K(!new)>(counted: map<K, nat>, quota: nat, key: string, g: nat, a: nat, b: nat, k: K, size: nat)
    requires quota > 0 && size <= Allowance(quota, Total(counted), SizeAt(counted, k))
    ensures Reaches(Fresh(counted, quota), key,
                    [Lock(g)] + (AsEvents(Asking(g, a, b))
                                 + [Measure(g, Some(k)), Land(g, map[k := size]), OfGuards(Close(g)), Unlock(g)]),
                    Fresh(counted[k := size], quota))
  {
    var done, landed := Fresh(counted[k := size], quota), [Land(g, map[k := size]), OfGuards(Close(g)), Unlock(g)];
    var locked := Fresh(counted, quota).(mutator := Some(g));
    var asked := locked.(sys := System(Alone(key, b, true), quota, map[g := Writing(b)]));
    MeasuredLands(key, quota, counted, g, b, k, size);
    ReachesOn(asked, key, Measure(g, Some(k)), landed, done);
    AskingLeads(key, quota, g, a, b);
    GuardsReach(locked, key, Asking(g, a, b), asked.sys, [Measure(g, Some(k))] + landed, done);
    ReachesOn(Fresh(counted, quota), key, Lock(g), AsEvents(Asking(g, a, b)) + ([Measure(g, Some(k))] + landed), done);
    assert [Measure(g, Some(k))] + landed == [Measure(g, Some(k)), Land(g, map[k := size]), OfGuards(Close(g)), Unlock(g)];
  }

  lemma Measures<K(!new)>(key: string, quota: nat, counted: map<K, nat>, g: nat, b: nat, k: K) returns (v: World<K>)
    requires quota > 0
    ensures v.sys == System(Alone(key, b, true), quota, map[g := Limited(b, quota)])
    ensures v.counted == counted && v.marks.Keys == {g} && v.mutator == Some(g)
    ensures v.marks[g].credit == Some(k) && v.marks[g].maxBytes == Allowance(quota, Total(counted), SizeAt(counted, k))
    ensures var w := World(System(Alone(key, b, true), quota, map[g := Writing(b)]), counted, map[], Some(g));
            Possible(w, key, Measure(g, Some(k))) && After(w, key, Measure(g, Some(k))) == v
  {
    var w := World(System(Alone(key, b, true), quota, map[g := Writing(b)]), counted, map[], Some(g));
    assert map[g := Writing(b)][g := Limited(b, quota)] == map[g := Limited(b, quota)];
    v := After(w, key, Measure(g, Some(k)));
  }

  lemma MeasuredLands<K(!new)>(key: string, quota: nat, counted: map<K, nat>, g: nat, b: nat, k: K, size: nat)
    requires quota > 0 && size <= Allowance(quota, Total(counted), SizeAt(counted, k))
    ensures var w := World(System(Alone(key, b, true), quota, map[g := Writing(b)]), counted, map[], Some(g));
            && Possible(w, key, Measure(g, Some(k)))
            && Reaches(After(w, key, Measure(g, Some(k))), key, [Land(g, map[k := size]), OfGuards(Close(g)), Unlock(g)],
                       Fresh(counted[k := size], quota))
  {
    var sys := System(Alone(key, b, true), quota, map[g := Limited(b, quota)]);
    var v := Measures(key, quota, counted, g, b, k);
    var done := Fresh(counted[k := size], quota);
    ReachesOn(done.(mutator := Some(g)), key, Unlock(g), [], done);
    ClosingReaches(World(sys, counted[k := size], map[], Some(g)), key, g, b, true, [Unlock(g)], done);
    Lands(v, key, g, k, size);
    assert v.marks - {g} == map[];
    ReachesOn(v, key, Land(g, map[k := size]), [OfGuards(Close(g)), Unlock(g)], done);
  }

  /** Without a quota a new name lands whatever its size. */
  lemma UnlimitedLands<K(!new)>(counted: map<K, nat>, key: string, g: nat, a: nat, k: K, size: nat)
    requires k !in counted
    ensures Reaches(Fresh(counted, 0), key,
                    AsEvents([AskRead(g, a), Grant(0), CheckRead(g)]) + [Land(g, map[k := size]), OfGuards(Close(g))],
                    Fresh(counted[k := size], 0))
  {
    var done := Fresh(counted[k := size], 0);
    var sys := System(Alone(key, a, false), 0, map[g := Unlimited(a)]);
    ClosingReaches(World(sys, counted[k := size], map[], None), key, g, a, false, [], done);
    assert counted + map[k := size] == counted[k := size];
    ReachesOn(World(sys, counted, map[], None), key, Land(g, map[k := size]), [OfGuards(Close(g))], done);
    ReadsAlone(key, 0, map[], g, a);
    GuardsReach(Fresh(counted, 0), key, [AskRead(g, a), Grant(0), CheckRead(g)], sys,
                [Land(g, map[k := size]), OfGuards(Close(g))], done);
  }

  /** A measurement that finds no quota tells the guard nothing and sends it back to look again. */
  lemma MeasuresNothing<K(!new)>(w: World<K>, key: string, g: nat, credit: Option<K>)
    requires Possible(w, key, Measure(g, credit)) && w.sys.quota == 0
    ensures var v := After(w, key, Measure(g, credit));
            v.sys.guards == w.sys.guards[g := Retrying] && v.marks == w.marks && v.counted == w.counted
  {
  }

  /** Renames and removals need no guard. */
  lemma RenameHappens<K(!new)>(counted: map<K, nat>, quota: nat, key: string, id: nat, from: K, to: K, gone: set<K>)
    requires from in counted && to !in counted
    ensures Reaches(Fresh(counted, quota), key, [Lock(id), Rename(id, from, to), Unlock(id), Remove(gone)],
                    Fresh((counted - {from})[to := counted[from]] - gone, quota))
  {
    var renamed := (counted - {from})[to := counted[from]];
    var done := Fresh(renamed - gone, quota);
    ReachesOn(Fresh(renamed, quota), key, Remove(gone), [], done);
    var locked := Fresh(renamed, quota).(mutator := Some(id));
    ReachesOn(locked, key, Unlock(id), [Remove(gone)], done);
    ReachesOn(locked.(counted := counted), key, Rename(id, from, to), [Unlock(id), Remove(gone)], done);
    ReachesOn(Fresh(counted, quota), key, Lock(id), [Rename(id, from, to), Unlock(id), Remove(gone)], done);
  }

  lemma Lands<K(!new)>(w: World<K>, key: string, g: nat, k: K, size: nat)
    requires g in w.sys.guards && w.sys.guards[g].Limited? && g in w.marks && w.marks[g].credit == Some(k)
    requires size <= w.marks[g].maxBytes
    ensures Possible(w, key, Land(g, map[k := size]))
    ensures After(w, key, Land(g, map[k := size])) == w.(counted := w.counted[k := size], marks := w.marks - {g})
  {
    TotalSplits(map[k := size], k);
    assert map[k := size] - {k} == map[];
    assert w.counted - {k} + map[k := size] == w.counted[k := size];
  }
}
