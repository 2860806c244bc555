/** Durable state, the steps that change it, and what a crash leaves behind.

  A process changes durable state (files, journal markers, database rows) one step at a
  time.  A crash keeps every step already taken and drops the rest, so a crashed plan
  leaves the state reached by some prefix of its steps.
 */
module Crash {

  /** How a piece of code ends: it ran to its end, the process died, or it stopped with an
      error and left the durable state to an operator. */
  datatype Status = Done | Crashed | Refused {
    predicate IsFailure() {
      !Done?
    }

    function PropagateFailure(): Status
      requires IsFailure()
    {
      this
    }
  }

  /** What recovery decides from the durable state alone. */
  datatype Decision<T> = Proceed(steps: seq<T>) | Refuse

  function Exec<S, T>(apply: (S, T) -> S, s: S, steps: seq<T>): S
  {
    if steps == [] then s else Exec(apply, apply(s, steps[0]), steps[1..])
  }

  /** One optional step. */
  function When<T>(condition: bool, step: T): seq<T>
  {
    if condition then [step] else []
  }

  lemma {:induction false} ExecAppend<S, T>(apply: (S, T) -> S, s: S, first: seq<T>, second: seq<T>)
    ensures Exec(apply, s, first + second) == Exec(apply, Exec(apply, s, first), second)
  {
    if first == [] {
      assert first + second == second;
    } else {
      assert (first + second)[1..] == first[1..] + second;
      ExecAppend(apply, apply(s, first[0]), first[1..], second);
    }
  }

  /** Every durable state met while running `steps` from `s` satisfies `inv`. */
  ghost predicate Safe<C, S, T>(apply: (S, T) -> S, inv: (C, S) -> bool, c: C, s: S, steps: seq<T>)
  {
    && inv(c, s)
    && (steps != [] ==> Safe(apply, inv, c, apply(s, steps[0]), steps[1..]))
  }

  lemma {:induction false} SafeAppend<C, S, T>(apply: (S, T) -> S, inv: (C, S) -> bool, c: C, s: S,
                                               first: seq<T>, second: seq<T>)
    requires Safe(apply, inv, c, s, first)
    requires Safe(apply, inv, c, Exec(apply, s, first), second)
    ensures Safe(apply, inv, c, s, first + second)
  {
    if first == [] {
      assert first + second == second;
    } else {
      assert (first + second)[1..] == first[1..] + second;
      SafeAppend(apply, inv, c, apply(s, first[0]), first[1..], second);
    }
  }

  /** Appending an optional step to a safe run. */
  lemma SafeWhen<C, S, T>(apply: (S, T) -> S, inv: (C, S) -> bool, c: C, s: S,
                          first: seq<T>, condition: bool, step: T)
    requires Safe(apply, inv, c, s, first)
    requires condition ==> inv(c, apply(Exec(apply, s, first), step))
    ensures Safe(apply, inv, c, s, first + When(condition, step))
    ensures Exec(apply, s, first + When(condition, step))
         == if condition then apply(Exec(apply, s, first), step) else Exec(apply, s, first)
  {
    var mid := Exec(apply, s, first);
    SafeEnds(apply, inv, c, s, first);
    ExecAppend(apply, s, first, When(condition, step));
    if condition {
      assert [step][1..] == [];
      assert Safe(apply, inv, c, apply(mid, step), []);
      assert Safe(apply, inv, c, mid, [step]);
    }
    SafeAppend(apply, inv, c, s, first, When(condition, step));
  }

  lemma {:induction false} SafeEnds<C, S, T>(apply: (S, T) -> S, inv: (C, S) -> bool, c: C, s: S, steps: seq<T>)
    requires Safe(apply, inv, c, s, steps)
    ensures inv(c, Exec(apply, s, steps))
  {
    if steps != [] {
      SafeEnds(apply, inv, c, apply(s, steps[0]), steps[1..]);
    }
  }

  /** Wherever a safe run is cut, the state left behind satisfies the invariant. */
  lemma {:induction false} SafeCut<C, S, T>(apply: (S, T) -> S, inv: (C, S) -> bool, c: C, s: S,
                                            steps: seq<T>, cut: nat)
    requires Safe(apply, inv, c, s, steps)
    requires cut <= |steps|
    ensures inv(c, Exec(apply, s, steps[..cut]))
  {
    if cut > 0 {
      assert steps[..cut][1..] == steps[1..][..cut - 1];
      SafeCut(apply, inv, c, apply(s, steps[0]), steps[1..], cut - 1);
    }
  }

  /** The steps that survive a crash after `cut` of them. */
  function Cut<T>(steps: seq<T>, cut: nat): seq<T>
  {
    if cut < |steps| then steps[..cut] else steps
  }

  /** A cut inside the second of three stretches, and one at or past its end. */
  lemma CutInSecond<T>(a: seq<T>, b: seq<T>, c: seq<T>, cut: nat)
    requires |a| <= cut < |a| + |b|
    ensures Cut(a + b + c, cut) == a + b[..cut - |a|]
  {
  }

  lemma CutInThird<T>(a: seq<T>, b: seq<T>, c: seq<T>, cut: nat)
    requires |a| + |b| <= cut
    ensures Cut(a + b + c, cut) == a + b + Cut(c, cut - |a| - |b|)
  {
  }

  lemma CutInFirst<T>(a: seq<T>, b: seq<T>, c: seq<T>, cut: nat)
    requires cut <= |a|
    ensures Cut(a + b + c, cut) == a[..cut]
  {
  }

  lemma CutKeeps<C, S, T>(apply: (S, T) -> S, inv: (C, S) -> bool, c: C, s: S, steps: seq<T>, cut: nat)
    requires Safe(apply, inv, c, s, steps)
    ensures inv(c, Exec(apply, s, Cut(steps, cut)))
  {
    if cut < |steps| {
      SafeCut(apply, inv, c, s, steps, cut);
    } else {
      SafeEnds(apply, inv, c, s, steps);
    }
  }

  lemma {:induction false} SafeWeaken<C, S(!new), T>(apply: (S, T) -> S, strong: (C, S) -> bool,
                                                    weak: (C, S) -> bool, c: C, s: S, steps: seq<T>)
    requires Safe(apply, strong, c, s, steps)
    requires forall t :: strong(c, t) ==> weak(c, t)
    ensures Safe(apply, weak, c, s, steps)
  {
    if steps != [] {
      SafeWeaken(apply, strong, weak, c, apply(s, steps[0]), steps[1..]);
    }
  }

  /** One restart: which of the orders the code leaves open its recovery follows, and after how
      many steps it dies. */
  datatype Life<O> = Life(order: O, cut: nat)

  /** Durable state after the operation is cut and then each restart's recovery is cut too. */
  function AfterCrashes<C, O, S, T>(apply: (S, T) -> S, recover: (C, O, S) -> Decision<T>, c: C,
                                    start: S, forward: seq<T>, cut: nat, lives: seq<Life<O>>): S
  {
    if lives == [] then Exec(apply, start, Cut(forward, cut))
    else
      var last := lives[|lives| - 1];
      var s := AfterCrashes(apply, recover, c, start, forward, cut, lives[..|lives| - 1]);
      match recover(c, last.order, s)
      case Refuse => s
      case Proceed(steps) => Exec(apply, s, Cut(steps, last.cut))
  }

  /** An invariant kept by the operation and by every recovery holds after any crashes. */
  lemma {:induction false} CrashesKeep<C, O, S(!new), T>(
      apply: (S, T) -> S, inv: (C, S) -> bool, recover: (C, O, S) -> Decision<T>, c: C,
      start: S, forward: seq<T>, cut: nat, lives: seq<Life<O>>)
    requires Safe(apply, inv, c, start, forward)
    requires forall life, s :: life in lives && inv(c, s) && recover(c, life.order, s).Proceed? ==>
               Safe(apply, inv, c, s, recover(c, life.order, s).steps)
    ensures inv(c, AfterCrashes(apply, recover, c, start, forward, cut, lives))
  {
    if lives == [] {
      CutKeeps(apply, inv, c, start, forward, cut);
    } else {
      var before := lives[..|lives| - 1];
      CrashesKeep(apply, inv, recover, c, start, forward, cut, before);
      var s := AfterCrashes(apply, recover, c, start, forward, cut, before);
      var last := lives[|lives| - 1];
      if recover(c, last.order, s).Proceed? {
        CutKeeps(apply, inv, c, s, recover(c, last.order, s).steps, last.cut);
      }
    }
  }

  /** One process life over durable state.

      `power` durable steps remain before the process dies, so a contract that holds for every
      `power` holds for a crash at every step.  `plan` is the specification of the code that
      will run: a step is allowed only if it is the plan's next one, hence wherever the life
      ends, the durable state is the one a prefix of the plan leads to.  The next life is a new
      Machine started on that state. */
  class Machine<S, T> {
    const apply: (S, T) -> S
    ghost const boot: S
    ghost const plan: seq<T>
    var state: S
    var power: nat
    ghost const lifetime: nat   // the power there was at the start
    ghost var taken: nat

    ghost predicate Valid()
      reads this
    {
      taken <= |plan| && taken + power == lifetime && state == Exec(apply, boot, plan[..taken])
    }

    /** How `steps` steps from position `at` on went: the power ran out before the last of them, or
        all of them were taken. */
    ghost predicate Ran(r: Status, at: nat, steps: nat)
      reads this
    {
      if r.Crashed? then power == 0 && taken < at + steps else taken == at + steps
    }

    ghost function StepAt(i: nat): T
      requires i < |plan|
    {
      plan[i]
    }

    /** From position `at` on, the plan reads `steps`. */
    ghost predicate At(at: nat, steps: seq<T>) {
      && at + |steps| <= |plan|
      && forall i {:trigger StepAt(i)} :: at <= i < at + |steps| ==> StepAt(i) == steps[i - at]
    }

    lemma Split(at: nat, first: seq<T>, second: seq<T>)
      requires At(at, first + second)
      ensures At(at, first) && At(at + |first|, second)
    {
    }

    /** Wherever the life of a safe plan ends, its invariant holds there. */
    lemma Ends<C>(inv: (C, S) -> bool, c: C)
      requires Valid() && Safe(apply, inv, c, boot, plan)
      ensures inv(c, state) && (taken == |plan| ==> state == Exec(apply, boot, plan))
    {
      SafeCut(apply, inv, c, boot, plan, taken);
      assert taken == |plan| ==> plan[..taken] == plan;
    }

    /** A whole life: it died exactly when its power was short of its plan, and it left what the plan
        leaves when cut there. */
    ghost predicate Lived(r: Status)
      reads this
    {
      (r.Crashed? <==> lifetime < |plan|) && state == Exec(apply, boot, Cut(plan, lifetime))
    }

    lemma RanIsLived(r: Status)
      requires Valid() && Ran(r, 0, |plan|)
      ensures Lived(r)
    {
      assert taken == |plan| ==> plan[..taken] == plan;
    }

    /** The plan continues with `steps`. */
    ghost predicate Next(steps: seq<T>)
      reads this
    {
      At(taken, steps)
    }

    constructor (apply: (S, T) -> S, state: S, power: nat, ghost plan: seq<T>)
      ensures Valid() && this.apply == apply && this.boot == state && this.state == state
      ensures this.power == power == lifetime && this.plan == plan && taken == 0
      ensures Next(plan)
    {
      this.apply := apply;
      this.boot := state;
      this.plan := plan;
      this.state := state;
      this.power := power;
      this.lifetime := power;
      this.taken := 0;
    }

    /** One durable step, or the crash that comes instead of it. */
    method Do(step: T) returns (r: Status)
      requires Valid() && taken < |plan| && StepAt(taken) == step
      modifies this
      ensures Valid() && !r.Refused? && (r.Crashed? <==> old(power) == 0)
      ensures r.Done? ==> power == old(power) - 1
      ensures r.Done? ==> state == apply(old(state), step) && taken == old(taken) + 1
      ensures r.Crashed? ==> state == old(state) && taken == old(taken)
    {
      if power == 0 {
        return Crashed;
      }
      power := power - 1;
      state := apply(state, step);
      assert plan[..taken + 1] == plan[..taken] + [step];
      ExecAppend(apply, boot, plan[..taken], [step]);
      assert [step][1..] == [];
      taken := taken + 1;
      return Done;
    }
  }
}
