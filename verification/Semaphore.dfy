/**
  Semaphores: over every run in which releases stay within the limit, the count stays within it
  too, and every unit is accounted for.
*/
module Semaphores {
  import opened Common
  import opened DispatcherModel
  import opened DispatcherLinks
  import opened DispatcherWaits
  import opened DispatcherResults
  import opened DispatcherRuns
  import opened DispatcherFrames

  /** A release of the semaphore, or any step that does not signal it. */
  datatype SemaphoreStep = Release(me: ThreadId, adjustment: nat) | Other(step: Step)

  /** The release is within the limit. */
  predicate WithinLimit(s: Dispatcher, o: ObjectId, limit: nat, adjustment: nat) {
    o in s.objects && adjustment > 0 && s.objects[o].signal + adjustment <= limit
  }

  predicate Happens(s: Dispatcher, o: ObjectId, limit: nat, step: SemaphoreStep) {
    match step
    case Release(me, adjustment) => MaySignal(s, me, o) && WithinLimit(s, o, limit, adjustment)
    case Other(other) => !Signals(other, o)
  }

  function AfterStep(s: Dispatcher, o: ObjectId, limit: nat, step: SemaphoreStep): Dispatcher {
    if !Happens(s, o, limit, step) then s
    else match step
      case Release(me, adjustment) => Signal(s, me, o, adjustment)
      case Other(other) => Attempt(s, other)
  }

  function AfterSteps(s: Dispatcher, o: ObjectId, limit: nat, steps: seq<SemaphoreStep>): Dispatcher
    decreases |steps|
  {
    if steps == [] then s else AfterSteps(AfterStep(s, o, limit, steps[0]), o, limit, steps[1..])
  }

  function Added(s: Dispatcher, o: ObjectId, limit: nat, step: SemaphoreStep): nat {
    if step.Release? && Happens(s, o, limit, step) then step.adjustment else 0
  }

  /** The units released over a run. */
  function TotalAdded(s: Dispatcher, o: ObjectId, limit: nat, steps: seq<SemaphoreStep>): nat
    decreases |steps|
  {
    if steps == [] then 0
    else Added(s, o, limit, steps[0]) + TotalAdded(AfterStep(s, o, limit, steps[0]), o, limit, steps[1..])
  }

  lemma StepBounded(s: Dispatcher, o: ObjectId, limit: nat, step: SemaphoreStep)
    requires Inv(s) && o in s.objects && s.objects[o].signal <= limit < WORD
    ensures var r := AfterStep(s, o, limit, step);
      && Inv(r) && o in r.objects && r.objects[o].signal <= limit
      && r.objects[o].signal + r.objects[o].granted == s.objects[o].signal + s.objects[o].granted + Added(s, o, limit, step)
  {
    hide Linked, Signal, Attempt, Exclusive;
    if Happens(s, o, limit, step) {
      match step
      case Release(me, adjustment) =>
        SignalKeeps(s, me, o, adjustment);
        SignalConserves(s, me, o, adjustment);
      case Other(other) =>
        AttemptKeeps(s, other);
        StepConserves(s, other, o);
    }
  }

  /**
    Over every run the count stays within the limit, and what is left and what was granted is
    what was there and what was added.
  */
  lemma {:induction false} CountBounded(s: Dispatcher, o: ObjectId, limit: nat, steps: seq<SemaphoreStep>)
    requires Inv(s) && o in s.objects && s.objects[o].signal <= limit < WORD
    ensures var r := AfterSteps(s, o, limit, steps);
      && Inv(r) && o in r.objects && 0 <= r.objects[o].signal <= limit
      && r.objects[o].signal + r.objects[o].granted
         == s.objects[o].signal + s.objects[o].granted + TotalAdded(s, o, limit, steps)
    decreases |steps|
  {
    hide Inv, AfterStep, Added;
    if steps != [] {
      StepBounded(s, o, limit, steps[0]);
      CountBounded(AfterStep(s, o, limit, steps[0]), o, limit, steps[1..]);
    }
  }

  /** A semaphore starts within its limit. */
  lemma SemaphoreStarts(s: Dispatcher, o: ObjectId, count: nat, limit: nat)
    requires Inv(s) && o !in s.objects && count <= limit < WORD
    ensures var r := Attempt(s, NewObjectStep(o, SemaphoreKind, count));
      Inv(r) && o in r.objects && r.objects[o].signal == count <= limit
  {
    hide Inv;
    NewObjectKeeps(s, o, SemaphoreKind, count);
  }

  /**
    The check of a release compares the count with the limit before it has served anyone, and a
    release beyond the limit is carried out all the same: the count then stays within the limit
    exactly when the threads that wait take up what is too much.
  */
  lemma LimitKeptExactly(s: Dispatcher, me: ThreadId, o: ObjectId, limit: nat, adjustment: nat)
    requires Inv(s) && MaySignal(s, me, o) && s.objects[o].signal + adjustment < WORD
    ensures o in Signal(s, me, o, adjustment).objects
    ensures Signal(s, me, o, adjustment).objects[o].signal <= limit
       <==> s.objects[o].signal + adjustment <= limit + |s.objects[o].waiters|
  {
    hide Linked, Signal, Exclusive;
    SignalConserves(s, me, o, adjustment);
  }
}
