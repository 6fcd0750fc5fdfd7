/**
  Kernel queues: a list of items guarded by a dispatcher object.  A consumer waits for a signal
  and then takes the first item, in two steps between which anything may happen; no consumer ever
  finds the list empty.
*/
module Queues {
  import opened Common
  import opened DispatcherModel
  import opened DispatcherLinks
  import opened DispatcherSignals
  import opened DispatcherWaits
  import opened DispatcherResults
  import opened DispatcherRuns
  import opened DispatcherFrames

  type Item = nat

  /** `holders` are the consumers whose wait was granted and who have not yet taken their item. */
  datatype QueueSystem = QueueSystem(base: Dispatcher, items: seq<Item>, holders: set<ThreadId>)

  /** The steps of the queue itself, and any step that keeps clear of it; a holder does nothing before it takes its item. */
  datatype QueueStep =
    | Insert(me: ThreadId, item: Item, head: bool)
    | Remove(me: ThreadId, poll: bool)
    | Pop(t: ThreadId)
    | Expire(me: ThreadId, t: ThreadId)
    | Other(step: Step)

  predicate Happens(s: QueueSystem, q: ObjectId, step: QueueStep)
    requires q in s.base.objects
  {
    match step
    case Insert(me, _, _) => MaySignal(s.base, me, q) && s.base.objects[q].signal + 1 < WORD
    case Remove(me, _) => MayWait(s.base, me, [q]) && me !in s.holders
    case Pop(t) => t in s.holders
    case Expire(me, t) => me in s.base.threads && t in s.base.threads && s.base.threads[t].state == Waiting && s.base.threads[me].state != Waiting
    case Other(other) => Avoids(s.base, other, q) && forall t <- s.holders :: !ActsOn(other, t)
  }

  function Inserted(items: seq<Item>, item: Item, head: bool): seq<Item> {
    if head then [item] + items else items + [item]
  }

  /** An insertion signals the queue once, which grants the longest waiting consumer if there is one. */
  function AfterInsert(s: QueueSystem, q: ObjectId, me: ThreadId, item: Item, head: bool): QueueSystem
    requires q in s.base.objects
  {
    var waiters := s.base.objects[q].waiters;
    QueueSystem(Signal(s.base, me, q, 1), Inserted(s.items, item, head),
                s.holders + if waiters == [] then {} else {waiters[0].thread})
  }

  function AfterRemove(s: QueueSystem, q: ObjectId, me: ThreadId, poll: bool): QueueSystem
    requires me in s.base.threads
  {
    var (r, result) := Wait(s.base, me, [q], WaitAll, false, poll);
    QueueSystem(r, s.items, if result == Satisfied then s.holders + {me} else s.holders)
  }

  /** What a pop of an empty list would be is left open: `PopsSomething` shows that there is none. */
  function AfterPop(s: QueueSystem, t: ThreadId): QueueSystem {
    QueueSystem(s.base, if s.items == [] then [] else s.items[1..], s.holders - {t})
  }

  function AfterStep(s: QueueSystem, q: ObjectId, step: QueueStep): QueueSystem
    requires q in s.base.objects
  {
    if !Happens(s, q, step) then s
    else match step
      case Insert(me, item, head) => AfterInsert(s, q, me, item, head)
      case Remove(me, poll) => AfterRemove(s, q, me, poll)
      case Pop(t) => AfterPop(s, t)
      case Expire(me, t) => s.(base := UnwaitThread(s.base, me, t, STATUS_TIMEOUT))
      case Other(other) => s.(base := Attempt(s.base, other))
  }

  /**
    Items are signals and grants not yet taken; a granted consumer no longer waits for the queue,
    and its wait is going to return success.
  */
  predicate QueueOk(s: QueueSystem, q: ObjectId) {
    && Inv(s.base) && q in s.base.objects && s.base.objects[q].kind == QueueKind
    && SoleWaiters(s.base, q)
    && |s.items| == s.base.objects[q].signal + |s.holders|
    && (forall e <- s.base.objects[q].waiters :: e.thread !in s.holders)
    && (forall t <- s.holders :: t in s.base.threads && s.base.threads[t].state != Waiting && s.base.threads[t].status == 0)
  }

  /** A new queue holds no items, and nobody waits for it. */
  lemma QueueStarts(s: Dispatcher, q: ObjectId)
    requires Inv(s) && q !in s.objects
    ensures QueueOk(QueueSystem(Attempt(s, NewObjectStep(q, QueueKind, 0)), [], {}), q)
  {
    hide Inv;
    NewObjectKeeps(s, q, QueueKind, 0);
  }

  /** With nobody waiting an insertion leaves one more signal. */
  lemma InsertUnclaimed(s: QueueSystem, q: ObjectId, me: ThreadId, item: Item, head: bool)
    requires QueueOk(s, q) && Happens(s, q, Insert(me, item, head)) && s.base.objects[q].waiters == []
    ensures QueueOk(AfterInsert(s, q, me, item, head), q)
  {
    hide Linked, Signal, Exclusive, Completed;
    SignalKeeps(s.base, me, q, 1);
    SignalConserves(s.base, me, q, 1);
    assert ReleasedBy(s.base, q, 1) == 0;
    HoldersSpared(s, q, me);
  }

  lemma HoldersSpared(s: QueueSystem, q: ObjectId, me: ThreadId)
    requires QueueOk(s, q) && MaySignal(s.base, me, q)
    ensures var r := Signal(s.base, me, q, 1);
      forall t <- s.holders :: t in r.threads && r.threads[t] == s.base.threads[t]
  {
    hide Inv, Signal, SoleWaiters;
    forall t | t in s.holders
      ensures var r := Signal(s.base, me, q, 1); t in r.threads && r.threads[t] == s.base.threads[t]
    {
      SignalSpares(s.base, me, q, 1, t);
    }
  }

  /** The threads behind the head of the list are not touched when the head is granted. */
  lemma OthersWait(s: QueueSystem, q: ObjectId, me: ThreadId)
    requires QueueOk(s, q) && MaySignal(s.base, me, q) && s.base.objects[q].waiters != []
    requires ReleasedBy(s.base, q, 1) == 1
    ensures var waiters := s.base.objects[q].waiters;
      var r := Signal(s.base, me, q, 1);
      && q in r.objects && r.objects[q].waiters == waiters[1..]
      && forall e <- waiters[1..] :: e in waiters && e.thread != waiters[0].thread
           && e.thread in r.threads && e.thread in s.base.threads && r.threads[e.thread] == s.base.threads[e.thread]
  {
    hide Linked, Signal, Exclusive, Completed;
    SignalConserves(s.base, me, q, 1);
    SignalReadies(s.base, me, q, 1);
    var waiters := s.base.objects[q].waiters;
    forall e | e in waiters[1..]
      ensures e in waiters && e.thread != waiters[0].thread && !Involves(waiters[..1], e.thread)
    {
      var j :| 0 <= j < |waiters| - 1 && waiters[1..][j] == e;
      OneEntryEach(s.base, q, 0, j + 1);
    }
  }

  /** Otherwise the signal goes to the longest waiting consumer, who becomes a holder. */
  lemma InsertClaimed(s: QueueSystem, q: ObjectId, me: ThreadId, item: Item, head: bool)
    requires QueueOk(s, q) && Happens(s, q, Insert(me, item, head)) && s.base.objects[q].waiters != []
    ensures QueueOk(AfterInsert(s, q, me, item, head), q)
  {
    hide Linked, Signal, Exclusive, Completed;
    QuietWaiters(s.base, q);
    assert ReleasedBy(s.base, q, 1) == 1;
    SignalKeeps(s.base, me, q, 1);
    SignalConserves(s.base, me, q, 1);
    OthersWait(s, q, me);
    HoldersSpared(s, q, me);
    InsertGrants(s, q, me, item, head);
    assert s.base.objects[q].waiters[0] in s.base.objects[q].waiters;
  }

  lemma InsertKeeps(s: QueueSystem, q: ObjectId, me: ThreadId, item: Item, head: bool)
    requires QueueOk(s, q) && Happens(s, q, Insert(me, item, head))
    ensures QueueOk(AfterInsert(s, q, me, item, head), q)
  {
    hide QueueOk, AfterInsert;
    if s.base.objects[q].waiters == [] {
      InsertUnclaimed(s, q, me, item, head);
    } else {
      InsertClaimed(s, q, me, item, head);
    }
  }

  /** What a signal does to the longest waiting consumer. */
  lemma HeadGranted(s: QueueSystem, q: ObjectId, me: ThreadId)
    requires QueueOk(s, q) && MaySignal(s.base, me, q) && s.base.objects[q].waiters != []
    requires ReleasedBy(s.base, q, 1) == 1
    ensures var t := s.base.objects[q].waiters[0].thread;
      var r := Signal(s.base, me, q, 1);
      && t in r.threads && r.threads[t].state == Ready && r.threads[t].status == 0 && r.readied == s.base.readied + [t]
  {
    hide Linked, Signal, Exclusive;
    SignalReadies(s.base, me, q, 1);
    var waiters := s.base.objects[q].waiters;
    assert waiters[..1] == [waiters[0]];
    assert waiters[0] in waiters[..1] && waiters[0] in waiters;
    assert Completed(s.base, waiters[..1][1..]) == [];
    SoleIsLast(s.base, q, waiters[0]);
  }

  /** The grant is real: the longest waiting consumer is readied, and its wait returns success. */
  lemma InsertGrants(s: QueueSystem, q: ObjectId, me: ThreadId, item: Item, head: bool)
    requires QueueOk(s, q) && Happens(s, q, Insert(me, item, head))
    ensures var waiters := s.base.objects[q].waiters;
      var r := AfterInsert(s, q, me, item, head);
      if waiters == [] then q in r.base.objects && r.base.objects[q].signal == s.base.objects[q].signal + 1 && r.holders == s.holders
      else
        var t := waiters[0].thread;
        && t in r.base.threads && r.base.threads[t].state == Ready && r.base.threads[t].status == 0
        && r.base.readied == s.base.readied + [t] && r.holders == s.holders + {t}
  {
    hide Linked, Signal, Exclusive, SoleWaiters;
    SignalConserves(s.base, me, q, 1);
    QuietWaiters(s.base, q);
    if s.base.objects[q].waiters == [] {
      assert ReleasedBy(s.base, q, 1) == 0;
    } else {
      assert ReleasedBy(s.base, q, 1) == 1;
      HeadGranted(s, q, me);
    }
  }

  lemma SoleIsLast(s: Dispatcher, q: ObjectId, e: Entry)
    requires Linked(s) && q in s.objects && SoleWaiters(s, q) && e in s.objects[q].waiters
    ensures s.threads[e.thread].active == 1 && e.block == 0
  {
  }

  lemma QuietWaiters(s: Dispatcher, q: ObjectId)
    requires Inv(s) && q in s.objects
    ensures s.objects[q].signal < WORD && (s.objects[q].signal == 0 || s.objects[q].waiters == [])
  {
  }

  /** How the wait of a removal ends. */
  lemma WaitForQueue(s: Dispatcher, q: ObjectId, me: ThreadId, poll: bool)
    requires Inv(s) && MayWait(s, me, [q])
    ensures var (r, result) := Wait(s, me, [q], WaitAll, false, poll);
      && q in s.objects && Inv(r) && OthersUntouched(s, r, me) && me in r.threads && q in r.objects
      && r.objects[q].kind == s.objects[q].kind
      && match result
         case Satisfied =>
           && s.objects[q].signal > 0 && r.objects[q].signal == s.objects[q].signal - 1
           && r.objects[q].waiters == s.objects[q].waiters && CarriesOn(r, me, 0)
         case Blocked =>
           && r.objects[q].signal == s.objects[q].signal == 0 && r.objects[q].waiters == s.objects[q].waiters + [Entry(me, 0)]
           && r.threads[me].state == Waiting && r.threads[me].blocks == [Some(q)]
         case TimedOut => r.objects[q].signal == s.objects[q].signal && r.objects[q].waiters == s.objects[q].waiters && CarriesOn(r, me, 0x102)
         case _ => false
  {
    hide Linked, Wait, Exclusive;
    WaitKeeps(s, me, [q], WaitAll, false, poll);
    WaitEnds(s, me, [q], WaitAll, false, poll);
    assert [q][0] == q && q in [q];
    assert AllSignalled(s, [q]) <==> Signalled(s, q);
    var (r, result) := Wait(s, me, [q], WaitAll, false, poll);
    if result == Blocked {
      assert r.threads[me].blocks == [Some(q)];
    }
  }

  lemma RemoveKeeps(s: QueueSystem, q: ObjectId, me: ThreadId, poll: bool)
    requires QueueOk(s, q) && Happens(s, q, Remove(me, poll))
    ensures QueueOk(AfterRemove(s, q, me, poll), q)
  {
    hide Inv, Wait, Involves;
    WaitForQueue(s.base, q, me, poll);
    NotQueuedYet(s.base, me, q);
    var r := Wait(s.base, me, [q], WaitAll, false, poll).0;
    forall e | e in s.base.objects[q].waiters
      ensures e.thread != me && r.threads[e.thread] == s.base.threads[e.thread]
    {
    }
  }

  lemma NotQueuedYet(s: Dispatcher, me: ThreadId, q: ObjectId)
    requires Inv(s) && me in s.threads && s.threads[me].blocks == [] && q in s.objects
    ensures forall e <- s.objects[q].waiters :: e.thread != me
  {
    hide Linked, Exclusive;
    NoBlocksNoEntries(s, me, q);
  }

  lemma ExpireKeeps(s: QueueSystem, q: ObjectId, me: ThreadId, t: ThreadId)
    requires QueueOk(s, q) && Happens(s, q, Expire(me, t))
    ensures QueueOk(s.(base := UnwaitThread(s.base, me, t, STATUS_TIMEOUT)), q)
  {
    hide Linked, UnwaitThread, Exclusive;
    UnwaitKeeps(s.base, me, t, STATUS_TIMEOUT);
    PurgeMembers(s.base.objects[q].waiters, t);
    var r := UnwaitThread(s.base, me, t, STATUS_TIMEOUT);
    forall e | e in r.objects[q].waiters
      ensures e in s.base.objects[q].waiters && e.thread != t
    {
    }
  }

  /** Every step keeps the account. */
  lemma StepKeeps(s: QueueSystem, q: ObjectId, step: QueueStep)
    requires QueueOk(s, q) && q in s.base.objects
    ensures QueueOk(AfterStep(s, q, step), q)
  {
    hide Inv, Wait, Signal, UnwaitThread, Attempt, Avoids, ActsOn;
    if Happens(s, q, step) {
      match step
      case Insert(me, item, head) => InsertKeeps(s, q, me, item, head);
      case Remove(me, poll) => RemoveKeeps(s, q, me, poll);
      case Pop(t) =>
      case Expire(me, t) => ExpireKeeps(s, q, me, t);
      case Other(other) =>
        AttemptKeeps(s.base, other);
        StepAvoids(s.base, other, q);
        forall t | t in s.holders
          ensures var r := Attempt(s.base, other); t in r.threads && r.threads[t].state != Waiting && r.threads[t].status == 0
        {
          StepSpares(s.base, other, t);
        }
    }
  }

  // --- the order of the items

  /** An expired consumer returns the status of a timeout, takes nothing, and leaves the queue as it was. */
  lemma ExpiredTakesNothing(s: QueueSystem, q: ObjectId, me: ThreadId, t: ThreadId)
    requires QueueOk(s, q) && Happens(s, q, Expire(me, t))
    ensures var r := AfterStep(s, q, Expire(me, t));
      && QueueOk(r, q) && t !in r.holders && t in r.base.threads && r.base.threads[t].status == 0x102
      && r.items == s.items && q in r.base.objects && r.base.objects[q].signal == s.base.objects[q].signal
      && r.base.objects[q].waiters == Purge(s.base.objects[q].waiters, t)
  {
    hide Inv, UnwaitThread;
    if !Involves(s.base.objects[q].waiters, t) {
      PurgeNothing(s.base.objects[q].waiters, t);
    }
    ExpireKeeps(s, q, me, t);
    UnwaitKeeps(s.base, me, t, STATUS_TIMEOUT);
  }

  /** The items that a step puts into the queue at its end, and those that it takes out. */
  function PutBy(s: QueueSystem, q: ObjectId, step: QueueStep): seq<Item>
    requires q in s.base.objects
  {
    if step.Insert? && Happens(s, q, step) then [step.item] else []
  }

  function TakenBy(s: QueueSystem, q: ObjectId, step: QueueStep): seq<Item>
    requires q in s.base.objects
  {
    if step.Pop? && Happens(s, q, step) && s.items != [] then [s.items[0]] else []
  }

  function AllPut(s: QueueSystem, q: ObjectId, steps: seq<QueueStep>): seq<Item>
    requires q in s.base.objects && QueueOk(s, q)
    decreases |steps|
  {
    if steps == [] then []
    else
      StepKeeps(s, q, steps[0]);
      PutBy(s, q, steps[0]) + AllPut(AfterStep(s, q, steps[0]), q, steps[1..])
  }

  function AllTaken(s: QueueSystem, q: ObjectId, steps: seq<QueueStep>): seq<Item>
    requires q in s.base.objects && QueueOk(s, q)
    decreases |steps|
  {
    if steps == [] then []
    else
      StepKeeps(s, q, steps[0]);
      TakenBy(s, q, steps[0]) + AllTaken(AfterStep(s, q, steps[0]), q, steps[1..])
  }

  /** A step that inserts at the tail only puts items last, and takes them first. */
  lemma StepInOrder(s: QueueSystem, q: ObjectId, step: QueueStep)
    requires q in s.base.objects && QueueOk(s, q) && (step.Insert? ==> !step.head)
    ensures TakenBy(s, q, step) + AfterStep(s, q, step).items == s.items + PutBy(s, q, step)
  {
    hide Inv, Wait, Signal, UnwaitThread, Attempt, Avoids, ActsOn;
  }

  /**
    First in, first out: over every run that inserts at the tail only, what has been taken, in the
    order in which it was taken, followed by what is left, is what was there followed by what was
    inserted, in the order in which it was inserted.
  */
  lemma {:induction false} InOrder(s: QueueSystem, q: ObjectId, steps: seq<QueueStep>)
    requires q in s.base.objects && QueueOk(s, q)
    requires forall k :: 0 <= k < |steps| && steps[k].Insert? ==> !steps[k].head
    ensures AllTaken(s, q, steps) + AfterSteps(s, q, steps).items == s.items + AllPut(s, q, steps)
    decreases |steps|
  {
    hide AfterStep, TakenBy, PutBy;
    if steps != [] {
      hide QueueOk;
      StepKeeps(s, q, steps[0]);
      StepInOrder(s, q, steps[0]);
      var r := AfterStep(s, q, steps[0]);
      InOrder(r, q, steps[1..]);
      var taken, put := AllTaken(r, q, steps[1..]), AllPut(r, q, steps[1..]);
      var rest := AfterSteps(r, q, steps[1..]).items;
      calc {
        (TakenBy(s, q, steps[0]) + taken) + rest;
        TakenBy(s, q, steps[0]) + (taken + rest);
        TakenBy(s, q, steps[0]) + (r.items + put);
        (TakenBy(s, q, steps[0]) + r.items) + put;
        (s.items + PutBy(s, q, steps[0])) + put;
        s.items + (PutBy(s, q, steps[0]) + put);
      }
    }
  }

  /** An item inserted at the head is the next to be taken, and the others stay behind it in their order. */
  lemma HeadIsNext(s: QueueSystem, q: ObjectId, me: ThreadId, item: Item, t: ThreadId)
    requires q in s.base.objects && QueueOk(s, q) && Happens(s, q, Insert(me, item, true))
    ensures var r := AfterStep(s, q, Insert(me, item, true));
      && QueueOk(r, q) && q in r.base.objects && r.items == [item] + s.items
      && (t in r.holders ==> TakenBy(r, q, Pop(t)) == [item] && AfterStep(r, q, Pop(t)).items == s.items)
  {
    hide Inv, Signal;
    StepKeeps(s, q, Insert(me, item, true));
    assert ([item] + s.items)[1..] == s.items;
  }

  function AfterSteps(s: QueueSystem, q: ObjectId, steps: seq<QueueStep>): QueueSystem
    requires q in s.base.objects && QueueOk(s, q)
    decreases |steps|
  {
    if steps == [] then s
    else
      StepKeeps(s, q, steps[0]);
      AfterSteps(AfterStep(s, q, steps[0]), q, steps[1..])
  }

  /**
    Over every run in which the queue is waited for only by removals, the items are exactly the
    signals left and the grants not yet taken, so that a granted consumer finds an item.
  */
  lemma {:induction false} PopsSomething(s: QueueSystem, q: ObjectId, steps: seq<QueueStep>)
    requires q in s.base.objects && QueueOk(s, q)
    ensures var r := AfterSteps(s, q, steps);
      && QueueOk(r, q) && |r.items| == r.base.objects[q].signal + |r.holders|
      && (r.holders != {} ==> r.items != [])
    decreases |steps|
  {
    hide AfterStep;
    if steps == [] {
    } else {
      hide QueueOk;
      StepKeeps(s, q, steps[0]);
      PopsSomething(AfterStep(s, q, steps[0]), q, steps[1..]);
    }
  }
}
