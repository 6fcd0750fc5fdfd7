/**
  Runs of the dispatcher: any number of threads waiting, signalling, timing out, being switched
  and exiting, and new threads and objects, in any order.
*/
module DispatcherRuns {
  import opened Common
  import opened DispatcherModel
  import opened DispatcherLinks
  import opened DispatcherWaits
  import opened DispatcherResults

  /**
    One step, done under the dispatcher lock.  `me` is the running thread.  An exiting thread
    signals its own object with minus one.
  */
  datatype Step =
    | WaitStep(me: ThreadId, ids: seq<ObjectId>, waitType: WaitType, ownArray: bool, poll: bool)
    | SignalStep(me: ThreadId, o: ObjectId, increment: nat)
    | UnwaitStep(me: ThreadId, t: ThreadId, status: int)
    | ExitStep(me: ThreadId, o: ObjectId)
    | SwitchInStep(t: ThreadId)
    | SwitchOutStep(t: ThreadId)
    | NewThreadStep(t: ThreadId)
    | NewObjectStep(o: ObjectId, kind: Kind, signal: nat)

  predicate Enabled(s: Dispatcher, step: Step) {
    match step
    case WaitStep(me, ids, waitType, _, _) => MayCall(s, me, ids) && ids != [] && !Hangs(s, ids, waitType)
    case SignalStep(me, o, _) => MaySignal(s, me, o)
    case UnwaitStep(me, t, _) => me in s.threads && t in s.threads && s.threads[t].state == Waiting && s.threads[me].state != Waiting
    case ExitStep(me, o) => MaySignal(s, me, o) && s.threads[me].state == Running
    case SwitchInStep(t) => t in s.threads && s.threads[t].state == Ready
    case SwitchOutStep(t) => t in s.threads && s.threads[t].state == Running
    case NewThreadStep(t) => t !in s.threads
    case NewObjectStep(o, _, signal) => o !in s.objects && signal < WORD
  }

  function WithState(s: Dispatcher, t: ThreadId, state: ThreadState): Dispatcher
    requires t in s.threads
  {
    s.WithThread(t, s.threads[t].(state := state))
  }

  function After(s: Dispatcher, step: Step): Dispatcher
    requires Enabled(s, step)
  {
    match step
    case WaitStep(me, ids, waitType, ownArray, poll) => Wait(s, me, ids, waitType, ownArray, poll).0
    case SignalStep(me, o, increment) => Signal(s, me, o, increment)
    case UnwaitStep(me, t, status) => UnwaitThread(s, me, t, status)
    case ExitStep(me, o) => Signal(WithState(s, me, Terminated), me, o, WORD - 1)
    case SwitchInStep(t) => WithState(s, t, Running)
    case SwitchOutStep(t) => WithState(s, t, Ready)
    case NewThreadStep(t) => s.WithThread(t, Thread(Ready, WaitAll, [], 0, 0))
    case NewObjectStep(o, kind, signal) => s.WithObject(o, Object(kind, signal, [], None, 0))
  }

  /** Steps that are not possible when their turn comes do not happen. */
  function Attempt(s: Dispatcher, step: Step): Dispatcher {
    if Enabled(s, step) then After(s, step) else s
  }

  function Run(s: Dispatcher, steps: seq<Step>): Dispatcher
    decreases |steps|
  {
    if steps == [] then s else Run(Attempt(s, steps[0]), steps[1..])
  }

  lemma StateKeeps(s: Dispatcher, t: ThreadId, state: ThreadState)
    requires Inv(s) && t in s.threads && s.threads[t].state != Waiting && state != Waiting
    ensures Inv(WithState(s, t, state))
  {
  }

  /** Nobody knows a new thread or waits for a new object yet. */
  lemma NewThreadKeeps(s: Dispatcher, t: ThreadId)
    requires Inv(s) && t !in s.threads
    ensures Inv(s.WithThread(t, Thread(Ready, WaitAll, [], 0, 0)))
  {
    var r := s.WithThread(t, Thread(Ready, WaitAll, [], 0, 0));
    forall u | u in r.threads
      ensures ThreadLinked(r, u)
    {
      if u != t {
        LinkedParts(s, u);
        assert forall i, o :: Queued(s, u, i, o) ==> Queued(r, u, i, o);
      }
    }
    forall o | o in r.objects
      ensures ObjectLinked(r, o)
    {
      LinkedObject(s, o);
      assert forall e <- s.objects[o].waiters :: PointsBack(s, e, o) ==> PointsBack(r, e, o);
    }
  }

  lemma NewObjectKeeps(s: Dispatcher, o: ObjectId, kind: Kind, signal: nat)
    requires Inv(s) && o !in s.objects && signal < WORD
    ensures Inv(s.WithObject(o, Object(kind, signal, [], None, 0)))
  {
    var r := s.WithObject(o, Object(kind, signal, [], None, 0));
    forall u | u in r.threads
      ensures ThreadLinked(r, u)
    {
      LinkedParts(s, u);
      assert forall i, p :: Queued(s, u, i, p) ==> Queued(r, u, i, p);
    }
    forall p | p in r.objects
      ensures ObjectLinked(r, p)
    {
      if p != o {
        LinkedObject(s, p);
        assert forall e <- s.objects[p].waiters :: PointsBack(s, e, p) ==> PointsBack(r, e, p);
      }
    }
  }

  lemma UnwaitKeeps(s: Dispatcher, me: ThreadId, t: ThreadId, status: int)
    requires Inv(s) && t in s.threads && s.threads[t].state == Waiting
    ensures Inv(UnwaitThread(s, me, t, status))
    ensures var r := UnwaitThread(s, me, t, status);
      && r.threads == s.threads[t := Finished(s.threads[t], t == me, status)]
      && AllCleared(s.objects, r.objects, t)
  {
    hide Linked, UnwaitThread;
    UnwaitThreadEffect(s, me, t, status);
    var r := UnwaitThread(s, me, t, status);
    forall o | o in r.objects
      ensures QuietObject(r.objects[o])
    {
      assert QuietObject(s.objects[o]);
    }
  }

  /** Every step keeps the invariant. */
  lemma AttemptKeeps(s: Dispatcher, step: Step)
    requires Inv(s)
    ensures Inv(Attempt(s, step))
  {
    hide Linked, Wait, Signal, UnwaitThread, Hangs, Exclusive;
    if Enabled(s, step) {
      match step
      case WaitStep(me, ids, waitType, ownArray, poll) => WaitKeeps(s, me, ids, waitType, ownArray, poll);
      case SignalStep(me, o, increment) => SignalKeeps(s, me, o, increment);
      case UnwaitStep(me, t, status) => UnwaitKeeps(s, me, t, status);
      case ExitStep(me, o) =>
        StateKeeps(s, me, Terminated);
        SignalKeeps(WithState(s, me, Terminated), me, o, WORD - 1);
      case SwitchInStep(t) => StateKeeps(s, t, Running);
      case SwitchOutStep(t) => StateKeeps(s, t, Ready);
      case NewThreadStep(t) => NewThreadKeeps(s, t);
      case NewObjectStep(o, kind, signal) => NewObjectKeeps(s, o, kind, signal);
    }
  }

  /** So does every run. */
  lemma {:induction false} RunKeeps(s: Dispatcher, steps: seq<Step>)
    requires Inv(s)
    ensures Inv(Run(s, steps))
    decreases |steps|
  {
    hide Inv, Attempt;
    if steps != [] {
      AttemptKeeps(s, steps[0]);
      RunKeeps(Attempt(s, steps[0]), steps[1..]);
    }
  }

  /**
    An exit signals the thread's object with all ones, which lets everybody go that waits for it, as
    long as there are less than two to the 32 of them.
  */
  lemma ExitLetsGo(s: Dispatcher, me: ThreadId, o: ObjectId)
    requires Inv(s) && Enabled(s, ExitStep(me, o))
    ensures var r := Attempt(s, ExitStep(me, o));
      && Inv(r) && o in r.objects
      && (r.objects[o].waiters == [] <==> |s.objects[o].waiters| <= 0xFFFF_FFFF)
      && (s.objects[o].waiters == [] ==> r.objects[o].signal == (s.objects[o].signal + 0xFFFF_FFFF) % 0x1_0000_0000)
      && (forall e <- s.objects[o].waiters[..ReleasedBy(s, o, 0xFFFF_FFFF)] ::
            e.thread in s.threads && e.thread in r.threads
            && (s.threads[e.thread].active == 1 || s.threads[e.thread].waitType == WaitAny ==> r.threads[e.thread].state == Ready))
  {
    hide Linked, Signal;
    StateKeeps(s, me, Terminated);
    var d := WithState(s, me, Terminated);
    SignalKeeps(d, me, o, 0xFFFF_FFFF);
    SignalConserves(d, me, o, 0xFFFF_FFFF);
    SignalReadies(d, me, o, 0xFFFF_FFFF);
    assert QuietObject(s.objects[o]);
    assert d.objects[o] == s.objects[o] && ReleasedBy(d, o, 0xFFFF_FFFF) == ReleasedBy(s, o, 0xFFFF_FFFF);
    forall e | e in s.objects[o].waiters[..ReleasedBy(s, o, 0xFFFF_FFFF)]
      ensures e.thread in s.threads && d.threads[e.thread].state == Waiting && e.thread != me
    {
      assert e in d.objects[o].waiters[..ReleasedBy(d, o, 0xFFFF_FFFF)];
    }
  }

  /** A state in which nobody waits yet. */
  predicate Initial(s: Dispatcher) {
    && (forall t <- s.threads :: s.threads[t].state != Waiting && s.threads[t].blocks == [] && s.threads[t].active == 0)
    && (forall o <- s.objects :: s.objects[o].waiters == [] && s.objects[o].signal < WORD)
  }

  lemma InitialInvariant(s: Dispatcher)
    requires Initial(s)
    ensures Inv(s)
  {
  }

  // --- the wait block counters

  /** The entries of a thread on the wait lists of all objects. */
  function EntriesOf(s: Dispatcher, t: ThreadId): set<(ObjectId, nat)> {
    set o, e | o in s.objects && e in s.objects[o].waiters && e.thread == t :: (o, e.block)
  }

  function LiveBlocks(blocks: Blocks): set<(ObjectId, nat)> {
    set i | 0 <= i < |blocks| && blocks[i].Some? :: (blocks[i].value, i)
  }

  lemma {:induction false} LiveBlocksCount(blocks: Blocks)
    ensures |LiveBlocks(blocks)| == CountSome(blocks)
    decreases CountSome(blocks)
  {
    CountZero(blocks);
    if CountSome(blocks) == 0 {
      assert LiveBlocks(blocks) == {};
    } else {
      var i :| 0 <= i < |blocks| && blocks[i].Some?;
      var rest := blocks[i := None];
      CountRelease(blocks, i);
      LiveBlocksCount(rest);
      var x := (blocks[i].value, i);
      assert LiveBlocks(blocks) == LiveBlocks(rest) + {x} by {
        forall j | 0 <= j < |blocks| && blocks[j].Some? && j != i
          ensures (blocks[j].value, j) in LiveBlocks(rest)
        {
          assert rest[j] == blocks[j];
        }
      }
      assert x !in LiveBlocks(rest);
    }
  }

  /**
    After every run that starts with nobody waiting, the counter of every thread is the number of
    its blocks that are not released, which is the number of its entries on all wait lists; and a
    thread that does not wait has none.
  */
  lemma CountersExact(s: Dispatcher, steps: seq<Step>, t: ThreadId)
    requires Initial(s) && t in Run(s, steps).threads
    ensures var r := Run(s, steps);
      && r.threads[t].active == CountSome(r.threads[t].blocks) == |EntriesOf(r, t)|
      && (r.threads[t].state != Waiting ==> r.threads[t].active == 0)
  {
    hide Run, Initial, Linked, Exclusive;
    InitialInvariant(s);
    RunKeeps(s, steps);
    var r := Run(s, steps);
    EntriesAreBlocks(r, t);
    LiveBlocksCount(r.threads[t].blocks);
    LinkedParts(r, t);
    assert Quiet(r.threads[t]);
  }

  lemma EntriesAreBlocks(s: Dispatcher, t: ThreadId)
    requires Linked(s) && t in s.threads
    ensures EntriesOf(s, t) == LiveBlocks(s.threads[t].blocks)
  {
  }

  /** After every such run no object is both signalled and waited for. */
  lemma NeverSignalledAndWaitedFor(s: Dispatcher, steps: seq<Step>, o: ObjectId)
    requires Initial(s) && o in Run(s, steps).objects
    ensures var obj := Run(s, steps).objects[o]; obj.signal == 0 || obj.waiters == []
  {
    hide Run, Initial, Linked;
    InitialInvariant(s);
    RunKeeps(s, steps);
    assert QuietObject(Run(s, steps).objects[o]);
  }
}
