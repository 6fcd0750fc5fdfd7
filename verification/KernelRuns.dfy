/**
  Dispatcher and scheduler together.  A thread has one state, which both of them write: a signal
  that ends a wait hands the thread to the scheduler, a wait that blocks takes its core away, and a
  tick switches threads of which the dispatcher only sees the state.  Over every run of the two
  they agree, and so no thread is ever on a wait list and in a ready queue at once.
*/
module KernelRuns {
  import opened Common
  import D = DispatcherModel
  import DL = DispatcherLinks
  import DS = DispatcherSignals
  import DW = DispatcherWaits
  import DR = DispatcherResults
  import DX = DispatcherRuns
  import RQ = ReadyQueues
  import S = SchedulerModel
  import SI = SchedulerInvariant
  import SS = SchedulerSteps
  import SR = SchedulerResults

  // --- waking several threads

  function Wakes(ts: seq<ThreadId>): seq<S.Step> {
    if ts == [] then [] else [S.Wake(ts[0])] + Wakes(ts[1..])
  }

  /** The scheduler after the given threads have been handed to it, in order. */
  ghost function WakeAll(s: S.Sched, ts: seq<ThreadId>): S.Sched {
    SS.Run(s, Wakes(ts))
  }

  /** Those of the threads that have the given priority, in order. */
  function OfPriority(threads: map<ThreadId, S.Thread>, ts: seq<ThreadId>, p: nat): seq<ThreadId> {
    if ts == [] then []
    else (if ts[0] in threads && threads[ts[0]].priority == p then [ts[0]] else []) + OfPriority(threads, ts[1..], p)
  }

  lemma {:induction false} SamePriorities(threads: map<ThreadId, S.Thread>, others: map<ThreadId, S.Thread>, ts: seq<ThreadId>, p: nat)
    requires threads.Keys == others.Keys && forall t <- threads :: threads[t].priority == others[t].priority
    ensures OfPriority(threads, ts, p) == OfPriority(others, ts, p)
  {
    if ts != [] {
      SamePriorities(threads, others, ts[1..], p);
    }
  }

  ghost predicate Woken(s: S.Sched, r: S.Sched, ts: seq<ThreadId>) {
    && r.cores == s.cores && r.quantum == s.quantum && r.threads.Keys == s.threads.Keys
    && (forall t <- s.threads :: r.threads[t] == if t in ts then s.threads[t].(state := Ready) else s.threads[t])
    && (forall p :: 0 <= p < 32 ==> r.shared[p] == s.shared[p] + OfPriority(s.threads, ts, p))
  }

  lemma WakeOne(s: S.Sched, t: ThreadId)
    requires SI.Inv(s) && t in s.threads && s.threads[t].state == Waiting
    ensures var r := SS.Attempt(s, S.Wake(t)); SI.Inv(r) && Woken(s, r, [t])
  {
    hide SI.Inv, SI.InvDuring;
    SS.InvImplies(s);
    SS.AttemptKeeps(s, S.Wake(t));
    hide RQ.Queued;
    assert [t][1..] == [];
    assert forall p :: 0 <= p < 32 ==> OfPriority(s.threads, [t], p) == if s.threads[t].priority == p then [t] else [];
  }

  lemma WokenBoth(s: S.Sched, m: S.Sched, r: S.Sched, t: ThreadId, rest: seq<ThreadId>)
    requires Woken(s, m, [t]) && Woken(m, r, rest)
    ensures Woken(s, r, [t] + rest)
  {
    forall p | 0 <= p < 32
      ensures OfPriority(s.threads, [t] + rest, p) == OfPriority(s.threads, [t], p) + OfPriority(m.threads, rest, p)
    {
      SamePriorities(s.threads, m.threads, rest, p);
      assert ([t] + rest)[1..] == rest && [t][1..] == [];
    }
  }

  /** Each thread is ready afterwards and behind the threads that were ready before it at its priority. */
  lemma {:induction false} WakeAllEffect(s: S.Sched, ts: seq<ThreadId>)
    requires SI.Inv(s) && Distinct(ts)
    requires forall t <- ts :: t in s.threads && s.threads[t].state == Waiting
    ensures SI.Inv(WakeAll(s, ts)) && Woken(s, WakeAll(s, ts), ts)
    decreases |ts|
  {
    hide SI.Inv, SS.Attempt;
    if ts != [] {
      var rest := ts[1..];
      var m := SS.Attempt(s, S.Wake(ts[0]));
      WakeOne(s, ts[0]);
      forall t | t in rest
        ensures t in m.threads && m.threads[t].state == Waiting
      {
        assert t in ts && t != ts[0];
      }
      WakeAllEffect(m, rest);
      assert Wakes(ts)[1..] == Wakes(rest);
      assert [ts[0]] + rest == ts;
      WokenBoth(s, m, WakeAll(m, rest), ts[0], rest);
    }
  }

  // --- one state for each thread

  predicate Agree(d: D.Dispatcher, s: S.Sched) {
    d.threads.Keys == s.threads.Keys && forall t <- d.threads :: d.threads[t].state == s.threads[t].state
  }

  /** They agree on who waits, though perhaps not on who runs. */
  predicate SameWaiting(d: D.Dispatcher, s: S.Sched) {
    && d.threads.Keys == s.threads.Keys
    && forall t <- d.threads :: d.threads[t].state == Waiting <==> s.threads[t].state == Waiting
  }

  datatype System = System(d: D.Dispatcher, s: S.Sched)

  ghost predicate Ok(y: System) {
    DR.Inv(y.d) && SI.Inv(y.s) && Agree(y.d, y.s)
  }

  /** The scheduler has switched threads, and the dispatcher sees their states. */
  function Settled(d: D.Dispatcher, s: S.Sched): System {
    System(d.(threads := map t | t in d.threads ::
      d.threads[t].(state := if t in s.threads then s.threads[t].state else d.threads[t].state)), s)
  }

  lemma SettledOk(d: D.Dispatcher, s: S.Sched)
    requires DR.Inv(d) && SI.Inv(s) && SameWaiting(d, s)
    ensures Ok(Settled(d, s))
  {
    hide SI.Inv, DL.Linked;
    var y := Settled(d, s);
    DL.LinkedSame(d, y.d);
    forall t | t in y.d.threads
      ensures DR.Quiet(y.d.threads[t])
    {
      assert DR.Quiet(d.threads[t]);
    }
  }

  /** The threads that a routine of the dispatcher has handed to the scheduler. */
  function Readied(d: D.Dispatcher, r: D.Dispatcher): seq<ThreadId> {
    if |d.readied| <= |r.readied| then r.readied[|d.readied|..] else []
  }

  /** A routine of the dispatcher has taken `y` to `r`; the threads that it readied go to the ready queues. */
  ghost function Dispatched(y: System, r: D.Dispatcher): System {
    System(r, WakeAll(y.s, Readied(y.d, r)))
  }

  /** The routine turned just the threads that it readied from waiting to ready. */
  predicate ReadiedOnly(d: D.Dispatcher, r: D.Dispatcher, ts: seq<ThreadId>) {
    && r.threads.Keys == d.threads.Keys && r.readied == d.readied + ts && Distinct(ts)
    && (forall t <- ts :: t in d.threads && d.threads[t].state == Waiting)
    && (forall t <- d.threads :: r.threads[t].state == if t in ts then Ready else d.threads[t].state)
  }

  lemma DispatchedOk(y: System, r: D.Dispatcher, ts: seq<ThreadId>)
    requires SI.Inv(y.s) && DR.Inv(r) && SameWaiting(y.d, y.s) && ReadiedOnly(y.d, r, ts)
    ensures var z := Dispatched(y, r); z.d == r && SI.Inv(z.s) && Woken(y.s, z.s, ts) && SameWaiting(z.d, z.s)
    ensures Agree(y.d, y.s) ==> Ok(Dispatched(y, r))
  {
    hide SI.Inv, DR.Inv, WakeAll;
    assert Readied(y.d, r) == ts;
    WakeAllEffect(y.s, ts);
  }

  // --- a signal

  lemma {:induction false} CompletedDistinct(d: D.Dispatcher, entries: seq<D.Entry>)
    requires forall i, j :: 0 <= i < j < |entries| ==> entries[i].thread != entries[j].thread
    ensures Distinct(DS.Completed(d, entries))
    ensures forall t <- DS.Completed(d, entries) :: t in d.threads && D.Completes(d.threads[t]) && DL.Involves(entries, t)
  {
    if entries != [] {
      var rest := entries[1..];
      CompletedDistinct(d, rest);
      assert entries[0] in entries && forall e <- rest :: e in entries;
      var head, tail := DS.Ended(d, entries[0].thread), DS.Completed(d, rest);
      assert forall t <- tail :: t != entries[0].thread;
      assert forall i, j :: 0 <= i < j < |head + tail| ==> (head + tail)[i] != (head + tail)[j];
    }
  }

  lemma {:induction false} CompletedExactly(d: D.Dispatcher, entries: seq<D.Entry>, e: D.Entry)
    requires e in entries && e.thread in d.threads && D.Completes(d.threads[e.thread])
    ensures e.thread in DS.Completed(d, entries)
  {
    if e == entries[0] {
      assert DS.Ended(d, e.thread) == [e.thread];
    } else {
      CompletedExactly(d, entries[1..], e);
    }
  }

  lemma SignalReadiesOnly(d: D.Dispatcher, me: ThreadId, o: D.ObjectId, increment: nat)
    requires DR.Inv(d) && DR.MaySignal(d, me, o)
    ensures DR.Inv(D.Signal(d, me, o, increment))
    ensures ReadiedOnly(d, D.Signal(d, me, o, increment),
                        DS.Completed(d, d.objects[o].waiters[..DR.ReleasedBy(d, o, increment)]))
  {
    hide DL.Linked, D.Signal, DW.Exclusive, DS.Completed;
    DR.SignalKeeps(d, me, o, increment);
    DR.SignalReadies(d, me, o, increment);
    var entries := d.objects[o].waiters[..DR.ReleasedBy(d, o, increment)];
    var ts := DS.Completed(d, entries);
    forall i, j | 0 <= i < j < |entries|
      ensures entries[i].thread != entries[j].thread
    {
      DS.OneEntryEach(d, o, i, j);
    }
    CompletedDistinct(d, entries);
    forall t | t in d.threads
      ensures D.Signal(d, me, o, increment).threads[t].state == if t in ts then Ready else d.threads[t].state
    {
      if DL.Involves(entries, t) {
        var e :| e in entries && e.thread == t;
        if D.Completes(d.threads[t]) {
          CompletedExactly(d, entries, e);
        }
      }
    }
  }

  /**
    The threads whose wait a signal ends are appended to the shared ready queues, by priority and
    in the order in which they waited; no core, no queue of a core and no other thread is touched.
  */
  lemma SignalToQueues(y: System, me: ThreadId, o: D.ObjectId, increment: nat)
    requires Ok(y) && DR.MaySignal(y.d, me, o)
    ensures var r := Dispatched(y, D.Signal(y.d, me, o, increment));
      Ok(r) && Woken(y.s, r.s, DS.Completed(y.d, y.d.objects[o].waiters[..DR.ReleasedBy(y.d, o, increment)]))
  {
    hide DR.Inv, SI.Inv, D.Signal, Dispatched, DS.Completed;
    SignalReadiesOnly(y.d, me, o, increment);
    DispatchedOk(y, D.Signal(y.d, me, o, increment), DS.Completed(y.d, y.d.objects[o].waiters[..DR.ReleasedBy(y.d, o, increment)]));
  }

  // --- a tick

  /** The thread that a tick takes up was not waiting, and one that waits goes on waiting. */
  lemma SwitchWaiting(p: S.Sched, c: nat)
    requires SS.Prepared(p, c)
    ensures p.WellFormed()
    ensures var f := S.SwitchToNext(p, c);
      && f.threads.Keys == p.threads.Keys
      && forall t <- p.threads :: f.threads[t].state == Waiting <==> p.threads[t].state == Waiting
  {
    hide SI.InvDuring, SS.Prepared, SI.IdleThreads, SI.Sorted, SI.Eligible, SI.Conserved, SI.Currents, S.SwitchToNext, SI.Places,
         S.Sched.WellFormed;
    SS.PreparedParts(p, c);
    SI.InvParts(p, c);
    SS.PairFacts(p, c);
    IdleNeverWaits(p, c);
    SS.SwitchFrame(p, c);
  }

  lemma IdleNeverWaits(p: S.Sched, c: nat)
    requires c < |p.cores| && SI.IdleThreads(p)
    ensures p.cores[c].idle in p.threads && p.threads[p.cores[c].idle].state != Waiting
  {
  }

  lemma TickWaiting(s: S.Sched, c: nat)
    requires c < |s.cores| && SI.InvDuring(s, c) && s.WellFormed()
    ensures var f := S.Tick(s, c);
      && f.threads.Keys == s.threads.Keys
      && forall t <- s.threads :: f.threads[t].state == Waiting <==> s.threads[t].state == Waiting
  {
    hide S.Tick, S.Prepare, S.SwitchToNext, SI.InvDuring, SS.Prepared, SI.IdleThreads, SI.Sorted, SI.Eligible, SI.Conserved,
         SI.Currents;
    SI.InvParts(s, c);
    SS.PrepareKeeps(s, c);
    SwitchWaiting(S.Prepare(s, c), c);
    QuantumPositive(s);
    SS.TickStays(s, c);
  }

  lemma QuantumPositive(s: S.Sched)
    requires SI.IdleThreads(s)
    ensures s.quantum > 0
  {
  }

  /** Only the thread that gives up its core starts to wait. */
  lemma LeaveWaiting(s: S.Sched, c: nat, ending: bool)
    requires SI.Inv(s) && c < |s.cores| && s.cores[c].current != s.cores[c].idle
    ensures var f := SS.Attempt(s, if ending then S.Exit(c) else S.Block(c));
      && SI.Inv(f) && f.threads.Keys == s.threads.Keys && s.cores[c].current in s.threads
      && forall t <- s.threads ::
           f.threads[t].state == Waiting <==>
             if t == s.cores[c].current then !ending else s.threads[t].state == Waiting
  {
    hide SI.Inv, SI.InvDuring, S.Tick, S.Sched.WellFormed, SI.IdleThreads, SI.Sorted, SI.Eligible, SI.Conserved, SI.Currents;
    SS.InvImplies(s);
    CurrentRuns(s, c);
    SS.AttemptKeeps(s, if ending then S.Exit(c) else S.Block(c));
    var state := if ending then Terminated else Waiting;
    SS.GivingUpKeeps(s, c, state);
    var g := s.WithState(s.cores[c].current, state);
    SI.InvParts(g, c);
    TickWaiting(g, c);
  }

  lemma CurrentRuns(s: S.Sched, c: nat)
    requires SI.Inv(s) && c < |s.cores|
    ensures s.cores[c].current in s.threads && s.threads[s.cores[c].current].state != Waiting
    ensures s.cores[c].current != s.cores[c].idle ==> s.threads[s.cores[c].current].state == Running
  {
    hide SI.Sorted, SI.Eligible, SI.Conserved;
  }

  // --- runs of both

  /** What happens on a core happens to, or is done by, its current thread. */
  datatype Event =
    | Tick(c: nat)
    | WaitFor(c: nat, ids: seq<D.ObjectId>, waitType: D.WaitType, ownArray: bool, poll: bool)
    | Signal(c: nat, o: D.ObjectId, increment: nat)
    | EndWait(c: nat, t: ThreadId, status: int)
    | Exit(c: nat, o: D.ObjectId)
    | NewThread(t: ThreadId, priority: nat, affinity: nat, quantumReset: nat)
    | NewObject(o: D.ObjectId, kind: D.Kind, signal: nat)
    | NewCore(t: ThreadId, quantumReset: nat)
    | SetMask(c: nat, mask: nat)

  ghost predicate Possible(y: System, e: Event) {
    match e
    case Tick(c) => c < |y.s.cores|
    case WaitFor(c, ids, waitType, _, _) =>
      && c < |y.s.cores| && y.s.cores[c].current != y.s.cores[c].idle
      && DW.MayCall(y.d, y.s.cores[c].current, ids) && ids != [] && !DR.Hangs(y.d, ids, waitType)
    case Signal(c, o, _) => c < |y.s.cores| && DR.MaySignal(y.d, y.s.cores[c].current, o)
    case EndWait(c, t, _) => c < |y.s.cores| && t in y.d.threads && y.d.threads[t].state == Waiting
    case Exit(c, o) =>
      c < |y.s.cores| && y.s.cores[c].current != y.s.cores[c].idle && DR.MaySignal(y.d, y.s.cores[c].current, o)
    case NewThread(t, priority, _, _) => t !in y.s.threads && priority < 32
    case NewObject(o, _, signal) => o !in y.d.objects && signal < D.WORD
    case NewCore(t, _) => t !in y.s.threads && |y.s.cores| < 64
    case SetMask(c, _) => c < |y.s.cores| && y.s.cores[c].current != y.s.cores[c].idle
  }

  ghost function Waited(y: System, c: nat, ids: seq<D.ObjectId>, waitType: D.WaitType, ownArray: bool, poll: bool): System
    requires c < |y.s.cores| && y.s.cores[c].current in y.d.threads
  {
    var (r, result) := D.Wait(y.d, y.s.cores[c].current, ids, waitType, ownArray, poll);
    if result.Blocked? then Settled(r, SS.Attempt(y.s, S.Block(c))) else System(r, y.s)
  }

  ghost function Exited(y: System, c: nat, o: D.ObjectId): System
    requires c < |y.s.cores| && y.s.cores[c].current in y.d.threads && o in y.d.objects
  {
    var me := y.s.cores[c].current;
    var ended := DX.WithState(y.d, me, Terminated);
    var z := Dispatched(System(ended, y.s), D.Signal(ended, me, o, D.WORD - 1));
    Settled(z.d, SS.Attempt(z.s, S.Exit(c)))
  }

  /** An event that is not possible when its turn comes does not happen. */
  ghost function After(y: System, e: Event): System {
    if !Possible(y, e) then y
    else match e
      case Tick(c) => Settled(y.d, SS.Attempt(y.s, S.Clock(c)))
      case WaitFor(c, ids, waitType, ownArray, poll) => Waited(y, c, ids, waitType, ownArray, poll)
      case Signal(c, o, increment) => Dispatched(y, D.Signal(y.d, y.s.cores[c].current, o, increment))
      case EndWait(c, t, status) => Dispatched(y, D.UnwaitThread(y.d, y.s.cores[c].current, t, status))
      case Exit(c, o) => Exited(y, c, o)
      case NewThread(t, priority, affinity, quantumReset) =>
        System(y.d.WithThread(t, D.Thread(Ready, D.WaitAll, [], 0, 0)),
               SS.Attempt(y.s, S.Create(t, S.Thread(Ready, priority, affinity, quantumReset))))
      case NewObject(o, kind, signal) => y.(d := y.d.WithObject(o, D.Object(kind, signal, [], None, 0)))
      case NewCore(t, quantumReset) =>
        System(y.d.WithThread(t, D.Thread(Running, D.WaitAll, [], 0, 0)), SS.Attempt(y.s, S.StartCore(t, quantumReset)))
      case SetMask(c, mask) => y.(s := SS.Attempt(y.s, S.SetAffinity(c, mask)))
  }

  ghost function Run(y: System, events: seq<Event>): System
    decreases |events|
  {
    if events == [] then y else Run(After(y, events[0]), events[1..])
  }

  lemma TickOk(y: System, c: nat)
    requires Ok(y) && c < |y.s.cores|
    ensures Ok(Settled(y.d, SS.Attempt(y.s, S.Clock(c))))
  {
    hide DR.Inv, SI.Inv, SI.InvDuring, S.Tick, S.Sched.WellFormed, Settled;
    SS.InvImplies(y.s);
    SS.NobodyLeaving(y.s, c);
    SS.AttemptKeeps(y.s, S.Clock(c));
    TickWaiting(y.s, c);
    SettledOk(y.d, SS.Attempt(y.s, S.Clock(c)));
  }

  lemma WaitedOk(y: System, c: nat, ids: seq<D.ObjectId>, waitType: D.WaitType, ownArray: bool, poll: bool)
    requires Ok(y) && Possible(y, WaitFor(c, ids, waitType, ownArray, poll))
    ensures Ok(Waited(y, c, ids, waitType, ownArray, poll))
  {
    hide DL.Linked, DW.Exclusive, SI.Inv, D.Wait, DR.Hangs, DW.ObjectsAfterWait, Settled, SS.Attempt;
    var me := y.s.cores[c].current;
    DR.WaitKeeps(y.d, me, ids, waitType, ownArray, poll);
    LeaveWaiting(y.s, c, false);
    if |ids| > D.THREAD_WAIT_OBJECTS && !ownArray {
      DR.WaitRejected(y.d, me, ids, waitType, ownArray, poll);
    } else {
      DR.WaitEnds(y.d, me, ids, waitType, ownArray, poll);
      if D.Wait(y.d, me, ids, waitType, ownArray, poll).1.Blocked? {
        SettledOk(D.Wait(y.d, me, ids, waitType, ownArray, poll).0, SS.Attempt(y.s, S.Block(c)));
      }
    }
  }

  lemma EndWaitOk(y: System, c: nat, t: ThreadId, status: int)
    requires c < |y.s.cores| && t in y.d.threads && y.d.threads[t].state == Waiting
    requires Ok(y)
    ensures Ok(Dispatched(y, D.UnwaitThread(y.d, y.s.cores[c].current, t, status)))
  {
    hide DL.Linked, DW.Exclusive, SI.Inv, D.UnwaitThread, Dispatched, DL.AllCleared;
    var me := y.s.cores[c].current;
    CurrentRuns(y.s, c);
    DX.UnwaitKeeps(y.d, me, t, status);
    DL.UnwaitThreadEffect(y.d, me, t, status);
    DispatchedOk(y, D.UnwaitThread(y.d, me, t, status), [t]);
  }

  lemma ExitedOk(y: System, c: nat, o: D.ObjectId)
    requires c < |y.s.cores| && y.s.cores[c].current != y.s.cores[c].idle && DR.MaySignal(y.d, y.s.cores[c].current, o)
    requires Ok(y)
    ensures Ok(Exited(y, c, o))
  {
    hide DR.Inv, SI.Inv, D.Signal, Dispatched, DS.Completed, Settled, SS.Attempt, DR.ReleasedBy;
    var me := y.s.cores[c].current;
    CurrentRuns(y.s, c);
    DX.StateKeeps(y.d, me, Terminated);
    var ended := DX.WithState(y.d, me, Terminated);
    SignalReadiesOnly(ended, me, o, D.WORD - 1);
    var ts := DS.Completed(ended, ended.objects[o].waiters[..DR.ReleasedBy(ended, o, D.WORD - 1)]);
    var z := Dispatched(System(ended, y.s), D.Signal(ended, me, o, D.WORD - 1));
    DispatchedOk(System(ended, y.s), D.Signal(ended, me, o, D.WORD - 1), ts);
    LeaveWaiting(z.s, c, true);
    SettledOk(z.d, SS.Attempt(z.s, S.Exit(c)));
  }

  /** Nobody is left waiting for a thread that has exited, unless two to the 32 waited. */
  lemma ExitedLetsGo(y: System, c: nat, o: D.ObjectId)
    requires c < |y.s.cores| && y.s.cores[c].current != y.s.cores[c].idle && DR.MaySignal(y.d, y.s.cores[c].current, o)
    requires Ok(y)
    ensures var r := Exited(y, c, o);
      o in r.d.objects && (r.d.objects[o].waiters == [] <==> |y.d.objects[o].waiters| <= 0xFFFF_FFFF)
  {
    hide DR.Inv, SI.Inv, D.Signal, WakeAll, Readied, SS.Attempt;
    CurrentRuns(y.s, c);
    DX.ExitLetsGo(y.d, y.s.cores[c].current, o);
  }

  lemma NewThreadOk(y: System, t: ThreadId, info: S.Thread)
    requires Ok(y) && t !in y.s.threads && info.priority < 32 && info.state == Ready
    ensures Ok(System(y.d.WithThread(t, D.Thread(Ready, D.WaitAll, [], 0, 0)), SS.Attempt(y.s, S.Create(t, info))))
  {
    hide DR.Inv, SI.Inv, SI.InvDuring, S.Sched.WellFormed;
    SS.InvImplies(y.s);
    DX.NewThreadKeeps(y.d, t);
    SS.AttemptKeeps(y.s, S.Create(t, info));
  }

  lemma NewCoreOk(y: System, t: ThreadId, quantumReset: nat)
    requires Ok(y) && t !in y.s.threads && |y.s.cores| < 64
    ensures Ok(System(y.d.WithThread(t, D.Thread(Running, D.WaitAll, [], 0, 0)), SS.Attempt(y.s, S.StartCore(t, quantumReset))))
  {
    hide DR.Inv, SI.Inv, SI.InvDuring, S.Sched.WellFormed;
    SS.InvImplies(y.s);
    DX.NewThreadKeeps(y.d, t);
    var ready, running := D.Thread(Ready, D.WaitAll, [], 0, 0), D.Thread(Running, D.WaitAll, [], 0, 0);
    assert y.d.threads[t := ready][t := running] == y.d.threads[t := running];
    DX.StateKeeps(y.d.WithThread(t, ready), t, Running);
    SS.AttemptKeeps(y.s, S.StartCore(t, quantumReset));
  }

  lemma SetMaskOk(y: System, c: nat, mask: nat)
    requires Ok(y) && c < |y.s.cores|
    ensures Ok(y.(s := SS.Attempt(y.s, S.SetAffinity(c, mask))))
  {
    hide DR.Inv, SI.Inv, SI.InvDuring, S.Sched.WellFormed;
    CurrentRuns(y.s, c);
    SS.AttemptKeeps(y.s, S.SetAffinity(c, mask));
  }

  lemma AfterOk(y: System, e: Event)
    requires Ok(y)
    ensures Ok(After(y, e))
  {
    hide Ok, SS.Attempt, D.Signal, D.UnwaitThread, Dispatched, Settled, Waited, Exited;
    OkParts(y);
    if Possible(y, e) {
      match e
      case Tick(c) => TickOk(y, c);
      case WaitFor(c, ids, waitType, ownArray, poll) => WaitedOk(y, c, ids, waitType, ownArray, poll);
      case Signal(c, o, increment) => SignalToQueues(y, y.s.cores[c].current, o, increment);
      case EndWait(c, t, status) => EndWaitOk(y, c, t, status);
      case Exit(c, o) => ExitedOk(y, c, o);
      case NewThread(t, priority, affinity, quantumReset) =>
        NewThreadOk(y, t, S.Thread(Ready, priority, affinity, quantumReset));
      case NewObject(o, kind, signal) => NewObjectOk(y, o, kind, signal);
      case NewCore(t, quantumReset) => NewCoreOk(y, t, quantumReset);
      case SetMask(c, mask) => SetMaskOk(y, c, mask);
    }
  }

  lemma OkParts(y: System)
    ensures Ok(y) <==> DR.Inv(y.d) && SI.Inv(y.s) && Agree(y.d, y.s)
  {
  }

  lemma NewObjectOk(y: System, o: D.ObjectId, kind: D.Kind, signal: nat)
    requires Ok(y) && o !in y.d.objects && signal < D.WORD
    ensures Ok(y.(d := y.d.WithObject(o, D.Object(kind, signal, [], None, 0))))
  {
    hide DR.Inv, SI.Inv;
    DX.NewObjectKeeps(y.d, o, kind, signal);
  }

  /** Both invariants, and that the two agree on the state of every thread, over every run. */
  lemma {:induction false} RunOk(y: System, events: seq<Event>)
    requires Ok(y)
    ensures Ok(Run(y, events))
    decreases |events|
  {
    hide Ok, After;
    if events != [] {
      AfterOk(y, events[0]);
      RunOk(After(y, events[0]), events[1..]);
    }
  }

  // --- from power-on

  function PowerOn(quantum: nat): System {
    System(D.Dispatcher(map[], map[], []), SR.PowerOn(quantum))
  }

  lemma PowerOnOk(quantum: nat)
    requires quantum > 0
    ensures Ok(PowerOn(quantum))
  {
    hide SI.Inv;
    SR.PowerOnInvariant(quantum, []);
    assert SS.Run(SR.PowerOn(quantum), []) == SR.PowerOn(quantum);
  }

  /** A thread is on a wait list. */
  predicate OnWaitList(d: D.Dispatcher, t: ThreadId) {
    exists o <- d.objects :: DL.Involves(d.objects[o].waiters, t)
  }

  /**
    Over every run from power-on a thread that is no idle thread is ready in just one place of one
    queue or slot, or current on just one core, or neither; and while it is on any wait list it is
    in no queue and no slot and current nowhere.
  */
  lemma NeverWaitingAndQueued(quantum: nat, events: seq<Event>, t: ThreadId)
    requires quantum > 0
    ensures var y := Run(PowerOn(quantum), events);
      t in y.s.threads && !y.s.IsIdle(t) ==>
        && ((exists place :: SR.At(y.s, place, t)) <==> y.s.threads[t].state == Ready)
        && (forall a, b :: SR.At(y.s, a, t) && SR.At(y.s, b, t) ==> a == b)
        && ((exists c :: 0 <= c < |y.s.cores| && y.s.cores[c].current == t) <==> y.s.threads[t].state == Running)
        && (OnWaitList(y.d, t) ==> y.s.threads[t].state == Waiting)
  {
    hide SI.Inv, Run, DW.Exclusive, DL.Linked;
    PowerOnOk(quantum);
    RunOk(PowerOn(quantum), events);
    var y := Run(PowerOn(quantum), events);
    if t in y.s.threads && !y.s.IsIdle(t) {
      assert SS.Run(y.s, []) == y.s;
      SR.ReadyInExactlyOnePlace(y.s, [], t);
      SR.RunningOnExactlyOneCore(y.s, [], t);
      if OnWaitList(y.d, t) && y.d.threads[t].state != Waiting {
        var o :| o in y.d.objects && DL.Involves(y.d.objects[o].waiters, t);
        DW.NoBlocksNoEntries(y.d, t, o);
      }
    }
  }
}
