/**
  The thread scheduler as a state machine over values: threads, one set of ready queues
  shared by all cores, and per core its own ready queues, its current thread, the look-ahead
  slot `next`, its idle thread and what is left of the quantum.  The summary words, the loops
  and the in-place updates of the kernel are in the class that refines this model.

  A step is everything done under one hold of the dispatcher lock.  Giving up the processor
  (a wait, an exit) is one step together with the clock tick it forces.
*/
module SchedulerModel {
  import opened BitWords
  import opened Common
  import opened ReadyQueues

  /** `priority` is the total of thread and process priority; `affinity` is a 64-bit mask. */
  datatype Thread = Thread(state: ThreadState, priority: nat, affinity: nat, quantumReset: nat)

  datatype Core = Core(queues: Queues, current: ThreadId, next: ThreadId, idle: ThreadId, cyclesLeft: int)

  datatype Sched = Sched(threads: map<ThreadId, Thread>, shared: Queues, cores: seq<Core>, quantum: nat)
  {
    predicate IsIdle(t: ThreadId) {
      exists c :: 0 <= c < |cores| && cores[c].idle == t
    }

    /** The threads whose affinity admits core `c`. */
    function Allowed(c: nat): set<ThreadId> {
      set t | t in threads && Bit(threads[t].affinity, c)
    }

    /** Every thread named anywhere exists, and its priority names a queue. */
    ghost predicate WellFormed() {
      && (forall c :: 0 <= c < |cores| ==>
            && cores[c].current in threads && cores[c].next in threads && cores[c].idle in threads
            && forall t :: t in Queued(cores[c].queues) ==> t in threads)
      && (forall t :: t in Queued(shared) ==> t in threads)
      && (forall t :: t in threads ==> threads[t].priority < 32)
    }

    function WithState(t: ThreadId, state: ThreadState): Sched
      requires t in threads
    {
      this.(threads := threads[t := threads[t].(state := state)])
    }

    function WithCore(c: nat, core: Core): Sched
      requires c < |cores|
    {
      this.(cores := cores[c := core])
    }

    function Enqueue(t: ThreadId): Sched
      requires t in threads && threads[t].priority < 32
    {
      this.(shared := Append(shared, threads[t].priority, t))
    }
  }

  /**
    Moves at most one thread from the shared queues to the core's own: the first thread the
    core may run of the highest priority that has one, unless the core already has a thread
    of the highest priority shared.
  */
  function Migrate(s: Sched, c: nat): Sched
    requires c < |s.cores|
  {
    var core := s.cores[c];
    var top := Top(s.shared);
    if top == -1 || core.queues[top] != [] then s
    else
      var p := TopAllowed(s.shared, s.Allowed(c));
      if p == -1 then s
      else
        var i := FirstAllowed(s.shared[p], s.Allowed(c));
        var t := s.shared[p][i];
        s.(shared := Remove(s.shared, p, i))
         .WithCore(c, core.(queues := Append(core.queues, p, t)))
  }

  datatype Pick = Pick(after: Sched, thread: ThreadId, fromQueue: bool)

  /** Chooses the next thread for a core: the head of its highest queue, else its idle thread. */
  function Select(s: Sched, c: nat): Pick
    requires c < |s.cores|
  {
    var m := Migrate(s, c);
    var core := m.cores[c];
    var p := Top(core.queues);
    if p == -1 then Pick(m, core.idle, false)
    else Pick(m.WithCore(c, core.(queues := Remove(core.queues, p, 0))), core.queues[p][0], true)
  }

  function FillNext(s: Sched, c: nat): Sched
    requires c < |s.cores|
  {
    var pick := Select(s, c);
    pick.after.WithCore(c, pick.after.cores[c].(next := pick.thread))
  }

  /** The selection keeps everything but the queues. */
  lemma FillNextFrame(s: Sched, c: nat)
    requires c < |s.cores|
    ensures var f := FillNext(s, c);
            && f.threads == s.threads && f.quantum == s.quantum && |f.cores| == |s.cores|
            && f.cores[c].current == s.cores[c].current && f.cores[c].idle == s.cores[c].idle
            && f.cores[c].cyclesLeft == s.cores[c].cyclesLeft
            && (forall d :: 0 <= d < |s.cores| && d != c ==> f.cores[d] == s.cores[d])
  {}

  /** The thread in the slot starts running with a full quantum. */
  function Granted(s: Sched, c: nat): Sched
    requires c < |s.cores| && s.cores[c].next in s.threads
  {
    var core := s.cores[c];
    var reset := core.(cyclesLeft := s.threads[core.next].quantumReset * s.quantum);
    s.WithCore(c, reset).WithState(core.next, Running)
  }

  /** The slot is filled anew, before the previous thread is queued, and its old content becomes current. */
  function Switched(s: Sched, c: nat): Sched
    requires c < |s.cores| && s.cores[c].next in s.threads
  {
    var filled := FillNext(Granted(s, c), c);
    filled.WithCore(c, filled.cores[c].(current := s.cores[c].next))
  }

  function Requeue(s: Sched, t: ThreadId): Sched
    requires t in s.threads && s.threads[t].priority < 32
  {
    if s.threads[t].state == Running then s.Enqueue(t).WithState(t, Ready) else s
  }

  /** Gives core `c` to the thread in its look-ahead slot, and queues the thread that still could run. */
  function SwitchToNext(s: Sched, c: nat): Sched
    requires c < |s.cores| && s.WellFormed()
  {
    Requeue(Switched(s, c), s.cores[c].current)
  }

  predicate MayNotPreempt(s: Sched, c: nat)
    requires c < |s.cores|
    requires s.cores[c].current in s.threads && s.cores[c].next in s.threads
  {
    var core := s.cores[c];
    && s.threads[core.current].state == Running
    && ((core.next == core.idle && core.current != core.idle)
        || s.threads[core.current].priority > s.threads[core.next].priority)
  }

  /** A thread that gave up the processor has no quantum left. */
  function Zeroed(s: Sched, c: nat): Sched
    requires c < |s.cores| && s.cores[c].current in s.threads
  {
    var core := s.cores[c];
    if s.threads[core.current].state != Running then s.WithCore(c, core.(cyclesLeft := 0)) else s
  }

  /** The first part of a tick: the look-ahead slot is filled if it is empty. */
  function Prepare(s: Sched, c: nat): Sched
    requires c < |s.cores| && s.WellFormed()
  {
    var core := s.cores[c];
    if core.next == core.idle || s.threads[core.next].state != Ready
    then FillNext(Zeroed(s, c), c) else Zeroed(s, c)
  }

  /** The second part of a tick: reset the quantum, switch, or count down. */
  function Decide(p: Sched, c: nat): Sched
    requires c < |p.cores| && p.WellFormed()
  {
    var core := p.cores[c];
    if core.cyclesLeft < p.quantum || p.threads[core.current].state == Terminated then
      if MayNotPreempt(p, c) then
        p.WithCore(c, core.(cyclesLeft := p.threads[core.current].quantumReset * p.quantum))
      else
        SwitchToNext(p, c)
    else
      var left := core.cyclesLeft - p.quantum;
      p.WithCore(c, core.(cyclesLeft := if left < 0 then 0 else left))
  }

  /** A clock tick on core `c` that is not cut short. */
  function Tick(s: Sched, c: nat): Sched
    requires c < |s.cores| && s.WellFormed()
  {
    PrepareWellFormed(s, c);
    Decide(Prepare(s, c), c)
  }

  lemma MigrateMembers(s: Sched, c: nat)
    requires c < |s.cores|
    ensures var m := Migrate(s, c);
            Queued(m.shared) + Queued(m.cores[c].queues) == Queued(s.shared) + Queued(s.cores[c].queues)
  {
    var core := s.cores[c];
    var p := TopAllowed(s.shared, s.Allowed(c));
    if Migrate(s, c) != s {
      var i := FirstAllowed(s.shared[p], s.Allowed(c));
      RemoveTakesOne(s.shared, p, i);
      AppendAddsOne(core.queues, p, s.shared[p][i]);
    }
  }

  /** What a selection takes out of the queues is what it returns. */
  lemma SelectMembers(s: Sched, c: nat)
    requires c < |s.cores|
    ensures var pick := Select(s, c);
            Queued(pick.after.shared) + Queued(pick.after.cores[c].queues)
            + (if pick.fromQueue then multiset{pick.thread} else multiset{})
            == Queued(s.shared) + Queued(s.cores[c].queues)
    ensures !Select(s, c).fromQueue ==> Queued(Select(s, c).after.cores[c].queues) == multiset{}
  {
    MigrateMembers(s, c);
    var m := Migrate(s, c);
    var p := Top(m.cores[c].queues);
    if p == -1 {
      NothingQueued(m.cores[c].queues);
    } else {
      RemoveTakesOne(m.cores[c].queues, p, 0);
    }
  }

  lemma FallbackIsIdle(s: Sched, c: nat)
    requires c < |s.cores|
    ensures !Select(s, c).fromQueue ==> Select(s, c).thread == s.cores[c].idle
    ensures FillNext(s, c).cores[c].next == Select(s, c).thread
    ensures Queued(FillNext(s, c).cores[c].queues) == Queued(Select(s, c).after.cores[c].queues)
    ensures FillNext(s, c).shared == Select(s, c).after.shared
  {}

  /** Whatever a selection returns or leaves queued existed before. */
  lemma SelectKnown(s: Sched, c: nat, t: ThreadId)
    requires c < |s.cores| && s.WellFormed()
    requires var pick := Select(s, c);
             t in Queued(pick.after.shared) || t in Queued(pick.after.cores[c].queues)
             || (pick.fromQueue && t == pick.thread)
    ensures t in s.threads
  {
    var pick := Select(s, c);
    assert |pick.after.cores| == |s.cores|;
    hide Select;
    SelectMembers(s, c);
    var taken := if pick.fromQueue then multiset{pick.thread} else multiset{};
    assert t in Queued(pick.after.shared) + Queued(pick.after.cores[c].queues) + taken;
    assert t in Queued(s.shared) + Queued(s.cores[c].queues);
  }

  lemma FillNextWellFormed(s: Sched, c: nat)
    requires c < |s.cores| && s.WellFormed()
    ensures FillNext(s, c).WellFormed()
  {
    var f := FillNext(s, c);
    FillNextFrame(s, c);
    FallbackIsIdle(s, c);
    hide Select, FillNext;
    forall t | t in Queued(f.shared) || t in Queued(f.cores[c].queues)
      ensures t in s.threads
    {
      SelectKnown(s, c, t);
    }
    if Select(s, c).fromQueue {
      SelectKnown(s, c, Select(s, c).thread);
    }
  }

  lemma PrepareWellFormed(s: Sched, c: nat)
    requires c < |s.cores| && s.WellFormed()
    ensures Prepare(s, c).WellFormed() && |Prepare(s, c).cores| == |s.cores|
  {
    assert Zeroed(s, c).WellFormed();
    FillNextWellFormed(Zeroed(s, c), c);
    FillNextFrame(Zeroed(s, c), c);
  }

  // --- steps

  datatype Step =
    | Clock(core: nat)                       // a tick
    | ShortTick(core: nat)                   // a tick cut short by a high IRQL or nested interrupt
    | Block(core: nat)                       // the current thread starts waiting
    | Exit(core: nat)                        // the current thread ends
    | Wake(thread: ThreadId)                 // a wait is over
    | Create(thread: ThreadId, info: Thread) // a thread is created and queued
    | SetAffinity(core: nat, mask: nat)      // the current thread changes its own mask
    | StartCore(idle: ThreadId, quantumReset: nat) // one more core comes up

  /**
    When a step can happen.  The idle thread neither waits nor exits, nor leaves its core.  The
    tick that a change of the mask forces is a step of its own.
  */
  ghost predicate Enabled(s: Sched, step: Step) {
    match step
    case Clock(c) => c < |s.cores|
    case ShortTick(c) => c < |s.cores|
    case Block(c) => c < |s.cores| && s.cores[c].current != s.cores[c].idle
    case Exit(c) => c < |s.cores| && s.cores[c].current != s.cores[c].idle
    case Wake(t) => t in s.threads && s.threads[t].state == Waiting
    case Create(t, info) => t !in s.threads && info.priority < 32
    case SetAffinity(c, _) => c < |s.cores| && s.cores[c].current != s.cores[c].idle
    case StartCore(t, _) => t !in s.threads && |s.cores| < 64
  }

  /** The current thread of a core gets another mask. */
  function Rebound(s: Sched, c: nat, mask: nat): Sched
    requires c < |s.cores| && s.cores[c].current in s.threads
  {
    var t := s.cores[c].current;
    s.(threads := s.threads[t := s.threads[t].(affinity := mask)])
  }

  /** A core comes up with empty queues, running its idle thread, which no other core may run. */
  function Started(s: Sched, t: ThreadId, quantumReset: nat): Sched {
    s.(threads := s.threads[t := Thread(Running, 0, Pow2(|s.cores|), quantumReset)],
       cores := s.cores + [Core(NoQueues(), t, t, t, 3 * s.quantum)])
  }

  function Leave(s: Sched, c: nat, state: ThreadState): Sched
    requires c < |s.cores| && s.WellFormed()
  {
    Tick(s.WithState(s.cores[c].current, state), c)
  }

  ghost function After(s: Sched, step: Step): Sched
    requires s.WellFormed() && Enabled(s, step)
  {
    match step
    case Clock(c) => Tick(s, c)
    case ShortTick(_) => s
    case Block(c) => Leave(s, c, Waiting)
    case Exit(c) => Leave(s, c, Terminated)
    case Wake(t) => s.WithState(t, Ready).Enqueue(t)
    case Create(t, info) => s.(threads := s.threads[t := info.(state := Ready)]).Enqueue(t)
    case SetAffinity(c, mask) => Rebound(s, c, mask)
    case StartCore(t, quantumReset) => Started(s, t, quantumReset)
  }
}
