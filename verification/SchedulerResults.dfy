/**
  What the invariant means for the users of the scheduler: where each thread is, which thread
  is chosen next, and how long a thread in the look-ahead slot can be kept waiting.
*/
module SchedulerResults {
  import opened Common
  import opened ReadyQueues
  import opened SchedulerModel
  import opened SchedulerInvariant
  import opened SchedulerSteps

  // --- where a thread is

  datatype Place = InShared(p: nat, i: nat) | InCore(c: nat, p: nat, i: nat) | InSlot(c: nat)

  ghost predicate At(s: Sched, place: Place, t: ThreadId) {
    match place
    case InShared(p, i) => p < 32 && i < |s.shared[p]| && s.shared[p][i] == t
    case InCore(c, p, i) =>
      c < |s.cores| && p < 32 && i < |s.cores[c].queues[p]| && s.cores[c].queues[p][i] == t
    case InSlot(c) => c < |s.cores| && s.cores[c].next == t != s.cores[c].idle
  }

  lemma TwicePlaced(q: Queues, p: nat, i: nat, p': nat, i': nat, t: ThreadId)
    requires p < 32 && i < |q[p]| && q[p][i] == t
    requires p' < 32 && i' < |q[p']| && q[p'][i'] == t
    requires p != p' || i != i'
    ensures Queued(q)[t] >= 2
  {
    RemoveTakesOne(q, p, i);
    var r := Remove(q, p, i);
    assert t in r[p'] by {
      if p == p' {
        assert r[p][if i' < i then i' else i' - 1] == t;
      }
    }
    QueuedMember(r, p', t);
    assert (Queued(r) + multiset{t})[t] == Queued(q)[t];
  }

  lemma {:induction false} TwoCores(cores: seq<Core>, c: nat, d: nat, t: ThreadId)
    requires c < d < |cores|
    ensures Held(cores[c], t) + Held(cores[d], t) <= HeldByAll(cores, t)
  {
    if c == 0 {
      HeldBound(cores[1..], d - 1, t);
    } else {
      TwoCores(cores[1..], c - 1, d - 1, t);
    }
  }

  lemma PlaceCounts(s: Sched, place: Place, t: ThreadId)
    requires At(s, place, t)
    ensures Places(s, t) >= 1
  {
    match place {
      case InShared(p, i) => QueuedMember(s.shared, p, t);
      case InCore(c, p, i) =>
        QueuedMember(s.cores[c].queues, p, t);
        HeldBound(s.cores, c, t);
      case InSlot(c) => HeldBound(s.cores, c, t);
    }
  }

  lemma TwoPlacesCount(s: Sched, a: Place, b: Place, t: ThreadId)
    requires At(s, a, t) && At(s, b, t) && a != b
    ensures Places(s, t) >= 2
  {
    match (a, b) {
      case (InShared(p, i), InShared(p', i')) => TwicePlaced(s.shared, p, i, p', i', t);
      case (InShared(p, i), _) => SharedAndCore(s, p, i, b, t);
      case (_, InShared(p, i)) => SharedAndCore(s, p, i, a, t);
      case (_, _) =>
        if a.c == b.c {
          SameCoreTwice(s, a, b, t);
        } else {
          HeldAt(s, a, t);
          HeldAt(s, b, t);
          TwoCores(s.cores, if a.c < b.c then a.c else b.c, if a.c < b.c then b.c else a.c, t);
        }
    }
  }

  lemma HeldAt(s: Sched, a: Place, t: ThreadId)
    requires At(s, a, t) && !a.InShared?
    ensures Held(s.cores[a.c], t) >= 1
  {
    if a.InCore? {
      QueuedMember(s.cores[a.c].queues, a.p, t);
    }
  }

  lemma SharedAndCore(s: Sched, p: nat, i: nat, b: Place, t: ThreadId)
    requires At(s, InShared(p, i), t) && At(s, b, t) && !b.InShared?
    ensures Places(s, t) >= 2
  {
    QueuedMember(s.shared, p, t);
    HeldAt(s, b, t);
    HeldBound(s.cores, b.c, t);
  }

  lemma SameCoreTwice(s: Sched, a: Place, b: Place, t: ThreadId)
    requires At(s, a, t) && At(s, b, t) && a != b && !a.InShared? && !b.InShared? && a.c == b.c
    ensures Places(s, t) >= 2
  {
    HeldBound(s.cores, a.c, t);
    if a.InCore? && b.InCore? {
      TwicePlaced(s.cores[a.c].queues, a.p, a.i, b.p, b.i, t);
    } else if a.InCore? {
      QueuedMember(s.cores[a.c].queues, a.p, t);
    } else {
      QueuedMember(s.cores[b.c].queues, b.p, t);
    }
  }

  lemma SomePlace(s: Sched, t: ThreadId) returns (place: Place)
    requires Places(s, t) >= 1
    ensures At(s, place, t)
  {
    if t in Queued(s.shared) {
      var p := QueuedWhere(s.shared, t);
      var i :| 0 <= i < |s.shared[p]| && s.shared[p][i] == t;
      place := InShared(p, i);
    } else {
      var c := HeldWhere(s.cores, t);
      if Slot(s.cores[c], t) > 0 {
        place := InSlot(c);
      } else {
        var p := QueuedWhere(s.cores[c].queues, t);
        var i :| 0 <= i < |s.cores[c].queues[p]| && s.cores[c].queues[p][i] == t;
        place := InCore(c, p, i);
      }
    }
  }

  /** A thread is ready exactly when it waits somewhere for a processor, and then in one place only. */
  lemma ReadyInExactlyOnePlace(s: Sched, steps: seq<Step>, t: ThreadId)
    requires Inv(s)
    requires var r := Run(s, steps); t in r.threads && !r.IsIdle(t)
    ensures var r := Run(s, steps);
            && (r.threads[t].state == Ready <==> exists place :: At(r, place, t))
            && (forall a, b :: At(r, a, t) && At(r, b, t) ==> a == b)
  {
    RunKeeps(s, steps);
    var r := Run(s, steps);
    OnePlace(r, t);
    if r.threads[t].state == Ready {
      var place := SomePlace(r, t);
    }
    forall place | At(r, place, t)
      ensures r.threads[t].state == Ready
    {
      PlaceCounts(r, place, t);
    }
  }

  lemma OnePlace(s: Sched, t: ThreadId)
    requires t in s.threads && Conserved(s)
    ensures forall a, b :: At(s, a, t) && At(s, b, t) ==> a == b
  {
    forall a, b | At(s, a, t) && At(s, b, t)
      ensures a == b
    {
      if a != b {
        TwoPlacesCount(s, a, b, t);
      }
    }
  }

  lemma AtHome(r: Sched, c: nat)
    requires Inv(r) && c < |r.cores|
    ensures var t := r.cores[c].idle;
      && (forall a, b :: At(r, a, t) && At(r, b, t) ==> a == b)
      && (forall d, p, i :: At(r, InCore(d, p, i), t) ==> d == c)
      && (forall d :: 0 <= d < |r.cores| && (r.cores[d].current == t || r.cores[d].next == t) ==> d == c)
  {
    hide Queued;
    var t := r.cores[c].idle;
    OnePlace(r, t);
    forall d, p, i | At(r, InCore(d, p, i), t)
      ensures d == c
    {
      HeldAt(r, InCore(d, p, i), t);
      if d != c {
        IdleStaysHome(r, c, d);
      }
    }
    forall d | 0 <= d < |r.cores| && (r.cores[d].current == t || r.cores[d].next == t)
      ensures d == c
    {
      if d != c {
        IdleStaysHome(r, c, d);
      }
    }
  }

  /**
    An idle thread is never in two places at once, although a tick can switch an idle thread
    to itself and queue it; it is only ever queued for, and only ever runs on, its own core.
  */
  lemma IdleThreadAtHome(s: Sched, steps: seq<Step>, c: nat)
    requires Inv(s)
    requires c < |Run(s, steps).cores|
    ensures var r := Run(s, steps);
            var t := r.cores[c].idle;
            && (forall a, b :: At(r, a, t) && At(r, b, t) ==> a == b)
            && (forall d, p, i :: At(r, InCore(d, p, i), t) ==> d == c)
            && (forall d :: 0 <= d < |r.cores| && r.cores[d].current == t ==> d == c)
            && (forall d :: 0 <= d < |r.cores| && r.cores[d].next == t ==> d == c)
  {
    hide Run, At, Inv;
    RunKeeps(s, steps);
    AtHome(Run(s, steps), c);
  }

  /** A thread that is not an idle thread runs exactly when it is current on some core, and then on one core only. */
  lemma RunningOnExactlyOneCore(s: Sched, steps: seq<Step>, t: ThreadId)
    requires Inv(s)
    requires var r := Run(s, steps); t in r.threads && !r.IsIdle(t)
    ensures var r := Run(s, steps);
            && (r.threads[t].state == Running <==> exists c :: 0 <= c < |r.cores| && r.cores[c].current == t)
            && (forall c, d :: 0 <= c < |r.cores| && 0 <= d < |r.cores| ==>
                  r.cores[c].current == t && r.cores[d].current == t ==> c == d)
  {
    RunKeeps(s, steps);
    var r := Run(s, steps);
    hide Conserved, Sorted, Eligible;
    forall c | 0 <= c < |r.cores| && r.cores[c].current == t
      ensures r.threads[t].state == Running
    {
      assert r.IsIdle(r.cores[c].idle);
    }
  }

  // --- from power-on

  /** No core is up and no thread exists. */
  function PowerOn(quantum: nat): Sched {
    Sched(map[], NoQueues(), [], quantum)
  }

  /** The invariant holds over every run from power-on, in which cores come up while others already run. */
  lemma PowerOnInvariant(quantum: nat, steps: seq<Step>)
    requires quantum > 0
    ensures Inv(Run(PowerOn(quantum), steps))
  {
    var s := PowerOn(quantum);
    NothingQueued(s.shared);
    hide Queued, AllEmpty;
    assert Inv(s);
    hide Inv, Run;
    RunKeeps(s, steps);
  }

  // --- which thread is chosen

  /** The threads the core could choose from: its own queues, and what it may run of the shared ones. */
  ghost predicate Candidate(s: Sched, c: nat, t: ThreadId)
    requires c < |s.cores|
  {
    t in Queued(s.cores[c].queues) || (t in Queued(s.shared) && CanRun(s.threads, t, c))
  }

  /** The first thread in line at priority `p`: the core's own queue comes before the shared one. */
  function FirstInLine(s: Sched, c: nat, p: nat): int
    requires c < |s.cores| && p < 32
  {
    var own := s.cores[c].queues[p];
    var i := FirstAllowed(s.shared[p], s.Allowed(c));
    if own != [] then own[0] else if i >= 0 then s.shared[p][i] else -1
  }

  lemma LineOfCandidate(s: Sched, c: nat, t: ThreadId)
    requires c < |s.cores| && s.WellFormed() && Sorted(s) && Candidate(s, c, t)
    ensures t in s.threads && FirstInLine(s, c, s.threads[t].priority) >= 0
  {
    if t in Queued(s.cores[c].queues) {
      var p := QueuedWhere(s.cores[c].queues, t);
      assert SortedQueues(s.threads, s.cores[c].queues);
    } else {
      var p := QueuedWhere(s.shared, t);
      assert t in s.Allowed(c);
    }
  }

  lemma FirstInLineIsCandidate(s: Sched, c: nat, p: nat)
    requires c < |s.cores| && p < 32 && s.WellFormed() && Sorted(s) && FirstInLine(s, c, p) >= 0
    ensures var t := FirstInLine(s, c, p);
            Candidate(s, c, t) && t in s.threads && s.threads[t].priority == p
  {
    var own := s.cores[c].queues[p];
    if own != [] {
      QueuedMember(s.cores[c].queues, p, own[0]);
      assert SortedQueues(s.threads, s.cores[c].queues);
    } else {
      var i := FirstAllowed(s.shared[p], s.Allowed(c));
      QueuedMember(s.shared, p, s.shared[p][i]);
    }
  }

  /**
    The selection takes the first in line of the highest priority that has anyone, whatever
    the summary comparison and the migration decide on the way; with nobody in line it
    returns the idle thread.
  */
  lemma SelectsFirstInLine(s: Sched, c: nat)
    requires c < |s.cores|
    ensures Select(s, c).fromQueue <==> exists p :: 0 <= p < 32 && FirstInLine(s, c, p) >= 0
    ensures forall p :: 0 <= p < 32 && FirstInLine(s, c, p) >= 0
                        && (forall q :: p < q < 32 ==> FirstInLine(s, c, q) == -1)
                        ==> Select(s, c).thread == FirstInLine(s, c, p)
    ensures !Select(s, c).fromQueue ==> Select(s, c).thread == s.cores[c].idle
  {
    var p := Top(Migrate(s, c).cores[c].queues);
    forall q: nat | p < q < 32
      ensures FirstInLine(s, c, q) == -1
    {
      NobodyAbove(s, c, q);
    }
    if p >= 0 {
      assert FirstInLine(s, c, p) == Select(s, c).thread;
    }
  }

  lemma NobodyAbove(s: Sched, c: nat, q: nat)
    requires c < |s.cores| && q < 32 && Top(Migrate(s, c).cores[c].queues) < q
    ensures FirstInLine(s, c, q) == -1
  {
    assert Migrate(s, c).cores[c].queues[q] == [];
    if FirstAllowed(s.shared[q], s.Allowed(c)) >= 0 {
      MigrateReaches(s, c, q);
    }
  }

  /** After the migration the core has a thread at least as high as any it could have taken. */
  lemma MigrateReaches(s: Sched, c: nat, q: nat)
    requires c < |s.cores| && q < 32 && FirstAllowed(s.shared[q], s.Allowed(c)) >= 0
    ensures Top(Migrate(s, c).cores[c].queues) >= q
  {
    var own := s.cores[c].queues;
    var top := Top(s.shared);
    var m := Migrate(s, c);
    if own[top] == [] {
      var p := TopAllowed(s.shared, s.Allowed(c));
      assert m.cores[c].queues[p] != [];
    } else {
      assert m.cores[c].queues[top] != [];
    }
  }

  /** No candidate has a higher priority than the thread selected; without candidates the idle thread is selected. */
  lemma SelectsHighestPriority(s: Sched, c: nat)
    requires c < |s.cores| && Inv(s)
    ensures var pick := Select(s, c);
            && pick.thread in s.threads
            && (forall t :: Candidate(s, c, t) ==> t in s.threads && s.threads[t].priority <= s.threads[pick.thread].priority)
            && (pick.fromQueue <==> exists t :: Candidate(s, c, t))
            && (pick.fromQueue ==> Candidate(s, c, pick.thread))
            && (!pick.fromQueue ==> pick.thread == s.cores[c].idle)
  {
    hide Select, FirstInLine, Candidate, Inv, InvDuring;
    SelectsFirstInLine(s, c);
    InvImplies(s);
    InvParts(s, -1);
    IdlePriority(s, c);
    hide IdleThreads, Sorted, Eligible, Conserved, Currents, Sched.WellFormed;
    if Select(s, c).fromQueue {
      var top := SelectedLine(s, c);
      FirstInLineIsCandidate(s, c, top);
      CandidatesUpTo(s, c, top);
    } else {
      forall t | Candidate(s, c, t)
        ensures false
      {
        LineOfCandidate(s, c, t);
      }
    }
  }

  lemma HighestLine(s: Sched, c: nat) returns (p: nat)
    requires c < |s.cores| && exists q :: 0 <= q < 32 && FirstInLine(s, c, q) >= 0
    ensures p < 32 && FirstInLine(s, c, p) >= 0
    ensures forall q :: p < q < 32 ==> FirstInLine(s, c, q) == -1
  {
    hide FirstInLine;
    p := 31;
    while FirstInLine(s, c, p) < 0
      invariant 0 <= p < 32
      invariant forall q :: p < q < 32 ==> FirstInLine(s, c, q) == -1
      decreases p
    {
      LineRange(s, c, p);
      p := p - 1;
    }
  }

  lemma LineRange(s: Sched, c: nat, p: nat)
    requires c < |s.cores| && p < 32
    ensures FirstInLine(s, c, p) >= -1
  {}

  /**
    "The idle thread only when no other thread can run" fails: a queued idle thread is served
    in its turn.  It is returned exactly when there is no candidate at all, or when every
    candidate has priority 0 and the idle thread is first in line there.
  */
  lemma IdleSelectedExactlyWhen(s: Sched, c: nat)
    requires c < |s.cores| && Inv(s)
    ensures Select(s, c).thread == s.cores[c].idle <==>
            || (forall t :: !Candidate(s, c, t))
            || ((forall t :: Candidate(s, c, t) ==> t in s.threads && s.threads[t].priority == 0)
                && FirstInLine(s, c, 0) == s.cores[c].idle)
  {
    hide Select, FirstInLine, Candidate, Inv, InvDuring;
    SelectsHighestPriority(s, c);
    var idle := s.cores[c].idle;
    if Select(s, c).fromQueue {
      IdleInLine(s, c);
    }
  }

  lemma IdleInLine(s: Sched, c: nat)
    requires c < |s.cores| && Inv(s) && Select(s, c).fromQueue
    ensures Select(s, c).thread == s.cores[c].idle <==>
            && (forall t :: Candidate(s, c, t) ==> t in s.threads && s.threads[t].priority == 0)
            && FirstInLine(s, c, 0) == s.cores[c].idle
  {
    hide Select, FirstInLine, Candidate, Inv, InvDuring, IdleThreads, Sorted, Eligible, Conserved, Currents, Sched.WellFormed;
    InvImplies(s);
    InvParts(s, -1);
    IdlePriority(s, c);
    var top := SelectedLine(s, c);
    FirstInLineIsCandidate(s, c, top);
    CandidatesUpTo(s, c, top);
  }

  /** The line of which the selected thread is the first. */
  lemma SelectedLine(s: Sched, c: nat) returns (top: nat)
    requires c < |s.cores| && Select(s, c).fromQueue
    ensures top < 32 && FirstInLine(s, c, top) >= 0 && Select(s, c).thread == FirstInLine(s, c, top)
    ensures forall q :: top < q < 32 ==> FirstInLine(s, c, q) == -1
  {
    hide Select, FirstInLine;
    SelectsFirstInLine(s, c);
    top := HighestLine(s, c);
  }

  lemma IdlePriority(s: Sched, c: nat)
    requires c < |s.cores| && IdleThreads(s)
    ensures s.cores[c].idle in s.threads && s.threads[s.cores[c].idle].priority == 0
  {}

  lemma CandidatesUpTo(s: Sched, c: nat, top: nat)
    requires c < |s.cores| && s.WellFormed() && Sorted(s) && top < 32
    requires forall q :: top < q < 32 ==> FirstInLine(s, c, q) == -1
    ensures forall t :: Candidate(s, c, t) ==> t in s.threads && s.threads[t].priority <= top
  {
    hide FirstInLine, Candidate;
    forall t | Candidate(s, c, t)
      ensures t in s.threads && s.threads[t].priority <= top
    {
      LineOfCandidate(s, c, t);
    }
  }
}
