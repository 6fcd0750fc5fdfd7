/**
  The order in which ready threads are served.  Migration and selection take threads out of their
  queues without disturbing the others, a preempted thread goes to the end of its queue, and so no
  thread is overtaken in its queue by one that joined it later, over any run.
*/
module SchedulerOrder {
  import opened BitWords
  import opened Common
  import opened ReadyQueues
  import opened SchedulerModel
  import opened SchedulerInvariant
  import opened SchedulerSteps

  // --- what the parts of a switch do to the queues

  /** The thread at position `i` of shared queue `p` has moved to the end of the core's own queue `p`. */
  predicate MovedAt(s: Sched, m: Sched, c: nat, p: nat, i: nat)
    requires c < |s.cores|
  {
    && p < 32 && i < |s.shared[p]|
    && s.shared[p][i] in s.Allowed(c) && (forall j :: 0 <= j < i ==> s.shared[p][j] !in s.Allowed(c))
    && m.threads == s.threads && m.quantum == s.quantum
    && m.shared == s.shared[p := s.shared[p][..i] + s.shared[p][i + 1..]]
    && m.cores == s.cores[c := s.cores[c].(queues := s.cores[c].queues[p := s.cores[c].queues[p] + [s.shared[p][i]]])]
  }

  /** The core has a thread of the highest priority that is shared. */
  predicate HasHighest(s: Sched, c: nat)
    requires c < |s.cores|
  {
    exists p :: 0 <= p < 32 && s.cores[c].queues[p] != [] && s.shared[p] != [] && forall q :: p < q < 32 ==> s.shared[q] == []
  }

  /** No shared thread of a priority above `p` may run on the core. */
  predicate NoneAbove(s: Sched, c: nat, p: int) {
    forall q, t :: p < q < 32 && 0 <= q && t in s.shared[q] ==> t !in s.Allowed(c)
  }

  /**
    Migration takes the first thread that the core may run of the highest priority that has one, and
    none exactly when there is none or the core has one of the highest priority shared.  Threads that
    it passes, and all others, keep their order.
  */
  lemma MigrateInOrder(s: Sched, c: nat)
    requires c < |s.cores|
    ensures if NoneAbove(s, c, -1) || HasHighest(s, c) then Migrate(s, c) == s
            else exists p, i :: NoneAbove(s, c, p) && MovedAt(s, Migrate(s, c), c, p, i)
  {
    hide Top, TopAllowed, FirstAllowed, Sched.Allowed;
    var top, p := Top(s.shared), TopAllowed(s.shared, s.Allowed(c));
    assert HasHighest(s, c) <==> top >= 0 && s.cores[c].queues[top] != [];
    assert NoneAbove(s, c, p);
    if p >= 0 {
      var i := FirstAllowed(s.shared[p], s.Allowed(c));
      assert s.shared[p][i] in s.shared[p];
      if !HasHighest(s, c) {
        assert top >= 0;
        assert MovedAt(s, Migrate(s, c), c, p, i);
      }
    }
  }

  /** Taking the head of own queue `p`. */
  predicate HeadTaken(m: Sched, r: Sched, c: nat, p: nat, t: ThreadId)
    requires c < |m.cores|
  {
    && p < 32 && m.cores[c].queues[p] != [] && t == m.cores[c].queues[p][0]
    && (forall q :: p < q < 32 ==> m.cores[c].queues[q] == [])
    && r.threads == m.threads && r.shared == m.shared && r.quantum == m.quantum
    && r.cores == m.cores[c := m.cores[c].(queues := m.cores[c].queues[p := m.cores[c].queues[p][1..]])]
  }

  /** After the migration the head of the highest own queue is taken, or the idle thread if all are empty. */
  lemma SelectInOrder(s: Sched, c: nat)
    requires c < |s.cores|
    ensures |Migrate(s, c).cores| == |s.cores|
    ensures var m := Migrate(s, c);
      var pick := Select(s, c);
      if AllEmpty(m.cores[c].queues) then pick == Pick(m, s.cores[c].idle, false)
      else pick.fromQueue && exists p :: HeadTaken(m, pick.after, c, p, pick.thread)
  {
    hide Top, Migrate;
    MigrateFrame(s, c);
    var m := Migrate(s, c);
    var p := Top(m.cores[c].queues);
    if p >= 0 {
      assert m.cores[c].queues[p][..0] + m.cores[c].queues[p][1..] == m.cores[c].queues[p][1..];
      assert HeadTaken(m, Select(s, c).after, c, p, Select(s, c).thread);
    }
  }

  lemma MigrateFrame(s: Sched, c: nat)
    requires c < |s.cores|
    ensures |Migrate(s, c).cores| == |s.cores| && Migrate(s, c).cores[c].idle == s.cores[c].idle
  {
  }

  /**
    After a switch every shared queue is what the selection left of it, with the preempted thread
    behind all others of its priority.
  */
  lemma SwitchInOrder(s: Sched, c: nat)
    requires c < |s.cores| && s.WellFormed()
    ensures var f := SwitchToNext(s, c);
      var chosen := FillNext(Granted(s, c), c);
      var core := s.cores[c];
      && |f.cores| == |s.cores| && |chosen.cores| == |s.cores|
      && (forall q :: 0 <= q < 32 ==>
           f.shared[q] == chosen.shared[q] +
             if q == s.threads[core.current].priority && (core.current == core.next || s.threads[core.current].state == Running)
             then [core.current] else [])
      && f.cores[c].queues == chosen.cores[c].queues
      && (forall d :: 0 <= d < |s.cores| && d != c ==> f.cores[d] == s.cores[d])
  {
    hide Select, Queued, Migrate;
    FillNextFrame(Granted(s, c), c);
  }

  // --- the line ahead of a thread

  /** `a` is `b` with some elements left out. */
  predicate Subsequence<T(==)>(a: seq<T>, b: seq<T>) {
    a == [] || (b != [] && if a[0] == b[0] then Subsequence(a[1..], b[1..]) else Subsequence(a, b[1..]))
  }

  lemma {:induction false} SubMore<T>(a: seq<T>, b: seq<T>, x: T)
    requires Subsequence(a, b)
    ensures Subsequence(a, [x] + b)
    decreases |b|, 1
  {
    assert ([x] + b)[1..] == b;
    if a != [] && a[0] == x {
      SubDrop(a, b);
    }
  }

  lemma {:induction false} SubDrop<T>(a: seq<T>, b: seq<T>)
    requires Subsequence(a, b) && a != []
    ensures Subsequence(a[1..], b)
    decreases |b|, 0
  {
    assert [b[0]] + b[1..] == b;
    if a[0] == b[0] {
      SubMore(a[1..], b[1..], b[0]);
    } else {
      SubDrop(a, b[1..]);
      SubMore(a[1..], b[1..], b[0]);
    }
  }

  lemma {:induction false} SubSelf<T>(a: seq<T>)
    ensures Subsequence(a, a)
  {
    if a != [] {
      SubSelf(a[1..]);
    }
  }

  lemma {:induction false} SubTwice<T>(a: seq<T>, b: seq<T>, c: seq<T>)
    requires Subsequence(a, b) && Subsequence(b, c)
    ensures Subsequence(a, c)
    decreases |b| + |c|
  {
    if a != [] {
      assert [c[0]] + c[1..] == c;
      if b[0] == c[0] {
        if a[0] == b[0] {
          SubTwice(a[1..], b[1..], c[1..]);
        } else {
          SubTwice(a, b[1..], c[1..]);
          SubMore(a, c[1..], c[0]);
        }
      } else {
        SubTwice(a, b, c[1..]);
        SubMore(a, c[1..], c[0]);
      }
    }
  }

  /** Those in front of a thread in a queue. */
  function AheadOf(ids: seq<ThreadId>, t: ThreadId): (ahead: seq<ThreadId>)
    ensures t in ids ==> |ahead| < |ids| && ids[|ahead|] == t && ahead == ids[..|ahead|] && t !in ahead
  {
    if ids == [] || ids[0] == t then [] else [ids[0]] + AheadOf(ids[1..], t)
  }

  lemma {:induction false} AheadAppend(ids: seq<ThreadId>, x: ThreadId, t: ThreadId)
    requires t in ids
    ensures AheadOf(ids + [x], t) == AheadOf(ids, t)
  {
    if ids[0] != t {
      AheadAppend(ids[1..], x, t);
      assert (ids + [x])[1..] == ids[1..] + [x];
    }
  }

  lemma OnlyOnce(ids: seq<ThreadId>, t: ThreadId)
    requires ids != [] && multiset(ids)[t] <= 1
    ensures multiset(ids[1..])[t] <= 1 && (ids[0] == t ==> t !in ids[1..])
  {
    assert ids == [ids[0]] + ids[1..];
  }

  lemma AheadStep(ids: seq<ThreadId>, t: ThreadId)
    requires ids != []
    ensures AheadOf(ids, t) == if ids[0] == t then [] else [ids[0]] + AheadOf(ids[1..], t)
  {
  }

  lemma {:induction false} AheadRemove(ids: seq<ThreadId>, i: nat, t: ThreadId)
    requires i < |ids| && multiset(ids)[t] <= 1 && t in ids[..i] + ids[i + 1..]
    ensures Subsequence(AheadOf(ids[..i] + ids[i + 1..], t), AheadOf(ids, t))
  {
    hide AheadOf, Subsequence;
    var rest := ids[..i] + ids[i + 1..];
    OnlyOnce(ids, t);
    AheadStep(ids, t);
    if i == 0 {
      assert rest == ids[1..];
      SubSelf(AheadOf(rest, t));
      SubMore(AheadOf(rest, t), AheadOf(rest, t), ids[0]);
    } else {
      AheadStep(rest, t);
      assert rest[1..] == ids[1..][..i - 1] + ids[1..][i..];
      if ids[0] != t {
        AheadRemove(ids[1..], i - 1, t);
        SubBoth(AheadOf(rest[1..], t), AheadOf(ids[1..], t), ids[0]);
      } else {
        SubSelf(AheadOf(rest, t));
      }
    }
  }

  lemma SubBoth<T>(a: seq<T>, b: seq<T>, x: T)
    requires Subsequence(a, b)
    ensures Subsequence([x] + a, [x] + b)
  {
    assert ([x] + a)[1..] == a && ([x] + b)[1..] == b;
  }

  /** A queue has changed so that nobody new is ahead of `t`, and those ahead are in the order they were in. */
  ghost predicate Served(before: seq<ThreadId>, after: seq<ThreadId>, t: ThreadId) {
    && multiset(after)[t] <= multiset(before)[t]
    && (t in after ==> Subsequence(AheadOf(after, t), AheadOf(before, t)))
  }

  lemma ServedSame(ids: seq<ThreadId>, t: ThreadId)
    ensures Served(ids, ids, t)
  {
    SubSelf(AheadOf(ids, t));
  }

  lemma ServedTwice(a: seq<ThreadId>, b: seq<ThreadId>, c: seq<ThreadId>, t: ThreadId)
    requires Served(a, b, t) && Served(b, c, t)
    ensures Served(a, c, t)
  {
    hide Subsequence;
    if t in c {
      assert t in multiset(c) && t in multiset(b);
      SubTwice(AheadOf(c, t), AheadOf(b, t), AheadOf(a, t));
    }
  }

  lemma ServedRemove(ids: seq<ThreadId>, i: nat, t: ThreadId)
    requires i < |ids| && multiset(ids)[t] <= 1
    ensures Served(ids, ids[..i] + ids[i + 1..], t)
  {
    TakeOne(ids, i);
    if t in ids[..i] + ids[i + 1..] {
      AheadRemove(ids, i, t);
    }
  }

  lemma ServedAppend(ids: seq<ThreadId>, x: ThreadId, t: ThreadId)
    requires x != t
    ensures Served(ids, ids + [x], t)
  {
    if t in ids + [x] {
      AheadAppend(ids, x, t);
      SubSelf(AheadOf(ids, t));
    }
  }

  // --- steps

  /** A shared queue, or a queue of a core. */
  datatype Line = Shared(p: nat) | Own(c: nat, p: nat)

  function LineAt(s: Sched, w: Line): seq<ThreadId> {
    if w.p >= 32 then []
    else match w
      case Shared(p) => s.shared[p]
      case Own(c, p) => if c < |s.cores| then s.cores[c].queues[p] else []
  }

  /** What matters for a thread in a line: it is there once, and no thread of the same name can still migrate there. */
  ghost predicate OnceIn(s: Sched, w: Line, t: ThreadId) {
    multiset(LineAt(s, w))[t] <= 1 && (w.Own? ==> t !in Queued(s.shared))
  }

  lemma MigrateServes(s: Sched, c: nat, w: Line, t: ThreadId)
    requires c < |s.cores| && OnceIn(s, w, t)
    ensures var m := Migrate(s, c);
      Served(LineAt(s, w), LineAt(m, w), t) && OnceIn(m, w, t)
  {
    hide Migrate, Served, Queued;
    var m := Migrate(s, c);
    MigrateInOrder(s, c);
    if m == s {
      ServedSame(LineAt(s, w), t);
      ServedCount(LineAt(s, w), LineAt(m, w), t);
    } else {
      var p, i :| MovedAt(s, m, c, p, i);
      MovedServes(s, m, c, p, i, w, t);
    }
  }

  lemma ServedCount(a: seq<ThreadId>, b: seq<ThreadId>, t: ThreadId)
    requires Served(a, b, t)
    ensures multiset(b)[t] <= multiset(a)[t]
  {
  }

  lemma MovedServes(s: Sched, m: Sched, c: nat, p: nat, i: nat, w: Line, t: ThreadId)
    requires c < |s.cores| && OnceIn(s, w, t) && MovedAt(s, m, c, p, i)
    ensures Served(LineAt(s, w), LineAt(m, w), t) && OnceIn(m, w, t)
  {
    hide Served, Queued, Sched.Allowed;
    var x := s.shared[p][i];
    QueuedMember(s.shared, p, x);
    RemoveTakesOne(s.shared, p, i);
    assert Queued(m.shared) + multiset{x} == Queued(s.shared);
    assert t in Queued(m.shared) ==> t in Queued(m.shared) + multiset{x};
    if w == Shared(p) {
      ServedRemove(s.shared[p], i, t);
    } else if w == Own(c, p) {
      ServedAppend(s.cores[c].queues[p], x, t);
    } else {
      ServedSame(LineAt(s, w), t);
    }
    ServedCount(LineAt(s, w), LineAt(m, w), t);
  }

  lemma SelectServes(s: Sched, c: nat, w: Line, t: ThreadId)
    requires c < |s.cores| && OnceIn(s, w, t)
    ensures var r := Select(s, c).after;
      Served(LineAt(s, w), LineAt(r, w), t) && OnceIn(r, w, t)
  {
    hide Select, Migrate, Served, Queued;
    MigrateServes(s, c, w, t);
    SelectInOrder(s, c);
    var m, pick := Migrate(s, c), Select(s, c);
    if !AllEmpty(m.cores[c].queues) {
      var p :| HeadTaken(m, pick.after, c, p, pick.thread);
      HeadServes(m, pick.after, c, p, pick.thread, w, t);
      ServedTwice(LineAt(s, w), LineAt(m, w), LineAt(pick.after, w), t);
    }
  }

  lemma HeadServes(m: Sched, r: Sched, c: nat, p: nat, x: ThreadId, w: Line, t: ThreadId)
    requires c < |m.cores| && OnceIn(m, w, t) && HeadTaken(m, r, c, p, x)
    ensures Served(LineAt(m, w), LineAt(r, w), t) && OnceIn(r, w, t)
  {
    hide Served, Queued;
    if w == Own(c, p) {
      var ids := m.cores[c].queues[p];
      assert ids[..0] + ids[0 + 1..] == ids[1..];
      ServedRemove(ids, 0, t);
    } else {
      ServedSame(LineAt(m, w), t);
    }
    ServedCount(LineAt(m, w), LineAt(r, w), t);
  }

  lemma FillServes(s: Sched, c: nat, w: Line, t: ThreadId)
    requires c < |s.cores| && OnceIn(s, w, t)
    ensures var r := FillNext(s, c);
      Served(LineAt(s, w), LineAt(r, w), t) && OnceIn(r, w, t)
  {
    hide Select, Served, Queued, FillNext;
    SelectServes(s, c, w, t);
    FillLines(s, c, w);
  }

  lemma FillLines(s: Sched, c: nat, w: Line)
    requires c < |s.cores|
    ensures LineAt(FillNext(s, c), w) == LineAt(Select(s, c).after, w) && FillNext(s, c).shared == Select(s, c).after.shared
  {
    hide Migrate;
    MigrateFrame(s, c);
  }

  /** Only queues matter to the lines. */
  predicate SameLines(s: Sched, r: Sched) {
    && r.shared == s.shared && |r.cores| >= |s.cores|
    && forall c :: 0 <= c < |s.cores| ==> r.cores[c].queues == s.cores[c].queues
  }

  lemma SameLinesServe(s: Sched, r: Sched, w: Line, t: ThreadId)
    requires SameLines(s, r) && OnceIn(s, w, t) && (|r.cores| == |s.cores| || (w.Own? ==> w.c < |s.cores|))
    ensures Served(LineAt(s, w), LineAt(r, w), t) && OnceIn(r, w, t)
  {
    ServedSame(LineAt(s, w), t);
  }

  /** Whatever is queued at the end of a shared queue is not `t`. */
  lemma EnqueueServes(s: Sched, r: Sched, q: nat, x: ThreadId, w: Line, t: ThreadId)
    requires q < 32 && x != t && OnceIn(s, w, t)
    requires |r.cores| == |s.cores| && forall d :: 0 <= d < |s.cores| ==> r.cores[d].queues == s.cores[d].queues
    requires r.shared == s.shared[q := s.shared[q] + [x]]
    ensures Served(LineAt(s, w), LineAt(r, w), t) && OnceIn(r, w, t)
  {
    hide Served, Queued;
    AppendAddsOne(s.shared, q, x);
    if w == Shared(q) {
      ServedAppend(s.shared[q], x, t);
    } else {
      ServedSame(LineAt(s, w), t);
    }
    ServedCount(LineAt(s, w), LineAt(r, w), t);
  }

  lemma SwitchServes(s: Sched, c: nat, w: Line, t: ThreadId)
    requires c < |s.cores| && s.WellFormed() && OnceIn(s, w, t) && s.cores[c].current != t
    ensures var f := SwitchToNext(s, c);
      Served(LineAt(s, w), LineAt(f, w), t) && OnceIn(f, w, t)
  {
    hide Served, Queued, FillNext, SwitchToNext, OnceIn;
    var g := Granted(s, c);
    SameLinesServe(s, g, w, t);
    FillServes(g, c, w, t);
    var chosen, f := FillNext(g, c), SwitchToNext(s, c);
    ServedTwice(LineAt(s, w), LineAt(g, w), LineAt(chosen, w), t);
    SwitchInOrder(s, c);
    FillNextFrame(g, c);
    var cur := s.cores[c].current;
    var p := s.threads[cur].priority;
    if cur == s.cores[c].next || s.threads[cur].state == Running {
      var joined := chosen.shared[p := chosen.shared[p] + [cur]];
      assert forall q :: 0 <= q < 32 ==> f.shared[q] == joined[q];
      assert f.shared == joined;
      EnqueueServes(chosen, f, p, cur, w, t);
    } else {
      assert forall q :: 0 <= q < 32 ==> f.shared[q] == chosen.shared[q];
      assert f.shared == chosen.shared;
      SameLinesServe(chosen, f, w, t);
    }
    ServedTwice(LineAt(s, w), LineAt(chosen, w), LineAt(f, w), t);
  }

  lemma KnownThreads(s: Sched, c: nat)
    requires c < |s.cores| && s.WellFormed()
    ensures s.cores[c].current in s.threads && s.cores[c].next in s.threads
  {
  }

  lemma KnownPriority(s: Sched, t: ThreadId)
    requires s.WellFormed() && t in s.threads
    ensures s.threads[t].priority < 32
  {
  }

  lemma PrepareServes(s: Sched, c: nat, w: Line, t: ThreadId)
    requires c < |s.cores| && s.WellFormed() && OnceIn(s, w, t)
    ensures var p := Prepare(s, c);
      && Served(LineAt(s, w), LineAt(p, w), t) && OnceIn(p, w, t)
      && |p.cores| == |s.cores| && p.cores[c].current == s.cores[c].current
  {
    hide Served, Queued, FillNext, OnceIn, Sched.WellFormed;
    KnownThreads(s, c);
    var z := Zeroed(s, c);
    SameLinesServe(s, z, w, t);
    FillServes(z, c, w, t);
    FillNextFrame(z, c);
    ServedTwice(LineAt(s, w), LineAt(z, w), LineAt(FillNext(z, c), w), t);
  }

  lemma DecideServes(p: Sched, c: nat, w: Line, t: ThreadId)
    requires c < |p.cores| && p.WellFormed() && OnceIn(p, w, t) && p.cores[c].current != t
    ensures Served(LineAt(p, w), LineAt(Decide(p, c), w), t)
  {
    hide Served, Queued, SwitchToNext, OnceIn, Sched.WellFormed;
    SwitchServes(p, c, w, t);
    if Decide(p, c) != SwitchToNext(p, c) {
      SameLinesServe(p, Decide(p, c), w, t);
    }
  }

  lemma TickServes(s: Sched, c: nat, w: Line, t: ThreadId)
    requires c < |s.cores| && s.WellFormed() && OnceIn(s, w, t) && s.cores[c].current != t
    ensures Served(LineAt(s, w), LineAt(Tick(s, c), w), t)
  {
    hide Served, OnceIn, Prepare, Decide, Sched.WellFormed;
    PrepareWellFormed(s, c);
    PrepareServes(s, c, w, t);
    DecideServes(Prepare(s, c), c, w, t);
    ServedTwice(LineAt(s, w), LineAt(Prepare(s, c), w), LineAt(Tick(s, c), w), t);
  }

  /** What stands in a line is counted among the places of a thread. */
  lemma PlacedInLine(s: Sched, w: Line, t: ThreadId)
    requires t in LineAt(s, w)
    ensures Places(s, t) >= 1 && (Places(s, t) <= 1 ==> OnceIn(s, w, t))
  {
    match w {
      case Shared(p) =>
        QueuedMember(s.shared, p, t);
        CountBound(s.shared, p, t);
      case Own(c, p) =>
        QueuedMember(s.cores[c].queues, p, t);
        CountBound(s.cores[c].queues, p, t);
        HeldBound(s.cores, c, t);
    }
  }

  /** A thread in a line is ready, there once, and current nowhere. */
  lemma InLine(s: Sched, w: Line, t: ThreadId)
    requires Inv(s) && t in LineAt(s, w) && !s.IsIdle(t)
    ensures OnceIn(s, w, t) && t in s.threads && s.threads[t].state == Ready
    ensures forall c :: 0 <= c < |s.cores| ==> s.cores[c].current != t
  {
    hide Places, LineAt, OnceIn;
    InvImplies(s);
    PlacedInLine(s, w, t);
    forall c | 0 <= c < |s.cores|
      ensures s.cores[c].current != t
    {
      assert s.IsIdle(s.cores[c].idle);
    }
  }

  lemma {:induction false} CountBound(q: seq<seq<ThreadId>>, p: nat, t: ThreadId)
    requires p < |q|
    ensures multiset(q[p])[t] <= Queued(q)[t]
  {
    if p > 0 {
      CountBound(q[1..], p - 1, t);
    }
  }

  /** Every step leaves nobody new ahead of a thread that stays in its line. */
  lemma StepServes(s: Sched, step: Step, w: Line, t: ThreadId)
    requires Inv(s) && s.WellFormed() && Enabled(s, step) && t in LineAt(s, w) && !s.IsIdle(t)
    ensures Served(LineAt(s, w), LineAt(After(s, step), w), t)
  {
    hide Inv, Served, OnceIn, Tick, Queued, Sched.WellFormed, NoQueues, Pow2;
    InLine(s, w, t);
    match step {
      case Clock(c) => TickServes(s, c, w, t);
      case ShortTick(_) => SameLinesServe(s, s, w, t);
      case Block(c) => LeaveServes(s, c, Waiting, w, t);
      case Exit(c) => LeaveServes(s, c, Terminated, w, t);
      case Wake(u) =>
        KnownPriority(s, u);
        EnqueueServes(s, After(s, step), s.threads[u].priority, u, w, t);
      case Create(u, info) => EnqueueServes(s, After(s, step), info.priority, u, w, t);
      case SetAffinity(c, mask) => SameLinesServe(s, After(s, step), w, t);
      case StartCore(_, _) => SameLinesServe(s, After(s, step), w, t);
    }
  }

  lemma LeaveServes(s: Sched, c: nat, state: ThreadState, w: Line, t: ThreadId)
    requires c < |s.cores| && s.WellFormed() && OnceIn(s, w, t) && s.cores[c].current != t
    ensures Served(LineAt(s, w), LineAt(Leave(s, c, state), w), t)
  {
    hide Served, OnceIn, Tick;
    var g := s.WithState(s.cores[c].current, state);
    SameLinesServe(s, g, w, t);
    TickServes(g, c, w, t);
    ServedTwice(LineAt(s, w), LineAt(g, w), LineAt(Tick(g, c), w), t);
  }

  // --- runs

  /** The thread is in the line before, between and after the steps. */
  ghost predicate StaysIn(s: Sched, steps: seq<Step>, w: Line, t: ThreadId)
    decreases |steps|
  {
    t in LineAt(s, w) && (steps == [] || StaysIn(Attempt(s, steps[0]), steps[1..], w, t))
  }

  lemma SwitchKeepsIdle(s: Sched, c: nat)
    requires c < |s.cores| && s.WellFormed()
    ensures var f := SwitchToNext(s, c);
      |f.cores| == |s.cores| && forall d :: 0 <= d < |s.cores| ==> f.cores[d].idle == s.cores[d].idle
  {
    SwitchFrame(s, c);
  }

  lemma TickKeepsIdle(s: Sched, c: nat)
    requires c < |s.cores| && s.WellFormed()
    ensures var f := Tick(s, c);
      |f.cores| == |s.cores| && forall d :: 0 <= d < |s.cores| ==> f.cores[d].idle == s.cores[d].idle
  {
    hide FillNext, SwitchToNext, Sched.WellFormed;
    KnownThreads(s, c);
    PrepareWellFormed(s, c);
    FillNextFrame(Zeroed(s, c), c);
    SwitchKeepsIdle(Prepare(s, c), c);
  }

  /** A thread does not become an idle thread. */
  lemma NeverIdle(s: Sched, step: Step, t: ThreadId)
    requires s.WellFormed() && Enabled(s, step) && t in s.threads && !s.IsIdle(t)
    ensures !After(s, step).IsIdle(t)
  {
    hide Tick, Sched.WellFormed, NoQueues, Pow2;
    match step {
      case Clock(c) => TickKeepsIdle(s, c);
      case Block(c) => LeaveKeepsIdle(s, c, Waiting);
      case Exit(c) => LeaveKeepsIdle(s, c, Terminated);
      case _ =>
    }
  }

  lemma LeaveKeepsIdle(s: Sched, c: nat, state: ThreadState)
    requires c < |s.cores| && s.WellFormed()
    ensures var f := Leave(s, c, state);
      |f.cores| == |s.cores| && forall d :: 0 <= d < |s.cores| ==> f.cores[d].idle == s.cores[d].idle
  {
    hide Tick;
    TickKeepsIdle(s.WithState(s.cores[c].current, state), c);
  }

  /**
    Round robin: over every run during which a thread stays in a queue, those ahead of it at the end
    are some of those ahead of it at the start, in the order in which they were.
  */
  lemma {:induction false} LineOnlyShrinks(s: Sched, steps: seq<Step>, w: Line, t: ThreadId)
    requires Inv(s) && !s.IsIdle(t) && StaysIn(s, steps, w, t)
    ensures var r := Run(s, steps);
      t in LineAt(r, w) && Subsequence(AheadOf(LineAt(r, w), t), AheadOf(LineAt(s, w), t))
    decreases |steps|
  {
    hide Inv, After, Subsequence, AheadOf, LineAt, Sched.WellFormed, Sched.IsIdle, Enabled;
    if steps == [] {
      SubSelf(AheadOf(LineAt(s, w), t));
    } else {
      var m, r := Attempt(s, steps[0]), Run(s, steps);
      AttemptKeeps(s, steps[0]);
      AttemptServes(s, steps[0], w, t);
      LineOnlyShrinks(m, steps[1..], w, t);
      SubTwice(AheadOf(LineAt(r, w), t), AheadOf(LineAt(m, w), t), AheadOf(LineAt(s, w), t));
    }
  }

  lemma AttemptServes(s: Sched, step: Step, w: Line, t: ThreadId)
    requires Inv(s) && !s.IsIdle(t) && t in LineAt(s, w) && t in LineAt(Attempt(s, step), w)
    ensures !Attempt(s, step).IsIdle(t)
    ensures Subsequence(AheadOf(LineAt(Attempt(s, step), w), t), AheadOf(LineAt(s, w), t))
  {
    hide Inv, After, Subsequence, AheadOf, LineAt, Sched.WellFormed, Sched.IsIdle, Enabled, OnceIn;
    if s.WellFormed() && Enabled(s, step) {
      InLine(s, w, t);
      StepServes(s, step, w, t);
      NeverIdle(s, step, t);
    } else {
      SubSelf(AheadOf(LineAt(s, w), t));
    }
  }

  /** No thread that is not ahead of it at the start, or joins its queue later, gets ahead of it. */
  lemma NeverOvertaken(s: Sched, steps: seq<Step>, w: Line, t: ThreadId, u: ThreadId)
    requires Inv(s) && !s.IsIdle(t) && StaysIn(s, steps, w, t) && u !in AheadOf(LineAt(s, w), t)
    ensures u !in AheadOf(LineAt(Run(s, steps), w), t)
  {
    hide Inv, Run, StaysIn, AheadOf, LineAt;
    LineOnlyShrinks(s, steps, w, t);
    if u in AheadOf(LineAt(Run(s, steps), w), t) {
      SubMember(AheadOf(LineAt(Run(s, steps), w), t), AheadOf(LineAt(s, w), t), u);
    }
  }

  lemma {:induction false} SubMember<T>(a: seq<T>, b: seq<T>, x: T)
    requires Subsequence(a, b) && x in a
    ensures x in b
  {
    assert a == [a[0]] + a[1..];
    if a[0] != b[0] || x != a[0] {
      SubMember(if a[0] == b[0] then a[1..] else a, b[1..], x);
    }
  }
}
