/**
  The 32 first-in first-out ready queues of one owner (a core, or all cores together), and
  the multiset of threads they hold.
*/
module ReadyQueues {
  import opened Common

  type Queues = q: seq<seq<ThreadId>> | |q| == 32
    witness seq(32, _ => [])

  function NoQueues(): (q: Queues)
    ensures AllEmpty(q)
  {
    seq(32, _ => [])
  }

  predicate AllEmpty(q: Queues) {
    forall p :: 0 <= p < 32 ==> q[p] == []
  }

  /** Everything queued, with multiplicity. */
  ghost function Queued(q: seq<seq<ThreadId>>): multiset<ThreadId> {
    if q == [] then multiset{} else multiset(q[0]) + Queued(q[1..])
  }

  /** Replacing one queue exchanges exactly its contents. */
  lemma {:induction false} QueuedUpdate(q: seq<seq<ThreadId>>, p: nat, ids: seq<ThreadId>)
    requires p < |q|
    ensures Queued(q[p := ids]) + multiset(q[p]) == Queued(q) + multiset(ids)
  {
    var u := q[p := ids];
    assert Queued(u) == multiset(u[0]) + Queued(u[1..]);
    if p == 0 {
      assert u[1..] == q[1..];
      assert Queued(u) + multiset(q[p]) == Queued(q[1..]) + multiset(q[0]) + multiset(ids);
    } else {
      QueuedUpdate(q[1..], p - 1, ids);
      assert u[1..] == q[1..][p - 1 := ids];
      assert q[1..][p - 1] == q[p];
      assert Queued(u) + multiset(q[p]) == multiset(q[0]) + (Queued(u[1..]) + multiset(q[p]));
      assert Queued(q) + multiset(ids) == multiset(q[0]) + (Queued(q[1..]) + multiset(ids));
    }
  }

  lemma {:induction false} QueuedMember(q: seq<seq<ThreadId>>, p: nat, t: ThreadId)
    requires p < |q| && t in q[p]
    ensures t in Queued(q)
  {
    if p > 0 {
      QueuedMember(q[1..], p - 1, t);
    }
  }

  lemma {:induction false} QueuedWhere(q: seq<seq<ThreadId>>, t: ThreadId) returns (p: nat)
    requires t in Queued(q)
    ensures p < |q| && t in q[p]
  {
    if t in multiset(q[0]) {
      p := 0;
    } else {
      p := QueuedWhere(q[1..], t);
      p := p + 1;
    }
  }

  lemma {:induction false} NothingQueued(q: seq<seq<ThreadId>>)
    requires forall p :: 0 <= p < |q| ==> q[p] == []
    ensures Queued(q) == multiset{}
  {
    if q != [] {
      NothingQueued(q[1..]);
    }
  }

  /** The highest non-empty queue, or -1. */
  function Top(q: seq<seq<ThreadId>>): (p: int)
    ensures -1 <= p < |q|
    ensures p >= 0 ==> q[p] != []
    ensures forall i :: p < i < |q| ==> q[i] == []
  {
    if q == [] then -1
    else if q[|q| - 1] != [] then |q| - 1
    else Top(q[..|q| - 1])
  }

  /** The first position of a queue whose thread is allowed, or -1. */
  function FirstAllowed(ids: seq<ThreadId>, allowed: set<ThreadId>): (i: int)
    ensures -1 <= i < |ids|
    ensures i >= 0 ==> ids[i] in allowed && forall j :: 0 <= j < i ==> ids[j] !in allowed
    ensures i == -1 ==> forall j :: 0 <= j < |ids| ==> ids[j] !in allowed
  {
    if ids == [] then -1
    else if ids[0] in allowed then 0
    else
      var rest := FirstAllowed(ids[1..], allowed);
      if rest == -1 then -1 else rest + 1
  }

  /** The highest queue that holds an allowed thread, or -1. */
  function TopAllowed(q: seq<seq<ThreadId>>, allowed: set<ThreadId>): (p: int)
    ensures -1 <= p < |q|
    ensures p >= 0 ==> FirstAllowed(q[p], allowed) >= 0
    ensures forall i :: p < i < |q| ==> FirstAllowed(q[i], allowed) == -1
  {
    if q == [] then -1
    else if FirstAllowed(q[|q| - 1], allowed) >= 0 then |q| - 1
    else TopAllowed(q[..|q| - 1], allowed)
  }

  /** Taking out position `i` of queue `p`. */
  function Remove(q: Queues, p: nat, i: nat): Queues
    requires p < 32 && i < |q[p]|
  {
    q[p := q[p][..i] + q[p][i + 1..]]
  }

  /** Appending to queue `p`. */
  function Append(q: Queues, p: nat, t: ThreadId): Queues
    requires p < 32
  {
    q[p := q[p] + [t]]
  }

  lemma TakeOne(ids: seq<ThreadId>, i: nat)
    requires i < |ids|
    ensures multiset(ids) == multiset(ids[..i] + ids[i + 1..]) + multiset{ids[i]}
  {
    assert ids == ids[..i] + [ids[i]] + ids[i + 1..];
  }

  lemma RemoveTakesOne(q: Queues, p: nat, i: nat)
    requires p < 32 && i < |q[p]|
    ensures Queued(Remove(q, p, i)) + multiset{q[p][i]} == Queued(q)
  {
    QueuedUpdate(q, p, q[p][..i] + q[p][i + 1..]);
    TakeOne(q[p], i);
    forall t
      ensures (Queued(Remove(q, p, i)) + multiset{q[p][i]})[t] == Queued(q)[t]
    {
      assert (Queued(Remove(q, p, i)) + multiset(q[p]))[t]
          == (Queued(q) + multiset(q[p][..i] + q[p][i + 1..]))[t];
    }
  }

  lemma AppendAddsOne(q: Queues, p: nat, t: ThreadId)
    requires p < 32
    ensures Queued(Append(q, p, t)) == Queued(q) + multiset{t}
  {
    QueuedUpdate(q, p, q[p] + [t]);
    forall u
      ensures Queued(Append(q, p, t))[u] == (Queued(q) + multiset{t})[u]
    {
      assert (Queued(Append(q, p, t)) + multiset(q[p]))[u] == (Queued(q) + multiset(q[p] + [t]))[u];
    }
  }
}
