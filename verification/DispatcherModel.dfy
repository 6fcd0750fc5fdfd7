/**
  Waits and signals as a state machine over values.  A waiting thread has an array of wait
  blocks, one for each object it waits for; an object has a signal state and the queue of the
  blocks that wait for it.  A block whose object is gone has been released.

  A step is everything done under one hold of the dispatcher lock.
*/
module DispatcherModel {
  import opened Common

  type ObjectId = nat

  datatype WaitType = WaitAll | WaitAny
  datatype Kind = MutexKind | QueueKind | SemaphoreKind | OtherKind

  /** One entry of an object's wait list: block `block` of thread `thread`. */
  datatype Entry = Entry(thread: ThreadId, block: nat)

  /**
    `active` is the number of blocks not yet released; `blocks` is empty when the thread has no
    current wait blocks.  `status` is what the wait will return.
  */
  datatype Thread = Thread(state: ThreadState, waitType: WaitType, blocks: seq<Option<ObjectId>>, active: nat, status: int)

  /** `granted` counts the releases that consumed a signal; it is history only, no step looks at it. */
  datatype Object = Object(kind: Kind, signal: nat, waiters: seq<Entry>, owner: Option<ThreadId>, granted: nat)

  /** `readied` lists, in order, the threads handed to the scheduler. */
  datatype Dispatcher = Dispatcher(threads: map<ThreadId, Thread>, objects: map<ObjectId, Object>, readied: seq<ThreadId>)
  {
    predicate HasBlock(t: ThreadId, i: nat) {
      && t in threads && i < |threads[t].blocks| && threads[t].blocks[i].Some?
      && threads[t].blocks[i].value in objects && threads[t].active > 0
    }

    function BlockObject(t: ThreadId, i: nat): ObjectId
      requires HasBlock(t, i)
    {
      threads[t].blocks[i].value
    }

    function WithThread(t: ThreadId, thread: Thread): Dispatcher {
      this.(threads := threads[t := thread])
    }

    function WithObject(o: ObjectId, obj: Object): Dispatcher {
      this.(objects := objects[o := obj])
    }
  }

  /** Signal states are 32-bit. */
  const WORD: nat := 0x1_0000_0000

  const STATUS_TIMEOUT: int := 0x102

  function Add32(a: nat, b: nat): nat {
    (a + b) % WORD
  }

  /** What releasing a block does to its object; a mutex becomes the property of the thread. */
  function Detach(obj: Object, e: Entry, designal: bool): Object {
    obj.(signal := if designal then Add32(obj.signal, WORD - 1) else obj.signal,
         granted := if designal then obj.granted + 1 else obj.granted,
         owner := if obj.kind == MutexKind then Some(e.thread) else obj.owner,
         waiters := Without(obj.waiters, e))
  }

  /** Releases one block of a thread, with or without consuming a signal. */
  function ReleaseBlock(s: Dispatcher, t: ThreadId, i: nat, designal: bool): Dispatcher
    requires s.HasBlock(t, i)
  {
    var o := s.BlockObject(t, i);
    var thread := s.threads[t];
    s.WithObject(o, Detach(s.objects[o], Entry(t, i), designal))
     .WithThread(t, thread.(blocks := thread.blocks[i := None], active := thread.active - 1))
  }

  /** Releases the blocks from `i` on that are not released yet, without consuming signals. */
  function ReleaseFrom(s: Dispatcher, t: ThreadId, i: nat): (r: Dispatcher)
    requires t in s.threads
    ensures r.threads.Keys == s.threads.Keys
    decreases |s.threads[t].blocks| - i
  {
    if i >= |s.threads[t].blocks| then s
    else if s.HasBlock(t, i) then ReleaseFrom(ReleaseBlock(s, t, i, false), t, i + 1)
    else ReleaseFrom(s, t, i + 1)
  }

  function Rundown(s: Dispatcher, t: ThreadId): Dispatcher
    requires t in s.threads
  {
    var r := ReleaseFrom(s, t, 0);
    r.WithThread(t, r.threads[t].(blocks := []))
  }

  /** A waiting thread stops waiting: the running thread carries on, any other becomes ready. */
  function Wake(s: Dispatcher, me: ThreadId, t: ThreadId): Dispatcher
    requires t in s.threads
  {
    if s.threads[t].state != Waiting then s
    else if t == me then s.WithThread(t, s.threads[t].(state := Running))
    else s.WithThread(t, s.threads[t].(state := Ready)).(readied := s.readied + [t])
  }

  /** The wait of a thread is over, whatever blocks are still there. */
  function UnwaitThread(s: Dispatcher, me: ThreadId, t: ThreadId, status: int): (r: Dispatcher)
    requires t in s.threads
    ensures r.threads.Keys == s.threads.Keys
  {
    var r := Rundown(Wake(s, me, t), t);
    r.WithThread(t, r.threads[t].(status := status))
  }

  /** Whether the release of one more block ends the wait. */
  predicate Completes(thread: Thread) {
    thread.state == Waiting && (thread.active == 1 || thread.waitType == WaitAny)
  }

  /** The objects whose locks a wait holds. */
  function Locks(ids: seq<ObjectId>): set<ObjectId> {
    set o | o in ids
  }

  /** Whether a rundown of these blocks comes to an object whose lock this core holds: spin locks do not nest. */
  predicate MeetsHeld(blocks: seq<Option<ObjectId>>, held: set<ObjectId>) {
    exists i :: 0 <= i < |blocks| && blocks[i].Some? && blocks[i].value in held
  }

  /** Whether the release of a block ends a wait, and the rundown that follows spins for ever on a lock already held. */
  predicate Spins(s: Dispatcher, t: ThreadId, i: nat, held: set<ObjectId>)
    requires s.HasBlock(t, i)
  {
    Completes(s.threads[t]) && MeetsHeld(s.threads[t].blocks[i := None], held)
  }

  /** Releases a block, and ends the wait if it was the last one or any one is enough. */
  function UnwaitBlock(s: Dispatcher, me: ThreadId, t: ThreadId, i: nat, designal: bool, status: int): (r: Dispatcher)
    requires s.HasBlock(t, i)
    ensures r.threads.Keys == s.threads.Keys
  {
    var r := ReleaseBlock(s, t, i, designal);
    if !Completes(s.threads[t]) then r
    else UnwaitThread(r, me, t, if s.threads[t].active == 1 then status else i)
  }

  /** Lets the first `k` blocks waiting for an object go, in order, each consuming a signal. */
  function ReleaseFirst(s: Dispatcher, me: ThreadId, o: ObjectId, k: nat): Dispatcher
    decreases k
  {
    if k == 0 || o !in s.objects || s.objects[o].waiters == [] then s
    else
      var e := s.objects[o].waiters[0];
      if s.HasBlock(e.thread, e.block)
      then ReleaseFirst(UnwaitBlock(s, me, e.thread, e.block, true, 0), me, o, k - 1)
      else s
  }

  function Min(a: nat, b: nat): nat {
    if a < b then a else b
  }

  /** Signals an object: as many waiting blocks go as there are signals. */
  function Signal(s: Dispatcher, me: ThreadId, o: ObjectId, increment: nat): Dispatcher
    requires o in s.objects
  {
    var signal := Add32(s.objects[o].signal, increment);
    ReleaseFirst(s.WithObject(o, s.objects[o].(signal := signal)), me, o, Min(signal, |s.objects[o].waiters|))
  }

  // --- starting to wait

  /** Puts block `i` and the following ones on the wait lists of their objects. */
  function AddBlocks(objects: map<ObjectId, Object>, me: ThreadId, ids: seq<ObjectId>, i: nat): (r: map<ObjectId,
                     Object>)
    requires i <= |ids|
    ensures r.Keys == objects.Keys
    decreases |ids| - i
  {
    if i == |ids| || ids[i] !in objects then objects
    else
      var obj := objects[ids[i]];
      AddBlocks(objects[ids[i] := obj.(waiters := obj.waiters + [Entry(me, i)])], me, ids, i + 1)
  }

  function StartWait(s: Dispatcher, me: ThreadId, ids: seq<ObjectId>, waitType: WaitType): Dispatcher
    requires me in s.threads
  {
    s.(objects := AddBlocks(s.objects, me, ids, 0))
     .WithThread(me, s.threads[me].(state := Waiting, waitType := waitType,
                                    blocks := seq(|ids|, i requires 0 <= i < |ids| => Some(ids[i])), active := |ids|))
  }

  datatype WaitResult = InvalidParameter | Hang | Fault | Satisfied | TimedOut | Blocked

  datatype Progress = Through(state: Dispatcher) | Stopped(result: WaitResult)

  /**
    The scan over the objects that are already signalled, done with the locks of all objects of
    the wait held.  It reads the object of every block, so a released block would be a null
    reference; and the end of a wait runs down the blocks that are left, taking their locks.
  */
  function Scan(s: Dispatcher, me: ThreadId, ids: seq<ObjectId>, waitType: WaitType, i: nat): (r: Progress)
    requires i <= |ids|
    ensures r.Through? ==> r.state.threads.Keys == s.threads.Keys
    ensures r.Stopped? ==> r.result == Hang || r.result == Fault
    decreases |ids| - i
  {
    if i == |ids| then Through(s)
    else if !s.HasBlock(me, i) then Stopped(Fault)
    else if s.objects[s.BlockObject(me, i)].signal == 0 then Scan(s, me, ids, waitType, i + 1)
    else if Spins(s, me, i, Locks(ids)) then Stopped(Hang)
    else Scan(UnwaitBlock(s, me, me, i, true, if waitType == WaitAny then i else 0), me, ids, waitType, i + 1)
  }

  const THREAD_WAIT_OBJECTS: nat := 3

  /**
    A wait by the running thread.  `ownArray` says that the caller supplies the wait blocks,
    `poll` that the timeout is zero.  An object named twice has its lock taken twice.
  */
  function Wait(s: Dispatcher, me: ThreadId, ids: seq<ObjectId>, waitType: WaitType, ownArray: bool, poll: bool)
    : (Dispatcher, WaitResult)
    requires me in s.threads
  {
    if |ids| > THREAD_WAIT_OBJECTS && !ownArray then (s, InvalidParameter)
    else if !Distinct(ids) then (s, Hang)
    else
      match Scan(StartWait(s, me, ids, waitType), me, ids, waitType, 0)
      case Stopped(result) => (s, result)
      case Through(r) =>
        if r.threads[me].active == 0 || (waitType == WaitAny && r.threads[me].active < |ids|) then (r, Satisfied)
        else if poll then
          var u := UnwaitThread(r, me, me, STATUS_TIMEOUT);
          (u.WithThread(me, u.threads[me].(state := Running)), TimedOut)
        else (r, Blocked)
  }
}
