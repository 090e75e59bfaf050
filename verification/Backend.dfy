/** The scheduling half of the backend object, on real ring buffers. Each method is proved
    to have exactly the effect the scheduler model gives it. */
module Backend {
  import opened Options
  import opened RingBuffers
  import opened Scheduler

  const MAX_ENTRIES: nat := UINT_RANGE / 2

  /** `runqueue_ring_buffer_delete_if_not_exception`: reports a queued exception, or
      deletes the fiber's entry. */
  method DeleteIfNotException(q: RingBuffer<RunqueueEntry>, f: Fiber) returns (exceptionScheduled: bool)
    requires q.Valid()
    modifies q
    ensures q.Valid()
    ensures var was := old(q.Model()); var i := Scheduler.IndexOf(was, f);
      && exceptionScheduled == (i < |was.items| && was.items[i].value.Exception?)
      && q.Model() == if exceptionScheduled then was else was.Delete(Of(f))
  {
    var i := q.IndexOf(Of(f));
    if i < q.count {
      var idx, e := q.Get(i);
      if e.value.Exception? {
        return true;
      }
      q.DeleteAt(idx, i);
    }
    return false;
  }

  method RunqueuePush(q: RingBuffer<RunqueueEntry>, c: Call, reschedule: bool)
    requires q.Valid() && q.count < MAX_ENTRIES
    modifies q
    ensures q.Valid() && q.Model() == Push(old(q.Model()), c, reschedule)
  {
    if reschedule {
      if c.value.Exception? {
        q.Delete(Of(c.fiber));
      } else {
        var exceptionScheduled := DeleteIfNotException(q, c.fiber);
        if exceptionScheduled {
          return;
        }
      }
    }
    q.Push(RunqueueEntry(c.fiber, c.value));
  }

  method RunqueueUnshift(q: RingBuffer<RunqueueEntry>, c: Call, reschedule: bool)
    requires q.Valid() && q.count < MAX_ENTRIES
    modifies q
    ensures q.Valid() && q.Model() == Unshift(old(q.Model()), c, reschedule)
  {
    if reschedule {
      q.Delete(Of(c.fiber));
    }
    q.Unshift(RunqueueEntry(c.fiber, c.value));
  }

  method RunqueueEnqueue(q: RingBuffer<RunqueueEntry>, c: Call, reschedule: bool)
    requires q.Valid() && q.count < MAX_ENTRIES
    modifies q
    ensures q.Valid() && q.Model() == Enqueue(old(q.Model()), c, reschedule) && q.count <= old(q.count) + 1
  {
    if c.prioritize {
      RunqueueUnshift(q, c, reschedule);
    } else {
      RunqueuePush(q, c, reschedule);
    }
  }

  method RunqueueMigrate(src: RingBuffer<RunqueueEntry>, dest: RingBuffer<RunqueueEntry>, f: Fiber)
    requires src != dest && src.Valid() && dest.Valid() && dest.count < MAX_ENTRIES
    modifies src, dest
    ensures src.Valid() && dest.Valid()
    ensures (src.Model(), dest.Model()) == Migrate(old(src.Model()), old(dest.Model()), f)
  {
    var i := src.IndexOf(Of(f));
    if i < src.count {
      var idx, e := src.Get(i);
      dest.Push(e);
      src.DeleteAt(idx, i);
    }
  }

  function TotalCalls(polls: seq<seq<Call>>): nat {
    if polls == [] then 0 else |polls[0]| + TotalCalls(polls[1..])
  }

  class Backend {
    const runqueue: RingBuffer<RunqueueEntry>
    const parkedQueue: RingBuffer<RunqueueEntry>
    var runnable: set<Fiber>
    var parked: set<Fiber>
    var dead: set<Fiber>
    var switchCount: nat
    ghost var history: map<Fiber, seq<Call>>

    ghost predicate Valid()
      reads this, runqueue, parkedQueue
    {
      runqueue != parkedQueue && runqueue.Valid() && parkedQueue.Valid() && switchCount < UINT_RANGE
    }

    ghost function Model(): State
      requires Valid()
      reads this, runqueue, parkedQueue
    {
      State(runqueue.Model(), parkedQueue.Model(), runnable, parked, dead, switchCount, history)
    }

    /** Room for `n` more entries in either queue. */
    ghost predicate RoomFor(n: nat)
      reads this, runqueue, parkedQueue
    {
      runqueue.count + n <= MAX_ENTRIES && parkedQueue.count + n <= MAX_ENTRIES
    }

    constructor (filler: RunqueueEntry)
      ensures Valid() && Init(Model()) && fresh(runqueue) && fresh(parkedQueue)
    {
      runqueue := new RingBuffer(filler);
      parkedQueue := new RingBuffer(filler);
      runnable, parked, dead, switchCount, history := {}, {}, {}, 0, map[];
    }

    /** `backend_base_schedule_fiber`. */
    method ScheduleFiber(c: Call)
      requires Valid() && RoomFor(1)
      modifies this, runqueue, parkedQueue
      ensures Valid() && Model() == Schedule(old(Model()), c)
      ensures runqueue.count <= old(runqueue.count) + 1 && parkedQueue.count <= old(parkedQueue.count) + 1
    {
      if c.fiber in dead {
        return;
      }
      var alreadyRunnable := c.fiber in runnable;
      RunqueueEnqueue(if c.fiber in parked then parkedQueue else runqueue, c, alreadyRunnable);
      history := history[c.fiber := (if c.fiber in history then history[c.fiber] else []) + [c]];
      runnable := runnable + {c.fiber};
    }

    method ParkFiber(f: Fiber)
      requires Valid() && RoomFor(1)
      modifies this, runqueue, parkedQueue
      ensures Valid() && Model() == Park(old(Model()), f)
    {
      parked := parked + {f};
      RunqueueMigrate(runqueue, parkedQueue, f);
    }

    method UnparkFiber(f: Fiber)
      requires Valid() && RoomFor(1)
      modifies this, runqueue, parkedQueue
      ensures Valid() && Model() == Unpark(old(Model()), f)
    {
      parked := parked - {f};
      RunqueueMigrate(parkedQueue, runqueue, f);
    }

    method UnscheduleFiber(f: Fiber)
      requires Valid()
      modifies this, runqueue
      ensures Valid() && Model() == Unschedule(old(Model()), f)
    {
      runqueue.Delete(Of(f));
      if f !in parked {
        history := history[f := []];
      }
    }

    /** `Backend_poll`: the completions it finds schedule fibers. */
    method Poll(calls: seq<Call>)
      requires Valid() && RoomFor(|calls|)
      modifies this, runqueue, parkedQueue
      ensures Valid() && Model() == ScheduleAll(old(Model()), calls)
      ensures runqueue.count <= old(runqueue.count) + |calls| && parkedQueue.count <= old(parkedQueue.count) + |calls|
    {
      for i := 0 to |calls|
        invariant Valid() && ScheduleAll(Model(), calls[i..]) == ScheduleAll(old(Model()), calls)
        invariant runqueue.count <= old(runqueue.count) + i && parkedQueue.count <= old(parkedQueue.count) + i
      {
        assert calls[i..][1..] == calls[i + 1..];
        ScheduleFiber(calls[i]);
      }
    }

    /** The poll inside a switch, then the clearing of `@runnable` for the fiber to run. */
    method PollAndClear(f: Fiber, calls: seq<Call>)
      requires Valid() && RoomFor(|calls|)
      modifies this, runqueue, parkedQueue
      ensures Valid()
      ensures var s := ScheduleAll(old(Model()), calls);
        Model() == s.(runnable := s.runnable - {f}, history := s.history[f := []])
    {
      Poll(calls);
      runnable := runnable - {f};
      history := history[f := []];
    }

    /** `backend_base_switch_fiber`, up to the transfer to the next fiber. `inPoll` says the
        given poll results ran out inside a blocking poll. */
    method SwitchFiber(current: Fiber, pendingCount: nat, polls: seq<seq<Call>>)
      returns (next: Option<RunqueueEntry>, polled: bool, inPoll: bool)
      requires Valid() && RoomFor(TotalCalls(polls))
      modifies this, runqueue, parkedQueue
      ensures Valid()
      ensures match Switch(old(Model()), current, pendingCount > 0, polls)
        case Resumed(s, e, p) => next == Some(e) && polled == p && !inPoll && Model() == s
        case Idle(s) => next == None && !inPoll && Model() == s
        case InPoll(s) => next == None && inPoll && Model() == s
    {
      next, polled, inPoll := None, false, false;
      switchCount := (switchCount + 1) % UINT_RANGE;
      var i := 0;
      while true
        invariant Valid() && i <= |polls| && RoomFor(TotalCalls(polls[i..]))
        invariant next == None && !inPoll
        invariant SwitchFrom(Model(), current, pendingCount > 0, polled, polls[i..])
               == Switch(old(Model()), current, pendingCount > 0, polls)
        decreases |polls| - i
      {
        next := runqueue.Shift();
        if next.Some? {
          var found: seq<Call> := [];
          if !polled && pendingCount > 0
             && (switchCount % ANTI_STARVE_SWITCH_COUNT_THRESHOLD == 0 || next.value.fiber == current) {
            polled := true;
            found := if i < |polls| then polls[i] else [];
          }
          PollAndClear(next.value.fiber, found);
          return;
        }
        if pendingCount == 0 {
          return;
        }
        if i == |polls| {
          inPoll := true;
          return;
        }
        assert polls[i..][1..] == polls[i + 1..];
        Poll(polls[i]);
        polled := true;
        i := i + 1;
      }
    }
  }
}
