/** The queue object itself, on real ring buffers. Each method runs from one switch point to
    the next and is proved to be the corresponding step of the queue model. */
module QueueObject {
  import opened Options
  import opened RingBuffers
  import BQ = BlockingQueue

  type Fiber = BQ.Fiber
  type Item = BQ.Item

  const MAX_ENTRIES: nat := UINT_RANGE / 2

  /** `shift_queue` or `push_queue`. Which fibers block and sleep is kept for the proofs. */
  class WaitQueue {
    const queue: RingBuffer<Fiber>
    ghost var blocked: set<Fiber>
    ghost var asleep: set<Fiber>

    ghost predicate Valid()
      reads this, queue
    {
      queue.Valid()
    }

    ghost function Model(): BQ.Waiters
      requires Valid()
      reads this, queue
    {
      BQ.Waiters(queue.Model(), blocked, asleep)
    }

    constructor ()
      ensures Valid() && fresh(queue) && Model() == BQ.NOBODY
    {
      queue := new RingBuffer(0);
      blocked, asleep := {}, {};
    }

    method Enter(f: Fiber, ghost runnable: bool)
      requires Valid() && queue.count < MAX_ENTRIES
      modifies this, queue
      ensures Valid() && Model() == old(Model()).Enter(f, runnable)
    {
      queue.Push(f);
      blocked := blocked + {f};
      asleep := if runnable then asleep else asleep + {f};
    }

    method Leave(f: Fiber)
      requires Valid()
      modifies this, queue
      ensures Valid() && Model() == old(Model()).Leave(f)
    {
      queue.Delete(BQ.Is(f));
      blocked, asleep := blocked - {f}, asleep - {f};
    }

    method WakeFirst()
      requires Valid()
      modifies this, queue
      ensures Valid() && Model() == old(Model()).WakeFirst()
    {
      var fiber := queue.Shift();
      if fiber.Some? {
        asleep := asleep - {fiber.value};
      }
    }

    method WakeAll()
      requires Valid()
      modifies this, queue
      ensures Valid() && Model() == old(Model()).WakeAll()
    {
      while queue.count > 0
        invariant Valid() && Model().WakeAll() == old(Model()).WakeAll()
        decreases queue.count
      {
        WakeFirst();
      }
    }

    method WakeUpTo(stored: nat, capacity: nat)
      requires Valid()
      modifies this, queue
      ensures Valid() && Model() == old(Model()).WakeUpTo(stored, capacity)
    {
      var i := stored;
      while i < capacity && queue.count > 0
        invariant Valid() && Model().WakeUpTo(i, capacity) == old(Model()).WakeUpTo(stored, capacity)
        decreases capacity - i
      {
        WakeFirst();
        i := i + 1;
      }
    }
  }

  class Queue {
    const values: RingBuffer<Item>
    const shifters: WaitQueue
    const pushers: WaitQueue
    var capacity: nat
    var closed: bool
    ghost var pushing: map<Fiber, BQ.PushArg>
    ghost var added: seq<Item>
    ghost var removed: seq<Item>

    ghost predicate Valid()
      reads this, values, shifters, shifters.queue, pushers, pushers.queue
    {
      && shifters != pushers && shifters.queue != pushers.queue
      && (values as object) !in {shifters.queue, pushers.queue}
      && values.Valid() && shifters.Valid() && pushers.Valid()
    }

    ghost function Model(): BQ.State
      requires Valid()
      reads this, values, shifters, shifters.queue, pushers, pushers.queue
    {
      BQ.State(values.Model(), shifters.Model(), pushers.Model(), capacity, closed, pushing, added, removed)
    }

    ghost predicate HasRoom()
      reads values, shifters, shifters.queue, pushers, pushers.queue
    {
      values.count < MAX_ENTRIES && shifters.queue.count < MAX_ENTRIES && pushers.queue.count < MAX_ENTRIES
    }

    constructor (cap: nat)
      ensures Valid() && Model() == BQ.New(cap)
      ensures fresh(values) && fresh(shifters) && fresh(pushers) && fresh(shifters.queue) && fresh(pushers.queue)
    {
      values := new RingBuffer(0);
      shifters := new WaitQueue();
      pushers := new WaitQueue();
      capacity, closed, pushing, added, removed := cap, false, map[], [], [];
    }

    method BlockShift(f: Fiber)
      requires Valid() && HasRoom()
      modifies shifters, shifters.queue
      ensures Valid() && Model() == BQ.BlockShift(old(Model()), f)
    {
      shifters.Enter(f, values.count > 0);
    }

    method TakeValue() returns (item: Item)
      requires Valid() && values.count > 0
      modifies this, values, pushers, pushers.queue
      ensures Valid() && item == old(Model()).values.items[0] && Model() == BQ.TakeValue(old(Model()))
    {
      var v := values.Shift();
      item := v.value;
      removed := removed + [item];
      WakeOnePusher();
    }

    method WakeOnePusher()
      requires Valid()
      modifies pushers, pushers.queue
      ensures Valid() && Model() == BQ.WakeOnePusher(old(Model()))
    {
      if capacity != 0 && capacity > values.count {
        pushers.WakeFirst();
      }
    }

    method WakePushersToCapacity()
      requires Valid()
      modifies pushers, pushers.queue
      ensures Valid() && Model() == BQ.WakePushersToCapacity(old(Model()))
    {
      if capacity != 0 {
        pushers.WakeUpTo(values.count, capacity);
      }
    }

    method ShiftCall(f: Fiber) returns (r: BQ.Result)
      requires Valid() && HasRoom() && BQ.Enabled(Model(), BQ.ShiftCall(f))
      modifies shifters, shifters.queue
      ensures Valid() && Model() == BQ.Step(old(Model()), BQ.ShiftCall(f))
      ensures r == if closed && values.count == 0 then BQ.ClosedQueueError else BQ.Blocked
      ensures r == BQ.ResultOf(old(Model()), BQ.ShiftCall(f))
    {
      if closed && values.count == 0 {
        return BQ.ClosedQueueError;
      }
      BlockShift(f);
      return BQ.Blocked;
    }

    /** The rest of the `Queue_shift_block` loop after the fiber is resumed. */
    method ShiftResume(f: Fiber) returns (r: BQ.Result)
      requires Valid() && HasRoom() && BQ.Enabled(Model(), BQ.ShiftResume(f))
      modifies this, values, shifters, shifters.queue, pushers, pushers.queue
      ensures Valid() && Model() == BQ.Step(old(Model()), BQ.ShiftResume(f))
      ensures r == if old(values.count) > 0 then BQ.Returned(old(Model()).values.items[0])
                   else if closed then BQ.Nothing else BQ.Blocked
      ensures r == BQ.ResultOf(old(Model()), BQ.ShiftResume(f))
    {
      shifters.Leave(f);
      if values.count > 0 {
        var item := TakeValue();
        return BQ.Returned(item);
      }
      if closed {
        return BQ.Nothing;
      }
      BlockShift(f);
      return BQ.Blocked;
    }

    method ShiftNonblock() returns (r: BQ.Result)
      requires Valid()
      modifies this, values, pushers, pushers.queue
      ensures Valid() && Model() == BQ.Step(old(Model()), BQ.ShiftNonblock)
      ensures r == if old(values.count) > 0 then BQ.Returned(old(Model()).values.items[0]) else BQ.ThreadError
      ensures r == BQ.ResultOf(old(Model()), BQ.ShiftNonblock)
    {
      if values.count > 0 {
        var item := TakeValue();
        return BQ.Returned(item);
      }
      return BQ.ThreadError;
    }

    method BlockPush(f: Fiber, ghost arg: BQ.PushArg)
      requires Valid() && HasRoom()
      modifies this, pushers, pushers.queue
      ensures Valid() && Model() == BQ.BlockPush(old(Model()), f, arg)
    {
      pushers.Enter(f, capacity > values.count);
      pushing := pushing[f := arg];
    }

    method Store(arg: BQ.PushArg)
      requires Valid() && HasRoom()
      modifies this, values, shifters, shifters.queue
      ensures Valid() && Model() == BQ.Store(old(Model()), arg)
    {
      shifters.WakeFirst();
      if arg.front {
        values.Unshift(arg.item);
      } else {
        values.Push(arg.item);
      }
      added := added + [arg.item];
    }

    method PushCall(f: Fiber, arg: BQ.PushArg) returns (r: BQ.Result)
      requires Valid() && HasRoom() && BQ.Enabled(Model(), BQ.PushCall(f, arg))
      modifies this, values, shifters, shifters.queue, pushers, pushers.queue
      ensures Valid() && Model() == BQ.Step(old(Model()), BQ.PushCall(f, arg))
      ensures r == if closed then BQ.ClosedQueueError else if capacity > 0 then BQ.Blocked else BQ.Done
      ensures r == BQ.ResultOf(old(Model()), BQ.PushCall(f, arg))
    {
      if closed {
        return BQ.ClosedQueueError;
      }
      if capacity != 0 {
        BlockPush(f, arg);
        return BQ.Blocked;
      }
      Store(arg);
      return BQ.Done;
    }

    /** The rest of the `capped_queue_block_push` loop after the fiber is resumed. */
    method PushResume(f: Fiber, arg: BQ.PushArg) returns (r: BQ.Result)
      requires Valid() && HasRoom() && BQ.Enabled(Model(), BQ.PushResume(f)) && pushing[f] == arg
      modifies this, values, shifters, shifters.queue, pushers, pushers.queue
      ensures Valid() && Model() == BQ.Step(old(Model()), BQ.PushResume(f))
      ensures r == if capacity > old(values.count) then BQ.Done else BQ.Blocked
      ensures r == BQ.ResultOf(old(Model()), BQ.PushResume(f))
    {
      pushers.Leave(f);
      if capacity > values.count {
        Store(arg);
        return BQ.Done;
      }
      BlockPush(f, arg);
      return BQ.Blocked;
    }

    method Delete(item: Item)
      requires Valid()
      modifies values, pushers, pushers.queue
      ensures Valid() && Model() == BQ.Step(old(Model()), BQ.Delete(item))
    {
      values.Delete(BQ.Eq(item));
      WakeOnePusher();
    }

    method Cap(n: nat)
      requires Valid()
      modifies this, pushers, pushers.queue
      ensures Valid() && Model() == BQ.Step(old(Model()), BQ.Cap(n))
    {
      capacity := n;
      if capacity != 0 {
        WakePushersToCapacity();
      } else {
        pushers.WakeAll();
      }
    }

    method Clear()
      requires Valid()
      modifies values, pushers, pushers.queue
      ensures Valid() && Model() == BQ.Step(old(Model()), BQ.Clear)
    {
      values.Clear();
      WakePushersToCapacity();
    }

    method ShiftAll() returns (all: seq<Item>)
      requires Valid()
      modifies this, values, pushers, pushers.queue
      ensures Valid() && Model() == BQ.Step(old(Model()), BQ.ShiftAll) && all == old(Model()).values.items
    {
      all := values.ShiftAll();
      removed := removed + all;
      WakePushersToCapacity();
    }

    method Close()
      requires Valid()
      modifies this, shifters, shifters.queue
      ensures Valid() && Model() == BQ.Step(old(Model()), BQ.Close)
    {
      if !closed {
        closed := true;
        shifters.WakeAll();
      }
    }
  }
}
