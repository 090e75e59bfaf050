/** `Polyphony::Queue`: a multi-producer, multi-consumer queue, optionally capped. A blocking
    call is cut at its switch point: one step up to `Backend_wait_event`, another from the
    moment the fiber is resumed. Everything between two switch points is atomic. */
module BlockingQueue {
  import opened RingBuffers

  type Fiber = nat
  type Item = int

  function Is(f: Fiber): Fiber -> bool { (x: Fiber) => x == f }

  function Eq(v: Item): Item -> bool { (x: Item) => x == v }

  // ---------- one side of the queue: fibers blocked in shift, or in a capped push ----------

  /** `queue` is `shift_queue` or `push_queue`; `blocked` are the fibers inside the blocking
      call; `asleep` are those nobody has made runnable. A fiber can be runnable and still
      queued: it made itself runnable before blocking, or some other code scheduled it. */
  datatype Waiters = Waiters(queue: Ring<Fiber>, blocked: set<Fiber>, asleep: set<Fiber>) {
    ghost predicate Ok() {
      && Distinct(queue.items)
      && (forall f :: f in queue.items ==> f in blocked)
      && (forall f :: f in asleep ==> f in queue.items)
    }

    /** Fibers that were taken off the wait queue and made runnable. */
    function Ready(): set<Fiber> { set f | f in blocked && f !in queue.items }

    function Enter(f: Fiber, runnable: bool): Waiters {
      Waiters(queue.Push(f), blocked + {f}, if runnable then asleep else asleep + {f})
    }

    function Leave(f: Fiber): Waiters {
      Waiters(queue.Delete(Is(f)), blocked - {f}, asleep - {f})
    }

    /** `queue_schedule_first_blocked_fiber`. */
    function WakeFirst(): Waiters {
      if queue.items == [] then this
      else Waiters(queue.Shift(), blocked, asleep - {queue.items[0]})
    }

    /** `queue_schedule_all_blocked_fibers`. */
    function WakeAll(): Waiters
      decreases |queue.items|
    {
      if queue.items == [] then this else WakeFirst().WakeAll()
    }

    /** `queue_schedule_blocked_fibers_to_capacity`, from `i` stored values. */
    function WakeUpTo(i: nat, capacity: nat): Waiters
      decreases capacity - i
    {
      if i < capacity && queue.items != [] then WakeFirst().WakeUpTo(i + 1, capacity) else this
    }
  }

  /** If some fiber sleeps, at least `n` others are on their way. */
  ghost predicate Enough(w: Waiters, n: int) { w.asleep != {} ==> |w.Ready()| >= n }

  lemma EnterOk(w: Waiters, f: Fiber, runnable: bool)
    requires w.Ok() && f !in w.blocked
    ensures w.Enter(f, runnable).Ok() && w.Enter(f, runnable).Ready() == w.Ready()
  {
    var w' := w.Enter(f, runnable);
    forall g | g in w.asleep ensures g in w'.queue.items {
      var i :| 0 <= i < |w.queue.items| && w.queue.items[i] == g;
      assert w'.queue.items[i] == g;
    }
    assert w'.queue.items[|w.queue.items|] == f;
    assert w'.Ready() == w.Ready();
  }

  ghost predicate Distinct(s: seq<Fiber>) { forall i, j :: 0 <= i < j < |s| ==> s[i] != s[j] }

  lemma Deleted(q: Ring<Fiber>, f: Fiber)
    requires Distinct(q.items) && q.DeletesExactly(Is(f))
    ensures var q' := q.Delete(Is(f)); Distinct(q'.items) && forall g :: g in q'.items <==> g in q.items && g != f
  {
    var i, q' := FirstIndex(q.items, Is(f)), q.Delete(Is(f));
    if i < |q.items| {
      assert Is(f)(q.items[i]);
      RemoveAtKeeps(q.items, i);
    } else {
      forall j | 0 <= j < |q.items| ensures q.items[j] != f { assert !Is(f)(q.items[j]); }
    }
  }

  lemma LeaveOk(w: Waiters, f: Fiber)
    requires w.Ok() && f in w.blocked && w.queue.DeletesExactly(Is(f))
    ensures w.Leave(f).Ok() && f !in w.Leave(f).blocked
    ensures w.Leave(f).Ready() == w.Ready() - {f}
  {
    Deleted(w.queue, f);
  }

  lemma WakeFirstOk(w: Waiters)
    requires w.Ok()
    ensures w.WakeFirst().Ok()
    ensures w.queue.items == [] ==> w.asleep == {}
    ensures w.queue.items != [] ==> |w.WakeFirst().Ready()| == |w.Ready()| + 1
    ensures w.queue.items != [] ==> w.WakeFirst().Ready() == w.Ready() + {w.queue.items[0]}
  {
    if w.queue.items == [] {
      assert forall f :: f in w.asleep ==> f in w.queue.items;
    } else {
      var h, w' := w.queue.items[0], w.WakeFirst();
      assert w.queue.items == [h] + w'.queue.items;
      assert h in w.queue.items;
      assert w'.Ready() == w.Ready() + {h};
    }
  }

  lemma {:induction false} WakeUpToOk(w: Waiters, i: nat, capacity: nat)
    requires w.Ok()
    ensures w.WakeUpTo(i, capacity).Ok() && w.WakeUpTo(i, capacity).blocked == w.blocked
    ensures Enough(w.WakeUpTo(i, capacity), |w.Ready()| + capacity - i)
    decreases capacity - i
  {
    WakeFirstOk(w);
    if i < capacity && w.queue.items != [] {
      WakeUpToOk(w.WakeFirst(), i + 1, capacity);
    }
  }

  lemma {:induction false} WakeAllOk(w: Waiters)
    requires w.Ok()
    ensures w.WakeAll().Ok() && w.WakeAll().asleep == {} && w.WakeAll().blocked == w.blocked
    decreases |w.queue.items|
  {
    WakeFirstOk(w);
    if w.queue.items != [] {
      WakeAllOk(w.WakeFirst());
    }
  }

  // ---------- the queue ----------

  /** What a blocked pusher will add: at the back, or at the front for `unshift`. */
  datatype PushArg = PushArg(item: Item, front: bool)

  /** `added` and `removed` record the items stored by pushes and returned by shifts. */
  datatype State = State(
    values: Ring<Item>,
    shifters: Waiters,
    pushers: Waiters,
    capacity: nat,
    closed: bool,
    pushing: map<Fiber, PushArg>,
    added: seq<Item>,
    removed: seq<Item>)

  datatype Action =
    | ShiftCall(fiber: Fiber)
    | ShiftResume(fiber: Fiber)
    | ShiftNonblock
    | PushCall(fiber: Fiber, arg: PushArg)
    | PushResume(fiber: Fiber)
    | Delete(item: Item)
    | Cap(newCapacity: nat)
    | Clear
    | ShiftAll
    | Close
    | FlushWaiters
    | Stray(fiber: Fiber)      // other code schedules a waiting fiber with a plain value
    | Interrupt(fiber: Fiber)  // the fiber is resumed with an exception

  predicate Enabled(s: State, a: Action) {
    match a
    case ShiftCall(f) => f !in s.shifters.blocked && f !in s.pushers.blocked
    case ShiftResume(f) => f in s.shifters.blocked && f !in s.shifters.asleep
    case PushCall(f, _) => f !in s.shifters.blocked && f !in s.pushers.blocked
    case PushResume(f) => f in s.pushers.blocked && f !in s.pushers.asleep && f in s.pushing
    case Interrupt(f) => f in s.shifters.blocked || f in s.pushers.blocked
    case _ => true
  }

  /** Head of the `Queue_shift_block` loop. */
  function BlockShift(s: State, f: Fiber): State {
    s.(shifters := s.shifters.Enter(f, s.values.items != []))
  }

  /** Head of the `capped_queue_block_push` loop. */
  function BlockPush(s: State, f: Fiber, arg: PushArg): State {
    s.(pushers := s.pushers.Enter(f, s.capacity > |s.values.items|), pushing := s.pushing[f := arg])
  }

  function WakeOnePusher(s: State): State {
    if s.capacity > 0 && s.capacity > |s.values.items| then s.(pushers := s.pushers.WakeFirst()) else s
  }

  function WakePushersToCapacity(s: State): State {
    if s.capacity > 0 then s.(pushers := s.pushers.WakeUpTo(|s.values.items|, s.capacity)) else s
  }

  function TakeValue(s: State): State
    requires s.values.items != []
  {
    WakeOnePusher(s.(values := s.values.Shift(), removed := s.removed + [s.values.items[0]]))
  }

  /** The end of `Queue_push` and `Queue_unshift`. */
  function Store(s: State, arg: PushArg): State {
    s.(shifters := s.shifters.WakeFirst(),
       values := if arg.front then s.values.Unshift(arg.item) else s.values.Push(arg.item),
       added := s.added + [arg.item])
  }

  function Step(s: State, a: Action): State
    requires Enabled(s, a)
  {
    match a
    case ShiftCall(f) => if s.closed && s.values.items == [] then s else BlockShift(s, f)
    case ShiftResume(f) =>
      var s1 := s.(shifters := s.shifters.Leave(f));
      if s.values.items != [] then TakeValue(s1)
      else if s.closed then s1
      else BlockShift(s1, f)
    case ShiftNonblock => if s.values.items != [] then TakeValue(s) else s
    case PushCall(f, arg) =>
      if s.closed then s
      else if s.capacity > 0 then BlockPush(s, f, arg)
      else Store(s, arg)
    case PushResume(f) =>
      var s1 := s.(pushers := s.pushers.Leave(f));
      if s.capacity > |s.values.items| then Store(s1, s.pushing[f]) else BlockPush(s1, f, s.pushing[f])
    case Delete(v) => WakeOnePusher(s.(values := s.values.Delete(Eq(v))))
    case Cap(n) =>
      if n > 0 then WakePushersToCapacity(s.(capacity := n))
      else s.(capacity := 0, pushers := s.pushers.WakeAll())
    case Clear => WakePushersToCapacity(s.(values := s.values.Clear()))
    case ShiftAll => WakePushersToCapacity(s.(values := s.values.Clear(), removed := s.removed + s.values.items))
    case Close => if s.closed then s else s.(closed := true, shifters := s.shifters.WakeAll())
    case FlushWaiters => s.(shifters := s.shifters.WakeAll())
    case Stray(f) =>
      s.(shifters := s.shifters.(asleep := s.shifters.asleep - {f}),
         pushers := s.pushers.(asleep := s.pushers.asleep - {f}))
    case Interrupt(f) =>
      s.(shifters := if f in s.shifters.blocked then s.shifters.Leave(f) else s.shifters,
         pushers := if f in s.pushers.blocked then s.pushers.Leave(f) else s.pushers)
  }

  /** What the wake-up guarantee needs of a step: a resumed fiber's removal from its wait
      queue does not hit the front of a full ring, the cap is not lifted under blocked
      pushers, and an exception does not reach the last fiber that was woken to serve a
      stored value or a free slot while another sleeps. */
  predicate Safe(s: State, a: Action) {
    match a
    case ShiftResume(f) => s.shifters.queue.DeletesExactly(Is(f))
    case PushResume(f) => s.pushers.queue.DeletesExactly(Is(f))
    case Cap(n) => n == 0 ==> s.pushers.blocked == {}
    case Interrupt(f) =>
      && (f in s.shifters.blocked ==> CanSpare(s.shifters, f, |s.values.items|))
      && (f in s.pushers.blocked ==> CanSpare(s.pushers, f, s.capacity - |s.values.items|))
    case _ => true
  }

  predicate CanSpare(w: Waiters, f: Fiber, n: int) {
    && w.queue.DeletesExactly(Is(f))
    && (f in w.Ready() && w.asleep != {} ==> |w.Ready()| > n)
  }

  // ---------- wake-up safety ----------

  ghost predicate Inv(s: State) {
    && s.shifters.Ok() && s.pushers.Ok()
    && Enough(s.shifters, |s.values.items|)
    && (s.capacity > 0 ==> Enough(s.pushers, s.capacity - |s.values.items|))
    && (s.capacity == 0 ==> s.pushers.blocked == {})
  }

  lemma StoreOk(s: State, arg: PushArg)
    requires s.shifters.Ok() && s.pushers.Ok() && Enough(s.shifters, |s.values.items|)
    requires s.capacity > 0 ==> Enough(s.pushers, s.capacity - |s.values.items| - 1)
    requires s.capacity == 0 ==> s.pushers.blocked == {}
    ensures Inv(Store(s, arg))
  {
    WakeFirstOk(s.shifters);
  }

  lemma TakeOk(s: State)
    requires s.values.items != [] && s.shifters.Ok() && s.pushers.Ok()
    requires Enough(s.shifters, |s.values.items| - 1)
    requires s.capacity > 0 ==> Enough(s.pushers, s.capacity - |s.values.items|)
    requires s.capacity == 0 ==> s.pushers.blocked == {}
    ensures Inv(TakeValue(s))
  {
    WakeFirstOk(s.pushers);
  }

  lemma ShiftResumeKeepsInv(s: State, f: Fiber)
    requires Inv(s) && Enabled(s, ShiftResume(f)) && Safe(s, ShiftResume(f))
    ensures Inv(Step(s, ShiftResume(f)))
  {
    LeaveOk(s.shifters, f);
    var w := s.shifters.Leave(f);
    if s.values.items != [] {
      TakeOk(s.(shifters := w));
    } else {
      EnterOk(w, f, false);
    }
  }

  lemma PushResumeKeepsInv(s: State, f: Fiber)
    requires Inv(s) && Enabled(s, PushResume(f)) && Safe(s, PushResume(f))
    ensures Inv(Step(s, PushResume(f)))
  {
    LeaveOk(s.pushers, f);
    var w := s.pushers.Leave(f);
    if s.capacity > |s.values.items| {
      StoreOk(s.(pushers := w), s.pushing[f]);
    } else {
      EnterOk(w, f, false);
    }
  }

  lemma InterruptKeepsInv(s: State, f: Fiber)
    requires Inv(s) && Enabled(s, Interrupt(f)) && Safe(s, Interrupt(f))
    ensures Inv(Step(s, Interrupt(f)))
  {
    if f in s.shifters.blocked { LeaveOk(s.shifters, f); }
    if f in s.pushers.blocked { LeaveOk(s.pushers, f); }
  }

  lemma CallKeepsInv(s: State, a: Action)
    requires Inv(s) && Enabled(s, a) && (a.ShiftCall? || a.ShiftNonblock? || a.PushCall?)
    ensures Inv(Step(s, a))
  {
    match a {
      case ShiftCall(f) => EnterOk(s.shifters, f, s.values.items != []);
      case ShiftNonblock => if s.values.items != [] { TakeOk(s); }
      case PushCall(f, arg) =>
        EnterOk(s.pushers, f, s.capacity > |s.values.items|);
        if !s.closed && s.capacity == 0 { StoreOk(s, arg); }
    }
  }

  lemma BulkKeepsInv(s: State, a: Action)
    requires Inv(s) && (a.Delete? || a.Cap? || a.Clear? || a.ShiftAll?) && Safe(s, a)
    ensures Inv(Step(s, a))
  {
    match a {
      case Delete(v) => WakeFirstOk(s.pushers);
      case Cap(n) => WakeUpToOk(s.pushers, |s.values.items|, n); WakeAllOk(s.pushers);
      case Clear => WakeUpToOk(s.pushers, 0, s.capacity);
      case ShiftAll => WakeUpToOk(s.pushers, 0, s.capacity);
    }
  }

  lemma StepKeepsInv(s: State, a: Action)
    requires Inv(s) && Enabled(s, a) && Safe(s, a)
    ensures Inv(Step(s, a))
  {
    match a {
      case ShiftCall(_) => CallKeepsInv(s, a);
      case ShiftNonblock => CallKeepsInv(s, a);
      case PushCall(_, _) => CallKeepsInv(s, a);
      case ShiftResume(f) => ShiftResumeKeepsInv(s, f);
      case PushResume(f) => PushResumeKeepsInv(s, f);
      case Interrupt(f) => InterruptKeepsInv(s, f);
      case Delete(_) => BulkKeepsInv(s, a);
      case Cap(_) => BulkKeepsInv(s, a);
      case Clear => BulkKeepsInv(s, a);
      case ShiftAll => BulkKeepsInv(s, a);
      case Close => WakeAllOk(s.shifters);
      case FlushWaiters => WakeAllOk(s.shifters);
      case Stray(f) =>
    }
  }

  /** A removal that hits the front of a full ring leaves the fiber queued. */
  lemma BadLeave(w: Waiters, f: Fiber, runnable: bool)
    requires w.Ok() && f in w.blocked && !w.queue.DeletesExactly(Is(f))
    ensures !w.Leave(f).Ok() && !w.Leave(f).Enter(f, runnable).Ok()
  {
    var q := w.queue;
    assert Is(f)(q.items[0]);
    var r := w.Leave(f).queue;
    assert r.items == q.items[..|q.items| - 1] && r.items[0] == f;
    assert f in r.items;
    var e := w.Leave(f).Enter(f, runnable).queue;
    assert e.items[0] == f && e.items[|e.items| - 1] == f;
  }

  /** The side conditions are exact: a step from a good state leads to a good state if and
      only if it meets them. */
  lemma SafeIsExact(s: State, a: Action)
    requires Inv(s) && Enabled(s, a)
    ensures Inv(Step(s, a)) <==> Safe(s, a)
  {
    if Safe(s, a) {
      StepKeepsInv(s, a);
    } else {
      match a {
        case ShiftResume(f) => BadLeave(s.shifters, f, true); BadLeave(s.shifters, f, false);
        case PushResume(f) => BadLeave(s.pushers, f, true); BadLeave(s.pushers, f, false);
        case Cap(_) => WakeAllOk(s.pushers);
        case Interrupt(f) => BadInterrupt(s, f);
        case _ =>
      }
    }
  }

  lemma BadInterrupt(s: State, f: Fiber)
    requires Inv(s) && Enabled(s, Interrupt(f)) && !Safe(s, Interrupt(f))
    ensures !Inv(Step(s, Interrupt(f)))
  {
    if f in s.shifters.blocked {
      BadInterruptOf(s.shifters, f);
    }
    if f in s.pushers.blocked {
      BadInterruptOf(s.pushers, f);
    }
  }

  lemma BadInterruptOf(w: Waiters, f: Fiber)
    requires w.Ok() && f in w.blocked
    ensures if w.queue.DeletesExactly(Is(f)) then w.Leave(f).Ok() && w.Leave(f).Ready() == w.Ready() - {f}
      else !w.Leave(f).Ok()
  {
    if w.queue.DeletesExactly(Is(f)) { LeaveOk(w, f); } else { BadLeave(w, f, true); }
  }

  const NOBODY := Waiters(Ring([], 1), {}, {})

  function New(capacity: nat): State {
    State(Ring([], 1), NOBODY, NOBODY, capacity, false, map[], [], [])
  }

  ghost predicate IsRun(run: seq<State>, acts: seq<Action>) {
    && |run| == |acts| + 1
    && forall i :: 0 <= i < |acts| ==> Enabled(run[i], acts[i]) && run[i + 1] == Step(run[i], acts[i])
  }

  ghost predicate SafeRun(run: seq<State>, acts: seq<Action>) {
    IsRun(run, acts) && forall i :: 0 <= i < |acts| ==> Safe(run[i], acts[i])
  }

  lemma {:induction false} RunKeepsInv(run: seq<State>, acts: seq<Action>, n: nat)
    requires SafeRun(run, acts) && run[0] == New(run[0].capacity) && n < |run|
    ensures Inv(run[n])
  {
    if n > 0 {
      RunKeepsInv(run, acts, n - 1);
      StepKeepsInv(run[n - 1], acts[n - 1]);
    } else {
      assert NOBODY.Ready() == {};
    }
  }

  /** No lost wake-up, in every safe run: while a shifter sleeps, at least as many woken
      shifters are on their way as values are stored; while a pusher sleeps, at least as
      many woken pushers are on their way as slots are free. Sleepers are still queued, so
      a later push or shift can find them. */
  lemma WakeupSafety(run: seq<State>, acts: seq<Action>, n: nat)
    requires SafeRun(run, acts) && run[0] == New(run[0].capacity) && n < |run|
    ensures var s := run[n];
      && (s.shifters.asleep != {} ==> |s.shifters.Ready()| >= |s.values.items|)
      && (s.capacity > 0 && s.pushers.asleep != {} ==> |s.pushers.Ready()| >= s.capacity - |s.values.items|)
      && (forall f :: f in s.shifters.asleep ==> f in s.shifters.queue.items)
      && (forall f :: f in s.pushers.asleep ==> f in s.pushers.queue.items)
  {
    RunKeepsInv(run, acts, n);
  }

  /** A capped push never exceeds the capacity in force when it stores. */
  lemma PushRespectsCapacity(s: State, a: Action)
    requires Enabled(s, a) && (a.PushCall? || a.PushResume?) && s.capacity > 0
    ensures Step(s, a).added != s.added ==> |Step(s, a).values.items| <= s.capacity
  {
  }

  // ---------- first in, first out ----------

  /** The step neither stores at the front nor drops stored values. */
  predicate Fifo(s: State, a: Action) {
    match a
    case PushCall(_, arg) => !arg.front
    case PushResume(f) => f in s.pushing ==> !s.pushing[f].front
    case Delete(_) => false
    case Clear => false
    case _ => true
  }

  /** Conservation: whatever the interleaving of producers and consumers, and also without
      the side conditions above, the items returned so far followed by those stored are
      the items added, in order. */
  lemma {:induction false} FirstInFirstOut(run: seq<State>, acts: seq<Action>, n: nat)
    requires IsRun(run, acts) && run[0] == New(run[0].capacity) && n < |run|
    requires forall i :: 0 <= i < |acts| ==> Fifo(run[i], acts[i])
    ensures run[n].added == run[n].removed + run[n].values.items
  {
    if n > 0 {
      FirstInFirstOut(run, acts, n - 1);
      assert run[n] == Step(run[n - 1], acts[n - 1]);
    }
  }

  // ---------- a double-ended queue, as its users see it ----------

  /** How a segment of a call ends. `Nothing` is the `nil` a shift returns from a closed queue. */
  datatype Result =
    | Blocked
    | Returned(item: Item)
    | ReturnedAll(items: seq<Item>)
    | Done
    | Nothing
    | ClosedQueueError
    | ThreadError

  function ResultOf(s: State, a: Action): Result {
    match a
    case ShiftCall(_) => if s.closed && s.values.items == [] then ClosedQueueError else Blocked
    case ShiftResume(_) =>
      if s.values.items != [] then Returned(s.values.items[0]) else if s.closed then Nothing else Blocked
    case ShiftNonblock => if s.values.items != [] then Returned(s.values.items[0]) else ThreadError
    case PushCall(_, _) => if s.closed then ClosedQueueError else if s.capacity > 0 then Blocked else Done
    case PushResume(_) => if s.capacity > |s.values.items| then Done else Blocked
    case ShiftAll => ReturnedAll(s.values.items)
    case _ => Done
  }

  /** What a user can keep track of: the items, what the blocked pushers are about to store, the
      cap, and whether the queue is closed. */
  datatype Deque = Deque(items: seq<Item>, waiting: map<Fiber, PushArg>, capacity: nat, closed: bool) {
    function Put(arg: PushArg): Deque { this.(items := if arg.front then [arg.item] + items else items + [arg.item]) }
  }

  function RemoveFirst(items: seq<Item>, v: Item): seq<Item> {
    if items == [] then [] else if items[0] == v then items[1..] else [items[0]] + RemoveFirst(items[1..], v)
  }

  /** The effect of a call with that result. */
  function DequeStep(d: Deque, a: Action, r: Result): Deque {
    match a
    case PushCall(f, arg) =>
      if r.Done? then d.Put(arg) else if r.Blocked? then d.(waiting := d.waiting[f := arg]) else d
    case PushResume(f) => if r.Done? && f in d.waiting then d.Put(d.waiting[f]) else d
    case ShiftResume(_) => if r.Returned? && d.items != [] then d.(items := d.items[1..]) else d
    case ShiftNonblock => if r.Returned? && d.items != [] then d.(items := d.items[1..]) else d
    case Delete(v) => d.(items := RemoveFirst(d.items, v))
    case Cap(n) => d.(capacity := n)
    case Clear => d.(items := [])
    case ShiftAll => d.(items := [])
    case Close => d.(closed := true)
    case _ => d
  }

  /** What the result of a call tells its user. */
  ghost predicate Explains(d: Deque, a: Action, r: Result) {
    && (r.Returned? ==> d.items != [] && r.item == d.items[0])
    && (r.ReturnedAll? ==> r.items == d.items)
    && match a {
      case ShiftCall(_) => (r.ClosedQueueError? <==> d.closed && d.items == []) && (r.ClosedQueueError? || r.Blocked?)
      case ShiftResume(_) =>
        (r.Returned? <==> d.items != []) && (r.Nothing? <==> d.items == [] && d.closed)
        && (r.Returned? || r.Nothing? || r.Blocked?)
      case ShiftNonblock => (r.Returned? <==> d.items != []) && (r.Returned? || r.ThreadError?)
      case PushCall(_, _) => (r.ClosedQueueError? <==> d.closed) && (r.Done? <==> !d.closed && d.capacity == 0)
      case PushResume(_) => r.Done? <==> d.capacity > |d.items|
      case ShiftAll => r.ReturnedAll?
      case _ => true
    }
  }

  /** The double-ended queue after the first `n` calls, from the calls and their results alone. */
  function DequeAt(run: seq<State>, acts: seq<Action>, n: nat): Deque
    requires n <= |acts| < |run|
  {
    if n == 0 then Deque([], map[], run[0].capacity, false)
    else DequeStep(DequeAt(run, acts, n - 1), acts[n - 1], ResultOf(run[n - 1], acts[n - 1]))
  }

  ghost predicate SameAs(s: State, d: Deque) {
    s.values.items == d.items && s.pushing == d.waiting && s.capacity == d.capacity && s.closed == d.closed
  }

  lemma {:induction false} RemoveFirstIs(items: seq<Item>, v: Item)
    ensures var i := FirstIndex(items, Eq(v));
      RemoveFirst(items, v) == if i < |items| then RemoveAt(items, i) else items
  {
    if items != [] && items[0] != v {
      assert !Eq(v)(items[0]);
      RemoveFirstIs(items[1..], v);
      var i := FirstIndex(items, Eq(v));
      assert i == FirstIndex(items[1..], Eq(v)) + 1;
      if i < |items| { RemoveAtTail(items, i); }
    } else if items != [] {
      assert Eq(v)(items[0]) && RemoveAt(items, 0) == items[1..];
    }
  }

  lemma StepIsDequeStep(s: State, a: Action, d: Deque)
    requires Enabled(s, a) && SameAs(s, d) && (a.Delete? ==> s.values.DeletesExactly(Eq(a.item)))
    ensures Explains(d, a, ResultOf(s, a)) && SameAs(Step(s, a), DequeStep(d, a, ResultOf(s, a)))
  {
    if a.Delete? { RemoveFirstIs(s.values.items, a.item); }
  }

  /** In every run, whatever blocks, wakes or is interrupted, the calls and their results are those
      of a plain double-ended queue: `push` stores at the back, `unshift` at the front, a shift
      returns the first item, and a resumed call gets on exactly when there is an item or a slot. */
  lemma {:induction false} QueueIsDeque(run: seq<State>, acts: seq<Action>, n: nat)
    requires IsRun(run, acts) && run[0] == New(run[0].capacity) && n <= |acts|
    requires forall i :: 0 <= i < |acts| && acts[i].Delete? ==> run[i].values.DeletesExactly(Eq(acts[i].item))
    ensures SameAs(run[n], DequeAt(run, acts, n))
    ensures n < |acts| ==> Explains(DequeAt(run, acts, n), acts[n], ResultOf(run[n], acts[n]))
  {
    if n > 0 {
      QueueIsDeque(run, acts, n - 1);
      assert run[n] == Step(run[n - 1], acts[n - 1]);
      StepIsDequeStep(run[n - 1], acts[n - 1], DequeAt(run, acts, n - 1));
    }
    if n < |acts| { StepIsDequeStep(run[n], acts[n], DequeAt(run, acts, n)); }
  }

  /** Waiters are served in the order they came: a push that stores wakes the first shifter in
      line, a shift that makes room wakes the first pusher in line. */
  lemma FirstInLineIsWoken(s: State, a: Action)
    requires Inv(s) && Enabled(s, a)
    ensures a.PushCall? && ResultOf(s, a).Done? && s.shifters.queue.items != [] ==>
      Step(s, a).shifters.Ready() == s.shifters.Ready() + {s.shifters.queue.items[0]}
    ensures a.ShiftNonblock? && 0 < |s.values.items| <= s.capacity && s.pushers.queue.items != [] ==>
      Step(s, a).pushers.Ready() == s.pushers.Ready() + {s.pushers.queue.items[0]}
  {
    WakeFirstOk(s.shifters);
    WakeFirstOk(s.pushers);
  }

  /** Other code may schedule a waiting fiber; it then looks at the queue again. */
  lemma StrayWakes(s: State, f: Fiber)
    ensures f in s.shifters.blocked ==> Enabled(Step(s, Stray(f)), ShiftResume(f))
    ensures f in s.pushers.blocked && f in s.pushing ==> Enabled(Step(s, Stray(f)), PushResume(f))
  {
  }

  /** Once the queue is closed no shifter sleeps; nor does one right after its waiters were flushed. */
  lemma {:induction false} ClosedQueueHasNoSleepers(run: seq<State>, acts: seq<Action>, n: nat)
    requires SafeRun(run, acts) && run[0] == New(run[0].capacity) && n < |run|
    ensures run[n].closed || (n > 0 && acts[n - 1].FlushWaiters?) ==> run[n].shifters.asleep == {}
  {
    if n > 0 {
      ClosedQueueHasNoSleepers(run, acts, n - 1);
      RunKeepsInv(run, acts, n - 1);
      assert run[n] == Step(run[n - 1], acts[n - 1]);
      WakeAllOk(run[n - 1].shifters);
    }
  }

  // ---------- what goes wrong without the side conditions ----------

  function Exec(s: State, acts: seq<Action>): State
    decreases |acts|
  {
    if acts == [] || !Enabled(s, acts[0]) then s else Exec(Step(s, acts[0]), acts[1..])
  }

  /** Two consumers sleep, one value arrives, and the consumer it woke is resumed with an
      exception instead: the other sleeps on while the value is there. */
  lemma ExceptionLosesWakeup()
    ensures var s := Exec(New(0), [ShiftCall(1), ShiftCall(2), PushCall(3, PushArg(9, false)), Interrupt(1)]);
      2 in s.shifters.asleep && s.shifters.Ready() == {} && s.values.items == [9]
  {
    var s0 := New(0);
    var s1 := Step(s0, ShiftCall(1));
    var s2 := Step(s1, ShiftCall(2));
    var s3 := Step(s2, PushCall(3, PushArg(9, false)));
    var s4 := Step(s3, Interrupt(1));
    assert s1.shifters.queue == Ring([1], 1);
    assert s2.shifters.queue.items == [1, 2];
    assert s3.shifters.queue.items == [2];
    assert !Is(1)(2);
    assert s4.shifters == Waiters(s3.shifters.queue, {2}, {2});
    ExecFour(s0, ShiftCall(1), ShiftCall(2), PushCall(3, PushArg(9, false)), Interrupt(1));
  }

  lemma ExecFour(s: State, a: Action, b: Action, c: Action, d: Action)
    requires Enabled(s, a)
    requires Enabled(Step(s, a), b)
    requires Enabled(Step(Step(s, a), b), c)
    requires Enabled(Step(Step(Step(s, a), b), c), d)
    ensures Exec(s, [a, b, c, d]) == Step(Step(Step(Step(s, a), b), c), d)
  {
    var s1 := Step(s, a);
    var s2 := Step(s1, b);
    var s3 := Step(s2, c);
    ExecOne(s, a, [b, c, d]);
    ExecOne(s1, b, [c, d]);
    ExecOne(s2, c, [d]);
    ExecOne(s3, d, []);
    assert [a, b, c, d] == [a] + [b, c, d] && [b, c, d] == [b] + [c, d] && [c, d] == [c] + [d] && [d] == [d] + [];
  }

  lemma ExecOne(s: State, a: Action, rest: seq<Action>)
    requires Enabled(s, a)
    ensures Exec(s, [a] + rest) == Exec(Step(s, a), rest)
  {
    assert ([a] + rest)[1..] == rest;
  }

  /** A consumer that is runnable at the front of a full four-slot wait queue resumes and
      finds nothing: its removal drops the last sleeper from the queue for good. */
  lemma FullWaitQueueLosesSleeper(s: State)
    requires s.shifters == Waiters(Ring([1, 2, 3, 4], 4), {1, 2, 3, 4}, {2, 3, 4})
    requires s.values.items == [] && !s.closed
    ensures var s' := Step(s, ShiftResume(1));
      4 in s'.shifters.asleep && 4 !in s'.shifters.queue.items
  {
    assert Is(1)(1);
    assert s.shifters.Leave(1).queue.items == [1, 2, 3];
    assert Step(s, ShiftResume(1)).shifters.queue.items == [1, 2, 3, 1];
  }

  /** Lifting the cap wakes every blocked pusher, and each goes back to sleep: with
      capacity 0 the test `capacity > count` never holds. */
  lemma UncappingStrandsPushers(s: State, f: Fiber)
    requires s.capacity == 0 && Enabled(s, PushResume(f))
    ensures f in Step(s, PushResume(f)).pushers.asleep && Step(s, PushResume(f)).added == s.added
  {
  }
}
