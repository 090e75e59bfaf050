/** The fiber scheduler of one thread: a run queue, a queue for parked fibers, and the
    `@runnable`/`@parked` flags of fibers. */
module Scheduler {
  import opened RingBuffers

  type Fiber = nat

  datatype Value = Plain(v: int) | Exception(v: int)

  datatype RunqueueEntry = RunqueueEntry(fiber: Fiber, value: Value)

  /** One call to `backend_base_schedule_fiber`. */
  datatype Call = Call(fiber: Fiber, value: Value, prioritize: bool)

  type Queue = Ring<RunqueueEntry>

  function Of(f: Fiber): RunqueueEntry -> bool { (e: RunqueueEntry) => e.fiber == f }

  function IndexOf(q: Queue, f: Fiber): nat { FirstIndex(q.items, Of(f)) }

  // ---------- run queues ----------

  /** `runqueue_push`: a plain value gives way to a queued exception. */
  function Push(q: Queue, c: Call, reschedule: bool): Queue {
    if !reschedule then q.Push(RunqueueEntry(c.fiber, c.value))
    else if KeepsException(q, c) then q
    else q.Delete(Of(c.fiber)).Push(RunqueueEntry(c.fiber, c.value))
  }

  predicate KeepsException(q: Queue, c: Call) {
    var i := IndexOf(q, c.fiber);
    c.value.Plain? && i < |q.items| && q.items[i].value.Exception?
  }

  /** `runqueue_unshift`. */
  function Unshift(q: Queue, c: Call, reschedule: bool): Queue {
    (if reschedule then q.Delete(Of(c.fiber)) else q).Unshift(RunqueueEntry(c.fiber, c.value))
  }

  function Enqueue(q: Queue, c: Call, reschedule: bool): Queue {
    if c.prioritize then Unshift(q, c, reschedule) else Push(q, c, reschedule)
  }

  // ---------- the scheduler's state ----------

  /** `history` records, per fiber, the schedule calls since it last ran or was unscheduled. */
  datatype State = State(
    runqueue: Queue,
    parkedQueue: Queue,
    runnable: set<Fiber>,
    parked: set<Fiber>,
    dead: set<Fiber>,
    switchCount: nat,
    history: map<Fiber, seq<Call>>)
  {
    function History(f: Fiber): seq<Call> { if f in history then history[f] else [] }

    function QueueOf(f: Fiber): Queue { if f in parked then parkedQueue else runqueue }

    function WithQueueOf(f: Fiber, q: Queue): State {
      if f in parked then this.(parkedQueue := q) else this.(runqueue := q)
    }
  }

  function Schedule(s: State, c: Call): State {
    if c.fiber in s.dead then s
    else
      s.WithQueueOf(c.fiber, Enqueue(s.QueueOf(c.fiber), c, c.fiber in s.runnable))
       .(runnable := s.runnable + {c.fiber},
         history := s.history[c.fiber := s.History(c.fiber) + [c]])
  }

  function ScheduleAll(s: State, calls: seq<Call>): State
    decreases |calls|
  {
    if calls == [] then s else ScheduleAll(Schedule(s, calls[0]), calls[1..])
  }

  /** `runqueue_migrate`: move the fiber's entry, if any, to the back of the other queue. */
  function Migrate(src: Queue, dest: Queue, f: Fiber): (Queue, Queue) {
    var i := IndexOf(src, f);
    if i < |src.items| then (src.DeleteAt(i), dest.Push(src.items[i])) else (src, dest)
  }

  function Park(s: State, f: Fiber): State {
    var (r, p) := Migrate(s.runqueue, s.parkedQueue, f);
    s.(runqueue := r, parkedQueue := p, parked := s.parked + {f})
  }

  function Unpark(s: State, f: Fiber): State {
    var (p, r) := Migrate(s.parkedQueue, s.runqueue, f);
    s.(runqueue := r, parkedQueue := p, parked := s.parked - {f})
  }

  /** `Backend_unschedule_fiber` looks at the run queue only and leaves `@runnable` alone. */
  function Unschedule(s: State, f: Fiber): State {
    s.(runqueue := s.runqueue.Delete(Of(f)),
       history := if f in s.parked then s.history else s.history[f := []])
  }

  /** The tail of `backend_base_switch_fiber`: the front entry leaves the queue, a poll may
      schedule fibers, then the `@runnable` flag of the fiber to run is cleared. */
  function Take(s: State, polled: seq<Call>): State
    requires s.runqueue.items != []
  {
    var next := s.runqueue.items[0].fiber;
    var s' := ScheduleAll(s.(runqueue := s.runqueue.Shift()), polled);
    s'.(runnable := s'.runnable - {next}, history := s'.history[next := []])
  }

  datatype Action =
    | DoSchedule(call: Call)
    | DoPark(fiber: Fiber)
    | DoUnpark(fiber: Fiber)
    | DoUnschedule(fiber: Fiber)
    | DoTake(polled: seq<Call>)
    | DoDie(fiber: Fiber)

  predicate Enabled(s: State, a: Action) { a.DoTake? ==> s.runqueue.items != [] }

  function Step(s: State, a: Action): State
    requires Enabled(s, a)
  {
    match a
    case DoSchedule(c) => Schedule(s, c)
    case DoPark(f) => Park(s, f)
    case DoUnpark(f) => Unpark(s, f)
    case DoUnschedule(f) => Unschedule(s, f)
    case DoTake(polled) => Take(s, polled)
    case DoDie(f) => s.(dead := s.dead + {f})
  }

  // ---------- the side conditions the code needs ----------

  /** The call deletes nothing, or deletes exactly the fiber's own entry. */
  predicate SafeCall(s: State, c: Call) {
    var q := s.QueueOf(c.fiber);
    c.fiber in s.dead || c.fiber !in s.runnable
    || (!c.prioritize && KeepsException(q, c)) || q.DeletesExactly(Of(c.fiber))
  }

  predicate SafeCalls(s: State, calls: seq<Call>)
    decreases |calls|
  {
    calls != [] ==> SafeCall(s, calls[0]) && SafeCalls(Schedule(s, calls[0]), calls[1..])
  }

  /** No deletion hits the front of a full buffer, and the poll inside a switch does not
      reschedule the fiber that was just taken off the queue, unless it is dead. */
  predicate Safe(s: State, a: Action)
    requires Enabled(s, a)
  {
    match a
    case DoSchedule(c) => SafeCall(s, c)
    case DoPark(f) => s.runqueue.DeletesExactly(Of(f))
    case DoUnpark(f) => s.parkedQueue.DeletesExactly(Of(f))
    case DoUnschedule(f) => s.runqueue.DeletesExactly(Of(f))
    case DoTake(polled) =>
      && (forall c :: c in polled && c.fiber == s.runqueue.items[0].fiber ==> c.fiber in s.dead)
      && SafeCalls(s.(runqueue := s.runqueue.Shift()), polled)
    case DoDie(f) => true
  }

  // ---------- the resume value ----------

  /** What a fiber is resumed with after a series of schedule calls: a plain value never
      displaces an exception, a prioritised call always replaces. */
  function Fold(h: seq<Call>): Value
    requires h != []
  {
    var last := h[|h| - 1];
    if |h| == 1 || last.prioritize || last.value.Exception? || Fold(h[..|h| - 1]).Plain?
    then last.value
    else Fold(h[..|h| - 1])
  }

  /** An exception survives any number of later plain, unprioritised calls. */
  lemma {:induction false} ExceptionSurvives(h: seq<Call>, i: nat)
    requires i < |h| && h[i].value.Exception?
    requires forall j :: i < j < |h| ==> !h[j].prioritize && h[j].value.Plain?
    ensures Fold(h) == h[i].value
  {
    if i < |h| - 1 {
      ExceptionSurvives(h[..|h| - 1], i);
    }
  }

  // ---------- the invariant ----------

  ghost predicate Distinct(s: seq<RunqueueEntry>) {
    forall i, j :: 0 <= i < j < |s| ==> s[i].fiber != s[j].fiber
  }

  ghost predicate EntryOk(s: State, e: RunqueueEntry) {
    e.fiber in s.runnable && s.History(e.fiber) != [] && e.value == Fold(s.History(e.fiber))
  }

  ghost predicate Queued(q: Queue, f: Fiber) { exists e :: e in q.items && e.fiber == f }

  ghost predicate Inv(s: State) {
    && Distinct(s.runqueue.items) && Distinct(s.parkedQueue.items)
    && (forall e :: e in s.runqueue.items ==> e.fiber !in s.parked && EntryOk(s, e))
    && (forall e :: e in s.parkedQueue.items ==> e.fiber in s.parked && EntryOk(s, e))
    && (forall f :: s.History(f) != [] ==> Queued(s.QueueOf(f), f))
  }

  /** The entries of `q'` are those of `q` with the fiber's own entry replaced by `own`. */
  ghost predicate Replaces(q: Queue, q': Queue, f: Fiber, own: set<RunqueueEntry>) {
    && Distinct(q'.items)
    && forall e :: e in q'.items <==> (e in q.items && e.fiber != f) || e in own
  }

  lemma DeleteRemoves(q: Queue, f: Fiber)
    requires Distinct(q.items) && q.DeletesExactly(Of(f))
    ensures Replaces(q, q.Delete(Of(f)), f, {})
  {
    var i, q' := IndexOf(q, f), q.Delete(Of(f));
    if i < |q.items| {
      assert Of(f)(q.items[i]);
      RemoveAtKeeps(q.items, i);
    } else {
      forall j | 0 <= j < |q.items| ensures q.items[j].fiber != f { assert !Of(f)(q.items[j]); }
    }
  }

  /** The one entry of a queued fiber. */
  lemma QueuedEntry(q: Queue, f: Fiber) returns (i: nat)
    requires Distinct(q.items)
    ensures i == IndexOf(q, f)
    ensures Queued(q, f) <==> i < |q.items|
    ensures i < |q.items| ==> q.items[i].fiber == f
    ensures i < |q.items| ==> forall e :: e in q.items && e.fiber == f ==> e == q.items[i]
  {
    i := IndexOf(q, f);
    forall j | 0 <= j < i ensures q.items[j].fiber != f { assert !Of(f)(q.items[j]); }
    if i < |q.items| {
      assert Of(f)(q.items[i]) && q.items[i] in q.items;
    }
  }

  /** The heart of the rescheduling rules: after a call the fiber has exactly one entry,
      holding the fold of the calls so far. */
  lemma EnqueueEffect(s: State, c: Call)
    requires Inv(s) && SafeCall(s, c) && c.fiber !in s.dead
    ensures var q, q' := s.QueueOf(c.fiber), Schedule(s, c).QueueOf(c.fiber);
            Replaces(q, q', c.fiber, {RunqueueEntry(c.fiber, Fold(s.History(c.fiber) + [c]))})
  {
    var q, f := s.QueueOf(c.fiber), c.fiber;
    var h := s.History(f);
    assert (h + [c])[..|h|] == h;
    var i := QueuedEntry(q, f);
    var e := RunqueueEntry(f, c.value);
    if f in s.runnable && !c.prioritize && KeepsException(q, c) {
      assert q.items[i] in q.items;
    } else if f in s.runnable {
      DeleteRemoves(q, f);
      var d := q.Delete(Of(f));
      Attach(q, d, f, e);
      if i < |q.items| { assert q.items[i] in q.items; }
    } else {
      assert !Queued(q, f);
      Attach(q, q, f, e);
    }
  }

  lemma Attach(q: Queue, d: Queue, f: Fiber, e: RunqueueEntry)
    requires Replaces(q, d, f, {}) && e.fiber == f
    ensures Replaces(q, d.Push(e), f, {e}) && Replaces(q, d.Unshift(e), f, {e})
  {
    forall i | 0 <= i < |d.items| ensures d.items[i].fiber != f { assert d.items[i] in d.items; }
  }

  /** A step that only concerns fiber `f` keeps the invariant if what it leaves queued for
      `f` is right. */
  lemma InvByReplacement(s: State, s': State, f: Fiber, ownR: set<RunqueueEntry>, ownP: set<RunqueueEntry>)
    requires Inv(s)
    requires Replaces(s.runqueue, s'.runqueue, f, ownR) && Replaces(s.parkedQueue, s'.parkedQueue, f, ownP)
    requires s.parked - {f} == s'.parked - {f} && s.runnable - {f} <= s'.runnable
    requires forall g :: g != f ==> s'.History(g) == s.History(g)
    requires forall e :: e in ownR ==> e.fiber == f && f !in s'.parked && EntryOk(s', e)
    requires forall e :: e in ownP ==> e.fiber == f && f in s'.parked && EntryOk(s', e)
    requires s'.History(f) != [] ==> (if f in s'.parked then ownP else ownR) != {}
    ensures Inv(s')
  {
    forall g | s'.History(g) != [] ensures Queued(s'.QueueOf(g), g) {
      if g == f {
        var e :| e in if f in s'.parked then ownP else ownR;
        assert e in s'.QueueOf(f).items;
      } else {
        assert s.History(g) != [] && g in s.parked - {f} <==> g in s'.parked - {f};
        var e :| e in s.QueueOf(g).items && e.fiber == g;
        assert e in s'.QueueOf(g).items;
      }
    }
    forall e | e in s'.runqueue.items ensures e.fiber !in s'.parked && EntryOk(s', e) {
      assert e !in ownR ==> EntryOk(s, e) && (e.fiber in s.parked - {f} <==> e.fiber in s'.parked - {f});
    }
    forall e | e in s'.parkedQueue.items ensures e.fiber in s'.parked && EntryOk(s', e) {
      assert e !in ownP ==> EntryOk(s, e) && (e.fiber in s.parked - {f} <==> e.fiber in s'.parked - {f});
    }
  }

  /** A queue that holds nothing of `f` is unchanged by removing `f` from it. */
  lemma OtherQueue(s: State, f: Fiber)
    requires Inv(s)
    ensures f in s.parked ==> Replaces(s.runqueue, s.runqueue, f, {})
    ensures f !in s.parked ==> Replaces(s.parkedQueue, s.parkedQueue, f, {})
  {
  }

  lemma ScheduleKeepsInv(s: State, c: Call)
    requires Inv(s) && SafeCall(s, c)
    ensures Inv(Schedule(s, c))
  {
    if c.fiber !in s.dead {
      var s', f := Schedule(s, c), c.fiber;
      EnqueueEffect(s, c);
      OtherQueue(s, f);
      assert s'.History(f) == s.History(f) + [c];
      var own := {RunqueueEntry(f, Fold(s'.History(f)))};
      InvByReplacement(s, s', f, if f in s.parked then {} else own, if f in s.parked then own else {});
    }
  }

  lemma {:induction false} ScheduleAllKeepsInv(s: State, calls: seq<Call>)
    requires Inv(s) && SafeCalls(s, calls)
    ensures Inv(ScheduleAll(s, calls))
    decreases |calls|
  {
    if calls != [] {
      ScheduleKeepsInv(s, calls[0]);
      ScheduleAllKeepsInv(Schedule(s, calls[0]), calls[1..]);
    }
  }

  lemma MigrateEffect(src: Queue, dest: Queue, f: Fiber)
    requires Distinct(src.items) && Distinct(dest.items) && !Queued(dest, f)
    requires src.DeletesExactly(Of(f))
    ensures var (src', dest') := Migrate(src, dest, f);
            && Replaces(src, src', f, {})
            && Replaces(dest, dest', f, set e | e in src.items && e.fiber == f)
  {
    var i := QueuedEntry(src, f);
    DeleteRemoves(src, f);
    if i < |src.items| {
      assert Replaces(dest, dest, f, {});
      Attach(dest, dest, f, src.items[i]);
      assert src.items[i] in src.items;
      assert (set e | e in src.items && e.fiber == f) == {src.items[i]};
    } else {
      assert (set e | e in src.items && e.fiber == f) == {};
    }
  }

  /** What a migration carries over is still right for the new flag. */
  lemma MovedEntries(s: State, s': State, f: Fiber)
    requires Inv(s) && s'.runnable == s.runnable && s'.history == s.history
    ensures var own := set e | e in s.QueueOf(f).items && e.fiber == f;
      && (forall e :: e in own ==> EntryOk(s', e))
      && (s.History(f) != [] ==> own != {})
      && (forall g :: s'.History(g) == s.History(g))
  {
    var own := set e | e in s.QueueOf(f).items && e.fiber == f;
    forall e | e in own ensures EntryOk(s', e) { assert EntryOk(s, e); }
    if s.History(f) != [] {
      var e :| e in s.QueueOf(f).items && e.fiber == f;
      assert e in own;
    }
  }

  lemma ParkKeepsInv(s: State, f: Fiber)
    requires Inv(s) && s.runqueue.DeletesExactly(Of(f))
    ensures Inv(Park(s, f))
  {
    var _ := QueuedEntry(s.runqueue, f);
    if f in s.parked {
      assert Park(s, f) == s by { assert !Queued(s.runqueue, f); }
    } else {
      assert !Queued(s.parkedQueue, f);
      MigrateEffect(s.runqueue, s.parkedQueue, f);
      MovedEntries(s, Park(s, f), f);
      InvByReplacement(s, Park(s, f), f, {}, set e | e in s.runqueue.items && e.fiber == f);
    }
  }

  lemma UnparkKeepsInv(s: State, f: Fiber)
    requires Inv(s) && s.parkedQueue.DeletesExactly(Of(f))
    ensures Inv(Unpark(s, f))
  {
    var _ := QueuedEntry(s.parkedQueue, f);
    if f !in s.parked {
      assert Unpark(s, f) == s by { assert !Queued(s.parkedQueue, f); }
    } else {
      assert !Queued(s.runqueue, f);
      MigrateEffect(s.parkedQueue, s.runqueue, f);
      MovedEntries(s, Unpark(s, f), f);
      InvByReplacement(s, Unpark(s, f), f, set e | e in s.parkedQueue.items && e.fiber == f, {});
    }
  }

  /** The front entry taken out, as if its fiber had been unscheduled. */
  lemma FrontTakenOut(s: State)
    requires Inv(s) && s.runqueue.items != []
    ensures Inv(s.(runqueue := s.runqueue.Shift(), history := s.history[s.runqueue.items[0].fiber := []]))
  {
    var next := s.runqueue.items[0];
    assert next in s.runqueue.items;
    var s1 := s.(runqueue := s.runqueue.Shift(), history := s.history[next.fiber := []]);
    OtherQueue(s, next.fiber);
    assert s.runqueue.items == [next] + s1.runqueue.items;
    InvByReplacement(s, s1, next.fiber, {}, {});
  }

  lemma TakeKeepsInv(s: State, polled: seq<Call>)
    requires Inv(s) && s.runqueue.items != [] && Safe(s, DoTake(polled))
    ensures Inv(Take(s, polled))
  {
    var f := s.runqueue.items[0].fiber;
    // Nothing the poll does looks at the entry or the history of this fiber.
    var s1 := s.(runqueue := s.runqueue.Shift(), history := s.history[f := []]);
    FrontTakenOut(s);
    HistoryIrrelevant(s.(runqueue := s.runqueue.Shift()), s1, f, polled);
    ScheduleAllKeepsInv(s1, polled);
    NotTouched(s1, f, polled);
    var t := ScheduleAll(s1, polled);
    NoHistoryNoEntry(t, f);
    InvByReplacement(t, Take(s, polled), f, {}, {});
  }

  lemma NoHistoryNoEntry(t: State, f: Fiber)
    requires Inv(t) && t.History(f) == []
    ensures Replaces(t.runqueue, t.runqueue, f, {}) && Replaces(t.parkedQueue, t.parkedQueue, f, {})
  {
    forall e | e in t.runqueue.items || e in t.parkedQueue.items ensures e.fiber != f { assert EntryOk(t, e); }
  }

  /** Calls for other fibers, and for a dead one, leave a fiber's history alone. */
  lemma {:induction false} NotTouched(s: State, f: Fiber, calls: seq<Call>)
    requires forall c :: c in calls && c.fiber == f ==> f in s.dead
    ensures ScheduleAll(s, calls).History(f) == s.History(f)
    decreases |calls|
  {
    if calls != [] {
      assert calls[0] in calls;
      NotTouched(Schedule(s, calls[0]), f, calls[1..]);
    }
  }

  /** Two states that differ in one fiber's recorded history behave alike on calls for
      other fibers. */
  lemma {:induction false} HistoryIrrelevant(s: State, t: State, f: Fiber, calls: seq<Call>)
    requires t == s.(history := t.history) && t.history == s.history[f := []]
    requires forall c :: c in calls && c.fiber == f ==> f in s.dead
    requires SafeCalls(s, calls)
    ensures SafeCalls(t, calls)
    ensures var s', t' := ScheduleAll(s, calls), ScheduleAll(t, calls);
            t' == s'.(history := t'.history) && t'.history == s'.history[f := []]
    decreases |calls|
  {
    if calls != [] {
      var c := calls[0];
      assert c in calls;
      var s', t' := Schedule(s, c), Schedule(t, c);
      assert t'.history == s'.history[f := []];
      HistoryIrrelevant(s', t', f, calls[1..]);
    }
  }

  lemma UnscheduleKeepsInv(s: State, f: Fiber)
    requires Inv(s) && s.runqueue.DeletesExactly(Of(f))
    ensures Inv(Unschedule(s, f))
  {
    DeleteRemoves(s.runqueue, f);
    if f !in s.parked {
      OtherQueue(s, f);
      InvByReplacement(s, Unschedule(s, f), f, {}, {});
    } else {
      assert !Queued(s.runqueue, f);
      var _ := QueuedEntry(s.runqueue, f);
      assert Unschedule(s, f) == s;
    }
  }

  lemma StepKeepsInv(s: State, a: Action)
    requires Inv(s) && Enabled(s, a) && Safe(s, a)
    ensures Inv(Step(s, a))
  {
    match a {
      case DoSchedule(c) => ScheduleKeepsInv(s, c);
      case DoPark(f) => ParkKeepsInv(s, f);
      case DoUnpark(f) => UnparkKeepsInv(s, f);
      case DoUnschedule(f) => UnscheduleKeepsInv(s, f);
      case DoTake(polled) => TakeKeepsInv(s, polled);
      case DoDie(f) =>
        forall g | Step(s, a).History(g) != [] ensures Queued(s.QueueOf(g), g) { assert s.History(g) != []; }
    }
  }

  // ---------- runs ----------

  ghost predicate Init(s: State) {
    s.runqueue == Ring([], 1) && s.parkedQueue == Ring([], 1) && s.runnable == {} && s.history == map[]
  }

  ghost predicate IsRun(run: seq<State>, acts: seq<Action>) {
    && |run| == |acts| + 1
    && forall i :: 0 <= i < |acts| ==>
         Enabled(run[i], acts[i]) && Safe(run[i], acts[i]) && run[i + 1] == Step(run[i], acts[i])
  }

  lemma {:induction false} RunKeepsInv(run: seq<State>, acts: seq<Action>, n: nat)
    requires IsRun(run, acts) && Init(run[0]) && n < |run|
    ensures Inv(run[n])
  {
    if n > 0 {
      RunKeepsInv(run, acts, n - 1);
      StepKeepsInv(run[n - 1], acts[n - 1]);
    }
  }

  /** In every safe run each fiber has at most one entry over both queues, it sits in the
      queue the parked flag selects, and a switch resumes the front fiber with the fold of
      the schedule calls made for it since it last ran. */
  lemma OneEntryHoldingTheFold(run: seq<State>, acts: seq<Action>, n: nat, f: Fiber)
    requires IsRun(run, acts) && Init(run[0]) && n < |run|
    ensures var s := run[n];
      && (forall i, j :: 0 <= i < j < |s.runqueue.items| ==> s.runqueue.items[i].fiber != s.runqueue.items[j].fiber)
      && (forall i, j :: 0 <= i < j < |s.parkedQueue.items| ==>
            s.parkedQueue.items[i].fiber != s.parkedQueue.items[j].fiber)
      && (Queued(s.runqueue, f) ==> f !in s.parked && !Queued(s.parkedQueue, f))
      && (Queued(s.parkedQueue, f) ==> f in s.parked)
      && (Queued(s.QueueOf(f), f) <==> s.History(f) != [])
      && (n < |acts| && acts[n].DoTake? ==>
            var next := s.runqueue.items[0];
            s.History(next.fiber) != [] && next.value == Fold(s.History(next.fiber)))
  {
    RunKeepsInv(run, acts, n);
    var s := run[n];
    if n < |acts| && acts[n].DoTake? {
      assert s.runqueue.items[0] in s.runqueue.items;
    }
  }

  // ---------- what goes wrong without the side conditions ----------

  function Numbered(fibers: seq<Fiber>): seq<RunqueueEntry> {
    seq(|fibers|, i requires 0 <= i < |fibers| => RunqueueEntry(fibers[i], Plain(0)))
  }

  /** Rescheduling the front fiber of a full run queue leaves two entries for it and
      loses the fiber at the back. */
  lemma RescheduleAtFullHeadLosesFiber()
    ensures var q := Ring(Numbered([1, 2, 3, 4]), 4);
            var q' := Push(q, Call(1, Plain(7), false), true);
            && q'.items[0].fiber == 1 && q'.items[3] == RunqueueEntry(1, Plain(7))
            && !Queued(q', 4)
  {
    var q := Ring(Numbered([1, 2, 3, 4]), 4);
    assert Of(1)(q.items[0]);
    assert IndexOf(q, 1) == 0;
    assert q.Delete(Of(1)).items == Numbered([1, 2, 3]);
    assert Push(q, Call(1, Plain(7), false), true).items == Numbered([1, 2, 3]) + [RunqueueEntry(1, Plain(7))];
  }

  // ---------- exactly when ----------

  /** Deleting the front of a full buffer leaves that entry where it is. */
  lemma UnsafeDelete(q: Queue, f: Fiber)
    requires !q.DeletesExactly(Of(f))
    ensures q.items != [] && q.items[0].fiber == f && IndexOf(q, f) == 0
    ensures q.Delete(Of(f)).items == q.items[..|q.items| - 1] && |q.items| > 1
  {
    assert Of(f)(q.items[0]);
  }

  lemma UnsafeEnqueue(q: Queue, c: Call)
    requires !q.DeletesExactly(Of(c.fiber)) && (c.prioritize || !KeepsException(q, c))
    ensures !Distinct(Enqueue(q, c, true).items)
  {
    UnsafeDelete(q, c.fiber);
    var q' := Enqueue(q, c, true);
    assert if c.prioritize then q'.items[0].fiber == q'.items[1].fiber
      else q'.items[0].fiber == q'.items[|q'.items| - 1].fiber;
  }

  /** Two entries of a fiber stay two when one is added at either end. */
  lemma PairStays(d: seq<RunqueueEntry>, e: RunqueueEntry, i: nat, j: nat)
    requires i < j < |d| && d[i].fiber == d[j].fiber
    ensures !Distinct(d + [e]) && !Distinct([e] + d)
  {
    assert (d + [e])[i].fiber == (d + [e])[j].fiber;
    assert ([e] + d)[i + 1].fiber == ([e] + d)[j + 1].fiber;
  }

  lemma PairWith(d: seq<RunqueueEntry>, e: RunqueueEntry, i: nat)
    requires i < |d| && d[i].fiber == e.fiber
    ensures !Distinct(d + [e]) && !Distinct([e] + d)
  {
    assert (d + [e])[i].fiber == (d + [e])[|d|].fiber;
    assert ([e] + d)[0].fiber == ([e] + d)[i + 1].fiber;
  }

  /** A fiber that has two entries never loses the second. */
  lemma TwiceStays(q: Queue, c: Call, reschedule: bool)
    requires !Distinct(q.items)
    ensures !Distinct(Enqueue(q, c, reschedule).items)
  {
    var f, e := c.fiber, RunqueueEntry(c.fiber, c.value);
    var i, j :| 0 <= i < j < |q.items| && q.items[i].fiber == q.items[j].fiber;
    if reschedule && (c.prioritize || !KeepsException(q, c)) {
      if q.DeletesExactly(Of(f)) {
        TwiceWithoutFirst(q, f, i, j, e);
      } else {
        UnsafeEnqueue(q, c);
      }
    } else {
      PairStays(q.items, e, i, j);
    }
  }

  lemma TwiceWithoutFirst(q: Queue, f: Fiber, i: nat, j: nat, e: RunqueueEntry)
    requires i < j < |q.items| && q.items[i].fiber == q.items[j].fiber && q.DeletesExactly(Of(f)) && e.fiber == f
    ensures !Distinct(q.Delete(Of(f)).items + [e]) && !Distinct([e] + q.Delete(Of(f)).items)
  {
    var k := IndexOf(q, f);
    if k == |q.items| {
      PairStays(q.items, e, i, j);
    } else {
      assert Of(f)(q.items[k]);
      if q.items[i].fiber == f { FirstIsFirst(q, f, i); }
      PairWithout(q.items, k, i, j, e);
    }
  }

  lemma PairWithout(items: seq<RunqueueEntry>, k: nat, i: nat, j: nat, e: RunqueueEntry)
    requires i < j < |items| && items[i].fiber == items[j].fiber && k < |items| && items[k].fiber == e.fiber
    requires items[i].fiber == e.fiber ==> k <= i
    ensures !Distinct(RemoveAt(items, k) + [e]) && !Distinct([e] + RemoveAt(items, k))
  {
    RemoveAtKeeps(items, k);
    if items[i].fiber == e.fiber {
      PairWith(RemoveAt(items, k), e, j - 1);
    } else {
      PairStays(RemoveAt(items, k), e, if i < k then i else i - 1, if j < k then j else j - 1);
    }
  }

  lemma FirstIsFirst(q: Queue, f: Fiber, i: nat)
    requires i < |q.items| && q.items[i].fiber == f
    ensures IndexOf(q, f) <= i
  {
    assert Of(f)(q.items[i]);
  }

  ghost predicate Twice(s: State) { !Distinct(s.runqueue.items) || !Distinct(s.parkedQueue.items) }

  lemma {:induction false} TwiceStaysAll(s: State, calls: seq<Call>)
    requires Twice(s)
    ensures Twice(ScheduleAll(s, calls))
    decreases |calls|
  {
    if calls != [] {
      var c := calls[0];
      if !Distinct(s.QueueOf(c.fiber).items) { TwiceStays(s.QueueOf(c.fiber), c, c.fiber in s.runnable); }
      TwiceStaysAll(Schedule(s, c), calls[1..]);
    }
  }

  lemma {:induction false} UnsafeCallsDuplicate(s: State, calls: seq<Call>)
    requires !SafeCalls(s, calls)
    ensures Twice(ScheduleAll(s, calls))
    decreases |calls|
  {
    var c := calls[0];
    if !SafeCall(s, c) {
      UnsafeEnqueue(s.QueueOf(c.fiber), c);
      TwiceStaysAll(Schedule(s, c), calls[1..]);
    } else {
      UnsafeCallsDuplicate(Schedule(s, c), calls[1..]);
    }
  }

  /** A fiber that is in the run queue stays there, whatever is scheduled safely. */
  lemma {:induction false} StaysQueued(s: State, f: Fiber, calls: seq<Call>)
    requires f !in s.parked && SafeCalls(s, calls)
    requires Queued(s.runqueue, f) || exists c :: c in calls && c.fiber == f && f !in s.dead
    ensures Queued(ScheduleAll(s, calls).runqueue, f)
    decreases |calls|
  {
    if calls != [] {
      var c := calls[0];
      var s' := Schedule(s, c);
      if (Queued(s.runqueue, f) || c.fiber == f) && c.fiber !in s.dead { StaysQueuedOnce(s, f, c); }
      if d :| d in calls && d.fiber == f && f !in s.dead && d !in calls[1..] { assert d == c; }
      StaysQueued(s', f, calls[1..]);
    }
  }

  lemma StaysQueuedOnce(s: State, f: Fiber, c: Call)
    requires f !in s.parked && SafeCall(s, c) && c.fiber !in s.dead && (Queued(s.runqueue, f) || c.fiber == f)
    ensures Queued(Schedule(s, c).runqueue, f)
  {
    var q, s', e := s.QueueOf(c.fiber), Schedule(s, c), RunqueueEntry(c.fiber, c.value);
    if c.fiber == f {
      var q' := s'.runqueue;
      if c.fiber in s.runnable && !c.prioritize && KeepsException(q, c) {
        assert Of(f)(q.items[IndexOf(q, f)]) && q.items[IndexOf(q, f)] in q'.items;
      } else {
        assert e in q'.items;
      }
    } else if c.fiber !in s.parked {
      var x :| x in q.items && x.fiber == f;
      if c.fiber in s.runnable && (c.prioritize || !KeepsException(q, c)) {
        OthersSurvive(q, c.fiber, x);
      }
      assert x in s'.runqueue.items;
    }
  }

  lemma OthersSurvive(q: Queue, f: Fiber, x: RunqueueEntry)
    requires x in q.items && x.fiber != f && q.DeletesExactly(Of(f))
    ensures x in q.Delete(Of(f)).items
  {
    var k := IndexOf(q, f);
    if k < |q.items| {
      assert Of(f)(q.items[k]);
      RemoveAtKeeps(q.items, k);
      var j :| 0 <= j < |q.items| && q.items[j] == x;
    }
  }

  lemma UnsafeTakeBreaks(s: State, polled: seq<Call>)
    requires Inv(s) && s.runqueue.items != [] && !Safe(s, DoTake(polled))
    ensures !Inv(Take(s, polled))
  {
    var next, s2 := s.runqueue.items[0], s.(runqueue := s.runqueue.Shift());
    assert next in s.runqueue.items;
    if !SafeCalls(s2, polled) {
      UnsafeCallsDuplicate(s2, polled);
    } else {
      StaysQueued(s2, next.fiber, polled);
      var e :| e in Take(s, polled).runqueue.items && e.fiber == next.fiber;
      assert !EntryOk(Take(s, polled), e);
    }
  }

  lemma UnsafeMoveBreaks(s: State, a: Action)
    requires Inv(s) && (a.DoPark? || a.DoUnpark? || a.DoUnschedule?) && !Safe(s, a)
    ensures !Inv(Step(s, a))
  {
    var f := a.fiber;
    var q := if a.DoUnpark? then s.parkedQueue else s.runqueue;
    UnsafeDelete(q, f);
    assert q.items[0] in q.items;
    var q' := if a.DoUnpark? then Step(s, a).parkedQueue else Step(s, a).runqueue;
    assert q'.items == q.items[..|q.items| - 1] && q'.items[0] == q.items[0] && q'.items[0] in q'.items;
    assert a.DoUnschedule? ==> !EntryOk(Step(s, a), q'.items[0]);
  }

  /** The side conditions are exact, for every kind of step: from a state in order a step leads
      to a state in order if and only if it is safe. */
  lemma SafeIsExact(s: State, a: Action)
    requires Inv(s) && Enabled(s, a)
    ensures Inv(Step(s, a)) <==> Safe(s, a)
  {
    if Safe(s, a) {
      StepKeepsInv(s, a);
    } else {
      match a
      case DoSchedule(c) => UnsafeEnqueue(s.QueueOf(c.fiber), c);
      case DoTake(polled) => UnsafeTakeBreaks(s, polled);
      case _ => UnsafeMoveBreaks(s, a);
    }
  }

  /** A poll inside the switch that reschedules the fiber just taken leaves it queued but
      not marked runnable, so the next schedule gives it a second entry. */
  lemma PollReschedulingTakenFiberDuplicates(s: State)
    requires s.runqueue == Ring(Numbered([1]), 1) && s.runnable == {1} && 1 !in s.dead && 1 !in s.parked
    ensures var s1 := Take(s, [Call(1, Plain(5), false)]);
            var s2 := Schedule(s1, Call(1, Plain(6), false));
            s2.runqueue.items == [RunqueueEntry(1, Plain(5)), RunqueueEntry(1, Plain(6))]
  {
    var s0 := s.(runqueue := s.runqueue.Shift());
    var c := Call(1, Plain(5), false);
    assert s0.runqueue.items == [];
    assert [c][1..] == [];
    assert ScheduleAll(s0, [c]) == Schedule(s0, c);
    assert Schedule(s0, c).runqueue.items == [RunqueueEntry(1, Plain(5))];
  }

  /** A reschedule, prioritised or not, replaces the fiber's entry and nothing else exactly when
      its deletion does not hit the front of a full buffer. */
  lemma RescheduleIsExactIff(q: Queue, c: Call)
    requires Distinct(q.items) && (c.prioritize || !KeepsException(q, c))
    ensures Replaces(q, Enqueue(q, c, true), c.fiber, {RunqueueEntry(c.fiber, c.value)})
       <==> q.DeletesExactly(Of(c.fiber))
  {
    if q.DeletesExactly(Of(c.fiber)) {
      DeleteRemoves(q, c.fiber);
      Attach(q, q.Delete(Of(c.fiber)), c.fiber, RunqueueEntry(c.fiber, c.value));
    } else {
      UnsafeEnqueue(q, c);
    }
  }

  // ---------- who comes first ----------

  /** The entries of the other fibers, in their order. */
  function Others(items: seq<RunqueueEntry>, f: Fiber): seq<RunqueueEntry> {
    if items == [] then []
    else if items[0].fiber == f then Others(items[1..], f)
    else [items[0]] + Others(items[1..], f)
  }

  lemma {:induction false} OthersOfNone(items: seq<RunqueueEntry>, f: Fiber)
    requires forall e :: e in items ==> e.fiber != f
    ensures Others(items, f) == items
  {
    if items != [] {
      assert items[0] in items && forall e :: e in items[1..] ==> e in items;
      OthersOfNone(items[1..], f);
    }
  }

  lemma {:induction false} OthersOfOne(items: seq<RunqueueEntry>, f: Fiber, i: nat)
    requires Distinct(items) && i < |items| && items[i].fiber == f
    ensures Others(items, f) == RemoveAt(items, i)
  {
    if i == 0 {
      forall e | e in items[1..] ensures e.fiber != f {
        var j :| 0 <= j < |items[1..]| && items[1..][j] == e;
        assert items[j + 1] == e;
      }
      OthersOfNone(items[1..], f);
      assert RemoveAt(items, 0) == items[1..];
    } else {
      OthersOfOne(items[1..], f, i - 1);
      assert items[0].fiber != items[i].fiber;
      RemoveAtTail(items, i);
    }
  }

  lemma DeleteLeavesOthers(q: Queue, f: Fiber)
    requires Distinct(q.items) && q.DeletesExactly(Of(f))
    ensures q.Delete(Of(f)).items == Others(q.items, f)
  {
    var i := QueuedEntry(q, f);
    if i < |q.items| {
      OthersOfOne(q.items, f, i);
    } else {
      forall e | e in q.items ensures e.fiber != f { assert !Queued(q, f); }
      OthersOfNone(q.items, f);
    }
  }

  /** Where a call leaves the fiber: a prioritised one in front of all others, a plain one behind
      them, unless an exception is queued, which stays in its place. The others keep their order. */
  lemma CallPutsFiber(s: State, c: Call)
    requires Inv(s) && SafeCall(s, c) && c.fiber !in s.dead
    ensures var q, q' := s.QueueOf(c.fiber).items, Schedule(s, c).QueueOf(c.fiber).items;
      var e := RunqueueEntry(c.fiber, c.value);
      if c.prioritize then q' == [e] + Others(q, c.fiber)
      else if c.fiber in s.runnable && KeepsException(s.QueueOf(c.fiber), c) then q' == q
      else q' == Others(q, c.fiber) + [e]
    ensures c.fiber in s.parked ==> Schedule(s, c).runqueue == s.runqueue
    ensures c.fiber !in s.parked ==> Schedule(s, c).parkedQueue == s.parkedQueue
  {
    var q, f := s.QueueOf(c.fiber), c.fiber;
    if f in s.runnable {
      if c.prioritize || !KeepsException(q, c) { DeleteLeavesOthers(q, f); }
    } else {
      forall e | e in q.items ensures e.fiber != f { assert EntryOk(s, e); }
      OthersOfNone(q.items, f);
    }
  }

  /** So a fiber that is not parked runs next after a prioritised call, with that call's value. */
  lemma PrioritisedRunsNext(s: State, c: Call, polled: seq<Call>)
    requires Inv(s) && SafeCall(s, c) && c.fiber !in s.dead && c.fiber !in s.parked && c.prioritize
    ensures Enabled(Schedule(s, c), DoTake(polled))
    ensures Schedule(s, c).runqueue.items[0] == RunqueueEntry(c.fiber, c.value)
  {
    CallPutsFiber(s, c);
  }

  /** A dead fiber is never scheduled again. */
  lemma DeadStaysOut(s: State, c: Call)
    ensures Schedule(Step(s, DoDie(c.fiber)), c) == Step(s, DoDie(c.fiber))
    ensures c.fiber in s.dead ==> Schedule(s, c) == s
  {
  }

  /** Parking and unparking move the entry behind those of the other queue; unscheduling takes it
      away. The others keep their order. */
  lemma MovesPutFiber(s: State, a: Action)
    requires Inv(s) && (a.DoPark? || a.DoUnpark? || a.DoUnschedule?) && Safe(s, a)
    ensures var f, s' := a.fiber, Step(s, a);
      match a {
        case DoPark(_) => s'.runqueue.items == Others(s.runqueue.items, f)
          && s'.parkedQueue.items == s.parkedQueue.items + EntriesOf(s.runqueue.items, f) && s'.parked == s.parked + {f}
        case DoUnpark(_) => s'.parkedQueue.items == Others(s.parkedQueue.items, f)
          && s'.runqueue.items == s.runqueue.items + EntriesOf(s.parkedQueue.items, f) && s'.parked == s.parked - {f}
        case _ => s'.runqueue.items == Others(s.runqueue.items, f) && s'.parkedQueue == s.parkedQueue
      }
  {
    var f := a.fiber;
    var q := if a.DoUnpark? then s.parkedQueue else s.runqueue;
    DeleteLeavesOthers(q, f);
    var i := QueuedEntry(q, f);
    if i < |q.items| { EntriesOfOne(q.items, f, i); } else { EntriesOfNone(q.items, f); }
  }

  /** The entries of one fiber. */
  function EntriesOf(items: seq<RunqueueEntry>, f: Fiber): seq<RunqueueEntry> {
    if items == [] then []
    else (if items[0].fiber == f then [items[0]] else []) + EntriesOf(items[1..], f)
  }

  lemma {:induction false} EntriesOfNone(items: seq<RunqueueEntry>, f: Fiber)
    requires forall j :: 0 <= j < |items| ==> items[j].fiber != f
    ensures EntriesOf(items, f) == []
  {
    if items != [] { EntriesOfNone(items[1..], f); }
  }

  lemma {:induction false} EntriesOfOne(items: seq<RunqueueEntry>, f: Fiber, i: nat)
    requires Distinct(items) && i < |items| && items[i].fiber == f
    ensures EntriesOf(items, f) == [items[i]]
  {
    if i == 0 {
      EntriesOfNone(items[1..], f);
    } else {
      assert items[0].fiber != items[i].fiber;
      EntriesOfOne(items[1..], f, i - 1);
    }
  }

  // ---------- switching ----------

  const ANTI_STARVE_SWITCH_COUNT_THRESHOLD: nat := 64

  /** How a switch ends: with a fiber to resume, with nothing to run, or still inside a
      blocking poll. */
  datatype Outcome =
    | Resumed(state: State, next: RunqueueEntry, polled: bool)
    | Idle(state: State)
    | InPoll(state: State)

  /** The `while (1)` loop of `backend_base_switch_fiber`; each element of `polls` is what
      the completions found by one `Backend_poll` schedule. */
  function SwitchFrom(s: State, current: Fiber, pending: bool, polled: bool, polls: seq<seq<Call>>): Outcome
    decreases |polls|
  {
    if s.runqueue.items != [] then
      var next := s.runqueue.items[0];
      if !polled && pending
         && (s.switchCount % ANTI_STARVE_SWITCH_COUNT_THRESHOLD == 0 || next.fiber == current)
      then Resumed(Take(s, if polls == [] then [] else polls[0]), next, true)
      else Resumed(Take(s, []), next, polled)
    else if !pending then Idle(s)
    else if polls == [] then InPoll(s)
    else SwitchFrom(ScheduleAll(s, polls[0]), current, pending, true, polls[1..])
  }

  function Counted(s: State): State { s.(switchCount := (s.switchCount + 1) % UINT_RANGE) }

  function Switch(s: State, current: Fiber, pending: bool, polls: seq<seq<Call>>): Outcome {
    SwitchFrom(Counted(s), current, pending, false, polls)
  }

  lemma {:induction false} ScheduleAllAppends(s: State, a: seq<Call>, b: seq<Call>)
    ensures ScheduleAll(s, a + b) == ScheduleAll(ScheduleAll(s, a), b)
    decreases |a|
  {
    if a == [] {
      assert a + b == b;
    } else {
      assert (a + b)[0] == a[0] && (a + b)[1..] == a[1..] + b;
      ScheduleAllAppends(Schedule(s, a[0]), a[1..], b);
    }
  }

  lemma {:induction false} CallsKeepCount(s: State, calls: seq<Call>)
    ensures ScheduleAll(s, calls).switchCount == s.switchCount
    decreases |calls|
  {
    if calls != [] {
      CallsKeepCount(Schedule(s, calls[0]), calls[1..]);
    }
  }

  /** One of the polls schedules this call. */
  ghost predicate FoundBy(polls: seq<seq<Call>>, c: Call) { exists p :: p in polls && c in p }

  /** A switch that resumes a fiber is some schedule calls followed by taking the front
      entry, so everything proved of `DoSchedule` and `DoTake` steps holds of it. */
  lemma {:induction false} SwitchDecomposes(
    s: State, current: Fiber, pending: bool, polled: bool, polls: seq<seq<Call>>)
    returns (before: seq<Call>, during: seq<Call>)
    ensures var o := SwitchFrom(s, current, pending, polled, polls);
      o.Resumed? ==>
        var s1 := ScheduleAll(s, before);
        s1.runqueue.items != [] && o.next == s1.runqueue.items[0] && o.state == Take(s1, during)
    ensures forall c :: c in before || c in during ==> FoundBy(polls, c)
    decreases |polls|
  {
    before, during := [], [];
    if s.runqueue.items != [] {
      if !polled && pending && polls != []
         && (s.switchCount % ANTI_STARVE_SWITCH_COUNT_THRESHOLD == 0 || s.runqueue.items[0].fiber == current) {
        during := polls[0];
      }
    } else if pending && polls != [] {
      before, during := SwitchDecomposes(ScheduleAll(s, polls[0]), current, pending, true, polls[1..]);
      forall c | c in polls[0] || FoundBy(polls[1..], c) ensures FoundBy(polls, c) {
        if c !in polls[0] {
          var p :| p in polls[1..] && c in p;
          assert p in polls;
        }
      }
      ScheduleAllAppends(s, polls[0], before);
      before := polls[0] + before;
    }
  }

  // ---------- progress ----------

  /** The step does not reorder, park, unschedule or reschedule `f`, and prioritises nobody. */
  predicate LeavesAlone(a: Action, f: Fiber) {
    match a
    case DoSchedule(c) => c.fiber != f && !c.prioritize
    case DoPark(g) => g != f
    case DoUnpark(g) => g != f
    case DoUnschedule(g) => g != f
    case DoTake(polled) => forall c :: c in polled ==> c.fiber != f && !c.prioritize
    case DoDie(_) => true
  }

  ghost predicate HasPlace(q: Queue, f: Fiber, i: nat) { i < |q.items| && q.items[i].fiber == f }

  lemma DeleteKeepsPlace(q: Queue, g: Fiber, f: Fiber, i: nat) returns (i': nat)
    requires HasPlace(q, f, i) && f != g && q.DeletesExactly(Of(g))
    ensures i' <= i && HasPlace(q.Delete(Of(g)), f, i')
  {
    var k := IndexOf(q, g);
    if k < |q.items| { assert Of(g)(q.items[k]); }
    i' := if k < i then i - 1 else i;
  }

  lemma CallKeepsPlace(s: State, c: Call, f: Fiber, i: nat) returns (i': nat)
    requires SafeCall(s, c) && HasPlace(s.runqueue, f, i) && c.fiber != f && !c.prioritize
    ensures i' <= i && HasPlace(Schedule(s, c).runqueue, f, i')
  {
    i' := i;
    if c.fiber !in s.dead && c.fiber !in s.parked && c.fiber in s.runnable && !KeepsException(s.runqueue, c) {
      i' := DeleteKeepsPlace(s.runqueue, c.fiber, f, i);
    }
  }

  lemma {:induction false} CallsKeepPlace(s: State, calls: seq<Call>, f: Fiber, i: nat) returns (i': nat)
    requires SafeCalls(s, calls) && HasPlace(s.runqueue, f, i)
    requires forall c :: c in calls ==> c.fiber != f && !c.prioritize
    ensures i' <= i && HasPlace(ScheduleAll(s, calls).runqueue, f, i')
    decreases |calls|
  {
    i' := i;
    if calls != [] {
      assert calls[0] in calls;
      i' := CallKeepsPlace(s, calls[0], f, i);
      i' := CallsKeepPlace(Schedule(s, calls[0]), calls[1..], f, i');
    }
  }

  lemma StepAdvances(s: State, a: Action, f: Fiber, i: nat) returns (i': nat)
    requires Enabled(s, a) && Safe(s, a) && LeavesAlone(a, f) && HasPlace(s.runqueue, f, i)
    requires a.DoTake? ==> i > 0
    ensures i' <= (if a.DoTake? then i - 1 else i) && HasPlace(Step(s, a).runqueue, f, i')
  {
    i' := i;
    match a {
      case DoSchedule(c) => i' := CallKeepsPlace(s, c, f, i);
      case DoPark(g) => i' := DeleteKeepsPlace(s.runqueue, g, f, i);
      case DoUnpark(g) =>
      case DoUnschedule(g) => i' := DeleteKeepsPlace(s.runqueue, g, f, i);
      case DoTake(polled) => i' := CallsKeepPlace(s.(runqueue := s.runqueue.Shift()), polled, f, i - 1);
      case DoDie(_) =>
    }
  }

  function Takes(acts: seq<Action>): nat {
    if acts == [] then 0 else Takes(acts[1..]) + if acts[0].DoTake? then 1 else 0
  }

  /** Bounded waiting: without prioritised calls a fiber at place `i` that is left alone is
      resumed by the (i+1)-th switch at the latest. */
  lemma {:induction false} BoundedWaiting(run: seq<State>, acts: seq<Action>, f: Fiber, i: nat) returns (k: nat)
    requires IsRun(run, acts) && HasPlace(run[0].runqueue, f, i)
    requires forall a :: a in acts ==> LeavesAlone(a, f)
    requires Takes(acts) > i
    ensures k < |acts| && acts[k].DoTake? && run[k].runqueue.items[0].fiber == f && Takes(acts[..k]) <= i
    decreases |acts|
  {
    assert acts[0] in acts;
    if acts[0].DoTake? && i == 0 {
      k := 0;
      assert acts[..0] == [];
    } else {
      var i' := StepAdvances(run[0], acts[0], f, i);
      k := BoundedWaiting(run[1..], acts[1..], f, i');
      assert acts[..k + 1][1..] == acts[1..][..k];
      k := k + 1;
    }
  }

  /** One switch as the anti-starvation rule sees it. */
  datatype SwitchCall = SwitchCall(state: State, current: Fiber, polls: seq<seq<Call>>) {
    function Outcome(): Outcome { Switch(state, current, true, polls) }
  }

  lemma {:induction false} SwitchFromCounts(s: State, current: Fiber, polled: bool, polls: seq<seq<Call>>)
    ensures var o := SwitchFrom(s, current, true, polled, polls);
      && o.state.switchCount == s.switchCount
      && (polled || s.runqueue.items == [] || s.switchCount % ANTI_STARVE_SWITCH_COUNT_THRESHOLD == 0 ==>
            o.InPoll? || (o.Resumed? && o.polled))
    decreases |polls|
  {
    if s.runqueue.items != [] {
      CallsKeepCount(s.(runqueue := s.runqueue.Shift()), if polls == [] then [] else polls[0]);
      CallsKeepCount(s.(runqueue := s.runqueue.Shift()), []);
    } else if polls != [] {
      CallsKeepCount(s, polls[0]);
      SwitchFromCounts(ScheduleAll(s, polls[0]), current, true, polls[1..]);
    }
  }

  lemma {:induction false} CountAfter(calls: seq<SwitchCall>, k: nat)
    requires forall i :: 0 < i < |calls| ==>
      calls[i].state.switchCount == calls[i - 1].Outcome().state.switchCount
    requires k < |calls| && calls[0].state.switchCount < UINT_RANGE
    ensures Counted(calls[k].state).switchCount == (calls[0].state.switchCount + k + 1) % UINT_RANGE
  {
    if k > 0 {
      CountAfter(calls, k - 1);
      var p := calls[k - 1];
      SwitchFromCounts(Counted(p.state), p.current, false, p.polls);
      assert calls[k].state.switchCount == Counted(p.state).switchCount;
      NextCount(calls[0].state.switchCount + k);
    }
  }

  lemma NextCount(n: nat)
    ensures (n % UINT_RANGE + 1) % UINT_RANGE == (n + 1) % UINT_RANGE
  {
  }

  /** A resumed fiber is no longer marked runnable. */
  lemma TakenIsNotRunnable(s: State, polled: seq<Call>)
    requires s.runqueue.items != []
    ensures s.runqueue.items[0].fiber !in Take(s, polled).runnable
  {
  }

  /** How a switch ends: it resumes the front fiber if there is one, and has polled exactly if
      operations are pending and the count is due or the fiber is the current one; with an empty
      queue it is idle if nothing is pending, and otherwise polls until there is a fiber. */
  lemma SwitchOutcome(s: State, current: Fiber, pending: bool, polls: seq<seq<Call>>)
    ensures var o := Switch(s, current, pending, polls);
      if s.runqueue.items != [] then
        && o.Resumed? && o.next == s.runqueue.items[0]
        && (o.polled <==> pending && ((s.switchCount + 1) % UINT_RANGE % 64 == 0 || o.next.fiber == current))
      else if !pending then o == Idle(Counted(s))
      else (polls == [] ==> o == InPoll(Counted(s))) && (o.Resumed? ==> o.polled)
  {
    if s.runqueue.items == [] && pending && polls != [] {
      SwitchFromPolled(ScheduleAll(Counted(s), polls[0]), current, polls[1..]);
    }
  }

  lemma {:induction false} SwitchFromPolled(s: State, current: Fiber, polls: seq<seq<Call>>)
    ensures var o := SwitchFrom(s, current, true, true, polls); o.Resumed? ==> o.polled
    decreases |polls|
  {
    if s.runqueue.items == [] && polls != [] {
      SwitchFromPolled(ScheduleAll(s, polls[0]), current, polls[1..]);
    }
  }

  /** A switch back to the current fiber, with operations pending, polls first. */
  lemma SwitchToSelfPolls(s: State, current: Fiber, polls: seq<seq<Call>>)
    requires s.runqueue.items != [] && s.runqueue.items[0].fiber == current
    ensures var o := Switch(s, current, true, polls);
      && o.Resumed? && o.polled && o.next == s.runqueue.items[0]
      && o.state == Take(Counted(s), if polls == [] then [] else polls[0])
  {
  }

  /** Among any 64 consecutive switches made while operations are pending, and with no
      statistics read in between to reset the counter, at least one polls, also when the
      32-bit counter wraps. */
  lemma NoStarvation(calls: seq<SwitchCall>) returns (k: nat)
    requires |calls| == ANTI_STARVE_SWITCH_COUNT_THRESHOLD && calls[0].state.switchCount < UINT_RANGE
    requires forall i :: 0 < i < |calls| ==>
      calls[i].state.switchCount == calls[i - 1].Outcome().state.switchCount
    ensures k < |calls|
    ensures calls[k].Outcome().InPoll? || (calls[k].Outcome().Resumed? && calls[k].Outcome().polled)
  {
    var c := calls[0].state.switchCount;
    k := 63 - c % 64;
    assert (c + k + 1) % 64 == 0;
    CountAfter(calls, k);
    assert (c + k + 1) % UINT_RANGE % 64 == 0;
    SwitchFromCounts(Counted(calls[k].state), calls[k].current, false, calls[k].polls);
  }
}
