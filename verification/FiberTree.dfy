/** `Fiber.await` and structured shutdown: the tree of the fibers of one thread, their monitors
    and their monitor mailboxes. A step is what a fiber does between two switches. */
module FiberTree {
  import opened Options

  type FiberId = nat

  /** What a fiber leaves behind: a value, or an exception object. */
  datatype Outcome = Value(v: int) | Exception(e: int)

  datatype Message = Message(from: FiberId, outcome: Outcome)

  // ---------- lists with distinct keys, as Ruby hashes are used here ----------

  function Put(keys: seq<FiberId>, k: FiberId): (r: seq<FiberId>)
    ensures forall x :: x in r <==> x in keys || x == k
  {
    if k in keys then keys else keys + [k]
  }

  function Drop(keys: seq<FiberId>, k: FiberId): (r: seq<FiberId>)
    ensures forall x :: x in r <==> x in keys && x != k
    ensures |r| <= |keys| && (k in keys ==> |r| < |keys|)
  {
    if keys == [] then []
    else if keys[0] == k then Drop(keys[1..], k)
    else [keys[0]] + Drop(keys[1..], k)
  }

  lemma {:induction false} DropOnly(keys: seq<FiberId>, k: FiberId)
    requires forall x :: x in keys ==> x == k
    ensures Drop(keys, k) == []
  {
    if keys != [] {
      assert keys[0] in keys && forall x :: x in keys[1..] ==> x in keys;
      DropOnly(keys[1..], k);
    }
  }

  /** The keys of a hash filled in the order of `args`. */
  function Keys(args: seq<FiberId>): (r: seq<FiberId>)
    ensures forall x :: x in r <==> x in args
    ensures forall i, j :: 0 <= i < j < |r| ==> r[i] != r[j]
  {
    if args == [] then [] else Put(Keys(args[..|args| - 1]), args[|args| - 1])
  }

  lemma {:induction false} KeysOfDistinct(args: seq<FiberId>)
    requires forall i, j :: 0 <= i < j < |args| ==> args[i] != args[j]
    ensures Keys(args) == args
  {
    if args != [] {
      var n := |args| - 1;
      KeysOfDistinct(args[..n]);
      assert args == args[..n] + [args[n]];
    }
  }

  // ---------- one call of Fiber.await ----------

  /** The local variables of `Fiber.await`; `fibers` shrinks, `args` is what it was called with. */
  datatype Frame = Frame(
    args: seq<FiberId>, fibers: seq<FiberId>,
    results: map<FiberId, Option<int>>, exception: Option<int>)

  function Start(args: seq<FiberId>): Frame {
    Frame(args, args, map f | f in args :: None, None)
  }

  /** One turn of the loop. */
  function Take(fr: Frame, m: Message): Frame {
    if m.from !in fr.fibers then fr
    else
      var rest := Drop(fr.fibers, m.from);
      match m.outcome
      case Exception(e) => fr.(fibers := rest, exception := if fr.exception.None? then Some(e) else fr.exception)
      case Value(v) => fr.(fibers := rest, results := fr.results[m.from := Some(v)])
  }

  function TakeAll(fr: Frame, ms: seq<Message>): Frame {
    if ms == [] then fr else Take(TakeAll(fr, ms[..|ms| - 1]), ms[|ms| - 1])
  }

  datatype AwaitResult = Raised(e: int) | Returned(values: seq<Option<int>>)

  function ResultOf(fr: Frame): AwaitResult {
    if fr.exception.Some? then Raised(fr.exception.value)
    else
      var keys := Keys(fr.args);
      Returned(seq(|keys|, i requires 0 <= i < |keys| => if keys[i] in fr.results then fr.results[keys[i]] else None))
  }

  /** The first message of `f` in the stream; later ones are stray. */
  ghost predicate Decides(ms: seq<Message>, i: int, f: FiberId) {
    0 <= i < |ms| && ms[i].from == f && forall j :: 0 <= j < i ==> ms[j].from != f
  }

  /** The message whose exception is raised: it decides an awaited fiber, and no earlier
      deciding message carried an exception. */
  ghost predicate Decisive(args: seq<FiberId>, ms: seq<Message>, i: int) {
    && 0 <= i < |ms| && ms[i].from in args && Decides(ms, i, ms[i].from) && ms[i].outcome.Exception?
    && forall j :: 0 <= j < i && ms[j].from in args && Decides(ms, j, ms[j].from) ==> ms[j].outcome.Value?
  }

  /** Whom the frame still waits for, and what it noted of the others. */
  ghost predicate Heard(args: seq<FiberId>, ms: seq<Message>, fr: Frame) {
    && fr.args == args
    && (forall f :: f in fr.fibers <==> f in args && forall i :: 0 <= i < |ms| ==> ms[i].from != f)
    && (forall f :: f in fr.results <==> f in args)
    && (forall f :: f in fr.fibers ==> fr.results[f] == None)
    && (forall f, i :: f in args && Decides(ms, i, f) ==> fr.results[f] == ValueOf(ms[i].outcome))
  }

  ghost function ValueOf(o: Outcome): Option<int> {
    match o case Value(v) => Some(v) case Exception(_) => None
  }

  ghost predicate FirstException(args: seq<FiberId>, ms: seq<Message>, exception: Option<int>) {
    match exception
    case Some(e) => exists i :: Decisive(args, ms, i) && ms[i].outcome.e == e
    case None => forall i, f :: f in args && Decides(ms, i, f) ==> ms[i].outcome.Value?
  }

  ghost predicate FrameMeans(args: seq<FiberId>, ms: seq<Message>, fr: Frame) {
    Heard(args, ms, fr) && FirstException(args, ms, fr.exception)
  }

  lemma {:induction false} TakeAllMeans(args: seq<FiberId>, ms: seq<Message>)
    ensures FrameMeans(args, ms, TakeAll(Start(args), ms))
  {
    if ms != [] {
      var n := |ms| - 1;
      TakeAllMeans(args, ms[..n]);
      TakeMeans(args, ms[..n], TakeAll(Start(args), ms[..n]), ms[n]);
      assert ms == ms[..n] + [ms[n]];
    }
  }

  lemma DecidesAfter(ms: seq<Message>, m: Message, i: int, f: FiberId)
    ensures Decides(ms + [m], i, f) <==>
      if i < |ms| then Decides(ms, i, f) else i == |ms| && m.from == f && forall j :: 0 <= j < |ms| ==> ms[j].from != f
  {
    var ms' := ms + [m];
    assert forall j :: 0 <= j < |ms| ==> ms'[j] == ms[j];
    if Decides(ms', i, f) && i == |ms| {
      forall j | 0 <= j < |ms| ensures ms[j].from != f { assert ms'[j].from != f; }
    }
  }

  lemma TakeMeans(args: seq<FiberId>, ms: seq<Message>, fr: Frame, m: Message)
    requires FrameMeans(args, ms, fr)
    ensures FrameMeans(args, ms + [m], Take(fr, m))
  {
    TakeHears(args, ms, fr, m);
    TakeRaises(args, ms, fr, m);
  }

  lemma TakeHears(args: seq<FiberId>, ms: seq<Message>, fr: Frame, m: Message)
    requires Heard(args, ms, fr)
    ensures Heard(args, ms + [m], Take(fr, m))
  {
    var ms', fr' := ms + [m], Take(fr, m);
    forall f ensures f in fr'.fibers <==> f in args && forall i :: 0 <= i < |ms'| ==> ms'[i].from != f {
      assert ms'[|ms|] == m;
      assert forall i :: 0 <= i < |ms| ==> ms'[i] == ms[i];
    }
    forall f, i | f in args && Decides(ms', i, f) ensures fr'.results[f] == ValueOf(ms'[i].outcome) {
      DecidesAfter(ms, m, i, f);
    }
  }

  lemma TakeRaises(args: seq<FiberId>, ms: seq<Message>, fr: Frame, m: Message)
    requires FrameMeans(args, ms, fr)
    ensures FirstException(args, ms + [m], Take(fr, m).exception)
  {
    var ms', fr', n := ms + [m], Take(fr, m), |ms|;
    if fr.exception.Some? {
      var i :| Decisive(args, ms, i) && ms[i].outcome.e == fr.exception.value;
      DecisiveStays(args, ms, m, i);
    } else {
      forall i, f | f in args && Decides(ms', i, f) && i < n ensures ms'[i].outcome.Value? {
        DecidesAfter(ms, m, i, f);
      }
      DecidesAfter(ms, m, n, m.from);
      if fr'.exception.Some? {
        assert Decisive(args, ms', n);
      } else {
        forall i, f | f in args && Decides(ms', i, f) ensures ms'[i].outcome.Value? { DecidesAfter(ms, m, i, f); }
      }
    }
  }

  lemma DecisiveStays(args: seq<FiberId>, ms: seq<Message>, m: Message, i: int)
    requires Decisive(args, ms, i)
    ensures Decisive(args, ms + [m], i)
  {
    var ms' := ms + [m];
    assert forall j :: 0 <= j <= i ==> ms'[j] == ms[j];
    forall j | 0 <= j < i && ms'[j].from in args && Decides(ms', j, ms'[j].from) ensures ms'[j].outcome.Value? {
      assert Decides(ms, j, ms[j].from);
    }
  }

  /** The loop of `Fiber.await` over the messages that arrive. It stops at the first message
      after which every awaited fiber has sent one; stray messages change nothing. */
  method AwaitLoop(args: seq<FiberId>, ms: seq<Message>) returns (n: nat, fr: Frame)
    ensures n <= |ms| && fr == TakeAll(Start(args), ms[..n])
    ensures n < |ms| ==> fr.fibers == []
    ensures fr.fibers == [] <==> forall f :: f in args ==> exists i :: Decides(ms[..n], i, f)
    ensures forall k :: 0 <= k < n ==> TakeAll(Start(args), ms[..k]).fibers != []
  {
    fr, n := Start(args), 0;
    while fr.fibers != [] && n < |ms|
      invariant n <= |ms| && fr == TakeAll(Start(args), ms[..n])
      invariant forall k :: 0 <= k < n ==> TakeAll(Start(args), ms[..k]).fibers != []
      decreases |ms| - n
    {
      assert ms[..n + 1][..n] == ms[..n];
      fr := Take(fr, ms[n]);
      n := n + 1;
    }
    TakeAllMeans(args, ms[..n]);
    AllHeard(args, ms[..n], fr);
  }

  lemma AllHeard(args: seq<FiberId>, ms: seq<Message>, fr: Frame)
    requires FrameMeans(args, ms, fr)
    ensures fr.fibers == [] <==> forall f :: f in args ==> exists i :: Decides(ms, i, f)
  {
    if fr.fibers == [] {
      forall f | f in args ensures exists i :: Decides(ms, i, f) {
        assert f !in fr.fibers;
        var k :| 0 <= k < |ms| && ms[k].from == f;
        FirstFrom(ms, f, k);
      }
    } else {
      var f := fr.fibers[0];
      assert f in fr.fibers;
    }
  }

  lemma {:induction false} FirstFrom(ms: seq<Message>, f: FiberId, k: nat)
    requires k < |ms| && ms[k].from == f
    ensures exists i :: Decides(ms, i, f)
  {
    if j :| 0 <= j < k && ms[j].from == f {
      FirstFrom(ms, f, j);
    } else {
      assert Decides(ms, k, f);
    }
  }

  ghost predicate Delivers(ms: seq<Message>, f: FiberId, v: Option<int>) {
    v.Some? && exists i :: Decides(ms, i, f) && ms[i].outcome == Value(v.value)
  }

  /** What a finished await hands to its caller: the deciding values in argument order, or the
      first exception received. */
  lemma AwaitOutcome(args: seq<FiberId>, ms: seq<Message>)
    requires TakeAll(Start(args), ms).fibers == []
    ensures match ResultOf(TakeAll(Start(args), ms)) {
      case Raised(e) => exists i :: Decisive(args, ms, i) && ms[i].outcome.e == e
      case Returned(vs) => |vs| == |Keys(args)| && forall k :: 0 <= k < |vs| ==> Delivers(ms, Keys(args)[k], vs[k])
    }
  {
    var fr := TakeAll(Start(args), ms);
    TakeAllMeans(args, ms);
    AllHeard(args, ms, fr);
    if fr.exception.None? {
      var vs := ResultOf(fr).values;
      forall k | 0 <= k < |vs| ensures Delivers(ms, Keys(args)[k], vs[k]) {
        var f := Keys(args)[k];
        assert f in Keys(args);
        var i :| Decides(ms, i, f);
      }
    }
  }

  // ---------- the fibers of a thread ----------

  /** `Closing` is a fiber inside `finalize_children`. */
  datatype Phase = Running | Closing(outcome: Outcome, uncaught: bool) | Done(outcome: Outcome)

  datatype Fiber = Fiber(
    parent: Option<FiberId>, children: seq<FiberId>, monitors: set<FiberId>,
    mailbox: seq<Message>, phase: Phase, frame: Option<Frame>)

  /** `signalled`: the fibers that will find an exception when they are resumed. */
  datatype State = State(fs: map<FiberId, Fiber>, signalled: set<FiberId>) {
    predicate Has(f: FiberId) { f in fs }
    predicate IsRunning(f: FiberId) { f in fs && fs[f].phase.Running? }
    predicate IsClosing(f: FiberId) { f in fs && fs[f].phase.Closing? }
    predicate IsDone(f: FiberId) { f in fs && fs[f].phase.Done? }
    /** A child that is not finalised. */
    predicate Below(x: FiberId, p: FiberId) { x in fs && fs[x].parent == Some(p) && !fs[x].phase.Done? }
    ghost predicate NoneBelow(p: FiberId) { forall x :: !Below(x, p) }
  }

  /** The Receive that leaves nobody to wait for, or an await of nobody, and the Return after it
      are one segment of the code: no other fiber runs in between. That they are two steps here
      only adds runs. */
  datatype Step =
    | Spin(p: FiberId, c: FiberId)
    | Attach(c: FiberId, p: FiberId)
    | Monitor(f: FiberId, m: FiberId)
    | Unmonitor(f: FiberId, m: FiberId)
    | Signal(f: FiberId)
    | Interrupt(a: FiberId)
    | Await(a: FiberId, args: seq<FiberId>)
    | Receive(a: FiberId)
    | Ignore(a: FiberId)
    | Return(a: FiberId)
    | Finish(a: FiberId, outcome: Outcome, uncaught: bool)
    | Abort(a: FiberId, e: int)

  ghost predicate Enabled(s: State, st: Step) {
    match st
    case Spin(p, c) => s.Has(p) && !s.Has(c)
    case Attach(c, p) => s.Has(c) && s.fs[c].parent.Some? && s.Has(p)
    case Monitor(f, m) => s.Has(f) && s.Has(m)
    case Unmonitor(f, m) => s.Has(f) && s.Has(m)
    case Signal(f) => s.Has(f) && !s.IsDone(f)
    case Interrupt(a) => s.IsRunning(a) && a in s.signalled
    case Await(a, args) => s.IsRunning(a) && s.fs[a].frame.None? && forall f :: f in args ==> s.Has(f)
    case Receive(a) => s.Has(a) && s.fs[a].frame.Some? && s.fs[a].frame.value.fibers != [] && s.fs[a].mailbox != []
    case Ignore(a) => s.IsRunning(a) && s.fs[a].frame.None? && s.fs[a].mailbox != []
    case Return(a) => s.Has(a) && s.fs[a].frame.Some? && s.fs[a].frame.value.fibers == []
    case Finish(a, _, _) => s.IsRunning(a) && s.fs[a].frame.None?
    case Abort(a, _) => s.IsClosing(a) && a in s.signalled
  }

  /** The fiber after another one was made its child or stopped being it. */
  function Adopt(x: Fiber, c: FiberId): Fiber { x.(children := Put(x.children, c)) }
  function Disown(x: Fiber, c: FiberId): Fiber { x.(children := Drop(x.children, c)) }

  function Update(s: State, f: FiberId, x: Fiber): State { s.(fs := s.fs[f := x]) }

  function AttachTo(s: State, c: FiberId, p: FiberId): State
    requires s.Has(c) && s.fs[c].parent.Some? && s.Has(p)
  {
    var previous := s.fs[c].parent.value;
    var s1 := if s.Has(previous) then Update(s, previous, Disown(s.fs[previous], c)) else s;
    var s2 := Update(s1, c, s1.fs[c].(parent := Some(p)));
    Update(s2, p, Adopt(s2.fs[p], c))
  }

  /** The messages `Fiber.await` queues itself, for the fibers that are dead already. */
  function DeadMessages(s: State, args: seq<FiberId>): seq<Message> {
    if args == [] then []
    else
      var n := |args| - 1;
      DeadMessages(s, args[..n]) + (if s.IsDone(args[n]) then [Message(args[n], s.fs[args[n]].phase.outcome)] else [])
  }

  function AwaitedBy(s: State, a: FiberId, args: seq<FiberId>, f: FiberId): Fiber
    requires s.Has(f)
  {
    var x := if f in args && !s.IsDone(f) then s.fs[f].(monitors := s.fs[f].monitors + {a}) else s.fs[f];
    if f == a then x.(mailbox := x.mailbox + DeadMessages(s, args), frame := Some(Start(args))) else x
  }

  function BeginAwait(s: State, a: FiberId, args: seq<FiberId>): State {
    s.(fs := map f | f in s.fs :: AwaitedBy(s, a, args, f))
  }

  /** `terminate` on each of the fibers. */
  function TerminateAll(s: State, fibers: seq<FiberId>): State {
    s.(signalled := s.signalled + set f | f in fibers && !s.IsDone(f))
  }

  function ReceiveOne(s: State, a: FiberId): State
    requires s.Has(a) && s.fs[a].frame.Some? && s.fs[a].mailbox != []
  {
    var x := s.fs[a];
    var m := x.mailbox[0];
    var fr := Take(x.frame.value, m);
    var heard := m.from in x.frame.value.fibers;
    var y := x.(mailbox := x.mailbox[1..], frame := Some(fr));
    var z := if heard && s.Has(m.from) && s.fs[m.from].parent == Some(a) then Disown(y, m.from) else y;
    var s' := Update(s, a, z);
    if heard && m.outcome.Exception? then TerminateAll(s', fr.fibers) else s'
  }

  /** The children that are not dead, in the order they were added. */
  function Pending(s: State, children: seq<FiberId>): (r: seq<FiberId>)
    ensures forall f :: f in r <==> f in children && !s.IsDone(f)
  {
    if children == [] then []
    else
      var n := |children| - 1;
      Pending(s, children[..n]) + (if s.IsDone(children[n]) then [] else [children[n]])
  }

  /** `shutdown_all_children` up to the point where it waits. */
  function Shutdown(s: State, a: FiberId): State
    requires s.Has(a)
  {
    var pending := Pending(s, s.fs[a].children);
    BeginAwait(TerminateAll(s, pending), a, pending)
  }

  function Finalised(s: State, a: FiberId, outcome: Outcome, f: FiberId): Fiber
    requires s.Has(a) && s.Has(f)
  {
    var x := s.fs[f];
    var y := if f in s.fs[a].monitors then x.(mailbox := x.mailbox + [Message(a, outcome)]) else x;
    var z := if s.fs[a].parent == Some(f) then Disown(y, a) else y;
    if f == a then z.(phase := Done(outcome), frame := None) else z
  }

  /** The parent an uncaught exception is scheduled on: none if it learns of it as a monitor. */
  function Blamed(s: State, a: FiberId, uncaught: bool): set<FiberId>
    requires s.Has(a)
  {
    var x := s.fs[a];
    if uncaught && x.parent.Some? && x.parent.value !in x.monitors then {x.parent.value} else {}
  }

  /** `finalize` after the children are gone: inform the monitors, blame the parent, be dead. */
  function Finalise(s: State, a: FiberId, outcome: Outcome, uncaught: bool): State
    requires s.Has(a)
  {
    State(map f | f in s.fs :: Finalised(s, a, outcome, f), s.signalled + Blamed(s, a, uncaught) - {a})
  }

  /** The outcome of a fiber whose children have ended: an exception of one of them wins. */
  function FinalOutcome(x: Fiber): (Outcome, bool)
    requires x.phase.Closing? && x.frame.Some?
  {
    if x.frame.value.exception.Some? then (Exception(x.frame.value.exception.value), true)
    else (x.phase.outcome, x.phase.uncaught)
  }

  ghost function Next(s: State, st: Step): State
    requires Enabled(s, st)
  {
    match st
    case Spin(p, c) => Update(Update(s, c, Fiber(Some(p), [], {}, [], Running, None)), p, Adopt(s.fs[p], c))
    case Attach(c, p) => AttachTo(s, c, p)
    case Monitor(f, m) => Update(s, f, s.fs[f].(monitors := s.fs[f].monitors + {m}))
    case Unmonitor(f, m) => Update(s, f, s.fs[f].(monitors := s.fs[f].monitors - {m}))
    case Signal(f) => s.(signalled := s.signalled + {f})
    case Interrupt(a) => Update(s.(signalled := s.signalled - {a}), a, s.fs[a].(frame := None))
    case Await(a, args) => BeginAwait(s, a, args)
    case Receive(a) => ReceiveOne(s, a)
    case Ignore(a) => Update(s, a, s.fs[a].(mailbox := s.fs[a].mailbox[1..]))
    case Return(a) =>
      if s.fs[a].phase.Closing? then
        var (outcome, uncaught) := FinalOutcome(s.fs[a]);
        Finalise(s, a, outcome, uncaught)
      else Update(s, a, s.fs[a].(frame := None))
    case Finish(a, outcome, uncaught) =>
      Shutdown(Update(s, a, s.fs[a].(phase := Closing(outcome, uncaught))), a)
    case Abort(a, e) => Finalise(s, a, Exception(e), true)
  }

  // ---------- the invariant ----------

  /** Whoever is in a mailbox is finalised, with the outcome the message gives. */
  ghost predicate MailOk(s: State, ms: seq<Message>) {
    forall m :: m in ms ==> s.Has(m.from) && s.fs[m.from].phase == Done(m.outcome)
  }

  /** An awaited fiber is waited for, or is finalised and was noted with its outcome. */
  ghost predicate Noted(s: State, fr: Frame, f: FiberId) {
    s.Has(f) && f in fr.results && (f in fr.fibers || (s.fs[f].phase.Done? &&
      match s.fs[f].phase.outcome {
        case Value(v) => fr.results[f] == Some(v)
        case Exception(_) => fr.exception.Some?
      }))
  }

  /** The frame is what the loop makes of the messages `ms`, all of them true. */
  ghost predicate Consumed(s: State, fr: Frame, ms: seq<Message>) {
    fr == TakeAll(Start(fr.args), ms) && MailOk(s, ms)
  }

  ghost predicate FromTrueMessages(s: State, fr: Frame) { exists ms :: Consumed(s, fr, ms) }

  ghost predicate FrameOk(s: State, fr: Frame) { AllNoted(s, fr) && FromTrueMessages(s, fr) }

  ghost predicate AllNoted(s: State, fr: Frame) {
    && (forall f :: f in fr.args ==> Noted(s, fr, f))
    && (forall f :: f in fr.fibers ==> f in fr.args)
    && (fr.exception.Some? ==>
          exists f :: f in fr.args && s.Has(f) && s.fs[f].phase == Done(Exception(fr.exception.value)))
  }

  /** A fiber that is not finalised has a parent that is not finalised either; a parent that
      is closing waits for it, monitors it, and will not be disturbed while doing so. */
  ghost predicate ParentOk(s: State, x: FiberId, p: FiberId) {
    s.Below(x, p) ==>
      && s.Has(p) && !s.IsDone(p) && x in s.fs[p].children
      && (s.IsClosing(p) ==>
        s.fs[p].frame.Some? && x in s.fs[p].frame.value.fibers && p in s.fs[x].monitors && p !in s.signalled)
  }

  ghost predicate FiberOk(s: State, f: FiberId) {
    s.Has(f) ==>
      && MailOk(s, s.fs[f].mailbox)
      && (s.fs[f].frame.Some? ==> FrameOk(s, s.fs[f].frame.value) && !s.fs[f].phase.Done?)
      && (forall c :: c in s.fs[f].children ==> s.Has(c) && s.fs[c].parent == Some(f))
  }

  ghost predicate ClosingOk(s: State, f: FiberId) { s.IsClosing(f) ==> s.fs[f].frame.Some? }

  /** What holds of each fiber by itself, in every run. */
  ghost predicate Local(s: State) {
    (forall f :: FiberOk(s, f)) && (forall f :: ClosingOk(s, f))
  }

  ghost predicate Family(s: State) { forall x, p :: ParentOk(s, x, p) }

  /** The invariant of orderly runs. */
  ghost predicate Inv(s: State) {
    Local(s) && Family(s)
  }

  // ---------- which runs are orderly ----------

  /** A fiber that is shutting down gets no new child, and no exception while a child of it
      is still alive. The exceptions include those the shutdown of its parent sends it. */
  ghost predicate Safe(s: State, st: Step)
    requires Enabled(s, st)
  {
    match st
    case Spin(p, c) => s.IsRunning(p)
    case Attach(c, p) => s.IsDone(c) || s.IsRunning(p) || (s.IsClosing(p) && Awaits(s, p, c))
    case Unmonitor(f, m) => s.IsClosing(m) ==> !s.Below(f, m)
    case Signal(f) => Undisturbed(s, f)
    case Finish(a, _, _) =>
      (a in s.signalled ==> s.NoneBelow(a)) && forall c :: s.Below(c, a) ==> c != a && Undisturbed(s, c)
    case Receive(a) => TakesException(s, a) ==> forall f :: f in s.fs[a].frame.value.fibers ==> Undisturbed(s, f)
    case _ => true
  }

  /** The next message is an exception of an awaited fiber: the others will be terminated. */
  ghost predicate TakesException(s: State, a: FiberId)
    requires Enabled(s, Receive(a))
  {
    s.fs[a].mailbox[0].from in s.fs[a].frame.value.fibers && s.fs[a].mailbox[0].outcome.Exception?
  }

  /** Fiber `p` is waiting for `c`, will hear from it, and is not about to give up. */
  ghost predicate Awaits(s: State, p: FiberId, c: FiberId)
    requires s.Has(p) && s.Has(c)
  {
    s.fs[p].frame.Some? && c in s.fs[p].frame.value.fibers && p in s.fs[c].monitors && p !in s.signalled
  }

  /** `f` may be sent an exception. */
  ghost predicate Undisturbed(s: State, f: FiberId) { s.IsClosing(f) ==> s.NoneBelow(f) }

  // ---------- every safe step keeps the invariant ----------

  /** Fibers stay, and finalised fibers stay as they are. */
  ghost predicate Grows(s: State, s': State) {
    forall f :: s.Has(f) ==> s'.Has(f) && (s.IsDone(f) ==> s'.fs[f].phase == s.fs[f].phase)
  }

  lemma MailGrows(s: State, s': State, ms: seq<Message>)
    requires Grows(s, s') && MailOk(s, ms)
    ensures MailOk(s', ms)
  {
    forall m | m in ms ensures s'.Has(m.from) && s'.fs[m.from].phase == Done(m.outcome) { assert s.Has(m.from); }
  }

  lemma FrameGrows(s: State, s': State, fr: Frame)
    requires Grows(s, s') && FrameOk(s, fr)
    ensures FrameOk(s', fr)
  {
    var ms :| Consumed(s, fr, ms);
    MailGrows(s, s', ms);
    assert Consumed(s', fr, ms);
    forall f | f in fr.args ensures Noted(s', fr, f) { assert Noted(s, fr, f); }
    if fr.exception.Some? {
      var f :| f in fr.args && s.Has(f) && s.fs[f].phase == Done(Exception(fr.exception.value));
      assert s'.Has(f);
    }
  }

  /** The part of a fiber its own invariant speaks of did not change. */
  lemma FiberKept(s: State, s': State, f: FiberId)
    requires Grows(s, s') && FiberOk(s, f) && s.Has(f) && s'.Has(f)
    requires s'.fs[f].mailbox == s.fs[f].mailbox && s'.fs[f].frame == s.fs[f].frame
    requires s'.fs[f].phase.Done? == s.fs[f].phase.Done?
    requires forall c :: c in s'.fs[f].children ==> s'.Has(c) && s'.fs[c].parent == Some(f)
    ensures FiberOk(s', f)
  {
    MailGrows(s, s', s.fs[f].mailbox);
    if s.fs[f].frame.Some? { FrameGrows(s, s', s.fs[f].frame.value); }
  }

  /** Nothing the local invariant says of `f` has changed. */
  ghost predicate Same(s: State, s': State, f: FiberId) {
    s'.Has(f) ==>
      && s.Has(f) && s'.fs[f].mailbox == s.fs[f].mailbox && s'.fs[f].frame == s.fs[f].frame
      && s'.fs[f].phase == s.fs[f].phase
      && forall c :: c in s'.fs[f].children ==> s'.Has(c) && s'.fs[c].parent == Some(f)
  }

  /** A step that concerns the local state of fiber `a` only. */
  lemma LocalBut(s: State, s': State, a: FiberId)
    requires Local(s) && Grows(s, s') && forall f :: f != a ==> Same(s, s', f)
    requires FiberOk(s', a) && ClosingOk(s', a)
    ensures Local(s')
  {
    forall f | f != a ensures FiberOk(s', f) && ClosingOk(s', f) {
      assert Same(s, s', f) && FiberOk(s, f) && ClosingOk(s, f);
      if s'.Has(f) { FiberKept(s, s', f); }
    }
  }

  /** A step that concerns no local state. */
  lemma LocalKept(s: State, s': State)
    requires Local(s) && Grows(s, s') && forall f :: Same(s, s', f)
    ensures Local(s')
  {
    forall f ensures FiberOk(s', f) && ClosingOk(s', f) {
      assert Same(s, s', f) && FiberOk(s, f) && ClosingOk(s, f);
      if s'.Has(f) { FiberKept(s, s', f); }
    }
  }

  // ---------- every step keeps the local invariant ----------

  lemma SpinLocal(s: State, p: FiberId, c: FiberId)
    requires Local(s) && Enabled(s, Spin(p, c))
    ensures Local(Next(s, Spin(p, c)))
  {
    var s' := Next(s, Spin(p, c));
    forall f | f != c ensures Same(s, s', f) { assert FiberOk(s, f); }
    LocalBut(s, s', c);
  }

  /** Who is whose child after an attachment; all else is as it was. */
  ghost predicate Reattached(s: State, c: FiberId, p: FiberId, s': State, f: FiberId)
    requires s.Has(c)
  {
    s.Has(f) && s'.Has(f) ==>
      && s'.fs[f] == s.fs[f].(parent := s'.fs[f].parent, children := s'.fs[f].children)
      && s'.fs[f].parent == (if f == c then Some(p) else s.fs[f].parent)
      && forall x :: x in s'.fs[f].children <==>
        if x == c && f == p then true else x in s.fs[f].children && !(x == c && s.fs[c].parent == Some(f))
  }

  lemma AttachShape(s: State, c: FiberId, p: FiberId)
    requires Enabled(s, Attach(c, p))
    ensures Next(s, Attach(c, p)).fs.Keys == s.fs.Keys && Next(s, Attach(c, p)).signalled == s.signalled
    ensures forall f :: Reattached(s, c, p, Next(s, Attach(c, p)), f)
  {
  }

  lemma AttachLocal(s: State, c: FiberId, p: FiberId, s': State)
    requires Local(s) && Enabled(s, Attach(c, p))
    requires s'.fs.Keys == s.fs.Keys && forall f :: Reattached(s, c, p, s', f)
    ensures Local(s')
  {
    forall f ensures Same(s, s', f) {
      assert FiberOk(s, f) && Reattached(s, c, p, s', f);
      forall x | s'.Has(f) && x in s'.fs[f].children ensures s'.Has(x) && s'.fs[x].parent == Some(f) {
        assert Reattached(s, c, p, s', x);
      }
    }
    forall f | s.Has(f) ensures s'.Has(f) && s'.fs[f].phase == s.fs[f].phase { assert Same(s, s', f); }
    LocalKept(s, s');
  }

  lemma MonitorLocal(s: State, f: FiberId, m: FiberId)
    requires Local(s) && s.Has(f) && s.Has(m)
    ensures Local(Next(s, Monitor(f, m))) && Local(Next(s, Unmonitor(f, m)))
  {
    var s1, s2 := Next(s, Monitor(f, m)), Next(s, Unmonitor(f, m));
    forall g ensures Same(s, s1, g) && Same(s, s2, g) { assert FiberOk(s, g); }
    LocalKept(s, s1);
    LocalKept(s, s2);
  }

  lemma SignalLocal(s: State, fs: seq<FiberId>)
    requires Local(s)
    ensures Local(TerminateAll(s, fs))
  {
    var s' := TerminateAll(s, fs);
    forall g ensures Same(s, s', g) { assert FiberOk(s, g); }
    LocalKept(s, s');
  }

  /** A running fiber drops its frame, or the first message of its mailbox. */
  lemma OwnStateLocal(s: State, s': State, a: FiberId)
    requires Local(s) && s.IsRunning(a) && s'.Has(a) && s'.fs == s.fs[a := s'.fs[a]]
    requires
      || s'.fs[a] == s.fs[a].(frame := None)
      || (s.fs[a].mailbox != [] && s'.fs[a] == s.fs[a].(mailbox := s.fs[a].mailbox[1..]))
    ensures Local(s')
  {
    assert FiberOk(s, a);
    forall f | f != a ensures Same(s, s', f) { assert FiberOk(s, f); }
    MailGrows(s, s', s.fs[a].mailbox);
    if s.fs[a].frame.Some? { FrameGrows(s, s', s.fs[a].frame.value); }
    LocalBut(s, s', a);
  }

  lemma {:induction false} DeadMessagesOk(s: State, args: seq<FiberId>)
    ensures MailOk(s, DeadMessages(s, args))
  {
    if args != [] { DeadMessagesOk(s, args[..|args| - 1]); }
  }

  lemma AwaitLocal(s: State, a: FiberId, args: seq<FiberId>)
    requires (forall f :: FiberOk(s, f)) && (forall f :: f != a ==> ClosingOk(s, f))
    requires s.Has(a) && !s.IsDone(a) && forall f :: f in args ==> s.Has(f)
    ensures Local(BeginAwait(s, a, args))
  {
    var s' := BeginAwait(s, a, args);
    forall f | f != a ensures FiberOk(s', f) && ClosingOk(s', f) {
      assert FiberOk(s, f) && ClosingOk(s, f);
      if s.Has(f) { FiberKept(s, s', f); }
    }
    assert FiberOk(s, a);
    DeadMessagesOk(s, args);
    MailGrows(s, s', s.fs[a].mailbox);
    MailGrows(s, s', DeadMessages(s, args));
    forall f | f in args ensures Noted(s', Start(args), f) { assert s.Has(f); }
    assert Consumed(s', Start(args), []);
    assert FiberOk(s', a);
  }

  lemma ConsumedMore(s: State, fr: Frame, m: Message)
    requires FromTrueMessages(s, fr) && s.Has(m.from) && s.fs[m.from].phase == Done(m.outcome)
    ensures FromTrueMessages(s, Take(fr, m))
  {
    var ms :| Consumed(s, fr, ms);
    assert (ms + [m])[..|ms|] == ms;
    assert TakeAll(Start(fr.args), ms + [m]) == Take(TakeAll(Start(fr.args), ms), m);
    assert Consumed(s, Take(fr, m), ms + [m]);
  }

  lemma NotedMore(s: State, fr: Frame, m: Message)
    requires AllNoted(s, fr) && s.Has(m.from) && s.fs[m.from].phase == Done(m.outcome)
    ensures AllNoted(s, Take(fr, m))
  {
    var fr' := Take(fr, m);
    forall f | f in fr'.args ensures Noted(s, fr', f) { assert Noted(s, fr, f); }
    if fr.exception.None? && fr'.exception.Some? { assert m.from in fr.args; }
  }

  /** `ReceiveOne` before anybody is told to terminate. */
  function Taken(s: State, a: FiberId): State
    requires s.Has(a) && s.fs[a].frame.Some? && s.fs[a].mailbox != []
  {
    var x := s.fs[a];
    var m := x.mailbox[0];
    var own := m.from in x.frame.value.fibers && s.Has(m.from) && s.fs[m.from].parent == Some(a);
    Update(s, a, Fiber(x.parent, if own then Drop(x.children, m.from) else x.children, x.monitors,
      x.mailbox[1..], x.phase, Some(Take(x.frame.value, m))))
  }

  lemma ReceiveIsTaken(s: State, a: FiberId)
    requires Enabled(s, Receive(a))
    ensures Next(s, Receive(a)) ==
      if TakesException(s, a) then TerminateAll(Taken(s, a), Taken(s, a).fs[a].frame.value.fibers) else Taken(s, a)
  {
  }

  lemma TakenLocal(s: State, a: FiberId)
    requires Local(s) && Enabled(s, Receive(a))
    ensures Local(Taken(s, a)) && s.IsDone(s.fs[a].mailbox[0].from)
  {
    var x, s' := s.fs[a], Taken(s, a);
    var m := x.mailbox[0];
    assert FiberOk(s, a) && ClosingOk(s, a) && m in x.mailbox;
    NotedMore(s, x.frame.value, m);
    ConsumedMore(s, x.frame.value, m);
    forall f | f != a ensures Same(s, s', f) { assert FiberOk(s, f); }
    MailGrows(s, s', x.mailbox[1..]);
    FrameGrows(s, s', Take(x.frame.value, m));
    LocalBut(s, s', a);
  }

  lemma ReceiveLocal(s: State, a: FiberId)
    requires Local(s) && Enabled(s, Receive(a))
    ensures Local(Next(s, Receive(a)))
  {
    TakenLocal(s, a);
    ReceiveIsTaken(s, a);
    SignalLocal(Taken(s, a), Taken(s, a).fs[a].frame.value.fibers);
  }

  lemma FinaliseLocal(s: State, a: FiberId, outcome: Outcome, uncaught: bool)
    requires Local(s) && s.Has(a) && !s.IsDone(a)
    ensures Local(Finalise(s, a, outcome, uncaught))
  {
    var s' := Finalise(s, a, outcome, uncaught);
    forall f ensures FiberOk(s', f) && ClosingOk(s', f) {
      assert FiberOk(s, f) && ClosingOk(s, f);
      if s.Has(f) { FinalisedOk(s, a, outcome, s', f); }
    }
  }

  lemma FinalisedOk(s: State, a: FiberId, outcome: Outcome, s': State, f: FiberId)
    requires s.Has(a) && s.Has(f) && FiberOk(s, f) && ClosingOk(s, f) && Grows(s, s') && s'.Has(f)
    requires s'.fs[f] == Finalised(s, a, outcome, f) && s'.Has(a) && s'.fs[a].phase == Done(outcome)
    requires forall c :: s.Has(c) ==> s'.Has(c) && s'.fs[c].parent == s.fs[c].parent
    ensures FiberOk(s', f) && ClosingOk(s', f)
  {
    MailGrows(s, s', s.fs[f].mailbox);
    if s.fs[f].frame.Some? { FrameGrows(s, s', s.fs[f].frame.value); }
  }

  lemma FinishLocal(s: State, a: FiberId, outcome: Outcome, uncaught: bool)
    requires Local(s) && Enabled(s, Finish(a, outcome, uncaught))
    ensures Local(Next(s, Finish(a, outcome, uncaught)))
  {
    var s1 := Update(s, a, s.fs[a].(phase := Closing(outcome, uncaught)));
    var pending := Pending(s1, s.fs[a].children);
    var s2 := TerminateAll(s1, pending);
    assert FiberOk(s, a);
    forall f ensures FiberOk(s2, f) && (f != a ==> ClosingOk(s2, f)) {
      assert FiberOk(s, f) && ClosingOk(s, f);
      if s.Has(f) { FiberKept(s, s2, f); }
    }
    AwaitLocal(s2, a, pending);
  }

  /** Whatever happens in a thread, messages are true and awaits have noted what they heard. */
  lemma StepKeepsLocal(s: State, st: Step)
    requires Local(s) && Enabled(s, st)
    ensures Local(Next(s, st))
  {
    match st
    case Spin(p, c) => SpinLocal(s, p, c);
    case Attach(c, p) => AttachShape(s, c, p); AttachLocal(s, c, p, Next(s, st));
    case Monitor(f, m) => MonitorLocal(s, f, m);
    case Unmonitor(f, m) => MonitorLocal(s, f, m);
    case Signal(f) => SignalIsTerminate(s, f); SignalLocal(s, [f]);
    case Interrupt(a) => OwnStateLocal(s, Next(s, st), a);
    case Await(a, args) => AwaitLocal(s, a, args);
    case Receive(a) => ReceiveLocal(s, a);
    case Ignore(a) => OwnStateLocal(s, Next(s, st), a);
    case Return(a) =>
      assert FiberOk(s, a);
      if s.IsClosing(a) {
        FinaliseLocal(s, a, FinalOutcome(s.fs[a]).0, FinalOutcome(s.fs[a]).1);
      } else {
        OwnStateLocal(s, Next(s, st), a);
      }
    case Finish(a, outcome, uncaught) => FinishLocal(s, a, outcome, uncaught);
    case Abort(a, e) => FinaliseLocal(s, a, Exception(e), true);
  }

  lemma SignalIsTerminate(s: State, f: FiberId)
    requires Enabled(s, Signal(f))
    ensures Next(s, Signal(f)) == TerminateAll(s, [f])
  {
    assert f in [f];
  }

  // ---------- the safe steps keep parents and children together ----------

  lemma AttachFamily(s: State, c: FiberId, p: FiberId, s': State)
    requires Inv(s) && Enabled(s, Attach(c, p)) && Safe(s, Attach(c, p))
    requires s'.fs.Keys == s.fs.Keys && s'.signalled == s.signalled && forall f :: Reattached(s, c, p, s', f)
    ensures Family(s')
  {
    forall x, q ensures ParentOk(s', x, q) {
      assert ParentOk(s, x, q) && Reattached(s, c, p, s', x) && Reattached(s, c, p, s', q);
    }
  }

  lemma SignalFamily(s: State, fs: seq<FiberId>)
    requires Family(s) && forall f :: f in fs ==> Undisturbed(s, f)
    ensures Family(TerminateAll(s, fs))
  {
    var s' := TerminateAll(s, fs);
    forall x, q ensures ParentOk(s', x, q) { assert ParentOk(s, x, q); }
  }

  /** Steps that touch neither parents nor phases, nor disturb anybody. */
  lemma SimpleFamily(s: State, st: Step)
    requires Inv(s) && Enabled(s, st) && Safe(s, st)
    requires st.Spin? || st.Monitor? || st.Unmonitor? || st.Interrupt? || st.Ignore?
    ensures Family(Next(s, st))
  {
    var s' := Next(s, st);
    forall x, q ensures ParentOk(s', x, q) { assert ParentOk(s, x, q); }
  }

  lemma AwaitFamily(s: State, a: FiberId, args: seq<FiberId>)
    requires Inv(s) && Enabled(s, Await(a, args))
    ensures Family(Next(s, Await(a, args)))
  {
    var s' := Next(s, Await(a, args));
    forall x, q ensures ParentOk(s', x, q) { assert ParentOk(s, x, q); }
  }

  lemma ReceiveFamily(s: State, a: FiberId)
    requires Inv(s) && Enabled(s, Receive(a)) && Safe(s, Receive(a))
    ensures Family(Next(s, Receive(a)))
  {
    var s' := Taken(s, a);
    TakenLocal(s, a);
    ReceiveIsTaken(s, a);
    forall x, q ensures ParentOk(s', x, q) { assert ParentOk(s, x, q); }
    if TakesException(s, a) {
      forall f | f in s'.fs[a].frame.value.fibers ensures Undisturbed(s', f) {
        assert Undisturbed(s, f);
        if s'.IsClosing(f) {
          forall y ensures !s'.Below(y, f) { assert !s.Below(y, f); }
        }
      }
      SignalFamily(s', s'.fs[a].frame.value.fibers);
    }
  }

  lemma FinaliseFamily(s: State, a: FiberId, outcome: Outcome, uncaught: bool)
    requires Inv(s) && s.Has(a) && !s.IsDone(a) && s.NoneBelow(a)
    ensures Family(Finalise(s, a, outcome, uncaught))
  {
    var s' := Finalise(s, a, outcome, uncaught);
    forall f | s.Has(f) ensures s'.Has(f) && s'.fs[f] == Finalised(s, a, outcome, f) { }
    forall x, q ensures ParentOk(s', x, q) { assert ParentOk(s, x, q) && ParentOk(s, a, q) && !s.Below(x, a); }
  }

  /** A closing fiber that waits for nobody any more, or was told to stop waiting, has no live
      child. */
  lemma EndsAlone(s: State, st: Step, a: FiberId)
    requires Inv(s) && Enabled(s, st) && s.IsClosing(a) && (st == Return(a) || (st.Abort? && st.a == a))
    ensures s.NoneBelow(a)
  {
    forall x ensures !s.Below(x, a) { assert ParentOk(s, x, a); }
  }

  lemma ReturnFamily(s: State, a: FiberId)
    requires Inv(s) && Enabled(s, Return(a))
    ensures Family(Next(s, Return(a)))
  {
    if s.IsClosing(a) {
      EndsAlone(s, Return(a), a);
      FinaliseFamily(s, a, FinalOutcome(s.fs[a]).0, FinalOutcome(s.fs[a]).1);
    } else {
      var s' := Next(s, Return(a));
      forall x, q ensures ParentOk(s', x, q) { assert ParentOk(s, x, q); }
    }
  }

  /** What the shutdown of `a` does to fiber `f`, in both directions of the parent link. */
  ghost predicate ShutDown(s: State, a: FiberId, pending: seq<FiberId>, s': State, f: FiberId) {
    s.Has(f) && s'.Has(f) ==>
      && s'.fs[f].parent == s.fs[f].parent && s'.fs[f].children == s.fs[f].children
      && s.fs[f].monitors <= s'.fs[f].monitors && (f in pending && !s.IsDone(f) ==> a in s'.fs[f].monitors)
      && (if f == a then s'.fs[f].phase.Closing? && s'.fs[f].frame == Some(Start(pending))
          else s'.fs[f].phase == s.fs[f].phase && s'.fs[f].frame == s.fs[f].frame)
  }

  lemma FinishShape(s: State, a: FiberId, outcome: Outcome, uncaught: bool)
    requires Enabled(s, Finish(a, outcome, uncaught))
    ensures var s', pending := Next(s, Finish(a, outcome, uncaught)), Pending(s, s.fs[a].children);
      && s'.fs.Keys == s.fs.Keys && s'.signalled == s.signalled + (set f | f in pending)
      && forall f :: ShutDown(s, a, pending, s', f)
  {
    SamePending(s, a, outcome, uncaught, s.fs[a].children);
    var s1 := Update(s, a, s.fs[a].(phase := Closing(outcome, uncaught)));
    var s', pending := Next(s, Finish(a, outcome, uncaught)), Pending(s, s.fs[a].children);
    var s2 := TerminateAll(s1, pending);
    AwaitShape(s, a, outcome, uncaught, s2, pending);
    assert s2.signalled == s.signalled + (set f | f in pending);
  }

  lemma AwaitShape(s: State, a: FiberId, outcome: Outcome, uncaught: bool, s2: State, pending: seq<FiberId>)
    requires s.IsRunning(a) && s2.fs == s.fs[a := s.fs[a].(phase := Closing(outcome, uncaught))]
    ensures forall f :: ShutDown(s, a, pending, BeginAwait(s2, a, pending), f)
  {
    var s' := BeginAwait(s2, a, pending);
    forall f ensures ShutDown(s, a, pending, s', f) {
      if s.Has(f) { assert s'.fs[f] == AwaitedBy(s2, a, pending, f); }
    }
  }

  lemma {:induction false} SamePending(s: State, a: FiberId, outcome: Outcome, uncaught: bool, cs: seq<FiberId>)
    requires s.IsRunning(a)
    ensures Pending(Update(s, a, s.fs[a].(phase := Closing(outcome, uncaught))), cs) == Pending(s, cs)
  {
    if cs != [] { SamePending(s, a, outcome, uncaught, cs[..|cs| - 1]); }
  }

  lemma ShutDownFamily(s: State, a: FiberId, pending: seq<FiberId>, s': State)
    requires Inv(s) && s.IsRunning(a)
    requires forall f :: f in pending <==> f in s.fs[a].children && !s.IsDone(f)
    requires (a in s.signalled ==> s.NoneBelow(a)) && forall c :: s.Below(c, a) ==> c != a && Undisturbed(s, c)
    requires s'.fs.Keys == s.fs.Keys && s'.signalled == s.signalled + (set f | f in pending)
    requires forall f :: ShutDown(s, a, pending, s', f)
    ensures Family(s')
  {
    assert FiberOk(s, a);
    forall x, q ensures ParentOk(s', x, q) {
      assert ParentOk(s, x, q) && ShutDown(s, a, pending, s', x) && ShutDown(s, a, pending, s', q);
      if q in pending && s.IsClosing(q) {
        assert s.Below(q, a) && Undisturbed(s, q);
        assert !s.Below(x, q);
      }
      if q == a && s.Below(x, a) { assert !s.Below(a, a); }
    }
  }

  lemma FinishFamily(s: State, a: FiberId, outcome: Outcome, uncaught: bool)
    requires Inv(s) && Enabled(s, Finish(a, outcome, uncaught)) && Safe(s, Finish(a, outcome, uncaught))
    ensures Family(Next(s, Finish(a, outcome, uncaught)))
  {
    FinishShape(s, a, outcome, uncaught);
    ShutDownFamily(s, a, Pending(s, s.fs[a].children), Next(s, Finish(a, outcome, uncaught)));
  }

  lemma StepKeepsInv(s: State, st: Step)
    requires Inv(s) && Enabled(s, st) && Safe(s, st)
    ensures Inv(Next(s, st))
  {
    StepKeepsLocal(s, st);
    match st
    case Attach(c, p) => AttachShape(s, c, p); AttachFamily(s, c, p, Next(s, st));
    case Signal(f) => SignalIsTerminate(s, f); SignalFamily(s, [f]);
    case Await(a, args) => AwaitFamily(s, a, args);
    case Receive(a) => ReceiveFamily(s, a);
    case Return(a) => ReturnFamily(s, a);
    case Finish(a, outcome, uncaught) => FinishFamily(s, a, outcome, uncaught);
    case Abort(a, e) => EndsAlone(s, st, a); FinaliseFamily(s, a, Exception(e), true);
    case _ => SimpleFamily(s, st);
  }

  // ---------- runs ----------

  /** A thread that has only its main fiber. */
  function Initial(main: FiberId): State {
    State(map[main := Fiber(None, [], {}, [], Running, None)], {})
  }

  ghost predicate IsRun(s: State, steps: seq<Step>)
    decreases |steps|
  {
    steps == [] || (Enabled(s, steps[0]) && IsRun(Next(s, steps[0]), steps[1..]))
  }

  ghost function After(s: State, steps: seq<Step>): State
    requires IsRun(s, steps)
    decreases |steps|
  {
    if steps == [] then s else After(Next(s, steps[0]), steps[1..])
  }

  ghost predicate SafeRun(s: State, steps: seq<Step>)
    requires IsRun(s, steps)
    decreases |steps|
  {
    steps == [] || (Safe(s, steps[0]) && SafeRun(Next(s, steps[0]), steps[1..]))
  }

  lemma {:induction false} RunKeepsInv(s: State, steps: seq<Step>)
    requires Inv(s) && IsRun(s, steps) && SafeRun(s, steps)
    ensures Inv(After(s, steps))
    decreases |steps|
  {
    if steps != [] {
      StepKeepsInv(s, steps[0]);
      RunKeepsInv(Next(s, steps[0]), steps[1..]);
    }
  }

  /** In every run whatsoever, orderly or not. */
  lemma {:induction false} RunKeepsLocal(s: State, steps: seq<Step>)
    requires Local(s) && IsRun(s, steps)
    ensures Local(After(s, steps))
    decreases |steps|
  {
    if steps != [] {
      StepKeepsLocal(s, steps[0]);
      RunKeepsLocal(Next(s, steps[0]), steps[1..]);
    }
  }

  /** A line of descent: every fiber is the parent of the next. */
  ghost predicate Descent(s: State, path: seq<FiberId>) {
    forall i {:trigger path[i]} :: 0 < i < |path| ==> s.Has(path[i]) && s.fs[path[i]].parent == Some(path[i - 1])
  }

  lemma {:induction false} EndedDownTo(s: State, path: seq<FiberId>, k: nat)
    requires Inv(s) && Descent(s, path) && k < |path| && s.IsDone(path[0])
    ensures s.IsDone(path[k])
  {
    if k > 0 {
      EndedDownTo(s, path, k - 1);
      assert s.Has(path[k]) && ParentOk(s, path[k], path[k - 1]);
    }
  }

  /** Structured shutdown: when a fiber informs its monitors, all its descendants have ended. */
  lemma MonitorsInformedLast(main: FiberId, steps: seq<Step>, st: Step, a: FiberId, path: seq<FiberId>, k: nat)
    requires IsRun(Initial(main), steps) && SafeRun(Initial(main), steps)
    requires Enabled(After(Initial(main), steps), st) && Safe(After(Initial(main), steps), st)
    requires !After(Initial(main), steps).IsDone(a) && Next(After(Initial(main), steps), st).IsDone(a)
    requires Descent(After(Initial(main), steps), path) && 0 < k < |path| && path[0] == a
    ensures After(Initial(main), steps).IsDone(path[k])
  {
    RunKeepsInv(Initial(main), steps);
    var s := After(Initial(main), steps);
    OnlyClosingFibersEnd(s, st, a);
    assert s.Has(path[1]) && s.fs[path[1]].parent == Some(path[0]);
    assert !s.Below(path[1], a);
    assert Descent(s, path[1..]) by {
      forall i | 0 < i < |path[1..]|
        ensures s.Has(path[1..][i]) && s.fs[path[1..][i]].parent == Some(path[1..][i - 1])
      {
        assert s.Has(path[i + 1]);
      }
    }
    EndedDownTo(s, path[1..], k - 1);
  }

  lemma OnlyClosingFibersEnd(s: State, st: Step, a: FiberId)
    requires Inv(s) && Enabled(s, st) && !s.IsDone(a) && Next(s, st).IsDone(a)
    ensures s.Has(a) && s.IsClosing(a) && s.NoneBelow(a)
  {
    match st
    case Return(b) =>
      assert FiberOk(s, b);
      EndsAlone(s, st, a);
    case Abort(b, _) => EndsAlone(s, st, a);
    case _ =>
  }

  /** In every run, a message in a mailbox, stray or not, is from a finalised fiber and tells
      its outcome. */
  lemma MessagesAreTrue(main: FiberId, steps: seq<Step>, f: FiberId, m: Message)
    requires IsRun(Initial(main), steps)
    requires After(Initial(main), steps).Has(f) && m in After(Initial(main), steps).fs[f].mailbox
    ensures After(Initial(main), steps).Has(m.from) && After(Initial(main), steps).fs[m.from].phase == Done(m.outcome)
  {
    RunKeepsLocal(Initial(main), steps);
    assert FiberOk(After(Initial(main), steps), f);
  }

  /** In every safe run the descendants of that fiber are finalised too. */
  lemma MessagesTellOfWholeTrees(
    main: FiberId, steps: seq<Step>, f: FiberId, m: Message, path: seq<FiberId>, k: nat)
    requires IsRun(Initial(main), steps) && SafeRun(Initial(main), steps)
    requires After(Initial(main), steps).Has(f) && m in After(Initial(main), steps).fs[f].mailbox
    requires Descent(After(Initial(main), steps), path) && k < |path| && path[0] == m.from
    ensures After(Initial(main), steps).IsDone(path[k])
  {
    RunKeepsInv(Initial(main), steps);
    MessagesAreTrue(main, steps, f, m);
    EndedDownTo(After(Initial(main), steps), path, k);
  }

  /** What the caller of a finished await gets to know of the fibers it named. */
  ghost predicate Delivered(s: State, fr: Frame) {
    && (forall f :: f in fr.args ==> s.IsDone(f))
    && match ResultOf(fr) {
      case Raised(e) => exists f :: f in fr.args && s.Has(f) && s.fs[f].phase == Done(Exception(e))
      case Returned(vs) =>
        && |vs| == |Keys(fr.args)|
        && forall k :: 0 <= k < |vs| ==> IsResult(s, Keys(fr.args)[k], vs[k])
    }
  }

  ghost predicate IsResult(s: State, f: FiberId, v: Option<int>) {
    v.Some? && s.Has(f) && s.fs[f].phase == Done(Value(v.value))
  }

  /** In every run, when `Fiber.await` returns or raises, every fiber it was given is finalised;
      the values are theirs, in argument order, and an exception is the outcome of one of them,
      the first one the await received. */
  lemma AwaitReturnsAfterAll(main: FiberId, steps: seq<Step>, a: FiberId)
    requires IsRun(Initial(main), steps) && Enabled(After(Initial(main), steps), Return(a))
    ensures Delivered(After(Initial(main), steps), After(Initial(main), steps).fs[a].frame.value)
    ensures RaisesFirst(After(Initial(main), steps), After(Initial(main), steps).fs[a].frame.value)
  {
    RunKeepsLocal(Initial(main), steps);
    var s := After(Initial(main), steps);
    assert FiberOk(s, a);
    NotedIsDelivered(s, s.fs[a].frame.value);
    FrameRaisesFirst(s, s.fs[a].frame.value);
  }

  /** Of the messages the await consumed, its exception is the first that decides a fiber. */
  ghost predicate RaisesFirst(s: State, fr: Frame) {
    exists ms :: Consumed(s, fr, ms) && FirstException(fr.args, ms, fr.exception)
  }

  lemma FrameRaisesFirst(s: State, fr: Frame)
    requires FromTrueMessages(s, fr)
    ensures RaisesFirst(s, fr)
  {
    var ms :| Consumed(s, fr, ms);
    TakeAllMeans(fr.args, ms);
  }

  lemma NotedIsDelivered(s: State, fr: Frame)
    requires FrameOk(s, fr) && fr.fibers == []
    ensures Delivered(s, fr)
  {
    forall f | f in fr.args ensures s.IsDone(f) { assert Noted(s, fr, f); }
    if fr.exception.None? {
      var vs := ResultOf(fr).values;
      forall k | 0 <= k < |vs| ensures IsResult(s, Keys(fr.args)[k], vs[k]) {
        assert Keys(fr.args)[k] in Keys(fr.args);
        assert Noted(s, fr, Keys(fr.args)[k]);
      }
    }
  }

  /** An uncaught exception never disturbs a parent that is shutting down: the parent is a
      monitor by then. */
  lemma FailingChildDoesNotDisturbShutdown(s: State, a: FiberId, p: FiberId)
    requires Inv(s) && s.Below(a, p) && s.IsClosing(p)
    ensures Blamed(s, a, true) == {}
  {
    assert ParentOk(s, a, p);
  }

  // ---------- what a fiber ends with ----------

  /** A fiber is closing because it finished, and with what it finished. */
  lemma ClosingStep(s: State, st: Step, a: FiberId)
    requires Enabled(s, st) && Next(s, st).IsClosing(a)
    ensures
      || (s.IsClosing(a) && s.fs[a].phase == Next(s, st).fs[a].phase)
      || st == Finish(a, Next(s, st).fs[a].phase.outcome, Next(s, st).fs[a].phase.uncaught)
  {
    if st.Finish? { FinishPhase(s, st.a, st.outcome, st.uncaught, a); }
    if st.Attach? { AttachShape(s, st.c, st.p); assert Reattached(s, st.c, st.p, Next(s, st), a); }
  }

  lemma FinishPhase(s: State, a: FiberId, outcome: Outcome, uncaught: bool, f: FiberId)
    requires Enabled(s, Finish(a, outcome, uncaught))
    ensures var s' := Next(s, Finish(a, outcome, uncaught));
      && s'.Has(f) == s.Has(f)
      && (s.Has(f) ==> s'.fs[f].phase == if f == a then Closing(outcome, uncaught) else s.fs[f].phase)
  {
  }

  lemma {:induction false} ClosingCameFromFinish(s: State, steps: seq<Step>, a: FiberId)
    requires IsRun(s, steps) && After(s, steps).IsClosing(a) && !s.IsClosing(a)
    ensures var x := After(s, steps).fs[a].phase; Finish(a, x.outcome, x.uncaught) in steps
    decreases |steps|
  {
    var s1 := Next(s, steps[0]);
    if s1.IsClosing(a) {
      ClosingStep(s, steps[0], a);
      ClosingStaysOrEnds(s1, steps[1..], a);
      assert steps[0] in steps;
    } else {
      ClosingCameFromFinish(s1, steps[1..], a);
    }
  }

  /** A closing fiber stays as it is until it ends, and an ended one for good. */
  lemma {:induction false} ClosingStaysOrEnds(s: State, steps: seq<Step>, a: FiberId)
    requires IsRun(s, steps) && (s.IsClosing(a) || s.IsDone(a))
    ensures var s' := After(s, steps);
      s'.IsDone(a) || (s'.IsClosing(a) && s.IsClosing(a) && s'.fs[a].phase == s.fs[a].phase)
    decreases |steps|
  {
    if steps != [] {
      PhaseMovesOn(s, steps[0], a);
      ClosingStaysOrEnds(Next(s, steps[0]), steps[1..], a);
    }
  }

  lemma PhaseMovesOn(s: State, st: Step, a: FiberId)
    requires Enabled(s, st) && (s.IsClosing(a) || s.IsDone(a))
    ensures var s' := Next(s, st); s'.IsDone(a) || (s'.IsClosing(a) && s'.fs[a].phase == s.fs[a].phase)
  {
    if st.Finish? { FinishPhase(s, st.a, st.outcome, st.uncaught, a); }
    if st.Attach? { AttachShape(s, st.c, st.p); assert Reattached(s, st.c, st.p, Next(s, st), a); }
  }

  /** How a fiber ends in one step: its wait is over, or it was interrupted in it. */
  ghost predicate EndsWith(s: State, st: Step, a: FiberId, r: Outcome) {
    || (st.Abort? && st.a == a && r == Exception(st.e))
    || (st == Return(a) && s.IsClosing(a) && s.fs[a].frame.Some?
        && r == match s.fs[a].frame.value.exception { case Some(e) => Exception(e) case None => s.fs[a].phase.outcome })
  }

  lemma EndStep(s: State, st: Step, a: FiberId)
    requires Local(s) && Enabled(s, st) && !s.IsDone(a) && Next(s, st).IsDone(a)
    ensures EndsWith(s, st, a, Next(s, st).fs[a].phase.outcome)
  {
    match st
    case Return(b) => assert FiberOk(s, b);
    case Finish(b, outcome, uncaught) => FinishPhase(s, b, outcome, uncaught, a);
    case _ =>
  }

  lemma {:induction false} DoneStays(s: State, steps: seq<Step>, a: FiberId)
    requires IsRun(s, steps) && s.IsDone(a) && Local(s)
    ensures After(s, steps).IsDone(a) && After(s, steps).fs[a].phase == s.fs[a].phase
    decreases |steps|
  {
    if steps != [] {
      StepKeepsLocal(s, steps[0]);
      DoneStep(s, steps[0], a);
      DoneStays(Next(s, steps[0]), steps[1..], a);
    }
  }

  lemma DoneStep(s: State, st: Step, a: FiberId)
    requires Local(s) && Enabled(s, st) && s.IsDone(a)
    ensures Next(s, st).IsDone(a) && Next(s, st).fs[a].phase == s.fs[a].phase
  {
    match st
    case Return(b) => assert FiberOk(s, b);
    case Finish(b, outcome, uncaught) => FinishPhase(s, b, outcome, uncaught, a);
    case Attach(c, p) => AttachShape(s, c, p); assert Reattached(s, c, p, Next(s, st), a);
    case _ =>
  }

  /** The step in which an ended fiber ended, and the state it ended in. */
  lemma {:induction false} EndingOf(s: State, steps: seq<Step>, a: FiberId) returns (k: nat)
    requires Local(s) && IsRun(s, steps) && !s.IsDone(a) && After(s, steps).IsDone(a)
    ensures k < |steps| && IsRun(s, steps[..k]) && !After(s, steps[..k]).IsDone(a)
    ensures Enabled(After(s, steps[..k]), steps[k])
    ensures EndsWith(After(s, steps[..k]), steps[k], a, After(s, steps).fs[a].phase.outcome)
    decreases |steps|
  {
    var s1 := Next(s, steps[0]);
    StepKeepsLocal(s, steps[0]);
    if s1.IsDone(a) {
      EndStep(s, steps[0], a);
      DoneStays(s1, steps[1..], a);
      k := 0;
    } else {
      var j := EndingOf(s1, steps[1..], a);
      k := j + 1;
      assert steps[..k][1..] == steps[1..][..j] && steps[..k][0] == steps[0];
    }
  }

  /** In every run, an ended fiber ended with what it finished with, unless its shutdown heard an
      exception, the first of which it then ends with, or was itself broken off by one. */
  lemma EndsAsFinished(main: FiberId, steps: seq<Step>, a: FiberId)
    returns (k: nat, o: Outcome, u: bool, ms: seq<Message>)
    requires IsRun(Initial(main), steps) && After(Initial(main), steps).IsDone(a)
    ensures k < |steps| && IsRun(Initial(main), steps[..k]) && Finish(a, o, u) in steps[..k]
    ensures var r := After(Initial(main), steps).fs[a].phase.outcome;
      || (steps[k].Abort? && steps[k].a == a && r == Exception(steps[k].e))
      || (steps[k] == Return(a) && HeardInShutdown(After(Initial(main), steps[..k]), a, ms, o, r))
  {
    k := EndingOf(Initial(main), steps, a);
    var s := After(Initial(main), steps[..k]);
    RunKeepsLocal(Initial(main), steps[..k]);
    assert s.IsClosing(a);
    ClosingCameFromFinish(Initial(main), steps[..k], a);
    o, u := s.fs[a].phase.outcome, s.fs[a].phase.uncaught;
    assert FiberOk(s, a) && ClosingOk(s, a);
    ms :| Consumed(s, s.fs[a].frame.value, ms);
    TakeAllMeans(s.fs[a].frame.value.args, ms);
  }

  /** The messages the shutdown consumed, and what came of them: `r` is the first exception among
      the awaited children's, or `o` if there was none. */
  ghost predicate HeardInShutdown(s: State, a: FiberId, ms: seq<Message>, o: Outcome, r: Outcome) {
    && s.Has(a) && s.fs[a].frame.Some? && MailOk(s, ms)
    && var args := s.fs[a].frame.value.args;
    || (FirstException(args, ms, None) && r == o)
    || (r.Exception? && FirstException(args, ms, Some(r.e)))
  }

  /** So the values an await returns are those its fibers finished with. */
  lemma AwaitReturnsWhatWasFinished(main: FiberId, steps: seq<Step>, a: FiberId, i: nat) returns (u: bool)
    requires IsRun(Initial(main), steps) && Enabled(After(Initial(main), steps), Return(a))
    requires var fr := After(Initial(main), steps).fs[a].frame.value;
      ResultOf(fr).Returned? && i < |ResultOf(fr).values|
    ensures var fr := After(Initial(main), steps).fs[a].frame.value;
      && i < |Keys(fr.args)| && ResultOf(fr).values[i].Some?
      && Finish(Keys(fr.args)[i], Value(ResultOf(fr).values[i].value), u) in steps
  {
    AwaitReturnsAfterAll(main, steps, a);
    var s := After(Initial(main), steps);
    var fr := s.fs[a].frame.value;
    assert IsResult(s, Keys(fr.args)[i], ResultOf(fr).values[i]);
    var k, o, u', ms := EndsAsFinished(main, steps, Keys(fr.args)[i]);
    u := u';
  }

  // ---------- who hears of it ----------

  /** Ending a fiber sends each of its monitors one message, and no one else any. */
  lemma EndingInforms(s: State, a: FiberId, outcome: Outcome, uncaught: bool, f: FiberId)
    requires s.Has(a) && s.Has(f)
    ensures Finalise(s, a, outcome, uncaught).fs[f].mailbox ==
      s.fs[f].mailbox + if f in s.fs[a].monitors then [Message(a, outcome)] else []
  {
  }

  /** An uncaught exception reaches the parent: in its mailbox if it is a monitor, and otherwise as
      an exception, exactly then. */
  lemma UncaughtExceptionReachesParent(s: State, st: Step, a: FiberId, p: FiberId)
    requires Enabled(s, st) && s.IsClosing(a) && s.fs[a].parent == Some(p) && s.Has(p) && p != a
    requires (st == Return(a) && s.fs[a].frame.Some?) || (st.Abort? && st.a == a)
    ensures var s' := Next(s, st);
      var uncaught := st.Abort? || s.fs[a].frame.value.exception.Some? || s.fs[a].phase.uncaught;
      && s'.IsDone(a)
      && (p in s.fs[a].monitors <==> s'.fs[p].mailbox == s.fs[p].mailbox + [Message(a, s'.fs[a].phase.outcome)])
      && (p in s'.signalled <==> p in s.signalled || (uncaught && p !in s.fs[a].monitors))
  {
  }

  /** And takes the fiber off its parent's children. */
  lemma EndingLeavesParent(s: State, a: FiberId, outcome: Outcome, uncaught: bool, p: FiberId)
    requires s.Has(a) && s.Has(p) && s.fs[a].parent == Some(p)
    ensures a !in Finalise(s, a, outcome, uncaught).fs[p].children
    ensures forall c :: c != a ==> (c in Finalise(s, a, outcome, uncaught).fs[p].children <==> c in s.fs[p].children)
  {
  }

  /** A monitor stays one until it is taken off. */
  lemma MonitorStays(s: State, st: Step, f: FiberId, m: FiberId)
    requires Enabled(s, st) && s.Has(f) && m in s.fs[f].monitors && st != Unmonitor(f, m)
    ensures Next(s, st).Has(f) && m in Next(s, st).fs[f].monitors
  {
    if st.Attach? { AttachShape(s, st.c, st.p); assert Reattached(s, st.c, st.p, Next(s, st), f); }
    if st.Finish? {
      FinishShape(s, st.a, st.outcome, st.uncaught);
      assert ShutDown(s, st.a, Pending(s, s.fs[st.a].children), Next(s, st), f);
    }
  }

  /** Whoever monitors a fiber, and is not taken off, finds its outcome in its mailbox when it
      ends. */
  lemma {:induction false} MonitorHears(s: State, steps: seq<Step>, f: FiberId, m: FiberId) returns (k: nat)
    requires Local(s) && IsRun(s, steps) && s.Has(f) && s.Has(m) && !s.IsDone(f) && m in s.fs[f].monitors
    requires Unmonitor(f, m) !in steps && After(s, steps).IsDone(f)
    ensures k <= |steps| && IsRun(s, steps[..k]) && After(s, steps[..k]).Has(m)
    ensures Message(f, After(s, steps).fs[f].phase.outcome) in After(s, steps[..k]).fs[m].mailbox
    decreases |steps|
  {
    var s1 := Next(s, steps[0]);
    StepKeepsLocal(s, steps[0]);
    assert steps[0] in steps && forall x :: x in steps[1..] ==> x in steps;
    MonitorStays(s, steps[0], f, m);
    StepKeepsFibers(s, steps[0], m);
    if s1.IsDone(f) {
      EndTells(s, steps[0], f, m);
      DoneStays(s1, steps[1..], f);
      k := 1;
      assert steps[..1][1..] == [] && steps[..1][0] == steps[0];
    } else {
      var j := MonitorHears(s1, steps[1..], f, m);
      k := j + 1;
      assert steps[..k][1..] == steps[1..][..j] && steps[..k][0] == steps[0];
    }
  }

  lemma StepKeepsFibers(s: State, st: Step, f: FiberId)
    requires Enabled(s, st) && s.Has(f)
    ensures Next(s, st).Has(f)
  {
  }

  lemma EndTells(s: State, st: Step, f: FiberId, m: FiberId)
    requires Local(s) && Enabled(s, st) && s.Has(f) && s.Has(m) && !s.IsDone(f) && Next(s, st).IsDone(f)
    requires m in s.fs[f].monitors
    ensures Next(s, st).Has(m) && Message(f, Next(s, st).fs[f].phase.outcome) in Next(s, st).fs[m].mailbox
  {
    EndStep(s, st, f);
    if st.Abort? {
      EndingInforms(s, f, Exception(st.e), true, m);
    } else {
      EndingInforms(s, f, FinalOutcome(s.fs[f]).0, FinalOutcome(s.fs[f]).1, m);
    }
  }

  /** To monitor a fiber is to become one of its monitors; to stop is to be none. */
  lemma MonitorThenUnmonitor(s: State, f: FiberId, m: FiberId)
    requires s.Has(f) && s.Has(m)
    ensures m in Next(s, Monitor(f, m)).fs[f].monitors && m !in Next(s, Unmonitor(f, m)).fs[f].monitors
    ensures m !in s.fs[f].monitors ==> Next(Next(s, Monitor(f, m)), Unmonitor(f, m)) == s
  {
    if m !in s.fs[f].monitors { assert s.fs[f].monitors + {m} - {m} == s.fs[f].monitors; }
  }

  /** An await ends when it returns or is interrupted, and the exception is used up by then; a
      message that is looked at is gone. */
  lemma AwaitEnds(s: State, st: Step)
    requires Enabled(s, st) && (st.Interrupt? || st.Ignore? || (st.Return? && s.IsRunning(st.a)))
    ensures !st.Ignore? ==> Next(s, st).fs[st.a].frame.None? && Next(s, st).fs[st.a].mailbox == s.fs[st.a].mailbox
    ensures st.Interrupt? ==> Next(s, st).signalled == s.signalled - {st.a}
    ensures st.Ignore? ==> s.fs[st.a].mailbox == [s.fs[st.a].mailbox[0]] + Next(s, st).fs[st.a].mailbox
  {
  }

  /** An await that is not undone from outside: who it still waits for will tell it, or has. */
  ghost predicate Attentive(s: State, a: FiberId, f: FiberId) {
    s.Has(a) && s.fs[a].frame.Some? && f in s.fs[a].frame.value.fibers && s.Has(f) ==>
      if s.IsDone(f) then Message(f, s.fs[f].phase.outcome) in s.fs[a].mailbox else a in s.fs[f].monitors
  }

  ghost predicate AllAttentive(s: State) { forall a, f :: Attentive(s, a, f) }

  /** Nobody takes an awaiting fiber off the monitors of a live fiber it waits for. */
  ghost predicate LeavesMonitors(s: State, st: Step) {
    st.Unmonitor? && s.Has(st.f) && s.Has(st.m) && !s.IsDone(st.f) && s.fs[st.m].frame.Some? ==>
      st.f !in s.fs[st.m].frame.value.fibers
  }

  lemma AttentiveAwait(s: State, a: FiberId, args: seq<FiberId>)
    requires AllAttentive(s) && s.Has(a) && forall f :: f in args ==> s.Has(f)
    ensures AllAttentive(BeginAwait(s, a, args))
  {
    var s' := BeginAwait(s, a, args);
    forall b, f ensures Attentive(s', b, f) {
      assert Attentive(s, b, f);
      if b == a && f in args && s.IsDone(f) { DeadIsAnswered(s, args, f); }
    }
  }

  lemma {:induction false} DeadIsAnswered(s: State, args: seq<FiberId>, f: FiberId)
    requires f in args && s.IsDone(f)
    ensures Message(f, s.fs[f].phase.outcome) in DeadMessages(s, args)
  {
    var n := |args| - 1;
    if args[n] != f {
      assert f in args[..n];
      DeadIsAnswered(s, args[..n], f);
    }
  }

  lemma AttentiveFinalise(s: State, a: FiberId, outcome: Outcome, uncaught: bool)
    requires AllAttentive(s) && s.Has(a) && !s.IsDone(a)
    ensures AllAttentive(Finalise(s, a, outcome, uncaught))
  {
    var s' := Finalise(s, a, outcome, uncaught);
    forall b, f ensures Attentive(s', b, f) {
      assert Attentive(s, b, f);
      if s.Has(b) { EndingInforms(s, a, outcome, uncaught, b); }
    }
  }

  lemma AttentiveReceive(s: State, a: FiberId)
    requires Local(s) && AllAttentive(s) && Enabled(s, Receive(a))
    ensures AllAttentive(Next(s, Receive(a)))
  {
    var s', m := Taken(s, a), s.fs[a].mailbox[0];
    TakenLocal(s, a);
    ReceiveIsTaken(s, a);
    forall b, f ensures Attentive(s', b, f) {
      assert Attentive(s, b, f);
      assert s.fs[a].mailbox == [m] + s.fs[a].mailbox[1..];
    }
    var s2 := Next(s, Receive(a));
    forall b, f ensures Attentive(s2, b, f) { assert Attentive(s', b, f); }
  }

  lemma AttentiveFinish(s: State, a: FiberId, outcome: Outcome, uncaught: bool)
    requires Local(s) && AllAttentive(s) && Enabled(s, Finish(a, outcome, uncaught))
    ensures AllAttentive(Next(s, Finish(a, outcome, uncaught)))
  {
    var s1 := Update(s, a, s.fs[a].(phase := Closing(outcome, uncaught)));
    var pending := Pending(s1, s.fs[a].children);
    var s2 := TerminateAll(s1, pending);
    forall b, f ensures Attentive(s2, b, f) { assert Attentive(s, b, f); }
    assert FiberOk(s, a);
    AttentiveAwait(s2, a, pending);
  }

  lemma AttentiveAttach(s: State, c: FiberId, p: FiberId)
    requires AllAttentive(s) && Enabled(s, Attach(c, p))
    ensures AllAttentive(Next(s, Attach(c, p)))
  {
    var s' := Next(s, Attach(c, p));
    AttachShape(s, c, p);
    forall b, f ensures Attentive(s', b, f) {
      assert Attentive(s, b, f) && Reattached(s, c, p, s', b) && Reattached(s, c, p, s', f);
    }
  }

  lemma AttentiveRest(s: State, st: Step)
    requires Local(s) && AllAttentive(s) && Enabled(s, st) && LeavesMonitors(s, st)
    requires st.Spin? || st.Monitor? || st.Unmonitor? || st.Signal? || st.Interrupt? || st.Ignore? || st.Return?
    requires st.Return? ==> s.IsRunning(st.a)
    ensures AllAttentive(Next(s, st))
  {
    var s' := Next(s, st);
    forall b, f ensures Attentive(s', b, f) {
      assert Attentive(s, b, f);
      if st.Spin? { assert FiberOk(s, b); NotAwaited(s, b, st.c); }
    }
  }

  /** A fiber that does not exist yet is not awaited. */
  lemma NotAwaited(s: State, b: FiberId, c: FiberId)
    requires Local(s) && !s.Has(c)
    ensures s.Has(b) && s.fs[b].frame.Some? ==> c !in s.fs[b].frame.value.fibers
  {
    assert FiberOk(s, b);
    assert s.Has(b) && s.fs[b].frame.Some? ==> forall f :: f in s.fs[b].frame.value.args ==> s.Has(f);
  }

  lemma StepKeepsAttentive(s: State, st: Step)
    requires Local(s) && AllAttentive(s) && Enabled(s, st) && LeavesMonitors(s, st)
    ensures AllAttentive(Next(s, st))
  {
    match st
    case Attach(c, p) => AttentiveAttach(s, c, p);
    case Await(a, args) => AttentiveAwait(s, a, args);
    case Receive(a) => AttentiveReceive(s, a);
    case Return(a) =>
      assert FiberOk(s, a);
      if s.IsClosing(a) {
        AttentiveFinalise(s, a, FinalOutcome(s.fs[a]).0, FinalOutcome(s.fs[a]).1);
      } else {
        AttentiveRest(s, st);
      }
    case Finish(a, outcome, uncaught) => AttentiveFinish(s, a, outcome, uncaught);
    case Abort(a, e) => AttentiveFinalise(s, a, Exception(e), true);
    case _ => AttentiveRest(s, st);
  }

  /** The condition is exact: taking a waiting fiber off the monitors makes it deaf. */
  lemma LeavesMonitorsIsExact(s: State, st: Step)
    requires Local(s) && AllAttentive(s) && Enabled(s, st)
    ensures AllAttentive(Next(s, st)) <==> LeavesMonitors(s, st)
  {
    if LeavesMonitors(s, st) {
      StepKeepsAttentive(s, st);
    } else {
      assert !Attentive(Next(s, st), st.m, st.f);
    }
  }

  ghost predicate MonitorsLeft(s: State, steps: seq<Step>)
    requires IsRun(s, steps)
    decreases |steps|
  {
    steps == [] || (LeavesMonitors(s, steps[0]) && MonitorsLeft(Next(s, steps[0]), steps[1..]))
  }

  lemma {:induction false} RunKeepsAttentive(s: State, steps: seq<Step>)
    requires Local(s) && AllAttentive(s) && IsRun(s, steps) && MonitorsLeft(s, steps)
    ensures AllAttentive(After(s, steps))
    decreases |steps|
  {
    if steps != [] {
      StepKeepsLocal(s, steps[0]);
      StepKeepsAttentive(s, steps[0]);
      RunKeepsAttentive(Next(s, steps[0]), steps[1..]);
    }
  }

  /** No await hangs: in every run in which no waiting fiber is unmonitored, a finalised fiber that
      is still awaited has its message in the awaiting fiber's mailbox, which can go on. */
  lemma FinishedFiberIsHeard(main: FiberId, steps: seq<Step>, a: FiberId, f: FiberId)
    requires IsRun(Initial(main), steps) && MonitorsLeft(Initial(main), steps)
    requires var s := After(Initial(main), steps);
      s.Has(a) && s.fs[a].frame.Some? && f in s.fs[a].frame.value.fibers && s.IsDone(f)
    ensures Enabled(After(Initial(main), steps), Receive(a))
    ensures var s := After(Initial(main), steps); Message(f, s.fs[f].phase.outcome) in s.fs[a].mailbox
  {
    var s0 := Initial(main);
    forall b, x ensures Attentive(s0, b, x) {}
    RunKeepsAttentive(s0, steps);
    assert Attentive(After(s0, steps), a, f);
  }

  // ---------- exactly when shutdown is orderly ----------

  /** No fiber outlives its parent. */
  ghost predicate Orderly(s: State) { forall x, p :: s.Below(x, p) ==> !s.IsDone(p) }

  /** Ending a fiber is orderly exactly when none of its children is alive. */
  lemma EndingIsOrderlyIff(s: State, a: FiberId, outcome: Outcome, uncaught: bool)
    requires Orderly(s) && s.Has(a) && !s.IsDone(a)
    ensures Orderly(Finalise(s, a, outcome, uncaught)) <==> forall x :: s.Below(x, a) ==> x == a
  {
    var s' := Finalise(s, a, outcome, uncaught);
    forall x, p ensures s'.Below(x, p) <==> s.Below(x, p) && x != a { }
    forall p ensures s'.IsDone(p) <==> s.IsDone(p) || p == a { }
    if Orderly(s') {
      forall x | s.Below(x, a) ensures x == a { assert x != a ==> s'.Below(x, a); }
    }
  }

  lemma InvIsOrderly(s: State)
    requires Inv(s)
    ensures Orderly(s)
  {
    forall x, p | s.Below(x, p) ensures !s.IsDone(p) { assert ParentOk(s, x, p); }
  }

  /** Nothing that is signalled can end out of order. */
  ghost predicate AbortsInOrder(s: State) {
    forall b, e :: Enabled(s, Abort(b, e)) ==> Orderly(Next(s, Abort(b, e)))
  }

  /** The conditions are the exact ones, for every kind of step: from a state in order a step
      leads to a state in order if and only if it is safe. */
  lemma SafeIsExact(s: State, st: Step)
    requires Inv(s) && Enabled(s, st)
    ensures Inv(Next(s, st)) <==> Safe(s, st)
  {
    if Safe(s, st) {
      StepKeepsInv(s, st);
    } else if st.Signal? || st.Finish? || st.Receive? {
      var b, x := UnsafeWitness(s, st);
      assert !ParentOk(Next(s, st), x, b);
    } else {
      UnsafeFamily(s, st);
    }
  }

  lemma UnsafeFamily(s: State, st: Step)
    requires Inv(s) && Enabled(s, st) && !Safe(s, st) && (st.Spin? || st.Attach? || st.Unmonitor?)
    ensures !Family(Next(s, st))
  {
    var s' := Next(s, st);
    match st
    case Spin(p, c) => assert !ParentOk(s', c, p);
    case Attach(c, p) =>
      AttachShape(s, c, p);
      assert Reattached(s, c, p, s', c) && Reattached(s, c, p, s', p);
      assert !ParentOk(s', c, p);
    case Unmonitor(f, m) => assert !ParentOk(s', f, m);
  }

  /** What it means for the exceptions: a safe step leaves no interruption that could end a
      fiber before its children, and an unsafe one leaves one. Only a fiber that is its own
      parent would not show the difference. */
  lemma SafeMeansOrderly(s: State, st: Step)
    requires Inv(s) && Enabled(s, st) && (st.Signal? || st.Finish? || st.Receive?)
    requires forall x :: !s.Below(x, x)
    ensures Safe(s, st) <==> AbortsInOrder(Next(s, st))
  {
    if Safe(s, st) {
      StepKeepsInv(s, st);
      var s' := Next(s, st);
      forall b, e | Enabled(s', Abort(b, e)) ensures Orderly(Next(s', Abort(b, e))) {
        StepKeepsInv(s', Abort(b, e));
        InvIsOrderly(Next(s', Abort(b, e)));
      }
    } else {
      var b, x := UnsafeWitness(s, st);
      assert !s.Below(x, x);
      UnsafeAbort(Next(s, st), b, x);
    }
  }

  lemma UnsafeAbort(s: State, b: FiberId, x: FiberId)
    requires s.IsClosing(b) && b in s.signalled && s.Below(x, b) && x != b
    ensures !AbortsInOrder(s)
  {
    var s' := Next(s, Abort(b, 0));
    assert Enabled(s, Abort(b, 0)) && s'.Below(x, b) && s'.IsDone(b);
  }

  /** After an unsafe step a closing fiber will be interrupted while a child is alive. */
  lemma UnsafeWitness(s: State, st: Step) returns (b: FiberId, x: FiberId)
    requires Inv(s) && Enabled(s, st) && (st.Signal? || st.Finish? || st.Receive?) && !Safe(s, st)
    ensures var s' := Next(s, st); s'.IsClosing(b) && b in s'.signalled && s'.Below(x, b) && s.Below(x, b)
  {
    match st
    case Signal(f) =>
      b := f;
      x :| s.Below(x, b);
    case Receive(a) =>
      b :| b in s.fs[a].frame.value.fibers && !Undisturbed(s, b);
      x :| s.Below(x, b);
      TakenLocal(s, a);
      ReceiveIsTaken(s, a);
    case Finish(a, outcome, uncaught) =>
      b, x := UnsafeFinishWitness(s, a, outcome, uncaught);
  }

  lemma UnsafeFinishWitness(s: State, a: FiberId, outcome: Outcome, uncaught: bool) returns (b: FiberId, x: FiberId)
    requires Inv(s) && Enabled(s, Finish(a, outcome, uncaught)) && !Safe(s, Finish(a, outcome, uncaught))
    ensures var s' := Next(s, Finish(a, outcome, uncaught));
      s'.IsClosing(b) && b in s'.signalled && s'.Below(x, b) && s.Below(x, b)
  {
    FinishShape(s, a, outcome, uncaught);
    if a in s.signalled && !s.NoneBelow(a) {
      b := a;
    } else {
      b :| s.Below(b, a) && (b == a || !Undisturbed(s, b));
      assert ParentOk(s, b, a);
    }
    x :| s.Below(x, b);
    var s', pending := Next(s, Finish(a, outcome, uncaught)), Pending(s, s.fs[a].children);
    assert ShutDown(s, a, pending, s', b) && ShutDown(s, a, pending, s', x);
  }

  // ---------- what the code does outside these runs ----------

  lemma RunStep(s: State, st: Step, rest: seq<Step>)
    requires Enabled(s, st) && IsRun(Next(s, st), rest)
    ensures IsRun(s, [st] + rest) && After(s, [st] + rest) == After(Next(s, st), rest)
    ensures SafeRun(s, [st] + rest) <==> Safe(s, st) && SafeRun(Next(s, st), rest)
  {
    assert ([st] + rest)[1..] == rest;
  }

  /** Fiber `p` ends while its child `c` is already waiting for its own child `g`. Ending `p`
      sends `c` a `Terminate`, which breaks off that wait: `c` informs `p` and is dead, while
      `g` lives on. Nobody attached or interrupted anything; the shutdown did it to itself. */
  lemma ShutdownInterruptsShutdown(
    s: State, p: FiberId, c: FiberId, g: FiberId, outcome: Outcome, uncaught: bool, e: int)
    requires Inv(s) && Enabled(s, Finish(p, outcome, uncaught))
    requires s.Below(c, p) && s.IsClosing(c) && s.Below(g, c) && g != c
    ensures var s1 := Next(s, Finish(p, outcome, uncaught));
      Enabled(s1, Abort(c, e)) &&
      var s2 := Next(s1, Abort(c, e));
      s2.IsDone(c) && s2.Below(g, c) && s2.Has(p) && Message(c, Exception(e)) in s2.fs[p].mailbox
  {
    FinishShape(s, p, outcome, uncaught);
    var s1, pending := Next(s, Finish(p, outcome, uncaught)), Pending(s, s.fs[p].children);
    assert ParentOk(s, c, p);
    assert c in s.fs[p].children && c in pending;
    assert ShutDown(s, p, pending, s1, c) && ShutDown(s, p, pending, s1, g);
    BrokenOff(s1, c, g, p, e);
  }

  lemma BrokenOff(s: State, c: FiberId, g: FiberId, p: FiberId, e: int)
    requires s.IsClosing(c) && c in s.signalled && s.Below(g, c) && g != c && s.Has(p) && p in s.fs[c].monitors
    ensures var s2 := Next(s, Abort(c, e));
      s2.IsDone(c) && s2.Below(g, c) && s2.Has(p) && Message(c, Exception(e)) in s2.fs[p].mailbox
  {
    var s2 := Next(s, Abort(c, e));
    assert s2.fs[p] == Finalised(s, c, Exception(e), p);
  }

  /** Such a state is reached by spinning three fibers and letting the middle one end. */
  lemma ShutdownUnderWay()
    ensures var steps := [Spin(0, 1), Spin(1, 2), Spin(2, 3), Finish(2, Value(0), false)];
      && IsRun(Initial(0), steps) && SafeRun(Initial(0), steps)
      && var s := After(Initial(0), steps);
      && s.IsRunning(1) && s.fs[1].frame.None? && s.Below(2, 1) && s.IsClosing(2) && s.Below(3, 2)
  {
    var st1, st2, st3, st4 := Spin(0, 1), Spin(1, 2), Spin(2, 3), Finish(2, Value(0), false);
    var s1 := Next(Initial(0), st1);
    var s2 := Next(s1, st2);
    var s3 := Next(s2, st3);
    MiddleEnds(s3);
    RunStep(s2, st3, [st4]);
    RunStep(s1, st2, [st3, st4]);
    RunStep(Initial(0), st1, [st2, st3, st4]);
    assert [st3] + [st4] == [st3, st4] && [st2] + [st3, st4] == [st2, st3, st4];
    assert [st1] + [st2, st3, st4] == [st1, st2, st3, st4];
  }

  lemma MiddleEnds(s: State)
    requires s.IsRunning(1) && s.fs[1].frame.None? && s.IsRunning(2) && s.fs[2].frame.None? && s.IsRunning(3)
    requires s.fs[2].parent == Some(1) && s.fs[3].parent == Some(2) && s.signalled == {}
    requires forall x :: s.Below(x, 2) ==> x == 3
    ensures var steps := [Finish(2, Value(0), false)];
      && IsRun(s, steps) && SafeRun(s, steps)
      && var s' := After(s, steps);
      && s'.IsRunning(1) && s'.fs[1].frame.None? && s'.Below(2, 1) && s'.IsClosing(2) && s'.Below(3, 2)
  {
    var st := Finish(2, Value(0), false);
    FinishShape(s, 2, Value(0), false);
    var s', pending := Next(s, st), Pending(s, s.fs[2].children);
    assert ShutDown(s, 2, pending, s', 1) && ShutDown(s, 2, pending, s', 2) && ShutDown(s, 2, pending, s', 3);
    RunStep(s, st, []);
    assert [st] + [] == [st];
  }

  /** A child attached to a fiber that is shutting down is not waited for. Fiber `a` waits for `x`
      only, whose message has arrived, when `c` is attached: as `a` goes on, it leaves `c` behind
      exactly when `c` is alive. */
  lemma LateChildOutlivesItsParentIff(s: State, a: FiberId, x: FiberId, c: FiberId)
    requires Inv(s) && Enabled(s, Receive(a)) && s.IsClosing(a) && s.fs[a].mailbox[0].from == x
    requires forall f :: f in s.fs[a].frame.value.fibers ==> f == x
    requires s.Has(c) && s.fs[c].parent.Some? && c != a
    ensures Enabled(s, Attach(c, a)) && Enabled(Next(s, Attach(c, a)), Receive(a))
    ensures Enabled(Next(Next(s, Attach(c, a)), Receive(a)), Return(a))
    ensures Orderly(Next(Next(Next(s, Attach(c, a)), Receive(a)), Return(a))) <==> s.IsDone(c)
  {
    AttachShape(s, c, a);
    var s1 := Next(s, Attach(c, a));
    assert Reattached(s, c, a, s1, a) && Reattached(s, c, a, s1, c);
    LastMessage(s1, a, x);
    var s2 := Next(s1, Receive(a));
    if s.IsDone(c) {
      StepKeepsInv(s, Attach(c, a));
      assert FiberOk(s1, a) && s1.fs[a].mailbox[0] in s1.fs[a].mailbox;
      StepKeepsInv(s1, Receive(a));
      StepKeepsInv(s2, Return(a));
      InvIsOrderly(Next(s2, Return(a)));
    } else {
      assert s1.Below(c, a) && s2.Below(c, a);
      var s3 := Next(s2, Return(a));
      assert s3.Below(c, a) && s3.IsDone(a);
    }
  }

  /** The message of the only fiber still awaited ends the wait. */
  lemma LastMessage(s: State, a: FiberId, x: FiberId)
    requires Enabled(s, Receive(a)) && s.fs[a].mailbox[0].from == x && s.IsClosing(a)
    requires forall f :: f in s.fs[a].frame.value.fibers ==> f == x
    ensures Enabled(Next(s, Receive(a)), Return(a)) && Next(s, Receive(a)).IsClosing(a)
    ensures forall c, p :: Next(s, Receive(a)).Below(c, p) <==> s.Below(c, p)
  {
    ReceiveIsTaken(s, a);
    var fr := s.fs[a].frame.value;
    assert fr.fibers[0] in fr.fibers;
    DropOnly(fr.fibers, x);
  }
}
