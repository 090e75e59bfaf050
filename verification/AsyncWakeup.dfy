/** The cross-thread wake-up handshake of the event loop.

    Any number of threads run `ev_async_send` or `ev_feed_signal` while the loop
    thread runs `ev_run` and `pipecb`. Every load and store of a shared location is
    one step, and steps of all threads interleave arbitrarily (sequential
    consistency at the fences the source marks). The eventfd is a counter.
 */
module AsyncWakeup {

  /** `sig_pending` and `async_pending`: the two flags `evpipe_write` is given. */
  datatype Channel = Signal | Async

  /** A signal number or an async watcher; its own mark is `pending` or `sent`. */
  datatype Source = Source(channel: Channel, id: nat)

  /** Where a thread stands inside a send. A thread with no entry has returned. */
  datatype Sender =
    | Entered(src: Source)        // next: set the source's own mark
    | Marked(channel: Channel)    // next: test *flag
    | SawClear(channel: Channel)  // next: *flag = 1
    | FlagSet                     // next: pipe_write_skipped = 1
    | SkipSet                     // next: test pipe_write_wanted
    | SawWanted                   // next: pipe_write_skipped = 0
    | Writing                     // next: write the eventfd

  /** Where the loop thread stands. `readable`/`custom` record EV_READ and EV_CUSTOM
      pending on `pipe_w`; `todo` are the sources `pipecb` has yet to look at. */
  datatype Loop =
    | Outside
    | WantSet                                                // next: test pipe_write_skipped
    | Polling(blocking: bool)
    | Returned(readable: bool)                               // next: pipe_write_wanted = 0
    | WantReset(readable: bool)                              // next: test pipe_write_skipped
    | Dispatch(readable: bool, custom: bool)                 // next: invoke pending watchers
    | Drain(readable: bool)                                  // next: read the eventfd
    | Drained                                                // next: pipe_write_skipped = 0
    | Test(channel: Channel)                                 // next: test the channel's flag
    | Clear(channel: Channel)                                // next: clear the channel's flag
    | Scan(channel: Channel, todo: set<Source>)              // next: test one source's mark
    | Feed(channel: Channel, todo: set<Source>, src: Source) // next: clear the mark and feed

  datatype State = State(
    raised: set<Source>,        // sources whose own mark is set
    active: set<Source>,        // sources pipecb scans
    flags: set<Channel>,
    skipped: bool,
    wanted: bool,
    counter: nat,
    senders: map<nat, Sender>,
    loop: Loop)

  datatype Action =
    | Send(thread: nat, source: Source)
    | SenderStep(thread: nat)
    | LoopStep
    | PollTest(nowait: bool)
    | PollReturn(sawReadable: bool)
    | ScanOne(pick: Source)
    | Start(watcher: Source)
    | Stop(watcher: Source)

  const EVENTFD_MAX: nat := 0xffff_ffff_ffff_fffe

  ghost predicate Init(s: State) {
    && s.raised == {} && s.flags == {} && !s.skipped && !s.wanted && s.counter == 0
    && s.senders == map[] && s.loop == Outside
  }

  predicate Enabled(s: State, a: Action) {
    match a
    case Send(t, _) => t !in s.senders
    case SenderStep(t) => t in s.senders
    case LoopStep => !s.loop.WantSet? && !s.loop.Polling? && (s.loop.Scan? ==> s.loop.todo == {})
    case PollTest(_) => s.loop.WantSet?
    // EINTR and other descriptors let a poll return without reporting the eventfd.
    case PollReturn(r) => s.loop.Polling? && (r ==> s.counter > 0)
    case ScanOne(src) => s.loop.Scan? && src in s.loop.todo
    case Start(w) => (s.loop.Outside? || s.loop.Dispatch?) && w.channel.Async? && w !in s.active
    case Stop(w) => (s.loop.Outside? || s.loop.Dispatch?) && w.channel.Async? && w in s.active
  }

  /** One load or store of `ev_async_send`/`ev_feed_signal` and `evpipe_write`. */
  function StepSender(s: State, t: nat): State
    requires t in s.senders
  {
    match s.senders[t]
    case Entered(src) => s.(raised := s.raised + {src}, senders := s.senders[t := Marked(src.channel)])
    case Marked(c) => s.(senders := if c in s.flags then s.senders - {t} else s.senders[t := SawClear(c)])
    case SawClear(c) => s.(flags := s.flags + {c}, senders := s.senders[t := FlagSet])
    case FlagSet => s.(skipped := true, senders := s.senders[t := SkipSet])
    case SkipSet => s.(senders := if s.wanted then s.senders[t := SawWanted] else s.senders - {t})
    case SawWanted => s.(skipped := false, senders := s.senders[t := Writing])
    case Writing => s.(counter := if s.counter < EVENTFD_MAX then s.counter + 1 else s.counter,
                       senders := s.senders - {t})
  }

  function AfterChannel(c: Channel): Loop {
    if c.Signal? then Test(Async) else Outside
  }

  /** One deterministic step of `ev_run` and `pipecb`. */
  function StepLoop(s: State): State
    requires Enabled(s, LoopStep)
  {
    match s.loop
    case Outside => s.(wanted := true, loop := WantSet)
    case Returned(r) => s.(wanted := false, loop := WantReset(r))
    case WantReset(r) => s.(loop := Dispatch(r, s.skipped))
    case Dispatch(r, c) => s.(loop := if r || c then Drain(r) else Outside)
    case Drain(r) => s.(counter := if r then 0 else s.counter, loop := Drained)
    case Drained => s.(skipped := false, loop := Test(Signal))
    case Test(c) => s.(loop := if c in s.flags then Clear(c) else AfterChannel(c))
    case Clear(c) => s.(flags := s.flags - {c}, loop := Scan(c, set x | x in s.active && x.channel == c))
    case Scan(c, _) => s.(loop := AfterChannel(c))
    case Feed(c, todo, src) => s.(raised := s.raised - {src}, loop := Scan(c, todo))
  }

  function Step(s: State, a: Action): State
    requires Enabled(s, a)
  {
    match a
    case Send(t, src) => s.(senders := s.senders[t := Entered(src)])
    case SenderStep(t) => StepSender(s, t)
    case LoopStep => StepLoop(s)
    case PollTest(nowait) => s.(loop := Polling(!(nowait || s.skipped)))
    case PollReturn(r) => s.(loop := Returned(r))
    case ScanOne(src) =>
      var todo := s.loop.todo - {src};
      s.(loop := if src in s.raised then Feed(s.loop.channel, todo, src) else Scan(s.loop.channel, todo))
    case Start(w) => s.(active := s.active + {w}, raised := s.raised - {w})
    case Stop(w) => s.(active := s.active - {w})
  }

  ghost predicate IsRun(run: seq<State>, acts: seq<Action>) {
    && |run| == |acts| + 1
    && forall i :: 0 <= i < |acts| ==> Enabled(run[i], acts[i]) && run[i + 1] == Step(run[i], acts[i])
  }

  // ---------- the inductive invariant ----------

  /** Some thread has marked a source of the channel and will make sure the flag is set. */
  ghost predicate MarkInFlight(s: State, c: Channel) {
    exists t :: t in s.senders && (s.senders[t] == Marked(c) || s.senders[t] == SawClear(c))
  }

  /** `pipecb` has cleared the flag but not yet looked at the source. */
  predicate ScanWillSee(l: Loop, src: Source) {
    match l
    case Scan(c, todo) => src in todo
    case Feed(c, todo, x) => src in todo || src == x
    case _ => false
  }

  /** The loop is bound to test the channel's flag before it polls again. */
  predicate WillTest(l: Loop, c: Channel) {
    match l
    case Returned(r) => r
    case WantReset(r) => r
    case Dispatch(r, custom) => r || custom
    case Drain(_) => true
    case Drained => true
    case Test(x) => x.Signal? || c.Async?
    case Clear(x) => x.Signal? || c.Async?
    case Scan(x, _) => x.Signal? && c.Async?
    case Feed(x, _, _) => x.Signal? && c.Async?
    case _ => false
  }

  ghost predicate WakeInFlight(s: State) {
    exists t :: t in s.senders && (s.senders[t].FlagSet? || s.senders[t].Writing?)
  }

  ghost predicate SkipInFlight(s: State) {
    exists t :: t in s.senders && (s.senders[t].SkipSet? || s.senders[t].SawWanted?)
  }

  ghost predicate MarksAnnounced(s: State) {
    forall src :: src in s.raised && src in s.active ==>
      src.channel in s.flags || MarkInFlight(s, src.channel) || ScanWillSee(s.loop, src)
  }

  ghost predicate FlagsCovered(s: State) {
    forall c :: c in s.flags ==> s.skipped || s.counter > 0 || WakeInFlight(s) || WillTest(s.loop, c)
  }

  ghost predicate Inv(s: State) {
    && MarksAnnounced(s)
    && FlagsCovered(s)
    && (s.loop == Polling(true) && s.skipped ==> SkipInFlight(s))
    && (s.wanted <==> s.loop.WantSet? || s.loop.Polling? || s.loop.Returned?)
    && (s.loop.Scan? || s.loop.Feed? ==> forall x :: x in s.loop.todo ==> x.channel == s.loop.channel)
    && (s.loop.Feed? ==> s.loop.src.channel == s.loop.channel)
  }

  lemma SenderKeepsInv(s: State, t: nat)
    requires Inv(s) && t in s.senders
    ensures Inv(StepSender(s, t))
  {
    var s' := StepSender(s, t);
    forall u | u in s.senders && u != t ensures u in s'.senders && s'.senders[u] == s.senders[u] {}
    forall src | src in s'.raised && src in s'.active
      ensures src.channel in s'.flags || MarkInFlight(s', src.channel) || ScanWillSee(s'.loop, src)
    {
      if s.senders[t] == Entered(src) {
        assert s'.senders[t] == Marked(src.channel);
      } else if s.senders[t] == Marked(src.channel) && src.channel !in s.flags {
        assert s'.senders[t] == SawClear(src.channel);
      }
    }
    assert s.senders[t].SawClear? ==> t in s'.senders && s'.senders[t].FlagSet?;
    assert s.senders[t].SawWanted? ==> t in s'.senders && s'.senders[t].Writing?;
    assert s.senders[t].FlagSet? ==> t in s'.senders && s'.senders[t].SkipSet?;
    assert s.senders[t].SkipSet? && s.wanted ==> t in s'.senders && s'.senders[t].SawWanted?;
  }

  lemma LoopKeepsInv(s: State)
    requires Inv(s) && Enabled(s, LoopStep)
    ensures Inv(StepLoop(s))
  {
    var s' := StepLoop(s);
    assert s'.senders == s.senders;
    forall src | src in s'.raised && src in s'.active
      ensures src.channel in s'.flags || MarkInFlight(s', src.channel) || ScanWillSee(s'.loop, src)
    {
      assert MarkInFlight(s, src.channel) ==> MarkInFlight(s', src.channel);
    }
    assert WakeInFlight(s) ==> WakeInFlight(s');
  }

  lemma StepKeepsInv(s: State, a: Action)
    requires Inv(s) && Enabled(s, a)
    ensures Inv(Step(s, a))
  {
    var s' := Step(s, a);
    match a {
      case SenderStep(t) => SenderKeepsInv(s, t);
      case LoopStep => LoopKeepsInv(s);
      case _ =>
        forall u | u in s.senders ensures u in s'.senders && s'.senders[u] == s.senders[u] {}
        assert forall c :: MarkInFlight(s, c) ==> MarkInFlight(s', c);
        assert WakeInFlight(s) ==> WakeInFlight(s');
        assert SkipInFlight(s) ==> SkipInFlight(s');
    }
  }

  lemma {:induction false} RunKeepsInv(run: seq<State>, acts: seq<Action>, i: nat)
    requires IsRun(run, acts) && Init(run[0]) && i < |run|
    ensures Inv(run[i])
  {
    if i > 0 {
      RunKeepsInv(run, acts, i - 1);
      StepKeepsInv(run[i - 1], acts[i - 1]);
    }
  }

  // ---------- the theorems ----------

  /** No lost wake-up: whenever the loop sits in a blocking poll while a started source
      is marked, the eventfd is readable or some sender has not returned yet. */
  lemma NoLostWakeup(run: seq<State>, acts: seq<Action>, i: nat, src: Source)
    requires IsRun(run, acts) && Init(run[0]) && i < |run|
    requires run[i].loop == Polling(true)
    requires src in run[i].raised && src in run[i].active
    ensures run[i].senders == map[] ==> run[i].counter > 0
  {
    RunKeepsInv(run, acts, i);
  }

  /** With no thread inside a send, the loop's own progress accounts for every mark. */
  ghost predicate Quiet(s: State) {
    && s.senders == map[]
    && (forall src :: src in s.raised && src in s.active ==>
          src.channel in s.flags || ScanWillSee(s.loop, src))
    && (forall c :: c in s.flags ==>
          match s.loop
          case Outside => false
          case WantSet => s.skipped || s.counter > 0
          case Polling(_) => s.skipped || s.counter > 0
          case Returned(r) => r || s.skipped
          case WantReset(r) => r || s.skipped
          case _ => WillTest(s.loop, c))
  }

  /** The poll reports the eventfd whenever it is readable, and nobody starts a send. */
  predicate Honest(s: State, a: Action) {
    match a
    case Send(_, _) => false
    case PollReturn(r) => r == (s.counter > 0)
    case _ => true
  }

  lemma {:induction false} QuietRun(run: seq<State>, acts: seq<Action>, i: nat, j: nat)
    requires IsRun(run, acts) && i <= j < |run|
    requires forall k :: i <= k < j ==> Honest(run[k], acts[k])
    requires Inv(run[i]) && Quiet(run[i])
    ensures Inv(run[j]) && Quiet(run[j])
  {
    if i < j {
      QuietRun(run, acts, i, j - 1);
      StepKeepsInv(run[j - 1], acts[j - 1]);
    }
  }

  /** Delivery: once every sender has returned, one pass of the loop that starts by
      asking for wake-ups, with polls that report the eventfd when it is readable,
      leaves no started source marked when it gets back to running callbacks. */
  lemma DeliveredWithinOneIteration(run: seq<State>, acts: seq<Action>, i: nat, j: nat)
    requires IsRun(run, acts) && Init(run[0]) && i <= j < |run|
    requires run[i].loop.WantSet? && run[i].senders == map[]
    requires forall k :: i <= k < j ==> Honest(run[k], acts[k])
    requires run[j].loop.Outside?
    ensures run[j].raised * run[j].active == {}
  {
    RunKeepsInv(run, acts, i);
    QuietRun(run, acts, i, j);
  }

  // ---------- sends and deliveries ----------

  /** `pipecb` is about to clear the mark of `src` and feed it. */
  predicate Feeds(s: State, src: Source) { s.loop.Feed? && s.loop.src == src }

  /** A sender that has entered marks its source before it returns. */
  lemma {:induction false} SenderMarks(run: seq<State>, acts: seq<Action>, i: nat, q: nat, t: nat, src: Source)
    returns (k: nat)
    requires IsRun(run, acts) && i <= q < |run|
    requires t in run[i].senders && run[i].senders[t] == Entered(src) && t !in run[q].senders
    ensures i < k <= q && src in run[k].raised
    decreases q - i
  {
    var n := i + 1;
    assert run[n] == Step(run[i], acts[i]);
    if t in run[n].senders && run[n].senders[t] == Entered(src) {
      k := SenderMarks(run, acts, n, q, t, src);
    } else {
      k := n;
    }
  }

  /** Only a feed takes the mark off a source that stays active. */
  lemma {:induction false} OnlyFeedClears(run: seq<State>, acts: seq<Action>, k: nat, j: nat, src: Source)
    returns (m: nat)
    requires IsRun(run, acts) && k <= j < |run| && src in run[k].raised && src !in run[j].raised
    requires forall n :: k <= n <= j ==> src in run[n].active
    ensures k <= m < j && Feeds(run[m], src) && acts[m] == LoopStep
    decreases j - k
  {
    var n := k + 1;
    assert run[n] == Step(run[k], acts[k]);
    if src in run[n].raised {
      m := OnlyFeedClears(run, acts, n, j, src);
    } else {
      assert src in run[k].active;
      m := k;
    }
  }

  /** Every send is delivered: if the source stays active and the send has returned before a pass
      of the loop begins, the source is fed by the end of that pass. */
  lemma SendIsDelivered(run: seq<State>, acts: seq<Action>, i: nat, q: nat, j: nat, t: nat, src: Source)
    returns (m: nat)
    requires IsRun(run, acts) && Init(run[0]) && i < q <= j < |run| && acts[i] == Send(t, src)
    requires forall n :: i <= n <= j ==> src in run[n].active
    requires run[q].loop.WantSet? && run[q].senders == map[] && run[j].loop.Outside?
    requires forall k :: q <= k < j ==> Honest(run[k], acts[k])
    ensures i < m < j && Feeds(run[m], src) && acts[m] == LoopStep
  {
    var n := i + 1;
    assert run[n] == Step(run[i], acts[i]);
    var k := SenderMarks(run, acts, n, q, t, src);
    DeliveredWithinOneIteration(run, acts, q, j);
    assert src in run[j].active && src !in run[j].raised * run[j].active;
    m := OnlyFeedClears(run, acts, k, j, src);
  }

  /** No send is lost: while the loop sits in a blocking poll, all senders have returned and the
      source, still active, has not been fed since the send, the eventfd is readable. */
  lemma NoLostSend(run: seq<State>, acts: seq<Action>, i: nat, n: nat, t: nat, src: Source)
    requires IsRun(run, acts) && Init(run[0]) && i < n < |run| && acts[i] == Send(t, src)
    requires forall k :: i <= k <= n ==> src in run[k].active
    requires forall k :: i < k < n ==> !(Feeds(run[k], src) && acts[k] == LoopStep)
    requires run[n].loop == Polling(true) && run[n].senders == map[]
    ensures run[n].counter > 0
  {
    var p := i + 1;
    assert run[p] == Step(run[i], acts[i]);
    var k := SenderMarks(run, acts, p, n, t, src);
    if src in run[n].raised {
      assert src in run[n].active;
      NoLostWakeup(run, acts, n, src);
    } else {
      var _ := OnlyFeedClears(run, acts, k, n, src);
      assert false;
    }
  }

  function Sends(acts: seq<Action>, src: Source): nat {
    if acts == [] then 0
    else Sends(acts[..|acts| - 1], src) + if acts[|acts| - 1].Send? && acts[|acts| - 1].source == src then 1 else 0
  }

  /** How often `src` was fed in the first `n` steps. */
  ghost function FeedCount(run: seq<State>, acts: seq<Action>, src: Source, n: nat): nat
    requires n <= |acts| < |run|
  {
    if n == 0 then 0
    else FeedCount(run, acts, src, n - 1) + if Feeds(run[n - 1], src) && acts[n - 1] == LoopStep then 1 else 0
  }

  ghost function Entering(s: State, src: Source): set<nat> {
    set t | t in s.senders && s.senders[t] == Entered(src)
  }

  ghost function Owed(s: State, src: Source): nat {
    |Entering(s, src)| + if src in s.raised then 1 else 0
  }

  ghost predicate OwedOk(s: State, a: Action, s': State, src: Source) {
    && (Feeds(s', src) ==> src in s'.raised)
    && Owed(s', src) + (if Feeds(s, src) && a == LoopStep then 1 else 0)
      <= Owed(s, src) + (if a.Send? && a.source == src then 1 else 0)
  }

  lemma OwedSender(s: State, t: nat, src: Source)
    requires t in s.senders && (Feeds(s, src) ==> src in s.raised)
    ensures OwedOk(s, SenderStep(t), StepSender(s, t), src)
  {
    var s' := StepSender(s, t);
    assert Entering(s', src) == Entering(s, src) - {t};
    assert s.senders[t] == Entered(src) <==> t in Entering(s, src);
    assert s'.raised == if s.senders[t].Entered? then s.raised + {s.senders[t].src} else s.raised;
  }

  lemma OwedLoop(s: State, src: Source)
    requires Enabled(s, LoopStep) && (Feeds(s, src) ==> src in s.raised)
    ensures OwedOk(s, LoopStep, StepLoop(s), src)
  {
    var s' := StepLoop(s);
    assert s'.senders == s.senders && Entering(s', src) == Entering(s, src);
    assert s'.raised == if s.loop.Feed? then s.raised - {s.loop.src} else s.raised;
  }

  lemma OwedSend(s: State, t: nat, x: Source, src: Source)
    requires Enabled(s, Send(t, x)) && (Feeds(s, src) ==> src in s.raised)
    ensures OwedOk(s, Send(t, x), Step(s, Send(t, x)), src)
  {
    var s' := Step(s, Send(t, x));
    EnteringMore(s, s', t, x, src);
    assert s'.raised == s.raised && s'.loop == s.loop && t !in Entering(s, src);
  }

  lemma EnteringMore(s: State, s': State, t: nat, x: Source, src: Source)
    requires t !in s.senders && s'.senders == s.senders[t := Entered(x)]
    ensures Entering(s', src) == Entering(s, src) + (if x == src then {t} else {})
  {
    forall u ensures u in Entering(s', src) <==> u in Entering(s, src) || (x == src && u == t) {}
  }

  lemma OwedRest(s: State, a: Action, src: Source)
    requires Enabled(s, a) && (Feeds(s, src) ==> src in s.raised) && !a.Send? && !a.SenderStep? && a != LoopStep
    ensures OwedOk(s, a, Step(s, a), src)
  {
    var s' := Step(s, a);
    assert s'.senders == s.senders && s'.raised <= s.raised;
    assert Entering(s', src) == Entering(s, src);
  }

  /** What a step does to the sends that are still owed a feed. */
  lemma OwedStep(s: State, a: Action, src: Source)
    requires Enabled(s, a) && (Feeds(s, src) ==> src in s.raised)
    ensures OwedOk(s, a, Step(s, a), src)
  {
    match a
    case Send(t, x) => OwedSend(s, t, x, src);
    case SenderStep(t) => OwedSender(s, t, src);
    case LoopStep => OwedLoop(s, src);
    case _ => OwedRest(s, a, src);
  }

  /** No source is fed more often than it was sent: every feed answers a send of its own. (Two
      sends that overlap may both be entered before the first feed, so the second feed need not
      come after a second send.) */
  lemma {:induction false} FeedsAnswerSends(run: seq<State>, acts: seq<Action>, src: Source, n: nat)
    requires IsRun(run, acts) && Init(run[0]) && n <= |acts|
    ensures FeedCount(run, acts, src, n) + Owed(run[n], src) <= Sends(acts[..n], src)
    ensures Feeds(run[n], src) ==> src in run[n].raised
  {
    if n > 0 {
      FeedsAnswerSends(run, acts, src, n - 1);
      assert run[n] == Step(run[n - 1], acts[n - 1]);
      OwedStep(run[n - 1], acts[n - 1], src);
      assert acts[..n][..n - 1] == acts[..n - 1];
    } else {
      assert Entering(run[0], src) == {};
    }
  }

  /** It is then marked again after the feed although no send began in between. */
  lemma OverlappingSendMarksAgain(s: State, t: nat, src: Source)
    requires Feeds(s, src) && t in s.senders && s.senders[t] == Entered(src)
    ensures Enabled(s, LoopStep) && Enabled(Step(s, LoopStep), SenderStep(t))
    ensures src !in Step(s, LoopStep).raised && src in Step(Step(s, LoopStep), SenderStep(t)).raised
  {
  }

  /** But since the last feed of a marked source some sender has set its mark. */
  lemma {:induction false} FeedFollowsMark(run: seq<State>, acts: seq<Action>, m: nat, src: Source)
    returns (k: nat, t: nat)
    requires IsRun(run, acts) && Init(run[0]) && m < |run| && src in run[m].raised
    ensures k < m && acts[k] == SenderStep(t) && t in run[k].senders && run[k].senders[t] == Entered(src)
    ensures forall n :: k < n < m ==> !(Feeds(run[n], src) && acts[n] == LoopStep)
    decreases m
  {
    assert m > 0;
    var p := m - 1;
    assert run[p + 1] == Step(run[p], acts[p]);
    if acts[p].SenderStep? && run[p].senders[acts[p].thread] == Entered(src) {
      k, t := p, acts[p].thread;
    } else {
      k, t := FeedFollowsMark(run, acts, p, src);
    }
  }

  // ---------- the eventfd and the watchers ----------

  /** How often the eventfd was written since the loop last read it. */
  ghost function WritesSince(run: seq<State>, acts: seq<Action>, n: nat): nat
    requires n <= |acts| < |run|
  {
    if n == 0 then 0
    else if acts[n - 1] == LoopStep && run[n - 1].loop == Drain(true) then 0
    else WritesSince(run, acts, n - 1) + if IsWrite(run[n - 1], acts[n - 1]) then 1 else 0
  }

  predicate IsWrite(s: State, a: Action) { a.SenderStep? && a.thread in s.senders && s.senders[a.thread].Writing? }

  /** The counter is `w`, up to its maximum, and is not zero while a report of it is being handled. */
  ghost predicate CounterOk(s: State, w: nat) {
    && s.counter == (if w < EVENTFD_MAX then w else EVENTFD_MAX)
    && (Reported(s.loop) ==> s.counter > 0)
  }

  predicate Reported(l: Loop) {
    match l
    case Returned(r) => r
    case WantReset(r) => r
    case Dispatch(r, _) => r
    case Drain(r) => r
    case _ => false
  }

  lemma CounterStep(s: State, a: Action, w: nat)
    requires Enabled(s, a) && CounterOk(s, w)
    ensures CounterOk(Step(s, a),
      if a == LoopStep && s.loop == Drain(true) then 0 else w + if IsWrite(s, a) then 1 else 0)
  {
  }

  /** The counter of the eventfd counts the writes since it was read. The loop reads it only when
      the poll has reported it, and then it is not empty, so that the read does not block. */
  lemma {:induction false} CounterCountsWrites(run: seq<State>, acts: seq<Action>, n: nat)
    requires IsRun(run, acts) && Init(run[0]) && n <= |acts|
    ensures CounterOk(run[n], WritesSince(run, acts, n))
  {
    if n > 0 {
      CounterCountsWrites(run, acts, n - 1);
      assert run[n] == Step(run[n - 1], acts[n - 1]);
      CounterStep(run[n - 1], acts[n - 1], WritesSince(run, acts, n - 1));
    }
  }

  /** A started source is active, with no mark from before, until it is stopped. */
  lemma StartThenStop(s: State, w: Source)
    requires Enabled(s, Start(w))
    ensures var s1 := Step(s, Start(w));
      w in s1.active && w !in s1.raised && Enabled(s1, Stop(w)) && Step(s1, Stop(w)).active == s.active
  {
    assert s.active + {w} - {w} == s.active;
  }
}
