/** Pending events and their dispatch: one queue per priority, filled by `ev_feed_event` and
    drained by `ev_invoke_pending` while callbacks may feed or clear events. */
module Dispatch {
  import opened Options

  type Watcher = nat
  type Events = set<nat>

  /** A cleared entry keeps its slot but points at the dummy watcher, here `None`. */
  datatype Anpending = Anpending(w: Option<Watcher>, events: Events)

  /** `queues[p]` is `pendings[p]`, `index[w]` is `w->pending` (0 when not pending),
      `priority[w]` the absolute priority. The loop's `pendingpri` is kept apart. */
  datatype Pending = Pending(
    queues: seq<seq<Anpending>>,
    index: map<Watcher, nat>,
    priority: map<Watcher, nat>)
  {
    function Index(w: Watcher): nat { if w in index then index[w] else 0 }

    function Pri(w: Watcher): nat { if w in priority then priority[w] else 0 }

    predicate Knows(w: Watcher) { Pri(w) < |queues| }

    /** A pending watcher's index leads to its entry ... */
    ghost predicate WatcherOk(w: Watcher) {
      Index(w) > 0 ==>
        Knows(w) && Index(w) <= |queues[Pri(w)]| && queues[Pri(w)][Index(w) - 1].w == Some(w)
    }

    /** ... and every entry that was not cleared belongs to a watcher with that index. */
    ghost predicate SlotOk(l: nat, i: nat) {
      l < |queues| && i < |queues[l]| && queues[l][i].w.Some? ==>
        Pri(queues[l][i].w.value) == l && Index(queues[l][i].w.value) == i + 1
    }

    ghost predicate Consistent() {
      (forall w :: WatcherOk(w)) && (forall l: nat, i: nat :: SlotOk(l, i))
    }

    predicate AboveEmpty(p: int) { forall l :: 0 <= l < |queues| && p < l ==> queues[l] == [] }
  }

  function Feed(p: Pending, w: Watcher, revents: Events): Pending
    requires p.Knows(w) && p.Index(w) <= |p.queues[p.Pri(w)]|
  {
    var l := p.Pri(w);
    var q, k := p.queues[l], p.Index(w);
    if k > 0 then
      p.(queues := p.queues[l := q[k - 1 := q[k - 1].(events := q[k - 1].events + revents)]])
    else
      p.(queues := p.queues[l := q + [Anpending(Some(w), revents)]],
         index := p.index[w := |q| + 1])
  }

  /** In a consistent state only the first test can succeed. */
  function ClearPending(p: Pending, w: Watcher): Pending {
    if p.Index(w) == 0 || !p.Knows(w) || p.Index(w) > |p.queues[p.Pri(w)]| then p
    else
      var l, k := p.Pri(w), p.Index(w);
      p.(queues := p.queues[l := p.queues[l][k - 1 := p.queues[l][k - 1].(w := None)]], index := p.index[w := 0])
  }

  lemma FeedKeeps(p: Pending, w: Watcher, revents: Events)
    requires p.Consistent() && p.Knows(w)
    ensures p.WatcherOk(w) && p.Index(w) <= |p.queues[p.Pri(w)]|
    ensures var p' := Feed(p, w, revents);
      && p'.Consistent() && |p'.queues| == |p.queues| && p'.priority == p.priority
      && (forall l :: 0 <= l < |p.queues| ==> |p'.queues[l]| >= |p.queues[l]|)
      && (forall v :: v != w ==> p'.Index(v) == p.Index(v))
      && p'.Index(w) == if p.Index(w) > 0 then p.Index(w) else |p.queues[p.Pri(w)]| + 1
  {
    assert p.WatcherOk(w);
    var p' := Feed(p, w, revents);
    forall v ensures p'.WatcherOk(v) { assert p.WatcherOk(v); }
    forall l: nat, i: nat ensures p'.SlotOk(l, i) { assert p.SlotOk(l, i); }
  }

  lemma ClearKeeps(p: Pending, w: Watcher)
    requires p.Consistent()
    ensures var p' := ClearPending(p, w);
      && p'.Consistent() && |p'.queues| == |p.queues| && p'.priority == p.priority
      && (forall l :: 0 <= l < |p.queues| ==> |p'.queues[l]| == |p.queues[l]|)
      && p'.Index(w) == 0 && (forall v :: v != w ==> p'.Index(v) == p.Index(v))
  {
    assert p.WatcherOk(w);
    var p' := ClearPending(p, w);
    forall v ensures p'.WatcherOk(v) { assert p.WatcherOk(v); }
    forall l: nat, i: nat ensures p'.SlotOk(l, i) { assert p.SlotOk(l, i); }
  }

  /** Taking the last entry of a queue. */
  function Pop(p: Pending, l: nat): Pending
    requires l < |p.queues| && p.queues[l] != []
  {
    var q := p.queues[l];
    var e := q[|q| - 1];
    p.(queues := p.queues[l := q[..|q| - 1]], index := if e.w.Some? then p.index[e.w.value := 0] else p.index)
  }

  lemma PopKeeps(p: Pending, l: nat)
    requires p.Consistent() && l < |p.queues| && p.queues[l] != []
    ensures var p' := Pop(p, l); p'.Consistent() && |p'.queues| == |p.queues| && p'.priority == p.priority
  {
    var p', q := Pop(p, l), p.queues[l];
    assert p.SlotOk(l, |q| - 1);
    forall v ensures p'.WatcherOk(v) { assert p.WatcherOk(v); }
    forall m: nat, i: nat ensures p'.SlotOk(m, i) { assert p.SlotOk(m, i); }
  }

  // ---------- callbacks ----------

  /** What a callback may do to the pending queues. A nested event loop run drains them. */
  datatype Effect = FeedEvent(w: Watcher, events: Events) | ClearEvent(w: Watcher) | NestedInvoke

  function Drained(p: Pending): Pending {
    p.(queues := seq(|p.queues|, _ => []), index := map[])
  }

  lemma DrainedOk(p: Pending)
    ensures Drained(p).Consistent()
  {
    var p' := Drained(p);
    forall v ensures p'.WatcherOk(v) {}
    forall m: nat, i: nat ensures p'.SlotOk(m, i) {}
  }

  function Apply(p: Pending, e: Effect): Pending {
    match e
    case FeedEvent(w, ev) => if p.Knows(w) && p.Index(w) <= |p.queues[p.Pri(w)]| then Feed(p, w, ev) else p
    case ClearEvent(w) => ClearPending(p, w)
    case NestedInvoke => Drained(p)
  }

  function Effects(p: Pending, script: seq<Effect>): Pending {
    if script == [] then p else Apply(Effects(p, script[..|script| - 1]), script[|script| - 1])
  }

  predicate Valid(p: Pending, script: seq<Effect>) {
    forall e :: e in script && e.FeedEvent? ==> p.Knows(e.w)
  }

  /** The callback neither clears the event of `w` nor runs a nested loop. */
  predicate LeavesAlone(script: seq<Effect>, w: Watcher) {
    forall e :: e in script ==> e != ClearEvent(w) && !e.NestedInvoke?
  }

  lemma ApplyKeeps(p: Pending, e: Effect)
    requires p.Consistent() && (e.FeedEvent? ==> p.Knows(e.w))
    ensures var p' := Apply(p, e);
      && p'.Consistent() && |p'.queues| == |p.queues| && p'.priority == p.priority
      && (!e.NestedInvoke? ==> forall w :: p.Index(w) > 0 && e != ClearEvent(w) ==> p'.Index(w) == p.Index(w))
  {
    match e
    case FeedEvent(w, ev) => FeedKeeps(p, w, ev);
    case ClearEvent(w) => ClearKeeps(p, w);
    case NestedInvoke => DrainedOk(p);
  }

  /** A callback keeps the queues consistent, and what is pending in its place unless it
      clears it or runs a nested loop. */
  lemma {:induction false} EffectsKeep(p: Pending, script: seq<Effect>, w: Watcher)
    requires p.Consistent() && Valid(p, script)
    ensures var p' := Effects(p, script);
      && p'.Consistent() && |p'.queues| == |p.queues| && p'.priority == p.priority
      && (LeavesAlone(script, w) && p.Index(w) > 0 ==> p'.Index(w) == p.Index(w))
  {
    if script != [] {
      var n := |script| - 1;
      assert script[n] in script && forall e :: e in script[..n] ==> e in script;
      EffectsKeep(p, script[..n], w);
      assert script[n].FeedEvent? ==> p.Knows(script[n].w);
      ApplyKeeps(Effects(p, script[..n]), script[n]);
    }
  }

  /** Feeding sends the loop back to the highest priority. */
  method RunCallback(p0: Pending, pri0: nat, script: seq<Effect>) returns (p: Pending, pri: nat)
    requires p0.Consistent() && Valid(p0, script) && pri0 < |p0.queues| && p0.AboveEmpty(pri0)
    ensures p == Effects(p0, script)
    ensures p.Consistent() && |p.queues| == |p0.queues| && p.priority == p0.priority
    ensures pri < |p.queues| && p.AboveEmpty(pri)
    ensures script == [] ==> p == p0 && pri == pri0
  {
    p, pri := p0, pri0;
    for i := 0 to |script|
      invariant p == Effects(p0, script[..i])
      invariant p.Consistent() && |p.queues| == |p0.queues| && p.priority == p0.priority
      invariant pri < |p.queues| && p.AboveEmpty(pri)
      invariant i == 0 ==> p == p0 && pri == pri0
    {
      assert script[i] in script && script[..i + 1][..i] == script[..i];
      match script[i] {
        case FeedEvent(w, ev) =>
          FeedKeeps(p, w, ev);
          p, pri := Feed(p, w, ev), |p.queues| - 1;
        case ClearEvent(w) =>
          ClearKeeps(p, w);
          p := ClearPending(p, w);
        case NestedInvoke =>
          DrainedOk(p);
          p, pri := Drained(p), 0;
      }
    }
    assert script[..|script|] == script;
  }

  // ---------- dispatch ----------

  /** One callback invocation: the state in which it was chosen, and its priority. */
  datatype Invocation = Invocation(before: Pending, level: nat) {
    predicate Possible() { level < |before.queues| && before.queues[level] != [] }

    function Entry(): Anpending
      requires Possible()
    {
      before.queues[level][|before.queues[level]| - 1]
    }

    predicate Invokes(w: Watcher) { Possible() && Entry().w == Some(w) }
  }

  ghost predicate FromHighest(v: Invocation) {
    v.Possible() && forall l :: v.level < l < |v.before.queues| ==> v.before.queues[l] == []
  }

  /** The state an invocation with these effects leaves. */
  ghost function After(v: Invocation, script: seq<Effect>): Pending {
    if v.Possible() then Effects(Pop(v.before, v.level), script) else v.before
  }

  /** The state after the first `k` invocations, the i-th of which had effects `scripts[i]`. */
  ghost function StateAt(p0: Pending, scripts: seq<seq<Effect>>, log: seq<Invocation>, k: nat): Pending
    requires k <= |log| <= |scripts|
  {
    if k == 0 then p0 else After(log[k - 1], scripts[k - 1])
  }

  /** `log` is what happened from `p0` on: every invocation is from the highest non-empty
      priority, in the state the one before it left. */
  ghost predicate Follows(p0: Pending, scripts: seq<seq<Effect>>, log: seq<Invocation>) {
    |log| <= |scripts| && forall k: nat :: FollowsAt(p0, scripts, log, k)
  }

  ghost predicate FollowsAt(p0: Pending, scripts: seq<seq<Effect>>, log: seq<Invocation>, k: nat)
    requires |log| <= |scripts|
  {
    k < |log| ==> FromHighest(log[k]) && log[k].before == StateAt(p0, scripts, log, k)
  }

  ghost predicate AllValid(p: Pending, scripts: seq<seq<Effect>>) {
    forall i :: 0 <= i < |scripts| ==> Valid(p, scripts[i])
  }

  function Entries(log: seq<Invocation>): seq<Anpending> {
    if log == [] then []
    else
      var v := log[|log| - 1];
      Entries(log[..|log| - 1]) + (if v.Possible() then [v.Entry()] else [])
  }

  /** A queue popped from its end until it is empty. */
  function PopAll(q: seq<Anpending>): (r: seq<Anpending>)
    ensures |r| == |q|
  {
    if q == [] then [] else [q[|q| - 1]] + PopAll(q[..|q| - 1])
  }

  /** The entries of the lowest `n` priorities in the order quiet callbacks see them. */
  function Order(queues: seq<seq<Anpending>>, n: nat): seq<Anpending>
    requires n <= |queues|
  {
    if n == 0 then [] else PopAll(queues[n - 1]) + Order(queues, n - 1)
  }

  lemma {:induction false} OrderFrame(a: seq<seq<Anpending>>, b: seq<seq<Anpending>>, n: nat)
    requires n <= |a| && n <= |b| && forall l :: 0 <= l < n ==> a[l] == b[l]
    ensures Order(a, n) == Order(b, n)
  {
    if n > 0 { OrderFrame(a, b, n - 1); }
  }

  /** The body of the inner loop: take the last entry of the current priority, call it. */
  method InvokeOne(p0: Pending, pri0: nat, script: seq<Effect>, ghost log: seq<Invocation>)
    returns (p: Pending, pri: nat, ghost v: Invocation)
    requires p0.Consistent() && pri0 < |p0.queues| && p0.queues[pri0] != [] && p0.AboveEmpty(pri0)
    requires Valid(p0, script)
    ensures p.Consistent() && |p.queues| == |p0.queues| && p.priority == p0.priority
    ensures pri < |p.queues| && p.AboveEmpty(pri)
    ensures v == Invocation(p0, pri0) && FromHighest(v) && p == After(v, script)
    ensures script == [] ==>
      pri == pri0 && Entries(log + [v]) + Order(p.queues, pri + 1) == Entries(log) + Order(p0.queues, pri + 1)
  {
    v := Invocation(p0, pri0);
    LogOne(log, v, p0, pri0);
    PopKeeps(p0, pri0);
    p := Pop(p0, pri0);
    assert Valid(p, script) by {
      forall e | e in script && e.FeedEvent? ensures p.Knows(e.w) { assert p0.Knows(e.w); }
    }
    p, pri := RunCallback(p, pri0, script);
  }

  lemma FollowsMore(p0: Pending, scripts: seq<seq<Effect>>, log: seq<Invocation>, v: Invocation)
    requires Follows(p0, scripts, log) && |log| < |scripts| && FromHighest(v)
    requires v.before == StateAt(p0, scripts, log, |log|)
    ensures Follows(p0, scripts, log + [v])
    ensures StateAt(p0, scripts, log + [v], |log| + 1) == After(v, scripts[|log|])
  {
    var log' := log + [v];
    forall k: nat ensures FollowsAt(p0, scripts, log', k) {
      assert FollowsAt(p0, scripts, log, k);
      if k < |log'| {
        assert k < |log| ==> log'[k] == log[k];
        assert 0 < k ==> log'[k - 1] == log[k - 1];
      }
    }
  }

  /** `ev_invoke_pending`. The i-th callback invoked has the effects `scripts[i]`; the loop is
      followed until it returns, or as far as the scripts go. */
  method InvokePending(p0: Pending, scripts: seq<seq<Effect>>)
    returns (p: Pending, finished: bool, ghost log: seq<Invocation>)
    requires p0.Consistent() && |p0.queues| > 0 && AllValid(p0, scripts)
    ensures p.Consistent() && |p.queues| == |p0.queues|
    ensures Follows(p0, scripts, log) && p == StateAt(p0, scripts, log, |log|)
    ensures !finished ==> |log| == |scripts|
    ensures finished ==> p.AboveEmpty(-1)
    ensures finished && (forall s :: s in scripts ==> s == []) ==>
              Entries(log) == Order(p0.queues, |p0.queues|)
  {
    p, finished, log := p0, false, [];
    ghost var quiet := forall s :: s in scripts ==> s == [];
    var i, pri: nat := 0, |p0.queues|;
    assert Entries([]) + Order(p.queues, pri) == Order(p.queues, pri);
    while pri > 0
      invariant p.Consistent() && |p.queues| == |p0.queues| && p.priority == p0.priority && i == |log| <= |scripts|
      invariant pri <= |p.queues| && p.AboveEmpty(pri - 1)
      invariant Follows(p0, scripts, log) && p == StateAt(p0, scripts, log, i)
      invariant quiet ==> Entries(log) + Order(p.queues, pri) == Order(p0.queues, |p0.queues|)
      decreases |scripts| - i, pri
    {
      ghost var i0, pri0 := i, pri;
      pri := pri - 1;
      while p.queues[pri] != []
        invariant p.Consistent() && |p.queues| == |p0.queues| && p.priority == p0.priority
        invariant i0 <= i == |log| <= |scripts|
        invariant pri < |p.queues| && p.AboveEmpty(pri) && (i == i0 ==> pri < pri0)
        invariant Follows(p0, scripts, log) && p == StateAt(p0, scripts, log, i)
        invariant quiet ==> Entries(log) + Order(p.queues, pri + 1) == Order(p0.queues, |p0.queues|)
        decreases |scripts| - i
      {
        if i == |scripts| {
          return;
        }
        StillValid(p0, p, scripts, i);
        ghost var v;
        p, pri, v := InvokeOne(p, pri, scripts[i], log);
        FollowsMore(p0, scripts, log, v);
        log := log + [v];
        i := i + 1;
      }
      assert Order(p.queues, pri + 1) == Order(p.queues, pri);
    }
    finished := true;
    assert Order(p.queues, 0) == [];
  }

  lemma StillValid(p0: Pending, p: Pending, scripts: seq<seq<Effect>>, i: nat)
    requires AllValid(p0, scripts) && i < |scripts|
    requires |p.queues| == |p0.queues| && p.priority == p0.priority
    ensures Valid(p, scripts[i]) && scripts[i] in scripts
  {
    assert Valid(p0, scripts[i]);
    forall e | e in scripts[i] && e.FeedEvent? ensures p.Knows(e.w) { assert p0.Knows(e.w); }
  }

  // ---------- the order of two watchers, whatever the callbacks do ----------

  ghost predicate Invoked(log: seq<Invocation>, i: nat, w: Watcher) {
    exists m :: 0 <= m <= i && m < |log| && log[m].Invokes(w)
  }

  /** None of the first `k` callbacks clears the event of `w` or runs a nested loop before `w`
      itself is invoked; its own callback and all later ones may. */
  ghost predicate LeftAlone(scripts: seq<seq<Effect>>, log: seq<Invocation>, w: Watcher, k: nat) {
    forall i: nat :: i < k && i < |scripts| ==> LeavesAlone(scripts[i], w) || Invoked(log, i, w)
  }

  lemma PopOther(p: Pending, v: Invocation, w: Watcher)
    requires p.Consistent() && v.before == p && v.Possible()
    ensures Pop(p, v.level).Index(w) == if v.Invokes(w) then 0 else p.Index(w)
  {
    assert p.SlotOk(v.level, |p.queues[v.level]| - 1);
  }

  lemma InvocationKeeps(v: Invocation, script: seq<Effect>, w: Watcher)
    requires v.before.Consistent() && v.Possible() && Valid(v.before, script)
    ensures var p' := After(v, script);
      && p'.Consistent() && |p'.queues| == |v.before.queues| && p'.priority == v.before.priority
      && (!v.Invokes(w) && LeavesAlone(script, w) && v.before.Index(w) > 0 ==> p'.Index(w) == v.before.Index(w))
  {
    var p := Pop(v.before, v.level);
    PopKeeps(v.before, v.level);
    PopOther(v.before, v, w);
    assert Valid(p, script) by {
      forall e | e in script && e.FeedEvent? ensures p.Knows(e.w) { assert v.before.Knows(e.w); }
    }
    EffectsKeep(p, script, w);
  }

  /** A pending watcher keeps its place until it is invoked. */
  lemma {:induction false} KeepsPlace(
    p0: Pending, scripts: seq<seq<Effect>>, log: seq<Invocation>, w: Watcher, k: nat)
    requires p0.Consistent() && AllValid(p0, scripts) && Follows(p0, scripts, log) && k <= |log|
    requires LeftAlone(scripts, log, w, k) && p0.Index(w) > 0 && forall i :: 0 <= i < k ==> !log[i].Invokes(w)
    ensures var p := StateAt(p0, scripts, log, k);
      && p.Consistent() && |p.queues| == |p0.queues| && p.priority == p0.priority
      && p.Index(w) == p0.Index(w) && p.WatcherOk(w)
  {
    assert p0.WatcherOk(w);
    if k > 0 {
      KeepsPlace(p0, scripts, log, w, k - 1);
      var i: nat, v := k - 1, log[k - 1];
      assert !Invoked(log, i, w);
      assert FollowsAt(p0, scripts, log, k - 1);
      StillValid(p0, v.before, scripts, k - 1);
      InvocationKeeps(v, scripts[k - 1], w);
      assert LeavesAlone(scripts[i], w);
      assert After(v, scripts[k - 1]).WatcherOk(w);
    }
  }

  /** The entry at the end of a queue has the highest index. */
  lemma EndIsHighest(v: Invocation, u: Watcher, w: Watcher)
    requires v.before.Consistent() && v.Invokes(w) && v.before.Index(u) > 0 && v.before.Pri(u) == v.before.Pri(w)
    ensures v.before.Index(u) <= v.before.Index(w)
  {
    assert v.before.SlotOk(v.level, |v.before.queues[v.level]| - 1) && v.before.WatcherOk(u);
  }

  /** Of two watchers pending at the same priority, the one with the higher index is invoked
      before the other: in whatever run, and whatever else the callbacks feed, clear or start.
      Only what happens before a watcher's own first invocation, and before `k`, matters. */
  lemma {:induction false} HigherIndexRunsFirst(
    p0: Pending, scripts: seq<seq<Effect>>, log: seq<Invocation>, u: Watcher, v: Watcher, k: nat)
    returns (j: nat)
    requires p0.Consistent() && AllValid(p0, scripts) && Follows(p0, scripts, log)
    requires LeftAlone(scripts, log, u, k) && LeftAlone(scripts, log, v, k)
    requires p0.Pri(u) == p0.Pri(v) && p0.Index(u) > p0.Index(v) > 0
    requires k < |log| && log[k].Invokes(v)
    ensures j < k && log[j].Invokes(u)
  {
    if i :| 0 <= i < k && log[i].Invokes(u) {
      j := i;
    } else if i :| 0 <= i < k && log[i].Invokes(v) {
      j := HigherIndexRunsFirst(p0, scripts, log, u, v, i);
    } else {
      assert FollowsAt(p0, scripts, log, k);
      KeepsPlace(p0, scripts, log, u, k);
      KeepsPlace(p0, scripts, log, v, k);
      EndIsHighest(log[k], u, v);
      assert false;
    }
  }

  /** What was pending has been invoked when nothing is pending any more. */
  lemma PendingIsInvoked(p0: Pending, scripts: seq<seq<Effect>>, log: seq<Invocation>, w: Watcher) returns (k: nat)
    requires p0.Consistent() && AllValid(p0, scripts) && Follows(p0, scripts, log)
    requires LeftAlone(scripts, log, w, |log|) && p0.Index(w) > 0 && StateAt(p0, scripts, log, |log|).AboveEmpty(-1)
    ensures k < |log| && log[k].Invokes(w)
  {
    if i :| 0 <= i < |log| && log[i].Invokes(w) {
      k := i;
    } else {
      KeepsPlace(p0, scripts, log, w, |log|);
      assert false;
    }
  }

  lemma LogOne(log: seq<Invocation>, v: Invocation, p: Pending, l: nat)
    requires l < |p.queues| && p.queues[l] != [] && v == Invocation(p, l)
    ensures Entries(log + [v]) + Order(Pop(p, l).queues, l + 1) == Entries(log) + Order(p.queues, l + 1)
  {
    var q, p' := p.queues[l], Pop(p, l);
    assert (log + [v])[..|log|] == log;
    OrderFrame(p.queues, p'.queues, l);
    assert Order(p.queues, l + 1) == PopAll(q) + Order(p.queues, l);
    assert Order(p'.queues, l + 1) == PopAll(q[..|q| - 1]) + Order(p.queues, l);
    Regroup(Entries(log), v.Entry(), PopAll(q[..|q| - 1]), Order(p.queues, l));
  }

  lemma Regroup(a: seq<Anpending>, e: Anpending, b: seq<Anpending>, c: seq<Anpending>)
    ensures a + [e] + (b + c) == a + ([e] + b + c)
  {
  }

  // ---------- the events an invocation carries ----------

  /** What is pending for `w`: nothing, or these events. */
  ghost function Carried(p: Pending, w: Watcher): Option<Events>
    requires p.WatcherOk(w)
  {
    if p.Index(w) > 0 then Some(p.queues[p.Pri(w)][p.Index(w) - 1].events) else None
  }

  /** The same, from what the callbacks fed and cleared alone. */
  function FedBy(script: seq<Effect>, o: Option<Events>, w: Watcher): Option<Events> {
    if script == [] then o
    else
      var before := FedBy(script[..|script| - 1], o, w);
      match script[|script| - 1]
      case FeedEvent(x, ev) => if x == w then Some((if before.Some? then before.value else {}) + ev) else before
      case ClearEvent(x) => if x == w then None else before
      case NestedInvoke => None
  }

  lemma CarriedFeed(p: Pending, x: Watcher, ev: Events, w: Watcher)
    requires p.Consistent() && p.Knows(x) && p.WatcherOk(w)
    ensures p.Index(x) <= |p.queues[p.Pri(x)]| && Feed(p, x, ev).WatcherOk(w)
    ensures Carried(Feed(p, x, ev), w) ==
      if x == w then Some((if Carried(p, w).Some? then Carried(p, w).value else {}) + ev) else Carried(p, w)
  {
    FeedKeeps(p, x, ev);
    OwnSlots(p, x, w);
    var p', none: Events := Feed(p, x, ev), {};
    assert p'.WatcherOk(w) && p'.Pri(w) == p.Pri(w) && none + ev == ev;
  }

  lemma CarriedClear(p: Pending, x: Watcher, w: Watcher)
    requires p.Consistent() && p.WatcherOk(w)
    ensures ClearPending(p, x).WatcherOk(w)
    ensures Carried(ClearPending(p, x), w) == if x == w then None else Carried(p, w)
  {
    ClearKeeps(p, x);
    OwnSlots(p, x, w);
    var p' := ClearPending(p, x);
    assert p'.WatcherOk(w) && p'.Pri(w) == p.Pri(w);
  }

  lemma CarriedApply(p: Pending, e: Effect, o: Option<Events>, before: seq<Effect>, w: Watcher)
    requires p.Consistent() && p.WatcherOk(w) && (e.FeedEvent? ==> p.Knows(e.w))
    requires Carried(p, w) == FedBy(before, o, w)
    ensures Apply(p, e).WatcherOk(w) && Carried(Apply(p, e), w) == FedBy(before + [e], o, w)
  {
    assert (before + [e])[..|before|] == before;
    match e
    case FeedEvent(x, ev) => CarriedFeed(p, x, ev, w);
    case ClearEvent(x) => CarriedClear(p, x, w);
    case NestedInvoke =>
      DrainedOk(p);
      assert Drained(p).WatcherOk(w);
  }

  /** Two pending watchers have two slots. */
  lemma OwnSlots(p: Pending, u: Watcher, w: Watcher)
    requires p.Consistent()
    ensures u != w && p.Index(u) > 0 && p.Index(w) > 0 && p.Pri(u) == p.Pri(w) ==> p.Index(u) != p.Index(w)
    ensures p.WatcherOk(u) && p.WatcherOk(w)
  {
    assert p.WatcherOk(u) && p.WatcherOk(w);
  }

  lemma {:induction false} CarriedEffects(p: Pending, script: seq<Effect>, w: Watcher)
    requires p.Consistent() && p.WatcherOk(w) && Valid(p, script)
    ensures Effects(p, script).WatcherOk(w) && Carried(Effects(p, script), w) == FedBy(script, Carried(p, w), w)
  {
    if script != [] {
      var n := |script| - 1;
      assert script[n] in script && forall e :: e in script[..n] ==> e in script;
      CarriedEffects(p, script[..n], w);
      EffectsKeep(p, script[..n], w);
      assert script[n].FeedEvent? ==> p.Knows(script[n].w);
      CarriedApply(Effects(p, script[..n]), script[n], Carried(p, w), script[..n], w);
      assert script[..n] + [script[n]] == script;
    }
  }

  /** What `w` is owed after the first `k` invocations: what was fed to it since it was last invoked
      or cleared. */
  ghost function FedSince(
    p0: Pending, scripts: seq<seq<Effect>>, log: seq<Invocation>, w: Watcher, k: nat): Option<Events>
    requires p0.WatcherOk(w) && k <= |log| <= |scripts|
  {
    if k == 0 then Carried(p0, w)
    else FedBy(scripts[k - 1], if log[k - 1].Invokes(w) then None else FedSince(p0, scripts, log, w, k - 1), w)
  }

  lemma CarriedPop(v: Invocation, w: Watcher)
    requires v.before.Consistent() && v.Possible() && v.before.WatcherOk(w)
    ensures v.Invokes(w) ==> Carried(v.before, w) == Some(v.Entry().events)
    ensures var p := Pop(v.before, v.level);
      p.WatcherOk(w) && Carried(p, w) == if v.Invokes(w) then None else Carried(v.before, w)
  {
    assert v.before.SlotOk(v.level, |v.before.queues[v.level]| - 1);
    PopKeeps(v.before, v.level);
    assert Pop(v.before, v.level).WatcherOk(w);
    PopOther(v.before, v, w);
  }

  /** In every run an invocation carries exactly the events fed to its watcher since it was last
      invoked or cleared. */
  lemma {:induction false} InvocationCarriesWhatWasFed(
    p0: Pending, scripts: seq<seq<Effect>>, log: seq<Invocation>, w: Watcher, k: nat)
    requires p0.Consistent() && p0.WatcherOk(w) && AllValid(p0, scripts) && Follows(p0, scripts, log) && k <= |log|
    ensures var p := StateAt(p0, scripts, log, k);
      && p.Consistent() && |p.queues| == |p0.queues| && p.priority == p0.priority && p.WatcherOk(w)
      && Carried(p, w) == FedSince(p0, scripts, log, w, k)
    ensures k < |log| && log[k].Invokes(w) ==> FedSince(p0, scripts, log, w, k) == Some(log[k].Entry().events)
  {
    if k > 0 {
      InvocationCarriesWhatWasFed(p0, scripts, log, w, k - 1);
      var i: nat, v := k - 1, log[k - 1];
      assert FollowsAt(p0, scripts, log, i);
      StillValid(p0, v.before, scripts, i);
      InvocationKeeps(v, scripts[i], w);
      CarriedPop(v, w);
      var p := Pop(v.before, v.level);
      PopKeeps(v.before, v.level);
      assert Valid(p, scripts[i]) by {
        forall e | e in scripts[i] && e.FeedEvent? ensures p.Knows(e.w) { assert v.before.Knows(e.w); }
      }
      CarriedEffects(p, scripts[i], w);
    }
    if k < |log| {
      assert FollowsAt(p0, scripts, log, k);
      CarriedPop(log[k], w);
    }
  }

  // ---------- reversed feeding ----------

  lemma StillKnown(p: Pending, p': Pending, ws: seq<Watcher>, rest: seq<Watcher>)
    requires |p'.queues| == |p.queues| && p'.priority == p.priority
    requires (forall w :: w in ws ==> p.Knows(w)) && forall w :: w in rest ==> w in ws
    ensures forall w :: w in rest ==> p'.Knows(w)
  {
    forall w | w in rest ensures p'.Knows(w) { assert p.Knows(w); }
  }

  /** `feed_reverse_done`: the collected watchers are fed last first. */
  function FeedReversed(p: Pending, ws: seq<Watcher>, revents: Events): Pending
    requires p.Consistent() && forall w :: w in ws ==> p.Knows(w)
    decreases |ws|
  {
    if ws == [] then p
    else
      var w, rest := ws[|ws| - 1], ws[..|ws| - 1];
      FeedKeeps(p, w, revents);
      var p1 := Feed(p, w, revents);
      StillKnown(p, p1, ws, rest);
      FeedReversed(p1, rest, revents)
  }

  /** Watchers fed later end up further back, and nothing already pending moves. */
  lemma {:induction false} FeedReversedPlaces(p: Pending, ws: seq<Watcher>, revents: Events)
    requires p.Consistent() && forall w :: w in ws ==> p.Knows(w)
    ensures var p' := FeedReversed(p, ws, revents);
      && p'.Consistent() && |p'.queues| == |p.queues| && p'.priority == p.priority
      && (forall l :: 0 <= l < |p.queues| ==> |p'.queues[l]| >= |p.queues[l]|)
      && (forall w :: p.Index(w) > 0 ==> p'.Index(w) == p.Index(w))
      && (forall w :: w in ws && p.Index(w) == 0 ==> p'.Index(w) > |p.queues[p.Pri(w)]|)
      && (forall w :: w !in ws ==> p'.Index(w) == p.Index(w))
    decreases |ws|
  {
    if ws != [] {
      var w, rest := ws[|ws| - 1], ws[..|ws| - 1];
      assert ws == rest + [w];
      FeedKeeps(p, w, revents);
      assert forall x :: x in rest ==> x in ws && p.Knows(x);
      var p1 := Feed(p, w, revents);
      FeedReversedPlaces(p1, rest, revents);
      assert forall x :: p1.Pri(x) == p.Pri(x);
    }
  }

  lemma {:induction false} FeedReversedOrder(p: Pending, ws: seq<Watcher>, revents: Events, i: nat, j: nat)
    requires p.Consistent() && (forall w :: w in ws ==> p.Knows(w))
    requires forall a, b :: 0 <= a < b < |ws| ==> ws[a] != ws[b]
    requires i < j < |ws| && p.Index(ws[i]) == 0 && p.Index(ws[j]) == 0
    requires p.Pri(ws[i]) == p.Pri(ws[j])
    ensures FeedReversed(p, ws, revents).Index(ws[i]) > FeedReversed(p, ws, revents).Index(ws[j])
    decreases |ws|
  {
    var w, rest := ws[|ws| - 1], ws[..|ws| - 1];
    assert ws == rest + [w] && w !in rest;
    FeedKeeps(p, w, revents);
    assert forall x :: x in rest ==> x in ws && p.Knows(x);
    var p1 := Feed(p, w, revents);
    if j == |ws| - 1 {
      FeedReversedPlaces(p1, rest, revents);
      assert ws[i] in rest;
    } else {
      FeedReversedOrder(p1, rest, revents, i, j);
    }
  }

  /** Every collected watcher is pending afterwards, with the given events added to what it carried;
      the others carry what they did. */
  lemma {:induction false} FeedReversedCarries(p: Pending, ws: seq<Watcher>, revents: Events, w: Watcher)
    requires p.Consistent() && p.WatcherOk(w) && forall x :: x in ws ==> p.Knows(x)
    ensures var p' := FeedReversed(p, ws, revents);
      && p'.WatcherOk(w)
      && Carried(p', w) ==
        if w in ws then Some((if Carried(p, w).Some? then Carried(p, w).value else {}) + revents) else Carried(p, w)
    decreases |ws|
  {
    if ws != [] {
      var x, rest := ws[|ws| - 1], ws[..|ws| - 1];
      assert ws == rest + [x];
      FeedKeeps(p, x, revents);
      StillKnown(p, Feed(p, x, revents), ws, rest);
      CarriedFeed(p, x, revents, w);
      FeedReversedCarries(Feed(p, x, revents), rest, revents, w);
    }
  }

  /** Of two collected watchers of equal priority that were not pending before, the first is
      invoked before the second, whatever the callbacks do, unless one clears either of them or
      runs a nested loop before it is invoked. */
  lemma CollectedFirstRunsFirst(
    p: Pending, ws: seq<Watcher>, revents: Events, i: nat, j: nat,
    scripts: seq<seq<Effect>>, log: seq<Invocation>, k: nat)
    returns (m: nat)
    requires p.Consistent() && (forall w :: w in ws ==> p.Knows(w))
    requires forall x, y :: 0 <= x < y < |ws| ==> ws[x] != ws[y]
    requires i < j < |ws| && p.Index(ws[i]) == 0 && p.Index(ws[j]) == 0 && p.Pri(ws[i]) == p.Pri(ws[j])
    requires AllValid(FeedReversed(p, ws, revents), scripts) && Follows(FeedReversed(p, ws, revents), scripts, log)
    requires LeftAlone(scripts, log, ws[i], k) && LeftAlone(scripts, log, ws[j], k)
    requires k < |log| && log[k].Invokes(ws[j])
    ensures m < k && log[m].Invokes(ws[i])
  {
    FeedReversedPlaces(p, ws, revents);
    FeedReversedOrder(p, ws, revents, i, j);
    m := HigherIndexRunsFirst(FeedReversed(p, ws, revents), scripts, log, ws[i], ws[j], k);
  }
}
