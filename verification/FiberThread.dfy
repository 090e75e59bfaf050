/** The loops behind the steps of the fiber tree: awaiting, shutting down, informing. */
module FiberThread {
  import opened Options
  import opened FiberTree

  /** A fiber after the first fibers of `fibers` were looked at by `Fiber.await`. */
  ghost function Looked(s: State, a: FiberId, args: seq<FiberId>, f: FiberId): Fiber
    requires s.Has(f)
  {
    AwaitedBy(s, a, args, f).(frame := s.fs[f].frame)
  }

  ghost function LookedAll(s: State, a: FiberId, args: seq<FiberId>): State {
    s.(fs := map f | f in s.fs :: Looked(s, a, args, f))
  }

  lemma LookAtNone(s: State, a: FiberId)
    ensures LookedAll(s, a, []) == s
  {
    forall f | s.Has(f) ensures Looked(s, a, [], f) == s.fs[f] { assert s.fs[f].mailbox + [] == s.fs[f].mailbox; }
    assert LookedAll(s, a, []).fs == s.fs;
  }

  lemma TerminateOneMore(s: State, fs: seq<FiberId>, c: FiberId)
    requires !s.IsDone(c)
    ensures TerminateAll(s, fs + [c]) == s.(signalled := TerminateAll(s, fs).signalled + {c})
  {
    forall f ensures f in TerminateAll(s, fs + [c]).signalled <==> f in TerminateAll(s, fs).signalled + {c} { }
  }

  /** Looking at one more fiber: a dead one is answered at once, another one is monitored. */
  lemma LookAtOne(s: State, a: FiberId, args: seq<FiberId>, f: FiberId, s1: State)
    requires s.Has(a) && s.Has(f) && s1 == LookedAll(s, a, args)
    ensures LookedAll(s, a, args + [f]) ==
      if s.IsDone(f) then Update(s1, a, s1.fs[a].(mailbox := s1.fs[a].mailbox + [Message(f, s.fs[f].phase.outcome)]))
      else Update(s1, f, s1.fs[f].(monitors := s1.fs[f].monitors + {a}))
  {
    var args' := args + [f];
    assert args'[..|args|] == args && args'[|args|] == f;
    var s2 := LookedAll(s, a, args');
    forall g | s.Has(g) ensures s2.fs[g] == Looked(s, a, args', g) && s1.fs[g] == Looked(s, a, args, g) { }
    if s.IsDone(f) {
      LookAtDead(s, a, args, f, s1, s2);
    } else {
      LookAtLive(s, a, args, f, s1, s2);
    }
  }

  lemma LookAtDead(s: State, a: FiberId, args: seq<FiberId>, f: FiberId, s1: State, s2: State)
    requires s.Has(a) && s.Has(f) && s1 == LookedAll(s, a, args) && s2 == LookedAll(s, a, args + [f]) && s.IsDone(f)
    ensures s2 == Update(s1, a, s1.fs[a].(mailbox := s1.fs[a].mailbox + [Message(f, s.fs[f].phase.outcome)]))
  {
    var args' := args + [f];
    assert args'[..|args|] == args;
    var s3 := Update(s1, a, s1.fs[a].(mailbox := s1.fs[a].mailbox + [Message(f, s.fs[f].phase.outcome)]));
    forall g | s.Has(g) ensures s2.fs[g] == s3.fs[g] {
      assert g in args' && !s.IsDone(g) <==> g in args && !s.IsDone(g);
    }
    assert s2.fs == s3.fs;
  }

  lemma LookAtLive(s: State, a: FiberId, args: seq<FiberId>, f: FiberId, s1: State, s2: State)
    requires s.Has(a) && s.Has(f) && s1 == LookedAll(s, a, args) && s2 == LookedAll(s, a, args + [f]) && !s.IsDone(f)
    ensures s2 == Update(s1, f, s1.fs[f].(monitors := s1.fs[f].monitors + {a}))
  {
    var args' := args + [f];
    assert args'[..|args|] == args;
    var s3 := Update(s1, f, s1.fs[f].(monitors := s1.fs[f].monitors + {a}));
    assert DeadMessages(s, args') == DeadMessages(s, args);
    forall g | s.Has(g) ensures s2.fs[g] == s3.fs[g] {
      assert g in args' <==> g in args || g == f;
    }
    assert s2.fs == s3.fs;
  }

  class FiberThread {
    var s: State

    constructor (main: FiberId)
      ensures s == Initial(main)
    {
      s := Initial(main);
    }

    /** The part of `Fiber.await` before its loop. */
    method AwaitFibers(a: FiberId, args: seq<FiberId>)
      requires s.Has(a) && forall f :: f in args ==> s.Has(f)
      modifies this
      ensures s == BeginAwait(old(s), a, args)
    {
      ghost var s0 := s;
      LookAtNone(s0, a);
      for i := 0 to |args|
        invariant s == LookedAll(s0, a, args[..i])
      {
        var f := args[i];
        assert f in args && args[..i + 1] == args[..i] + [f];
        LookAtOne(s0, a, args[..i], f, s);
        if s.IsDone(f) {
          s := Update(s, a, s.fs[a].(mailbox := s.fs[a].mailbox + [Message(f, s.fs[f].phase.outcome)]));
        } else {
          s := Update(s, f, s.fs[f].(monitors := s.fs[f].monitors + {a}));
        }
      }
      assert args[..|args|] == args;
      s := Update(s, a, s.fs[a].(frame := Some(Start(args))));
      assert s.fs == BeginAwait(s0, a, args).fs;
    }

    /** The loop of `shutdown_all_children`. */
    method TerminateChildren(a: FiberId) returns (pending: seq<FiberId>)
      requires s.Has(a)
      modifies this
      ensures pending == Pending(old(s), old(s).fs[a].children) && s == TerminateAll(old(s), pending)
    {
      ghost var s0 := s;
      var children := s.fs[a].children;
      pending := [];
      assert s0 == TerminateAll(s0, []) by { assert TerminateAll(s0, []).signalled == s0.signalled; }
      for i := 0 to |children|
        invariant pending == Pending(s0, children[..i]) && s == TerminateAll(s0, pending)
      {
        var c := children[i];
        assert children[..i + 1][..i] == children[..i];
        if !s.IsDone(c) {
          TerminateOneMore(s0, pending, c);
          s := s.(signalled := s.signalled + {c});
          pending := pending + [c];
        }
      }
      assert children[..|children|] == children;
    }

    /** `shutdown_all_children`, up to where it waits. */
    method ShutdownAllChildren(a: FiberId)
      requires s.Has(a) && forall c :: c in s.fs[a].children ==> s.Has(c)
      modifies this
      ensures s == Shutdown(old(s), a)
    {
      var pending := TerminateChildren(a);
      AwaitFibers(a, pending);
    }

    /** `inform_monitors`: one message to every monitor, the parent scheduled if it is none. */
    method InformMonitors(a: FiberId, outcome: Outcome, uncaught: bool)
      requires s.Has(a) && s.fs[a].monitors <= s.fs.Keys
      modifies this
      ensures s.signalled == old(s).signalled + Blamed(old(s), a, uncaught)
      ensures s.fs == map f | f in old(s).fs :: Told(old(s), a, outcome, old(s).fs[a].monitors, f)
    {
      ghost var s0 := s;
      var monitors := s.fs[a].monitors;
      var todo := monitors;
      while todo != {}
        invariant todo <= monitors && s.signalled == s0.signalled
        invariant s.fs == map f | f in s0.fs :: Told(s0, a, outcome, monitors - todo, f)
      {
        var m :| m in todo;
        s := Update(s, m, s.fs[m].(mailbox := s.fs[m].mailbox + [Message(a, outcome)]));
        todo := todo - {m};
      }
      assert monitors - todo == monitors;
      s := s.(signalled := s.signalled + Blamed(s, a, uncaught));
    }

    /** The end of `finalize`. */
    method Finalize(a: FiberId, outcome: Outcome, uncaught: bool)
      requires s.Has(a) && s.fs[a].monitors <= s.fs.Keys
      requires s.fs[a].parent.Some? ==> s.Has(s.fs[a].parent.value)
      modifies this
      ensures s == Finalise(old(s), a, outcome, uncaught)
    {
      ghost var s0 := s;
      InformMonitors(a, outcome, uncaught);
      s := Update(s, a, s.fs[a].(phase := Done(outcome), frame := None));
      if s.fs[a].parent.Some? {
        var p := s.fs[a].parent.value;
        s := Update(s, p, Disown(s.fs[p], a));
      }
      s := s.(signalled := s.signalled - {a});
      assert s.fs == Finalise(s0, a, outcome, uncaught).fs;
    }
  }

  ghost function Told(s: State, a: FiberId, outcome: Outcome, ms: set<FiberId>, f: FiberId): Fiber
    requires s.Has(f)
  {
    if f in ms then s.fs[f].(mailbox := s.fs[f].mailbox + [Message(a, outcome)]) else s.fs[f]
  }
}
