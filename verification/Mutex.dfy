/** The token discipline of `Mutex`, its condition waits included. Whoever takes the token from
    the store is inside until the token is back. */
module Mutex {
  import opened Options

  type FiberId = nat

  /** Why a fiber is blocked: in `@store.shift` for `lock`, for `synchronize`, or to take the
      lock back after a condition wait; or in that wait, where it is not after the token. */
  datatype Purpose = ForLock | ForSync | ForWait | ForSignal

  /** `inside` is what the mutex is meant to guard: the fibers that took a token and have not
      given it back. `syncing`: the fibers whose `synchronize` will put a token back when it ends. */
  datatype State = State(
    tokens: nat, holder: Option<FiberId>, blocked: map<FiberId, Purpose>,
    syncing: set<FiberId>, dead: set<FiberId>, inside: set<FiberId>)

  datatype Step =
    | Lock(f: FiberId)
    | TryLock(f: FiberId)
    | Synchronize(f: FiberId)
    | Take(f: FiberId)
    | Interrupt(f: FiberId)
    | Unlock(f: FiberId)
    | EndSynchronize(f: FiberId)
    | Wait(f: FiberId)
    | Signal(f: FiberId)
    | Die(f: FiberId)

  predicate CanRun(s: State, f: FiberId) { f !in s.blocked && f !in s.dead }

  predicate WantsToken(s: State, f: FiberId) { f in s.blocked && !s.blocked[f].ForSignal? }

  predicate Enabled(s: State, st: Step) {
    match st
    case Take(f) => WantsToken(s, f) && s.tokens > 0
    case Interrupt(f) => f in s.blocked
    case Signal(f) => f in s.blocked && s.blocked[f].ForSignal?
    case EndSynchronize(f) => CanRun(s, f) && f in s.syncing
    case Die(f) => CanRun(s, f) && f !in s.syncing
    case _ => CanRun(s, st.f)
  }

  function Release(s: State, f: FiberId): State {
    s.(tokens := s.tokens + 1, holder := None, inside := s.inside - {f})
  }

  /** `check_dead_holder`: the token of a dead holder goes back. */
  function CheckDeadHolder(s: State): State {
    if s.holder.Some? && s.holder.value in s.dead then Release(s, s.holder.value) else s
  }

  function Next(s: State, st: Step): State
    requires Enabled(s, st)
  {
    match st
    case Lock(f) =>
      var s1 := CheckDeadHolder(s);
      if s1.holder == Some(f) then s1 else s1.(blocked := s1.blocked[f := ForLock])
    case TryLock(f) => if s.holder.Some? then s else s.(blocked := s.blocked[f := ForLock])
    case Synchronize(f) => if s.holder == Some(f) then s else s.(blocked := s.blocked[f := ForSync])
    case Take(f) =>
      State(s.tokens - 1, Some(f), s.blocked - {f},
        if s.blocked[f].ForSync? then s.syncing + {f} else s.syncing, s.dead, s.inside + {f})
    // The `ensure` clause of a condition wait takes the lock back after an exception too.
    case Interrupt(f) =>
      s.(blocked := if s.blocked[f].ForSignal? then s.blocked[f := ForWait] else s.blocked - {f})
    case Signal(f) => s.(blocked := s.blocked[f := ForWait])
    case Unlock(f) => if s.holder == Some(f) then Release(s, f) else s
    case EndSynchronize(f) => Release(s, f).(syncing := s.syncing - {f})
    case Wait(f) => Release(s, f).(blocked := s.blocked[f := ForSignal])
    case Die(f) => s.(dead := s.dead + {f})
  }

  /** The account of tokens alone: who took the one token is inside, and noted as holder. */
  ghost predicate Account(s: State) {
    s.inside == (if s.holder.Some? then {s.holder.value} else {}) && s.tokens + |s.inside| == 1
  }

  ghost predicate Inv(s: State) {
    && Account(s)
    && (s.holder.Some? ==> s.holder.value !in s.blocked)
    && (forall f :: f in s.blocked ==> f !in s.dead)
    && (forall f :: f in s.syncing ==> SyncOk(s, f))
  }

  /** A fiber in `synchronize` is alive, and inside or waiting on a condition. */
  ghost predicate SyncOk(s: State, f: FiberId) {
    f !in s.dead && (if f in s.blocked then s.blocked[f].ForWait? || s.blocked[f].ForSignal? else f in s.inside)
  }

  /** `wait` by the holder only, no `unlock` inside `synchronize`, and no exception while the
      lock is being taken back inside `synchronize`. */
  predicate Safe(s: State, st: Step) {
    match st
    case Wait(f) => s.holder == Some(f)
    case Unlock(f) => s.holder == Some(f) ==> f !in s.syncing
    case Interrupt(f) => f in s.blocked && s.blocked[f].ForWait? ==> f !in s.syncing
    case _ => true
  }

  lemma SafeKeeps(s: State, st: Step)
    requires Inv(s) && Enabled(s, st) && Safe(s, st)
    ensures Inv(Next(s, st))
  {
    if st.EndSynchronize? { assert SyncOk(s, st.f); }
    AccountIsExact(s, st);
    SafeKeepsRest(s, st);
  }

  lemma SafeKeepsRest(s: State, st: Step)
    requires Inv(s) && Enabled(s, st) && Safe(s, st) && Account(Next(s, st))
    ensures Inv(Next(s, st))
  {
    var s' := Next(s, st);
    forall f | f in s'.syncing ensures SyncOk(s', f) { assert f in s.syncing ==> SyncOk(s, f); }
  }

  lemma UnsafeBreaks(s: State, st: Step)
    requires Inv(s) && Enabled(s, st) && !Safe(s, st)
    ensures !Inv(Next(s, st))
  {
    var s' := Next(s, st);
    match st
    case Unlock(f) => assert f in s'.syncing && !SyncOk(s', f);
    case Interrupt(f) => assert f in s'.syncing && f !in s.inside && !SyncOk(s', f);
    case Wait(f) =>
      if s.holder.Some? { assert s.holder.value in s'.inside; } else { assert s'.inside == {} == s.inside; }
  }

  /** Exactly the safe steps keep the account of tokens in order. */
  lemma SafeIsExact(s: State, st: Step)
    requires Inv(s) && Enabled(s, st)
    ensures Safe(s, st) <==> Inv(Next(s, st))
  {
    if Safe(s, st) { SafeKeeps(s, st); } else { UnsafeBreaks(s, st); }
  }

  ghost predicate IsRun(s: State, steps: seq<Step>)
    decreases |steps|
  {
    steps == [] || (Enabled(s, steps[0]) && Safe(s, steps[0]) && IsRun(Next(s, steps[0]), steps[1..]))
  }

  ghost function After(s: State, steps: seq<Step>): State
    requires IsRun(s, steps)
    decreases |steps|
  {
    if steps == [] then s else After(Next(s, steps[0]), steps[1..])
  }

  const NEW_MUTEX := State(1, None, map[], {}, {}, {})

  /** In every run of safe steps the mutex excludes: at most one fiber is inside, the one noted
      as holder, and the store holds its one token exactly when nobody is. */
  lemma {:induction false} MutualExclusion(s: State, steps: seq<Step>)
    requires Inv(s) && IsRun(s, steps)
    ensures Inv(After(s, steps))
    ensures forall f, g :: f in After(s, steps).inside && g in After(s, steps).inside ==> f == g
    ensures After(s, steps).tokens == 1 <==> After(s, steps).inside == {}
    decreases |steps|
  {
    if steps != [] {
      SafeIsExact(s, steps[0]);
      MutualExclusion(Next(s, steps[0]), steps[1..]);
    }
  }

  /** In particular from a new mutex on. */
  lemma ExclusionFromTheStart(steps: seq<Step>)
    requires IsRun(NEW_MUTEX, steps)
    ensures var s := After(NEW_MUTEX, steps); |s.inside| <= 1 && s.tokens + |s.inside| == 1
  {
    MutualExclusion(NEW_MUTEX, steps);
  }

  /** The account breaks exactly when a fiber that is not inside waits on a condition or ends a
      `synchronize`. */
  lemma AccountIsExact(s: State, st: Step)
    requires Account(s) && Enabled(s, st)
    ensures Account(Next(s, st)) <==> (st.Wait? || st.EndSynchronize? ==> st.f in s.inside)
  {
    var s' := Next(s, st);
    assert |s.inside| == if s.holder.Some? then 1 else 0;
    if st.Wait? || st.EndSynchronize? {
      if st.f in s.inside {
        assert s'.inside == {};
      } else {
        assert s'.inside == s.inside;
      }
    } else if st.Take? {
      assert s'.inside == {st.f};
    } else if s'.inside != s.inside {
      assert s'.inside == {};
    }
  }

  /** Taking and giving back: on a free mutex a `lock` that is served and unlocked, and a
      `synchronize` that is served and ends, leave everything as it was; in between the fiber is
      inside, alone, and noted as the holder. */
  lemma LockRoundTrip(s: State, f: FiberId)
    requires Inv(s) && s.tokens == 1 && CanRun(s, f) && f !in s.syncing
    ensures var s1 := Next(s, Lock(f));
      && Enabled(s1, Take(f)) && var s2 := Next(s1, Take(f));
      && s2.inside == {f} && s2.holder == Some(f) && s2.tokens == 0
      && Enabled(s2, Unlock(f)) && Next(s2, Unlock(f)) == s
    ensures var s1 := Next(s, Synchronize(f));
      && Enabled(s1, Take(f)) && var s2 := Next(s1, Take(f));
      && s2.inside == {f} && s2.holder == Some(f) && s2.tokens == 0 && f in s2.syncing
      && Enabled(s2, EndSynchronize(f)) && Next(s2, EndSynchronize(f)) == s
  {
    assert s.inside == {} && s.holder == None;
    assert s.blocked[f := ForLock] - {f} == s.blocked && s.blocked[f := ForSync] - {f} == s.blocked;
    assert s.syncing + {f} - {f} == s.syncing;
  }

  /** Whoever is inside gives the token back by `unlock`, at the end of `synchronize` and for the
      time of a condition wait; then nobody is inside. */
  lemma TokenIsGivenBack(s: State, st: Step)
    requires Inv(s) && Enabled(s, st) && s.holder == Some(st.f) && (st.Unlock? || st.EndSynchronize? || st.Wait?)
    ensures var s' := Next(s, st); s'.tokens == 1 && s'.inside == {} && s'.holder == None
    ensures st.EndSynchronize? ==> st.f !in Next(s, st).syncing
  {
    assert Next(s, st).inside == {};
  }

  /** Under another holder `lock` and `synchronize` wait for the token, `try_lock` gives up at once
      and `unlock` raises; the holder's own calls change nothing but give the lock back. */
  lemma CallsUnderHolder(s: State, f: FiberId, g: FiberId)
    requires Inv(s) && s.holder == Some(g) && g !in s.dead && CanRun(s, f)
    ensures Next(s, TryLock(f)) == s
    ensures f != g ==> Next(s, Unlock(f)) == s
    ensures f != g ==> WantsToken(Next(s, Lock(f)), f) && WantsToken(Next(s, Synchronize(f)), f)
    ensures f != g ==> !Enabled(Next(s, Lock(f)), Take(f)) && !Enabled(Next(s, Synchronize(f)), Take(f))
    ensures f == g ==> Next(s, Lock(f)) == s && Next(s, Synchronize(f)) == s
  {
  }

  /** The token of a holder that died is recovered by the next `lock`. */
  lemma DeadHolderIsRelieved(s: State, f: FiberId, g: FiberId)
    requires Inv(s) && s.holder == Some(g) && Enabled(s, Die(g)) && CanRun(s, f) && f != g
    ensures var s' := Next(Next(s, Die(g)), Lock(f)); s'.tokens == 1 && s'.inside == {} && Enabled(s', Take(f))
  {
    assert Next(Next(s, Die(g)), Lock(f)).inside == {};
  }

  /** What may happen between the call of `try_lock` by `f` in state `s` and its turn: other
      fibers run, but of those waiting for the token only the ones that were there before.
      A fiber that is signalled meanwhile has yet to enter the shift, behind `f`. */
  ghost predicate BeforeTurn(s: State, f: FiberId, steps: seq<Step>) {
    forall st :: st in steps ==> st.f != f && (st.Take? ==> WantsToken(s, st.f))
  }

  lemma {:induction false} TokenStays(s: State, f: FiberId, steps: seq<Step>)
    requires IsRun(s, steps) && WantsToken(s, f) && s.tokens > 0
    requires forall st :: st in steps ==> st.f != f && !st.Take?
    ensures Enabled(After(s, steps), Take(f))
    decreases |steps|
  {
    if steps != [] {
      assert steps[0] in steps;
      TokenStays(Next(s, steps[0]), f, steps[1..]);
    }
  }

  /** `try_lock` on a free mutex goes through the store like `lock` does, and the shift is a
      switch point. It finds the token when its turn comes, whatever happens before, if and
      only if no other fiber was waiting for the token when it was called; fibers in a
      condition wait do not count. */
  lemma TryLockFindsTokenIff(s: State, f: FiberId)
    requires Inv(s) && Enabled(s, TryLock(f)) && s.holder.None?
    ensures (forall g :: !WantsToken(s, g)) <==>
      forall steps :: BeforeTurn(s, f, steps) && IsRun(Next(s, TryLock(f)), steps) ==>
        Enabled(After(Next(s, TryLock(f)), steps), Take(f))
  {
    var s' := Next(s, TryLock(f));
    if forall g :: !WantsToken(s, g) {
      forall steps | BeforeTurn(s, f, steps) && IsRun(s', steps) ensures Enabled(After(s', steps), Take(f)) {
        TokenStays(s', f, steps);
      }
    } else {
      var g :| WantsToken(s, g);
      var steps := [Take(g)];
      assert steps[1..] == [] && Enabled(s', Take(g)) && IsRun(s', steps);
      assert BeforeTurn(s, f, steps) && After(s', steps).tokens == 0;
    }
  }

  lemma RunStep(s: State, st: Step, rest: seq<Step>)
    requires Enabled(s, st) && Safe(s, st) && IsRun(Next(s, st), rest)
    ensures IsRun(s, [st] + rest) && After(s, [st] + rest) == After(Next(s, st), rest)
  {
    assert ([st] + rest)[1..] == rest;
  }

  /** Fiber 2 waits for the lock fiber 1 holds; 1 unlocks, 3 tries the lock, and 2, woken before,
      is first: `try_lock` sleeps until 2 unlocks. */
  lemma TryLockWaits()
    ensures var steps := [Lock(1), Take(1), Lock(2), Unlock(1), TryLock(3), Take(2)];
      && IsRun(NEW_MUTEX, steps)
      && var s := After(NEW_MUTEX, steps); 3 in s.blocked && s.tokens == 0 && s.holder == Some(2)
  {
    var s1 := Next(NEW_MUTEX, Lock(1));
    var s2 := Next(s1, Take(1));
    var s3 := Next(s2, Lock(2));
    var s4 := Next(s3, Unlock(1));
    var s5 := Next(s4, TryLock(3));
    var t1 := [Take(2)] + [];
    var t2 := [TryLock(3)] + t1;
    var t3 := [Unlock(1)] + t2;
    var t4 := [Lock(2)] + t3;
    var t5 := [Take(1)] + t4;
    RunStep(s5, Take(2), []);
    RunStep(s4, TryLock(3), t1);
    RunStep(s3, Unlock(1), t2);
    RunStep(s2, Lock(2), t3);
    RunStep(s1, Take(1), t4);
    RunStep(NEW_MUTEX, Lock(1), t5);
    assert [Lock(1)] + t5 == [Lock(1), Take(1), Lock(2), Unlock(1), TryLock(3), Take(2)];
  }

  /** A `synchronize` that ends without the lock mints a second token; then two can enter. */
  lemma EndingWithoutLockMintsToken(s: State, f: FiberId, g: FiberId, h: FiberId)
    requires s.tokens + |s.inside| == 1 && Enabled(s, EndSynchronize(f)) && f !in s.inside
    requires WantsToken(s, g) && WantsToken(s, h) && g != h && s.inside == {}
    ensures var s1 := Next(s, EndSynchronize(f));
      s1.tokens == 2 && Enabled(s1, Take(g)) && Enabled(Next(s1, Take(g)), Take(h)) &&
      Next(Next(s1, Take(g)), Take(h)).inside == {g, h}
  {
  }

  /** It gets there by an exception that finds the fiber taking the lock back after a condition
      wait inside `synchronize`. */
  lemma InterruptedWaitInSynchronize(s: State, f: FiberId)
    requires Inv(s) && s.holder == Some(f) && f in s.syncing
    ensures Enabled(s, Wait(f)) && Enabled(Next(s, Wait(f)), Signal(f))
    ensures var s2 := Next(Next(s, Wait(f)), Signal(f));
      && Enabled(s2, Interrupt(f))
      && var s3 := Next(s2, Interrupt(f));
      && s3.tokens + |s3.inside| == 1 && Enabled(s3, EndSynchronize(f)) && f !in s3.inside
      && Next(s3, EndSynchronize(f)).tokens == 2
  {
    assert Next(s, Wait(f)).inside == {};
  }

  /** An exception during the wait for the signal does no harm: the lock is taken back first. */
  lemma InterruptedBeforeSignal(s: State, f: FiberId)
    requires Inv(s) && s.holder == Some(f) && Enabled(s, Wait(f))
    ensures Enabled(Next(s, Wait(f)), Interrupt(f))
    ensures var s2 := Next(Next(s, Wait(f)), Interrupt(f));
      Inv(s2) && Enabled(s2, Take(f)) && Next(s2, Take(f)) == s
  {
    var s2 := Next(Next(s, Wait(f)), Interrupt(f));
    SafeIsExact(s, Wait(f));
    SafeIsExact(Next(s, Wait(f)), Interrupt(f));
    assert Next(s2, Take(f)).blocked == s.blocked && Next(s2, Take(f)).inside == s.inside;
  }
}
