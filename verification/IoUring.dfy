/** Reference counting of io_uring operation contexts. A context is shared by the fibers that
    use it and by the kernel, which still has completions (CQEs) to post for it. */
module IoUring {
  import opened Options

  type Fiber = nat

  /** The address of an `op_context_t`. */
  type Ptr = nat

  type Buffer = nat

  const MULTISHOT_REFCOUNT: nat := 0xFFFF

  // ---------- the pool ----------

  /** The fields of a context the lifecycle depends on. */
  datatype Ctx = Ctx(refs: nat, id: nat, buffers: seq<Buffer>)

  ghost predicate NoDups(s: seq<Ptr>) { forall i, j :: 0 <= i < j < |s| ==> s[i] != s[j] }

  /** Contexts ever allocated, on two lists. */
  datatype Pool = Pool(available: seq<Ptr>, taken: seq<Ptr>, ctxs: map<Ptr, Ctx>, lastId: nat) {
    ghost predicate WellFormed() {
      && NoDups(available) && NoDups(taken)
      && (forall c :: c in available ==> c in ctxs && ctxs[c].refs == 0)
      && (forall c :: c in taken ==> c in ctxs && ctxs[c].refs > 0)
      && (forall c :: c in ctxs ==> if ctxs[c].refs == 0 then c in available else c in taken)
    }

    ghost predicate IdsUnique() {
      && (forall c :: c in ctxs ==> ctxs[c].id <= lastId)
      && (forall c, d :: c in ctxs && d in ctxs && c != d ==> ctxs[c].id != ctxs[d].id)
    }

    /** `c` is what `context_store_acquire` would hand out: the front of `available`, or
        newly allocated memory. */
    predicate Next(c: Ptr) { if available == [] then c !in ctxs else c == available[0] }

    function Acquire(c: Ptr): Pool {
      Pool(if available == [] then [] else available[1..], [c] + taken,
           ctxs[c := Ctx(2, lastId + 1, [])], lastId + 1)
    }

    /** The count `context_store_release` leaves: a multishot count is taken for 1, and the
        16-bit field wraps around below 0. */
    function Lowered(c: Ptr): nat
      requires c in ctxs
    {
      if ctxs[c].refs == MULTISHOT_REFCOUNT then 0
      else if ctxs[c].refs == 0 then 0xFFFF
      else ctxs[c].refs - 1
    }

    function Release(c: Ptr): Pool
      requires c in ctxs
    {
      var p := SetRefs(c, Lowered(c));
      if Lowered(c) > 0 then p else p.(available := [c] + available, taken := Without(taken, c))
    }

    function SetRefs(c: Ptr, n: nat): Pool
      requires c in ctxs
    {
      this.(ctxs := ctxs[c := ctxs[c].(refs := n)])
    }

    function Attach(c: Ptr, bufs: seq<Buffer>): Pool
      requires c in ctxs
    {
      this.(ctxs := ctxs[c := ctxs[c].(buffers := bufs)])
    }
  }

  function Without(s: seq<Ptr>, c: Ptr): seq<Ptr> {
    if s == [] then []
    else if s[0] == c then s[1..]
    else [s[0]] + Without(s[1..], c)
  }

  lemma {:induction false} WithoutEffect(s: seq<Ptr>, c: Ptr)
    requires NoDups(s)
    ensures NoDups(Without(s, c))
    ensures forall x :: x in Without(s, c) <==> x in s && x != c
  {
    if s != [] {
      var rest := s[1..];
      assert s == [s[0]] + rest;
      assert forall x :: x in rest ==> x != s[0];
      WithoutEffect(rest, c);
      var t := Without(rest, c);
      if s[0] != c {
        forall j | 0 <= j < |t| ensures t[j] != s[0] { assert t[j] in t; }
      }
    }
  }

  /** The front of `available` has no references left, so handing it out is safe. */
  lemma AcquireKeeps(p: Pool, c: Ptr)
    requires p.WellFormed() && p.Next(c)
    ensures p.Acquire(c).WellFormed()
    ensures c in p.ctxs ==> p.ctxs[c].refs == 0
  {
    var rest := if p.available == [] then [] else p.available[1..];
    if p.available != [] {
      assert p.available == [c] + rest && c in p.available;
      forall x | x in rest ensures x != c && x in p.available {
        var i :| 0 <= i < |rest| && rest[i] == x;
        assert p.available[i + 1] == x;
      }
    }
    forall j | 0 <= j < |p.taken| ensures p.taken[j] != c { assert p.taken[j] in p.taken; }
    assert forall x :: x in [c] + p.taken <==> x == c || x in p.taken;
  }

  lemma ReleaseKeeps(p: Pool, c: Ptr)
    requires p.WellFormed() && c in p.ctxs && p.ctxs[c].refs > 0
    ensures p.Release(c).WellFormed()
  {
    WithoutEffect(p.taken, c);
    assert c in p.taken && c !in p.available;
    var p' := p.Release(c);
    if p.Lowered(c) == 0 {
      assert forall x :: x in p'.available <==> x == c || x in p.available;
      assert forall x :: x in p'.taken <==> x in p.taken && x != c;
    }
  }

  /** Changing a nonzero count to another nonzero count, or the buffers, moves nothing. */
  lemma UpdateKeeps(p: Pool, c: Ptr, n: nat, bufs: seq<Buffer>)
    requires p.WellFormed() && c in p.ctxs
    ensures p.Attach(c, bufs).WellFormed()
    ensures p.ctxs[c].refs > 0 && n > 0 ==> p.SetRefs(c, n).WellFormed()
  {
  }

  // ---------- what the kernel reads and writes ----------

  /** A submission: the buffers it refers to, that is the Ruby strings (none for a splice or a
      poll). What else the kernel may write, such as the address an accept has on the C stack,
      is not counted. */
  type Sqe = seq<Buffer>

  datatype ChainOp = WriteOp(buffer: Buffer) | SendOp(buffer: Buffer) | SpliceOp

  function OpSqe(op: ChainOp): Sqe { if op.SpliceOp? then [] else [op.buffer] }

  function ChainSqes(ops: seq<ChainOp>): multiset<Sqe> {
    if ops == [] then multiset{} else ChainSqes(ops[..|ops| - 1]) + multiset{OpSqe(ops[|ops| - 1])}
  }

  /** `Backend_chain_ctx_attach_buffers`: the buffers of the writes and sends, in order. */
  function ChainBuffers(ops: seq<ChainOp>): seq<Buffer> {
    if ops == [] then []
    else ChainBuffers(ops[..|ops| - 1]) + (if ops[|ops| - 1].SpliceOp? then [] else [ops[|ops| - 1].buffer])
  }

  lemma {:induction false} ChainIsAttached(ops: seq<ChainOp>)
    ensures |ChainSqes(ops)| == |ops|
    ensures forall q, b :: q in ChainSqes(ops) && b in q ==> b in ChainBuffers(ops)
  {
    if ops != [] { ChainIsAttached(ops[..|ops| - 1]); }
  }

  /** `chunk_prefix` or `chunk_postfix`: written as it is, or what it makes of the chunk's
      length. */
  datatype Affix = Nil | Text(buffer: Buffer) | Callable(object: Buffer) {
    function Object(): seq<Buffer> { match this case Nil => [] case Text(b) => [b] case Callable(o) => [o] }

    /** The write of this affix may refer to `q`: a callable can return any string. */
    predicate Writes(q: Sqe) { match this case Nil => false case Text(b) => q == [b] case Callable(_) => |q| == 1 }
  }

  datatype SpliceArgs = SpliceArgs(
    prefix: Option<Buffer>, postfix: Option<Buffer>, chunkPrefix: Affix, chunkPostfix: Affix)
  {
    /** What `Backend_splice_chunks` attaches: its own four arguments, those that are not nil. */
    function Attached(): seq<Buffer> {
      (if prefix.Some? then [prefix.value] else []) + (if postfix.Some? then [postfix.value] else [])
      + chunkPrefix.Object() + chunkPostfix.Object()
    }

    predicate Writes(q: Sqe) {
      q == [] || (prefix.Some? && q == [prefix.value]) || (postfix.Some? && q == [postfix.value])
      || chunkPrefix.Writes(q) || chunkPostfix.Writes(q)
    }

    predicate AllNil() { prefix.None? && postfix.None? && chunkPrefix.Nil? && chunkPostfix.Nil? }

    predicate SomeCallable() { chunkPrefix.Callable? || chunkPostfix.Callable? }
  }

  // ---------- the protocol ----------

  /** How a context is used: one SQE awaited by one fiber, a linked chain, the SQEs of a
      chunked splice, or the poll on the eventfd that all waiting fibers share. */
  datatype Op = Single(buffers: seq<Buffer>) | Chain(ops: seq<ChainOp>) | Splice(args: SpliceArgs) | Wait {
    /** The SQEs an operation starts with; a splice adds more one by one. */
    function Submits(first: Sqe): multiset<Sqe> {
      match this
      case Single(buffers) => multiset{buffers}
      case Chain(ops) => ChainSqes(ops)
      case Splice(_) => multiset{first}
      case Wait => multiset{[]}
    }

    /** Every SQE the operation ever submits. */
    predicate MaySubmit(q: Sqe) {
      match this
      case Single(buffers) => q == buffers
      case Chain(ops) => q in ChainSqes(ops)
      case Splice(args) => args.Writes(q)
      case Wait => q == []
    }

    /** What is attached when the operation is given up. */
    function Attached(): seq<Buffer> {
      match this
      case Single(buffers) => buffers
      case Chain(ops) => ChainBuffers(ops)
      case Splice(args) => args.Attached()
      case Wait => []
    }

    /** Giving up the operation, by an exception or by a plain value, leaves no buffer behind. */
    predicate KeepsBuffers(exception: bool) {
      Splice? ==> if exception then !args.SomeCallable() else args.AllNil()
    }
  }

  /** `pending` are the SQEs whose CQEs are still to be handled, `holders` the fibers that have
      yet to release the context; `gaveUp` says whether the last one to give it up did so
      because of an exception. */
  datatype Use = Use(op: Op, pending: multiset<Sqe>, holders: set<Fiber>, gaveUp: Option<bool>)

  /** What happens to a single-SQE operation: a completion makes its fiber runnable, or the
      fiber gives it up. */
  datatype Event = Woken(id: nat) | Abandoned(id: nat)

  datatype State = State(pool: Pool, uses: map<Ptr, Use>, eventCtx: Option<Ptr>, log: seq<Event>) {
    predicate Known(c: Ptr) { c in pool.ctxs && c in uses }

    predicate Holds(f: Fiber, c: Ptr) { Known(c) && f in uses[c].holders }
  }

  datatype Action =
    | Start(fiber: Fiber, ctx: Ptr, op: Op, first: Sqe)
    | ExtendSplice(fiber: Fiber, ctx: Ptr, sqe: Sqe)
    | StartWait(fiber: Fiber, ctx: Ptr)
    | Complete(ctx: Ptr, sqe: Sqe, canceled: bool)
    | Resume(fiber: Fiber, ctx: Ptr, exception: bool)
    | ResumeWait(fiber: Fiber, ctx: Ptr)

  predicate Enabled(s: State, a: Action) {
    match a
    case Start(_, c, op, q) =>
      s.pool.Next(c) && !op.Wait? && (op.Chain? ==> op.ops != []) && (op.Splice? ==> op.args.Writes(q))
    case ExtendSplice(f, c, q) => s.Holds(f, c) && s.uses[c].op.Splice? && s.uses[c].op.args.Writes(q)
    case StartWait(f, c) =>
      if s.eventCtx.None? then s.pool.Next(c) else s.eventCtx == Some(c) && s.Known(c) && !s.Holds(f, c)
    // The eventfd is never signalled: its poll completes only after it was cancelled.
    case Complete(c, q, _) => s.Known(c) && q in s.uses[c].pending && s.eventCtx != Some(c)
    case Resume(f, c, _) => s.Holds(f, c) && !s.uses[c].op.Wait?
    case ResumeWait(f, c) => s.Holds(f, c) && s.uses[c].op.Wait?
  }

  /** The reference counts stay below the value that marks multishot contexts. */
  predicate BelowSentinel(s: State, a: Action) {
    match a
    case Start(_, _, op, q) => |op.Submits(q)| + 1 < MULTISHOT_REFCOUNT
    case ExtendSplice(_, c, _) => s.Known(c) ==> s.pool.ctxs[c].refs + 1 < MULTISHOT_REFCOUNT
    case StartWait(_, c) => s.eventCtx.Some? && s.Known(c) ==> s.pool.ctxs[c].refs + 1 < MULTISHOT_REFCOUNT
    case _ => true
  }

  /** Acquire `c` for fiber `f` and the SQEs `qs`. */
  function Begin(s: State, f: Fiber, c: Ptr, op: Op, qs: multiset<Sqe>): State {
    s.(pool := s.pool.Acquire(c).SetRefs(c, |qs| + 1), uses := s.uses[c := Use(op, qs, {f}, None)])
  }

  /** `io_uring_backend_handle_completion` for an operation that is not multishot. If its count
      is that of a multishot one all the same, `handle_multishot_completion` finds no case for
      it and releases nothing. */
  function HandleCompletion(s: State, c: Ptr, q: Sqe, canceled: bool): State
    requires s.Known(c)
  {
    var refs, u := s.pool.ctxs[c].refs, s.uses[c];
    var wakes := refs == 2 && !canceled && u.op.Single?;
    s.(pool := if refs == MULTISHOT_REFCOUNT then s.pool else s.pool.Release(c),
       uses := s.uses[c := u.(pending := u.pending - multiset{q})],
       log := if wakes then s.log + [Woken(s.pool.ctxs[c].id)] else s.log)
  }

  /** A fiber comes back from awaiting a single operation, a chain or splice SQEs: it
      releases the context and, if the kernel is not done with it, cancels and attaches the
      buffers. A splice resumed with a plain value goes on without attaching. */
  function FinishAwait(s: State, f: Fiber, c: Ptr, exception: bool): State
    requires s.Known(c)
  {
    var p, u := s.pool.Release(c), s.uses[c];
    var left := u.(holders := u.holders - {f});
    if p.ctxs[c].refs == 0 then s.(pool := p, uses := s.uses[c := left])
    else
      s.(pool := if exception || !u.op.Splice? then p.Attach(c, u.op.Attached()) else p,
         uses := s.uses[c := left.(gaveUp := Some(exception))],
         log := if u.op.Single? then s.log + [Abandoned(s.pool.ctxs[c].id)] else s.log)
  }

  /** The end of `Backend_wait_event`: it releases whatever `event_fd_ctx` points to now, and
      drops the pointer when only the kernel's reference is left. That there is a context is
      `WaitersShareOneContext`. */
  function FinishWait(s: State, f: Fiber, c: Ptr): State
    requires s.Known(c)
  {
    if s.eventCtx.None? || !s.Known(s.eventCtx.value) then s
    else
      var e := s.eventCtx.value;
      var p, u := s.pool.Release(e), s.uses[c];
      s.(pool := p, uses := s.uses[c := u.(holders := u.holders - {f})],
         eventCtx := if p.ctxs[e].refs == 1 then None else s.eventCtx)
  }

  // ---------- the invariant ----------

  /** Every buffer the kernel may still touch on behalf of the context is attached to it. */
  ghost predicate Covered(ctx: Ctx, u: Use) {
    forall q, b :: q in u.pending && b in q ==> b in ctx.buffers
  }

  /** One context: its count is what the kernel owes plus who still uses it. */
  ghost predicate CtxOk(ctx: Ctx, u: Use) {
    && ctx.refs == |u.pending| + |u.holders| < MULTISHOT_REFCOUNT
    && (u.op.Single? || u.op.Wait? ==> |u.pending| <= 1)
    && (!u.op.Wait? ==> |u.holders| <= 1)
  }

  /** The buffers of an operation that was given up are attached, if giving it up keeps them. */
  ghost predicate Buffered(ctx: Ctx, u: Use) {
    && (forall q :: q in u.pending ==> u.op.MaySubmit(q))
    && (u.gaveUp.None? ==> ctx.buffers == []) && (u.gaveUp.Some? ==> u.holders == {})
    && (u.holders == {} && u.pending != multiset{} && !u.op.Wait? ==>
          u.gaveUp.Some? && (u.op.KeepsBuffers(u.gaveUp.value) ==> Covered(ctx, u)))
  }

  ghost predicate BuffersOk(s: State, c: Ptr) { s.Known(c) ==> Buffered(s.pool.ctxs[c], s.uses[c]) }

  ghost predicate EventOk(s: State) {
    && (s.eventCtx.Some? ==>
          var e := s.eventCtx.value;
          s.Known(e) && s.uses[e].op.Wait? && |s.uses[e].pending| == 1 && s.uses[e].holders != {})
    && (forall c :: c in s.uses && s.uses[c].op.Wait? && s.uses[c].holders != {} ==> s.eventCtx == Some(c))
  }

  ghost predicate EventFits(e: Event, u: Use) {
    u.op.Single? && if e.Woken? then u.pending == multiset{} else u.holders == {}
  }

  ghost predicate LogOk(s: State) {
    && (forall e :: e in s.log ==> e.id <= s.pool.lastId)
    && (forall e, c :: e in s.log && c in s.uses && c in s.pool.ctxs && s.pool.ctxs[c].id == e.id ==>
          EventFits(e, s.uses[c]))
    && (forall i, j :: 0 <= i < j < |s.log| && s.log[j].Woken? ==> s.log[i].id != s.log[j].id)
  }

  ghost predicate Inv(s: State) {
    s.pool.WellFormed() && Core(s) && forall c :: BuffersOk(s, c)
  }

  /** The part of the invariant that does not speak of the two lists. */
  ghost predicate Core(s: State) {
    && s.pool.ctxs.Keys == s.uses.Keys && s.pool.IdsUnique()
    && (forall c :: c in s.uses ==> CtxOk(s.pool.ctxs[c], s.uses[c]))
    && EventOk(s) && LogOk(s)
  }

  /** A fiber that still holds a context keeps it off the `available` list, and a fiber
      blocked in `Backend_wait_event` holds the shared context. */
  lemma HeldCounts(s: State, f: Fiber, c: Ptr)
    requires Core(s) && s.Holds(f, c)
    ensures s.pool.ctxs[c].refs > 0 && |s.uses[c].holders - {f}| == |s.uses[c].holders| - 1
    ensures s.uses[c].op.Wait? ==> s.eventCtx == Some(c)
    ensures CtxOk(s.pool.ctxs[c], s.uses[c])
  {
    assert s.uses[c].holders != {};
  }

  function Step(s: State, a: Action): State
    requires Enabled(s, a)
  {
    match a
    case Start(f, c, op, q) => Begin(s, f, c, op, op.Submits(q))
    case ExtendSplice(f, c, q) =>
      var u := s.uses[c];
      s.(pool := s.pool.SetRefs(c, s.pool.ctxs[c].refs + 1),
         uses := s.uses[c := u.(pending := u.pending + multiset{q})])
    case StartWait(f, c) =>
      if s.eventCtx.None? then Begin(s, f, c, Wait, multiset{[]}).(eventCtx := Some(c))
      else
        var u := s.uses[c];
        s.(pool := s.pool.SetRefs(c, s.pool.ctxs[c].refs + 1), uses := s.uses[c := u.(holders := u.holders + {f})])
    case Complete(c, q, canceled) => HandleCompletion(s, c, q, canceled)
    case Resume(f, c, exception) => FinishAwait(s, f, c, exception)
    case ResumeWait(f, c) => FinishWait(s, f, c)
  }

  lemma StartKeepsLists(p: Pool, c: Ptr, n: nat)
    requires p.WellFormed() && p.Next(c)
    ensures p.Acquire(c).SetRefs(c, n + 1).WellFormed()
    ensures c in p.ctxs ==> p.ctxs[c].refs == 0
  {
    AcquireKeeps(p, c);
    UpdateKeeps(p.Acquire(c), c, n + 1, []);
  }

  lemma FinishKeepsLists(p: Pool, c: Ptr, bufs: seq<Buffer>)
    requires p.WellFormed() && c in p.ctxs && p.ctxs[c].refs > 0
    ensures p.Release(c).WellFormed() && p.Release(c).Attach(c, bufs).WellFormed()
  {
    ReleaseKeeps(p, c);
    UpdateKeeps(p.Release(c), c, 1, bufs);
  }

  lemma JoinKeepsLists(p: Pool, c: Ptr)
    requires p.WellFormed() && c in p.ctxs && p.ctxs[c].refs > 0
    ensures p.SetRefs(c, p.ctxs[c].refs + 1).WellFormed()
  {
    UpdateKeeps(p, c, p.ctxs[c].refs + 1, []);
  }

  /** A step that touches one context and leaves the ids alone keeps the counts right if that
      context ends up right. */
  lemma CoreByContext(s: State, s': State, c: Ptr)
    requires Core(s) && s.Known(c) && s'.Known(c) && s'.pool.lastId == s.pool.lastId
    requires s'.uses == s.uses[c := s'.uses[c]] && s'.pool.ctxs == s.pool.ctxs[c := s'.pool.ctxs[c]]
    requires s'.pool.ctxs[c].id == s.pool.ctxs[c].id
    requires CtxOk(s'.pool.ctxs[c], s'.uses[c])
    requires EventOk(s') && LogOk(s')
    ensures Core(s')
  {
    assert s'.pool.IdsUnique();
    Assemble(s, s', c);
  }

  lemma Assemble(s: State, s': State, c: Ptr)
    requires Core(s) && s'.Known(c)
    requires s'.uses == s.uses[c := s'.uses[c]] && s'.pool.ctxs == s.pool.ctxs[c := s'.pool.ctxs[c]]
    requires CtxOk(s'.pool.ctxs[c], s'.uses[c])
    requires s'.pool.IdsUnique() && EventOk(s') && LogOk(s')
    ensures Core(s')
  {
  }

  /** The log stays right if the context keeps its id and its events still fit. */
  lemma LogByContext(s: State, s': State, c: Ptr)
    requires Core(s) && s.Known(c) && s'.Known(c) && s'.log == s.log && s'.pool.lastId == s.pool.lastId
    requires s'.uses == s.uses[c := s'.uses[c]] && s'.pool.ctxs == s.pool.ctxs[c := s'.pool.ctxs[c]]
    requires s'.pool.ctxs[c].id == s.pool.ctxs[c].id
    requires forall e :: EventFits(e, s.uses[c]) ==> EventFits(e, s'.uses[c])
    ensures LogOk(s')
  {
    forall e, d | e in s'.log && d in s'.uses && d in s'.pool.ctxs && s'.pool.ctxs[d].id == e.id
      ensures EventFits(e, s'.uses[d])
    {
      assert EventFits(e, s.uses[d]);
    }
  }

  /** A new operation gets an id no event carries. */
  lemma BeginLog(s: State, s': State, c: Ptr)
    requires Core(s) && s'.log == s.log && s'.pool.lastId == s.pool.lastId + 1
    requires s'.Known(c) && s'.pool.ctxs[c].id == s'.pool.lastId
    requires s'.uses == s.uses[c := s'.uses[c]] && s'.pool.ctxs == s.pool.ctxs[c := s'.pool.ctxs[c]]
    ensures LogOk(s') && s'.pool.IdsUnique()
  {
    forall e, d | e in s'.log && d in s'.uses && d in s'.pool.ctxs && s'.pool.ctxs[d].id == e.id
      ensures EventFits(e, s'.uses[d])
    {
      assert d != c;
      assert EventFits(e, s.uses[d]);
    }
  }

  lemma BeginEvent(s: State, s': State, c: Ptr)
    requires Core(s) && s'.Known(c) && (c in s.uses ==> s.uses[c].holders == {})
    requires s'.uses == s.uses[c := s'.uses[c]] && s'.pool.ctxs == s.pool.ctxs[c := s'.pool.ctxs[c]]
    requires s'.uses[c].op.Wait? ==> s.eventCtx.None? && |s'.uses[c].pending| == 1 && s'.uses[c].holders != {}
    requires s'.eventCtx == if s'.uses[c].op.Wait? then Some(c) else s.eventCtx
    ensures EventOk(s')
  {
    assert s.eventCtx != Some(c);
  }

  lemma BeginKeepsCore(s: State, f: Fiber, c: Ptr, op: Op, qs: multiset<Sqe>)
    requires Core(s) && (c in s.pool.ctxs ==> s.pool.ctxs[c].refs == 0)
    requires 0 < |qs| < MULTISHOT_REFCOUNT - 1 && (op.Single? || op.Wait? ==> |qs| == 1)
    requires op.Wait? ==> s.eventCtx.None?
    ensures var s' := Begin(s, f, c, op, qs);
            Core(if op.Wait? then s'.(eventCtx := Some(c)) else s')
  {
    var s1 := Begin(s, f, c, op, qs);
    var s' := if op.Wait? then s1.(eventCtx := Some(c)) else s1;
    assert s'.pool.ctxs[c] == Ctx(|qs| + 1, s.pool.lastId + 1, []);
    assert s'.pool.ctxs == s.pool.ctxs[c := s'.pool.ctxs[c]];
    NewUseOk(s'.pool.ctxs[c], op, qs, f);
    NoHolders(s, c);
    BeginLog(s, s', c);
    BeginEvent(s, s', c);
    Assemble(s, s', c);
  }

  lemma NewUseOk(ctx: Ctx, op: Op, qs: multiset<Sqe>, f: Fiber)
    requires 0 < |qs| < MULTISHOT_REFCOUNT - 1 && (op.Single? || op.Wait? ==> |qs| == 1)
    requires ctx.refs == |qs| + 1
    ensures CtxOk(ctx, Use(op, qs, {f}, None))
  {
  }

  lemma NoHolders(s: State, c: Ptr)
    requires Core(s) && (c in s.pool.ctxs ==> s.pool.ctxs[c].refs == 0)
    ensures c in s.uses ==> s.uses[c].holders == {}
  {
    if c in s.uses {
      assert CtxOk(s.pool.ctxs[c], s.uses[c]);
      assert |s.uses[c].holders| == 0;
    }
  }

  lemma SubmitsWhatItMay(op: Op, first: Sqe)
    requires (op.Chain? ==> op.ops != []) && (op.Splice? ==> op.args.Writes(first))
    ensures |op.Submits(first)| > 0 && (op.Single? || op.Wait? ==> |op.Submits(first)| == 1)
    ensures forall q :: q in op.Submits(first) ==> op.MaySubmit(q)
  {
    if op.Chain? { ChainIsAttached(op.ops); }
  }

  /** A new event of the context; a wake-up only if the operation has had no event yet. */
  lemma LogMore(s: State, s': State, c: Ptr, ev: Event)
    requires Core(s) && s.Known(c) && s'.Known(c) && s'.pool.lastId == s.pool.lastId
    requires s'.uses == s.uses[c := s'.uses[c]] && s'.pool.ctxs == s.pool.ctxs[c := s'.pool.ctxs[c]]
    requires s'.pool.ctxs[c].id == s.pool.ctxs[c].id == ev.id && s'.log == s.log + [ev]
    requires forall e :: EventFits(e, s.uses[c]) ==> EventFits(e, s'.uses[c])
    requires EventFits(ev, s'.uses[c]) && (ev.Woken? ==> forall e :: !EventFits(e, s.uses[c]))
    ensures LogOk(s')
  {
    LogByContext(s, s'.(log := s.log), c);
    forall e, d | e in s'.log && d in s'.uses && d in s'.pool.ctxs && s'.pool.ctxs[d].id == e.id
      ensures EventFits(e, s'.uses[d])
    {
      assert e == ev || e in s.log;
    }
    if ev.Woken? {
      forall i | 0 <= i < |s.log| ensures s.log[i].id != ev.id { assert s.log[i] in s.log; }
    }
  }

  /** A completion wakes a single operation only if it was neither woken nor given up. */
  lemma CompletionLog(s: State, c: Ptr, q: Sqe, canceled: bool)
    requires Core(s) && Enabled(s, Complete(c, q, canceled)) && s.pool.ctxs[c].refs > 0
    ensures LogOk(HandleCompletion(s, c, q, canceled))
  {
    var s', u := HandleCompletion(s, c, q, canceled), s.uses[c];
    assert CtxOk(s.pool.ctxs[c], u);
    if s'.log == s.log {
      LogByContext(s, s', c);
    } else {
      assert |u.holders| == 1 && |u.pending| == 1;
      assert u.pending - multiset{q} == multiset{};
      assert u.holders != {};
      LogMore(s, s', c, Woken(s.pool.ctxs[c].id));
    }
  }

  lemma CompleteKeepsCore(s: State, c: Ptr, q: Sqe, canceled: bool)
    requires Core(s) && Enabled(s, Complete(c, q, canceled)) && s.pool.ctxs[c].refs > 0
    ensures Core(HandleCompletion(s, c, q, canceled))
  {
    assert CtxOk(s.pool.ctxs[c], s.uses[c]);
    CompletionLog(s, c, q, canceled);
    CoreByContext(s, HandleCompletion(s, c, q, canceled), c);
  }

  lemma AwaitLog(s: State, f: Fiber, c: Ptr, exception: bool)
    requires Core(s) && Enabled(s, Resume(f, c, exception)) && s.pool.ctxs[c].refs > 0
    ensures LogOk(FinishAwait(s, f, c, exception))
  {
    var s' := FinishAwait(s, f, c, exception);
    HeldCounts(s, f, c);
    if s'.log == s.log {
      LogByContext(s, s', c);
    } else {
      assert |s'.uses[c].holders| == 0;
      LogMore(s, s', c, Abandoned(s.pool.ctxs[c].id));
    }
  }

  lemma AwaitKeepsContext(s: State, f: Fiber, c: Ptr, exception: bool)
    requires Core(s) && Enabled(s, Resume(f, c, exception))
    ensures var s' := FinishAwait(s, f, c, exception); s'.Known(c) && CtxOk(s'.pool.ctxs[c], s'.uses[c])
  {
    HeldCounts(s, f, c);
    var s', u := FinishAwait(s, f, c, exception), s.uses[c];
    assert |s'.uses[c].holders| == |u.holders| - 1;
  }

  /** The shared context is not concerned by a step on a context of another kind. */
  lemma EventByContext(s: State, s': State, c: Ptr)
    requires Core(s) && s.Known(c) && s'.Known(c) && s'.eventCtx == s.eventCtx
    requires s'.uses == s.uses[c := s'.uses[c]] && s'.pool.ctxs == s.pool.ctxs[c := s'.pool.ctxs[c]]
    requires s.uses[c].op == s'.uses[c].op != Wait
    ensures EventOk(s')
  {
  }

  /** Resuming concerns one context, and neither the ids nor the eventfd. */
  lemma AwaitShape(s: State, f: Fiber, c: Ptr, exception: bool)
    requires s.Known(c)
    ensures var s' := FinishAwait(s, f, c, exception);
      && s'.Known(c) && s'.pool.lastId == s.pool.lastId && s'.eventCtx == s.eventCtx
      && s'.uses == s.uses[c := s'.uses[c]] && s'.pool.ctxs == s.pool.ctxs[c := s'.pool.ctxs[c]]
      && s'.pool.ctxs[c].id == s.pool.ctxs[c].id && s'.uses[c].op == s.uses[c].op
  {
  }

  lemma AwaitKeepsCore(s: State, f: Fiber, c: Ptr, exception: bool)
    requires Core(s) && Enabled(s, Resume(f, c, exception)) && s.pool.ctxs[c].refs > 0
    ensures Core(FinishAwait(s, f, c, exception))
  {
    AwaitShape(s, f, c, exception);
    AwaitLog(s, f, c, exception);
    AwaitKeepsContext(s, f, c, exception);
    AwaitAssembles(s, FinishAwait(s, f, c, exception), c);
  }

  lemma AwaitAssembles(s: State, s': State, c: Ptr)
    requires Core(s) && s.Known(c) && s'.Known(c) && s'.pool.lastId == s.pool.lastId && s'.eventCtx == s.eventCtx
    requires s'.uses == s.uses[c := s'.uses[c]] && s'.pool.ctxs == s.pool.ctxs[c := s'.pool.ctxs[c]]
    requires s'.pool.ctxs[c].id == s.pool.ctxs[c].id && s.uses[c].op == s'.uses[c].op != Wait
    requires CtxOk(s'.pool.ctxs[c], s'.uses[c]) && LogOk(s')
    ensures Core(s')
  {
    EventByContext(s, s', c);
    CoreByContext(s, s', c);
  }

  lemma WaitKeepsCore(s: State, f: Fiber, c: Ptr)
    requires Core(s) && Enabled(s, ResumeWait(f, c)) && s.eventCtx == Some(c) && s.pool.ctxs[c].refs > 0
    ensures Core(FinishWait(s, f, c))
  {
    HeldCounts(s, f, c);
    var s' := FinishWait(s, f, c);
    assert s'.uses[c].holders == {} <==> |s'.uses[c].holders| == 0;
    LogByContext(s, s', c);
    CoreByContext(s, s', c);
  }

  /** One more SQE of a splice, or one more fiber on the shared context. */
  lemma JoinKeepsCore(s: State, a: Action)
    requires Core(s) && Enabled(s, a) && BelowSentinel(s, a)
    requires a.ExtendSplice? || (a.StartWait? && s.eventCtx.Some?)
    ensures Core(Step(s, a))
  {
    var s', c := Step(s, a), a.ctx;
    assert CtxOk(s.pool.ctxs[c], s.uses[c]);
    assert s.uses[c].holders != {};
    LogByContext(s, s', c);
    CoreByContext(s, s', c);
  }

  lemma StepKeepsLists(s: State, a: Action)
    requires s.pool.WellFormed() && Core(s) && Enabled(s, a)
    ensures Step(s, a).pool.WellFormed()
    ensures a.Start? || (a.StartWait? && s.eventCtx.None?) ==> (a.ctx in s.pool.ctxs ==> s.pool.ctxs[a.ctx].refs == 0)
  {
    var c := a.ctx;
    if a.Start? || (a.StartWait? && s.eventCtx.None?) {
      StartKeepsLists(s.pool, c, if a.Start? then |a.op.Submits(a.first)| else 1);
    } else {
      var bufs := s.uses[c].op.Attached();
      assert CtxOk(s.pool.ctxs[c], s.uses[c]);
      if !a.Complete? && !a.StartWait? { HeldCounts(s, a.fiber, c); }
      LaterKeepsLists(s, a, bufs);
    }
  }

  lemma LaterKeepsLists(s: State, a: Action, bufs: seq<Buffer>)
    requires Core(s) && Enabled(s, a) && !a.Start? && (a.StartWait? ==> s.eventCtx.Some?)
    requires s.pool.WellFormed() && s.Known(a.ctx) && s.pool.ctxs[a.ctx].refs > 0 && bufs == s.uses[a.ctx].op.Attached()
    ensures Step(s, a).pool.WellFormed()
  {
    var p, c := s.pool, a.ctx;
    if a.ExtendSplice? || a.StartWait? {
      JoinKeepsLists(p, c);
      assert Step(s, a).pool == p.SetRefs(c, p.ctxs[c].refs + 1);
    } else {
      FinishKeepsLists(p, c, bufs);
      if a.ResumeWait? { HeldCounts(s, a.fiber, c); }
      assert Step(s, a).pool == p.Release(c) || Step(s, a).pool == p.Release(c).Attach(c, bufs);
    }
  }

  lemma StepKeepsCore(s: State, a: Action)
    requires Core(s) && Enabled(s, a) && BelowSentinel(s, a)
    requires a.Start? || (a.StartWait? && s.eventCtx.None?) ==> (a.ctx in s.pool.ctxs ==> s.pool.ctxs[a.ctx].refs == 0)
    ensures Core(Step(s, a))
  {
    match a {
      case Start(f, c, op, first) => SubmitsWhatItMay(op, first); BeginKeepsCore(s, f, c, op, op.Submits(first));
      case ExtendSplice(f, c, q) => JoinKeepsCore(s, a);
      case StartWait(f, c) =>
        if s.eventCtx.None? { BeginKeepsCore(s, f, c, Wait, multiset{[]}); } else { JoinKeepsCore(s, a); }
      case Complete(c, q, canceled) =>
        assert CtxOk(s.pool.ctxs[c], s.uses[c]);
        CompleteKeepsCore(s, c, q, canceled);
      case Resume(f, c, exception) => HeldCounts(s, f, c); AwaitKeepsCore(s, f, c, exception);
      case ResumeWait(f, c) => HeldCounts(s, f, c); WaitKeepsCore(s, f, c);
    }
  }

  /** Giving up: attached, or nothing to attach, or nothing promised. */
  lemma AwaitKeepsBuffers(s: State, f: Fiber, c: Ptr, exception: bool)
    requires Core(s) && BuffersOk(s, c) && Enabled(s, Resume(f, c, exception))
    ensures BuffersOk(FinishAwait(s, f, c, exception), c)
  {
    HeldCounts(s, f, c);
    var s', u := FinishAwait(s, f, c, exception), s.uses[c];
    assert |s'.uses[c].holders| == 0;
    assert u.pending != multiset{} ==> |u.pending| > 0;
    if u.op.KeepsBuffers(exception) { KeptIsCovered(u.op, u.pending, exception); }
  }

  lemma TouchesOne(s: State, a: Action, d: Ptr)
    requires Core(s) && Enabled(s, a) && d != a.ctx
    ensures var s' := Step(s, a);
      s'.Known(d) == s.Known(d) && (s.Known(d) ==> s'.pool.ctxs[d] == s.pool.ctxs[d] && s'.uses[d] == s.uses[d])
  {
    if a.ResumeWait? { HeldCounts(s, a.fiber, a.ctx); }
  }

  /** One completion less, or one fiber or SQE more. */
  lemma BufferedStays(ctx: Ctx, u: Use, ctx': Ctx, u': Use)
    requires Buffered(ctx, u) && ctx'.buffers == ctx.buffers && u'.op == u.op && u'.gaveUp == u.gaveUp
    requires
      || (u'.holders == u.holders && u'.pending <= u.pending)
      || (u.op.Wait? && u'.pending == u.pending && u.gaveUp.None?)
      || (u'.holders == u.holders != {} && forall q :: q in u'.pending ==> u.op.MaySubmit(q))
    ensures Buffered(ctx', u')
  {
    assert u'.pending <= u.pending ==> forall q :: q in u'.pending ==> q in u.pending;
  }

  lemma StartBuffered(s: State, a: Action)
    requires (a.Start? || (a.StartWait? && s.eventCtx.None?)) && Enabled(s, a)
    ensures BuffersOk(Step(s, a), a.ctx)
  {
    if a.Start? { SubmitsWhatItMay(a.op, a.first); }
  }

  lemma BuffersOkOf(s: State, a: Action)
    requires Core(s) && BuffersOk(s, a.ctx) && Enabled(s, a)
    ensures BuffersOk(Step(s, a), a.ctx)
  {
    if a.Start? || (a.StartWait? && s.eventCtx.None?) {
      StartBuffered(s, a);
    } else if a.Resume? {
      AwaitKeepsBuffers(s, a.fiber, a.ctx, a.exception);
    } else {
      LaterBuffered(s, a);
    }
  }

  lemma LaterBuffered(s: State, a: Action)
    requires Core(s) && BuffersOk(s, a.ctx) && Enabled(s, a)
    requires a.Complete? || a.ExtendSplice? || a.ResumeWait? || (a.StartWait? && s.eventCtx.Some?)
    ensures BuffersOk(Step(s, a), a.ctx)
  {
    var c, s' := a.ctx, Step(s, a);
    if a.ResumeWait? { HeldCounts(s, a.fiber, c); }
    assert a.StartWait? ==> s.uses[c].op.Wait?;
    BufferedStays(s.pool.ctxs[c], s.uses[c], s'.pool.ctxs[c], s'.uses[c]);
  }

  lemma StepKeepsBuffers(s: State, a: Action)
    requires Core(s) && (forall c :: BuffersOk(s, c)) && Enabled(s, a)
    ensures forall c :: BuffersOk(Step(s, a), c)
  {
    forall d ensures BuffersOk(Step(s, a), d) {
      assert BuffersOk(s, d);
      if d == a.ctx { BuffersOkOf(s, a); } else { TouchesOne(s, a, d); }
    }
  }

  lemma StepKeepsInv(s: State, a: Action)
    requires Inv(s) && Enabled(s, a) && BelowSentinel(s, a)
    ensures Inv(Step(s, a))
  {
    StepKeepsLists(s, a);
    StepKeepsCore(s, a);
    StepKeepsBuffers(s, a);
  }

  // ---------- runs and theorems ----------

  ghost predicate Init(s: State) {
    s.pool == Pool([], [], map[], 0) && s.uses == map[] && s.eventCtx == None && s.log == []
  }

  ghost predicate Next(s: State, a: Action, s': State) {
    Enabled(s, a) && BelowSentinel(s, a) && s' == Step(s, a)
  }

  ghost predicate IsRun(run: seq<State>, acts: seq<Action>) {
    |run| == |acts| + 1 && forall i :: 0 <= i < |acts| ==> Next(run[i], acts[i], run[i + 1])
  }

  lemma {:induction false} RunKeepsInv(run: seq<State>, acts: seq<Action>, n: nat)
    requires IsRun(run, acts) && Init(run[0]) && n < |run|
    ensures Inv(run[n])
  {
    if n > 0 {
      RunKeepsInv(run, acts, n - 1);
      assert Next(run[n - 1], acts[n - 1], run[n]);
      StepKeepsInv(run[n - 1], acts[n - 1]);
    }
  }

  /** In every run the reference count of a context is the number of completions the kernel
      still owes plus the number of fibers that still use it; the context is on the
      `available` list exactly when that sum is zero, and on `taken` otherwise. */
  lemma RefCountsAccount(run: seq<State>, acts: seq<Action>, n: nat, c: Ptr)
    requires IsRun(run, acts) && Init(run[0]) && n < |run| && c in run[n].pool.ctxs
    ensures var s := run[n];
      && c in s.uses
      && s.pool.ctxs[c].refs == |s.uses[c].pending| + |s.uses[c].holders|
      && (c in s.pool.available <==> s.uses[c].pending == multiset{} && s.uses[c].holders == {})
      && (c in s.pool.taken <==> c !in s.pool.available)
  {
    RunKeepsInv(run, acts, n);
    assert CtxOk(run[n].pool.ctxs[c], run[n].uses[c]);
    assert run[n].uses[c].holders == {} <==> |run[n].uses[c].holders| == 0;
  }

  /** A context is never handed out again while the kernel can still complete it or a fiber
      still uses it. */
  lemma NeverReusedInFlight(run: seq<State>, acts: seq<Action>, n: nat)
    requires IsRun(run, acts) && Init(run[0]) && n < |acts|
    requires acts[n].Start? || (acts[n].StartWait? && run[n].eventCtx.None?)
    ensures var s, c := run[n], acts[n].ctx;
      c in s.pool.ctxs ==> c in s.uses && s.uses[c].pending == multiset{} && s.uses[c].holders == {}
  {
    RunKeepsInv(run, acts, n);
    var s, c := run[n], acts[n].ctx;
    assert Next(s, acts[n], run[n + 1]);
    AcquireKeeps(s.pool, c);
    if c in s.pool.ctxs {
      assert CtxOk(s.pool.ctxs[c], s.uses[c]);
      assert |s.uses[c].holders| == 0;
    }
  }

  /** A single-SQE operation makes its fiber runnable through completion at most once, and
      never after the fiber has given the operation up. */
  lemma WokenAtMostOnce(run: seq<State>, acts: seq<Action>, n: nat, i: nat, j: nat)
    requires IsRun(run, acts) && Init(run[0]) && n < |run|
    requires i < |run[n].log| && j < |run[n].log| && run[n].log[j].Woken? && run[n].log[i].id == run[n].log[j].id
    ensures j <= i && (run[n].log[i].Woken? ==> i == j)
  {
    RunKeepsInv(run, acts, n);
  }

  /** The fiber of a single operation is woken by its completion, in every run: exactly when the
      operation was not cancelled and the fiber still waits for it. */
  lemma CompletionWakesIff(run: seq<State>, acts: seq<Action>, n: nat)
    requires IsRun(run, acts) && Init(run[0]) && n < |acts|
    requires acts[n].Complete? && run[n].Known(acts[n].ctx) && run[n].uses[acts[n].ctx].op.Single?
    ensures var s, c := run[n], acts[n].ctx;
      run[n + 1].log ==
        if !acts[n].canceled && s.uses[c].holders != {} then s.log + [Woken(s.pool.ctxs[c].id)] else s.log
  {
    RunKeepsInv(run, acts, n);
    var s, c := run[n], acts[n].ctx;
    assert Next(s, acts[n], run[n + 1]) && CtxOk(s.pool.ctxs[c], s.uses[c]);
    assert |s.uses[c].pending| == |s.uses[c].pending - multiset{acts[n].sqe}| + 1;
    assert s.uses[c].holders == {} <==> |s.uses[c].holders| == 0;
  }

  /** And it is given up exactly when its fiber comes back before the completion. */
  lemma ResumptionAbandonsIff(run: seq<State>, acts: seq<Action>, n: nat)
    requires IsRun(run, acts) && Init(run[0]) && n < |acts|
    requires acts[n].Resume? && run[n].Known(acts[n].ctx) && run[n].uses[acts[n].ctx].op.Single?
    ensures var s, c := run[n], acts[n].ctx;
      run[n + 1].log == if s.uses[c].pending != multiset{} then s.log + [Abandoned(s.pool.ctxs[c].id)] else s.log
  {
    RunKeepsInv(run, acts, n);
    var s, c := run[n], acts[n].ctx;
    assert Next(s, acts[n], run[n + 1]);
    HeldCounts(s, acts[n].fiber, c);
    assert s.uses[c].pending == multiset{} <==> |s.uses[c].pending| == 0;
  }

  /** Until its last completion, an operation its fiber gave up keeps every buffer the kernel
      may still touch reachable from the `taken` list, unless it is a splice that was given up
      by a plain value, or by an exception while an affix is callable. */
  lemma AbandonedBuffersStayReachable(run: seq<State>, acts: seq<Action>, n: nat, c: Ptr)
    requires IsRun(run, acts) && Init(run[0]) && n < |run| && run[n].Known(c)
    requires var u := run[n].uses[c]; u.pending != multiset{} && u.holders == {} && !u.op.Wait?
    ensures c in run[n].pool.taken && run[n].uses[c].gaveUp.Some?
    ensures run[n].uses[c].op.KeepsBuffers(run[n].uses[c].gaveUp.value) ==> Covered(run[n].pool.ctxs[c], run[n].uses[c])
  {
    RunKeepsInv(run, acts, n);
    assert CtxOk(run[n].pool.ctxs[c], run[n].uses[c]) && BuffersOk(run[n], c);
  }

  /** Operation `op` is started with `first` and given up before anything completes. */
  function StartedAndGivenUp(s: State, f: Fiber, c: Ptr, op: Op, first: Sqe, exception: bool): State
    requires Enabled(s, Start(f, c, op, first))
  {
    Step(Step(s, Start(f, c, op, first)), Resume(f, c, exception))
  }

  lemma GivenUpHolds(s: State, f: Fiber, c: Ptr, op: Op, first: Sqe, exception: bool)
    requires Enabled(s, Start(f, c, op, first)) && |op.Submits(first)| + 1 < MULTISHOT_REFCOUNT
    ensures var s' := StartedAndGivenUp(s, f, c, op, first, exception);
      && s'.Known(c) && s'.uses[c].pending == op.Submits(first)
      && s'.pool.ctxs[c].buffers == if exception || !op.Splice? then op.Attached() else []
  {
    SubmitsWhatItMay(op, first);
  }

  /** A string a callable affix returned is attached to nothing while the kernel reads it. */
  lemma CallableAffixIsLost(s: State, f: Fiber, c: Ptr, args: SpliceArgs, made: Buffer)
    requires s.pool.Next(c) && args.SomeCallable() && made !in args.Attached()
    ensures Enabled(s, Start(f, c, Splice(args), [made]))
    ensures var s' := StartedAndGivenUp(s, f, c, Splice(args), [made], true);
      s'.Known(c) && [made] in s'.uses[c].pending && made !in s'.pool.ctxs[c].buffers
  {
    GivenUpHolds(s, f, c, Splice(args), [made], true);
  }

  lemma FreshBuffer(bs: seq<Buffer>) returns (b: Buffer)
    ensures b !in bs && forall x :: x in bs ==> x < b
  {
    b := 0;
    for i := 0 to |bs|
      invariant forall j :: 0 <= j < i ==> bs[j] < b
    {
      if bs[i] >= b { b := bs[i] + 1; }
    }
  }

  /** Whatever an operation starts with, giving it up keeps the buffers exactly under the
      condition a caller can read off the arguments: it is no chunked splice; or it is given
      up by an exception and no affix is callable; or it writes no affix at all. */
  lemma BuffersKeptIff(s: State, f: Fiber, c: Ptr, op: Op, exception: bool)
    requires s.pool.Next(c) && !op.Wait?
    requires op.Chain? ==> |op.ops| + 1 < MULTISHOT_REFCOUNT
    ensures op.KeepsBuffers(exception) <==>
      forall q :: Enabled(s, Start(f, c, op, q)) ==>
        var s' := StartedAndGivenUp(s, f, c, op, q, exception); s'.Known(c) && Covered(s'.pool.ctxs[c], s'.uses[c])
  {
    if op.Chain? { ChainIsAttached(op.ops); }
    forall q | Enabled(s, Start(f, c, op, q))
      ensures var s' := StartedAndGivenUp(s, f, c, op, q, exception);
        s'.Known(c) && (op.KeepsBuffers(exception) ==> Covered(s'.pool.ctxs[c], s'.uses[c]))
    {
      GivenUpHolds(s, f, c, op, q, exception);
      SubmitsWhatItMay(op, q);
      if op.KeepsBuffers(exception) { KeptIsCovered(op, op.Submits(q), exception); }
    }
    if !op.KeepsBuffers(exception) {
      var q := LostSqe(op, exception);
      GivenUpHolds(s, f, c, op, q, exception);
      assert q in op.Submits(q) && q[0] in q;
    }
  }

  /** The SQEs an operation may have submitted refer to nothing but what it attaches. */
  lemma KeptIsCovered(op: Op, qs: multiset<Sqe>, exception: bool)
    requires op.KeepsBuffers(exception) && forall q :: q in qs ==> op.MaySubmit(q)
    ensures forall q, b :: q in qs && b in q ==> b in if exception || !op.Splice? then op.Attached() else []
  {
    if op.Chain? { ChainIsAttached(op.ops); }
  }

  lemma LostSqe(op: Op, exception: bool) returns (q: Sqe)
    requires !op.KeepsBuffers(exception)
    ensures op.args.Writes(q) && q != [] && q[0] !in if exception then op.Attached() else []
  {
    var made := FreshBuffer(op.Attached());
    var args := op.args;
    if args.SomeCallable() {
      q := [made];
    } else {
      q := if args.prefix.Some? then [args.prefix.value] else if args.postfix.Some? then [args.postfix.value]
           else args.chunkPrefix.Object() + args.chunkPostfix.Object();
      if args.chunkPrefix.Text? { q := [args.chunkPrefix.buffer]; }
    }
  }

  /** `Backend_wait_event` always finds in `event_fd_ctx` the context its fiber waits on,
      however many fibers came and went in between. */
  lemma WaitersShareOneContext(run: seq<State>, acts: seq<Action>, n: nat, f: Fiber, c: Ptr)
    requires IsRun(run, acts) && Init(run[0]) && n < |run|
    requires run[n].Holds(f, c) && run[n].uses[c].op.Wait?
    ensures run[n].eventCtx == Some(c)
  {
    RunKeepsInv(run, acts, n);
    HeldCounts(run[n], f, c);
  }

  /** The count of `c` is what the kernel owes plus who still uses it. */
  ghost predicate Accounted(s: State, c: Ptr) {
    s.Known(c) && s.pool.ctxs[c].refs == |s.uses[c].pending| + |s.uses[c].holders|
  }

  /** A release frees a context that has other references exactly at the sentinel, and lowers
      the count by one exactly otherwise. */
  lemma SentinelFreesTooEarlyIff(p: Pool, c: Ptr)
    requires p.WellFormed() && c in p.ctxs && p.ctxs[c].refs > 0
    ensures p.ctxs[c].refs > 1 && c in p.Release(c).available <==> p.ctxs[c].refs == MULTISHOT_REFCOUNT
    ensures p.Release(c).ctxs[c].refs == p.ctxs[c].refs - 1 <==> p.ctxs[c].refs != MULTISHOT_REFCOUNT
  {
    ReleaseKeeps(p, c);
  }

  /** So the account survives a completion, or a fiber that comes back, exactly below it. */
  lemma AccountSurvivesIff(s: State, a: Action)
    requires (a.Complete? || a.Resume? || a.ResumeWait?) && Enabled(s, a) && Accounted(s, a.ctx)
    requires a.ResumeWait? ==> s.eventCtx == Some(a.ctx)
    ensures Accounted(Step(s, a), a.ctx) <==> s.pool.ctxs[a.ctx].refs != MULTISHOT_REFCOUNT
  {
    var c, s' := a.ctx, Step(s, a);
    if a.Complete? {
      assert |s.uses[c].pending| == |s.uses[c].pending - multiset{a.sqe}| + 1;
    } else {
      assert |s.uses[c].holders| == |s.uses[c].holders - {a.fiber}| + 1;
      assert |s'.uses[c].pending| + |s'.uses[c].holders| == s.pool.ctxs[c].refs - 1;
    }
  }

  // ---------- a callable that raises ----------

  /** A callable chunk postfix raises while the write of the chunk prefix and the splice of the
      chunk are under way: the fiber leaves without releasing the context. */
  predicate CanUnwind(s: State, f: Fiber, c: Ptr) {
    s.Holds(f, c) && s.uses[c].op.Splice? && s.uses[c].op.args.chunkPostfix.Callable?
  }

  function Unwind(s: State, f: Fiber, c: Ptr): State
    requires CanUnwind(s, f, c)
  {
    s.(uses := s.uses[c := s.uses[c].(holders := s.uses[c].holders - {f})])
  }

  /** One reference that nobody will give back. */
  ghost predicate Leaked(s: State, c: Ptr) {
    s.Known(c) && s.pool.ctxs[c].refs == |s.uses[c].pending| + |s.uses[c].holders| + 1 < MULTISHOT_REFCOUNT
  }

  /** The context is leaked, and its buffers are covered exactly if no SQE refers to one. */
  lemma RaisingPostfixLeaks(s: State, f: Fiber, c: Ptr)
    requires Inv(s) && CanUnwind(s, f, c)
    ensures var s' := Unwind(s, f, c);
      && Leaked(s', c) && c in s'.pool.taken
      && (Covered(s'.pool.ctxs[c], s'.uses[c]) <==> forall q :: q in s.uses[c].pending ==> q == [])
  {
    HeldCounts(s, f, c);
    assert BuffersOk(s, c) && s.uses[c].gaveUp.None?;
    var s' := Unwind(s, f, c);
    if q :| q in s.uses[c].pending && q != [] { assert q[0] in q; }
  }

  /** No completion frees it: after the last one the count is still 1. */
  lemma LeakOutlivesCompletions(s: State, c: Ptr, q: Sqe, canceled: bool)
    requires Leaked(s, c) && Enabled(s, Complete(c, q, canceled))
    ensures Leaked(Step(s, Complete(c, q, canceled)), c)
    ensures c in s.pool.taken ==> c in Step(s, Complete(c, q, canceled)).pool.taken
  {
    assert |s.uses[c].pending| == |s.uses[c].pending - multiset{q}| + 1;
  }
}
