/** The context store: two doubly linked lists relinked in place. Nodes live at addresses in
    `memory`; address 0 is NULL. */
module ContextStore {
  import opened IoUring

  const NULL: Ptr := 0

  datatype Node = Node(prev: Ptr, next: Ptr, ctx: Ctx)

  type Memory = map<Ptr, Node>

  function SetPrev(m: Memory, p: Ptr, q: Ptr): Memory
    requires p in m
  {
    m[p := m[p].(prev := q)]
  }

  function SetNext(m: Memory, p: Ptr, q: Ptr): Memory
    requires p in m
  {
    m[p := m[p].(next := q)]
  }

  // ---------- lists in memory ----------

  ghost function At(s: seq<Ptr>, i: int): Ptr { if 0 <= i < |s| then s[i] else NULL }

  /** Node `i` of the list is in memory and linked to its neighbours. */
  ghost predicate NodeOk(m: Memory, s: seq<Ptr>, i: nat)
    requires i < |s|
  {
    s[i] != NULL && s[i] in m && m[s[i]].next == At(s, i + 1) && m[s[i]].prev == At(s, i - 1)
  }

  /** Following `next` from `head` visits exactly `s`, and `prev` goes back the same way. */
  ghost predicate Linked(m: Memory, head: Ptr, s: seq<Ptr>) {
    head == At(s, 0) && NoDups(s) && forall i :: 0 <= i < |s| ==> NodeOk(m, s, i)
  }

  /** Only the links of nodes on the list matter. */
  lemma LinkedFrame(m: Memory, m': Memory, head: Ptr, s: seq<Ptr>)
    requires Linked(m, head, s)
    requires forall p :: p in s && p in m ==> p in m' && m'[p].next == m[p].next && m'[p].prev == m[p].prev
    ensures Linked(m', head, s)
  {
    forall i | 0 <= i < |s| ensures NodeOk(m', s, i) {
      assert NodeOk(m, s, i) && s[i] in s;
    }
  }

  lemma OnList(m: Memory, head: Ptr, s: seq<Ptr>)
    requires Linked(m, head, s)
    ensures forall p :: p in s ==> p in m && p != NULL
    ensures forall i :: 0 <= i < |s| ==> At(s, i) != NULL
    ensures head == NULL <==> s == []
  {
    forall i | 0 <= i < |s| ensures s[i] in m && s[i] != NULL { assert NodeOk(m, s, i); }
  }

  /** Detaching the first node. */
  function DropFirst(m: Memory, next: Ptr): Memory { if next != NULL && next in m then SetPrev(m, next, NULL) else m }

  lemma DropFirstLinks(m: Memory, s: seq<Ptr>)
    requires s != [] && Linked(m, s[0], s)
    ensures s[0] in m
    ensures var n := m[s[0]].next; Linked(DropFirst(m, n), n, s[1..]) && s[0] !in s[1..]
  {
    assert NodeOk(m, s, 0);
    var n, t := m[s[0]].next, s[1..];
    assert n == At(t, 0);
    forall i | 0 <= i < |t| ensures NodeOk(DropFirst(m, n), t, i) && t[i] != s[0] {
      assert NodeOk(m, s, i + 1);
    }
  }

  /** Putting `c` before the list at `head`. */
  function PutFirst(m: Memory, head: Ptr, c: Ptr, x: Ctx): Memory {
    var m1 := m[c := Node(NULL, head, x)];
    if head != NULL && head in m1 then SetPrev(m1, head, c) else m1
  }

  lemma PutFirstLinks(m: Memory, head: Ptr, s: seq<Ptr>, c: Ptr, x: Ctx)
    requires Linked(m, head, s) && c != NULL && c !in s
    ensures Linked(PutFirst(m, head, c, x), c, [c] + s)
  {
    var m', t := PutFirst(m, head, c, x), [c] + s;
    assert s != [] ==> NodeOk(m, s, 0);
    forall i | 0 <= i < |t| ensures NodeOk(m', t, i) {
      if i > 0 { assert NodeOk(m, s, i - 1) && s[i - 1] in s; }
    }
  }

  /** Taking `c` out of the middle: its neighbours point past it. */
  function Bypass(m: Memory, c: Ptr): Memory
    requires c in m
  {
    var m1 := if m[c].next != NULL && m[c].next in m then SetPrev(m, m[c].next, m[c].prev) else m;
    if m[c].prev != NULL && m[c].prev in m1 then SetNext(m1, m[c].prev, m[c].next) else m1
  }

  /** The links of a remaining node after the bypass of node `i`. */
  lemma BypassAt(m: Memory, head: Ptr, s: seq<Ptr>, i: nat, k: nat)
    requires Linked(m, head, s) && i < |s| && k < |s| && k != i
    ensures s[i] in m
    ensures var m' := Bypass(m, s[i]);
      && s[k] in m' && s[k] != s[i]
      && m'[s[k]].next == (if k + 1 == i then At(s, i + 1) else At(s, k + 1))
      && m'[s[k]].prev == (if k == i + 1 then At(s, i - 1) else At(s, k - 1))
  {
    var c := s[i];
    assert NodeOk(m, s, i) && NodeOk(m, s, k);
    assert i + 1 < |s| ==> NodeOk(m, s, i + 1);
    assert i > 0 ==> NodeOk(m, s, i - 1);
    assert s[k] == m[c].next <==> k == i + 1;
    assert s[k] == m[c].prev <==> k + 1 == i;
  }

  lemma BypassLinks(m: Memory, head: Ptr, s: seq<Ptr>, i: nat)
    requires Linked(m, head, s) && i < |s|
    ensures s[i] in m
    ensures var c := s[i];
            Linked(Bypass(m, c), if head == c then m[c].next else head, s[..i] + s[i + 1..])
  {
    var c, t := s[i], s[..i] + s[i + 1..];
    assert NodeOk(m, s, i);
    var m' := Bypass(m, c);
    assert head == c <==> i == 0;
    forall j | 0 <= j < |t| ensures NodeOk(m', t, j) {
      var k := if j < i then j else j + 1;
      assert NodeOk(m, s, k);
      BypassAt(m, head, s, i, k);
    }
    SpliceNoDups(s, i);
  }

  lemma SpliceNoDups(s: seq<Ptr>, i: nat)
    requires NoDups(s) && i < |s|
    ensures NoDups(s[..i] + s[i + 1..]) && s[i] !in s[..i] + s[i + 1..]
  {
  }

  lemma {:induction false} WithoutIsSplice(s: seq<Ptr>, i: nat)
    requires NoDups(s) && i < |s|
    ensures Without(s, s[i]) == s[..i] + s[i + 1..]
  {
    if i > 0 {
      assert s[0] != s[i];
      assert s[1..][i - 1] == s[i];
      WithoutIsSplice(s[1..], i - 1);
    }
  }

  // ---------- both lists at once ----------

  function Ctxs(m: Memory): map<Ptr, Ctx> { map p | p in m :: m[p].ctx }

  ghost predicate TwoLists(m: Memory, a: Ptr, as_: seq<Ptr>, t: Ptr, ts: seq<Ptr>) {
    Linked(m, a, as_) && Linked(m, t, ts) && forall p :: p in as_ ==> p !in ts
  }

  lemma PopAvailable(m: Memory, a: Ptr, as_: seq<Ptr>, t: Ptr, ts: seq<Ptr>)
    requires TwoLists(m, a, as_, t, ts) && a != NULL
    ensures as_ != [] && a == as_[0] && a in m
    ensures var m' := DropFirst(m, m[a].next);
      && TwoLists(m', m[a].next, as_[1..], t, ts) && Ctxs(m') == Ctxs(m)
      && a !in as_[1..] && a !in ts
  {
    DropFirstLinks(m, as_);
    assert NodeOk(m, as_, 0);
    var n := m[a].next;
    assert as_ == [a] + as_[1..];
    assert n != NULL ==> n == as_[1] && n in as_;
    assert a in as_;
    LinkedFrame(m, DropFirst(m, n), t, ts);
  }

  lemma PushTaken(m: Memory, a: Ptr, as_: seq<Ptr>, t: Ptr, ts: seq<Ptr>, c: Ptr, x: Ctx)
    requires TwoLists(m, a, as_, t, ts) && c != NULL && c !in as_ && c !in ts
    ensures var m' := PutFirst(m, t, c, x);
      TwoLists(m', a, as_, c, [c] + ts) && Ctxs(m') == Ctxs(m)[c := x]
  {
    PutFirstLinks(m, t, ts, c, x);
    assert t != NULL ==> t in ts;
    LinkedFrame(m, PutFirst(m, t, c, x), a, as_);
  }

  lemma MoveOver(m: Memory, a: Ptr, as_: seq<Ptr>, t: Ptr, ts: seq<Ptr>, i: nat)
    requires TwoLists(m, a, as_, t, ts) && i < |ts|
    ensures var c := ts[i];
      && c in m
      && var m1 := Bypass(m, c);
      var m' := PutFirst(m1, a, c, m[c].ctx);
      && TwoLists(m', c, [c] + as_, if t == c then m[c].next else t, Without(ts, c))
      && Ctxs(m') == Ctxs(m) && |Without(ts, c)| == |ts| - 1
  {
    var c := ts[i];
    assert c in ts;
    BypassLinks(m, t, ts, i);
    WithoutIsSplice(ts, i);
    WithoutEffect(ts, c);
    var m1, rest := Bypass(m, c), Without(ts, c);
    assert NodeOk(m, ts, i);
    assert At(ts, i + 1) != NULL ==> At(ts, i + 1) in ts;
    assert At(ts, i - 1) != NULL ==> At(ts, i - 1) in ts;
    LinkedFrame(m, m1, a, as_);
    assert Ctxs(m1) == Ctxs(m);
    assert TwoLists(m1, if t == c then m[c].next else t, rest, a, as_);
    PushTaken(m1, if t == c then m[c].next else t, rest, a, as_, c, m[c].ctx);
  }

  // ---------- the store ----------

  /** The buffers of the contexts on a list, in order. */
  function AllBuffers(p: Pool, s: seq<Ptr>): seq<Buffer> {
    if s == [] then [] else (if s[0] in p.ctxs then p.ctxs[s[0]].buffers else []) + AllBuffers(p, s[1..])
  }

  class ContextStore {
    var memory: Memory
    var available: Ptr
    var taken: Ptr
    var availableCount: int
    var takenCount: int
    var lastId: nat
    ghost var availableList: seq<Ptr>
    ghost var takenList: seq<Ptr>

    ghost predicate Valid()
      reads this
    {
      && TwoLists(memory, available, availableList, taken, takenList)
      && availableCount == |availableList| && takenCount == |takenList|
    }

    ghost function Model(): Pool
      reads this
    {
      Pool(availableList, takenList, Ctxs(memory), lastId)
    }

    constructor ()
      ensures Valid() && Model() == Pool([], [], map[], 0)
    {
      memory, available, taken, availableCount, takenCount, lastId := map[], NULL, NULL, 0, 0, 0;
      availableList, takenList := [], [];
    }

    /** `mallocked` is what `malloc` returns if the `available` list is empty. */
    method Acquire(mallocked: Ptr) returns (ctx: Ptr)
      requires Valid() && mallocked != NULL && mallocked !in memory
      modifies this
      ensures Valid() && old(Model()).Next(ctx) && Model() == old(Model()).Acquire(ctx)
    {
      OnList(memory, available, availableList);
      OnList(memory, taken, takenList);
      if available != NULL {
        ctx := available;
        PopAvailable(memory, available, availableList, taken, takenList);
        available := memory[ctx].next;
        memory := DropFirst(memory, available);
        availableCount := availableCount - 1;
        availableList := availableList[1..];
      } else {
        ctx := mallocked;
      }
      lastId := lastId + 1;
      PushTaken(memory, available, availableList, taken, takenList, ctx, Ctx(2, lastId, []));
      memory := PutFirst(memory, taken, ctx, Ctx(2, lastId, []));
      taken := ctx;
      takenCount := takenCount + 1;
      takenList := [ctx] + takenList;
    }

    method SetRefCount(ctx: Ptr, n: nat)
      requires Valid() && ctx in memory
      modifies this`memory
      ensures Valid() && Model() == old(Model()).SetRefs(ctx, n)
    {
      var m := memory[ctx := memory[ctx].(ctx := memory[ctx].ctx.(refs := n))];
      LinkedFrame(memory, m, available, availableList);
      LinkedFrame(memory, m, taken, takenList);
      memory := m;
    }

    /** Returns whether the context went back to the `available` list. */
    method Release(ctx: Ptr) returns (released: bool)
      requires Valid() && ctx in takenList && ctx in memory && memory[ctx].ctx.refs > 0
      modifies this
      ensures Valid() && Model() == old(Model()).Release(ctx)
      ensures released == (old(Model()).Lowered(ctx) == 0)
    {
      var refs := memory[ctx].ctx.refs;
      if refs == MULTISHOT_REFCOUNT {
        refs := 1;
      }
      SetRefCount(ctx, refs - 1);
      if refs - 1 != 0 {
        return false;
      }
      Free(ctx);
      return true;
    }

    /** The end of `context_store_release`: from `taken` to `available`. */
    method Free(ctx: Ptr)
      requires Valid() && ctx in takenList
      modifies this
      ensures Valid() && lastId == old(lastId)
      ensures Model() == old(Model()).(available := [ctx] + old(availableList), taken := Without(old(takenList), ctx))
    {
      takenCount, availableCount := takenCount - 1, availableCount + 1;
      ghost var i :| 0 <= i < |takenList| && takenList[i] == ctx;
      MoveOver(memory, available, availableList, taken, takenList, i);
      var node := memory[ctx];
      memory := PutFirst(Bypass(memory, ctx), available, ctx, node.ctx);
      if taken == ctx {
        taken := node.next;
      }
      available := ctx;
      availableList, takenList := [ctx] + availableList, Without(takenList, ctx);
    }

    /** `context_attach_buffers`, called after a release that did not free the context. */
    method AttachBuffers(ctx: Ptr, bufs: seq<Buffer>)
      requires Valid() && ctx in memory
      modifies this`memory
      ensures Valid() && Model() == old(Model()).Attach(ctx, bufs)
    {
      var m := memory[ctx := memory[ctx].(ctx := memory[ctx].ctx.(buffers := bufs))];
      LinkedFrame(memory, m, available, availableList);
      LinkedFrame(memory, m, taken, takenList);
      memory := m;
    }

    /** `context_store_mark_taken_buffers`: the garbage collector is shown every buffer
        attached to a taken context, and nothing else. */
    method MarkTakenBuffers() returns (marked: seq<Buffer>)
      requires Valid()
      ensures marked == AllBuffers(Model(), takenList)
    {
      OnList(memory, taken, takenList);
      marked := [];
      var ctx := taken;
      ghost var i, model := 0, Model();
      assert takenList[0..] == takenList;
      while ctx != NULL
        invariant i <= |takenList| && ctx == At(takenList, i)
        invariant marked + AllBuffers(model, takenList[i..]) == AllBuffers(model, takenList)
        decreases |takenList| - i
      {
        assert NodeOk(memory, takenList, i);
        BuffersFrom(model, takenList, i, marked);
        marked := marked + memory[ctx].ctx.buffers;
        ctx := memory[ctx].next;
        i := i + 1;
      }
    }
  }

  lemma BuffersFrom(p: Pool, s: seq<Ptr>, i: nat, before: seq<Buffer>)
    requires i < |s| && s[i] in p.ctxs
    ensures before + AllBuffers(p, s[i..]) == before + p.ctxs[s[i]].buffers + AllBuffers(p, s[i + 1..])
  {
    assert s[i..][1..] == s[i + 1..];
  }

  /** Whatever is attached to a taken context is found by the garbage collector. */
  lemma {:induction false} AttachedIsMarked(p: Pool, s: seq<Ptr>, c: Ptr, b: Buffer)
    requires c in s && c in p.ctxs && b in p.ctxs[c].buffers
    ensures b in AllBuffers(p, s)
  {
    if s[0] != c {
      AttachedIsMarked(p, s[1..], c, b);
    }
  }
}
