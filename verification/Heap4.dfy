/** The 4-ary heap libev keeps timers and periodics in: an array of (cached key, watcher)
    entries whose first element has index `HEAP0`, with every watcher's `active` field
    holding its index. */
module Heap4 {

  type Watcher = nat

  const DHEAP: nat := 4
  const HEAP0: nat := DHEAP - 1

  datatype Anhe = Anhe(at: real, w: Watcher)

  /** `HPARENT`. Division truncates in C, so the root is its own parent. */
  function Parent(k: nat): (p: nat)
    requires HEAP0 <= k
    ensures HEAP0 <= p <= k && (k > HEAP0 ==> p < k)
  {
    if k == HEAP0 then HEAP0 else (k - HEAP0 - 1) / DHEAP + HEAP0
  }

  /** Index of the first child. */
  function Child(k: nat): nat
    requires HEAP0 <= k
  {
    DHEAP * (k - HEAP0) + HEAP0 + 1
  }

  lemma ChildrenOf(k: nat, i: nat)
    requires HEAP0 <= k && HEAP0 < i
    ensures Parent(i) == k <==> Child(k) <= i < Child(k) + DHEAP
  {
  }

  // ---------- what a heap is ----------

  type Heap = seq<Anhe>
  type Active = map<Watcher, nat>

  ghost predicate EntryOk(h: Heap, act: Active, i: nat)
    requires i < |h|
  {
    h[i].w in act && act[h[i].w] == i
  }

  ghost predicate ActiveOk(h: Heap, n: nat, act: Active, w: Watcher) {
    w in act && act[w] != 0 ==> HEAP0 <= act[w] < HEAP0 + n <= |h| && h[act[w]].w == w
  }

  /** The first `n` entries and the `active` fields point at each other. */
  ghost predicate Indexed(h: Heap, n: nat, act: Active) {
    && |h| >= HEAP0 + n
    && (forall i :: HEAP0 <= i < HEAP0 + n ==> EntryOk(h, act, i))
    && (forall w :: ActiveOk(h, n, act, w))
  }

  ghost predicate LinkOk(h: Heap, i: nat)
    requires HEAP0 <= i < |h|
  {
    h[Parent(i)].at <= h[i].at
  }

  /** The heap condition on the first `n` entries. */
  ghost predicate Ordered(h: Heap, n: nat) {
    |h| >= HEAP0 + n && forall i :: HEAP0 < i < HEAP0 + n ==> LinkOk(h, i)
  }

  /** The watcher runs or not as before, and with the same entry, wherever that is now. */
  ghost predicate SameEntry(h: Heap, act: Active, h': Heap, act': Active, w: Watcher) {
    && (w in act <==> w in act')
    && (w in act ==> (act[w] == 0 <==> act'[w] == 0))
    && (w in act && act[w] != 0 && act[w] < |h| && act'[w] < |h'| ==> h'[act'[w]] == h[act[w]])
  }

  ghost predicate SameEntries(h: Heap, act: Active, h': Heap, act': Active) {
    act.Keys == act'.Keys && forall w :: SameEntry(h, act, h', act', w)
  }

  /** The heap condition except between `k` and its parent or children; its grandparents
      and grandchildren are still in order through it. */
  ghost predicate OrderedExcept(h: Heap, n: nat, k: nat, up: bool, down: bool)
    requires HEAP0 <= k < HEAP0 + n <= |h|
  {
    && (forall i :: HEAP0 < i < HEAP0 + n && (i != k || !up) && (Parent(i) != k || !down) ==> LinkOk(h, i))
    && (k > HEAP0 ==> forall i :: HEAP0 < i < HEAP0 + n && Parent(i) == k ==> h[Parent(k)].at <= h[i].at)
  }

  // ---------- moving one entry ----------

  /** Exchange two positions. */
  function Swapped(h: Heap, i: nat, j: nat): Heap
    requires i < |h| && j < |h|
  {
    h[i := h[j]][j := h[i]]
  }

  function SwappedActive(h: Heap, act: Active, i: nat, j: nat): Active
    requires i < |h| && j < |h|
  {
    act[h[i].w := j][h[j].w := i]
  }

  lemma SwapKeeps(h: Heap, n: nat, act: Active, i: nat, j: nat)
    requires Indexed(h, n, act) && HEAP0 <= i < HEAP0 + n && HEAP0 <= j < HEAP0 + n && i != j
    ensures Indexed(Swapped(h, i, j), n, SwappedActive(h, act, i, j))
    ensures SameEntries(h, act, Swapped(h, i, j), SwappedActive(h, act, i, j))
  {
    var h', act' := Swapped(h, i, j), SwappedActive(h, act, i, j);
    assert EntryOk(h, act, i) && EntryOk(h, act, j);
    forall w ensures ActiveOk(h', n, act', w) && SameEntry(h, act, h', act', w) { assert ActiveOk(h, n, act, w); }
    forall k | HEAP0 <= k < HEAP0 + n ensures EntryOk(h', act', k) { assert EntryOk(h, act, k); }
  }

  lemma SameEntriesTrans(h0: Heap, a0: Active, h1: Heap, a1: Active, h2: Heap, a2: Active, n: nat)
    requires Indexed(h0, n, a0) && Indexed(h1, n, a1) && Indexed(h2, n, a2)
    requires SameEntries(h0, a0, h1, a1) && SameEntries(h1, a1, h2, a2)
    ensures SameEntries(h0, a0, h2, a2)
  {
    forall w ensures SameEntry(h0, a0, h2, a2, w) {
      assert SameEntry(h0, a0, h1, a1, w) && SameEntry(h1, a1, h2, a2, w) && ActiveOk(h1, n, a1, w);
    }
  }

  /** Another exchange on the way from `h0` to where the entry belongs. */
  lemma SwapOnWay(h0: Heap, act0: Active, h: Heap, act: Active, n: nat, i: nat, j: nat)
    requires Indexed(h0, n, act0) && Indexed(h, n, act) && SameEntries(h0, act0, h, act)
    requires HEAP0 <= i < HEAP0 + n && HEAP0 <= j < HEAP0 + n && i != j
    ensures var h', act' := Swapped(h, i, j), SwappedActive(h, act, i, j);
      Indexed(h', n, act') && SameEntries(h0, act0, h', act')
  {
    SwapKeeps(h, n, act, i, j);
    SameEntriesTrans(h0, act0, h, act, Swapped(h, i, j), SwappedActive(h, act, i, j), n);
  }

  /** Filling the hole at `k` from `p` and putting `he` at `p` is an exchange. */
  lemma HoleMove(h: Heap, act: Active, he: Anhe, k: nat, p: nat)
    requires k < |h| && p < |h| && k != p && h[p].w != he.w
    ensures h[k := h[p]][p := he] == Swapped(h[k := he], k, p)
    ensures act[h[p].w := k][he.w := p] == SwappedActive(h[k := he], act[he.w := k], k, p)
  {
  }

  /** Exchanging `k` with a larger parent moves the defect up. */
  lemma SwapUp(h: Heap, n: nat, k: nat)
    requires HEAP0 < k < HEAP0 + n <= |h| && OrderedExcept(h, n, k, true, false)
    requires h[Parent(k)].at > h[k].at
    ensures OrderedExcept(Swapped(h, k, Parent(k)), n, Parent(k), true, false)
  {
    var p := Parent(k);
    var h' := Swapped(h, k, p);
    forall i | HEAP0 < i < HEAP0 + n && i != p ensures LinkOk(h', i) {
      if i != k { assert LinkOk(h, i); }
      if p > HEAP0 { assert LinkOk(h, p); }
    }
    if p > HEAP0 {
      forall i | HEAP0 < i < HEAP0 + n && Parent(i) == p ensures h'[Parent(p)].at <= h'[i].at {
        assert LinkOk(h, p);
        if i != k { assert LinkOk(h, i); }
      }
    }
  }

  /** Exchanging `k` with its smallest child moves the defect down. */
  lemma SwapDown(h: Heap, n: nat, k: nat, c: nat)
    requires HEAP0 <= k < c < HEAP0 + n <= |h| && OrderedExcept(h, n, k, false, true) && Parent(c) == k
    requires forall i :: HEAP0 < i < HEAP0 + n && Parent(i) == k ==> h[c].at <= h[i].at
    requires h[c].at < h[k].at
    ensures OrderedExcept(Swapped(h, k, c), n, c, false, true)
  {
    var h' := Swapped(h, k, c);
    forall i | HEAP0 < i < HEAP0 + n && Parent(i) != c ensures LinkOk(h', i) {
      if Parent(i) != k { assert LinkOk(h, i); }
    }
    forall i | HEAP0 < i < HEAP0 + n && Parent(i) == c ensures h'[Parent(c)].at <= h'[i].at {
      assert LinkOk(h, i);
    }
  }

  // ---------- the loops ----------

  /** `upheap`: towards the root. `m` entries are in heap order but for entry `k`; the
      entries behind them are not touched. */
  method Upheap(h0: Heap, act0: Active, ghost n: nat, ghost m: nat, k0: nat) returns (h: Heap, act: Active)
    requires Indexed(h0, n, act0) && m <= n && HEAP0 <= k0 < HEAP0 + m
    requires OrderedExcept(h0, m, k0, true, false)
    ensures Indexed(h, n, act) && SameEntries(h0, act0, h, act) && Ordered(h, m)
    ensures |h| == |h0| && forall i :: HEAP0 + m <= i < |h0| ==> h[i] == h0[i]
  {
    var he, k := h0[k0], k0;
    h, act := h0, act0;
    ghost var hk, ak := h0, act0;
    assert EntryOk(h0, act0, k0);
    assert h0[k0 := he] == h0 && act0[he.w := k0] == act0;
    forall w ensures SameEntry(h0, act0, h0, act0, w) {}
    while true
      invariant HEAP0 <= k < HEAP0 + m && |h| == |h0| && hk == h[k := he] && ak == act[he.w := k]
      invariant Indexed(hk, n, ak) && SameEntries(h0, act0, hk, ak)
      invariant OrderedExcept(hk, m, k, true, false)
      invariant forall i :: HEAP0 + m <= i < |h0| ==> hk[i] == h0[i]
      decreases k
    {
      var p := Parent(k);
      if p == k || h[p].at <= he.at {
        UpDone(hk, m, k);
        break;
      }
      assert EntryOk(hk, ak, p) && EntryOk(hk, ak, k);
      HoleMove(h, act, he, k, p);
      SwapOnWay(h0, act0, hk, ak, n, k, p);
      SwapUp(hk, m, k);
      hk, ak := Swapped(hk, k, p), SwappedActive(hk, ak, k, p);
      h := h[k := h[p]];
      act := act[h[k].w := k];
      k := p;
    }
    h := h[k := he];
    act := act[he.w := k];
  }

  lemma UpDone(h: Heap, m: nat, k: nat)
    requires HEAP0 <= k < HEAP0 + m <= |h| && OrderedExcept(h, m, k, true, false)
    requires k == HEAP0 || h[Parent(k)].at <= h[k].at
    ensures Ordered(h, m)
  {
    forall i | HEAP0 < i < HEAP0 + m ensures LinkOk(h, i) {}
  }

  /** The smallest of the children at `pos..pos + 4` that lie before `end`, found by the
      unrolled comparisons of the source; `pos` itself if there is none. */
  method MinChild(h: Heap, pos: nat, end: nat) returns (minpos: nat)
    requires pos < end <= |h|
    ensures pos <= minpos < pos + DHEAP && minpos < end
    ensures forall i :: pos <= i < pos + DHEAP && i < end ==> h[minpos].at <= h[i].at
  {
    minpos := pos;
    if pos + DHEAP - 1 < end {
      if h[pos + 1].at < h[minpos].at { minpos := pos + 1; }
      if h[pos + 2].at < h[minpos].at { minpos := pos + 2; }
      if h[pos + 3].at < h[minpos].at { minpos := pos + 3; }
    } else {
      if pos + 1 < end && h[pos + 1].at < h[minpos].at { minpos := pos + 1; }
      if pos + 2 < end && h[pos + 2].at < h[minpos].at { minpos := pos + 2; }
      // the source's last comparison, of the fourth child, can never apply here
    }
  }

  /** `downheap`: away from the root. */
  method Downheap(h0: Heap, act0: Active, n: nat, k0: nat) returns (h: Heap, act: Active)
    requires Indexed(h0, n, act0) && HEAP0 <= k0 < HEAP0 + n
    requires OrderedExcept(h0, n, k0, false, true)
    ensures Indexed(h, n, act) && SameEntries(h0, act0, h, act) && Ordered(h, n)
    ensures |h| == |h0|
  {
    var he, k := h0[k0], k0;
    h, act := h0, act0;
    ghost var hk, ak := h0, act0;
    assert EntryOk(h0, act0, k0);
    assert h0[k0 := he] == h0 && act0[he.w := k0] == act0;
    forall w ensures SameEntry(h0, act0, h0, act0, w) {}
    while true
      invariant HEAP0 <= k < HEAP0 + n && |h| == |h0| && hk == h[k := he] && ak == act[he.w := k]
      invariant Indexed(hk, n, ak) && SameEntries(h0, act0, hk, ak)
      invariant OrderedExcept(hk, n, k, false, true)
      decreases HEAP0 + n - k
    {
      var pos := Child(k);
      if pos >= n + HEAP0 {
        LeafDone(hk, n, k);
        break;
      }
      var minpos := MinChild(h, pos, n + HEAP0);
      ChildMinimal(hk, n, k, minpos);
      if he.at <= h[minpos].at {
        BranchDone(hk, n, k, minpos);
        break;
      }
      assert EntryOk(hk, ak, minpos) && EntryOk(hk, ak, k);
      HoleMove(h, act, he, k, minpos);
      SwapOnWay(h0, act0, hk, ak, n, k, minpos);
      SwapDown(hk, n, k, minpos);
      hk, ak := Swapped(hk, k, minpos), SwappedActive(hk, ak, k, minpos);
      h := h[k := h[minpos]];
      act := act[h[k].w := k];
      k := minpos;
    }
    h := h[k := he];
    act := act[he.w := k];
  }

  lemma LeafDone(h: Heap, n: nat, k: nat)
    requires HEAP0 <= k < HEAP0 + n <= |h| && Child(k) >= n + HEAP0 && OrderedExcept(h, n, k, false, true)
    ensures Ordered(h, n)
  {
    forall i | HEAP0 < i < HEAP0 + n ensures LinkOk(h, i) { ChildrenOf(k, i); }
  }

  lemma ChildMinimal(h: Heap, n: nat, k: nat, c: nat)
    requires HEAP0 <= k < HEAP0 + n <= |h| && Child(k) <= c < Child(k) + DHEAP && c < HEAP0 + n
    requires forall i :: Child(k) <= i < Child(k) + DHEAP && i < HEAP0 + n ==> h[c].at <= h[i].at
    ensures Parent(c) == k && k < c
    ensures forall i :: HEAP0 < i < HEAP0 + n && Parent(i) == k ==> h[c].at <= h[i].at
  {
    ChildrenOf(k, c);
    forall i | HEAP0 < i < HEAP0 + n && Parent(i) == k ensures h[c].at <= h[i].at { ChildrenOf(k, i); }
  }

  lemma BranchDone(h: Heap, n: nat, k: nat, c: nat)
    requires HEAP0 <= k < HEAP0 + n <= |h| && c < |h| && OrderedExcept(h, n, k, false, true)
    requires forall i :: HEAP0 < i < HEAP0 + n && Parent(i) == k ==> h[c].at <= h[i].at
    requires h[k].at <= h[c].at
    ensures Ordered(h, n)
  {
    forall i | HEAP0 < i < HEAP0 + n ensures LinkOk(h, i) {}
  }

  /** `adjustheap`: entry `k` may be out of place in either direction. */
  method Adjustheap(h0: Heap, act0: Active, n: nat, k: nat) returns (h: Heap, act: Active)
    requires Indexed(h0, n, act0) && HEAP0 <= k < HEAP0 + n
    requires OrderedExcept(h0, n, k, true, true)
    ensures Indexed(h, n, act) && SameEntries(h0, act0, h, act) && Ordered(h, n)
    ensures |h| == |h0|
  {
    if k > HEAP0 && h0[k].at <= h0[Parent(k)].at {
      h, act := Upheap(h0, act0, n, n, k);
    } else {
      assert k > HEAP0 ==> LinkOk(h0, k);
      h, act := Downheap(h0, act0, n, k);
    }
  }

  /** `reheap`: from arbitrary keys to a heap. */
  method Reheap(h0: Heap, act0: Active, n: nat) returns (h: Heap, act: Active)
    requires Indexed(h0, n, act0)
    ensures Indexed(h, n, act) && SameEntries(h0, act0, h, act) && Ordered(h, n)
  {
    h, act := h0, act0;
    forall w ensures SameEntry(h0, act0, h0, act0, w) {}
    for i := 0 to n
      invariant Indexed(h, n, act) && SameEntries(h0, act0, h, act) && Ordered(h, i)
    {
      ghost var h1, a1 := h, act;
      NewLeaf(h, i);
      h, act := Upheap(h, act, n, i + 1, i + HEAP0);
      SameEntriesTrans(h0, act0, h1, a1, h, act, n);
    }
  }

  /** An entry just appended to a heap has no children in it. */
  lemma NewLeaf(h: Heap, m: nat)
    requires Ordered(h, m) && HEAP0 + m < |h|
    ensures OrderedExcept(h, m + 1, HEAP0 + m, true, false)
  {
    forall i | HEAP0 < i < HEAP0 + m + 1 ensures Parent(i) != HEAP0 + m {}
  }

  /** The root of a heap holds a smallest key. */
  lemma {:induction false} RootIsMinimal(h: Heap, n: nat, i: nat)
    requires Ordered(h, n) && HEAP0 <= i < HEAP0 + n
    ensures h[HEAP0].at <= h[i].at
    decreases i
  {
    if i > HEAP0 {
      assert LinkOk(h, i);
      RootIsMinimal(h, n, Parent(i));
    }
  }
}
