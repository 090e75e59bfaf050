/** The two ring buffers of the runtime (`ring_buffer.c` holds values,
    `runqueue_ring_buffer.c` holds run-queue entries). They are the same structure,
    so one class, generic in the entry type, stands for both. */
module RingBuffers {
  import opened Options

  // ---------- unsigned arithmetic ----------

  const UINT_RANGE: nat := 0x1_0000_0000

  /** `x - 1` on a 32-bit unsigned int. */
  function Pred32(x: nat): (r: nat)
    requires x < UINT_RANGE
  {
    (x - 1) % UINT_RANGE
  }

  function Exp2(k: nat): (r: nat)
    ensures r > 0
  {
    if k == 0 then 1 else 2 * Exp2(k - 1)
  }

  ghost predicate PowerOfTwo(n: nat) { exists k: nat :: n == Exp2(k) }

  lemma {:induction false} Exp2Adds(j: nat, k: nat)
    ensures Exp2(j + k) == Exp2(j) * Exp2(k)
  {
    if j > 0 {
      Exp2Adds(j - 1, k);
      assert 2 * (Exp2(j - 1) * Exp2(k)) == (2 * Exp2(j - 1)) * Exp2(k);
    }
  }

  lemma Exp2Of32()
    ensures Exp2(31) == UINT_RANGE / 2 && Exp2(32) == UINT_RANGE
  {
    Exp2Adds(8, 8);
    Exp2Adds(16, 16);
    assert Exp2(8) == 256;
  }

  /** Among powers of two the smaller divides the larger. */
  lemma PowersDivide(n: nat, m: nat) returns (q: nat)
    requires PowerOfTwo(n) && PowerOfTwo(m) && n <= m
    ensures PowerOfTwo(q) && m == n * q
  {
    var j: nat :| n == Exp2(j);
    var k: nat :| m == Exp2(k);
    Exp2Below(j, k);
    Exp2Adds(j, k - j);
    q := Exp2(k - j);
  }

  /** Where position `x` of an unrolled ring lands, for `x` at most one lap ahead. */
  function Wrap(x: nat, size: nat): (r: nat)
    requires 0 < size && x < 2 * size
    ensures r < size
  {
    if x < size then x else x - size
  }

  lemma MultipleIsFar(n: int, d: int)
    requires 0 <= n
    ensures d >= 1 ==> n * d >= n
    ensures d <= -1 ==> n * d <= -n
  {
    if d >= 1 {
      assert n * d == n * (d - 1) + n;
    } else if d <= -1 {
      assert n * d == -(n * (-d - 1)) - n;
    }
  }

  lemma RemainderIs(x: nat, q: nat, r: nat, n: nat)
    requires r < n && x == n * q + r
    ensures x % n == r
  {
    var d := q - x / n;
    assert n * (x / n + d) == n * (x / n) + n * d;
    MultipleIsFar(n, d);
  }

  /** `x % size`, for `x` at most one lap ahead. */
  method Mod(x: nat, size: nat) returns (r: nat)
    requires 0 < size && x < 2 * size
    ensures r == Wrap(x, size)
  {
    RemainderIs(x, if x < size then 0 else 1, Wrap(x, size), size);
    r := x % size;
  }

  /** `(x - 1) % size` on unsigned ints lands on the previous slot, although `0 - 1`
      wraps to `UINT_MAX`, because sizes are powers of two. */
  method StepBack(x: nat, size: nat) returns (r: nat)
    requires PowerOfTwo(size) && size <= UINT_RANGE / 2 && x < size
    ensures r == Wrap(x + size - 1, size)
  {
    StepBackLands(x, size);
    r := Pred32(x) % size;
  }

  lemma StepBackLands(x: nat, size: nat)
    requires PowerOfTwo(size) && size <= UINT_RANGE / 2 && x < size
    ensures Pred32(x) % size == Wrap(x + size - 1, size)
  {
    if x == 0 {
      Exp2Of32();
      var q := PowersDivide(size, UINT_RANGE);
      assert size * (q - 1) == size * q - size;
      RemainderIs(UINT_RANGE - 1, q - 1, size - 1, size);
    } else {
      RemainderIs(x - 1, 0, x - 1, size);
    }
  }

  // ---------- what the buffer means ----------

  /** The logical contents, front first, together with the number of slots. */
  datatype Ring<T> = Ring(items: seq<T>, size: nat) {
    ghost predicate Valid() { PowerOfTwo(size) && size <= UINT_RANGE / 2 && |items| <= size }

    predicate Full() { |items| == size }

    predicate CanGrow() { Full() ==> size < UINT_RANGE / 2 }

    function Grow(): Ring<T> {
      if Full() then Ring(items, if size == 1 then 4 else size * 2) else this
    }

    function Push(x: T): Ring<T> { Ring(items + [x], Grow().size) }

    function Unshift(x: T): Ring<T> { Ring([x] + items, Grow().size) }

    function Shift(): Ring<T> { if items == [] then this else Ring(items[1..], size) }

    function Clear(): Ring<T> { Ring([], size) }

    /** The exact effect of `*_delete_at` on logical index `i`: from a full buffer of more
        than one slot, deleting the front entry removes the back entry instead. */
    function DeleteAt(i: nat): Ring<T>
      requires i < |items|
    {
      if HitsHeadOfFull(i) then Ring(items[..|items| - 1], size)
      else Ring(RemoveAt(items, i), size)
    }

    predicate HitsHeadOfFull(i: nat) { Full() && size > 1 && i == 0 }

    function Delete(p: T -> bool): Ring<T> {
      var i := FirstIndex(items, p);
      if i < |items| then DeleteAt(i) else this
    }

    /** The deletion of the first match removes that match and nothing else. */
    predicate DeletesExactly(p: T -> bool) {
      !HitsHeadOfFull(FirstIndex(items, p))
    }
  }

  /** Index of the first element satisfying `p`, or the length if there is none. */
  function FirstIndex<T>(s: seq<T>, p: T -> bool): (i: nat)
    ensures i <= |s|
    ensures i < |s| ==> p(s[i])
    ensures forall j :: 0 <= j < i ==> !p(s[j])
  {
    if s == [] || p(s[0]) then 0 else 1 + FirstIndex(s[1..], p)
  }

  function RemoveAt<T>(s: seq<T>, i: nat): (r: seq<T>)
    requires i < |s|
  {
    s[..i] + s[i + 1..]
  }

  lemma RemoveAtTail<T>(s: seq<T>, i: nat)
    requires 0 < i < |s|
    ensures RemoveAt(s, i) == [s[0]] + RemoveAt(s[1..], i - 1)
  {
    assert s[1..][..i - 1] == s[1..i] && s[1..][i..] == s[i + 1..];
  }

  /** What becomes of the others. */
  lemma RemoveAtKeeps<T>(s: seq<T>, i: nat)
    requires i < |s|
    ensures forall j :: 0 <= j < |s| - 1 ==> RemoveAt(s, i)[j] == s[if j < i then j else j + 1]
    ensures forall k :: 0 <= k < |s| && k != i ==> s[k] in RemoveAt(s, i)
  {
    forall k | 0 <= k < |s| && k != i ensures s[k] in RemoveAt(s, i) {
      assert RemoveAt(s, i)[if k < i then k else k - 1] == s[k];
    }
  }

  /** `delete_at` removes exactly logical index `i` if and only if it does not hit the
      front of a full buffer with several slots (whose entries differ somewhere). */
  lemma DeleteAtIsRemovalIff<T>(r: Ring<T>, i: nat)
    requires r.Valid() && i < |r.items|
    ensures !r.HitsHeadOfFull(i) ==> r.DeleteAt(i).items == RemoveAt(r.items, i)
    ensures r.HitsHeadOfFull(i) ==>
      (r.DeleteAt(i).items == RemoveAt(r.items, i) <==> forall k :: 0 <= k < |r.items| ==> r.items[k] == r.items[0])
  {
    if r.HitsHeadOfFull(i) {
      var a, b := r.items[..|r.items| - 1], r.items[1..];
      assert RemoveAt(r.items, 0) == b;
      if a == b {
        forall k | 0 <= k < |r.items| ensures r.items[k] == r.items[0] { AllEqualFrom(r.items, k); }
      }
    }
  }

  lemma {:induction false} AllEqualFrom<T>(s: seq<T>, k: nat)
    requires k < |s| && s[..|s| - 1] == s[1..]
    ensures s[k] == s[0]
  {
    if k > 0 {
      AllEqualFrom(s, k - 1);
      assert s[..|s| - 1][k - 1] == s[1..][k - 1];
    }
  }

  /** A full four-slot buffer whose front entry is deleted loses its back entry. */
  lemma DeletingFrontOfFullDropsBack()
    ensures Ring([10, 20, 30, 40], 4).DeleteAt(0) == Ring([10, 20, 30], 4)
  {
  }

  // ---------- physical slots and logical order ----------

  /** The logical contents of slots `e` read from `head`, wrapping once. */
  ghost function Unroll<T>(e: seq<T>, head: nat, count: nat): (s: seq<T>)
    requires head < |e| && count <= |e|
    ensures |s| == count
  {
    if count == 0 then [] else Unroll(e, head, count - 1) + [e[Wrap(head + count - 1, |e|)]]
  }

  /** The entry at logical index `i`. */
  ghost function EntryAt<T>(e: seq<T>, head: nat, i: nat): T
    requires head < |e| && i <= |e|
  {
    e[Wrap(head + i, |e|)]
  }

  lemma {:induction false} UnrollAt<T>(e: seq<T>, head: nat, count: nat, i: nat)
    requires head < |e| && i < count <= |e|
    ensures Unroll(e, head, count)[i] == EntryAt(e, head, i)
  {
    if i < count - 1 {
      UnrollAt(e, head, count - 1, i);
    }
  }

  /** Contents are determined entry by entry. */
  lemma UnrollEqual<T>(e: seq<T>, h: nat, n: nat, s: seq<T>)
    requires h < |e| && n <= |e| && |s| == n
    requires forall i :: 0 <= i < n ==> s[i] == EntryAt(e, h, i)
    ensures Unroll(e, h, n) == s
  {
    forall i | 0 <= i < n ensures Unroll(e, h, n)[i] == s[i] {
      UnrollAt(e, h, n, i);
    }
  }

  lemma UnrollPush<T>(e: seq<T>, head: nat, count: nat, x: T)
    requires head < |e| && count < |e|
    ensures Unroll(e[Wrap(head + count, |e|) := x], head, count + 1) == Unroll(e, head, count) + [x]
  {
    forall j | 0 <= j < count ensures Unroll(e, head, count)[j] == EntryAt(e, head, j) {
      UnrollAt(e, head, count, j);
    }
    UnrollEqual(e[Wrap(head + count, |e|) := x], head, count + 1, Unroll(e, head, count) + [x]);
  }

  lemma UnrollShift<T>(e: seq<T>, head: nat, count: nat)
    requires head < |e| && 0 < count <= |e|
    ensures Unroll(e, head, count) == [e[head]] + Unroll(e, Wrap(head + 1, |e|), count - 1)
  {
    var rest := Unroll(e, Wrap(head + 1, |e|), count - 1);
    var all := [e[head]] + rest;
    forall j | 0 <= j < count ensures all[j] == EntryAt(e, head, j) {
      if j > 0 {
        UnrollAt(e, Wrap(head + 1, |e|), count - 1, j - 1);
      }
    }
    UnrollEqual(e, head, count, all);
  }

  lemma UnrollUnshift<T>(e: seq<T>, head: nat, count: nat, x: T)
    requires head < |e| && count < |e|
    ensures var h := Wrap(head + |e| - 1, |e|); Unroll(e[h := x], h, count + 1) == [x] + Unroll(e, head, count)
  {
    var h := Wrap(head + |e| - 1, |e|);
    UnrollShift(e[h := x], h, count + 1);
    forall j | 0 <= j < count ensures Unroll(e, head, count)[j] == EntryAt(e[h := x], head, j) {
      UnrollAt(e, head, count, j);
    }
    UnrollEqual(e[h := x], head, count, Unroll(e, head, count));
  }

  /** Reallocation keeps the old slots in front and the resize loop copies those before
      `head` behind them, so a full ring reads the same from `head`. */
  lemma UnrollGrown<T>(e: seq<T>, g: seq<T>, head: nat)
    requires head < |e| && 2 * |e| <= |g|
    requires forall i :: 0 <= i < |e| ==> g[i] == e[i]
    requires forall i :: |e| <= i < |e| + head ==> g[i] == e[i - |e|]
    ensures Unroll(g, head, |e|) == Unroll(e, head, |e|)
  {
    forall j | 0 <= j < |e| ensures Unroll(e, head, |e|)[j] == EntryAt(g, head, j) {
      UnrollAt(e, head, |e|, j);
    }
    UnrollEqual(g, head, |e|, Unroll(e, head, |e|));
  }

  /** While the gap at logical index `i` of contents `s` is being closed: the entries
      from there up to `k` have moved one slot down. */
  ghost predicate ClosedUpTo<T>(e: seq<T>, head: nat, s: seq<T>, i: nat, k: nat)
    requires head < |e| && |s| <= |e|
  {
    forall p :: 0 <= p < |s| ==>
      && (p < i || k <= p ==> EntryAt(e, head, p) == s[p])
      && (i <= p < k && p + 1 < |s| ==> EntryAt(e, head, p) == s[p + 1])
  }

  /** One round of the loop: copy the next entry down. */
  lemma CloseOne<T>(e: seq<T>, head: nat, s: seq<T>, i: nat, k: nat)
    requires head < |e| && i <= k < |s| <= |e|
    requires ClosedUpTo(e, head, s, i, k)
    ensures var slot := Wrap(head + k, |e|);
            ClosedUpTo(e[slot := e[Wrap(slot + 1, |e|)]], head, s, i, k + 1)
  {
    var slot := Wrap(head + k, |e|);
    var e' := e[slot := e[Wrap(slot + 1, |e|)]];
    assert EntryAt(e', head, k) == EntryAt(e, head, k + 1);
    forall p | 0 <= p < |s|
      ensures p < i || k + 1 <= p ==> EntryAt(e', head, p) == s[p]
      ensures i <= p < k + 1 && p + 1 < |s| ==> EntryAt(e', head, p) == s[p + 1]
    {
      if p != k {
        assert EntryAt(e', head, p) == EntryAt(e, head, p);
      } else if k + 1 < |s| {
        assert EntryAt(e, head, k + 1) == s[k + 1];
      }
    }
  }

  /** The loop stops at once exactly when it starts at the front of a full ring. */
  lemma ClosedContents<T>(e: seq<T>, head: nat, s: seq<T>, i: nat, k: nat)
    requires head < |e| && |s| <= |e| && i < |s| && i <= k <= |s|
    requires ClosedUpTo(e, head, s, i, k)
    requires k == |s| || (k == i == 0 && |s| == |e|)
    requires k == |s| ==> !Ring(s, |e|).HitsHeadOfFull(i)
    ensures Unroll(e, head, |s| - 1) == Ring(s, |e|).DeleteAt(i).items
  {
    var want := Ring(s, |e|).DeleteAt(i).items;
    forall p | 0 <= p < |want| ensures want[p] == EntryAt(e, head, p) {}
    UnrollEqual(e, head, |s| - 1, want);
  }

  /** The loop of `*_delete_at` on slots `e0`, starting at the physical slot `idx` of
      logical index `i`. */
  method CloseGap<T>(e0: seq<T>, head: nat, tail: nat, idx: nat, ghost s: seq<T>, ghost i: nat) returns (e: seq<T>)
    requires head < |e0| && i < |s| <= |e0| && s == Unroll(e0, head, |s|)
    requires idx == Wrap(head + i, |e0|) && tail == Wrap(head + |s|, |e0|)
    ensures |e| == |e0| && Unroll(e, head, |s| - 1) == Ring(s, |e|).DeleteAt(i).items
  {
    e := e0;
    var idx2 := idx;
    ghost var k := i;
    forall p | 0 <= p < |s| ensures EntryAt(e, head, p) == s[p] { UnrollAt(e, head, |s|, p); }
    while idx2 != tail
      invariant |e| == |e0| && i <= k <= |s| && idx2 == Wrap(head + k, |e|)
      invariant ClosedUpTo(e, head, s, i, k)
      invariant k > i ==> !(|s| == |e| > 1 && i == 0)
      decreases |s| - k
    {
      var next := Mod(idx2 + 1, |e|);
      CloseOne(e, head, s, i, k);
      e := e[idx2 := e[next]];
      idx2 := next;
      k := k + 1;
    }
    ClosedContents(e, head, s, i, k);
  }

  // ---------- the buffer itself ----------

  /** `entries` is the reallocated slot array. */
  class RingBuffer<T(0)> {
    var entries: seq<T>
    var size: nat
    var count: nat
    var head: nat
    var tail: nat

    ghost predicate Valid()
      reads this
    {
      && |entries| == size
      && PowerOfTwo(size) && size <= UINT_RANGE / 2
      && count <= size && head < size
      && tail == Wrap(head + count, size)
    }

    ghost function Model(): (r: Ring<T>)
      requires Valid()
      reads this
      ensures r.Valid() && |r.items| == count && r.size == size
    {
      Ring(Unroll(entries, head, count), size)
    }

    constructor (filler: T)
      ensures Valid() && Model() == Ring([], 1)
    {
      entries := [filler];
      size, count, head, tail := 1, 0, 0, 0;
      assert 1 == Exp2(0);
    }

    method Clear()
      requires Valid()
      modifies this
      ensures Valid() && Model() == old(Model()).Clear()
    {
      count, head, tail := 0, 0, 0;
    }

    method Shift() returns (value: Option<T>)
      requires Valid()
      modifies this
      ensures Valid() && Model() == old(Model()).Shift()
      ensures value == (if old(Model()).items == [] then None else Some(old(Model()).items[0]))
    {
      if count == 0 {
        return None;
      }
      UnrollShift(entries, head, count);
      value := Some(entries[head]);
      head := Mod(head + 1, size);
      count := count - 1;
    }

    /** Doubles the slots of a full buffer, unrolling the part that had wrapped. What
        `realloc` leaves in the new slots is arbitrary. */
    method Resize(garbage: seq<T>)
      requires Valid() && count == size < UINT_RANGE / 2
      requires |garbage| == (if size == 1 then 3 else size)
      modifies this
      ensures Valid() && Model() == old(Model()).Grow()
    {
      DoublingStaysInRange(size);
      ghost var e := entries;
      var oldSize := size;
      size := if oldSize == 1 then 4 else oldSize * 2;
      entries := entries + garbage;
      var idx := 0;
      while idx < head && idx < tail
        modifies this`entries
        invariant 0 <= idx <= head == tail && |entries| == size
        invariant forall i :: 0 <= i < oldSize ==> entries[i] == e[i]
        invariant forall i :: oldSize <= i < oldSize + idx ==> entries[i] == e[i - oldSize]
      {
        entries := entries[oldSize + idx := entries[idx]];
        idx := idx + 1;
      }
      UnrollGrown(e, entries, head);
      tail := head + count;
    }

    method GrowIfFull()
      requires Valid() && Model().CanGrow()
      modifies this
      ensures Valid() && Model() == old(Model()).Grow() && count < size
    {
      if count == size {
        var filler := entries[0];
        var garbage := seq(if size == 1 then 3 else size, _ => filler);
        Resize(garbage);
      }
    }

    method Push(x: T)
      requires Valid() && Model().CanGrow()
      modifies this
      ensures Valid() && Model() == old(Model()).Push(x)
    {
      GrowIfFull();
      UnrollPush(entries, head, count, x);
      entries := entries[tail := x];
      tail := Mod(tail + 1, size);
      count := count + 1;
    }

    method Unshift(x: T)
      requires Valid() && Model().CanGrow()
      modifies this
      ensures Valid() && Model() == old(Model()).Unshift(x)
    {
      GrowIfFull();
      UnrollUnshift(entries, head, count, x);
      head := StepBack(head, size);
      entries := entries[head := x];
      count := count + 1;
    }

    method DeleteAt(idx: nat, ghost i: nat)
      requires Valid() && i < count && idx == Wrap(head + i, size)
      modifies this
      ensures Valid() && Model() == old(Model()).DeleteAt(i)
    {
      entries := CloseGap(entries, head, tail, idx, Model().items, i);
      count := count - 1;
      tail := StepBack(tail, size);
    }

    /** The search loop shared by `*_delete`, `*_index_of` and `*_migrate`. */
    method IndexOf(p: T -> bool) returns (i: nat)
      requires Valid()
      ensures i == FirstIndex(Model().items, p)
    {
      i := 0;
      ghost var s := Model().items;
      while i < count
        invariant i <= count && FirstIndex(s, p) == i + FirstIndex(s[i..], p)
      {
        var _, x := Get(i);
        if p(x) {
          return;
        }
        assert s[i..][1..] == s[i + 1..];
        i := i + 1;
      }
    }

    /** Physical slot and entry of logical index `i`. */
    method Get(i: nat) returns (idx: nat, x: T)
      requires Valid() && i < count
      ensures idx == Wrap(head + i, size) && x == Model().items[i]
    {
      UnrollAt(entries, head, count, i);
      idx := Mod(head + i, size);
      x := entries[idx];
    }

    method Delete(p: T -> bool)
      requires Valid()
      modifies this
      ensures Valid() && Model() == old(Model()).Delete(p)
    {
      var i := IndexOf(p);
      if i < count {
        var idx, _ := Get(i);
        DeleteAt(idx, i);
      }
    }

    method ShiftAll() returns (all: seq<T>)
      requires Valid()
      modifies this
      ensures Valid() && all == old(Model()).items && Model() == old(Model()).Clear()
    {
      all := [];
      for i := 0 to count
        invariant Valid() && Model() == old(Model()) && all == Model().items[..i]
      {
        var _, x := Get(i);
        all := all + [x];
      }
      count, head, tail := 0, 0, 0;
    }
  }

  lemma {:induction false} Exp2Below(k: nat, n: nat)
    ensures k <= n ==> Exp2(k) <= Exp2(n)
    ensures k > n ==> Exp2(k) >= 2 * Exp2(n)
    decreases k + n
  {
    if k < n {
      Exp2Below(k, n - 1);
    } else if k > n {
      Exp2Below(k - 1, n);
    }
  }

  lemma DoublingStaysInRange(n: nat)
    requires PowerOfTwo(n) && n < UINT_RANGE / 2
    ensures PowerOfTwo(if n == 1 then 4 else n * 2) && n * 2 <= UINT_RANGE / 2
  {
    var k: nat :| n == Exp2(k);
    assert n * 2 == Exp2(k + 1);
    assert 4 == Exp2(2);
    Exp2Of32();
    Exp2Below(k, 31);
    Exp2Below(k + 1, 31);
  }
}
