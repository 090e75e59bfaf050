/** Relative timers of the event loop: `ev_timer_start`, `ev_timer_stop`, `ev_timer_again` and
    `timers_reify`, on the 4-ary heap and the pending queues. Times are exact reals. */
module Timers {
  import opened Heap4
  import Dispatch

  const EV_TIMER: nat := 0x100

  /** Deadlines of the running timers. */
  type Deadlines = map<Watcher, real>

  function Max(a: real, b: real): real { if a < b then b else a }

  // ---------- one entry comes or goes ----------

  ghost predicate KeyOk(h: Heap, act: Active, at: map<Watcher, real>, w: Watcher) {
    w in act && act[w] != 0 && act[w] < |h| ==> w in at && h[act[w]].at == at[w]
  }

  /** The keys cached in the heap are the watchers' own. */
  ghost predicate Cached(h: Heap, act: Active, at: map<Watcher, real>) {
    forall w :: KeyOk(h, act, at, w)
  }

  lemma CachedMoves(h: Heap, act: Active, h': Heap, act': Active, n: nat, at: map<Watcher, real>)
    requires Indexed(h, n, act) && Indexed(h', n, act') && SameEntries(h, act, h', act') && Cached(h, act, at)
    ensures Cached(h', act', at)
  {
    forall w ensures KeyOk(h', act', at, w) {
      assert KeyOk(h, act, at, w) && SameEntry(h, act, h', act', w) && ActiveOk(h, n, act, w);
    }
  }

  /** Appending a watcher that is not in the heap. */
  lemma Append(h: Heap, n: nat, act: Active, w: Watcher, t: real)
    requires Indexed(h, n, act) && Ordered(h, n) && w in act && act[w] == 0 && |h| > HEAP0 + n
    ensures var k := HEAP0 + n; var h', act' := h[k := Anhe(t, w)], act[w := k];
      Indexed(h', n + 1, act') && OrderedExcept(h', n + 1, k, true, false)
  {
    var k := HEAP0 + n;
    var h', act' := h[k := Anhe(t, w)], act[w := k];
    forall i | HEAP0 < i < HEAP0 + n ensures LinkOk(h', i) { assert LinkOk(h, i); }
    forall i | HEAP0 <= i < HEAP0 + n + 1 ensures EntryOk(h', act', i) { assert i < k ==> EntryOk(h, act, i); }
    var m := n + 1;
    forall v ensures ActiveOk(h', m, act', v) { assert ActiveOk(h, n, act, v); }
    NewLeaf(h', n);
  }

  /** Overwriting entry `k` by the last one, which leaves its place. */
  lemma FillGap(h: Heap, n: nat, act: Active, k: nat)
    requires Indexed(h, n, act) && Ordered(h, n) && HEAP0 <= k < HEAP0 + n - 1
    ensures var last := h[HEAP0 + n - 1];
      var h', act' := h[k := last], act[h[k].w := 0][last.w := k];
      Indexed(h', n - 1, act') && OrderedExcept(h', n - 1, k, true, true)
  {
    var last := h[HEAP0 + n - 1];
    var h', act' := h[k := last], act[h[k].w := 0][last.w := k];
    assert EntryOk(h, act, k) && EntryOk(h, act, HEAP0 + n - 1);
    forall i | HEAP0 <= i < HEAP0 + n - 1 ensures EntryOk(h', act', i) { assert EntryOk(h, act, i); }
    var m := n - 1;
    forall v ensures ActiveOk(h', m, act', v) { assert ActiveOk(h, n, act, v); }
    ReplaceKey(h, n, k, last);
    forall i | HEAP0 < i < HEAP0 + n - 1 && i != k && Parent(i) != k ensures LinkOk(h', i) { assert LinkOk(h, i); }
  }

  /** A heap with one entry replaced is in order except around that entry. */
  lemma ReplaceKey(h: Heap, n: nat, k: nat, x: Anhe)
    requires Ordered(h, n) && HEAP0 <= k < HEAP0 + n
    ensures OrderedExcept(h[k := x], n, k, true, true)
  {
    var h' := h[k := x];
    forall i | HEAP0 < i < HEAP0 + n && i != k && Parent(i) != k ensures LinkOk(h', i) { assert LinkOk(h, i); }
    if k > HEAP0 {
      forall i | HEAP0 < i < HEAP0 + n && Parent(i) == k ensures h'[Parent(k)].at <= h'[i].at {
        assert LinkOk(h, i) && LinkOk(h, k);
      }
    }
  }

  lemma DropLast(h: Heap, n: nat, act: Active)
    requires Indexed(h, n, act) && Ordered(h, n) && n > 0
    ensures var w := h[HEAP0 + n - 1].w; Indexed(h, n - 1, act[w := 0]) && Ordered(h, n - 1)
  {
    var w := h[HEAP0 + n - 1].w;
    assert EntryOk(h, act, HEAP0 + n - 1);
    var m, act' := n - 1, act[w := 0];
    forall i | HEAP0 <= i < HEAP0 + m ensures EntryOk(h, act', i) { assert EntryOk(h, act, i); }
    forall v ensures ActiveOk(h, m, act', v) { assert ActiveOk(h, n, act, v); }
    forall i | HEAP0 < i < HEAP0 + n - 1 ensures LinkOk(h, i) {}
  }

  // ---------- the heap with its watchers' fields ----------

  /** `timers`, `timercnt` and the `active` and `at` fields of the watchers. */
  datatype TimerHeap = TimerHeap(h: Heap, n: nat, act: Active, at: map<Watcher, real>) {
    /** What `verify_heap` checks. */
    ghost predicate Ok() {
      Indexed(h, n, act) && Ordered(h, n) && Cached(h, act, at) && act.Keys == at.Keys
    }

    predicate IsActive(w: Watcher) { w in act && act[w] != 0 }

    function Running(): Deadlines { map w | w in act && act[w] != 0 && w in at :: at[w] }
  }

  lemma SameRunning(x: TimerHeap, y: TimerHeap)
    requires SameEntries(x.h, x.act, y.h, y.act) && x.at == y.at
    ensures x.Running() == y.Running()
  {
    forall w ensures w in x.Running() <==> w in y.Running() { assert SameEntry(x.h, x.act, y.h, y.act, w); }
  }

  /** An entry appended behind the heap, before it moves up. */
  lemma Appended(x: TimerHeap, h: Heap, w: Watcher, t: real)
    requires x.Ok() && w in x.act && !x.IsActive(w) && |h| > HEAP0 + x.n && |x.h| <= |h| && x.h == h[..|x.h|]
    ensures var k := HEAP0 + x.n;
      var z := TimerHeap(h[k := Anhe(t, w)], x.n + 1, x.act[w := k], x.at[w := t]);
      && Indexed(z.h, z.n, z.act) && OrderedExcept(z.h, z.n, k, true, false)
      && Cached(z.h, z.act, z.at) && z.act.Keys == z.at.Keys == x.act.Keys && z.Running() == x.Running()[w := t]
  {
    Grown(x.h, h, x.n, x.act);
    Append(h, x.n, x.act, w, t);
    var k := HEAP0 + x.n;
    var z := TimerHeap(h[k := Anhe(t, w)], x.n + 1, x.act[w := k], x.at[w := t]);
    forall v ensures KeyOk(z.h, z.act, z.at, v) {
      assert KeyOk(x.h, x.act, x.at, v) && ActiveOk(x.h, x.n, x.act, v);
      if v != w && x.IsActive(v) { assert x.h[x.act[v]] == h[x.act[v]]; }
    }
    assert z.Running() == x.Running()[w := t];
  }

  /** The heap part of `ev_timer_start`. */
  method Insert(x: TimerHeap, w: Watcher, t: real) returns (y: TimerHeap)
    requires x.Ok() && w in x.act && !x.IsActive(w)
    ensures y.Ok() && y.act.Keys == x.act.Keys && y.at == x.at[w := t] && y.IsActive(w)
    ensures y.Running() == x.Running()[w := t]
  {
    var k := HEAP0 + x.n;
    var h := if k < |x.h| then x.h else x.h + seq(k + 1 - |x.h|, _ => Anhe(0.0, 0));
    Appended(x, h, w, t);
    var z := TimerHeap(h[k := Anhe(t, w)], x.n + 1, x.act[w := k], x.at[w := t]);
    y := Raise(z, k);
    assert w in y.Running();
  }

  /** After an append: `upheap`. */
  method Raise(z: TimerHeap, k: nat) returns (y: TimerHeap)
    requires Indexed(z.h, z.n, z.act) && HEAP0 <= k < HEAP0 + z.n
    requires OrderedExcept(z.h, z.n, k, true, false) && Cached(z.h, z.act, z.at) && z.act.Keys == z.at.Keys
    ensures y.Ok() && y.act.Keys == z.act.Keys && y.at == z.at && y.Running() == z.Running()
  {
    var h', act' := Upheap(z.h, z.act, z.n, z.n, k);
    CachedMoves(z.h, z.act, h', act', z.n, z.at);
    y := TimerHeap(h', z.n, act', z.at);
    SameRunning(z, y);
  }

  /** After a change at `k`: `adjustheap`. */
  method Settle(z: TimerHeap, k: nat) returns (y: TimerHeap)
    requires Indexed(z.h, z.n, z.act) && HEAP0 <= k < HEAP0 + z.n
    requires OrderedExcept(z.h, z.n, k, true, true) && Cached(z.h, z.act, z.at) && z.act.Keys == z.at.Keys
    ensures y.Ok() && y.act.Keys == z.act.Keys && y.at == z.at && y.Running() == z.Running()
  {
    var h', act' := Adjustheap(z.h, z.act, z.n, k);
    CachedMoves(z.h, z.act, h', act', z.n, z.at);
    y := TimerHeap(h', z.n, act', z.at);
    SameRunning(z, y);
  }

  /** The fields of any one watcher when the gap at `k` is filled by the last entry. */
  lemma GappedAt(x: TimerHeap, w: Watcher, k: nat, last: Anhe, v: Watcher)
    requires Indexed(x.h, x.n, x.act) && Cached(x.h, x.act, x.at) && x.act.Keys == x.at.Keys
    requires x.IsActive(w) && HEAP0 <= x.act[w] == k < x.n - 1 + HEAP0 && last == x.h[x.n - 1 + HEAP0]
    requires v in x.act
    ensures last.w in x.act && last.w != w
    ensures var h, act := x.h[k := last], x.act[w := 0][last.w := k];
      && (act[v] != 0 <==> v != w && x.act[v] != 0)
      && (act[v] != 0 ==> act[v] < |h| && h[act[v]].at == x.at[v])
  {
    assert ActiveOk(x.h, x.n, x.act, w) && EntryOk(x.h, x.act, x.n - 1 + HEAP0);
    assert KeyOk(x.h, x.act, x.at, last.w);
    assert ActiveOk(x.h, x.n, x.act, v) && KeyOk(x.h, x.act, x.at, v);
  }

  lemma GappedFields(x: TimerHeap, w: Watcher, k: nat, last: Anhe)
    requires Indexed(x.h, x.n, x.act) && Cached(x.h, x.act, x.at) && x.act.Keys == x.at.Keys
    requires x.IsActive(w) && HEAP0 <= x.act[w] == k < x.n - 1 + HEAP0 && last == x.h[x.n - 1 + HEAP0]
    ensures var z := TimerHeap(x.h[k := last], x.n - 1, x.act[w := 0][last.w := k], x.at);
      && Cached(z.h, z.act, z.at) && z.act.Keys == x.act.Keys
      && z.Running() == x.Running() - {w} && !z.IsActive(w)
  {
    GappedAt(x, w, k, last, w);
    var z := TimerHeap(x.h[k := last], x.n - 1, x.act[w := 0][last.w := k], x.at);
    assert z.act.Keys == x.act.Keys;
    forall v | v in z.act
      ensures z.act[v] != 0 <==> v != w && x.act[v] != 0
      ensures z.act[v] != 0 ==> z.act[v] < |z.h| && z.h[z.act[v]].at == z.at[v]
    {
      GappedAt(x, w, k, last, v);
    }
    forall v ensures KeyOk(z.h, z.act, z.at, v) {}
    assert z.Running() == x.Running() - {w};
  }

  /** The gap of a stopped timer filled by the last entry, before that one moves. */
  lemma Gapped(x: TimerHeap, w: Watcher)
    requires x.Ok() && x.IsActive(w) && HEAP0 <= x.act[w] < x.n - 1 + HEAP0
    ensures var k, last := x.act[w], x.h[x.n - 1 + HEAP0];
      var z := TimerHeap(x.h[k := last], x.n - 1, x.act[w := 0][last.w := k], x.at);
      && Indexed(z.h, z.n, z.act) && HEAP0 <= k < HEAP0 + z.n && OrderedExcept(z.h, z.n, k, true, true)
      && Cached(z.h, z.act, z.at) && z.act.Keys == z.at.Keys == x.act.Keys
      && z.Running() == x.Running() - {w} && !z.IsActive(w)
  {
    var k, last := x.act[w], x.h[x.n - 1 + HEAP0];
    assert ActiveOk(x.h, x.n, x.act, w);
    FillGap(x.h, x.n, x.act, k);
    GappedFields(x, w, k, last);
  }

  /** The heap part of `ev_timer_stop`. */
  method Remove(x: TimerHeap, w: Watcher) returns (y: TimerHeap)
    requires x.Ok() && x.IsActive(w)
    ensures y.Ok() && y.act.Keys == x.act.Keys && y.at == x.at && !y.IsActive(w)
    ensures y.Running() == x.Running() - {w}
  {
    var k := x.act[w];
    assert ActiveOk(x.h, x.n, x.act, w);
    if k < x.n - 1 + HEAP0 {
      Gapped(x, w);
      var last := x.h[x.n - 1 + HEAP0];
      var z := TimerHeap(x.h[k := last], x.n - 1, x.act[w := 0][last.w := k], x.at);
      y := Settle(z, k);
      assert w !in y.Running();
    } else {
      DropLast(x.h, x.n, x.act);
      y := x.(n := x.n - 1, act := x.act[w := 0]);
      forall v ensures KeyOk(y.h, y.act, y.at, v) { assert KeyOk(x.h, x.act, x.at, v); }
      assert y.Running() == x.Running() - {w};
    }
  }

  lemma Rekeyed(x: TimerHeap, w: Watcher, t: real)
    requires x.Ok() && x.IsActive(w)
    ensures HEAP0 <= x.act[w] < HEAP0 + x.n <= |x.h|
    ensures var k := x.act[w];
      var z := TimerHeap(x.h[k := Anhe(t, w)], x.n, x.act, x.at[w := t]);
      && Indexed(z.h, z.n, z.act) && OrderedExcept(z.h, z.n, k, true, true) && Cached(z.h, z.act, z.at)
      && z.act.Keys == z.at.Keys && z.Running() == x.Running()[w := t]
  {
    var k := x.act[w];
    assert ActiveOk(x.h, x.n, x.act, w);
    ReplaceKey(x.h, x.n, k, Anhe(t, w));
    var z := TimerHeap(x.h[k := Anhe(t, w)], x.n, x.act, x.at[w := t]);
    forall i | HEAP0 <= i < HEAP0 + x.n ensures EntryOk(z.h, z.act, i) { assert EntryOk(x.h, x.act, i); }
    forall v ensures ActiveOk(z.h, z.n, z.act, v) && KeyOk(z.h, z.act, z.at, v) {
      assert ActiveOk(x.h, x.n, x.act, v) && KeyOk(x.h, x.act, x.at, v);
    }
    assert z.Running() == x.Running()[w := t];
  }

  /** A running timer gets a new key. */
  method Change(x: TimerHeap, w: Watcher, t: real) returns (y: TimerHeap)
    requires x.Ok() && x.IsActive(w)
    ensures y.Ok() && y.act.Keys == x.act.Keys && y.at == x.at[w := t] && y.IsActive(w)
    ensures y.Running() == x.Running()[w := t]
  {
    var k := x.act[w];
    Rekeyed(x, w, t);
    var z := TimerHeap(x.h[k := Anhe(t, w)], x.n, x.act, x.at[w := t]);
    y := Settle(z, k);
    assert w in y.Running();
  }

  /** Changing the `at` field of a watcher that is not running. */
  lemma SetIdle(x: TimerHeap, w: Watcher, t: real)
    requires x.Ok() && w in x.act && !x.IsActive(w)
    ensures x.(at := x.at[w := t]).Ok() && x.(at := x.at[w := t]).Running() == x.Running()
  {
    var y := x.(at := x.at[w := t]);
    forall v ensures KeyOk(y.h, y.act, y.at, v) { assert KeyOk(x.h, x.act, x.at, v); }
    assert y.Running() == x.Running();
  }

  /** `ev_timer_stop` of a running timer: its `at` becomes relative again. */
  method Stop(x: TimerHeap, w: Watcher, now: real) returns (y: TimerHeap)
    requires x.Ok() && x.IsActive(w)
    ensures y.Ok() && y.act.Keys == x.act.Keys && y.at == x.at[w := x.at[w] - now]
    ensures y.Running() == x.Running() - {w}
  {
    y := Remove(x, w);
    SetIdle(y, w, y.at[w] - now);
    y := y.(at := y.at[w := y.at[w] - now]);
  }

  /** `ev_timer_again`. */
  method Again(x: TimerHeap, w: Watcher, repeat: real, now: real) returns (y: TimerHeap)
    requires x.Ok() && w in x.act
    ensures y.Ok() && y.act.Keys == x.act.Keys
    ensures y.Running() == if repeat != 0.0 then x.Running()[w := now + repeat] else x.Running() - {w}
  {
    if x.IsActive(w) {
      if repeat != 0.0 {
        y := Change(x, w, now + repeat);
      } else {
        y := Stop(x, w, now);
      }
    } else if repeat != 0.0 {
      SetIdle(x, w, repeat);
      y := x.(at := x.at[w := repeat]);
      y := Insert(y, w, y.at[w] + now);
    } else {
      y := x;
      assert w !in x.Running();
    }
  }

  // ---------- expiry ----------

  /** Timers whose deadline has passed. */
  function Due(d: Deadlines, now: real): set<Watcher> { set w | w in d && d[w] < now }

  /** The deadlines after the timers in `done` have been handled: repeating ones run again
      at the later of deadline plus interval and now, the others are gone. */
  function After(d: Deadlines, repeat: map<Watcher, real>, now: real, done: set<Watcher>): Deadlines
    requires d.Keys <= repeat.Keys
  {
    map w | w in d && (w !in done || repeat[w] != 0.0) ::
      if w in done then Max(d[w] + repeat[w], now) else d[w]
  }

  lemma AfterOneMore(d: Deadlines, repeat: map<Watcher, real>, now: real, done: set<Watcher>, w: Watcher)
    requires d.Keys <= repeat.Keys && w in d && w !in done
    ensures After(d, repeat, now, done + {w}) ==
      if repeat[w] != 0.0 then After(d, repeat, now, done)[w := Max(d[w] + repeat[w], now)]
      else After(d, repeat, now, done) - {w}
  {
    var a, b := After(d, repeat, now, done), After(d, repeat, now, done + {w});
    if repeat[w] != 0.0 {
      assert b == a[w := Max(d[w] + repeat[w], now)];
    } else {
      assert b == a - {w};
    }
  }

  ghost predicate Earliest(d: Deadlines, w: Watcher) { w in d && forall v :: v in d ==> d[w] <= d[v] }

  /** The root is a running timer with the earliest deadline. */
  lemma RootIsEarliest(x: TimerHeap)
    requires x.Ok()
    ensures x.n == 0 ==> x.Running() == map[]
    ensures x.n > 0 ==> var e := x.h[HEAP0];
      x.IsActive(e.w) && Earliest(x.Running(), e.w) && x.Running()[e.w] == e.at
  {
    if x.n > 0 {
      var e := x.h[HEAP0];
      assert EntryOk(x.h, x.act, HEAP0) && KeyOk(x.h, x.act, x.at, e.w);
      forall v | v in x.Running() ensures e.at <= x.Running()[v] {
        assert ActiveOk(x.h, x.n, x.act, v) && KeyOk(x.h, x.act, x.at, v);
        RootIsMinimal(x.h, x.n, x.act[v]);
      }
    } else {
      forall v ensures v !in x.Running() { assert ActiveOk(x.h, x.n, x.act, v); }
    }
  }

  /** The timers collected so far, against the deadlines at entry. */
  ghost predicate Collected(ws: seq<Watcher>, d: Deadlines, now: real) {
    && (forall i :: 0 <= i < |ws| ==> ws[i] in d && d[ws[i]] < now)
    && (forall i, j :: 0 <= i < j < |ws| ==> ws[i] != ws[j] && ws[i] in d && ws[j] in d && d[ws[i]] <= d[ws[j]])
    && (forall i, v :: 0 <= i < |ws| && v in d && v !in ws ==> ws[i] in d && d[ws[i]] <= d[v])
  }

  function Elems(ws: seq<Watcher>): set<Watcher> { set w | w in ws }

  lemma CollectOne(ws: seq<Watcher>, d: Deadlines, repeat: map<Watcher, real>, now: real, w: Watcher)
    requires d.Keys <= repeat.Keys && (forall v :: v in repeat ==> repeat[v] >= 0.0) && Collected(ws, d, now)
    requires var a := After(d, repeat, now, Elems(ws)); Earliest(a, w) && a[w] < now
    ensures w !in ws && w in d && After(d, repeat, now, Elems(ws))[w] == d[w]
    ensures Collected(ws + [w], d, now) && Elems(ws + [w]) == Elems(ws) + {w}
  {
    var a := After(d, repeat, now, Elems(ws));
    assert w !in ws && a[w] == d[w];
    forall v | v in d && v !in ws ensures d[w] <= d[v] { assert v in a && a[v] == d[v]; }
    assert Elems(ws + [w]) == Elems(ws) + {w};
  }

  /** One round of the loop, seen on the deadlines. */
  lemma ExpireStep(d: Deadlines, repeat: map<Watcher, real>, now: real, ws: seq<Watcher>,
                   r0: Deadlines, r1: Deadlines, w: Watcher)
    requires d.Keys <= repeat.Keys && (forall v :: v in repeat ==> repeat[v] >= 0.0) && Collected(ws, d, now)
    requires r0 == After(d, repeat, now, Elems(ws)) && Earliest(r0, w) && r0[w] < now
    requires w in repeat && r1 == if repeat[w] != 0.0 then r0[w := Max(r0[w] + repeat[w], now)] else r0 - {w}
    ensures w !in ws && w in d && d[w] < now
    ensures Collected(ws + [w], d, now) && r1 == After(d, repeat, now, Elems(ws + [w]))
  {
    CollectOne(ws, d, repeat, now, w);
    AfterOneMore(d, repeat, now, Elems(ws), w);
  }

  /** The number of overdue timers not yet collected strictly drops. */
  lemma FewerLeft(d: Deadlines, now: real, ws: seq<Watcher>, w: Watcher)
    requires w !in ws && w in d && d[w] < now
    ensures |Due(d, now) - Elems(ws + [w])| < |Due(d, now) - Elems(ws)|
  {
    var left := Due(d, now) - Elems(ws);
    assert w in left && Due(d, now) - Elems(ws + [w]) == left - {w};
  }

  lemma AllCollected(ws: seq<Watcher>, d: Deadlines, repeat: map<Watcher, real>, now: real)
    requires d.Keys <= repeat.Keys && Collected(ws, d, now)
    requires forall v :: v in After(d, repeat, now, Elems(ws)) ==> After(d, repeat, now, Elems(ws))[v] >= now
    ensures Elems(ws) == Due(d, now)
  {
    var a := After(d, repeat, now, Elems(ws));
    assert forall v :: v in d && v !in ws ==> v in a && a[v] == d[v];
    assert Elems(ws) == Due(d, now);
  }

  /** `clear_pending` for the collected timers that do not repeat. */
  function ClearStopped(p: Dispatch.Pending, ws: seq<Watcher>, repeat: map<Watcher, real>): Dispatch.Pending {
    if ws == [] then p
    else
      var p1, w := ClearStopped(p, ws[..|ws| - 1], repeat), ws[|ws| - 1];
      if w in repeat && repeat[w] == 0.0 then Dispatch.ClearPending(p1, w) else p1
  }

  lemma ClearStoppedSnoc(p: Dispatch.Pending, ws: seq<Watcher>, repeat: map<Watcher, real>, w: Watcher)
    requires w in repeat
    ensures var p1 := ClearStopped(p, ws, repeat);
      ClearStopped(p, ws + [w], repeat) == if repeat[w] == 0.0 then Dispatch.ClearPending(p1, w) else p1
  {
    assert (ws + [w])[..|ws|] == ws;
  }

  lemma {:induction false} ClearStoppedKeeps(p: Dispatch.Pending, ws: seq<Watcher>, repeat: map<Watcher, real>)
    requires p.Consistent()
    ensures var p' := ClearStopped(p, ws, repeat);
      && p'.Consistent() && |p'.queues| == |p.queues| && p'.priority == p.priority
      && (forall v :: p.Index(v) == 0 ==> p'.Index(v) == 0)
      && (forall v :: v in ws && v in repeat && repeat[v] == 0.0 ==> p'.Index(v) == 0)
  {
    if ws != [] {
      ClearStoppedKeeps(p, ws[..|ws| - 1], repeat);
      Dispatch.ClearKeeps(ClearStopped(p, ws[..|ws| - 1], repeat), ws[|ws| - 1]);
      assert ws == ws[..|ws| - 1] + [ws[|ws| - 1]];
    }
  }

  /** What `timers_reify` leaves pending. */
  ghost function FedAfter(p: Dispatch.Pending, ws: seq<Watcher>, repeat: map<Watcher, real>): Dispatch.Pending
    requires p.Consistent() && forall w :: w in ws ==> p.Knows(w)
  {
    ClearStoppedKeeps(p, ws, repeat);
    Dispatch.StillKnown(p, ClearStopped(p, ws, repeat), ws, ws);
    Dispatch.FeedReversed(ClearStopped(p, ws, repeat), ws, {EV_TIMER})
  }

  /** Expired timers of equal priority run in deadline order: of two timers collected by one
      `timers_reify`, neither of them left pending from before, the one with the earlier
      deadline is invoked first, whatever the callbacks do, unless one clears either of the two
      or runs a nested loop before it is invoked. Its own callback may stop or rearm it. */
  lemma ExpiredTimersRunInDeadlineOrder(
    p: Dispatch.Pending, ws: seq<Watcher>, d: Deadlines, repeat: map<Watcher, real>, now: real, i: nat, j: nat,
    scripts: seq<seq<Dispatch.Effect>>, log: seq<Dispatch.Invocation>, k: nat)
    returns (m: nat)
    requires p.Consistent() && Collected(ws, d, now) && i < j < |ws|
    requires (forall w :: w in ws ==> p.Knows(w)) && p.Pri(ws[i]) == p.Pri(ws[j])
    requires forall w :: w in [ws[i], ws[j]] ==> p.Index(w) == 0 || (w in repeat && repeat[w] == 0.0)
    requires var q := FedAfter(p, ws, repeat); Dispatch.AllValid(q, scripts) && Dispatch.Follows(q, scripts, log)
    requires Dispatch.LeftAlone(scripts, log, ws[i], k) && Dispatch.LeftAlone(scripts, log, ws[j], k)
    requires k < |log| && log[k].Invokes(ws[j])
    ensures ws[i] in d && ws[j] in d && d[ws[i]] <= d[ws[j]]
    ensures m < k && log[m].Invokes(ws[i])
  {
    var p1 := ClearStopped(p, ws, repeat);
    ClearStoppedKeeps(p, ws, repeat);
    Dispatch.StillKnown(p, p1, ws, ws);
    assert ws[i] in [ws[i], ws[j]] && ws[j] in [ws[i], ws[j]];
    m := Dispatch.CollectedFirstRunsFirst(p1, ws, {EV_TIMER}, i, j, scripts, log, k);
  }

  /** Reschedule or stop the timer at the root. */
  method ExpireRoot(x: TimerHeap, w: Watcher, repeat: real, now: real) returns (y: TimerHeap)
    requires x.Ok() && x.n > 0 && w == x.h[HEAP0].w
    ensures y.Ok() && y.act.Keys == x.act.Keys && w in x.Running() && w in x.act
    ensures y.Running() ==
      if repeat != 0.0 then x.Running()[w := Max(x.Running()[w] + repeat, now)] else x.Running() - {w}
  {
    RootIsEarliest(x);
    if repeat != 0.0 {
      var t := x.at[w] + repeat;
      if t < now {
        t := now;
      }
      y := Change(x, w, t);
    } else {
      y := Stop(x, w, now);
    }
  }

  /** How far the loop of `timers_reify` has come, from deadlines `d` and pending events `p`. */
  ghost predicate Expiring(y: TimerHeap, q: Dispatch.Pending, ws: seq<Watcher>,
                           d: Deadlines, p: Dispatch.Pending, repeat: map<Watcher, real>, now: real) {
    && y.Ok() && y.act.Keys == repeat.Keys && d.Keys <= repeat.Keys
    && Collected(ws, d, now) && y.Running() == After(d, repeat, now, Elems(ws))
    && q == ClearStopped(p, ws, repeat)
  }

  /** One round of the loop. */
  method ExpireNext(y0: TimerHeap, q0: Dispatch.Pending, repeat: map<Watcher, real>, now: real,
                    ghost ws: seq<Watcher>, ghost d: Deadlines, ghost p: Dispatch.Pending)
    returns (y: TimerHeap, q: Dispatch.Pending, w: Watcher)
    requires Expiring(y0, q0, ws, d, p, repeat, now) && (forall v :: v in repeat ==> repeat[v] >= 0.0)
    requires y0.n > 0 && y0.h[HEAP0].at < now
    ensures Expiring(y, q, ws + [w], d, p, repeat, now) && w !in ws && w in d && d[w] < now
  {
    RootIsEarliest(y0);
    w := y0.h[HEAP0].w;
    y := ExpireRoot(y0, w, repeat[w], now);
    ExpireStep(d, repeat, now, ws, y0.Running(), y.Running(), w);
    ClearStoppedSnoc(p, ws, repeat, w);
    q := if repeat[w] == 0.0 then Dispatch.ClearPending(q0, w) else q0;
  }

  /** The loop of `timers_reify`; it terminates because every round leaves fewer overdue
      timers. */
  method Expire(x: TimerHeap, p: Dispatch.Pending, repeat: map<Watcher, real>, now: real)
    returns (y: TimerHeap, q: Dispatch.Pending, rfeeds: seq<Watcher>)
    requires x.Ok() && x.act.Keys == repeat.Keys && forall v :: v in repeat ==> repeat[v] >= 0.0
    ensures Expiring(y, q, rfeeds, x.Running(), p, repeat, now)
    ensures forall w :: w in y.Running() ==> y.Running()[w] >= now
  {
    y, q, rfeeds := x, p, [];
    ghost var d := x.Running();
    assert Expiring(y, q, rfeeds, d, p, repeat, now) by {
      assert After(d, repeat, now, Elems([])) == d;
    }
    while y.n > 0 && y.h[HEAP0].at < now
      invariant Expiring(y, q, rfeeds, d, p, repeat, now)
      decreases |Due(d, now) - Elems(rfeeds)|
    {
      var w;
      y, q, w := ExpireNext(y, q, repeat, now, rfeeds, d, p);
      FewerLeft(d, now, rfeeds, w);
      rfeeds := rfeeds + [w];
    }
    NoneOverdue(y, now);
  }

  lemma NoneOverdue(y: TimerHeap, now: real)
    requires y.Ok() && (y.n > 0 ==> y.h[HEAP0].at >= now)
    ensures forall w :: w in y.Running() ==> y.Running()[w] >= now
  {
    RootIsEarliest(y);
  }

  // ---------- the loop object ----------

  class TimerLoop {
    var heap: TimerHeap
    var repeat: map<Watcher, real>
    var mnNow: real
    var pending: Dispatch.Pending

    ghost predicate Valid()
      reads this
    {
      && heap.Ok() && heap.act.Keys == repeat.Keys
      && (forall w :: w in repeat ==> repeat[w] >= 0.0)
      && pending.Consistent() && (forall w :: w in repeat ==> pending.Knows(w))
    }

    /** A loop with no running timer; every watcher has an `at`, a repeat and a priority. */
    constructor (at: map<Watcher, real>, repeat: map<Watcher, real>, priority: map<Watcher, nat>, numpri: nat)
      requires at.Keys == repeat.Keys == priority.Keys
      requires (forall w :: w in repeat ==> repeat[w] >= 0.0) && (forall w :: w in priority ==> priority[w] < numpri)
      ensures Valid() && heap.Running() == map[] && this.repeat == repeat
    {
      var act := map w | w in at :: 0;
      heap := TimerHeap(seq(HEAP0, _ => Anhe(0.0, 0)), 0, act, at);
      this.repeat, mnNow := repeat, 0.0;
      pending := Dispatch.Pending(seq(numpri, _ => []), map[], priority);
      new;
      forall w ensures ActiveOk(heap.h, 0, heap.act, w) && KeyOk(heap.h, heap.act, heap.at, w) {}
      forall w ensures pending.WatcherOk(w) {}
      forall l: nat, i: nat ensures pending.SlotOk(l, i) {}
    }

    method ClearPending(w: Watcher)
      requires Valid()
      modifies this`pending
      ensures Valid() && pending == Dispatch.ClearPending(old(pending), w)
    {
      Dispatch.ClearKeeps(pending, w);
      ghost var p := pending;
      pending := Dispatch.ClearPending(pending, w);
      forall v | v in repeat ensures pending.Knows(v) { assert p.Knows(v); }
    }

    method TimerStart(w: Watcher)
      requires Valid() && w in repeat
      modifies this`heap
      ensures Valid()
      ensures if old(heap).IsActive(w) then heap == old(heap)
              else heap.Running() == old(heap).Running()[w := old(heap).at[w] + mnNow]
    {
      if heap.IsActive(w) {
        return;
      }
      heap := Insert(heap, w, heap.at[w] + mnNow);
    }

    method TimerStop(w: Watcher)
      requires Valid() && w in repeat
      modifies this`heap, this`pending
      ensures Valid() && pending == Dispatch.ClearPending(old(pending), w)
      ensures heap.Running() == old(heap).Running() - {w}
      ensures heap.at == if old(heap).IsActive(w) then old(heap).at[w := old(heap).at[w] - mnNow] else old(heap).at
    {
      ClearPending(w);
      if !heap.IsActive(w) {
        assert w !in heap.Running();
        return;
      }
      heap := Stop(heap, w, mnNow);
    }

    method TimerAgain(w: Watcher)
      requires Valid() && w in repeat
      modifies this`heap, this`pending
      ensures Valid() && pending == Dispatch.ClearPending(old(pending), w)
      ensures heap.Running() == if repeat[w] != 0.0 then old(heap).Running()[w := mnNow + repeat[w]]
                                else old(heap).Running() - {w}
    {
      ClearPending(w);
      heap := Again(heap, w, repeat[w], mnNow);
    }

    /** The loop of `timers_reify`. */
    method CollectExpired() returns (rfeeds: seq<Watcher>)
      requires Valid()
      modifies this`heap, this`pending
      ensures Valid() && old(heap).Running().Keys <= repeat.Keys
      ensures Collected(rfeeds, old(heap).Running(), mnNow)
      ensures heap.Running() == After(old(heap).Running(), repeat, mnNow, Elems(rfeeds))
      ensures forall w :: w in heap.Running() ==> heap.Running()[w] >= mnNow
      ensures pending == ClearStopped(old(pending), rfeeds, repeat)
    {
      ghost var p0 := pending;
      heap, pending, rfeeds := Expire(heap, pending, repeat, mnNow);
      ClearStoppedKeeps(p0, rfeeds, repeat);
      forall v | v in repeat ensures pending.Knows(v) { assert p0.Knows(v); }
    }

    /** `feed_reverse_done`. */
    method FeedCollected(rfeeds: seq<Watcher>)
      requires Valid() && forall w :: w in rfeeds ==> w in repeat
      modifies this`pending
      ensures Valid() && forall w :: w in rfeeds ==> old(pending).Knows(w)
      ensures pending == Dispatch.FeedReversed(old(pending), rfeeds, {EV_TIMER})
    {
      ghost var p1 := pending;
      pending := Dispatch.FeedReversed(pending, rfeeds, {EV_TIMER});
      Dispatch.FeedReversedPlaces(p1, rfeeds, {EV_TIMER});
      forall v | v in repeat ensures pending.Knows(v) { assert p1.Knows(v); }
    }

    /** `timers_reify`. It terminates, collects exactly the timers overdue at entry, each
        once and in deadline order, feeds them, and leaves no running timer overdue. */
    method TimersReify() returns (rfeeds: seq<Watcher>)
      requires Valid()
      modifies this`heap, this`pending
      ensures Valid() && old(heap).Running().Keys <= repeat.Keys
      ensures Collected(rfeeds, old(heap).Running(), mnNow) && Elems(rfeeds) == Due(old(heap).Running(), mnNow)
      ensures heap.Running() == After(old(heap).Running(), repeat, mnNow, Due(old(heap).Running(), mnNow))
      ensures forall w :: w in heap.Running() ==> heap.Running()[w] >= mnNow
      ensures var p1 := ClearStopped(old(pending), rfeeds, repeat);
        p1.Consistent() && (forall w :: w in rfeeds ==> p1.Knows(w))
        && pending == Dispatch.FeedReversed(p1, rfeeds, {EV_TIMER})
    {
      ghost var d := heap.Running();
      rfeeds := CollectExpired();
      AllCollected(rfeeds, d, repeat, mnNow);
      FeedCollected(rfeeds);
    }
  }

  lemma Grown(h: Heap, h': Heap, n: nat, act: Active)
    requires Indexed(h, n, act) && Ordered(h, n) && |h| <= |h'| && h == h'[..|h|]
    ensures Indexed(h', n, act) && Ordered(h', n)
  {
    forall i | 0 <= i < |h| ensures h'[i] == h[i] { assert h'[..|h|][i] == h'[i]; }
    forall i | HEAP0 < i < HEAP0 + n ensures LinkOk(h', i) { assert LinkOk(h, i); }
    forall i | HEAP0 <= i < HEAP0 + n ensures EntryOk(h', act, i) { assert EntryOk(h, act, i); }
    forall v ensures ActiveOk(h', n, act, v) { assert ActiveOk(h, n, act, v); }
  }
}
