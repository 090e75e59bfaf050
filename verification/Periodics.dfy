/** Absolute timers: the next occurrence of a periodic watcher, and the rebuilding of the
    periodics heap after the clock jumped. Times are exact reals. */
module Periodics {
  import opened Options
  import opened Heap4
  import opened Timers

  // ---------- floor without libm ----------

  /** `ev_floor`, the replacement for `floor`, with a shift of 2^64: exact for every real. */
  function EvFloor(v: real): (r: real)
    ensures r == v.Floor as real
    decreases v < 0.0, v.Floor
  {
    if v >= 18446744073709551616.0 then
      FloorOfShifted(v);
      var f := 18446744073709551616.0 * EvFloor(v / 18446744073709551616.0);
      f + EvFloor(v - f)
    else if v < 0.0 then
      FloorOfNegated(v);
      var f := -EvFloor(-v);
      f - (if f == v then 0.0 else 1.0)
    else
      // conversion to unsigned long truncates
      v.Floor as real
  }

  lemma FloorOfShifted(v: real)
    requires v >= 18446744073709551616.0
    ensures var k := (v / 18446744073709551616.0).Floor;
      var rest := v - 18446744073709551616.0 * (k as real);
      && 0 <= k < v.Floor && 0.0 <= rest && rest.Floor < v.Floor
      && 18446744073709551616.0 * (k as real) + rest.Floor as real == v.Floor as real
  {
    var k := (v / 18446744073709551616.0).Floor;
    var n := 18446744073709551616 * k;
    assert 18446744073709551616.0 * (k as real) == n as real;
    var rest := v - n as real;
    assert rest.Floor == v.Floor - n;
  }

  lemma FloorOfNegated(v: real)
    ensures var f := -((-v).Floor as real); v.Floor as real == f - (if f == v then 0.0 else 1.0)
  {
    var n := (-v).Floor;
    if v == -(n as real) {
      FloorIs(v, -n);
    } else {
      FloorIs(v, -n - 1);
    }
  }

  lemma FloorIs(v: real, k: int)
    requires k as real <= v < k as real + 1.0
    ensures v.Floor == k
  {
  }

  // ---------- the next occurrence ----------

  const MIN_INTERVAL: real := 0.0001220703125

  lemma Scale(a: real, b: real, m: real)
    requires a <= b && m > 0.0
    ensures m * a <= m * b && (a < b ==> m * a < m * b)
  {
    if a < b {
      assert m * (b - a) > 0.0;
    }
  }

  /** Whole intervals that fit into `x`. */
  lemma WholeIntervals(x: real, m: real) returns (k: int)
    requires m > 0.0
    ensures k == (x / m).Floor && m * (k as real) <= x < m * ((k + 1) as real)
  {
    k := (x / m).Floor;
    var q := x / m;
    assert m * q == x;
    assert k as real <= q < (k + 1) as real;
    Scale(k as real, q, m);
    Scale(q, (k + 1) as real, m);
  }

  lemma OneMore(m: real, k: int)
    ensures m * ((k + 1) as real) == m * (k as real) + m
  {
  }

  ghost predicate OnGrid(t: real, offset: real, interval: real, k: int) { t == offset + interval * (k as real) }

  /** How many more intervals fit into the time that is left. */
  ghost function Steps(d: real, m: real): int
    requires m > 0.0
  {
    (d / m).Floor
  }

  lemma QuotientIs(x: real, m: real, q: real)
    requires m > 0.0 && q * m == x
    ensures x / m == q
  {
    var r := x / m;
    assert r * m == x;
    assert (r - q) * m == 0.0;
  }

  lemma StepsDrop(d: real, m: real)
    requires m > 0.0 && d >= 0.0
    ensures Steps(d, m) >= 0 && Steps(d - m, m) == Steps(d, m) - 1
  {
    var q := d / m;
    assert q * m == d && q >= 0.0;
    assert (q - 1.0) * m == d - m;
    QuotientIs(d - m, m, q - 1.0);
  }

  lemma NextOnGrid(t: real, offset: real, interval: real, k: int)
    requires OnGrid(t, offset, interval, k)
    ensures OnGrid(t + interval, offset, interval, k + 1)
  {
    OneMore(interval, k);
  }

  /** The grid point at or just before `now`. */
  method LastOccurrence(offset: real, step: real, now: real) returns (at: real, ghost k: int)
    requires step > 0.0
    ensures at <= now < at + step && OnGrid(at, offset, step, k)
  {
    k := WholeIntervals(now - offset, step);
    OneMore(step, k);
    var whole := step * EvFloor((now - offset) / step);
    assert EvFloor((now - offset) / step) == k as real;
    at := offset + whole;
  }

  /** `periodic_recalc`: the time of the next occurrence after `now`. */
  method PeriodicRecalc(offset: real, interval: real, now: real) returns (at: real, ghost k: int)
    requires interval >= 0.0
    ensures interval > 0.0 ==> now < at <= now + interval
    ensures interval > MIN_INTERVAL ==> OnGrid(at, offset, interval, k)
    ensures interval == 0.0 ==> at == now
  {
    at, k := LastOccurrence(offset, if interval > MIN_INTERVAL then interval else MIN_INTERVAL, now);
    while at <= now
      invariant interval > 0.0 ==> at <= now + interval
      invariant interval > MIN_INTERVAL ==> OnGrid(at, offset, interval, k)
      invariant interval == 0.0 ==> at <= now
      decreases if interval > 0.0 then Steps(now - at, interval) else 0
    {
      if interval > 0.0 {
        StepsDrop(now - at, interval);
        assert now - (at + interval) == now - at - interval;
        if interval > MIN_INTERVAL { NextOnGrid(at, offset, interval, k); }
      }
      var next := at + interval;
      if next == at {
        at := now;
        break;
      }
      at := next;
      k := k + 1;
    }
  }

  /** There is exactly one grid point in the half-open interval after `now`. */
  lemma NextOccurrenceIsUnique(offset: real, interval: real, now: real, k: int, k': int)
    requires interval > 0.0
    requires now < offset + interval * (k as real) <= now + interval
    requires now < offset + interval * (k' as real) <= now + interval
    ensures k == k'
  {
    var a, b := interval * (k as real), interval * (k' as real);
    GridGap(interval, k, k', a, b);
    GridGap(interval, k', k, b, a);
  }

  lemma GridGap(m: real, k: int, k': int, a: real, b: real)
    requires m > 0.0 && a == m * (k as real) && b == m * (k' as real)
    ensures k < k' ==> a + m <= b
  {
    if k < k' {
      OneMore(m, k);
      Scale((k + 1) as real, k' as real, m);
    }
  }

  // ---------- rescheduling after a time jump ----------

  /** `callback` is what `reschedule_cb` returns for the current time, if there is one. */
  datatype Periodic = Periodic(offset: real, interval: real, callback: Option<real>)

  /** The deadline `t'` a periodic gets when its old one was `t`. */
  ghost predicate Rescheduled(p: Periodic, now: real, t: real, t': real) {
    if p.callback.Some? then t' == p.callback.value
    else if p.interval != 0.0 then
      now < t' <= now + p.interval && (p.interval > MIN_INTERVAL ==> exists k :: OnGrid(t', p.offset, p.interval, k))
    else t' == t
  }

  /** The loop of `periodics_reschedule` before `reheap`: new keys, old places. */
  method Recalculate(x: TimerHeap, ps: map<Watcher, Periodic>, now: real) returns (y: TimerHeap)
    requires x.Ok() && ps.Keys == x.act.Keys && forall w :: w in ps ==> ps[w].interval >= 0.0
    ensures y.n == x.n && y.act == x.act && Indexed(y.h, y.n, y.act) && Cached(y.h, y.act, y.at)
    ensures y.at.Keys == x.at.Keys
    ensures forall w :: w in x.act && x.act[w] != 0 ==> Rescheduled(ps[w], now, x.at[w], y.at[w])
    ensures forall w :: w in x.act && x.act[w] == 0 ==> y.at[w] == x.at[w]
  {
    var h, at := x.h, x.at;
    for i := HEAP0 to HEAP0 + x.n
      invariant |h| == |x.h| && at.Keys == x.at.Keys
      invariant forall j :: 0 <= j < |h| ==> h[j].w == x.h[j].w
      invariant forall j :: HEAP0 <= j < i ==>
        EntryOk(x.h, x.act, j) && h[j].at == at[h[j].w] && Rescheduled(ps[h[j].w], now, x.at[h[j].w], at[h[j].w])
      invariant forall w :: w in x.act && (x.act[w] == 0 || x.act[w] >= i) ==> at[w] == x.at[w]
    {
      var w := h[i].w;
      assert EntryOk(x.h, x.act, i);
      var p := ps[w];
      var t := at[w];
      if p.callback.Some? {
        t := p.callback.value;
      } else if p.interval != 0.0 {
        ghost var k;
        t, k := PeriodicRecalc(p.offset, p.interval, now);
      }
      at := at[w := t];
      h := h[i := Anhe(t, w)];
    }
    y := TimerHeap(h, x.n, x.act, at);
    forall j | HEAP0 <= j < HEAP0 + x.n ensures EntryOk(h, x.act, j) { assert EntryOk(x.h, x.act, j); }
    forall w
      ensures ActiveOk(h, x.n, x.act, w) && KeyOk(h, x.act, at, w)
      ensures w in x.act && x.act[w] != 0 ==> Rescheduled(ps[w], now, x.at[w], at[w])
    {
      assert ActiveOk(x.h, x.n, x.act, w);
    }
  }

  /** `periodics_reschedule`: every running periodic gets its next occurrence, and the heap
      is in order again although all keys may have changed. */
  method PeriodicsReschedule(x: TimerHeap, ps: map<Watcher, Periodic>, now: real) returns (y: TimerHeap)
    requires x.Ok() && ps.Keys == x.act.Keys && forall w :: w in ps ==> ps[w].interval >= 0.0
    ensures y.Ok() && y.act.Keys == x.act.Keys && y.Running().Keys == x.Running().Keys
    ensures forall w :: w in x.Running() ==> w in ps && Rescheduled(ps[w], now, x.Running()[w], y.Running()[w])
  {
    var z := Recalculate(x, ps, now);
    var h, act := Reheap(z.h, z.act, z.n);
    CachedMoves(z.h, z.act, h, act, z.n, z.at);
    y := TimerHeap(h, z.n, act, z.at);
    SameRunning(z, y);
  }
}
