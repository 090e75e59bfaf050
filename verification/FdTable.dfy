/** I/O watchers, the lazily reified descriptor table, and the `poll` backend it is kept in. */
module FdTable {

  type Fd = nat
  type Watcher = nat

  datatype Event = Read | Write
  datatype PollEvent = PollIn | PollOut

  function ToPoll(events: set<Event>): (s: set<PollEvent>) {
    (if Read in events then {PollIn} else {}) + (if Write in events then {PollOut} else {})
  }

  /** No two event masks look the same to `poll`. */
  lemma ToPollIsInjective(a: set<Event>, b: set<Event>)
    ensures ToPoll(a) == ToPoll(b) <==> a == b
  {
    if ToPoll(a) == ToPoll(b) {
      assert PollIn in ToPoll(a) <==> Read in a;
      assert PollIn in ToPoll(b) <==> Read in b;
      assert PollOut in ToPoll(a) <==> Write in a;
      assert PollOut in ToPoll(b) <==> Write in b;
      forall e: Event ensures e in a <==> e in b { match e { case Read => case Write => } }
    }
  }

  // ---------- the poll backend ----------

  datatype PollFd = PollFd(fd: Fd, events: set<PollEvent>)

  ghost predicate IndexOk(polls: seq<PollFd>, idxs: seq<int>, fd: Fd) {
    fd < |idxs| ==> -1 <= idxs[fd] < |polls| && (idxs[fd] >= 0 ==> polls[idxs[fd]].fd == fd)
  }

  ghost predicate PollOk(polls: seq<PollFd>, idxs: seq<int>, i: nat) {
    i < |polls| ==> polls[i].fd < |idxs| && idxs[polls[i].fd] == i && polls[i].events != {}
  }

  /** `polls` and `pollidxs` are inverse to each other, and nothing is polled for nothing. */
  ghost predicate Bijective(polls: seq<PollFd>, idxs: seq<int>) {
    && (forall fd: Fd :: IndexOk(polls, idxs, fd))
    && (forall i: nat :: PollOk(polls, idxs, i))
  }

  /** What the kernel would be asked about `fd`. */
  ghost function Polled(polls: seq<PollFd>, fd: Fd): set<PollEvent> {
    set i, e | 0 <= i < |polls| && polls[i].fd == fd && e in polls[i].events :: e
  }

  lemma PolledAt(polls: seq<PollFd>, idxs: seq<int>, fd: Fd)
    requires Bijective(polls, idxs)
    ensures Polled(polls, fd) == if fd < |idxs| && 0 <= idxs[fd] < |polls| then polls[idxs[fd]].events else {}
  {
    assert IndexOk(polls, idxs, fd);
    forall i | 0 <= i < |polls| && polls[i].fd == fd ensures fd < |idxs| && i == idxs[fd] {
      assert PollOk(polls, idxs, i);
    }
  }

  class PollTable {
    var polls: seq<PollFd>
    var pollidxs: seq<int>

    ghost predicate Valid() reads this { Bijective(polls, pollidxs) }

    constructor ()
      ensures Valid() && polls == []
    {
      polls, pollidxs := [], [];
    }

    /** `poll_modify`: one entry appears, changes or is replaced by the last one. */
    method Modify(fd: Fd, oev: set<Event>, nev: set<Event>)
      requires Valid()
      modifies this
      ensures Valid()
      ensures oev == nev ==> polls == old(polls) && pollidxs == old(pollidxs)
      ensures oev != nev ==> Polled(polls, fd) == ToPoll(nev)
      ensures forall other: Fd :: other != fd ==> Polled(polls, other) == Polled(old(polls), other)
    {
      if oev == nev { return; }
      if |pollidxs| <= fd { pollidxs := pollidxs + seq(fd + 1 - |pollidxs|, _ => -1); }
      ghost var p0, x0 := polls, pollidxs;
      assert Bijective(p0, x0) by {
        forall f: Fd ensures IndexOk(p0, x0, f) { assert IndexOk(polls, old(pollidxs), f); }
        forall i: nat ensures PollOk(p0, x0, i) { assert PollOk(polls, old(pollidxs), i); }
      }
      var idx := pollidxs[fd];
      assert IndexOk(p0, x0, fd);
      if idx < 0 {
        idx := |polls|;
        pollidxs := pollidxs[fd := idx];
        polls := polls + [PollFd(fd, {})];
      }
      if nev != {} {
        polls := polls[idx := PollFd(fd, ToPoll(nev))];
        ToPollIsInjective(nev, {});
        Updated(p0, x0, fd, ToPoll(nev), idx, polls, pollidxs);
      } else {
        pollidxs := pollidxs[fd := -1];
        var last := |polls| - 1;
        if idx < last {
          assert PollOk(p0, x0, last);
          polls := polls[idx := polls[last]];
          pollidxs := pollidxs[polls[idx].fd := idx];
        }
        polls := polls[..last];
        Removed(p0, x0, fd, polls, pollidxs);
      }
    }
  }

  ghost predicate Elsewhere(p: seq<PollFd>, p': seq<PollFd>, fd: Fd) {
    forall other: Fd :: other != fd ==> Polled(p', other) == Polled(p, other)
  }

  lemma Updated(p: seq<PollFd>, x: seq<int>, fd: Fd, ev: set<PollEvent>, idx: nat, p': seq<PollFd>, x': seq<int>)
    requires Bijective(p, x) && fd < |x| && ev != {}
    requires idx == if x[fd] < 0 then |p| else x[fd]
    requires p' == if idx == |p| then p + [PollFd(fd, ev)] else if idx < |p| then p[idx := PollFd(fd, ev)] else p
    requires x' == x[fd := idx]
    ensures Bijective(p', x') && Polled(p', fd) == ev && Elsewhere(p, p', fd)
  {
    assert IndexOk(p, x, fd);
    forall i: nat ensures PollOk(p', x', i) { assert PollOk(p, x, i); }
    forall f: Fd ensures IndexOk(p', x', f) { assert IndexOk(p, x, f); }
    PolledAt(p', x', fd);
    forall other: Fd | other != fd ensures Polled(p', other) == Polled(p, other) {
      assert IndexOk(p, x, other);
      PolledAt(p, x, other);
      PolledAt(p', x', other);
    }
  }

  /** Removing the entry of `fd`: the last entry takes its place. */
  lemma Removed(p: seq<PollFd>, x: seq<int>, fd: Fd, p': seq<PollFd>, x': seq<int>)
    requires Bijective(p, x) && fd < |x| && |x'| == |x|
    requires x[fd] < 0 ==> p' == p && x' == x[fd := -1]
    requires x[fd] >= 0 ==> IndexOk(p, x, fd) && PollOk(p, x, |p| - 1) && p' == p[x[fd] := p[|p| - 1]][..|p| - 1]
    requires x[fd] >= 0 ==> x' == if x[fd] < |p| - 1 then x[fd := -1][p[|p| - 1].fd := x[fd]] else x[fd := -1]
    ensures Bijective(p', x') && Polled(p', fd) == {} && Elsewhere(p, p', fd)
  {
    assert IndexOk(p, x, fd);
    forall i: nat ensures PollOk(p', x', i) { assert PollOk(p, x, i); }
    forall f: Fd ensures IndexOk(p', x', f) { assert IndexOk(p, x, f); }
    PolledAt(p', x', fd);
    forall other: Fd | other != fd ensures Polled(p', other) == Polled(p, other) {
      assert IndexOk(p, x, other);
      PolledAt(p, x, other);
      PolledAt(p', x', other);
    }
  }

  // ---------- watchers and the descriptor table ----------

  /** `fdSet` is the EV__IOFDSET bit of the event mask: the descriptor was (re)assigned. */
  datatype Io = Io(fd: Fd, events: set<Event>, fdSet: bool, active: bool)

  /** The reify byte: EV_ANFD_REIFY and EV__IOFDSET. */
  datatype Reify = Reify(changed: bool, fdSet: bool) {
    predicate Pending() { changed || fdSet }
    function Or(other: Reify): Reify { Reify(changed || other.changed, fdSet || other.fdSet) }
  }

  datatype Anfd = Anfd(head: seq<Watcher>, events: set<Event>, reify: Reify)

  const BLANK := Anfd([], {}, Reify(false, false))

  /** The union of the events of the started watchers of `fd`: what the loop should wait for. */
  ghost function Wanted(io: map<Watcher, Io>, fd: Fd): set<Event> {
    set w, e | w in io && io[w].active && io[w].fd == fd && e in io[w].events :: e
  }

  /** Some started watcher of `fd` waits for `e`. */
  ghost predicate Wants(io: map<Watcher, Io>, fd: Fd, e: Event) {
    exists w :: w in io && io[w].active && io[w].fd == fd && e in io[w].events
  }

  /** The kernel is asked whether `fd` can be read if and only if some started watcher wants to
      read it, and whether it can be written if and only if some started watcher wants to write. */
  ghost predicate AskedAsWanted(polls: seq<PollFd>, io: map<Watcher, Io>, fd: Fd) {
    (PollIn in Polled(polls, fd) <==> Wants(io, fd, Read)) && (PollOut in Polled(polls, fd) <==> Wants(io, fd, Write))
  }

  lemma AskedIs(polls: seq<PollFd>, io: map<Watcher, Io>, fd: Fd)
    requires Polled(polls, fd) == ToPoll(Wanted(io, fd))
    ensures AskedAsWanted(polls, io, fd)
  {
    assert Read in Wanted(io, fd) <==> Wants(io, fd, Read);
    assert Write in Wanted(io, fd) <==> Wants(io, fd, Write);
  }

  lemma WantedElsewhere(io: map<Watcher, Io>, w: Watcher, x: Io, fd: Fd)
    requires w in io && io[w].active ==> io[w].fd != fd
    requires x.active ==> x.fd != fd
    ensures Wanted(io[w := x], fd) == Wanted(io, fd)
  {
    var io' := io[w := x];
    forall e ensures e in Wanted(io', fd) <==> e in Wanted(io, fd) {
      if e in Wanted(io', fd) {
        var v :| v in io' && io'[v].active && io'[v].fd == fd && e in io'[v].events;
        assert v in io && io[v] == io'[v];
      }
      if e in Wanted(io, fd) {
        var v :| v in io && io[v].active && io[v].fd == fd && e in io[v].events;
        assert v in io' && io[v] == io'[v];
      }
    }
  }

  ghost function Slot(anfds: seq<Anfd>, fd: Fd): Anfd { if fd < |anfds| then anfds[fd] else BLANK }

  ghost predicate Distinct<T(!new)>(s: seq<T>) { forall i, j :: 0 <= i < j < |s| ==> s[i] != s[j] }

  /** The watcher list of `fd` holds exactly its started watchers, each once. */
  ghost predicate ListOk(anfds: seq<Anfd>, io: map<Watcher, Io>, fd: Fd) {
    && Distinct(Slot(anfds, fd).head)
    && (forall w :: w in Slot(anfds, fd).head <==> w in io && io[w].active && io[w].fd == fd)
  }

  /** A descriptor that is not up to date is queued; all others are. */
  ghost predicate SlotOk(anfds: seq<Anfd>, changes: seq<Fd>, io: map<Watcher, Io>, fd: Fd) {
    && (Slot(anfds, fd).reify.Pending() <==> fd in changes)
    && (!Slot(anfds, fd).reify.Pending() ==> Slot(anfds, fd).events == Wanted(io, fd))
  }

  class IoLoop {
    var io: map<Watcher, Io>
    var anfds: seq<Anfd>
    var fdchanges: seq<Fd>
    const backend: PollTable

    ghost predicate Valid() reads this, backend {
      && backend.Valid() && Distinct(fdchanges)
      && (forall fd :: ListOk(anfds, io, fd))
      && (forall fd :: SlotOk(anfds, fdchanges, io, fd))
      && (forall fd :: Polled(backend.polls, fd) == ToPoll(Slot(anfds, fd).events))
    }

    constructor ()
      ensures Valid() && fresh(backend) && io == map[]
    {
      io, anfds, fdchanges := map[], [], [];
      backend := new PollTable();
    }

    /** `fd_change`: queue the descriptor unless it is queued already. */
    method FdChange(fd: Fd, flags: Reify)
      requires fd < |anfds| && flags.Pending() && Distinct(fdchanges)
      requires anfds[fd].reify.Pending() <==> fd in fdchanges
      modifies this`anfds, this`fdchanges
      ensures anfds == old(anfds)[fd := old(anfds)[fd].(reify := old(anfds)[fd].reify.Or(flags))]
      ensures Distinct(fdchanges)
      ensures forall f :: f in fdchanges <==> f == fd || f in old(fdchanges)
    {
      var reify := anfds[fd].reify;
      anfds := anfds[fd := anfds[fd].(reify := reify.Or(flags))];
      if !reify.Pending() { fdchanges := fdchanges + [fd]; }
    }

    /** `ev_io_init` and `ev_io_set` on a watcher that is not running. */
    method IoSet(w: Watcher, fd: Fd, events: set<Event>)
      requires Valid() && (w in io ==> !io[w].active)
      modifies this`io
      ensures Valid() && io == old(io)[w := Io(fd, events, true, false)]
    {
      ghost var was := io;
      io := io[w := Io(fd, events, true, false)];
      forall f ensures ListOk(anfds, io, f) && SlotOk(anfds, fdchanges, io, f) {
        assert ListOk(anfds, was, f) && SlotOk(anfds, fdchanges, was, f);
        WantedElsewhere(was, w, io[w], f);
      }
    }

    method IoStart(w: Watcher)
      requires Valid() && w in io
      modifies this`io, this`anfds, this`fdchanges
      ensures Valid()
      ensures io == if old(io)[w].active then old(io) else old(io)[w := old(io)[w].(active := true, fdSet := false)]
    {
      if io[w].active { return; }
      var fd := io[w].fd;
      ghost var anfds0, io0, changes0 := anfds, io, fdchanges;
      if |anfds| <= fd { anfds := anfds + seq(fd + 1 - |anfds|, _ => BLANK); }
      assert ListOk(anfds0, io0, fd) && SlotOk(anfds0, changes0, io0, fd);
      anfds := anfds[fd := anfds[fd].(head := [w] + anfds[fd].head)];
      FdChange(fd, Reify(true, io[w].fdSet));
      io := io[w := io[w].(active := true, fdSet := false)];
      forall f ensures ListOk(anfds, io, f) && SlotOk(anfds, fdchanges, io, f)
        && Slot(anfds, f).events == Slot(anfds0, f).events
      {
        assert ListOk(anfds0, io0, f) && SlotOk(anfds0, changes0, io0, f);
        if f != fd { WantedElsewhere(io0, w, io[w], f); }
      }
    }

    method IoStop(w: Watcher)
      requires Valid() && w in io
      modifies this`io, this`anfds, this`fdchanges
      ensures Valid()
      ensures io == old(io)[w := old(io)[w].(active := false)]
    {
      if !io[w].active { return; }
      var fd := io[w].fd;
      ghost var anfds0, io0, changes0 := anfds, io, fdchanges;
      assert ListOk(anfds0, io0, fd) && SlotOk(anfds0, changes0, io0, fd);
      var head := WlistDel(anfds[fd].head, w);
      anfds := anfds[fd := anfds[fd].(head := head)];
      io := io[w := io[w].(active := false)];
      FdChange(fd, Reify(true, false));
      forall f ensures ListOk(anfds, io, f) && SlotOk(anfds, fdchanges, io, f)
        && Slot(anfds, f).events == Slot(anfds0, f).events
      {
        assert ListOk(anfds0, io0, f) && SlotOk(anfds0, changes0, io0, f);
        if f != fd { WantedElsewhere(io0, w, io[w], f); }
      }
    }

    /** The inner loop of `fd_reify`: the union over the watcher list. */
    method ListEvents(fd: Fd) returns (events: set<Event>)
      requires fd < |anfds| && ListOk(anfds, io, fd)
      ensures events == Wanted(io, fd)
    {
      var head := anfds[fd].head;
      assert head == Slot(anfds, fd).head;
      events := {};
      for i := 0 to |head|
        invariant forall e :: e in events <==> exists j :: 0 <= j < i && head[j] in io && e in io[head[j]].events
      {
        assert head[i] in head;
        events := events + io[head[i]].events;
      }
      forall e ensures e in events <==> e in Wanted(io, fd) {
        if e in Wanted(io, fd) {
          var w :| w in io && io[w].active && io[w].fd == fd && e in io[w].events;
          assert w in head;
        }
        if e in events {
          var j :| 0 <= j < |head| && head[j] in io && e in io[head[j]].events;
          assert head[j] in head;
        }
      }
    }

    /** `fd_reify`: afterwards the kernel is asked about exactly what the started watchers want. */
    method FdReify()
      requires Valid()
      modifies this`anfds, this`fdchanges, backend
      ensures Valid() && fdchanges == []
      ensures forall fd :: Polled(backend.polls, fd) == ToPoll(Wanted(io, fd))
      ensures forall fd :: AskedAsWanted(backend.polls, io, fd)
    {
      ghost var rest := fdchanges;
      for i := 0 to |fdchanges|
        invariant backend.Valid() && fdchanges == old(fdchanges) && rest == fdchanges[i..]
        invariant forall fd :: ListOk(anfds, io, fd)
        invariant forall fd :: SlotOk(anfds, rest, io, fd)
        invariant forall fd :: Polled(backend.polls, fd) == ToPoll(Slot(anfds, fd).events)
      {
        var fd := fdchanges[i];
        ghost var anfds0 := anfds;
        assert SlotOk(anfds, rest, io, fd) && ListOk(anfds, io, fd);
        assert rest == [fd] + fdchanges[i + 1..];
        ghost var rest0 := rest;
        var anfd := anfds[fd];
        var events := ListEvents(fd);
        anfds := anfds[fd := Anfd(anfd.head, events, Reify(false, false))];
        if anfd.reify.fdSet || anfd.events != events {
          backend.Modify(fd, anfd.events, events);
        }
        rest := fdchanges[i + 1..];
        forall f ensures ListOk(anfds, io, f) && SlotOk(anfds, rest, io, f) {
          assert ListOk(anfds0, io, f) && SlotOk(anfds0, rest0, io, f);
        }
      }
      fdchanges := [];
      forall f ensures SlotOk(anfds, [], io, f) && Slot(anfds, f).events == Wanted(io, f) {
        assert SlotOk(anfds, rest, io, f);
      }
      forall f ensures AskedAsWanted(backend.polls, io, f) { AskedIs(backend.polls, io, f); }
    }

    /** `fd_event`: the events fed for a descriptor the kernel reported. A descriptor that
        changed since the table was last brought up to date is skipped. */
    method FdEvent(fd: Fd, revents: set<Event>) returns (fed: seq<(Watcher, set<Event>)>)
      requires Valid() && fd < |anfds|
      ensures fd in fdchanges ==> fed == []
      ensures fd !in fdchanges ==>
        forall w, ev :: (w, ev) in fed <==>
          w in io && io[w].active && io[w].fd == fd && ev == io[w].events * revents && ev != {}
      ensures forall i, j :: 0 <= i < j < |fed| ==> fed[i].0 != fed[j].0
    {
      assert ListOk(anfds, io, fd) && SlotOk(anfds, fdchanges, io, fd);
      fed := [];
      if anfds[fd].reify.Pending() { return; }
      var head := anfds[fd].head;
      assert head == Slot(anfds, fd).head;
      for k := 0 to |head|
        invariant forall x :: x in fed ==> exists j :: 0 <= j < k && head[j] == x.0
        invariant forall w, ev :: (w, ev) in fed <==>
          w in head[..k] && w in io && ev == io[w].events * revents && ev != {}
        invariant forall i, j :: 0 <= i < j < |fed| ==> fed[i].0 != fed[j].0
      {
        assert head[k] in head;
        var w := head[k];
        var ev := io[w].events * revents;
        forall i | 0 <= i < |fed| ensures fed[i].0 != w { assert fed[i] in fed; }
        assert head[..k + 1] == head[..k] + [w];
        if ev != {} { fed := fed + [(w, ev)]; }
      }
      assert head[..|head|] == head;
    }

    /** One call into the loop. */
    method Apply(op: Op)
      requires Valid() && Legal(io, op)
      modifies this, backend
      ensures Valid() && io == After(old(io), op)
    {
      match op
      case Set(w, fd, events) => IoSet(w, fd, events);
      case Start(w) => IoStart(w);
      case Stop(w) => IoStop(w);
      case Update => FdReify();
    }

    /** Whatever was started and stopped, in whatever order and with whatever table updates in
        between: one more `fd_reify` and the poll table is the one the watchers call for. */
    method RunAndReify(ops: seq<Op>)
      requires Valid() && AllLegal(io, ops)
      modifies this, backend
      ensures Valid() && io == AfterAll(old(io), ops)
      ensures forall fd :: Polled(backend.polls, fd) == ToPoll(Wanted(AfterAll(old(io), ops), fd))
      ensures forall fd :: AskedAsWanted(backend.polls, AfterAll(old(io), ops), fd)
    {
      for i := 0 to |ops|
        invariant Valid() && AllLegal(io, ops[i..])
        invariant AfterAll(io, ops[i..]) == AfterAll(old(io), ops)
      {
        assert ops[i..][1..] == ops[i + 1..];
        Apply(ops[i]);
      }
      FdReify();
    }
  }

  // ---------- runs ----------

  datatype Op = Set(w: Watcher, fd: Fd, events: set<Event>) | Start(w: Watcher) | Stop(w: Watcher) | Update

  /** A watcher is set up while it is not running, and before it is started or stopped. */
  ghost predicate Legal(io: map<Watcher, Io>, op: Op) {
    match op
    case Set(w, _, _) => w in io ==> !io[w].active
    case Start(w) => w in io
    case Stop(w) => w in io
    case Update => true
  }

  /** The watchers alone, without any table. */
  ghost function After(io: map<Watcher, Io>, op: Op): map<Watcher, Io>
    requires Legal(io, op)
  {
    match op
    case Set(w, fd, events) => io[w := Io(fd, events, true, false)]
    case Start(w) => if io[w].active then io else io[w := io[w].(active := true, fdSet := false)]
    case Stop(w) => io[w := io[w].(active := false)]
    case Update => io
  }

  ghost predicate AllLegal(io: map<Watcher, Io>, ops: seq<Op>)
    decreases |ops|
  {
    ops == [] || (Legal(io, ops[0]) && AllLegal(After(io, ops[0]), ops[1..]))
  }

  ghost function AfterAll(io: map<Watcher, Io>, ops: seq<Op>): map<Watcher, Io>
    requires AllLegal(io, ops)
    decreases |ops|
  {
    if ops == [] then io else AfterAll(After(io, ops[0]), ops[1..])
  }

  /** `wlist_del`: unlink the first occurrence. */
  method WlistDel(list: seq<Watcher>, w: Watcher) returns (r: seq<Watcher>)
    requires Distinct(list)
    ensures Distinct(r)
    ensures forall v :: v in r <==> v in list && v != w
  {
    for i := 0 to |list|
      invariant forall j :: 0 <= j < i ==> list[j] != w
    {
      if list[i] == w { return list[..i] + list[i + 1..]; }
    }
    return list;
  }
}
