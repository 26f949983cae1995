/**
 * Whole runs over the event table: what each operation does in agreement, when an assertion
 * fires, that every registration is delivered once, dropped, or still in its slot, and what a
 * resize costs that cuts registered contexts off the table.
 */
module EventRuns {
  import opened Common
  import opened EventTable

  /**
   * The lock regions of any threads, in any order. A thread that has taken a context from the
   * table works on it later, whether or not a resize has cut it off meanwhile; the dispatch
   * loop takes it from data.ptr. ResizeOp is addEvent under the write lock, for a descriptor
   * that was beyond the table at its size test.
   */
  datatype Op =
    | ResizeOp(fd: nat)
    | AddOp(c: nat, d: Dir, scheduler: nat, task: Task, works: bool)
    | DelOp(c: nat, d: Dir, works: bool)
    | CancelOp(c: nat, d: Dir, works: bool)
    | CancelAllOp(c: nat, works: bool)
    | DispatchOp(c: nat, report: set<Report>, works: bool)

  predicate Named(s: State, op: Op) {
    op.ResizeOp? || op.c < |s.contexts|
  }

  function Apply(masked: bool, s: State, op: Op): Outcome
    requires Named(s, op)
  {
    match op
    case ResizeOp(fd) => if fd >= Grown(fd) then Stopped(114) else Returned(Resized(s, Grown(fd)), true)
    case AddOp(c, d, scheduler, task, works) => AddTo(s, c, d, scheduler, task, works)
    case DelOp(c, d, works) => DelFrom(s, c, d, works)
    case CancelOp(c, d, works) => CancelOn(s, c, d, works)
    case CancelAllOp(c, works) => CancelAllOn(s, c, works)
    case DispatchOp(c, report, works) => Dispatch(masked, s, c, report, works)
  }

  /** One entry of the array epoll_wait fills, with the luck of its kernel call. */
  datatype Turn = Turn(c: nat, report: set<Report>, works: bool)

  /** The dispatch loop, up to the first stop. */
  function DispatchTurns(masked: bool, s: State, turns: seq<Turn>): (o: Outcome)
    requires forall t <- turns :: t.c < |s.contexts|
    ensures o.Returned? ==> |o.s.contexts| == |s.contexts|
    decreases |turns|
  {
    if turns == [] then Returned(s, true)
    else
      assert turns[0] in turns;
      var o := Dispatch(masked, s, turns[0].c, turns[0].report, turns[0].works);
      if o.Stopped? then o else DispatchTurns(masked, o.s, turns[1..])
  }

  /** The state after taking some registered directions of a context out, handing over `handed`. */
  ghost predicate TookOut(s: State, s': State, c: nat, dirs: set<Dir>, handed: seq<Delivery>) {
    && c < |s.contexts| && dirs <= s.contexts[c].events
    && s' == s.(
         contexts := s.contexts[c := Without(s.contexts[c], dirs)],
         kernel := s'.kernel,
         pending := s.pending - |dirs|,
         delivered := s.delivered + handed)
    && Agrees(s')
  }

  // ------------------------------------- what every operation does in agreement

  lemma AgreesWithout(s: State, c: nat, dirs: set<Dir>, k: Kernel, delivered: seq<Delivery>)
    requires Agrees(s) && c < |s.contexts| && dirs <= s.contexts[c].events && s.contexts[c].events != {}
    requires var (fd, left) := (s.contexts[c].fd, s.contexts[c].events - dirs);
      k == if left == {} then s.kernel - {fd} else s.kernel[fd := Interest(left, c)]
    ensures Agrees(s.(
      contexts := s.contexts[c := Without(s.contexts[c], dirs)],
      kernel := k, pending := s.pending - |dirs|, delivered := delivered))
  {
    var x := s.contexts[c];
    assert x.events == (x.events - dirs) + dirs;
    AgreesAfter(s, s.(
      contexts := s.contexts[c := Without(x, dirs)],
      kernel := k, pending := s.pending - |dirs|, delivered := delivered), c, Without(x, dirs));
  }

  lemma FilledAgrees(x: FdContext, d: Dir, scheduler: nat, task: Task)
    requires ContextAgrees(x) && d !in x.events
    ensures GetContext(x, d) == EMPTY
    ensures var x' := WithContext(x.(events := x.events + {d}), d, Fill(scheduler, task));
      ContextAgrees(x') && x'.events == x.events + {d} && x'.fd == x.fd
  {
  }

  /**
   * addEvent on a context stops only on a direction that is already registered. It succeeds
   * when the kernel call works and the kernel does not watch the descriptor for another
   * context; otherwise it changes nothing.
   */
  lemma AddToSpec(s: State, c: nat, d: Dir, scheduler: nat, task: Task, works: bool)
    requires Agrees(s) && c < |s.contexts|
    ensures var o := AddTo(s, c, d, scheduler, task, works);
      var x := s.contexts[c];
      && (o.Stopped? <==> d in x.events)
      && (o.Stopped? ==> o.line == 121)
      && (o.Returned? ==>
            && Agrees(o.s)
            && (o.ok <==> works && (x.fd in s.kernel ==> s.kernel[x.fd].ptr == c))
            && (!o.ok ==> o.s == s)
            && (o.ok ==> o.s == s.(
                  contexts := s.contexts[c := WithContext(x.(events := x.events + {d}), d, Fill(scheduler, task))],
                  kernel := s.kernel[x.fd := Interest(x.events + {d}, c)],
                  pending := s.pending + 1)))
  {
    var x := s.contexts[c];
    if d !in x.events {
      FilledAgrees(x, d, scheduler, task);
      assert x.events != {} <==> x.fd in s.kernel && s.kernel[x.fd].ptr == c;
      hide ContextAgrees, WithContext, Fill, GetContext, KernelAgrees, TableAgrees;
      var o := AddTo(s, c, d, scheduler, task, works);
      if o.ok {
        AgreesAfter(s, o.s, c, WithContext(x.(events := x.events + {d}), d, Fill(scheduler, task)));
      }
    }
  }

  /** delEvent on a context drops exactly the one registration it was asked for, and delivers nothing. */
  lemma DelFromSpec(s: State, c: nat, d: Dir, works: bool)
    requires Agrees(s) && c < |s.contexts|
    ensures var o := DelFrom(s, c, d, works);
      && o.Returned? && (o.ok <==> d in s.contexts[c].events && works)
      && if o.ok then TookOut(s, o.s, c, {d}, []) else o.s == s
  {
    if d in s.contexts[c].events {
      RemovalIsLegal(s, c, s.contexts[c].events - {d});
      if works {
        var k := Remove(s, c, d, works).value;
        assert s.delivered + [] == s.delivered;
        assert k == if s.contexts[c].events - {d} == {} then s.kernel - {s.contexts[c].fd}
                    else s.kernel[s.contexts[c].fd := Interest(s.contexts[c].events - {d}, c)];
        assert DelFrom(s, c, d, works) == Returned(s.(
          contexts := s.contexts[c := Without(s.contexts[c], {d})], kernel := k, pending := s.pending - 1), true);
        hide Agrees, Without, Remove, DelFrom;
        AgreesWithout(s, c, {d}, k, s.delivered);
      }
    }
  }

  /** cancelEvent on a context takes the registration out and hands over its task. */
  lemma CancelOnSpec(s: State, c: nat, d: Dir, works: bool)
    requires Agrees(s) && c < |s.contexts|
    ensures var o := CancelOn(s, c, d, works);
      && o.Returned? && (o.ok <==> d in s.contexts[c].events && works)
      && if o.ok then TookOut(s, o.s, c, {d}, TasksOf(s.contexts[c], {d})) else o.s == s
  {
    if d in s.contexts[c].events {
      RemovalIsLegal(s, c, s.contexts[c].events - {d});
      if works {
        var k := Remove(s, c, d, works).value;
        assert FireBoth(s.(kernel := k), c, {d}) == Fire(s.(kernel := k), c, d);
        hide Fire, FireBoth, Agrees;
        FireAfterCtl(s, c, {d}, k);
      }
    }
  }

  /** cancelAll on a context hands over everything registered; its closing assertion holds. */
  lemma CancelAllOnSpec(s: State, c: nat, works: bool)
    requires Agrees(s) && c < |s.contexts|
    ensures var o := CancelAllOn(s, c, works);
      var x := s.contexts[c];
      && o.Returned? && (o.ok <==> x.events != {} && works)
      && if o.ok then TookOut(s, o.s, c, x.events, TasksOf(x, x.events)) else o.s == s
  {
    var x := s.contexts[c];
    if x.events != {} {
      assert x.events - x.events == {};
      RemovalIsLegal(s, c, {});
      if works {
        var k := s.kernel - {x.fd};
        assert Ctl(s.kernel, Del, x.fd, Interest({}, c), true) == Some(k);
        hide FireBoth, Agrees;
        FireAfterCtl(s, c, x.events, k);
        assert Without(x, x.events).events == {};
      }
    }
  }

  /** What a dispatch does, in terms of the directions it reads from the report. */
  lemma DispatchEffect(masked: bool, s: State, c: nat, report: set<Report>, works: bool)
    requires Agrees(s) && c < |s.contexts|
    ensures var o := Dispatch(masked, s, c, report, works);
      var events := s.contexts[c].events;
      var fired := events * RealEvents(report);
      && (o.Stopped? <==> !masked && works && fired != {} && !(RealEvents(report) <= events))
      && (o.Stopped? ==> o.line == 38)
      && (o.Returned? ==>
            && (o.ok <==> works && fired != {})
            && if o.ok then TookOut(s, o.s, c, fired, TasksOf(s.contexts[c], fired)) else o.s == s)
  {
    var x := s.contexts[c];
    var fired := x.events * RealEvents(report);
    if fired != {} {
      LeftOver(x.events, RealEvents(report));
      RemovalIsLegal(s, c, x.events - fired);
      if works {
        var left := x.events - fired;
        var k := if left == {} then s.kernel - {x.fd} else s.kernel[x.fd := Interest(left, c)];
        var dirs := if masked then fired else RealEvents(report);
        assert Dispatch(masked, s, c, report, works) == FireBoth(s.(kernel := k), c, dirs);
        hide Dispatch, RealEvents;
        FireAfterCtl(s, c, dirs, k);
        assert dirs <= x.events ==> dirs == fired;
      }
    }
  }

  /**
   * Dispatch as written stops at line 38 exactly when it gets as far as firing and a reported
   * direction is not registered; the masked form never stops. An error or a hang-up reports
   * both directions. When it returns, exactly what is registered and reported is handed over.
   */
  lemma DispatchSpec(masked: bool, s: State, c: nat, report: set<Report>, works: bool)
    requires Agrees(s) && c < |s.contexts|
    ensures var o := Dispatch(masked, s, c, report, works);
      var fired := set d | d in s.contexts[c].events && Reports(report, d);
      && (o.Stopped? <==>
            !masked && works && fired != {} && exists d :: Reports(report, d) && d !in s.contexts[c].events)
      && (o.Stopped? ==> o.line == 38)
      && (o.Returned? ==>
            && (o.ok <==> works && fired != {})
            && if o.ok then TookOut(s, o.s, c, fired, TasksOf(s.contexts[c], fired)) else o.s == s)
  {
    DispatchEffect(masked, s, c, report, works);
    RealEventsAre(report);
    var events := s.contexts[c].events;
    assert (set d | d in events && Reports(report, d)) == events * RealEvents(report);
    hide Dispatch, RealEvents, Reports, TookOut, TasksOf, Agrees;
  }

  lemma LeftOver(events: set<Dir>, reported: set<Dir>)
    requires events * reported != {}
    ensures events - reported == events - events * reported && events - reported < events
  {
    var d :| d in events * reported;
    assert d in events && d !in events - reported;
  }

  lemma FireAfterCtl(s: State, c: nat, dirs: set<Dir>, k: Kernel)
    requires Agrees(s) && c < |s.contexts| && s.contexts[c].events != {}
    requires var (fd, left) := (s.contexts[c].fd, s.contexts[c].events - dirs);
      dirs <= s.contexts[c].events ==> k == if left == {} then s.kernel - {fd} else s.kernel[fd := Interest(left, c)]
    ensures var o := FireBoth(s.(kernel := k), c, dirs);
      && (o.Stopped? <==> !(dirs <= s.contexts[c].events))
      && (o.Stopped? ==> o.line == 38)
      && (o.Returned? ==> o.ok && TookOut(s, o.s, c, dirs, TasksOf(s.contexts[c], dirs)))
  {
    FireBothSpec(s.(kernel := k), c, dirs);
    if dirs <= s.contexts[c].events {
      AgreesWithout(s, c, dirs, k, s.delivered + TasksOf(s.contexts[c], dirs));
    }
  }

  /** Whenever the code gets through a dispatch, the repaired one does exactly the same. */
  lemma RepairOnlyRemovesStops(s: State, c: nat, report: set<Report>, works: bool)
    requires Agrees(s) && c < |s.contexts| && Dispatch(false, s, c, report, works).Returned?
    ensures Dispatch(true, s, c, report, works) == Dispatch(false, s, c, report, works)
  {
    DispatchEffect(false, s, c, report, works);
    var events, reported := s.contexts[c].events, RealEvents(report);
    if works {
      assert events * reported != {} ==> events * reported == reported;
    }
  }

  /** A hang-up on a descriptor that is only registered for reading stops the process. */
  lemma HangUpExample(s: State, c: nat)
    requires Agrees(s) && c < |s.contexts| && s.contexts[c].events == {Read}
    ensures Dispatch(false, s, c, {Hup}, true) == Stopped(38)
    ensures Dispatch(true, s, c, {Hup}, true).Returned?
  {
    DispatchEffect(false, s, c, {Hup}, true);
    DispatchEffect(true, s, c, {Hup}, true);
    assert Read in {Read} * RealEvents({Hup}) && Write in RealEvents({Hup});
  }

  // The calls through the table, with nobody between their lock regions.

  /** The descriptor has a context in the table, and the direction is registered on it. */
  predicate Listed(s: State, fd: nat, d: Dir)
    requires Wired(s)
  {
    fd < |s.table| && d in s.contexts[s.table[fd]].events
  }

  /** delEvent never stops; it drops exactly the one registration, or changes nothing. */
  lemma DelEventSpec(s: State, fd: nat, d: Dir, works: bool)
    requires Agrees(s)
    ensures var o := DelEvent(s, fd, d, works);
      && o.Returned? && (o.ok <==> works && Listed(s, fd, d))
      && if o.ok then TookOut(s, o.s, s.table[fd], {d}, []) else o.s == s
  {
    if fd < |s.table| { DelFromSpec(s, s.table[fd], d, works); }
    hide Agrees, DelFrom;
  }

  /** cancelEvent never stops; it hands over exactly the one task, or changes nothing. */
  lemma CancelEventSpec(s: State, fd: nat, d: Dir, works: bool)
    requires Agrees(s)
    ensures var o := CancelEvent(s, fd, d, works);
      && o.Returned? && (o.ok <==> works && Listed(s, fd, d))
      && if o.ok then TookOut(s, o.s, s.table[fd], {d}, [TaskOf(GetContext(s.contexts[s.table[fd]], d))]) else o.s == s
  {
    if fd < |s.table| {
      var x := s.contexts[s.table[fd]];
      CancelOnSpec(s, s.table[fd], d, works);
      assert d in x.events ==> TasksOf(x, {d}) == [TaskOf(GetContext(x, d))];
    }
    hide Agrees, CancelOn;
  }

  /** cancelAll never stops; it hands over everything registered, READ first, or changes nothing. */
  lemma CancelAllSpec(s: State, fd: nat, works: bool)
    requires Agrees(s)
    ensures var o := CancelAll(s, fd, works);
      && o.Returned? && (o.ok <==> works && (Listed(s, fd, Read) || Listed(s, fd, Write)))
      && if o.ok then
           var x := s.contexts[s.table[fd]];
           TookOut(s, o.s, s.table[fd], x.events,
                   (if Read in x.events then [TaskOf(x.read)] else [])
                   + (if Write in x.events then [TaskOf(x.write)] else []))
         else o.s == s
  {
    if fd < |s.table| {
      CancelAllOnSpec(s, s.table[fd], works);
      TwoDirections(s.contexts[s.table[fd]].events);
    }
    hide Agrees, CancelAllOn;
  }

  // -------------------------------------------------------- exactly once

  /** How often a delivery stands in a slot, a context, all contexts, a sequence. */
  ghost function HeldIn(slot: Slot, t: Delivery): nat {
    if SlotAgrees(true, slot) && TaskOf(slot) == t then 1 else 0
  }

  ghost function Held(x: FdContext, t: Delivery): nat {
    HeldIn(x.read, t) + HeldIn(x.write, t)
  }

  ghost function InSlots(contexts: seq<FdContext>, t: Delivery): nat {
    if contexts == [] then 0 else InSlots(contexts[..|contexts| - 1], t) + Held(contexts[|contexts| - 1], t)
  }

  ghost function Times(ds: seq<Delivery>, t: Delivery): nat {
    multiset(ds)[t]
  }

  lemma TimesAppend(a: seq<Delivery>, b: seq<Delivery>, t: Delivery)
    ensures Times(a + b, t) == Times(a, t) + Times(b, t)
  {
  }

  lemma InSlotsUpdate(contexts: seq<FdContext>, c: nat, x: FdContext, t: Delivery)
    requires c < |contexts|
    ensures InSlots(contexts[c := x], t) == InSlots(contexts, t) - Held(contexts[c], t) + Held(x, t)
  {
    hide Held;
    var n := |contexts| - 1;
    if c < n {
      InSlotsUpdate(contexts[..n], c, x, t);
      assert contexts[c := x][..n] == contexts[..n][c := x];
    } else {
      assert contexts[c := x][..n] == contexts[..n];
    }
  }

  lemma InSlotsBlank(contexts: seq<FdContext>, fd: nat, n: nat, t: Delivery)
    ensures InSlots(contexts + Blank(fd, n), t) == InSlots(contexts, t)
    decreases n
  {
    if n == 0 {
      assert contexts + Blank(fd, n) == contexts;
    } else {
      InSlotsBlank(contexts, fd, n - 1, t);
      assert (contexts + Blank(fd, n))[..|contexts| + n - 1] == contexts + Blank(fd, n - 1);
      assert Held(FdContext(fd + n - 1, {}, EMPTY, EMPTY), t) == 0;
    }
  }

  lemma HeldWithout(x: FdContext, dirs: set<Dir>, t: Delivery)
    requires ContextAgrees(x) && dirs <= x.events
    ensures Held(x, t) == Held(Without(x, dirs), t) + Times(TasksOf(x, dirs), t)
  {
    TimesAppend(if Read in dirs then [TaskOf(x.read)] else [], if Write in dirs then [TaskOf(x.write)] else [], t);
  }

  lemma HeldFilled(x: FdContext, d: Dir, scheduler: nat, task: Task, t: Delivery)
    requires ContextAgrees(x) && d !in x.events
    ensures Held(WithContext(x.(events := x.events + {d}), d, Fill(scheduler, task)), t)
         == Held(x, t) + if t == Delivery(scheduler, task) then 1 else 0
  {
  }

  /**
   * The state with everything ever registered, everything delEvent threw away, and the
   * smallest size the table ever had.
   */
  datatype History = History(s: State, registered: seq<Delivery>, dropped: seq<Delivery>, smallest: nat)

  /** A thread that resizes has found its descriptor beyond the table at some time. */
  predicate Enabled(h: History, op: Op) {
    Named(h.s, op) && (op.ResizeOp? ==> h.smallest <= op.fd)
  }

  /** The registrations an operation makes or drops, read off its arguments and the state before. */
  ghost function Record(h: History, op: Op, o: Outcome): History
    requires o.Returned? && Named(h.s, op)
  {
    var made := if op.AddOp? && o.ok then [Delivery(op.scheduler, op.task)] else [];
    var lost :=
      if op.DelOp? && o.ok && SlotAgrees(true, GetContext(h.s.contexts[op.c], op.d))
      then [TaskOf(GetContext(h.s.contexts[op.c], op.d))] else [];
    var size := |o.s.table|;
    History(o.s, h.registered + made, h.dropped + lost, if size < h.smallest then size else h.smallest)
  }

  /** Registered = still in a slot + delivered + dropped, for every single task. */
  ghost predicate Accounted(h: History) {
    && Agrees(h.s)
    && 32 <= h.smallest
    && forall t :: Times(h.registered, t) == InSlots(h.s.contexts, t) + Times(h.s.delivered, t) + Times(h.dropped, t)
  }

  lemma AccountedAgrees(h: History)
    requires Accounted(h)
    ensures Agrees(h.s) && |h.s.table| >= 32
  {
  }

  lemma TookOutAccounts(s: State, s': State, c: nat, dirs: set<Dir>, handed: seq<Delivery>, t: Delivery)
    requires Agrees(s) && TookOut(s, s', c, dirs, handed)
    ensures InSlots(s.contexts, t) == InSlots(s'.contexts, t) + Times(TasksOf(s.contexts[c], dirs), t)
    ensures Times(s'.delivered, t) == Times(s.delivered, t) + Times(handed, t)
  {
    InSlotsUpdate(s.contexts, c, Without(s.contexts[c], dirs), t);
    HeldWithout(s.contexts[c], dirs, t);
    TimesAppend(s.delivered, handed, t);
  }

  lemma ResizeAccounts(h: History, fd: nat)
    requires Accounted(h) && h.smallest <= fd
    ensures fd < Grown(fd)
    ensures Accounted(Record(h, ResizeOp(fd), Apply(false, h.s, ResizeOp(fd))))
  {
    var s' := Resized(h.s, Grown(fd));
    AgreesResized(h.s, Grown(fd));
    assert h.registered + [] == h.registered && h.dropped + [] == h.dropped;
    hide Agrees, Times;
    forall t ensures InSlots(s'.contexts, t) == InSlots(h.s.contexts, t) {
      if Grown(fd) > |h.s.table| { InSlotsBlank(h.s.contexts, |h.s.table|, Grown(fd) - |h.s.table|, t); }
    }
  }

  lemma AddAccounts(h: History, op: Op)
    requires Accounted(h) && Enabled(h, op) && op.AddOp? && Apply(false, h.s, op).Returned?
    ensures Accounted(Record(h, op, Apply(false, h.s, op)))
  {
    var s, c, o := h.s, op.c, Apply(false, h.s, op);
    AddToSpec(s, c, op.d, op.scheduler, op.task, op.works);
    var x := s.contexts[c];
    var h' := Record(h, op, o);
    assert ContextAgrees(x) && (o.ok ==> op.d !in x.events);
    hide AddTo, Agrees, WithContext, Fill, ContextAgrees;
    forall t
      ensures Times(h'.registered, t) == InSlots(h'.s.contexts, t) + Times(h'.s.delivered, t) + Times(h'.dropped, t)
    {
      TimesAppend(h.dropped, [], t);
      if o.ok {
        var x' := WithContext(x.(events := x.events + {op.d}), op.d, Fill(op.scheduler, op.task));
        InSlotsUpdate(s.contexts, c, x', t);
        HeldFilled(x, op.d, op.scheduler, op.task, t);
        TimesAppend(h.registered, [Delivery(op.scheduler, op.task)], t);
      } else {
        TimesAppend(h.registered, [], t);
      }
    }
  }

  /** Whatever is taken out is either handed over or recorded as dropped. */
  lemma TakingOutAccounts(h: History, op: Op, o: Outcome, dirs: set<Dir>, handed: seq<Delivery>)
    requires Accounted(h) && Named(h.s, op) && o.Returned? && !op.AddOp? && !op.ResizeOp?
    requires if o.ok then TookOut(h.s, o.s, op.c, dirs, handed) else o.s == h.s
    requires o.ok ==>
      || Record(h, op, o).dropped + handed == h.dropped + TasksOf(h.s.contexts[op.c], dirs)
      || (Record(h, op, o).dropped == h.dropped && handed == TasksOf(h.s.contexts[op.c], dirs))
    ensures Accounted(Record(h, op, o))
  {
    var h' := Record(h, op, o);
    assert h'.registered == h.registered + [] == h.registered;
    assert 32 <= |o.s.table|;
    hide Agrees, Record;
    forall t
      ensures Times(h'.registered, t) == InSlots(h'.s.contexts, t) + Times(h'.s.delivered, t) + Times(h'.dropped, t)
    {
      if o.ok {
        TookOutAccounts(h.s, o.s, op.c, dirs, handed, t);
        TimesAppend(h'.dropped, handed, t);
        TimesAppend(h.dropped, TasksOf(h.s.contexts[op.c], dirs), t);
      }
    }
  }

  lemma DelAccounts(h: History, op: Op)
    requires Accounted(h) && Named(h.s, op) && op.DelOp?
    ensures Apply(false, h.s, op).Returned? && Accounted(Record(h, op, Apply(false, h.s, op)))
  {
    DelFromSpec(h.s, op.c, op.d, op.works);
    var o := DelFrom(h.s, op.c, op.d, op.works);
    if o.ok {
      var slot := GetContext(h.s.contexts[op.c], op.d);
      assert TasksOf(h.s.contexts[op.c], {op.d}) == [TaskOf(slot)];
      assert Record(h, op, o).dropped + [] == h.dropped + [TaskOf(slot)];
    } else {
      assert Record(h, op, o).dropped == h.dropped;
    }
    hide InSlots, HeldIn, TasksOf, Agrees, DelFrom, Record;
    TakingOutAccounts(h, op, o, {op.d}, []);
  }

  lemma HandOverAccounts(h: History, op: Op, o: Outcome, dirs: set<Dir>)
    requires Accounted(h) && Named(h.s, op) && o.Returned? && !op.AddOp? && !op.ResizeOp? && !op.DelOp?
    requires if o.ok then
        dirs <= h.s.contexts[op.c].events && TookOut(h.s, o.s, op.c, dirs, TasksOf(h.s.contexts[op.c], dirs))
      else o.s == h.s
    ensures Accounted(Record(h, op, o))
  {
    assert Record(h, op, o).dropped == h.dropped + [] == h.dropped;
    TakingOutAccounts(h, op, o, dirs, if o.ok then TasksOf(h.s.contexts[op.c], dirs) else []);
  }

  lemma AccountedStep(masked: bool, h: History, op: Op)
    requires Accounted(h) && Enabled(h, op) && Apply(masked, h.s, op).Returned?
    ensures Accounted(Record(h, op, Apply(masked, h.s, op)))
  {
    hide AddTo, DelFrom, CancelOn, CancelAllOn, Dispatch, Resized, InSlots, TasksOf, TookOut, Record, Accounted;
    AccountedAgrees(h);
    var s, o := h.s, Apply(masked, h.s, op);
    match op
    case ResizeOp(fd) =>
      ResizeAccounts(h, fd);
    case AddOp(_, _, _, _, _) =>
      AddAccounts(h, op);
    case DelOp(_, _, _) =>
      DelAccounts(h, op);
    case CancelOp(c, d, works) =>
      CancelOnSpec(s, c, d, works);
      HandOverAccounts(h, op, o, {d});
    case CancelAllOp(c, works) =>
      CancelAllOnSpec(s, c, works);
      HandOverAccounts(h, op, o, s.contexts[c].events);
    case DispatchOp(c, report, works) =>
      DispatchEffect(masked, s, c, report, works);
      HandOverAccounts(h, op, o, s.contexts[c].events * RealEvents(report));
  }

  /** `h` is reached from `h0` by `ops`, none of which stopped the process. */
  ghost predicate Runs(masked: bool, h0: History, ops: seq<Op>, h: History)
    decreases |ops|
  {
    if ops == [] then h == h0
    else
      && Enabled(h0, ops[0])
      && var o := Apply(masked, h0.s, ops[0]);
      o.Returned? && Runs(masked, Record(h0, ops[0], o), ops[1..], h)
  }

  /**
   * Over every run, with failing kernel calls, stale or spurious reports, late resizes and
   * contexts cut off by them: bits, slots, interest set and counter agree, and every
   * registration is in exactly one place: its slot, a scheduler's queue, or dropped by delEvent.
   */
  lemma {:induction false} ExactlyOnce(masked: bool, h0: History, ops: seq<Op>, h: History)
    requires Accounted(h0) && Runs(masked, h0, ops, h)
    ensures Accounted(h)
    decreases |ops|
  {
    if ops != [] {
      AccountedStep(masked, h0, ops[0]);
      ExactlyOnce(masked, Record(h0, ops[0], Apply(masked, h0.s, ops[0])), ops[1..], h);
    }
  }

  /**
   * One operation stops the process exactly when addEvent repeats a registration, or the
   * unmasked dispatch fires a direction that is not registered. In particular no resize makes
   * the table too small for the descriptor it is made for (line 114).
   */
  lemma StopsIff(masked: bool, h: History, op: Op)
    requires Accounted(h) && Enabled(h, op)
    ensures var o := Apply(masked, h.s, op);
      && (o.Stopped? <==>
            || (op.AddOp? && op.d in h.s.contexts[op.c].events)
            || (!masked && op.DispatchOp? && op.works
                && (exists d :: Reports(op.report, d) && d in h.s.contexts[op.c].events)
                && exists d :: Reports(op.report, d) && d !in h.s.contexts[op.c].events))
      && (o.Stopped? ==> o.line == if op.AddOp? then 121 else 38)
  {
    hide AddTo, DelFrom, CancelOn, CancelAllOn, Dispatch, Resized, Accounted;
    AccountedAgrees(h);
    match op
    case ResizeOp(fd) => ResizeAccounts(h, fd);
    case AddOp(c, d, scheduler, task, works) => AddToSpec(h.s, c, d, scheduler, task, works);
    case DelOp(c, d, works) => DelFromSpec(h.s, c, d, works);
    case CancelOp(c, d, works) => CancelOnSpec(h.s, c, d, works);
    case CancelAllOp(c, works) => CancelAllOnSpec(h.s, c, works);
    case DispatchOp(c, report, works) =>
      DispatchEffect(masked, h.s, c, report, works);
      RealEventsAre(report);
      hide RealEvents, Reports;
      var events, reported := h.s.contexts[c].events, RealEvents(report);
      assert events * reported != {} <==> exists d :: Reports(report, d) && d in events by {
        if d :| Reports(report, d) && d in events { assert d in events * reported; }
      }
  }

  // ------------------------------------------------------ what a cut costs

  /** The table leads to every context the kernel watches. */
  ghost predicate Reachable(s: State) {
    forall fd: nat :: fd in s.kernel ==> Attached(s, fd)
  }

  predicate Attached(s: State, fd: nat)
    requires fd in s.kernel
  {
    fd < |s.table| && s.table[fd] == s.kernel[fd].ptr
  }

  /** The operation leaves a watched context without an entry in the table. */
  ghost predicate CutsOff(s: State, op: Op)
    requires Named(s, op)
  {
    match op
    case ResizeOp(fd) => exists g: nat :: g in s.kernel && g >= Grown(fd)
    case AddOp(c, d, scheduler, task, works) =>
      AddTo(s, c, d, scheduler, task, works).Returned? && AddTo(s, c, d, scheduler, task, works).ok
      && !(s.contexts[c].fd < |s.table| && s.table[s.contexts[c].fd] == c)
    case _ => false
  }

  lemma TookOutReachable(s: State, s': State, c: nat, dirs: set<Dir>, handed: seq<Delivery>)
    requires Agrees(s) && Reachable(s) && TookOut(s, s', c, dirs, handed)
    ensures Reachable(s')
  {
    forall fd: nat | fd in s'.kernel ensures Attached(s', fd) {
      var p := s'.kernel[fd].ptr;
      assert s'.contexts[p].events <= s.contexts[p].events && s'.contexts[p].fd == s.contexts[p].fd;
      assert s.contexts[p].events != {};
      assert fd in s.kernel && s.kernel[fd].ptr == p;
    }
  }

  /**
   * A step keeps every watched context within reach of the table exactly when it is neither a
   * resize that cuts a registered descriptor off nor an addEvent on a context that has been
   * cut off since its thread took it from the table.
   */
  lemma ReachableIff(masked: bool, s: State, op: Op)
    requires Agrees(s) && Reachable(s) && Named(s, op) && Apply(masked, s, op).Returned?
    requires op.ResizeOp? ==> op.fd >= 32
    ensures Reachable(Apply(masked, s, op).s) <==> !CutsOff(s, op)
  {
    var o := Apply(masked, s, op);
    match op
    case ResizeOp(fd) => ResizeReachableIff(s, Grown(fd));
    case AddOp(c, d, scheduler, task, works) => AddReachableIff(s, op);
    case DelOp(c, d, works) =>
      DelFromSpec(s, c, d, works);
      if o.ok { TookOutReachable(s, o.s, c, {d}, []); }
    case CancelOp(c, d, works) =>
      CancelOnSpec(s, c, d, works);
      if o.ok { TookOutReachable(s, o.s, c, {d}, TasksOf(s.contexts[c], {d})); }
    case CancelAllOp(c, works) =>
      CancelAllOnSpec(s, c, works);
      if o.ok { TookOutReachable(s, o.s, c, s.contexts[c].events, TasksOf(s.contexts[c], s.contexts[c].events)); }
    case DispatchOp(c, report, works) =>
      DispatchEffect(masked, s, c, report, works);
      var fired := s.contexts[c].events * RealEvents(report);
      if o.ok { TookOutReachable(s, o.s, c, fired, TasksOf(s.contexts[c], fired)); }
  }

  lemma ResizeReachableIff(s: State, size: nat)
    requires Agrees(s) && Reachable(s)
    ensures Reachable(Resized(s, size)) <==> forall fd: nat :: fd in s.kernel ==> fd < size
  {
    var s' := Resized(s, size);
    assert s'.kernel == s.kernel;
    forall fd: nat | fd in s.kernel ensures Attached(s', fd) <==> fd < size {
      assert Attached(s, fd);
    }
  }

  lemma AddReachableIff(s: State, op: Op)
    requires Agrees(s) && Reachable(s) && Named(s, op) && op.AddOp? && Apply(false, s, op).Returned?
    ensures Reachable(Apply(false, s, op).s) <==> !CutsOff(s, op)
  {
    var o := Apply(false, s, op);
    AddToSpec(s, op.c, op.d, op.scheduler, op.task, op.works);
    hide AddTo, Agrees, WithContext, Fill;
    if o.ok {
      var fd := s.contexts[op.c].fd;
      assert fd in o.s.kernel && o.s.kernel[fd].ptr == op.c;
      forall g: nat | g in o.s.kernel && g != fd ensures Attached(o.s, g) { assert Attached(s, g); }
      assert Attached(o.s, fd) <==> fd < |s.table| && s.table[fd] == op.c;
    }
  }

  ghost predicate CutsNothingOff(masked: bool, h: History, ops: seq<Op>)
    decreases |ops|
  {
    ops == [] || (Enabled(h, ops[0]) && !CutsOff(h.s, ops[0])
      && var o := Apply(masked, h.s, ops[0]);
         o.Returned? ==> CutsNothingOff(masked, Record(h, ops[0], o), ops[1..]))
  }

  lemma {:induction false} StaysReachable(masked: bool, h0: History, ops: seq<Op>, h: History)
    requires Accounted(h0) && Reachable(h0.s) && Runs(masked, h0, ops, h) && CutsNothingOff(masked, h0, ops)
    ensures Accounted(h) && Reachable(h.s)
    decreases |ops|
  {
    if ops != [] {
      AccountedAgrees(h0);
      AccountedStep(masked, h0, ops[0]);
      ReachableIff(masked, h0.s, ops[0]);
      StaysReachable(masked, Record(h0, ops[0], Apply(masked, h0.s, ops[0])), ops[1..], h);
    }
  }

  /**
   * What it means to be cut off, for a registered descriptor: delEvent, cancelEvent and
   * cancelAll find their direction, and addEvent gets past the kernel with a further one,
   * exactly when the table leads to the context. The dispatch loop does not need the table.
   */
  lemma CutOffIff(s: State, fd: nat, d: Dir, e: Dir, scheduler: nat, task: Task)
    requires Agrees(s) && fd in s.kernel && d in s.kernel[fd].mask && e !in s.kernel[fd].mask
    ensures var p := s.kernel[fd].ptr;
      && DelEvent(s, fd, d, true).Returned? && (DelEvent(s, fd, d, true).ok <==> Attached(s, fd))
      && CancelEvent(s, fd, d, true).Returned? && (CancelEvent(s, fd, d, true).ok <==> Attached(s, fd))
      && CancelAll(s, fd, true).Returned? && (CancelAll(s, fd, true).ok <==> Attached(s, fd))
      && AddEvent(s, fd, e, scheduler, task, true).Returned?
      && (AddEvent(s, fd, e, scheduler, task, true).ok <==> Attached(s, fd))
      && var o := Dispatch(false, s, p, {if d.Read? then In else Out}, true);
         o.Returned? && o.ok && TookOut(s, o.s, p, {d}, TasksOf(s.contexts[p], {d}))
  {
    var p := s.kernel[fd].ptr;
    var report := {if d.Read? then In else Out};
    DispatchEffect(false, s, p, report, true);
    assert RealEvents(report) == {d} && s.contexts[p].events * {d} == {d};
    CutOffAdd(s, fd, e, scheduler, task);
    if fd < |s.table| {
      var c := s.table[fd];
      assert c != p ==> s.contexts[c].events == {};
      DelFromSpec(s, c, d, true);
      CancelOnSpec(s, c, d, true);
      CancelAllOnSpec(s, c, true);
    }
  }

  lemma CutOffAdd(s: State, fd: nat, e: Dir, scheduler: nat, task: Task)
    requires Agrees(s) && fd in s.kernel && e !in s.kernel[fd].mask
    ensures var o := AddEvent(s, fd, e, scheduler, task, true); o.Returned? && (o.ok <==> Attached(s, fd))
  {
    var s1 := if fd < |s.table| then s else Resized(s, Grown(fd));
    if fd >= |s.table| { AgreesResized(s, Grown(fd)); }
    var c := s1.table[fd];
    assert c != s.kernel[fd].ptr ==> s1.contexts[c].events == {};
    AddToSpec(s1, c, e, scheduler, task, true);
    hide AddTo, Agrees;
  }

  /**
   * The repair: an addEvent that looks at the size again under the write lock does there what
   * addEvent does, and cuts nothing off.
   */
  lemma RecheckedAdd(s: State, fd: nat, d: Dir, scheduler: nat, task: Task, works: bool)
    requires Agrees(s)
    ensures AddLate(true, s, fd, d, scheduler, task, works) == AddEvent(s, fd, d, scheduler, task, works)
    ensures var o := AddEvent(s, fd, d, scheduler, task, works);
      o.Returned? && Reachable(s) ==> Agrees(o.s) && Reachable(o.s)
  {
    var s1 := if fd < |s.table| then s else Resized(s, Grown(fd));
    RoomStaysReachable(s, fd);
    var c := s1.table[fd];
    AddToSpec(s1, c, d, scheduler, task, works);
    var op := AddOp(c, d, scheduler, task, works);
    hide AddTo, Agrees, Reachable, Resized;
    if Reachable(s1) && Apply(false, s1, op).Returned? { AddReachableIff(s1, op); }
  }

  /**
   * A late addEvent as written: the table gets one and a half times the descriptor's number of
   * places, whatever it had, and there the rest is done as on any context. It runs off the end
   * of the table (line 114) only for descriptors 0 and 1, which no thread finds beyond it.
   */
  lemma AddLateSpec(s: State, fd: nat, d: Dir, scheduler: nat, task: Task, works: bool)
    requires Agrees(s)
    ensures var o := AddLate(false, s, fd, d, scheduler, task, works);
      && (o == Stopped(114) <==> fd < 2)
      && (fd >= 2 ==>
            var s1 := Apply(false, s, ResizeOp(fd)).s;
            && Apply(false, s, ResizeOp(fd)).Returned? && fd < |s1.table|
            && (2 * |s1.table| <= 3 * fd < 2 * |s1.table| + 2)
            && Named(s1, AddOp(s1.table[fd], d, scheduler, task, works))
            && o == Apply(false, s1, AddOp(s1.table[fd], d, scheduler, task, works))
            && s1.contexts[s1.table[fd]].fd == fd)
  {
    TableAfter(s, fd);
    hide AddTo, Agrees, Resized;
  }

  lemma TableAfter(s: State, fd: nat)
    requires Agrees(s)
    ensures var s1 := Resized(s, Grown(fd));
      && 2 * |s1.table| <= 3 * fd < 2 * |s1.table| + 2
      && (forall i :: 0 <= i < |s1.table| ==>
            s1.table[i] < |s1.contexts| && s1.contexts[s1.table[i]].fd == i)
  {
  }

  /** Making room for a descriptor cuts nothing off. */
  lemma RoomStaysReachable(s: State, fd: nat)
    requires Agrees(s)
    ensures var s1 := if fd < |s.table| then s else Resized(s, Grown(fd));
      && Agrees(s1) && fd < |s1.table| && s1.contexts[s1.table[fd]].fd == fd
      && (Reachable(s) ==> Reachable(s1))
  {
    if fd >= |s.table| {
      AgreesResized(s, Grown(fd));
      if Reachable(s) {
        ResizeReachableIff(s, Grown(fd));
        forall g: nat | g in s.kernel ensures g < Grown(fd) { assert Attached(s, g); }
      }
    }
  }

  /** addEvent with nobody in between its lock regions. */
  lemma AddEventSpec(s: State, fd: nat, d: Dir, scheduler: nat, task: Task, works: bool)
    requires Agrees(s)
    ensures var o := AddEvent(s, fd, d, scheduler, task, works);
      && (o.Stopped? <==> fd < |s.table| && d in s.contexts[s.table[fd]].events)
      && (o.Stopped? ==> o.line == 121)
      && (o.Returned? ==>
            && Agrees(o.s)
            && (o.ok <==> works && (fd in s.kernel ==> Attached(s, fd)))
            && |s.table| <= |o.s.table| && fd < |o.s.table|
            && (fd < |s.table| ==> o.s.table == s.table)
            && (fd >= |s.table| ==> 2 * |o.s.table| <= 3 * fd < 2 * |o.s.table| + 2)
            && o.s.delivered == s.delivered
            && o.s.pending == s.pending + (if o.ok then 1 else 0)
            && (o.ok ==> d in o.s.contexts[o.s.table[fd]].events))
  {
    var s1 := if fd < |s.table| then s else Resized(s, Grown(fd));
    if fd >= |s.table| { AgreesResized(s, Grown(fd)); }
    assert fd in s.kernel && s1.kernel[fd].ptr == s1.table[fd] ==> Attached(s, fd);
    AddToSpec(s1, s1.table[fd], d, scheduler, task, works);
    hide AddTo, Agrees, Resized;
  }

  // ------------------------------------------------------------------- runs

  /** The table right after construction. */
  function Start(): History {
    History(State(Blank(0, 32), Upwards(0, 32), map[], 0, []), [], [], 32)
  }

  lemma StartIsAccounted()
    ensures Accounted(Start()) && Reachable(Start().s)
  {
    BitsBlank([], 0, 32);
    assert [] + Blank(0, 32) == Blank(0, 32);
    forall t ensures InSlots(Blank(0, 32), t) == 0 {
      InSlotsBlank([], 0, 32, t);
    }
  }

  /** Closed over the start: nothing is asked of the run. */
  lemma ExactlyOnceFromTheStart(masked: bool, ops: seq<Op>, h: History)
    requires Runs(masked, Start(), ops, h)
    ensures Accounted(h)
  {
    StartIsAccounted();
    ExactlyOnce(masked, Start(), ops, h);
  }

  lemma RunsNone(masked: bool, h: History)
    ensures Runs(masked, h, [], h)
  {
  }

  lemma RunsOn(masked: bool, h: History, op: Op, rest: seq<Op>, end: History)
    requires Enabled(h, op) && Apply(masked, h.s, op).Returned?
    requires Runs(masked, Record(h, op, Apply(masked, h.s, op)), rest, end)
    ensures Runs(masked, h, [op] + rest, end)
  {
    assert ([op] + rest)[1..] == rest;
  }

  // Two threads whose size tests both saw 32 descriptors, one with 100 and one with 40 to add.

  lemma ExampleGrows() returns (h: History)
    ensures Apply(false, Start().s, ResizeOp(100)).Returned?
    ensures h == Record(Start(), ResizeOp(100), Apply(false, Start().s, ResizeOp(100)))
    ensures Agrees(h.s) && |h.s.contexts| > 100 && h.s.contexts[100] == FdContext(100, {}, EMPTY, EMPTY)
    ensures h.registered == [] && h.s.delivered == [] && h.s.kernel == map[] && h.smallest == 32
  {
    StartIsAccounted();
    AgreesResized(Start().s, 150);
    hide Agrees, Accounted, Reachable;
    h := Record(Start(), ResizeOp(100), Apply(false, Start().s, ResizeOp(100)));
  }

  lemma ExampleAdds(h: History, scheduler: nat, task: Task) returns (h': History)
    requires Agrees(h.s) && |h.s.contexts| > 100 && h.s.contexts[100] == FdContext(100, {}, EMPTY, EMPTY)
    requires h.registered == [] && h.s.delivered == [] && h.s.kernel == map[] && h.smallest == 32
    ensures var add := AddOp(100, Read, scheduler, task, true);
      Apply(false, h.s, add).Returned? && h' == Record(h, add, Apply(false, h.s, add))
    ensures Agrees(h'.s) && |h'.s.contexts| > 100
    ensures h'.s.contexts[100] == FdContext(100, {Read}, Fill(scheduler, task), EMPTY)
    ensures h'.registered == [Delivery(scheduler, task)] && h'.s.delivered == [] && h'.smallest <= 32
    ensures 100 in h'.s.kernel
  {
    var add := AddOp(100, Read, scheduler, task, true);
    AddToSpec(h.s, 100, Read, scheduler, task, true);
    hide AddTo, Agrees;
    h' := Record(h, add, Apply(false, h.s, add));
  }

  lemma ExampleCuts(h: History) returns (h': History)
    requires Agrees(h.s) && 100 in h.s.kernel
    ensures Apply(false, h.s, ResizeOp(40)).Returned?
    ensures h' == Record(h, ResizeOp(40), Apply(false, h.s, ResizeOp(40)))
    ensures Agrees(h'.s) && h'.registered == h.registered && h'.s.delivered == h.s.delivered && |h'.s.table| == 60
    ensures |h.s.table| >= 60 ==> h'.s.contexts == h.s.contexts
    ensures !Reachable(h'.s) && DelEvent(h'.s, 100, Read, true) == Returned(h'.s, false)
  {
    AgreesResized(h.s, 60);
    h' := Record(h, ResizeOp(40), Apply(false, h.s, ResizeOp(40)));
    assert 100 in h'.s.kernel && !Attached(h'.s, 100);
    hide Agrees;
  }

  lemma ReadReport(x: FdContext, scheduler: nat, task: Task)
    requires x == FdContext(100, {Read}, Fill(scheduler, task), EMPTY)
    ensures RealEvents({In}) == {Read} == x.events * RealEvents({In})
    ensures ContextAgrees(x) && TasksOf(x, {Read}) == [Delivery(scheduler, task)]
  {
  }

  lemma ExampleDelivers(h: History, scheduler: nat, task: Task) returns (h': History)
    requires Agrees(h.s) && |h.s.contexts| > 100
    requires h.s.contexts[100] == FdContext(100, {Read}, Fill(scheduler, task), EMPTY)
    requires h.registered == [Delivery(scheduler, task)] && h.s.delivered == []
    ensures var report := DispatchOp(100, {In}, true);
      Apply(false, h.s, report).Returned? && h' == Record(h, report, Apply(false, h.s, report))
    ensures h'.registered == h'.s.delivered == [Delivery(scheduler, task)]
  {
    var report := DispatchOp(100, {In}, true);
    DispatchEffect(false, h.s, 100, {In}, true);
    ReadReport(h.s.contexts[100], scheduler, task);
    hide Dispatch, Agrees, RealEvents, TasksOf, ContextAgrees, Fill, Without;
    h' := Record(h, report, Apply(false, h.s, report));
  }

  /**
   * The first grows the table to 150 and registers 100, the second cuts the table to 60. Now
   * delEvent does not find the registration of 100, but the next event on 100 still delivers it.
   */
  lemma LateResizeExample(scheduler: nat, task: Task) returns (cut: History, h: History)
    ensures Runs(false, Start(), [ResizeOp(100), AddOp(100, Read, scheduler, task, true), ResizeOp(40)], cut)
    ensures Agrees(cut.s) && !Reachable(cut.s) && DelEvent(cut.s, 100, Read, true) == Returned(cut.s, false)
    ensures Runs(false, cut, [DispatchOp(100, {In}, true)], h)
    ensures h.registered == h.s.delivered == [Delivery(scheduler, task)]
  {
    var h1 := ExampleGrows();
    assert |h1.s.table| == 150 && Start().smallest == 32;
    hide Runs, Agrees, Reachable, Start, Resized;
    var h2 := ExampleAdds(h1, scheduler, task);
    assert h2.s.table == h1.s.table;
    cut := ExampleCuts(h2);
    h := ExampleDelivers(cut, scheduler, task);
    hide Apply, Record;
    RunsNone(false, cut);
    RunsNone(false, h);
    RunsOn(false, cut, DispatchOp(100, {In}, true), [], h);
    RunsOn(false, h2, ResizeOp(40), [], cut);
    RunsOn(false, h1, AddOp(100, Read, scheduler, task, true), [ResizeOp(40)] + [], cut);
    RunsOn(false, Start(), ResizeOp(100), [AddOp(100, Read, scheduler, task, true)] + ([ResizeOp(40)] + []), cut);
    assert [ResizeOp(100)] + ([AddOp(100, Read, scheduler, task, true)] + ([ResizeOp(40)] + []))
      == [ResizeOp(100), AddOp(100, Read, scheduler, task, true), ResizeOp(40)];
    assert [DispatchOp(100, {In}, true)] + [] == [DispatchOp(100, {In}, true)];
  }
}
