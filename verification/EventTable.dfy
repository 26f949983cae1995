/**
 * The event table of IOManager (duan_src/iomanager.cc) on values: contexts with READ and
 * WRITE slots, the table of contexts, the kernel's interest set, the pending counter, and the
 * entries handed to schedulers. Contexts have an identity of their own: a context that a
 * resize cuts off the table lives on behind the data.ptr the kernel keeps.
 */
module EventTable {
  import opened Common

  datatype Dir = Read | Write

  /** FdContext::EventContext. */
  datatype Slot = Slot(scheduler: Option<nat>, fiber: Option<nat>, cb: Option<nat>)

  const EMPTY := Slot(None, None, None)

  /** `events` are the bits of m_events. */
  datatype FdContext = FdContext(fd: nat, events: set<Dir>, read: Slot, write: Slot)

  /** A task handed to a scheduler. */
  datatype Delivery = Delivery(scheduler: nat, task: Task)

  /** What the kernel keeps for a descriptor: the mask and data.ptr, a context. */
  datatype Interest = Interest(mask: set<Dir>, ptr: nat)

  type Kernel = map<nat, Interest>

  /** `contexts` are all contexts ever made, by identity; `table` is m_fdContexts. */
  datatype State = State(
    contexts: seq<FdContext>,
    table: seq<nat>,
    kernel: Kernel,
    pending: int,
    delivered: seq<Delivery>)

  /** An operation returns, or a failed assertion at a line of iomanager.cc stops the process. */
  datatype Outcome = Returned(s: State, ok: bool) | Stopped(line: nat)

  // ------------------------------------------------------------- contexts

  function GetContext(x: FdContext, d: Dir): Slot {
    if d.Read? then x.read else x.write
  }

  function WithContext(x: FdContext, d: Dir, slot: Slot): FdContext {
    if d.Read? then x.(read := slot) else x.(write := slot)
  }

  function Fill(scheduler: nat, task: Task): Slot {
    match task
    case FiberTask(f) => Slot(Some(scheduler), Some(f), None)
    case CallTask(c) => Slot(Some(scheduler), None, Some(c))
  }

  datatype Triggered = Triggered(x: FdContext, handed: seq<Delivery>) | TriggerStopped(line: nat)

  /**
   * triggerEvent: clear the bit and move the callback, or else the fiber, to the scheduler;
   * an empty task is not enqueued (duan_src/scheduler.h:88-90).
   */
  function Trigger(x: FdContext, d: Dir): Triggered {
    if d !in x.events then TriggerStopped(38)
    else
      var slot := GetContext(x, d);
      if slot.scheduler.None? then TriggerStopped(42)
      else
        var to := slot.scheduler.value;
        var x' := x.(events := x.events - {d});
        if slot.cb.Some? then
          Triggered(WithContext(x', d, slot.(scheduler := None, cb := None)), [Delivery(to, CallTask(slot.cb.value))])
        else
          Triggered(WithContext(x', d, slot.(scheduler := None, fiber := None)),
            if slot.fiber.Some? then [Delivery(to, FiberTask(slot.fiber.value))] else [])
  }

  // --------------------------------------------------------------- kernel

  datatype CtlOp = Add | Mod | Del

  /** epoll_ctl(2): ADD of a present descriptor and MOD or DEL of an absent one are errors. */
  predicate Legal(k: Kernel, op: CtlOp, fd: nat) {
    if op.Add? then fd !in k else fd in k
  }

  /** The interest set after the call; a legal call may still fail for reasons of its own. */
  function Ctl(k: Kernel, op: CtlOp, fd: nat, interest: Interest, works: bool): Option<Kernel> {
    if !Legal(k, op, fd) || !works then None
    else if op.Del? then Some(k - {fd})
    else Some(k[fd := interest])
  }

  // -------------------------------------------------------------- resizing

  /** Contexts for `n` descriptors from `fd` on. */
  function Blank(fd: nat, n: nat): (r: seq<FdContext>)
    ensures |r| == n
    ensures forall i :: 0 <= i < n ==> r[i] == FdContext(fd + i, {}, EMPTY, EMPTY)
  {
    seq(n, i requires 0 <= i => FdContext(fd + i, {}, EMPTY, EMPTY))
  }

  function Upwards(c: nat, n: nat): (r: seq<nat>)
    ensures |r| == n
    ensures forall i :: 0 <= i < n ==> r[i] == c + i
  {
    seq(n, i requires 0 <= i => c + i)
  }

  /** contextResize: cut the table, or extend it by new contexts. */
  function Resized(s: State, size: nat): (r: State)
    ensures |r.table| == size
  {
    if size <= |s.table| then s.(table := s.table[..size])
    else
      var n := size - |s.table|;
      s.(contexts := s.contexts + Blank(|s.table|, n), table := s.table + Upwards(|s.contexts|, n))
  }

  /** fd * 1.5, truncated. */
  function Grown(fd: nat): nat {
    fd * 3 / 2
  }

  /** The table names contexts that exist. */
  predicate Wired(s: State) {
    forall i :: 0 <= i < |s.table| ==> s.table[i] < |s.contexts|
  }

  // ------------------------------------ operations under the mutex of a context

  function AddTo(s: State, c: nat, d: Dir, scheduler: nat, task: Task, works: bool): Outcome
    requires c < |s.contexts|
  {
    var x := s.contexts[c];
    if d in x.events then Stopped(121)
    else
      var k := Ctl(s.kernel, if x.events != {} then Mod else Add, x.fd, Interest(x.events + {d}, c), works);
      if k.None? then Returned(s, false)
      else if GetContext(x, d) != EMPTY then Stopped(141)
      else
        var x' := WithContext(x.(events := x.events + {d}), d, Fill(scheduler, task));
        Returned(s.(contexts := s.contexts[c := x'], kernel := k.value, pending := s.pending + 1), true)
  }

  /** The call delEvent and cancelEvent make to take one direction out of the interest set. */
  function Remove(s: State, c: nat, d: Dir, works: bool): Option<Kernel>
    requires c < |s.contexts|
  {
    var x := s.contexts[c];
    var left := x.events - {d};
    Ctl(s.kernel, if left != {} then Mod else Del, x.fd, Interest(left, c), works)
  }

  function DelFrom(s: State, c: nat, d: Dir, works: bool): Outcome
    requires c < |s.contexts|
  {
    var x := s.contexts[c];
    if d !in x.events then Returned(s, false)
    else
      var k := Remove(s, c, d, works);
      if k.None? then Returned(s, false)
      else
        var x' := WithContext(x.(events := x.events - {d}), d, EMPTY);
        Returned(s.(contexts := s.contexts[c := x'], kernel := k.value, pending := s.pending - 1), true)
  }

  /** One triggerEvent with the decrement behind it. */
  function Fire(s: State, c: nat, d: Dir): (o: Outcome)
    requires c < |s.contexts|
    ensures o.Returned? ==> |o.s.contexts| == |s.contexts|
  {
    match Trigger(s.contexts[c], d)
    case TriggerStopped(line) => Stopped(line)
    case Triggered(x, handed) =>
      Returned(s.(contexts := s.contexts[c := x], pending := s.pending - 1, delivered := s.delivered + handed), true)
  }

  function CancelOn(s: State, c: nat, d: Dir, works: bool): Outcome
    requires c < |s.contexts|
  {
    if d !in s.contexts[c].events then Returned(s, false)
    else
      var k := Remove(s, c, d, works);
      if k.None? then Returned(s, false) else Fire(s.(kernel := k.value), c, d)
  }

  /** Fires READ, then WRITE, of those directions that are in `dirs`. */
  function FireBoth(s: State, c: nat, dirs: set<Dir>): (o: Outcome)
    requires c < |s.contexts|
    ensures o.Returned? ==> |o.s.contexts| == |s.contexts|
  {
    var first := if Read in dirs then Fire(s, c, Read) else Returned(s, true);
    if first.Stopped? then first
    else if Write in dirs then Fire(first.s, c, Write) else first
  }

  /** cancelAll; the second test reads m_events after the first trigger. */
  function CancelAllOn(s: State, c: nat, works: bool): Outcome
    requires c < |s.contexts|
  {
    var x := s.contexts[c];
    if x.events == {} then Returned(s, false)
    else
      var k := Ctl(s.kernel, Del, x.fd, Interest({}, c), works);
      if k.None? then Returned(s, false)
      else
        var o := FireBoth(s.(kernel := k.value), c, x.events);
        if o.Returned? && o.s.contexts[c].events != {} then Stopped(259) else o
  }

  /** What epoll_wait can report about a descriptor. */
  datatype Report = In | Out | Err | Hup

  /** real_events: an error or hang-up stands for both directions. */
  function RealEvents(report: set<Report>): set<Dir> {
    var both := Err in report || Hup in report;
    (if both || In in report then {Read} else {}) + (if both || Out in report then {Write} else {})
  }

  /** An entry reports a direction by its own bit, an error or a hang-up. */
  predicate Reports(report: set<Report>, d: Dir) {
    Err in report || Hup in report || (if d.Read? then In else Out) in report
  }

  lemma RealEventsAre(report: set<Report>)
    ensures forall d :: d in RealEvents(report) <==> Reports(report, d)
  {
    forall d ensures d in RealEvents(report) <==> Reports(report, d) {
      if d.Read? {} else {}
    }
  }

  /**
   * One turn of the dispatch loop of idle, for the context in data.ptr. The code fires the
   * reported directions (`masked` false); firing only those that are also registered is the
   * repair.
   */
  function Dispatch(masked: bool, s: State, c: nat, report: set<Report>, works: bool): (o: Outcome)
    requires c < |s.contexts|
    ensures o.Returned? ==> |o.s.contexts| == |s.contexts|
  {
    var x := s.contexts[c];
    var reported := RealEvents(report);
    if x.events * reported == {} then Returned(s, false)
    else
      var left := x.events - reported;
      var k := Ctl(s.kernel, if left != {} then Mod else Del, x.fd, Interest(left, c), works);
      if k.None? then Returned(s, false)
      else FireBoth(s.(kernel := k.value), c, if masked then x.events * reported else reported)
  }

  // -------------------------- calls, with nobody between their lock regions

  /** addEvent from its write lock on; `rechecked` looks at the size again, which the code does not. */
  function AddLate(rechecked: bool, s: State, fd: nat, d: Dir, scheduler: nat, task: Task, works: bool): Outcome
    requires Wired(s)
  {
    var s1 := if rechecked && fd < |s.table| then s else Resized(s, Grown(fd));
    if fd >= |s1.table| then Stopped(114) else AddTo(s1, s1.table[fd], d, scheduler, task, works)
  }

  function AddEvent(s: State, fd: nat, d: Dir, scheduler: nat, task: Task, works: bool): Outcome
    requires Wired(s)
  {
    if fd < |s.table| then AddTo(s, s.table[fd], d, scheduler, task, works)
    else AddLate(false, s, fd, d, scheduler, task, works)
  }

  function DelEvent(s: State, fd: nat, d: Dir, works: bool): Outcome
    requires Wired(s)
  {
    if fd >= |s.table| then Returned(s, false) else DelFrom(s, s.table[fd], d, works)
  }

  function CancelEvent(s: State, fd: nat, d: Dir, works: bool): Outcome
    requires Wired(s)
  {
    if fd >= |s.table| then Returned(s, false) else CancelOn(s, s.table[fd], d, works)
  }

  function CancelAll(s: State, fd: nat, works: bool): Outcome
    requires Wired(s)
  {
    if fd >= |s.table| then Returned(s, false) else CancelAllOn(s, s.table[fd], works)
  }

  // ------------------------------------------------------------ agreement

  /** A bit is set exactly when its slot has a scheduler and one of fiber and callback. */
  ghost predicate SlotAgrees(registered: bool, slot: Slot) {
    if registered then slot.scheduler.Some? && (slot.fiber.Some? <==> slot.cb.None?) else slot == EMPTY
  }

  ghost predicate ContextAgrees(x: FdContext) {
    SlotAgrees(Read in x.events, x.read) && SlotAgrees(Write in x.events, x.write)
  }

  /** Number of bits set in all contexts. */
  function Bits(contexts: seq<FdContext>): nat {
    if contexts == [] then 0 else Bits(contexts[..|contexts| - 1]) + |contexts[|contexts| - 1].events|
  }

  /** The kernel watches exactly the contexts with events, each for its bits and under its own address. */
  ghost predicate KernelAgrees(s: State) {
    && (forall fd: nat :: fd in s.kernel ==>
          && s.kernel[fd].ptr < |s.contexts| && s.contexts[s.kernel[fd].ptr].fd == fd
          && s.contexts[s.kernel[fd].ptr].events == s.kernel[fd].mask != {})
    && (forall c: nat :: c < |s.contexts| && s.contexts[c].events != {} ==>
          s.contexts[c].fd in s.kernel && s.kernel[s.contexts[c].fd].ptr == c)
  }

  ghost predicate TableAgrees(s: State) {
    |s.table| >= 32
    && forall i :: 0 <= i < |s.table| ==> s.table[i] < |s.contexts| && s.contexts[s.table[i]].fd == i
  }

  ghost predicate Agrees(s: State) {
    && TableAgrees(s)
    && (forall c :: 0 <= c < |s.contexts| ==> ContextAgrees(s.contexts[c]))
    && KernelAgrees(s)
    && s.pending == Bits(s.contexts)
  }

  lemma BitsUpdate(contexts: seq<FdContext>, c: nat, x: FdContext)
    requires c < |contexts|
    ensures Bits(contexts[c := x]) == Bits(contexts) - |contexts[c].events| + |x.events|
  {
    var n := |contexts| - 1;
    if c < n {
      BitsUpdate(contexts[..n], c, x);
      assert contexts[c := x][..n] == contexts[..n][c := x];
    } else {
      assert contexts[c := x][..n] == contexts[..n];
    }
  }

  lemma BitsBlank(contexts: seq<FdContext>, fd: nat, n: nat)
    ensures Bits(contexts + Blank(fd, n)) == Bits(contexts)
    decreases n
  {
    if n == 0 {
      assert contexts + Blank(fd, n) == contexts;
    } else {
      BitsBlank(contexts, fd, n - 1);
      assert (contexts + Blank(fd, n))[..|contexts| + n - 1] == contexts + Blank(fd, n - 1);
    }
  }

  lemma KernelAfter(s: State, s': State, c: nat, x: FdContext)
    requires KernelAgrees(s) && c < |s.contexts|
    requires x.fd == s.contexts[c].fd
    requires s.contexts[c].events != {} || x.fd !in s.kernel
    requires s'.contexts == s.contexts[c := x]
    requires s'.kernel == if x.events == {} then s.kernel - {x.fd} else s.kernel[x.fd := Interest(x.events, c)]
    ensures KernelAgrees(s')
  {
  }

  /** One context changed together with its line in the interest set and the counter. */
  lemma AgreesAfter(s: State, s': State, c: nat, x: FdContext)
    requires Agrees(s) && c < |s.contexts|
    requires x.fd == s.contexts[c].fd && ContextAgrees(x)
    requires s.contexts[c].events != {} || x.fd !in s.kernel
    requires s'.contexts == s.contexts[c := x] && s'.table == s.table
    requires s'.kernel == if x.events == {} then s.kernel - {x.fd} else s.kernel[x.fd := Interest(x.events, c)]
    requires s'.pending == s.pending - |s.contexts[c].events| + |x.events|
    ensures Agrees(s')
  {
    BitsUpdate(s.contexts, c, x);
    KernelAfter(s, s', c, x);
    hide Bits, ContextAgrees, KernelAgrees;
  }

  /** Any resize, a cut included, keeps contexts and kernel in agreement. */
  lemma AgreesResized(s: State, size: nat)
    requires Agrees(s) && size >= 32
    ensures Agrees(Resized(s, size))
  {
    if size > |s.table| {
      BitsBlank(s.contexts, |s.table|, size - |s.table|);
    }
    hide Bits;
  }

  /** In agreement the call chosen for taking some directions out is always the legal one. */
  lemma RemovalIsLegal(s: State, c: nat, left: set<Dir>)
    requires Agrees(s) && c < |s.contexts| && left < s.contexts[c].events
    ensures Legal(s.kernel, if left != {} then Mod else Del, s.contexts[c].fd)
  {
  }

  lemma TriggerAgrees(x: FdContext, d: Dir)
    requires ContextAgrees(x)
    ensures var t := Trigger(x, d);
      && (t.TriggerStopped? <==> d !in x.events)
      && (t.TriggerStopped? ==> t.line == 38)
      && (t.Triggered? ==>
            && ContextAgrees(t.x) && t.x.fd == x.fd && t.x.events == x.events - {d}
            && GetContext(t.x, d) == EMPTY
            && (forall e :: e != d ==> GetContext(t.x, e) == GetContext(x, e))
            && t.handed == [TaskOf(GetContext(x, d))])
  {
  }

  /** The delivery a registered slot stands for. */
  ghost function TaskOf(slot: Slot): Delivery
    requires SlotAgrees(true, slot)
  {
    Delivery(slot.scheduler.value, if slot.cb.Some? then CallTask(slot.cb.value) else FiberTask(slot.fiber.value))
  }

  /** Deliveries for several directions, READ first. */
  ghost function TasksOf(x: FdContext, dirs: set<Dir>): seq<Delivery>
    requires ContextAgrees(x) && dirs <= x.events
  {
    (if Read in dirs then [TaskOf(x.read)] else []) + (if Write in dirs then [TaskOf(x.write)] else [])
  }

  /** The context with some directions taken out. */
  function Without(x: FdContext, dirs: set<Dir>): FdContext {
    FdContext(x.fd, x.events - dirs, if Read in dirs then EMPTY else x.read, if Write in dirs then EMPTY else x.write)
  }

  lemma TwoDirections(dirs: set<Dir>)
    ensures dirs == (if Read in dirs then {Read} else {}) + (if Write in dirs then {Write} else {})
    ensures |dirs| == (if Read in dirs then 1 else 0) + (if Write in dirs then 1 else 0)
  {
    var r, w := if Read in dirs then {Read} else {}, if Write in dirs then {Write} else {};
    forall d: Dir ensures d in dirs <==> d in r + w {
      if d.Read? {} else {}
    }
    assert dirs == r + w && r !! w;
  }

  /** Firing several directions: stops at line 38 exactly when one of them is not registered. */
  lemma FireBothSpec(s: State, c: nat, dirs: set<Dir>)
    requires c < |s.contexts| && ContextAgrees(s.contexts[c])
    ensures var o := FireBoth(s, c, dirs);
      var x := s.contexts[c];
      && (o.Stopped? <==> !(dirs <= x.events))
      && (o.Stopped? ==> o.line == 38)
      && (o.Returned? ==> o == Returned(s.(
            contexts := s.contexts[c := Without(x, dirs)],
            pending := s.pending - |dirs|,
            delivered := s.delivered + TasksOf(x, dirs)), true))
  {
    var x := s.contexts[c];
    if dirs <= x.events {
      FireBothWorks(s, c, dirs);
    } else {
      TwoDirections(dirs);
      TriggerAgrees(x, Read);
      if Read !in dirs || Read in x.events {
        assert Write in dirs && Write !in x.events;
      }
    }
  }

  lemma FireWorks(s: State, c: nat, d: Dir)
    requires c < |s.contexts| && ContextAgrees(s.contexts[c]) && d in s.contexts[c].events
    ensures var x := s.contexts[c];
      Fire(s, c, d) == Returned(s.(
        contexts := s.contexts[c := Without(x, {d})],
        pending := s.pending - 1,
        delivered := s.delivered + [TaskOf(GetContext(x, d))]), true)
    ensures ContextAgrees(Without(s.contexts[c], {d}))
  {
    TriggerAgrees(s.contexts[c], d);
    assert Trigger(s.contexts[c], d).x == Without(s.contexts[c], {d});
  }

  lemma FireBothWorks(s: State, c: nat, dirs: set<Dir>)
    requires c < |s.contexts| && ContextAgrees(s.contexts[c]) && dirs <= s.contexts[c].events
    ensures var x := s.contexts[c];
      FireBoth(s, c, dirs) == Returned(s.(
        contexts := s.contexts[c := Without(x, dirs)],
        pending := s.pending - |dirs|,
        delivered := s.delivered + TasksOf(x, dirs)), true)
  {
    var x := s.contexts[c];
    TwoDirections(dirs);
    hide Fire, ContextAgrees, SlotAgrees, TaskOf;
    if Read in dirs {
      FireWorks(s, c, Read);
      if Write in dirs {
        var s1 := Fire(s, c, Read).s;
        FireWorks(s1, c, Write);
        assert Without(Without(x, {Read}), {Write}) == Without(x, dirs);
        assert s.delivered + [TaskOf(x.read)] + [TaskOf(x.write)] == s.delivered + TasksOf(x, dirs);
      }
    } else if Write in dirs {
      FireWorks(s, c, Write);
    } else {
      assert Without(x, dirs) == x && s.contexts[c := x] == s.contexts;
      assert s.delivered + [] == s.delivered;
    }
  }
}
