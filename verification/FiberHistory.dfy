/**
 * What a thread's fibers do, as a log of hand-overs, entries, yields and ends: the log tells
 * every fiber's state and function, and which function each entry of MainFunc starts.
 */
module FiberHistory {
  import opened Common
  import opened FiberModel

  /** A fiber is entered at the top of MainFunc, which calls the function found then, or where it was left. */
  datatype How = AtTop(cb: Option<nat>) | WhereItWas

  /** Given is a creation or a reset, Entered a swapIn or a call, BackIn the fiber a swapOut goes to. */
  datatype Event =
    | Given(f: nat, cb: Option<nat>)
    | Entered(f: nat, how: How)
    | BackIn(f: nat, how: How)
    | Yielded(f: nat, ready: bool)
    | Ended(f: nat, threw: bool)

  datatype History = History(t: Thread, log: seq<Event>)

  /** The fiber whose context an operation saves. */
  function From(t: Thread, op: Op): nat {
    match op
    case SwapInOp(_) => t.mainFiber
    case CallOp(_) => t.threadFiber
    case YieldOp(_) => t.current
    case _ => t.running
  }

  /** MainFunc takes its function from the fiber t_fiber names. */
  function HowEntered(t: Thread, op: Op, t': Thread): How
    requires t'.current in t.fibers && t'.current in t'.fibers
  {
    if t.fibers[t'.current].ctx.Top? && t'.current != From(t, op) then AtTop(t'.fibers[t'.current].cb) else WhereItWas
  }

  function Events(t: Thread, op: Op): seq<Event>
    requires Enabled(t, op) && Apply(t, op).Next?
  {
    var t' := Apply(t, op).t;
    match op
    case CreateOp(f, cb) => [Given(f, cb)]
    case ResetOp(f, cb) => [Given(f, cb)]
    case CallOp(f) => [Entered(f, HowEntered(t, op, t'))]
    case SwapInOp(f) => [Entered(f, HowEntered(t, op, t'))]
    case YieldOp(ready) => [Yielded(t.current, ready)] + [BackIn(t'.current, HowEntered(t, op, t'))]
    case FinishOp(threw) => [Ended(t.running, threw)] + [BackIn(t'.current, HowEntered(t, op, t'))]
  }

  function Step(h: History, op: Op): History
    requires Enabled(h.t, op) && Apply(h.t, op).Next?
  {
    History(Apply(h.t, op).t, h.log + Events(h.t, op))
  }

  ghost predicate Reaches(h0: History, ops: seq<Op>, h: History)
    decreases |ops|
  {
    if ops == [] then h == h0
    else Enabled(h0.t, ops[0]) && Apply(h0.t, ops[0]).Next? && Reaches(Step(h0, ops[0]), ops[1..], h)
  }

  function Begin(id: nat): History {
    History(Start(id), [])
  }

  // ------------------------------------------------------- what a log tells

  /** The last thing that was done to a fiber says its state; without any it is the thread's own. */
  function StateTold(log: seq<Event>, f: nat): FiberState {
    if log == [] then EXEC
    else
      var (e, before) := (log[|log| - 1], log[..|log| - 1]);
      if e.f != f then StateTold(before, f)
      else
        match e
        case Given(_, _) => INIT
        case Entered(_, _) => EXEC
        case BackIn(_, _) => StateTold(before, f)
        case Yielded(_, ready) => if ready then READY else HOLD
        case Ended(_, threw) => if threw then EXCEPT else TERM
  }

  /** The function last handed to a fiber, unless it has returned since; a throw leaves it. */
  function FunctionTold(log: seq<Event>, f: nat): Option<nat> {
    if log == [] then None
    else
      var (e, before) := (log[|log| - 1], log[..|log| - 1]);
      if e == Ended(f, false) then None
      else if e.Given? && e.f == f then e.cb
      else FunctionTold(before, f)
  }

  /** The fiber has ended and been handed nothing since. */
  predicate OverTold(log: seq<Event>, f: nat) {
    log != []
    && var (e, before) := (log[|log| - 1], log[..|log| - 1]);
    if e.f == f && (e.Given? || e.Ended?) then e.Ended? else OverTold(before, f)
  }

  /** `cb` is what the fiber was handed last, and it has not ended since. */
  predicate Handed(log: seq<Event>, f: nat, cb: Option<nat>) {
    log != []
    && var (e, before) := (log[|log| - 1], log[..|log| - 1]);
    if e.f == f && (e.Given? || e.Ended?) then e == Given(f, cb) else Handed(before, f, cb)
  }

  /** Nothing at all has happened to the fiber since it was handed `cb`. */
  predicate JustHanded(log: seq<Event>, f: nat, cb: Option<nat>) {
    log != []
    && var (e, before) := (log[|log| - 1], log[..|log| - 1]);
    if e.f == f then e == Given(f, cb) else JustHanded(before, f, cb)
  }

  predicate Starts(e: Event, f: nat, cb: Option<nat>) {
    (e.Entered? || e.BackIn?) && e.f == f && e.how == AtTop(cb)
  }

  lemma Tells(log: seq<Event>, e: Event, f: nat)
    ensures StateTold(log + [e], f) ==
      if e.f != f || e.BackIn? then StateTold(log, f)
      else match e
           case Given(_, _) => INIT
           case Entered(_, _) => EXEC
           case Yielded(_, ready) => if ready then READY else HOLD
           case Ended(_, threw) => if threw then EXCEPT else TERM
           case BackIn(_, _) => EXEC
    ensures FunctionTold(log + [e], f) ==
      if e == Ended(f, false) then None else if e.Given? && e.f == f then e.cb else FunctionTold(log, f)
    ensures OverTold(log + [e], f) == if e.f == f && (e.Given? || e.Ended?) then e.Ended? else OverTold(log, f)
  {
    assert (log + [e])[..|log|] == log;
  }

  lemma Hands(log: seq<Event>, e: Event, f: nat, cb: Option<nat>)
    ensures Handed(log + [e], f, cb) ==
      if e.f == f && (e.Given? || e.Ended?) then e == Given(f, cb) else Handed(log, f, cb)
    ensures JustHanded(log + [e], f, cb) == if e.f == f then e == Given(f, cb) else JustHanded(log, f, cb)
  {
    assert (log + [e])[..|log|] == log;
  }

  /** Tells and Hands for the one or two events of an operation. */
  lemma TellsAll(h: History, op: Op, f: nat, cb: Option<nat>)
    requires Enabled(h.t, op) && Apply(h.t, op).Next?
    ensures var (es, log') := (Events(h.t, op), Step(h, op).log);
      && 1 <= |es| <= 2 && (|es| == 2 ==> es[1].BackIn?) && !es[0].BackIn?
      && var (e, b) := (es[0], es[|es| - 1]);
      && StateTold(log', f) == StateTold(h.log + [e], f)
      && FunctionTold(log', f) == FunctionTold(h.log + [e], f)
      && OverTold(log', f) == OverTold(h.log + [e], f)
      && Handed(log', f, cb) == Handed(h.log + [e], f, cb)
      && JustHanded(log', f, cb) == (JustHanded(h.log + [e], f, cb) && (b.BackIn? ==> b.f != f))
  {
    var es := Events(h.t, op);
    if |es| == 2 {
      assert Step(h, op).log == (h.log + [es[0]]) + [es[1]];
      Tells(h.log + [es[0]], es[1], f);
      Hands(h.log + [es[0]], es[1], f, cb);
    }
  }

  // ------------------------------------------------------------ every run

  /** State and function of a fiber are what the log tells. */
  ghost predicate FiberTold(h: History, f: nat)
    requires f in h.t.fibers
  {
    var x := h.t.fibers[f];
    && x.state == StateTold(h.log, f) && x.cb == FunctionTold(h.log, f)
    && (x.ctx.Top? ==> Handed(h.log, f, x.cb))
  }

  ghost predicate StartsHanded(log: seq<Event>) {
    forall i, f, cb :: 0 <= i < |log| && Starts(log[i], f, cb) ==> Handed(log[..i], f, cb)
  }

  ghost predicate Told(h: History) {
    (forall f :: f in h.t.fibers ==> FiberTold(h, f)) && StartsHanded(h.log)
  }

  /** The records an operation writes. */
  lemma FiberWritten(t: Thread, op: Op, f: nat)
    requires Enabled(t, op) && Apply(t, op).Next? && f in Apply(t, op).t.fibers
    ensures var x' := Apply(t, op).t.fibers[f];
      if f !in t.fibers then op.CreateOp? && op.f == f && x' == Fiber(INIT, Top, op.cb)
      else if op.ResetOp? && op.f == f then x' == Fiber(INIT, Top, op.cb)
      else
        var x := t.fibers[f];
        && x'.ctx == (if op.CreateOp? || op.ResetOp? || f != From(t, op) then x.ctx
                      else if op.FinishOp? then Over(t.running) else Paused(t.running))
        && x'.cb == (if op == FinishOp(false) && f == t.running then None else x.cb)
        && x'.state == match op
                       case SwapInOp(g) => if f == g then EXEC else x.state
                       case CallOp(g) => if f == g then EXEC else x.state
                       case YieldOp(ready) => if f != t.current then x.state else if ready then READY else HOLD
                       case FinishOp(threw) => if f != t.running then x.state else if threw then EXCEPT else TERM
                       case _ => x.state
  {
  }

  lemma FirstEvent(t: Thread, op: Op)
    requires Enabled(t, op) && Apply(t, op).Next?
    ensures var e := Events(t, op)[0];
      match op
      case CreateOp(f, cb) => e == Given(f, cb)
      case ResetOp(f, cb) => e == Given(f, cb)
      case CallOp(f) => e.Entered? && e.f == f
      case SwapInOp(f) => e.Entered? && e.f == f
      case YieldOp(ready) => e == Yielded(t.current, ready)
      case FinishOp(threw) => e == Ended(t.running, threw)
  {
  }

  lemma FiberToldStep(h: History, op: Op, f: nat)
    requires Enabled(h.t, op) && Apply(h.t, op).Next? && f in Apply(h.t, op).t.fibers
    requires f in h.t.fibers ==> FiberTold(h, f)
    ensures FiberTold(Step(h, op), f)
  {
    var h' := Step(h, op);
    var e := Events(h.t, op)[0];
    var cb := h'.t.fibers[f].cb;
    TellsAll(h, op, f, cb);
    Tells(h.log, e, f);
    Hands(h.log, e, f, cb);
    FiberWritten(h.t, op, f);
    FirstEvent(h.t, op);
    hide StateTold, FunctionTold, OverTold, Handed, JustHanded, Events, Apply;
  }

  /** An entry at the top finds the function the fiber has kept since it was handed over. */
  lemma StartIsHanded(h: History, op: Op, e: Event, f: nat, cb: Option<nat>)
    requires Enabled(h.t, op) && Apply(h.t, op).Next?
    requires e in Events(h.t, op) && Starts(e, f, cb)
    ensures f in h.t.fibers && h.t.fibers[f].ctx.Top? && h.t.fibers[f].cb == cb && f != From(h.t, op)
  {
  }

  /** The log before an entry at the top, which the operation may have made longer itself. */
  lemma BeforeStart(h: History, op: Op, i: nat, f: nat, cb: Option<nat>)
    requires Enabled(h.t, op) && Apply(h.t, op).Next?
    requires |h.log| <= i < |Step(h, op).log| && Starts(Step(h, op).log[i], f, cb)
    ensures f in h.t.fibers && h.t.fibers[f].ctx.Top? && h.t.fibers[f].cb == cb && f != From(h.t, op)
    ensures Handed(Step(h, op).log[..i], f, cb) == Handed(h.log, f, cb)
    ensures JustHanded(Step(h, op).log[..i], f, cb) == JustHanded(h.log, f, cb)
  {
    var es, log' := Events(h.t, op), Step(h, op).log;
    assert log'[i] == es[i - |h.log|] && es[i - |h.log|] in es;
    StartIsHanded(h, op, es[i - |h.log|], f, cb);
    if i == |h.log| {
      assert log'[..i] == h.log;
    } else {
      assert log'[..i] == h.log + [es[0]];
      Hands(h.log, es[0], f, cb);
    }
  }

  lemma StartsHandedStep(h: History, op: Op)
    requires Told(h) && Enabled(h.t, op) && Apply(h.t, op).Next?
    ensures StartsHanded(Step(h, op).log)
  {
    hide Apply, Enabled, Events, Starts, Handed;
    var log' := Step(h, op).log;
    forall i, f, cb | 0 <= i < |log'| && Starts(log'[i], f, cb) ensures Handed(log'[..i], f, cb) {
      if i < |h.log| {
        assert log'[..i] == h.log[..i] && log'[i] == h.log[i];
      } else {
        BeforeStart(h, op, i, f, cb);
        assert FiberTold(h, f);
      }
    }
  }

  lemma {:induction false} StaysTold(h0: History, ops: seq<Op>, h: History)
    requires Told(h0) && Reaches(h0, ops, h)
    ensures Told(h)
    decreases |ops|
  {
    if ops != [] {
      var h1 := Step(h0, ops[0]);
      forall f | f in h1.t.fibers ensures FiberTold(h1, f) { FiberToldStep(h0, ops[0], f); }
      StartsHandedStep(h0, ops[0]);
      StaysTold(h1, ops[1..], h);
    }
  }

  /**
   * Over every run of a thread, whatever its fibers do: a fiber is in the state its last
   * hand-over, entry, yield or end left it in; it has the function it was handed last, which
   * only a normal end takes away; and MainFunc, entered at the top, always calls the function
   * that this very fiber was handed last.
   */
  lemma RunsAreTold(id: nat, ops: seq<Op>, h: History)
    requires Reaches(Begin(id), ops, h)
    ensures forall f :: f in h.t.fibers ==>
      h.t.fibers[f].state == StateTold(h.log, f) && h.t.fibers[f].cb == FunctionTold(h.log, f)
    ensures forall i, f, cb :: 0 <= i < |h.log| && Starts(h.log[i], f, cb) ==> Handed(h.log[..i], f, cb)
  {
    StaysTold(Begin(id), ops, h);
    hide StateTold, FunctionTold, Handed, Starts;
    assert forall f :: f in h.t.fibers ==> FiberTold(h, f);
  }

  /**
   * Over every run of a thread a reset fails exactly for the fiber without a stack (line 106),
   * and for one that since its last hand-over was entered or has yielded but not ended (107).
   */
  lemma ResetFailsIff(id: nat, ops: seq<Op>, h: History, f: nat, cb: Option<nat>)
    requires Reaches(Begin(id), ops, h) && Enabled(h.t, ResetOp(f, cb))
    ensures var o := Apply(h.t, ResetOp(f, cb)); var told := StateTold(h.log, f);
      && (o == Stopped(106) <==> f == id)
      && (o == Stopped(107) <==> f != id && (told == EXEC || told == READY || told == HOLD))
      && (o.Stopped? ==> o.line == 106 || o.line == 107)
  {
    RunsAreTold(id, ops, h);
    SameThreadFiber(Begin(id), ops, h);
    hide StateTold, FunctionTold, Handed, Starts, Reaches;
  }

  lemma {:induction false} SameThreadFiber(h0: History, ops: seq<Op>, h: History)
    requires Reaches(h0, ops, h)
    ensures h.t.threadFiber == h0.t.threadFiber && h.t.mainFiber == h0.t.mainFiber
    decreases |ops|
  {
    if ops != [] {
      MainFiberStays(h0.t, ops[0]);
      hide Apply;
      SameThreadFiber(Step(h0, ops[0]), ops[1..], h);
    }
  }

  // ------------------------------------------------------- disciplined runs

  /** A fiber at the top that does not execute is untouched since its hand-over; one past its end is over. */
  ghost predicate FiberFresh(h: History, f: nat)
    requires f in h.t.fibers
  {
    var x := h.t.fibers[f];
    && (x.ctx.Top? && f != h.t.running ==> JustHanded(h.log, f, x.cb))
    && (x.ctx.Over? <==> OverTold(h.log, f))
  }

  ghost predicate StartsFresh(log: seq<Event>) {
    forall i, f, cb :: 0 <= i < |log| && Starts(log[i], f, cb) ==>
      JustHanded(log[..i], f, cb)
  }

  ghost predicate Fresh(h: History) {
    && Consistent(h.t) && !h.t.fibers[h.t.running].ctx.Over?
    && (forall f :: f in h.t.fibers ==> FiberFresh(h, f)) && StartsFresh(h.log)
  }

  /** Who executes next, and what it was resumed from. */
  lemma RunningAfter(t: Thread, op: Op)
    requires Consistent(t) && Enabled(t, op) && Disciplined(t, op) && Apply(t, op).Next?
    requires !t.fibers[t.running].ctx.Over?
    ensures var t' := Apply(t, op).t;
      && t'.running in t'.fibers && !t'.fibers[t'.running].ctx.Over?
      && (op.CreateOp? || op.ResetOp? ==> t'.running == t.running)
      && (!op.CreateOp? && !op.ResetOp? ==> From(t, op) == t.running)
      && (op.SwapInOp? || op.CallOp? ==> t'.running == op.f)
      && (op.FinishOp? ==> t'.running != t.running)
  {
  }

  lemma FiberFreshStep(h: History, op: Op, f: nat)
    requires Consistent(h.t) && !h.t.fibers[h.t.running].ctx.Over? && Enabled(h.t, op) && Disciplined(h.t, op)
    requires Apply(h.t, op).Next? && f in Apply(h.t, op).t.fibers
    requires f in h.t.fibers ==> FiberFresh(h, f)
    ensures FiberFresh(Step(h, op), f)
    ensures var t' := Apply(h.t, op).t; f == t'.running ==> !t'.fibers[f].ctx.Over?
  {
    var h' := Step(h, op);
    var e := Events(h.t, op)[0];
    var cb := h'.t.fibers[f].cb;
    TellsAll(h, op, f, cb);
    Tells(h.log, e, f);
    Hands(h.log, e, f, cb);
    FiberWritten(h.t, op, f);
    FirstEvent(h.t, op);
    RunningAfter(h.t, op);
    hide StateTold, FunctionTold, OverTold, Handed, JustHanded, Events, Apply;
  }

  lemma StartsFreshStep(h: History, op: Op)
    requires Fresh(h) && Enabled(h.t, op) && Disciplined(h.t, op) && Apply(h.t, op).Next?
    ensures StartsFresh(Step(h, op).log)
  {
    hide Apply, Events, Starts, JustHanded;
    var log' := Step(h, op).log;
    forall i, f, cb | 0 <= i < |log'| && Starts(log'[i], f, cb) ensures JustHanded(log'[..i], f, cb) {
      if i < |h.log| {
        assert log'[..i] == h.log[..i] && log'[i] == h.log[i];
      } else {
        BeforeStart(h, op, i, f, cb);
        assert FiberFresh(h, f);
      }
    }
  }

  lemma {:induction false} StaysFresh(h0: History, ops: seq<Op>, h: History)
    requires Fresh(h0) && Reaches(h0, ops, h) && AllDisciplined(h0.t, ops)
    ensures Fresh(h)
    decreases |ops|
  {
    if ops != [] {
      var h1 := Step(h0, ops[0]);
      forall f | f in h1.t.fibers ensures FiberFresh(h1, f) { FiberFreshStep(h0, ops[0], f); }
      ConsistentIff(h0.t, ops[0]);
      FiberFreshStep(h0, ops[0], h1.t.running);
      StartsFreshStep(h0, ops[0]);
      StaysFresh(h1, ops[1..], h);
    }
  }

  /** Over every disciplined run each hand-over is started at most once, by the first entry after it. */
  lemma StartedOnce(id: nat, ops: seq<Op>, h: History)
    requires Reaches(Begin(id), ops, h) && AllDisciplined(Start(id), ops)
    ensures forall i, f, cb :: 0 <= i < |h.log| && Starts(h.log[i], f, cb) ==> JustHanded(h.log[..i], f, cb)
  {
    StaysFresh(Begin(id), ops, h);
    hide JustHanded, Starts;
  }

  /**
   * In every disciplined run a swapIn from the scheduling loop fails exactly for a fiber that
   * is in execution (line 140), and for one that has ended and been handed no function since
   * (line 236).
   */
  lemma EntryFailsIff(id: nat, ops: seq<Op>, h: History, f: nat)
    requires Reaches(Begin(id), ops, h) && AllDisciplined(Start(id), ops)
    requires f in h.t.fibers && f != h.t.mainFiber && h.t.running == h.t.mainFiber
    ensures Known(h.t)
    ensures SwapIn(h.t, f) == Stopped(140) <==> StateTold(h.log, f) == EXEC
    ensures SwapIn(h.t, f) == Stopped(236) <==> StateTold(h.log, f) != EXEC && OverTold(h.log, f)
    ensures SwapIn(h.t, f).Stopped? ==> SwapIn(h.t, f).line == 140 || SwapIn(h.t, f).line == 236
  {
    RunsAreTold(id, ops, h);
    StaysFresh(Begin(id), ops, h);
    assert FiberFresh(h, f);
    hide StateTold, OverTold, StartsFresh;
  }
}
