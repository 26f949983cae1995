/**
 * The fibers of one thread (duan_src/fiber.cc) on values. A saved ucontext is reduced to whose
 * code it resumes; what matters is that t_fiber names the code that executes and that a fiber
 * giving up control gets back to the scheduling loop.
 */
module FiberModel {
  import opened Common

  datatype FiberState = INIT | HOLD | EXEC | TERM | READY | EXCEPT

  /** MainFunc from the top, the code of a fiber where it was left, or that code past its last swapOut. */
  datatype Context = Top | Paused(code: nat) | Over(code: nat)

  datatype Fiber = Fiber(state: FiberState, ctx: Context, cb: Option<nat>)

  /**
   * `current` is t_fiber, `threadFiber` is t_threadFiber (the one without a stack of its own),
   * `mainFiber` is Scheduler::GetMainFiber() and `running` is the fiber whose code executes.
   */
  datatype Thread = Thread(fibers: map<nat, Fiber>, current: nat, running: nat, mainFiber: nat, threadFiber: nat)

  datatype Outcome = Next(t: Thread) | Stopped(line: nat)

  predicate Known(t: Thread) {
    t.current in t.fibers && t.running in t.fibers && t.mainFiber in t.fibers && t.threadFiber in t.fibers
  }

  /** States Fiber::reset accepts. */
  predicate Resettable(state: FiberState) {
    state.TERM? || state.INIT? || state.EXCEPT?
  }

  /** swapcontext(&from->m_ctx, &into->m_ctx); `ended` marks the swapOut at the end of MainFunc. */
  function Swap(t: Thread, from: nat, into: nat, ended: bool): Outcome
    requires from in t.fibers && into in t.fibers
  {
    var fibers := t.fibers[from := t.fibers[from].(ctx := if ended then Over(t.running) else Paused(t.running))];
    match fibers[into].ctx
    case Top => Next(t.(fibers := fibers, running := into))
    case Paused(code) => Next(t.(fibers := fibers, running := code))
    case Over(_) => Stopped(236)
  }

  function SetState(t: Thread, f: nat, state: FiberState): Thread
    requires f in t.fibers
  {
    t.(fibers := t.fibers[f := t.fibers[f].(state := state)])
  }

  function SwapIn(t: Thread, f: nat): Outcome
    requires Known(t) && f in t.fibers
  {
    if t.fibers[f].state.EXEC? then Stopped(140)
    else Swap(SetState(t.(current := f), f, EXEC), t.mainFiber, f, false)
  }

  function Call(t: Thread, f: nat): Outcome
    requires Known(t) && f in t.fibers
  {
    Swap(SetState(t.(current := f), f, EXEC), t.threadFiber, f, false)
  }

  function SwapOut(t: Thread, f: nat, ended: bool): Outcome
    requires Known(t) && f in t.fibers
  {
    if f != t.mainFiber then Swap(t.(current := t.mainFiber), f, t.mainFiber, ended)
    else Swap(t.(current := t.threadFiber), f, t.threadFiber, ended)
  }

  /** YieldToReady and YieldToHold act on whatever t_fiber names. */
  function Yield(t: Thread, ready: bool): Outcome
    requires Known(t)
  {
    SwapOut(SetState(t, t.current, if ready then READY else HOLD), t.current, false)
  }

  /** The end of MainFunc; only a callback that returns is cleared. */
  function Finish(t: Thread, threw: bool): Outcome
    requires Known(t)
  {
    var f := t.fibers[t.running];
    var f' := if threw then f.(state := EXCEPT) else f.(state := TERM, cb := None);
    SwapOut(t.(fibers := t.fibers[t.running := f']), t.running, true)
  }

  function Reset(t: Thread, f: nat, cb: Option<nat>): Outcome
    requires Known(t) && f in t.fibers
  {
    if f == t.threadFiber then Stopped(106)
    else if !Resettable(t.fibers[f].state) then Stopped(107)
    else Next(t.(fibers := t.fibers[f := Fiber(INIT, Top, cb)]))
  }

  datatype Op =
    | CreateOp(f: nat, cb: Option<nat>)
    | ResetOp(f: nat, cb: Option<nat>)
    | CallOp(f: nat)
    | SwapInOp(f: nat)
    | YieldOp(ready: bool)
    | FinishOp(threw: bool)

  /** What the code that executes on the thread can do next; the thread's own code has no MainFunc around it. */
  predicate Enabled(t: Thread, op: Op) {
    && Known(t)
    && match op
       case CreateOp(f, _) => f !in t.fibers
       case ResetOp(f, _) => f in t.fibers
       case CallOp(f) => f in t.fibers
       case SwapInOp(f) => f in t.fibers
       case YieldOp(_) => true
       case FinishOp(_) => t.running != t.threadFiber
  }

  function Apply(t: Thread, op: Op): Outcome
    requires Enabled(t, op)
  {
    match op
    case CreateOp(f, cb) => Next(t.(fibers := t.fibers[f := Fiber(INIT, Top, cb)]))
    case ResetOp(f, cb) => Reset(t, f, cb)
    case CallOp(f) => Call(t, f)
    case SwapInOp(f) => SwapIn(t, f)
    case YieldOp(ready) => Yield(t, ready)
    case FinishOp(threw) => Finish(t, threw)
  }

  ghost predicate Runs(t0: Thread, ops: seq<Op>, t: Thread)
    decreases |ops|
  {
    if ops == [] then t == t0
    else Enabled(t0, ops[0]) && var o := Apply(t0, ops[0]); o.Next? && Runs(o.t, ops[1..], t)
  }

  // ---------------------------------------------------------- consistency

  /** t_fiber names the executing code, and every context resumes its own fiber. */
  ghost predicate Consistent(t: Thread) {
    && Known(t)
    && t.current == t.running
    && t.fibers[t.threadFiber].ctx == Paused(t.threadFiber)
    && (forall f :: f in t.fibers && !t.fibers[f].ctx.Top? ==> t.fibers[f].ctx.code == f)
  }

  /** swapIn is for the scheduling loop, call for the thread's own code. */
  predicate Disciplined(t: Thread, op: Op) {
    && (op.SwapInOp? ==> t.running == t.mainFiber)
    && (op.CallOp? ==> t.running == t.threadFiber)
  }

  /**
   * An operation that gets through keeps the thread consistent exactly when it is disciplined:
   * a swapIn from anywhere but the scheduling loop, or a call from anywhere but the thread
   * fiber, saves the wrong code in that fiber's context.
   */
  lemma ConsistentIff(t: Thread, op: Op)
    requires Consistent(t) && Enabled(t, op) && Apply(t, op).Next?
    ensures Consistent(Apply(t, op).t) <==> Disciplined(t, op)
  {
    var t' := Apply(t, op).t;
    match op
    case SwapInOp(f) =>
      assert t'.fibers[t.mainFiber].ctx == Paused(t.running);
    case CallOp(f) =>
      assert t'.fibers[t.threadFiber].ctx == Paused(t.running);
    case _ =>
  }

  /** Which assertion of fiber.cc an operation runs into, and when. */
  lemma StopsIff(t: Thread, op: Op)
    requires Consistent(t) && Enabled(t, op) && Disciplined(t, op)
    ensures var o := Apply(t, op);
      match op
      case CreateOp(_, _) => o.Next?
      case ResetOp(f, _) => o.Stopped? <==> f == t.threadFiber || !Resettable(t.fibers[f].state)
      case CallOp(f) => o.Stopped? <==> t.fibers[f].ctx.Over?
      case SwapInOp(f) => o.Stopped? <==> t.fibers[f].state.EXEC? || (f != t.mainFiber && t.fibers[f].ctx.Over?)
      case YieldOp(_) => o.Stopped? <==> t.running != t.mainFiber && t.fibers[t.mainFiber].ctx.Over?
      case FinishOp(_) => o.Stopped? <==> t.running != t.mainFiber && t.fibers[t.mainFiber].ctx.Over?
  {
  }

  lemma {:induction false} DisciplineKeepsConsistent(t0: Thread, ops: seq<Op>, t: Thread)
    requires Consistent(t0) && Runs(t0, ops, t) && AllDisciplined(t0, ops)
    ensures Consistent(t)
    decreases |ops|
  {
    if ops != [] {
      ConsistentIff(t0, ops[0]);
      DisciplineKeepsConsistent(Apply(t0, ops[0]).t, ops[1..], t);
    }
  }

  ghost predicate AllDisciplined(t: Thread, ops: seq<Op>)
    decreases |ops|
  {
    ops == [] || (Enabled(t, ops[0]) && Disciplined(t, ops[0])
      && var o := Apply(t, ops[0]); o.Next? ==> AllDisciplined(o.t, ops[1..]))
  }

  lemma MainFiberStays(t: Thread, op: Op)
    requires Enabled(t, op) && Apply(t, op).Next?
    ensures Apply(t, op).t.mainFiber == t.mainFiber && Apply(t, op).t.threadFiber == t.threadFiber
  {
  }

  /**
   * On a worker thread no disciplined run ever lets a yield or the end of a fiber run into an
   * assertion: the scheduling loop is always there to go back to.
   */
  lemma {:induction false} GivingUpNeverStops(t0: Thread, ops: seq<Op>, t: Thread, leave: Op)
    requires Consistent(t0) && t0.mainFiber == t0.threadFiber && Runs(t0, ops, t) && AllDisciplined(t0, ops)
    requires (leave.YieldOp? || leave.FinishOp?) && Enabled(t, leave)
    ensures Apply(t, leave).Next?
    ensures t.running != t.mainFiber ==> Apply(t, leave).t.running == t.mainFiber
    decreases |ops|
  {
    if ops == [] {
      StopsIff(t, leave);
    } else {
      ConsistentIff(t0, ops[0]);
      MainFiberStays(t0, ops[0]);
      GivingUpNeverStops(Apply(t0, ops[0]).t, ops[1..], t, leave);
    }
  }

  /**
   * A fiber the scheduling loop swaps in runs next, and when it gives up control the loop
   * continues where it was, finding in the fiber the state it left behind.
   */
  lemma GivesControlBack(t: Thread, f: nat, leave: Op)
    requires Consistent(t) && t.running == t.mainFiber && f in t.fibers && f != t.mainFiber
    requires SwapIn(t, f).Next? && (leave.YieldOp? || (leave.FinishOp? && f != t.threadFiber))
    ensures var t1 := SwapIn(t, f).t;
      && t1.running == t1.current == f && t1.fibers[f].state == EXEC
      && var o := Apply(t1, leave);
      && o.Next? && o.t.running == o.t.current == t.running
      && o.t.fibers[f].state == (match leave
                                 case YieldOp(ready) => if ready then READY else HOLD
                                 case FinishOp(threw) => if threw then EXCEPT else TERM
                                 case _ => INIT)
      && (SwapIn(o.t, f).Stopped? <==> leave.FinishOp?)
      && (forall g :: g in t.fibers && g != f && g != t.mainFiber ==> g in o.t.fibers && o.t.fibers[g] == t.fibers[g])
      && o.t.fibers[t.mainFiber].state == t.fibers[t.mainFiber].state
  {
  }

  // ------------------------------------------------------ nested swap-ins

  /** No context leads back into the code of the scheduling loop. */
  ghost predicate LoopLost(t: Thread) {
    && Known(t) && t.mainFiber == t.threadFiber && t.running != t.mainFiber
    && !t.fibers[t.mainFiber].ctx.Top?
    && (forall f :: f in t.fibers && !t.fibers[f].ctx.Top? ==>
          t.fibers[f].ctx.code != t.mainFiber && t.fibers[f].ctx.code in t.fibers)
  }

  lemma LoopLostStep(t: Thread, op: Op)
    requires LoopLost(t) && Enabled(t, op) && Apply(t, op).Next?
    ensures LoopLost(Apply(t, op).t)
  {
  }

  lemma {:induction false} LoopLostForever(t0: Thread, ops: seq<Op>, t: Thread)
    requires LoopLost(t0) && Runs(t0, ops, t)
    ensures LoopLost(t)
    decreases |ops|
  {
    if ops != [] {
      LoopLostStep(t0, ops[0]);
      LoopLostForever(Apply(t0, ops[0]).t, ops[1..], t);
    }
  }

  /**
   * On a worker thread one swapIn from inside a fiber is final: whatever the fibers do
   * afterwards, the scheduling loop never executes again.
   */
  lemma NestedSwapInLosesTheLoop(t: Thread, f: nat, ops: seq<Op>, t': Thread)
    requires Consistent(t) && t.mainFiber == t.threadFiber && t.running != t.mainFiber
    requires f in t.fibers && SwapIn(t, f).Next? && Runs(SwapIn(t, f).t, ops, t')
    ensures t'.running != t'.mainFiber
  {
    var t1 := SwapIn(t, f).t;
    assert t1.fibers[t.mainFiber].ctx == Paused(t.running);
    LoopLostForever(t1, ops, t');
  }

  /** A thread after the first GetThis. */
  function Start(id: nat): Thread {
    Thread(map[id := Fiber(EXEC, Paused(id), None)], id, id, id, id)
  }

  lemma StartIsConsistent(id: nat)
    ensures Consistent(Start(id))
  {
  }
}
