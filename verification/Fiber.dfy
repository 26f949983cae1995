/**
 * Fiber (duan_src/fiber.cc) as objects: states, callbacks and contexts are assigned in place,
 * beside the thread-local variables. Every method does to the thread's view what FiberModel
 * says; `stop` is the line of the failed assertion, or 0.
 */
module FiberCode {
  import opened Common
  import M = FiberModel

  /** A context holds the code it resumes by reference. */
  datatype Saved = Top | Paused(code: Fiber) | Over(code: Fiber) {
    function View(): M.Context {
      match this
      case Top => M.Top
      case Paused(code) => M.Paused(code.id)
      case Over(code) => M.Over(code.id)
    }
  }

  /** The thread-local variables of fiber.cc and scheduler.cc, and the fibers that live. */
  class ThreadLocals {
    ghost var fibers: map<nat, Fiber>
    var current: Fiber
    var running: Fiber
    var mainFiber: Fiber
    var threadFiber: Fiber

    /** The first GetThis of a thread. */
    constructor (id: nat)
      ensures Valid() && View() == M.Start(id)
    {
      var f := new Fiber.OfThread(id);
      fibers := map[id := f];
      current, running, mainFiber, threadFiber := f, f, f, f;
    }

    ghost predicate Has(f: Fiber)
      reads this
    {
      f.id in fibers && fibers[f.id] == f
    }

    ghost predicate Valid()
      reads this, fibers.Values
    {
      && (forall f :: f in fibers ==> fibers[f].id == f)
      && (forall f :: f in fibers && !fibers[f].ctx.Top? ==> Has(fibers[f].ctx.code))
      && Has(current) && Has(running) && Has(mainFiber) && Has(threadFiber)
    }

    ghost function View(): (t: M.Thread)
      requires Valid()
      reads this, fibers.Values
      ensures M.Known(t) && t.fibers.Keys == fibers.Keys
    {
      M.Thread(map f | f in fibers :: fibers[f].Record(), current.id, running.id, mainFiber.id, threadFiber.id)
    }

    /** What a write to one fiber is to the view. */
    twostate lemma Rewrote(f: Fiber)
      requires old(Valid()) && Has(f) && unchanged(this)
      requires forall g :: g in fibers && fibers[g] != f ==> unchanged(fibers[g])
      requires f.ctx.Top? || Has(f.ctx.code)
      ensures Valid() && View() == old(View()).(fibers := old(View()).fibers[f.id := f.Record()])
    {
      assert View().fibers == old(View()).fibers[f.id := f.Record()];
    }

    /** Somebody makes a fiber. */
    method NewFiber(id: nat, cb: Option<nat>) returns (f: Fiber)
      requires Valid() && id !in fibers
      modifies this`fibers
      ensures Valid() && Has(f) && fresh(f) && f.id == id
      ensures M.Enabled(old(View()), M.CreateOp(id, cb)) && M.Next(View()) == M.Apply(old(View()), M.CreateOp(id, cb))
    {
      f := new Fiber(id, cb);
      fibers := fibers[id := f];
      assert View().fibers == old(View()).fibers[id := M.Fiber(M.INIT, M.Top, cb)];
    }

    /** SetThis. */
    method SetThis(f: Fiber)
      requires Valid() && Has(f)
      modifies this`current
      ensures Valid() && View() == old(View()).(current := f.id)
    {
      current := f;
    }

    method SwapContext(from: Fiber, into: Fiber, ended: bool) returns (stop: nat)
      requires Valid() && Has(from) && Has(into)
      modifies this`running, from`ctx
      ensures match M.Swap(old(View()), from.id, into.id, ended)
              case Next(t) => stop == 0 && Valid() && View() == t
              case Stopped(line) => stop == line && stop != 0
    {
      from.ctx := if ended then Over(running) else Paused(running);
      Rewrote(from);
      hide View;
      stop := Resume(into);
    }

    /** The half of swapcontext that loads a context. */
    method Resume(into: Fiber) returns (stop: nat)
      requires Valid() && Has(into)
      modifies this`running
      ensures match old(View()).fibers[into.id].ctx
              case Top => stop == 0 && Valid() && View() == old(View()).(running := into.id)
              case Paused(code) => stop == 0 && Valid() && View() == old(View()).(running := code)
              case Over(_) => stop == 236
    {
      match into.ctx {
        case Top => running := into;
        case Paused(code) => running := code;
        case Over(_) => return 236;
      }
      stop := 0;
    }

    /** YieldToReady and YieldToHold. */
    method YieldTo(ready: bool) returns (stop: nat)
      requires Valid()
      modifies this`current, this`running, current
      ensures match M.Yield(old(View()), ready)
              case Next(t) => stop == 0 && Valid() && View() == t
              case Stopped(line) => stop == line && stop != 0
    {
      var cur := current;
      cur.state := if ready then M.READY else M.HOLD;
      Rewrote(cur);
      stop := cur.SwapOut(this, false);
    }

    /** MainFunc from the return of the callback on, or from the catch clauses on. */
    method MainFuncEnds(threw: bool) returns (stop: nat)
      requires Valid()
      modifies this`current, this`running, running
      ensures match M.Finish(old(View()), threw)
              case Next(t) => stop == 0 && Valid() && View() == t
              case Stopped(line) => stop == line && stop != 0
    {
      var cur := running;
      if threw {
        cur.state := M.EXCEPT;
      } else {
        cur.cb := None;
        cur.state := M.TERM;
      }
      Rewrote(cur);
      stop := cur.SwapOut(this, true);
    }
  }

  class Fiber {
    const id: nat
    var state: M.FiberState
    var ctx: Saved
    var cb: Option<nat>

    constructor (id: nat, cb: Option<nat>)
      ensures this.id == id && Record() == M.Fiber(M.INIT, M.Top, cb)
    {
      this.id, state, ctx, this.cb := id, M.INIT, Top, cb;
    }

    /** The private constructor: the fiber that stands for the thread's own code. */
    constructor OfThread(id: nat)
      ensures this.id == id && Record() == M.Fiber(M.EXEC, M.Paused(id), None) && ctx == Paused(this)
    {
      this.id, state, ctx, cb := id, M.EXEC, Top, None;
      new;
      ctx := Paused(this);
    }

    function Record(): M.Fiber
      reads this
    {
      M.Fiber(state, ctx.View(), cb)
    }

    method Reset(t: ThreadLocals, cb: Option<nat>) returns (stop: nat)
      requires t.Valid() && t.Has(this)
      modifies this
      ensures match M.Reset(old(t.View()), id, cb)
              case Next(v) => stop == 0 && t.Valid() && t.View() == v
              case Stopped(line) => stop == line && stop != 0
    {
      if this == t.threadFiber {
        return 106;
      }
      if !(state.TERM? || state.INIT? || state.EXCEPT?) {
        return 107;
      }
      this.cb := cb;
      ctx := Top;
      state := M.INIT;
      t.Rewrote(this);
      stop := 0;
    }

    method Call(t: ThreadLocals) returns (stop: nat)
      requires t.Valid() && t.Has(this)
      modifies this`state, t`current, t`running, t.threadFiber`ctx
      ensures match M.Call(old(t.View()), id)
              case Next(v) => stop == 0 && t.Valid() && t.View() == v
              case Stopped(line) => stop == line && stop != 0
    {
      t.SetThis(this);
      label named:
      state := M.EXEC;
      t.Rewrote@named(this);
      stop := t.SwapContext(t.threadFiber, this, false);
    }

    method SwapIn(t: ThreadLocals) returns (stop: nat)
      requires t.Valid() && t.Has(this)
      modifies this`state, t`current, t`running, t.mainFiber`ctx
      ensures match M.SwapIn(old(t.View()), id)
              case Next(v) => stop == 0 && t.Valid() && t.View() == v
              case Stopped(line) => stop == line && stop != 0
    {
      t.SetThis(this);
      if state == M.EXEC {
        return 140;
      }
      label named:
      state := M.EXEC;
      t.Rewrote@named(this);
      stop := t.SwapContext(t.mainFiber, this, false);
    }

    method SwapOut(t: ThreadLocals, ended: bool) returns (stop: nat)
      requires t.Valid() && t.Has(this)
      modifies this`ctx, t`current, t`running
      ensures match M.SwapOut(old(t.View()), id, ended)
              case Next(v) => stop == 0 && t.Valid() && t.View() == v
              case Stopped(line) => stop == line && stop != 0
    {
      if this != t.mainFiber {
        t.SetThis(t.mainFiber);
        stop := t.SwapContext(this, t.mainFiber, ended);
      } else {
        t.SetThis(t.threadFiber);
        stop := t.SwapContext(this, t.threadFiber, ended);
      }
    }
  }
}
