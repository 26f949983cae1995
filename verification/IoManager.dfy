/**
 * IOManager (duan_src/iomanager.cc) as objects: contexts updated in place, the table of
 * references to them, the interest set with its data.ptr, the pending counter and the
 * hand-over to schedulers. Every method does to the view what EventTable says, including
 * where an assertion stops it.
 */
module IoManagerCode {
  import opened Common
  import opened E = EventTable
  import R = EventRuns

  class FdContext {
    /** Stands for the address. */
    ghost const id: nat
    var read: Slot
    var write: Slot
    var fd: nat
    var events: set<Dir>

    constructor (ghost id: nat, fd: nat)
      ensures this.id == id && View() == E.FdContext(fd, {}, EMPTY, EMPTY)
    {
      this.id := id;
      this.fd, events, read, write := fd, {}, EMPTY, EMPTY;
    }

    function View(): E.FdContext
      reads this
    {
      E.FdContext(fd, events, read, write)
    }

    method SetContext(d: Dir, slot: Slot)
      modifies this`read, this`write
      ensures View() == WithContext(old(View()), d, slot)
    {
      match d
      case Read => read := slot;
      case Write => write := slot;
    }

    /** resetContext on the slot of `d`. */
    method ResetContext(d: Dir)
      modifies this`read, this`write
      ensures View() == WithContext(old(View()), d, EMPTY)
    {
      SetContext(d, Slot(None, None, None));
    }

    /** The writes of delEvent behind the kernel call. */
    method TakeOut(d: Dir, newEvents: set<Dir>)
      modifies this
      ensures View() == WithContext(old(View()).(events := newEvents), d, EMPTY)
    {
      events := newEvents;
      ResetContext(d);
    }

    /** The writes of addEvent behind the kernel call. */
    method Register(d: Dir, scheduler: nat, task: Task) returns (stop: nat)
      modifies this
      ensures stop == if GetContext(old(View()), d) != EMPTY then 141 else 0
      ensures stop == 0 ==>
        View() == WithContext(old(View()).(events := old(View()).events + {d}), d, Fill(scheduler, task))
    {
      events := events + {d};
      if GetContext(View(), d) != Slot(None, None, None) {
        return 141;
      }
      match task {
        case CallTask(c) => SetContext(d, Slot(Some(scheduler), None, Some(c)));
        case FiberTask(f) => SetContext(d, Slot(Some(scheduler), Some(f), None));
      }
      return 0;
    }

    /** triggerEvent; `stop` is the line of the failed check, or 0. */
    method TriggerEvent(d: Dir) returns (stop: nat, handed: seq<Delivery>)
      modifies this
      ensures match Trigger(old(View()), d)
              case TriggerStopped(line) => stop == line && stop != 0
              case Triggered(x, ds) => stop == 0 && View() == x && handed == ds
    {
      handed := [];
      if d !in events {
        return 38, [];
      }
      events := events - {d};
      var ctx := GetContext(View(), d);
      if ctx.scheduler.None? {
        return 42, [];
      }
      if ctx.cb.Some? {
        handed := [Delivery(ctx.scheduler.value, CallTask(ctx.cb.value))];
        ctx := ctx.(cb := None);
      } else {
        if ctx.fiber.Some? {
          handed := [Delivery(ctx.scheduler.value, FiberTask(ctx.fiber.value))];
        }
        ctx := ctx.(fiber := None);
      }
      ctx := ctx.(scheduler := None);
      SetContext(d, ctx);
      stop := 0;
    }
  }

  /** What the kernel keeps: the mask and the data.ptr it was given. */
  datatype Registration = Registration(mask: set<Dir>, ptr: FdContext)

  /** One entry of the array epoll_wait fills. */
  datatype EpollEvent = EpollEvent(ptr: FdContext, report: set<Report>)

  /** Interest bits as the kernel writes them: EPOLLIN is READ and EPOLLOUT is WRITE. */
  function Mask(dirs: set<Dir>): set<Report> {
    (if Read in dirs then {In} else {}) + (if Write in dirs then {Out} else {})
  }

  /** The interest bits of some directions report exactly these. */
  lemma MaskReports(dirs: set<Dir>)
    ensures forall d :: Reports(Mask(dirs), d) <==> d in dirs
  {
    forall d ensures Reports(Mask(dirs), d) <==> d in dirs {
      if d.Read? {} else {}
    }
  }

  lemma FireEvents(s: State, c: nat, d: Dir)
    requires c < |s.contexts|
    ensures var o := E.Fire(s, c, d);
      o.Returned? ==> o.ok && o.s.contexts[c].events == s.contexts[c].events - {d}
  {
  }

  lemma EndOfTurns(s: State, turns: seq<R.Turn>)
    ensures turns[|turns|..] == [] && R.DispatchTurns(false, s, []) == Returned(s, true)
  {
  }

  lemma NextTurn(s: State, turns: seq<R.Turn>, i: nat)
    requires i < |turns| && forall t <- turns :: t.c < |s.contexts|
    ensures turns[i] in turns && (forall t <- turns[i..] :: t.c < |s.contexts|)
    ensures var o := E.Dispatch(false, s, turns[i].c, turns[i].report, turns[i].works);
      && (o.Returned? ==> forall t <- turns[i + 1..] :: t.c < |o.s.contexts|)
      && R.DispatchTurns(false, s, turns[i..]) == if o.Stopped? then o else R.DispatchTurns(false, o.s, turns[i + 1..])
  {
    assert turns[i..][0] == turns[i] && turns[i..][1..] == turns[i + 1..];
    hide E.Dispatch;
  }

  class IOManager {
    var fdContexts: seq<FdContext>
    var kernel: map<nat, Registration>
    var pending: int
    var delivered: seq<Delivery>
    /** Every context ever made, those cut off the table included. */
    ghost var made: seq<FdContext>

    constructor ()
      ensures Valid() && View() == R.Start().s
    {
      fdContexts, kernel, pending, delivered, made := [], map[], 0, [], [];
      new;
      ContextResize(32);
      assert [] + Blank(0, 32) == Blank(0, 32) && [] + Upwards(0, 32) == Upwards(0, 32);
    }

    ghost predicate Made(c: FdContext)
      reads this
    {
      c.id < |made| && made[c.id] == c
    }

    /** Contexts are found under their identity; the table and the kernel refer to made ones only. */
    ghost predicate Valid()
      reads this
    {
      && (forall i :: 0 <= i < |made| ==> made[i].id == i)
      && (forall i :: 0 <= i < |fdContexts| ==> Made(fdContexts[i]))
      && (forall fd :: fd in kernel ==> Made(kernel[fd].ptr))
    }

    static ghost function Views(cs: seq<FdContext>): (r: seq<E.FdContext>)
      reads cs
      ensures |r| == |cs|
      ensures forall i :: 0 <= i < |cs| ==> r[i] == cs[i].View()
    {
      if cs == [] then [] else [cs[0].View()] + Views(cs[1..])
    }

    static ghost function Ids(cs: seq<FdContext>): (r: seq<nat>)
      ensures |r| == |cs|
      ensures forall i :: 0 <= i < |cs| ==> r[i] == cs[i].id
    {
      seq(|cs|, i requires 0 <= i < |cs| => cs[i].id)
    }

    static ghost function Interests(k: map<nat, Registration>): Kernel {
      map fd | fd in k :: Interest(k[fd].mask, k[fd].ptr.id)
    }

    ghost function View(): State
      reads this, made
    {
      State.State(Views(made), Ids(fdContexts), Interests(kernel), pending, delivered)
    }

    /** Writes to one context show at its place in the view, and nowhere else. */
    twostate lemma ContextChanged(c: FdContext)
      requires old(Valid()) && Made(c) && made == old(made)
      requires forall x <- made :: x != c ==> unchanged(x)
      ensures Views(made) == old(Views(made))[c.id := c.View()]
    {
      forall i | 0 <= i < |made| ensures i != c.id ==> made[i].View() == old(made[i].View()) {
        assert made[i] in made;
      }
      hide IOManager.Views;
      assert Views(made) == old(Views(made))[c.id := c.View()];
    }

    lemma ContextOf(c: FdContext)
      requires Valid() && Made(c)
      ensures c.id < |View().contexts| && View().contexts[c.id] == c.View() && c in made
    {
    }

    lemma ViewIsWired()
      requires Valid()
      ensures Wired(View())
    {
    }

    /** contextResize: references beyond the new size are dropped, the contexts are not. */
    method ContextResize(size: nat)
      requires Valid()
      modifies this`fdContexts, this`made
      ensures Valid() && View() == Resized(old(View()), size)
      ensures |made| >= |old(made)| && made[..|old(made)|] == old(made)
      ensures forall i :: |old(made)| <= i < |made| ==> fresh(made[i])
    {
      ghost var ids := Ids(fdContexts);
      if size <= |fdContexts| {
        fdContexts := fdContexts[..size];
        assert Ids(fdContexts) == ids[..size];
      } else {
        Extend(size);
      }
    }

    method Extend(size: nat)
      requires Valid() && |fdContexts| <= size
      modifies this`fdContexts, this`made
      ensures Valid()
      ensures var (s, n) := (old(View()), size - |old(fdContexts)|);
        View() == s.(contexts := s.contexts + Blank(|s.table|, n), table := s.table + Upwards(|s.contexts|, n))
      ensures |made| >= |old(made)| && made[..|old(made)|] == old(made)
      ensures forall i :: |old(made)| <= i < |made| ==> fresh(made[i])
    {
      ghost var before, ids := Views(made), Ids(fdContexts);
      var start := |fdContexts|;
      var i := start;
      hide IOManager.Views, Interests;
      while i < size
        invariant start <= i <= size && i == |fdContexts|
        invariant |made| == |old(made)| + (i - start) && made[..|old(made)|] == old(made)
        invariant forall j :: |old(made)| <= j < |made| ==> fresh(made[j])
        invariant Views(made) == before + Blank(start, i - start)
        invariant Ids(fdContexts) == ids + Upwards(|before|, i - start)
        invariant Valid()
      {
        ghost var views := Views(made);
        var c := NewContext(i);
        fdContexts := fdContexts + [c];
        assert Views(made) == views + [c.View()];
        i := i + 1;
      }
    }

    /** A context for `fd`, under the next identity. */
    method NewContext(fd: nat) returns (c: FdContext)
      requires Valid()
      modifies this`made
      ensures Valid() && made == old(made) + [c] && c.id == |old(made)| && fresh(c)
      ensures c.View() == E.FdContext(fd, {}, EMPTY, EMPTY)
    {
      c := new FdContext(|made|, fd);
      made := made + [c];
    }

    /** epoll_ctl: 0 and the new interest set, or -1 and no change. */
    method EpollCtl(op: CtlOp, fd: nat, mask: set<Dir>, ptr: FdContext, works: bool) returns (rt: int)
      requires Valid() && Made(ptr)
      modifies this`kernel
      ensures Valid()
      ensures match Ctl(Interests(old(kernel)), op, fd, Interest(mask, ptr.id), works)
              case None => rt == -1 && kernel == old(kernel)
              case Some(k) => rt == 0 && Interests(kernel) == k
    {
      if (if op.Add? then fd in kernel else fd !in kernel) || !works {
        return -1;
      }
      if op.Del? {
        kernel := kernel - {fd};
      } else {
        kernel := kernel[fd := Registration(mask, ptr)];
      }
      return 0;
    }

    /** Result of addEvent: `stop` is the line of a failed check or 0, `rt` the return value. */
    method AddEvent(fd: nat, d: Dir, scheduler: nat, task: Task, works: bool) returns (stop: nat, rt: int)
      requires Valid() && Wired(View())
      modifies this, made
      ensures match E.AddEvent(old(View()), fd, d, scheduler, task, works)
              case Stopped(line) => stop == line
              case Returned(s, ok) => stop == 0 && View() == s && Valid() && rt == if ok then 0 else -1
    {
      hide E.AddTo, IOManager.Views;
      if |fdContexts| > fd {
        assert Made(fdContexts[fd]) && fdContexts[fd] in made;
        stop, rt := AddTo(fdContexts[fd], d, scheduler, task, works);
      } else {
        stop, rt := AddLate(fd, d, scheduler, task, works);
      }
    }

    /** addEvent from the write lock on; other threads may have come in since the size test. */
    method AddLate(fd: nat, d: Dir, scheduler: nat, task: Task, works: bool) returns (stop: nat, rt: int)
      requires Valid() && Wired(View())
      modifies this, made
      ensures match E.AddLate(false, old(View()), fd, d, scheduler, task, works)
              case Stopped(line) => stop == line
              case Returned(s, ok) => stop == 0 && View() == s && Valid() && rt == if ok then 0 else -1
    {
      hide E.AddTo, Resized, IOManager.Views;
      ContextResize(fd * 3 / 2);
      if |fdContexts| <= fd {
        return 114, -1;
      }
      assert Made(fdContexts[fd]) && fdContexts[fd] in made;
      stop, rt := AddTo(fdContexts[fd], d, scheduler, task, works);
    }

    /** The part of addEvent under the context's mutex. */
    method AddTo(fdCtx: FdContext, d: Dir, scheduler: nat, task: Task, works: bool) returns (stop: nat, rt: int)
      requires Valid() && Made(fdCtx)
      modifies this`kernel, this`pending, fdCtx
      ensures Valid() && fdCtx.id < |old(View()).contexts|
      ensures match E.AddTo(old(View()), fdCtx.id, d, scheduler, task, works)
              case Stopped(line) => stop == line
              case Returned(s, ok) => stop == 0 && View() == s && rt == if ok then 0 else -1
    {
      hide Ctl, WithContext, GetContext, IOManager.Views, Interests, Fill;
      ContextOf(fdCtx);
      if d in fdCtx.events {
        return 121, -1;
      }
      var op := if fdCtx.events != {} then Mod else Add;
      rt := EpollCtl(op, fdCtx.fd, fdCtx.events + {d}, fdCtx, works);
      if rt != 0 {
        return 0, -1;
      }
      pending := pending + 1;
      stop := fdCtx.Register(d, scheduler, task);
      ContextChanged(fdCtx);
    }

    method DelEvent(fd: nat, d: Dir, works: bool) returns (ok: bool)
      requires Valid() && Wired(View())
      modifies this, made
      ensures Valid() && Returned(View(), ok) == E.DelEvent(old(View()), fd, d, works)
    {
      hide E.DelFrom, IOManager.Views;
      if |fdContexts| <= fd {
        return false;
      }
      assert Made(fdContexts[fd]) && fdContexts[fd] in made;
      ok := DelFrom(fdContexts[fd], d, works);
    }

    /** The part of delEvent under the context's mutex. */
    method DelFrom(fdCtx: FdContext, d: Dir, works: bool) returns (ok: bool)
      requires Valid() && Made(fdCtx)
      modifies this`kernel, this`pending, fdCtx
      ensures Valid() && fdCtx.id < |old(View()).contexts|
      ensures Returned(View(), ok) == E.DelFrom(old(View()), fdCtx.id, d, works)
    {
      hide Ctl, WithContext, IOManager.Views, Interests;
      ContextOf(fdCtx);
      if d !in fdCtx.events {
        return false;
      }
      var newEvents := fdCtx.events - {d};
      var op := if newEvents != {} then Mod else Del;
      var rt := EpollCtl(op, fdCtx.fd, newEvents, fdCtx, works);
      if rt != 0 {
        return false;
      }
      pending := pending - 1;
      fdCtx.TakeOut(d, newEvents);
      ContextChanged(fdCtx);
      return true;
    }

    /** triggerEvent, the hand-over, and the decrement behind it. */
    method Fire(fdCtx: FdContext, d: Dir) returns (stop: nat)
      requires Valid() && Made(fdCtx)
      modifies this`pending, this`delivered, fdCtx
      ensures Valid() && fdCtx.id < |old(View()).contexts|
      ensures match E.Fire(old(View()), fdCtx.id, d)
              case Stopped(line) => stop == line && stop != 0
              case Returned(s, _) => stop == 0 && View() == s
    {
      hide Trigger, IOManager.Views, Interests;
      ContextOf(fdCtx);
      var handed;
      stop, handed := fdCtx.TriggerEvent(d);
      if stop != 0 {
        return;
      }
      ContextChanged(fdCtx);
      delivered := delivered + handed;
      pending := pending - 1;
    }

    method CancelEvent(fd: nat, d: Dir, works: bool) returns (stop: nat, ok: bool)
      requires Valid() && Wired(View())
      modifies this, made
      ensures Valid()
      ensures match E.CancelEvent(old(View()), fd, d, works)
              case Stopped(line) => stop == line
              case Returned(s, r) => stop == 0 && View() == s && ok == r
    {
      hide E.CancelOn, IOManager.Views;
      if |fdContexts| <= fd {
        return 0, false;
      }
      assert Made(fdContexts[fd]) && fdContexts[fd] in made;
      stop, ok := CancelOn(fdContexts[fd], d, works);
    }

    /** The part of cancelEvent under the context's mutex. */
    method CancelOn(fdCtx: FdContext, d: Dir, works: bool) returns (stop: nat, ok: bool)
      requires Valid() && Made(fdCtx)
      modifies this`kernel, this`pending, this`delivered, fdCtx
      ensures Valid() && fdCtx.id < |old(View()).contexts|
      ensures match E.CancelOn(old(View()), fdCtx.id, d, works)
              case Stopped(line) => stop == line
              case Returned(s, r) => stop == 0 && View() == s && ok == r
    {
      hide Ctl, E.Fire, IOManager.Views, Interests;
      ContextOf(fdCtx);
      if d !in fdCtx.events {
        return 0, false;
      }
      var newEvents := fdCtx.events - {d};
      var op := if newEvents != {} then Mod else Del;
      var rt := EpollCtl(op, fdCtx.fd, newEvents, fdCtx, works);
      if rt != 0 {
        return 0, false;
      }
      FireEvents(View(), fdCtx.id, d);
      stop := Fire(fdCtx, d);
      ok := true;
    }

    method CancelAll(fd: nat, works: bool) returns (stop: nat, ok: bool)
      requires Valid() && Wired(View())
      modifies this, made
      ensures Valid()
      ensures match E.CancelAll(old(View()), fd, works)
              case Stopped(line) => stop == line
              case Returned(s, r) => stop == 0 && View() == s && ok == r
    {
      hide E.CancelAllOn, IOManager.Views;
      if |fdContexts| <= fd {
        return 0, false;
      }
      assert Made(fdContexts[fd]) && fdContexts[fd] in made;
      stop, ok := CancelAllOn(fdContexts[fd], works);
    }

    /** The part of cancelAll under the context's mutex. */
    method CancelAllOn(fdCtx: FdContext, works: bool) returns (stop: nat, ok: bool)
      requires Valid() && Made(fdCtx)
      modifies this`kernel, this`pending, this`delivered, fdCtx
      ensures Valid() && fdCtx.id < |old(View()).contexts|
      ensures match E.CancelAllOn(old(View()), fdCtx.id, works)
              case Stopped(line) => stop == line
              case Returned(s, r) => stop == 0 && View() == s && ok == r
    {
      hide Ctl, FireBoth, IOManager.Views, Interests;
      ContextOf(fdCtx);
      if fdCtx.events == {} {
        return 0, false;
      }
      var rt := EpollCtl(Del, fdCtx.fd, {}, fdCtx, works);
      if rt != 0 {
        return 0, false;
      }
      stop, ok := FireRegistered(fdCtx);
      if stop != 0 {
        return;
      }
      ContextOf(fdCtx);
      if fdCtx.events != {} {
        return 259, true;
      }
    }

    /** Both triggers of cancelAll; the second test reads m_events after the first trigger. */
    method FireRegistered(fdCtx: FdContext) returns (stop: nat, ok: bool)
      requires Valid() && Made(fdCtx)
      modifies this`pending, this`delivered, fdCtx
      ensures Valid() && fdCtx.id < |old(View()).contexts|
      ensures match FireBoth(old(View()), fdCtx.id, old(fdCtx.events))
              case Stopped(line) => stop == line && stop != 0
              case Returned(s, r) => stop == 0 && View() == s && ok == r
    {
      hide E.Fire, IOManager.Views, Interests;
      ContextOf(fdCtx);
      FireEvents(View(), fdCtx.id, Read);
      stop, ok := 0, true;
      if Read in fdCtx.events {
        stop := Fire(fdCtx, Read);
        if stop != 0 {
          return;
        }
      }
      ContextOf(fdCtx);
      FireEvents(View(), fdCtx.id, Write);
      if Write in fdCtx.events {
        stop := Fire(fdCtx, Write);
      }
    }

    /** One turn of the dispatch loop of idle, through data.ptr, updating the array entry as it goes. */
    method Dispatch(events: array<EpollEvent>, i: nat, works: bool) returns (stop: nat, ok: bool)
      requires Valid() && i < events.Length && Made(events[i].ptr)
      modifies this`kernel, this`pending, this`delivered, made, events
      ensures Valid() && |old(View()).contexts| == |made|
      ensures forall j :: 0 <= j < events.Length ==>
        events[j].ptr == old(events[j].ptr) && (j != i ==> events[j] == old(events[j]))
      ensures match E.Dispatch(false, old(View()), old(events[i].ptr.id), old(events[i].report), works)
              case Stopped(line) => stop == line && stop != 0
              case Returned(s, r) => stop == 0 && View() == s && ok == r
    {
      hide Ctl, RealEvents, FireBoth, IOManager.Views, Interests;
      var fdCtx := events[i].ptr;
      ContextOf(fdCtx);
      var reported := ReadReport(events, i);
      if fdCtx.events * reported == {} {
        return 0, false;
      }
      var left := fdCtx.events - reported;
      var op := if left != {} then Mod else Del;
      events[i] := events[i].(report := Mask(left));
      var rt := EpollCtl(op, fdCtx.fd, left, fdCtx, works);
      if rt != 0 {
        return 0, false;
      }
      stop, ok := FireReported(fdCtx, reported);
    }

    /** The directions an entry reports; an error or hang-up is widened in the entry itself. */
    static method ReadReport(events: array<EpollEvent>, i: nat) returns (reported: set<Dir>)
      requires i < events.Length
      modifies events
      ensures reported == RealEvents(old(events[i].report))
      ensures forall d :: d in reported <==> Reports(old(events[i].report), d)
      ensures events[i].ptr == old(events[i].ptr)
      ensures forall j :: 0 <= j < events.Length && j != i ==> events[j] == old(events[j])
    {
      ghost var report := events[i].report;
      if Err in events[i].report || Hup in events[i].report {
        events[i] := events[i].(report := events[i].report + {In, Out});
      }
      reported := {};
      if In in events[i].report {
        reported := reported + {Read};
      }
      if Out in events[i].report {
        reported := reported + {Write};
      }
      TwoDirections(reported);
      TwoDirections(RealEvents(report));
      RealEventsAre(report);
    }

    method FireReported(fdCtx: FdContext, reported: set<Dir>) returns (stop: nat, ok: bool)
      requires Valid() && Made(fdCtx)
      modifies this`pending, this`delivered, fdCtx
      ensures Valid() && fdCtx.id < |old(View()).contexts|
      ensures match FireBoth(old(View()), fdCtx.id, reported)
              case Stopped(line) => stop == line && stop != 0
              case Returned(s, r) => stop == 0 && View() == s && ok == r
    {
      hide E.Fire, IOManager.Views, Interests;
      ContextOf(fdCtx);
      FireEvents(View(), fdCtx.id, Read);
      stop, ok := 0, true;
      if Read in reported {
        stop := Fire(fdCtx, Read);
        if stop != 0 {
          return;
        }
      }
      FireEvents(View(), fdCtx.id, Write);
      if Write in reported {
        stop := Fire(fdCtx, Write);
      }
    }

    /** The dispatch loop over the first `n` entries; it ends early only when an assertion fails. */
    method DispatchAll(events: array<EpollEvent>, n: nat, works: seq<bool>) returns (stop: nat)
      requires Valid() && n <= events.Length && n <= |works|
      requires forall j :: 0 <= j < n ==> Made(events[j].ptr)
      modifies this`kernel, this`pending, this`delivered, made, events
      ensures Valid()
      ensures forall t <- Turns(old(events[..n]), works[..n]) :: t.c < |old(View()).contexts|
      ensures match R.DispatchTurns(false, old(View()), Turns(old(events[..n]), works[..n]))
              case Stopped(line) => stop == line && stop != 0
              case Returned(s, _) => stop == 0 && View() == s
    {
      hide E.Dispatch, R.DispatchTurns, IOManager.Views, Interests, Ids;
      stop := 0;
      var i := 0;
      ghost var turns := Turns(events[..n], works[..n]);
      ghost var v := View();
      assert forall j :: 0 <= j < n ==> turns[j].c == events[j].ptr.id;
      while i < n
        invariant 0 <= i <= n && stop == 0
        invariant Valid() && made == old(made)
        invariant forall j :: 0 <= j < n ==> events[j].ptr == old(events[j].ptr) && Made(events[j].ptr)
        invariant forall j :: i <= j < n ==> events[j] == old(events[j])
        invariant |View().contexts| == |v.contexts|
        invariant R.DispatchTurns(false, v, turns) == R.DispatchTurns(false, View(), turns[i..])
      {
        assert turns[i] == R.Turn(events[i].ptr.id, events[i].report, works[i]);
        NextTurn(View(), turns, i);
        var ok;
        stop, ok := Dispatch(events, i, works[i]);
        if stop != 0 {
          return;
        }
        i := i + 1;
      }
      EndOfTurns(View(), turns);
    }

    static ghost function Turns(events: seq<EpollEvent>, works: seq<bool>): (r: seq<R.Turn>)
      requires |events| == |works|
      ensures |r| == |events|
      ensures forall i :: 0 <= i < |r| ==> r[i] == R.Turn(events[i].ptr.id, events[i].report, works[i])
    {
      seq(|events|, i requires 0 <= i < |events| => R.Turn(events[i].ptr.id, events[i].report, works[i]))
    }
  }
}
