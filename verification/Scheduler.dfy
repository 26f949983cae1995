/**
 * Scheduler (duan_src/scheduler.h, duan_src/scheduler.cc) as an object: the queue, the counters
 * and the workers are updated in place. Every method does to the view what SchedulerModel
 * says, with the code as it is written.
 */
module SchedulerCode {
  import opened Common
  import opened F = FiberModel
  import M = SchedulerModel

  /** The local variables of a thread in run(). */
  class Worker {
    const id: nat
    var place: M.Place
    var cbFiber: Option<nat>
    var idle: FiberState

    constructor (id: nat)
      ensures this.id == id && Record() == M.Worker(M.Head, None, INIT)
    {
      this.id, place, cbFiber, idle := id, M.Head, None, INIT;
    }

    function Record(): M.Worker
      reads this
    {
      M.Worker(place, cbFiber, idle)
    }
  }

  /** The entries a batch submits: nothing for an empty handle. */
  function EntriesOf(items: seq<Option<Task>>): (entries: seq<M.Entry>)
    ensures |entries| <= |items|
    ensures (forall k :: 0 <= k < |items| ==> items[k].Some?) ==>
      |entries| == |items| && forall k :: 0 <= k < |items| ==> entries[k] == M.Entry(items[k].value, None)
    ensures forall e :: e in entries <==> e.pin == None && Some(e.task) in items
  {
    if items == [] then []
    else
      var last := items[|items| - 1];
      assert items == items[..|items| - 1] + [last];
      if last == None then EntriesOf(items[..|items| - 1])
      else EntriesOf(items[..|items| - 1]) + [M.Entry(last.value, None)]
  }

  function EntryOf(item: Option<Task>): seq<M.Entry> {
    if item.Some? then [M.Entry(item.value, None)] else []
  }

  lemma EntriesOfNext(items: seq<Option<Task>>, i: nat)
    requires i < |items|
    ensures EntriesOf(items[..i + 1]) == EntriesOf(items[..i]) + EntryOf(items[i])
  {
    assert items[..i + 1][..i] == items[..i];
  }

  /** A batch submits the entries of its parts in order, one for a handle and none for an empty one. */
  lemma {:induction false} EntriesInOrder(a: seq<Option<Task>>, b: seq<Option<Task>>)
    ensures EntriesOf(a + b) == EntriesOf(a) + EntriesOf(b)
    ensures |a| == 1 ==> EntriesOf(a) == if a[0].Some? then [M.Entry(a[0].value, None)] else []
    decreases |b|
  {
    hide EntriesOf;
    OneEntry(a);
    if b == [] {
      NoEntries(a);
    } else {
      var n := |b| - 1;
      EntriesInOrder(a, b[..n]);
      assert (a + b)[..|a| + n] == a + b[..n] && (a + b)[|a| + n] == b[n];
      EntriesOfLast(a + b, a + b[..n], b[n]);
      EntriesOfLast(b, b[..n], b[n]);
    }
  }

  lemma OneEntry(a: seq<Option<Task>>)
    ensures |a| == 1 ==> EntriesOf(a) == EntryOf(a[0])
  {
    if |a| == 1 { EntriesOfLast(a, [], a[0]); }
  }

  lemma NoEntries(a: seq<Option<Task>>)
    ensures a + [] == a && EntriesOf([]) == []
  {
  }

  lemma EntriesOfLast(items: seq<Option<Task>>, before: seq<Option<Task>>, last: Option<Task>)
    requires items == before + [last]
    ensures EntriesOf(items) == EntriesOf(before) + EntryOf(last)
  {
    assert items[..|items| - 1] == before;
  }

  lemma FirstEligibleIs(queue: seq<M.Entry>, fibers: map<nat, FiberState>, w: nat, i: nat)
    requires i <= |queue|
    requires forall k :: 0 <= k < i ==> !M.Eligible(fibers, queue[k], w)
    requires i < |queue| ==> M.Eligible(fibers, queue[i], w)
    ensures M.FirstEligible(queue, fibers, w) == i
  {
    var j := M.FirstEligible(queue, fibers, w);
    assert j < |queue| ==> M.Eligible(fibers, queue[j], w);
  }

  /** A turn, taken apart into the lock region and what is behind it. */
  lemma TurnInTwo(s: M.State, w: nat, spare: nat)
    requires M.Enabled(s, M.TurnOf(w, spare))
    ensures var i := M.FirstEligible(s.queue, s.fibers, w);
      && (i < |s.queue| && s.queue[i].task.FiberTask? ==> s.queue[i].task.f in s.fibers)
      && (s.workers[w].cbFiber.Some? ==> s.workers[w].cbFiber.value in s.fibers)
      && var s1 := if i < |s.queue| then s.(queue := M.Without(s.queue, i), active := s.active + 1) else s;
      M.Turn(M.AS_WRITTEN, s, w, spare) ==
        if i == |s.queue| then M.Ran(NothingFound(s1, w))
        else match s.queue[i].task
             case FiberTask(f) => M.EnterFiber(M.AS_WRITTEN, s1, w, f)
             case CallTask(c) => M.EnterCallback(s1, w, c, spare)
  {
    var i := M.FirstEligible(s.queue, s.fibers, w);
    assert i < |s.queue| ==> s.queue[i] in s.queue;
    hide M.EnterFiber, M.EnterCallback, M.FirstEligible, M.Without;
  }

  /** A worker without a task goes into its idle fiber, or out of the loop once that has ended. */
  function NothingFound(s: M.State, w: nat): M.State
    requires w in s.workers
  {
    if s.workers[w].idle == TERM then M.At(s, w, M.Left)
    else s.(idle := s.idle + 1, workers := s.workers[w := s.workers[w].(place := M.Idling, idle := EXEC)])
  }

  /** The fiber has left its state, and a used up function, behind; the worker has counted down. */
  function Returned(s: M.State, f: nat, how: FiberState): M.State {
    s.(active := s.active - 1,
       fibers := s.fibers[f := how],
       hollow := if how == TERM then s.hollow + {f} else s.hollow)
  }

  /** Back, taken apart into the count-down and the branches behind it. */
  lemma BackInTwo(s: M.State, w: nat, how: FiberState)
    requires w in s.workers && M.Busy(s.workers[w].place)
    ensures var f := s.workers[w].place.f;
      var s1 := Returned(s, f, how);
      var place := if how == READY then M.Requeueing(f) else M.Head;
      && s1.fibers[f] == how
      && M.Back(s, w, how) ==
         if s.workers[w].place.InFiber? then
           M.At(s1.(fibers := if how == READY || M.Finished(how) then s1.fibers else s1.fibers[f := HOLD]), w, place)
         else s1.(
           fibers := if how == READY then s1.fibers else s1.fibers[f := if M.Finished(how) then INIT else HOLD],
           hollow := if M.Finished(how) then s1.hollow + {f} else s1.hollow,
           workers := s.workers[w :=
             M.Worker(place, if M.Finished(how) then s.workers[w].cbFiber else None, s.workers[w].idle)])
  {
    var f := s.workers[w].place.f;
    assert s.fibers[f := how][f := HOLD] == s.fibers[f := HOLD] && s.fibers[f := how][f := INIT] == s.fibers[f := INIT];
  }

  class Scheduler {
    var queue: seq<M.Entry>
    /** m_state of every fiber, and the fibers whose m_cb is empty. */
    var states: map<nat, FiberState>
    var hollow: set<nat>
    var workers: map<nat, Worker>
    var active: int
    var idle: int
    var autoStop: bool
    var stopping: bool

    ghost predicate Valid()
      reads this, workers.Values
    {
      forall w :: w in workers ==> workers[w].id == w
    }

    ghost function Records(): (r: map<nat, M.Worker>)
      reads this`workers, workers.Values
      ensures r.Keys == workers.Keys
    {
      map w | w in workers :: workers[w].Record()
    }

    ghost function View(): M.State
      reads this, workers.Values
    {
      M.State(queue, states, hollow, Records(), active, idle, autoStop, stopping)
    }

    lemma RecordOf(worker: Worker)
      requires worker.id in workers && workers[worker.id] == worker
      ensures worker.id in Records() && Records()[worker.id] == worker.Record()
    {
    }

    /** Not started yet. */
    constructor ()
      ensures Valid() && View() == M.Start({}).(stopping := true)
    {
      queue, states, hollow, workers, active, idle := [], map[], {}, map[], 0, 0;
      autoStop, stopping := false, true;
    }

    // -------------------------------------------- threads and fibers

    /** start(): a worker for every thread of the pool, unless that has been done. */
    method StartAll(ids: seq<nat>)
      requires Valid() && (stopping ==> workers == map[])
      requires forall i, j :: 0 <= i < j < |ids| ==> ids[i] != ids[j]
      modifies this`workers, this`stopping
      ensures Valid()
      ensures View() == if !old(stopping) then old(View())
                        else old(View()).(stopping := false, workers := M.Start(set id | id in ids).workers)
    {
      if !stopping {
        return;
      }
      stopping := false;
      var i := 0;
      while i < |ids|
        invariant 0 <= i <= |ids| && Valid() && !stopping
        invariant forall w :: w in workers <==> w in ids[..i]
        invariant forall w :: w in workers ==> fresh(workers[w]) && workers[w].Record() == M.Worker(M.Head, None, INIT)
      {
        assert ids[..i + 1] == ids[..i] + [ids[i]];
        var worker := new Worker(ids[i]);
        workers := workers[ids[i] := worker];
        i := i + 1;
      }
      assert ids[..|ids|] == ids;
      assert Records() == M.Start(set id | id in ids).workers;
    }

    /** A fiber that somebody makes with a function. */
    method CreateFiber(f: nat)
      requires f !in states
      modifies this`states, this`hollow
      ensures View() == old(View()).(fibers := old(View()).fibers[f := INIT], hollow := old(View()).hollow - {f})
    {
      states := states[f := INIT];
      hollow := hollow - {f};
    }

    // ------------------------------------------------------ submissions

    /** An empty handle is not enqueued but counts for the result all the same. */
    method ScheduleNoLock(task: Option<Task>, pin: Option<nat>) returns (needTickle: bool)
      modifies this`queue
      ensures needTickle <==> old(queue) == []
      ensures queue == old(queue) + if task.Some? then [M.Entry(task.value, pin)] else []
    {
      needTickle := queue == [];
      if task.Some? {
        queue := queue + [M.Entry(task.value, pin)];
      }
    }

    method Schedule(task: Option<Task>, pin: Option<nat>) returns (tickled: bool)
      modifies this`queue
      ensures tickled <==> old(queue) == []
      ensures View() == if task.Some? then M.Submit(old(View()), task.value, pin) else old(View())
    {
      tickled := ScheduleNoLock(task, pin);
    }

    /** The batch form moves every handle out of its place. */
    method ScheduleBatch(items: array<Option<Task>>) returns (tickled: bool)
      modifies this`queue, items
      ensures forall k :: 0 <= k < items.Length ==> items[k] == None
      ensures queue == old(queue) + EntriesOf(old(items[..]))
      ensures tickled <==> items.Length > 0 && old(queue) == []
    {
      tickled := false;
      ghost var were := items[..];
      assert EntriesOf(were[..0]) == [];
      hide EntriesOf;
      for i := 0 to items.Length
        invariant forall k :: 0 <= k < i ==> items[k] == None
        invariant forall k :: i <= k < items.Length ==> items[k] == were[k]
        invariant queue == old(queue) + EntriesOf(were[..i])
        invariant tickled <==> i > 0 && old(queue) == []
      {
        EntriesOfNext(were, i);
        var item := items[i];
        items[i] := None;
        var wasEmpty := ScheduleNoLock(item, None);
        tickled := wasEmpty || tickled;
      }
      assert were[..items.Length] == were;
    }

    // ------------------------------------------------------- the worker

    /** The scan under the lock; `tickleMe` when it passed over an entry for another thread. */
    method TakeTask(w: nat) returns (taken: Option<M.Entry>, tickleMe: bool)
      modifies this`queue, this`active
      ensures var i := M.FirstEligible(old(queue), states, w);
        && (tickleMe <==> exists k :: 0 <= k < i && old(queue)[k].pin.Some? && old(queue)[k].pin.value != w)
        && if i < |old(queue)| then
             taken == Some(old(queue)[i]) && queue == M.Without(old(queue), i) && active == old(active) + 1
           else taken == None && queue == old(queue) && active == old(active)
    {
      taken, tickleMe := None, false;
      var it := 0;
      while it < |queue|
        invariant 0 <= it <= |queue|
        invariant forall k :: 0 <= k < it ==> !M.Eligible(states, queue[k], w)
        invariant tickleMe <==> exists k :: 0 <= k < it && queue[k].pin.Some? && queue[k].pin.value != w
      {
        var e := queue[it];
        if e.pin != None && e.pin != Some(w) {
          it := it + 1;
          tickleMe := true;
          assert queue[it - 1].pin.Some? && queue[it - 1].pin.value != w;
          continue;
        }
        if e.task.FiberTask? && e.task.f in states && states[e.task.f] == EXEC {
          it := it + 1;
          continue;
        }
        FirstEligibleIs(queue, states, w, it);
        taken := Some(e);
        queue := queue[..it] + queue[it + 1..];
        active := active + 1;
        return;
      }
      FirstEligibleIs(queue, states, w, it);
    }

    /** A change to one worker, seen from the view. */
    twostate lemma Moved(worker: Worker)
      requires old(Valid()) && worker.id in old(workers) && old(workers)[worker.id] == worker && workers == old(workers)
      requires forall w :: w in workers && workers[w] != worker ==> unchanged(workers[w])
      ensures Valid() && Records() == old(Records())[worker.id := worker.Record()]
    {
    }

    /** One pass of the loop of run(), up to where a fiber runs or the loop ends. */
    method TurnOf(worker: Worker, spare: nat) returns (stop: nat)
      requires Valid() && worker.id in workers && workers[worker.id] == worker
      requires M.Enabled(View(), M.TurnOf(worker.id, spare))
      modifies this`queue, this`states, this`hollow, this`active, this`idle, worker
      ensures match M.Turn(M.AS_WRITTEN, old(View()), worker.id, spare)
              case Ran(s) => stop == 0 && Valid() && View() == s
              case Aborted(line) => stop == line && stop != 0
    {
      hide Scheduler.Records;
      RecordOf(worker);
      ghost var s := View();
      TurnInTwo(s, worker.id, spare);
      hide M.Turn, M.Enabled, M.Handles, M.FirstEligible, M.EnterFiber, M.EnterCallback, NothingFound;
      var taken, tickleMe := TakeTask(worker.id);
      ghost var i := M.FirstEligible(s.queue, s.fibers, worker.id);
      assert View() == if i < |s.queue| then s.(queue := M.Without(s.queue, i), active := s.active + 1) else s;
      assert s.workers[worker.id] == worker.Record() && s.fibers == states;
      hide M.Without, View, Valid;
      stop := Act(worker, taken, spare);
    }

    /** Behind the lock: run what was taken, or idle, or leave. */
    method Act(worker: Worker, taken: Option<M.Entry>, spare: nat) returns (stop: nat)
      requires Valid() && worker.id in workers && workers[worker.id] == worker
      requires taken.Some? && taken.value.task.FiberTask? ==> taken.value.task.f in states
      requires worker.cbFiber.Some? ==> worker.cbFiber.value in states
      modifies this`states, this`hollow, this`active, this`idle, worker
      ensures var (s, w) := (old(View()), worker.id);
        match (match taken
               case Some(Entry(FiberTask(f), _)) => M.EnterFiber(M.AS_WRITTEN, s, w, f)
               case Some(Entry(CallTask(c), _)) => M.EnterCallback(s, w, c, spare)
               case None => M.Ran(NothingFound(s, w)))
        case Ran(s') => stop == 0 && Valid() && View() == s'
        case Aborted(line) => stop == line && stop != 0
    {
      RecordOf(worker);
      hide M.EnterFiber, M.EnterCallback, Records;
      stop := 0;
      if taken.Some? {
        match taken.value.task {
          case FiberTask(f) =>
            if states[f] != TERM || states[f] != EXCEPT {
              stop := EnterFiber(worker, f);
            }
          case CallTask(c) =>
            stop := EnterCallback(worker, c, spare);
        }
      } else {
        FindNothing(worker);
      }
    }

    /** Nothing to take: into the idle fiber, or out of the loop once that has ended. */
    method FindNothing(worker: Worker)
      requires Valid() && worker.id in workers && workers[worker.id] == worker
      modifies this`idle, worker
      ensures Valid() && View() == NothingFound(old(View()), worker.id)
    {
      hide Scheduler.Records;
      RecordOf(worker);
      if worker.idle == TERM {
        worker.place := M.Left;
      } else {
        idle := idle + 1;
        worker.place, worker.idle := M.Idling, EXEC;
      }
      Moved(worker);
    }

    /** swapIn of a task fiber, with the second count. */
    method EnterFiber(worker: Worker, f: nat) returns (stop: nat)
      requires Valid() && worker.id in workers && workers[worker.id] == worker && f in states
      modifies this`states, this`active, worker`place
      ensures match M.EnterFiber(M.AS_WRITTEN, old(View()), worker.id, f)
              case Ran(s) => stop == 0 && Valid() && View() == s
              case Aborted(line) => stop == line && stop != 0
    {
      hide Scheduler.Records;
      RecordOf(worker);
      active := active + 1;
      if states[f] == EXEC {
        return 140;
      }
      var ended := states[f] == TERM || states[f] == EXCEPT;
      states := states[f := EXEC];
      if ended {
        return 236;
      }
      worker.place := M.InFiber(f);
      Moved(worker);
      stop := 0;
    }

    /** The callback goes into the kept fiber, after a reset, or into a new one. */
    method EnterCallback(worker: Worker, c: nat, spare: nat) returns (stop: nat)
      requires Valid() && worker.id in workers && workers[worker.id] == worker
      requires worker.cbFiber.Some? ==> worker.cbFiber.value in states
      modifies this`states, this`hollow, worker
      ensures match M.EnterCallback(old(View()), worker.id, c, spare)
              case Ran(s) => stop == 0 && Valid() && View() == s
              case Aborted(line) => stop == line && stop != 0
    {
      hide Scheduler.Records;
      RecordOf(worker);
      if worker.cbFiber.Some? {
        if !Resettable(states[worker.cbFiber.value]) {
          return 107;
        }
        states := states[worker.cbFiber.value := INIT];
      } else {
        worker.cbFiber := Some(spare);
        states := states[spare := INIT];
      }
      var f := worker.cbFiber.value;
      hollow := hollow - {f};
      states := states[f := EXEC];
      worker.place := M.InCallback(f, c);
      Moved(worker);
      stop := 0;
    }

    /**
     * Behind swapIn: the count-down and what the state `how` the fiber is left in leads to,
     * but for the re-enqueueing.
     */
    method BackTo(worker: Worker, how: FiberState)
      requires Valid() && worker.id in workers && workers[worker.id] == worker && M.Busy(worker.place)
      modifies this`states, this`hollow, this`active, worker
      ensures Valid() && View() == M.Back(old(View()), worker.id, how)
    {
      hide Scheduler.Records;
      RecordOf(worker);
      ghost var s := View();
      states := states[worker.place.f := how];
      if how == TERM {
        hollow := hollow + {worker.place.f};
      }
      active := active - 1;
      assert View() == Returned(s, worker.place.f, how);
      assert s.workers[worker.id] == worker.Record() && s.fibers[worker.place.f := how] == states;
      BackInTwo(s, worker.id, how);
      hide View, Valid, M.Back, M.At, M.Busy, Returned;
      if worker.place.InFiber? {
        SettleFiber(worker, worker.place.f);
      } else {
        SettleCallback(worker, worker.place.f);
      }
    }

    /** Lines 203-208. */
    method SettleFiber(worker: Worker, f: nat)
      requires Valid() && worker.id in workers && workers[worker.id] == worker && f in states
      modifies this`states, worker`place
      ensures Valid()
      ensures var (s, how) := (old(View()), old(states)[f]);
        var place := if how == READY then M.Requeueing(f) else M.Head;
        View() == M.At(s.(fibers := if how == READY || M.Finished(how) then s.fibers else s.fibers[f := HOLD]),
          worker.id, place)
    {
      hide Scheduler.Records;
      RecordOf(worker);
      if states[f] == READY {
        worker.place := M.Requeueing(f);
      } else {
        if states[f] != TERM && states[f] != EXCEPT {
          states := states[f := HOLD];
        }
        worker.place := M.Head;
      }
      Moved(worker);
    }

    /** Lines 221-231. */
    method SettleCallback(worker: Worker, f: nat)
      requires Valid() && worker.id in workers && workers[worker.id] == worker && f in states
      modifies this`states, this`hollow, worker
      ensures Valid()
      ensures var (s, how) := (old(View()), old(states)[f]);
        var place := if how == READY then M.Requeueing(f) else M.Head;
        var kept := if M.Finished(how) then s.workers[worker.id].cbFiber else None;
        View() == s.(
          fibers := if how == READY then s.fibers else s.fibers[f := if M.Finished(how) then INIT else HOLD],
          hollow := if M.Finished(how) then s.hollow + {f} else s.hollow,
          workers := s.workers[worker.id := M.Worker(place, kept, s.workers[worker.id].idle)])
    {
      hide Scheduler.Records;
      RecordOf(worker);
      if states[f] == READY {
        worker.cbFiber := None;
        worker.place := M.Requeueing(f);
      } else {
        if states[f] == EXCEPT || states[f] == TERM {
          states := states[f := INIT];
          hollow := hollow + {f};
        } else {
          states := states[f := HOLD];
          worker.cbFiber := None;
        }
        worker.place := M.Head;
      }
      Moved(worker);
    }

    /** Lines 204 and 222: under the lock again, after the count-down. */
    method Requeue(worker: Worker)
      requires Valid() && worker.id in workers && workers[worker.id] == worker && worker.place.Requeueing?
      modifies this`queue, worker
      ensures Valid() && View() == M.Requeue(old(View()), worker.id)
    {
      hide Scheduler.Records;
      RecordOf(worker);
      var _ := Schedule(Some(FiberTask(worker.place.f)), None);
      label scheduled:
      worker.place := M.Head;
      Moved@scheduled(worker);
    }

    /** The return of the idle fiber's swapIn. */
    method IdleBackTo(worker: Worker, done: bool)
      requires Valid() && worker.id in workers && workers[worker.id] == worker
      modifies this`idle, worker
      ensures Valid() && View() == M.IdleBack(old(View()), worker.id, done)
    {
      hide Scheduler.Records;
      RecordOf(worker);
      worker.idle := if done then TERM else EXEC;
      idle := idle - 1;
      if worker.idle != TERM && worker.idle != EXCEPT {
        worker.idle := HOLD;
      }
      worker.place := M.Head;
      Moved(worker);
    }

    method Stop()
      modifies this`autoStop, this`stopping
      ensures View() == old(View()).(autoStop := true, stopping := true)
    {
      autoStop := true;
      stopping := true;
    }

    method IsStopping() returns (yes: bool)
      ensures yes <==> M.Stopping(View())
    {
      yes := autoStop && stopping && queue == [] && active == 0;
    }
  }
}
