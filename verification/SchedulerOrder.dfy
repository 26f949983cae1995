/**
 * Where submitted tasks go: every ticket is queued or was taken once, by a worker its pin
 * allows and not before an earlier one that was just as eligible; and what a stopped scheduler
 * may leave behind.
 */
module SchedulerOrder {
  import opened Common
  import opened SchedulerModel
  import opened SchedulerHistory
  import F = FiberModel
  import R = SchedulerRuns

  ghost predicate WasTaken(taken: seq<Taking>, t: nat) {
    exists k :: 0 <= k < |taken| && taken[k].ticket == t
  }

  /** The queue is what is left of the submissions, in their order. */
  ghost predicate InOrder(h: History) {
    && |h.tickets| == |h.s.queue|
    && (forall i :: 0 <= i < |h.tickets| ==> h.tickets[i] < |h.submitted| && h.s.queue[i] == h.submitted[h.tickets[i]])
    && (forall i, j :: 0 <= i < j < |h.tickets| ==> h.tickets[i] < h.tickets[j])
  }

  /** Every submission is either in the queue or was taken, once. */
  ghost predicate Conserved(h: History) {
    && (forall k :: 0 <= k < |h.taken| ==> h.taken[k].ticket < |h.submitted| && h.taken[k].ticket !in h.tickets)
    && (forall j, k :: 0 <= j < k < |h.taken| ==> h.taken[j].ticket != h.taken[k].ticket)
    && (forall t: nat :: t < |h.submitted| ==> t in h.tickets || WasTaken(h.taken, t))
  }

  /** A pinned entry is only ever taken by its thread. */
  ghost predicate Affine(h: History) {
    forall k :: 0 <= k < |h.taken| && h.taken[k].ticket < |h.submitted| ==>
      var pin := h.submitted[h.taken[k].ticket].pin;
      pin == None || pin == Some(h.taken[k].worker)
  }

  /** Whoever may take `later` may take `earlier`, at any time. */
  predicate Precedes(earlier: Entry, later: Entry) {
    earlier.task.CallTask? && (earlier.pin == None || earlier.pin == later.pin)
  }

  /** Callbacks are not overtaken by later submissions that are as free as they are. */
  ghost predicate FirstComeFirstServed(h: History) {
    forall k, t: nat :: 0 <= k < |h.taken| && t < h.taken[k].ticket < |h.submitted| ==>
      Precedes(h.submitted[t], h.submitted[h.taken[k].ticket]) ==> WasTaken(h.taken[..k], t)
  }

  ghost predicate Ordered(h: History) {
    InOrder(h) && Conserved(h) && Affine(h) && FirstComeFirstServed(h)
  }

  // ------------------------------------------------------------ one step

  lemma WasTakenMore(taken: seq<Taking>, x: Taking, t: nat)
    ensures WasTaken(taken + [x], t) <==> WasTaken(taken, t) || t == x.ticket
  {
    if WasTaken(taken, t) {
      var k :| 0 <= k < |taken| && taken[k].ticket == t;
      assert (taken + [x])[k].ticket == t;
    }
    if t == x.ticket { assert (taken + [x])[|taken|].ticket == t; }
  }

  /** A submission: the next ticket goes to the end of the queue. */
  lemma OrderedAfterSubmission(h: History, h': History, e: Entry)
    requires Ordered(h)
    requires h'.s.queue == h.s.queue + [e] && h'.submitted == h.submitted + [e]
    requires h'.tickets == h.tickets + [|h.submitted|] && h'.taken == h.taken
    ensures Ordered(h')
  {
    assert Conserved(h') by {
      forall t: nat | t < |h'.submitted| ensures t in h'.tickets || WasTaken(h'.taken, t) {
        if t == |h.submitted| {
          assert h'.tickets[|h.tickets|] == t;
        } else if t in h.tickets {
          var i :| 0 <= i < |h.tickets| && h.tickets[i] == t;
          assert h'.tickets[i] == t;
        }
      }
    }
    forall k, t: nat | 0 <= k < |h'.taken| && t < h'.taken[k].ticket < |h'.submitted|
        && Precedes(h'.submitted[t], h'.submitted[h'.taken[k].ticket])
      ensures WasTaken(h'.taken[..k], t)
    {
      assert h.taken[k].ticket < |h.submitted|;
    }
  }

  /** Taking the first eligible entry. */
  lemma OrderedAfterTaking(h: History, h': History, i: nat, w: nat)
    requires Ordered(h) && i < |h.s.queue| && i == FirstEligible(h.s.queue, h.s.fibers, w)
    requires h'.s.queue == Without(h.s.queue, i) && h'.tickets == Without(h.tickets, i)
    requires h'.submitted == h.submitted && h'.taken == h.taken + [Taking(h.tickets[i], w)]
    ensures Ordered(h')
  {
    InOrderAfterTaking(h, h', i, w);
    ConservedAfterTaking(h, h', i, w);
    assert Eligible(h.s.fibers, h.s.queue[i], w) && h.s.queue[i] == h.submitted[h.tickets[i]];
    ServedAfterTaking(h, h', i, w);
  }

  lemma InOrderAfterTaking(h: History, h': History, i: nat, w: nat)
    requires InOrder(h) && i < |h.s.queue|
    requires h'.s.queue == Without(h.s.queue, i) && h'.tickets == Without(h.tickets, i) && h'.submitted == h.submitted
    ensures InOrder(h')
  {
    forall k | 0 <= k < |h'.tickets|
      ensures h'.tickets[k] == h.tickets[if k < i then k else k + 1]
      ensures h'.s.queue[k] == h.s.queue[if k < i then k else k + 1]
    {
    }
  }

  lemma ConservedAfterTaking(h: History, h': History, i: nat, w: nat)
    requires InOrder(h) && Conserved(h) && i < |h.s.queue|
    requires h'.tickets == Without(h.tickets, i)
    requires h'.submitted == h.submitted && h'.taken == h.taken + [Taking(h.tickets[i], w)]
    ensures Conserved(h')
  {
    forall t: nat ensures t in h'.tickets <==> t in h.tickets && t != h.tickets[i] {
      if t in h.tickets && t != h.tickets[i] {
        var k :| 0 <= k < |h.tickets| && h.tickets[k] == t;
        assert h'.tickets[if k < i then k else k - 1] == t;
      }
    }
    forall t: nat | t < |h'.submitted| ensures t in h'.tickets || WasTaken(h'.taken, t) {
      WasTakenMore(h.taken, Taking(h.tickets[i], w), t);
    }
  }

  lemma NoneWaitingBefore(h: History, i: nat, w: nat, t: nat)
    requires InOrder(h) && i < |h.s.queue| && i == FirstEligible(h.s.queue, h.s.fibers, w)
    requires t < h.tickets[i] && Precedes(h.submitted[t], h.submitted[h.tickets[i]])
    ensures t !in h.tickets
  {
    forall j | 0 <= j < |h.tickets| ensures h.tickets[j] != t {
      if j < i {
        assert !Eligible(h.s.fibers, h.s.queue[j], w) && Eligible(h.s.fibers, h.s.queue[i], w);
      } else {
        assert h.tickets[j] >= h.tickets[i];
      }
    }
  }

  lemma ServedAfterTaking(h: History, h': History, i: nat, w: nat)
    requires InOrder(h) && Conserved(h) && FirstComeFirstServed(h)
    requires i < |h.s.queue| && i == FirstEligible(h.s.queue, h.s.fibers, w)
    requires h'.submitted == h.submitted && h'.taken == h.taken + [Taking(h.tickets[i], w)]
    ensures FirstComeFirstServed(h')
  {
    var n := |h.taken|;
    forall k, t: nat | 0 <= k < |h'.taken| && t < h'.taken[k].ticket < |h'.submitted|
        && Precedes(h'.submitted[t], h'.submitted[h'.taken[k].ticket])
      ensures WasTaken(h'.taken[..k], t)
    {
      assert h'.taken[..n] == h.taken;
      if k < n {
        assert h'.taken[..k] == h.taken[..k];
      } else {
        NoneWaitingBefore(h, i, w, t);
      }
    }
  }

  lemma OrderedStep(code: Code, h: History, a: Action)
    requires Ordered(h) && CanGo(code, h, a)
    ensures Ordered(Record(code, h, a))
  {
    var h' := Record(code, h, a);
    QueueEffect(code, h.s, a);
    if Appended(h.s, a).Some? {
      OrderedAfterSubmission(h, h', Appended(h.s, a).value);
    } else if TakenAt(h.s, a).Some? {
      OrderedAfterTaking(h, h', TakenAt(h.s, a).value, a.w);
    } else {
      assert h'.s.queue == h.s.queue && h'.tickets == h.tickets && h'.submitted == h.submitted && h'.taken == h.taken;
      hide Apply, Record;
    }
  }

  /**
   * Over every run: submitted = queued + taken, each ticket once; pins are respected; and a
   * callback is never overtaken by a later submission with the same freedom.
   */
  lemma {:induction false} TasksAreConserved(code: Code, h0: History, acts: seq<Action>, h: History)
    requires Ordered(h0) && Reaches(code, h0, acts, h)
    ensures Ordered(h)
    decreases |acts|
  {
    if acts != [] {
      OrderedStep(code, h0, acts[0]);
      TasksAreConserved(code, Record(code, h0, acts[0]), acts[1..], h);
    }
  }

  // ------------------------------------------------------------- shutdown

  /** While an unpinned entry waits that was submitted in time, some worker is still there. */
  ghost predicate Attended(h: History) {
    forall i :: 0 <= i < |h.s.queue| && i < |h.tickets| && h.s.queue[i].pin == None && h.tickets[i] !in h.late ==>
      !AllLeft(h.s)
  }

  /** A worker leaves after a scan that found nothing, so what is unpinned is in execution elsewhere. */
  lemma LeavingIsAttended(code: Code, s: State, w: nat, spare: nat, i: nat)
    requires R.Exclusive(s) && Enabled(s, TurnOf(w, spare)) && Turn(code, s, w, spare).Ran?
    requires TakenAt(s, TurnOf(w, spare)) == None && i < |s.queue| && s.queue[i].pin == None
    ensures !AllLeft(Turn(code, s, w, spare).s)
  {
    TurnEffect(code, s, w, spare);
    assert !Eligible(s.fibers, s.queue[i], w);
    var v :| R.Holds(s, v, s.queue[i].task.f);
    assert Turn(code, s, w, spare).s.workers[v] == s.workers[v];
  }

  /**
   * The last worker leaves exactly when its idle fiber has ended and every entry that is left
   * is pinned to another thread; the queue stays as it is.
   */
  lemma LastToLeaveIff(code: Code, s: State, w: nat, spare: nat)
    requires R.Exclusive(s) && Enabled(s, TurnOf(w, spare)) && Turn(code, s, w, spare).Ran?
    requires forall v :: v in s.workers && v != w ==> s.workers[v].place.Left?
    ensures var s' := Turn(code, s, w, spare).s;
      && (AllLeft(s') <==> s.workers[w].idle == F.TERM && forall e :: e in s.queue ==> e.pin.Some? && e.pin != Some(w))
      && (AllLeft(s') ==> s'.queue == s.queue)
  {
    TurnEffect(code, s, w, spare);
    var i := FirstEligible(s.queue, s.fibers, w);
    forall f | f in s.fibers ensures s.fibers[f] != F.EXEC {
      assert forall v :: !R.Holds(s, v, f);
    }
    if i < |s.queue| {
      assert s.queue[i] in s.queue;
    } else {
      forall e | e in s.queue ensures !Eligible(s.fibers, e, w) {
        var k :| 0 <= k < |s.queue| && s.queue[k] == e;
      }
    }
  }

  lemma AttendedStep(code: Code, h: History, a: Action)
    requires R.Exclusive(h.s) && InOrder(h) && Attended(h) && CanGo(code, h, a)
    ensures Attended(Record(code, h, a))
  {
    var h' := Record(code, h, a);
    var s, s' := h.s, h'.s;
    QueueEffect(code, s, a);
    hide Apply, InOrder;
    forall i | 0 <= i < |s'.queue| && i < |h'.tickets| && s'.queue[i].pin == None && h'.tickets[i] !in h'.late
      ensures !AllLeft(s')
    {
      if Appended(s, a).Some? || TakenAt(s, a).Some? {
        assert !AllLeft(s) by {
          if TakenAt(s, a).Some? {
            assert !s.workers[a.w].place.Left?;
          } else if i < |h.tickets| {
            assert s.queue[i] == s'.queue[i] && h.tickets[i] == h'.tickets[i];
          }
        }
        var w :| w in s.workers && !s.workers[w].place.Left?;
        assert !s'.workers[w].place.Left?;
      } else {
        assert !AllLeft(s);
        StaysAttended(code, s, a, i);
      }
    }
  }

  lemma StaysAttended(code: Code, s: State, a: Action, i: nat)
    requires R.Exclusive(s) && Enabled(s, a) && Apply(code, s, a).Ran? && !AllLeft(s)
    requires Appended(s, a) == None && TakenAt(s, a) == None && i < |s.queue| && s.queue[i].pin == None
    ensures !AllLeft(Apply(code, s, a).s)
  {
    if a.TurnOf? {
      LeavingIsAttended(code, s, a.w, a.spare, i);
    } else {
      QueueEffect(code, s, a);
      var w :| w in s.workers && !s.workers[w].place.Left?;
      assert !Apply(code, s, a).s.workers[w].place.Left?;
    }
  }

  /**
   * In every interleaving: once all workers have left, what is still in the queue is pinned or
   * was submitted after the last of them left; nothing else is lost, re-enqueued fibers
   * included.
   */
  lemma {:induction false} NothingLostAtShutdown(code: Code, h0: History, acts: seq<Action>, h: History)
    requires R.Exclusive(h0.s) && Ordered(h0) && Attended(h0) && Reaches(code, h0, acts, h)
    ensures InOrder(h) && Attended(h)
    ensures AllLeft(h.s) ==> forall i :: 0 <= i < |h.s.queue| ==> h.s.queue[i].pin.Some? || h.tickets[i] in h.late
    ensures AllLeft(h.s) && h.late == {} && (forall e :: e in h.submitted ==> e.pin == None) ==> h.s.queue == []
    decreases |acts|
  {
    if acts != [] {
      R.ExclusiveStep(code, h0.s, acts[0]);
      OrderedStep(code, h0, acts[0]);
      AttendedStep(code, h0, acts[0]);
      NothingLostAtShutdown(code, Record(code, h0, acts[0]), acts[1..], h);
    }
    assert |h.s.queue| > 0 ==> h.s.queue[0] in h.submitted;
  }

  ghost predicate BeingRequeued(s: State, f: nat) {
    exists w :: w in s.workers && s.workers[w].place == Requeueing(f)
  }

  /** A fiber that yielded to READY waits in the queue, for any thread, or is about to. */
  ghost predicate ReadyQueued(s: State) {
    forall f :: f in s.fibers && s.fibers[f] == F.READY ==> Entry(FiberTask(f), None) in s.queue || BeingRequeued(s, f)
  }

  lemma StillIn<T>(s: seq<T>, i: nat, x: T)
    requires i < |s| && x in s && x != s[i]
    ensures x in Without(s, i)
  {
    var k :| 0 <= k < |s| && s[k] == x;
    assert Without(s, i)[if k < i then k else k - 1] == x;
  }

  lemma StillRequeued(s: State, s': State, w: nat, f: nat)
    requires BeingRequeued(s, f) && w in s.workers && !s.workers[w].place.Requeueing?
    requires w in s'.workers && s'.workers == s.workers[w := s'.workers[w]]
    ensures BeingRequeued(s', f)
  {
    var v :| v in s.workers && s.workers[v].place == Requeueing(f);
    assert s'.workers[v].place == Requeueing(f);
  }

  lemma ReadyQueuedTurn(code: Code, s: State, w: nat, spare: nat)
    requires ReadyQueued(s) && Enabled(s, TurnOf(w, spare)) && Turn(code, s, w, spare).Ran?
    ensures ReadyQueued(Turn(code, s, w, spare).s)
  {
    var s' := Turn(code, s, w, spare).s;
    var i := FirstEligible(s.queue, s.fibers, w);
    TurnEffect(code, s, w, spare);
    assert i < |s.queue| ==> s.queue[i] in s.queue;
    forall f | f in s'.fibers && s'.fibers[f] == F.READY
      ensures Entry(FiberTask(f), None) in s'.queue || BeingRequeued(s', f)
    {
      assert f in s.fibers && s.fibers[f] == F.READY;
      assert i < |s.queue| ==> s.queue[i].task != FiberTask(f);
      hide Turn, FirstEligible, BeingRequeued;
      if BeingRequeued(s, f) {
        StillRequeued(s, s', w, f);
      } else if i < |s.queue| {
        StillIn(s.queue, i, Entry(FiberTask(f), None));
      }
    }
  }

  lemma ReadyQueuedBack(s: State, w: nat, how: F.FiberState)
    requires ReadyQueued(s) && Enabled(s, BackTo(w, how))
    ensures ReadyQueued(Back(s, w, how))
  {
    var s' := Back(s, w, how);
    forall f | f in s'.fibers && s'.fibers[f] == F.READY
      ensures Entry(FiberTask(f), None) in s'.queue || BeingRequeued(s', f)
    {
      if f == s.workers[w].place.f {
        assert s'.workers[w].place == Requeueing(f);
      } else if BeingRequeued(s, f) {
        StillRequeued(s, s', w, f);
      }
    }
  }

  lemma ReadyQueuedRequeue(s: State, w: nat)
    requires ReadyQueued(s) && Enabled(s, RequeueOf(w))
    ensures ReadyQueued(Requeue(s, w))
  {
    var s' := Requeue(s, w);
    assert forall e :: e in s.queue ==> e in s'.queue;
    assert s'.queue[|s.queue|] in s'.queue;
    forall f | f in s'.fibers && s'.fibers[f] == F.READY
      ensures Entry(FiberTask(f), None) in s'.queue || BeingRequeued(s', f)
    {
      if f != s.workers[w].place.f && BeingRequeued(s, f) {
        var v :| v in s.workers && s.workers[v].place == Requeueing(f);
        assert s'.workers[v].place == Requeueing(f);
      }
    }
  }

  lemma ReadyQueuedStep(code: Code, s: State, a: Action)
    requires ReadyQueued(s) && Enabled(s, a) && Apply(code, s, a).Ran?
    ensures ReadyQueued(Apply(code, s, a).s)
  {
    var s' := Apply(code, s, a).s;
    match a
    case TurnOf(w, spare) => ReadyQueuedTurn(code, s, w, spare);
    case BackTo(w, how) => ReadyQueuedBack(s, w, how);
    case RequeueOf(w) => ReadyQueuedRequeue(s, w);
    case IdleBackTo(w, _) => forall f ensures BeingRequeued(s, f) ==> BeingRequeued(s', f) {
      if BeingRequeued(s, f) { StillRequeued(s, s', w, f); }
    }
    case _ =>
      assert forall e :: e in s.queue ==> e in s'.queue;
      forall f ensures BeingRequeued(s, f) ==> BeingRequeued(s', f) {}
  }

  /**
   * Over every run a READY fiber is queued or a worker is about to queue it, so none is
   * forgotten, and when all workers have left after timely submissions no fiber is READY.
   */
  lemma {:induction false} NoReadyFiberForgotten(code: Code, h0: History, acts: seq<Action>, h: History)
    requires R.Exclusive(h0.s) && Ordered(h0) && Attended(h0) && ReadyQueued(h0.s) && Reaches(code, h0, acts, h)
    ensures ReadyQueued(h.s)
    ensures AllLeft(h.s) && h.late == {} ==> forall f :: f in h.s.fibers ==> h.s.fibers[f] != F.READY
    decreases |acts|
  {
    if acts == [] {
      forall f | f in h.s.fibers && h.s.fibers[f] == F.READY && h.late == {} ensures !AllLeft(h.s) {
        if !BeingRequeued(h.s, f) {
          var i :| 0 <= i < |h.s.queue| && h.s.queue[i] == Entry(FiberTask(f), None);
        }
      }
    } else {
      R.ExclusiveStep(code, h0.s, acts[0]);
      OrderedStep(code, h0, acts[0]);
      AttendedStep(code, h0, acts[0]);
      ReadyQueuedStep(code, h0.s, acts[0]);
      NoReadyFiberForgotten(code, Record(code, h0, acts[0]), acts[1..], h);
    }
  }

  /** Waiting for a thread that is no worker here. */
  ghost predicate Stranded(s: State) {
    exists i :: 0 <= i < |s.queue| && s.queue[i].pin.Some? && s.queue[i].pin.value !in s.workers
  }

  lemma StrandedStep(code: Code, s: State, a: Action)
    requires Stranded(s) && Enabled(s, a) && Apply(code, s, a).Ran?
    ensures Stranded(Apply(code, s, a).s)
  {
    QueueEffect(code, s, a);
    var s' := Apply(code, s, a).s;
    hide Apply;
    var i :| 0 <= i < |s.queue| && s.queue[i].pin.Some? && s.queue[i].pin.value !in s.workers;
    if TakenAt(s, a).Some? {
      var at := TakenAt(s, a).value;
      assert Eligible(s.fibers, s.queue[at], a.w) && a.w in s.workers;
      assert s'.queue[if i < at then i else i - 1] == s.queue[i];
    } else {
      assert s'.queue[i] == s.queue[i];
    }
  }

  /** A task pinned to a thread that is no worker is never taken, and stopping() never holds again. */
  lemma {:induction false} ForeignPinPreventsStop(code: Code, s0: State, acts: seq<Action>, s: State)
    requires Stranded(s0) && Runs(code, s0, acts, s)
    ensures Stranded(s) && !Stopping(s)
    decreases |acts|
  {
    if acts != [] {
      StrandedStep(code, s0, acts[0]);
      ForeignPinPreventsStop(code, Apply(code, s0, acts[0]).s, acts[1..], s);
    }
  }

  /** One worker whose idle fiber has ended. */
  function Ending(w: nat): State {
    Start({w}).(autoStop := true, stopping := true, workers := map[w := Worker(Head, None, F.TERM)])
  }

  lemma EndingIsReached(code: Code, w: nat, spare: nat, acts: seq<Action>, s: State)
    requires Runs(code, Ending(w), acts, s)
    ensures Runs(code, Start({w}), [Stop] + ([TurnOf(w, spare)] + ([IdleBackTo(w, true)] + acts)), s)
  {
    hide Runs;
    var s1 := Start({w}).(autoStop := true, stopping := true);
    var s2 := s1.(idle := 1, workers := map[w := Worker(Idling, None, F.EXEC)]);
    assert Turn(code, s1, w, spare) == Ran(s2);
    hide Turn, Back;
    RunsStep(code, s2, IdleBackTo(w, true), Ending(w), acts, s);
    RunsStep(code, s1, TurnOf(w, spare), s2, [IdleBackTo(w, true)] + acts, s);
    RunsStep(code, Start({w}), Stop, s1, [TurnOf(w, spare)] + ([IdleBackTo(w, true)] + acts), s);
  }

  /** A pinned task that comes after the last idle fiber ended is left behind. */
  lemma PinnedLeftBehindExample(code: Code, w: nat, other: nat, c: nat, spare: nat) returns (s: State)
    requires w != other
    ensures Runs(code, Start({w}),
      [Stop, TurnOf(w, spare), IdleBackTo(w, true), Schedule(CallTask(c), Some(other)), TurnOf(w, spare)], s)
    ensures AllLeft(s) && s.queue == [Entry(CallTask(c), Some(other))]
  {
    hide Runs;
    var s4 := Ending(w).(queue := [Entry(CallTask(c), Some(other))]);
    s := s4.(workers := map[w := Worker(Left, None, F.TERM)]);
    assert Turn(code, s4, w, spare) == Ran(s) by { TakesTheOnlyEntry(code, s4, w, spare, s4.queue[0]); }
    hide Turn, Back;
    RunsNone(code, s);
    RunsStep(code, s4, TurnOf(w, spare), s, [], s);
    var last := [TurnOf(w, spare)] + [];
    RunsStep(code, Ending(w), Schedule(CallTask(c), Some(other)), s4, last, s);
    var rest := [Schedule(CallTask(c), Some(other))] + last;
    EndingIsReached(code, w, spare, rest, s);
    assert [Stop] + ([TurnOf(w, spare)] + ([IdleBackTo(w, true)] + rest))
      == [Stop, TurnOf(w, spare), IdleBackTo(w, true), Schedule(CallTask(c), Some(other)), TurnOf(w, spare)];
  }

  lemma BeginIsOrdered(threads: set<nat>)
    ensures Ordered(Begin(threads)) && Attended(Begin(threads)) && R.Exclusive(Begin(threads).s)
      && ReadyQueued(Begin(threads).s)
  {
  }

  /** All of the above, from the start of a scheduler with workers of any threads. */
  lemma WhatBecomesOfTasks(code: Code, threads: set<nat>, acts: seq<Action>, h: History)
    requires Reaches(code, Begin(threads), acts, h)
    ensures InOrder(h) && Conserved(h) && Affine(h) && FirstComeFirstServed(h)
    ensures AllLeft(h.s) ==> forall i :: 0 <= i < |h.s.queue| ==> h.s.queue[i].pin.Some? || h.tickets[i] in h.late
    ensures AllLeft(h.s) && h.late == {} ==> forall f :: f in h.s.fibers ==> h.s.fibers[f] != F.READY
  {
    BeginIsOrdered(threads);
    TasksAreConserved(code, Begin(threads), acts, h);
    NothingLostAtShutdown(code, Begin(threads), acts, h);
    NoReadyFiberForgotten(code, Begin(threads), acts, h);
  }
}
