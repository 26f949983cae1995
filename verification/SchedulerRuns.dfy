/**
 * Whole runs of the scheduler, with any number of workers, any interleaving of their steps and
 * any submissions, stale and duplicate handles included.
 */
module SchedulerRuns {
  import opened Common
  import F = FiberModel
  import opened SchedulerModel

  // ------------------------------------------------------------ exclusion

  ghost predicate Holds(s: State, w: nat, f: nat) {
    w in s.workers && Busy(s.workers[w].place) && s.workers[w].place.f == f
  }

  /** A task fiber is EXEC exactly when a worker holds it, and then one worker. */
  ghost predicate Exclusive(s: State) {
    && Handles(s)
    && (forall w :: w in s.workers && Busy(s.workers[w].place) ==>
          s.workers[w].place.f in s.fibers && s.fibers[s.workers[w].place.f] == F.EXEC)
    && (forall f :: f in s.fibers && s.fibers[f] == F.EXEC ==> exists w :: Holds(s, w, f))
    && (forall v, w ::
          && v in s.workers && w in s.workers && v != w
          && Busy(s.workers[v].place) && Busy(s.workers[w].place) ==>
          s.workers[v].place.f != s.workers[w].place.f)
    && (forall w :: w in s.workers && s.workers[w].place.InCallback? ==>
          s.workers[w].cbFiber == Some(s.workers[w].place.f))
  }

  /** One worker starts to hold a fiber that nobody held. */
  lemma ExclusiveEnter(s: State, s': State, w: nat, f: nat)
    requires Exclusive(s) && w in s.workers && !Busy(s.workers[w].place)
    requires f in s.fibers ==> s.fibers[f] != F.EXEC
    requires s'.fibers == s.fibers[f := F.EXEC] && Handles(s')
    requires w in s'.workers && s'.workers == s.workers[w := s'.workers[w]]
    requires Busy(s'.workers[w].place) && s'.workers[w].place.f == f
    requires s'.workers[w].place.InCallback? ==> s'.workers[w].cbFiber == Some(f)
    ensures Exclusive(s')
  {
    assert Holds(s', w, f);
    forall g | g in s'.fibers && s'.fibers[g] == F.EXEC ensures exists v :: Holds(s', v, g) {
      if g != f {
        var v :| Holds(s, v, g);
        assert Holds(s', v, g);
      }
    }
  }

  /** One worker lets go of its fiber, or a worker that held none changes its place. */
  lemma ExclusiveLeave(s: State, s': State, w: nat)
    requires Exclusive(s) && w in s.workers && Handles(s')
    requires w in s'.workers && s'.workers == s.workers[w := s'.workers[w]] && !Busy(s'.workers[w].place)
    requires if Busy(s.workers[w].place) then
        var f := s.workers[w].place.f;
        f in s'.fibers && s'.fibers == s.fibers[f := s'.fibers[f]] && s'.fibers[f] != F.EXEC
      else s'.fibers == s.fibers
    ensures Exclusive(s')
  {
    forall g | g in s'.fibers && s'.fibers[g] == F.EXEC ensures exists v :: Holds(s', v, g) {
      var v :| Holds(s, v, g);
      assert v != w;
      assert Holds(s', v, g);
    }
  }

  lemma WithoutMembers<T>(s: seq<T>, i: nat)
    requires i < |s|
    ensures forall x :: x in Without(s, i) ==> x in s
  {
  }

  lemma HandlesStep(code: Code, s: State, a: Action)
    requires Exclusive(s) && Enabled(s, a) && Apply(code, s, a).Ran?
    ensures Handles(Apply(code, s, a).s)
  {
    match a
    case TurnOf(w, spare) => HandlesTurn(code, s, w, spare);
    case RequeueOf(w) =>
      var s' := Requeue(s, w);
      assert forall e :: e in s'.queue ==> e in s.queue || e == Entry(FiberTask(s.workers[w].place.f), None);
    case _ =>
  }

  /** A turn takes no fiber out of being, and the worker's callback fiber is one of them. */
  lemma TurnKeepsFibers(code: Code, s: State, w: nat, spare: nat)
    requires Enabled(s, TurnOf(w, spare)) && Turn(code, s, w, spare).Ran?
    ensures var s' := Turn(code, s, w, spare).s;
      && (forall f :: f in s.fibers ==> f in s'.fibers)
      && w in s'.workers
      && (s'.workers[w].cbFiber.Some? ==> s'.workers[w].cbFiber.value in s'.fibers)
  {
    var i := FirstEligible(s.queue, s.fibers, w);
    if i < |s.queue| { assert s.queue[i] in s.queue; }
    hide FirstEligible, Without;
  }

  lemma HandlesTurn(code: Code, s: State, w: nat, spare: nat)
    requires Enabled(s, TurnOf(w, spare)) && Turn(code, s, w, spare).Ran?
    ensures Handles(Turn(code, s, w, spare).s)
  {
    hide Turn, Without, FirstEligible;
    var s' := Turn(code, s, w, spare).s;
    var i := FirstEligible(s.queue, s.fibers, w);
    TurnEffect(code, s, w, spare);
    if i < |s.queue| {
      WithoutMembers(s.queue, i);
    }
    TurnKeepsFibers(code, s, w, spare);
  }

  /** The first eligible fiber is not in execution, so the assertion of swapIn holds. */
  lemma ExclusiveStep(code: Code, s: State, a: Action)
    requires Exclusive(s) && Enabled(s, a) && Apply(code, s, a).Ran?
    ensures Exclusive(Apply(code, s, a).s)
  {
    HandlesStep(code, s, a);
    var s' := Apply(code, s, a).s;
    match a
    case CreateFiber(_) => ExclusiveFrame(s, s');
    case Schedule(_, _) => ExclusiveFrame(s, s');
    case Stop => ExclusiveFrame(s, s');
    case TurnOf(w, spare) => ExclusiveTurn(code, s, w, spare);
    case BackTo(w, how) => ExclusiveLeave(s, s', w);
    case RequeueOf(w) => ExclusiveLeave(s, s', w);
    case IdleBackTo(w, done) => ExclusiveLeave(s, s', w);
  }

  lemma ExclusiveFrame(s: State, s': State)
    requires Exclusive(s) && Handles(s') && s'.workers == s.workers
    requires forall f :: f in s.fibers ==> f in s'.fibers && s'.fibers[f] == s.fibers[f]
    requires forall f :: f in s'.fibers && f !in s.fibers ==> s'.fibers[f] != F.EXEC
    ensures Exclusive(s')
  {
    forall g | g in s'.fibers && s'.fibers[g] == F.EXEC ensures exists v :: Holds(s', v, g) {
      var v :| Holds(s, v, g);
      assert Holds(s', v, g);
    }
  }

  lemma ExclusiveTurn(code: Code, s: State, w: nat, spare: nat)
    requires Exclusive(s) && Enabled(s, TurnOf(w, spare)) && Turn(code, s, w, spare).Ran?
    requires Handles(Turn(code, s, w, spare).s)
    ensures Exclusive(Turn(code, s, w, spare).s)
  {
    hide Exclusive, FirstEligible, Without;
    var s' := Turn(code, s, w, spare).s;
    var i := FirstEligible(s.queue, s.fibers, w);
    if i == |s.queue| {
      ExclusiveLeave(s, s', w);
    } else {
      assert s.queue[i] in s.queue;
      match s.queue[i].task
      case FiberTask(f) =>
        if Busy(s'.workers[w].place) { ExclusiveEnter(s, s', w, f); } else { ExclusiveLeave(s, s', w); }
      case CallTask(_) =>
        ExclusiveEnter(s, s', w, s'.workers[w].place.f);
    }
  }

  lemma {:induction false} Exclusion(code: Code, s0: State, acts: seq<Action>, s: State)
    requires Exclusive(s0) && Runs(code, s0, acts, s)
    ensures Exclusive(s)
    decreases |acts|
  {
    if acts != [] {
      ExclusiveStep(code, s0, acts[0]);
      Exclusion(code, Apply(code, s0, acts[0]).s, acts[1..], s);
    }
  }

  /** From the start, with workers of any threads. */
  lemma ExclusionFromTheStart(code: Code, threads: set<nat>, acts: seq<Action>, s: State)
    requires Runs(code, Start(threads), acts, s)
    ensures Exclusive(s)
  {
    StartIsExclusive(threads);
    Exclusion(code, Start(threads), acts, s);
  }

  /**
   * A turn stops the process exactly when it resumes a finished fiber with the test of line
   * 198 as written, or has to reset a callback fiber that somebody else has used meanwhile;
   * the assertion of swapIn never fails.
   */
  lemma TurnStopsIff(code: Code, s: State, w: nat, spare: nat)
    requires Exclusive(s) && Enabled(s, TurnOf(w, spare))
    ensures var o := Turn(code, s, w, spare);
      var i := FirstEligible(s.queue, s.fibers, w);
      && (o == Aborted(236) <==>
            i < |s.queue| && s.queue[i].task.FiberTask? && !code.guarded && Finished(s.fibers[s.queue[i].task.f]))
      && (o == Aborted(107) <==>
            i < |s.queue| && s.queue[i].task.CallTask? && s.workers[w].cbFiber.Some?
            && !F.Resettable(s.fibers[s.workers[w].cbFiber.value]))
      && (o.Aborted? ==> o.line == 236 || o.line == 107)
  {
    var i := FirstEligible(s.queue, s.fibers, w);
    if i < |s.queue| { assert s.queue[i] in s.queue; }
  }

  /** One worker, whose only fiber has ended while a second entry for it came in. */
  function EndedTwice(code: Code, w: nat, f: nat): State {
    Start({w}).(fibers := map[f := F.TERM], hollow := {f}, queue := [Entry(FiberTask(f), None)], active := code.extra)
  }

  /** The same worker in the fiber. */
  function InTheFiber(code: Code, w: nat, f: nat): State {
    Start({w}).(fibers := map[f := F.EXEC], active := 1 + code.extra,
      workers := map[w := Worker(InFiber(f), None, F.INIT)])
  }

  /** The fiber is made and submitted. */
  function Submitted(w: nat, f: nat): State {
    Start({w}).(fibers := map[f := F.INIT], queue := [Entry(FiberTask(f), None)])
  }

  lemma SubmittedIsReached(code: Code, w: nat, f: nat, acts: seq<Action>, s: State)
    requires Runs(code, Submitted(w, f), acts, s)
    ensures Runs(code, Start({w}), [CreateFiber(f)] + ([Schedule(FiberTask(f), None)] + acts), s)
  {
    hide Runs, Turn, Back;
    var s1 := Start({w}).(fibers := map[f := F.INIT]);
    assert {} - {f} == {};
    RunsStep(code, s1, Schedule(FiberTask(f), None), Submitted(w, f), acts, s);
    RunsStep(code, Start({w}), CreateFiber(f), s1, [Schedule(FiberTask(f), None)] + acts, s);
  }

  lemma InTheFiberIsReached(code: Code, w: nat, f: nat, spare: nat, acts: seq<Action>, s: State)
    requires spare != f && Runs(code, InTheFiber(code, w, f), acts, s)
    ensures Runs(code, Start({w}), [CreateFiber(f)] + ([Schedule(FiberTask(f), None)] + ([TurnOf(w, spare)] + acts)), s)
  {
    hide Runs;
    var s2 := Submitted(w, f);
    assert Turn(code, s2, w, spare) == Ran(InTheFiber(code, w, f)) by {
      TakesTheOnlyEntry(code, s2, w, spare, s2.queue[0]);
    }
    hide Turn, InTheFiber;
    RunsStep(code, s2, TurnOf(w, spare), InTheFiber(code, w, f), acts, s);
    hide Submitted;
    SubmittedIsReached(code, w, f, [TurnOf(w, spare)] + acts, s);
  }

  lemma EndedTwiceIsReached(code: Code, w: nat, f: nat)
    ensures Runs(code, InTheFiber(code, w, f), [Schedule(FiberTask(f), None)] + ([BackTo(w, F.TERM)] + []),
      EndedTwice(code, w, f))
  {
    hide Runs;
    var s4 := InTheFiber(code, w, f).(queue := [Entry(FiberTask(f), None)]);
    RunsNone(code, EndedTwice(code, w, f));
    RunsStep(code, s4, BackTo(w, F.TERM), EndedTwice(code, w, f), [], EndedTwice(code, w, f));
    RunsStep(code, InTheFiber(code, w, f), Schedule(FiberTask(f), None), s4, [BackTo(w, F.TERM)] + [],
      EndedTwice(code, w, f));
  }

  /**
   * Two submissions of one fiber, which ends in its first turn: the second turn stops the
   * process as written, and drops the entry with the repaired test.
   */
  lemma FinishedFiberExample(code: Code, w: nat, f: nat, spare: nat) returns (s: State)
    requires spare != f
    ensures Runs(code, Start({w}),
      [CreateFiber(f), Schedule(FiberTask(f), None), TurnOf(w, spare), Schedule(FiberTask(f), None),
        BackTo(w, F.TERM)], s)
    ensures Enabled(s, TurnOf(w, spare))
    ensures if code.guarded then Turn(code, s, w, spare).Ran? else Turn(code, s, w, spare) == Aborted(236)
  {
    s := EndedTwice(code, w, f);
    TakesTheOnlyEntry(code, s, w, spare, s.queue[0]);
    hide Runs, Turn, InTheFiber;
    EndedTwiceIsReached(code, w, f);
    var rest := [Schedule(FiberTask(f), None)] + ([BackTo(w, F.TERM)] + []);
    InTheFiberIsReached(code, w, f, spare, rest, s);
    assert [CreateFiber(f)] + ([Schedule(FiberTask(f), None)] + ([TurnOf(w, spare)] + rest))
      == [CreateFiber(f), Schedule(FiberTask(f), None), TurnOf(w, spare), Schedule(FiberTask(f), None),
        BackTo(w, F.TERM)];
  }

  // ----------------------------------------------------------- idle fibers

  /**
   * A worker's idle fiber executes exactly while the worker idles, waits in INIT or HOLD at
   * other times, and has ended only once stopping() was seen; who has left had it end.
   */
  ghost predicate IdleFollows(s: State) {
    forall w :: w in s.workers ==>
      var worker := s.workers[w];
      && (worker.idle == F.EXEC <==> worker.place.Idling?)
      && (worker.idle == F.EXEC || worker.idle == F.INIT || worker.idle == F.HOLD || worker.idle == F.TERM)
      && (worker.place.Left? ==> worker.idle == F.TERM)
      && (worker.idle == F.TERM ==> s.autoStop && s.stopping)
  }

  lemma IdleFollowsStep(code: Code, s: State, a: Action)
    requires IdleFollows(s) && Enabled(s, a) && Apply(code, s, a).Ran?
    ensures IdleFollows(Apply(code, s, a).s)
  {
    match a
    case TurnOf(w, spare) =>
      TurnEffect(code, s, w, spare);
      hide Turn, FirstEligible, Without, Handles;
    case _ =>
  }

  lemma {:induction false} IdleFollowsRuns(code: Code, s0: State, acts: seq<Action>, s: State)
    requires IdleFollows(s0) && Runs(code, s0, acts, s)
    ensures IdleFollows(s)
    decreases |acts|
  {
    if acts != [] {
      IdleFollowsStep(code, s0, acts[0]);
      IdleFollowsRuns(code, Apply(code, s0, acts[0]).s, acts[1..], s);
    }
  }

  /**
   * After every run from the start: a worker that finds nothing enters an idle fiber that is
   * not in execution and has not ended, so neither assertion on the way into it can fail, or
   * it leaves, which takes a stop that was asked for.
   */
  lemma IdleFibersAreEntered(code: Code, threads: set<nat>, acts: seq<Action>, s: State, w: nat, spare: nat)
    requires Runs(code, Start(threads), acts, s) && Enabled(s, TurnOf(w, spare))
    requires FirstEligible(s.queue, s.fibers, w) == |s.queue|
    ensures IdleFollows(s)
    ensures var s' := Turn(code, s, w, spare).s;
      if s.workers[w].idle == F.TERM then s'.workers[w].place.Left? && s.autoStop && s.stopping
      else s'.workers[w].place.Idling? && (s.workers[w].idle == F.INIT || s.workers[w].idle == F.HOLD)
  {
    IdleFollowsRuns(code, Start(threads), acts, s);
  }

  lemma StartIsExclusive(threads: set<nat>)
    ensures Exclusive(Start(threads))
  {
  }
}
