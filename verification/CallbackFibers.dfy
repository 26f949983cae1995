/**
 * The fiber a worker keeps for callbacks, over whole runs: when Fiber::reset accepts it, and
 * which handle spoils it.
 */
module CallbackFibers {
  import opened Common
  import opened SchedulerModel
  import F = FiberModel
  import R = SchedulerRuns

  ghost predicate Keeps(s: State, w: nat, f: nat) {
    w in s.workers && s.workers[w].cbFiber == Some(f) && !s.workers[w].place.InCallback?
  }

  /** Outside its callbacks every worker's callback fiber is null or INIT, and no two workers share one. */
  ghost predicate Prepared(s: State) {
    && (forall w, f :: Keeps(s, w, f) ==> f in s.fibers && s.fibers[f] == F.INIT)
    && (forall v, w :: v in s.workers && w in s.workers && v != w && s.workers[v].cbFiber.Some? ==>
          s.workers[v].cbFiber != s.workers[w].cbFiber)
  }

  /** The action resumes, as a task, a fiber that some worker keeps for its callbacks. */
  ghost predicate EntersKept(s: State, a: Action) {
    && a.TurnOf?
    && var i := FirstEligible(s.queue, s.fibers, a.w);
    && i < |s.queue| && s.queue[i].task.FiberTask?
    && exists v :: Keeps(s, v, s.queue[i].task.f)
  }

  /** Nobody's place or callback fiber changes in a way that matters, and no INIT fiber changes. */
  lemma PreparedFrame(s: State, s': State)
    requires Prepared(s)
    requires forall w :: w in s'.workers ==> w in s.workers && s'.workers[w].cbFiber == s.workers[w].cbFiber
    requires forall w, f :: Keeps(s', w, f) ==> Keeps(s, w, f) && f in s'.fibers && s'.fibers[f] == s.fibers[f]
    ensures Prepared(s')
  {
  }

  lemma KeptFiberTurn(code: Code, s: State, w: nat, spare: nat)
    requires R.Exclusive(s) && Prepared(s) && Enabled(s, TurnOf(w, spare)) && Turn(code, s, w, spare).Ran?
    requires var i := FirstEligible(s.queue, s.fibers, w); i < |s.queue| && s.queue[i].task.FiberTask?
    ensures Prepared(Turn(code, s, w, spare).s) <==> !EntersKept(s, TurnOf(w, spare))
  {
    var s' := Turn(code, s, w, spare).s;
    var i := FirstEligible(s.queue, s.fibers, w);
    var f := s.queue[i].task.f;
    assert s.queue[i] in s.queue;
    var s1 := s.(queue := Without(s.queue, i), active := s.active + 1);
    assert Turn(code, s, w, spare) == EnterFiber(code, s1, w, f);
    EnterFiberEffect(code, s1, w, f);
    hide Turn, EnterFiber, FirstEligible, Without, R.Exclusive;
    assert forall v, g :: Keeps(s', v, g) <==> Keeps(s, v, g);
    if EntersKept(s, TurnOf(w, spare)) {
      var v :| Keeps(s, v, f);
      assert Keeps(s', v, f);
    } else {
      PreparedFrame(s, s');
    }
  }

  lemma KeptCallbackTurn(code: Code, s: State, w: nat, spare: nat)
    requires R.Exclusive(s) && Prepared(s) && Enabled(s, TurnOf(w, spare)) && Turn(code, s, w, spare).Ran?
    requires var i := FirstEligible(s.queue, s.fibers, w); i < |s.queue| && s.queue[i].task.CallTask?
    ensures Prepared(Turn(code, s, w, spare).s)
  {
    var s' := Turn(code, s, w, spare).s;
    var f := s'.workers[w].place.f;
    assert s'.fibers == s.fibers[f := F.EXEC] && s'.workers == s.workers[w := s'.workers[w]];
    assert s'.workers[w].place.InCallback? && s'.workers[w].cbFiber == Some(f);
    assert f !in s.fibers || s.workers[w].cbFiber == Some(f);
    hide Turn, FirstEligible, R.Exclusive;
    forall v, g | Keeps(s', v, g) ensures g in s'.fibers && s'.fibers[g] == F.INIT {
      assert v != w && Keeps(s, v, g);
      assert s.workers[v].cbFiber == Some(g);
    }
    forall v | v in s.workers && v != w && s.workers[v].cbFiber.Some? ensures s.workers[v].cbFiber != Some(f) {
      assert s.workers[v].cbFiber.value in s.fibers;
    }
  }

  lemma KeptTurn(code: Code, s: State, w: nat, spare: nat)
    requires R.Exclusive(s) && Prepared(s) && Enabled(s, TurnOf(w, spare)) && Turn(code, s, w, spare).Ran?
    ensures Prepared(Turn(code, s, w, spare).s) <==> !EntersKept(s, TurnOf(w, spare))
  {
    var i := FirstEligible(s.queue, s.fibers, w);
    if i == |s.queue| {
      TurnEffect(code, s, w, spare);
      PreparedFrame(s, Turn(code, s, w, spare).s);
    } else if s.queue[i].task.FiberTask? {
      KeptFiberTurn(code, s, w, spare);
    } else {
      KeptCallbackTurn(code, s, w, spare);
    }
  }

  lemma KeptBack(s: State, w: nat, how: F.FiberState)
    requires R.Exclusive(s) && Prepared(s) && Enabled(s, BackTo(w, how))
    ensures Prepared(Back(s, w, how))
  {
    var s' := Back(s, w, how);
    var f := s.workers[w].place.f;
    forall v, g | Keeps(s', v, g) ensures g in s'.fibers && s'.fibers[g] == F.INIT {
      if v == w && s.workers[w].place.InCallback? {
        assert g == f;
      } else {
        assert Keeps(s, v, g);
        assert g != f;
      }
    }
  }

  /** A step that gets through keeps the callback fibers ready exactly when it resumes none of them as a task. */
  lemma PreparedIff(code: Code, s: State, a: Action)
    requires R.Exclusive(s) && Prepared(s) && Enabled(s, a) && Apply(code, s, a).Ran?
    ensures Prepared(Apply(code, s, a).s) <==> !EntersKept(s, a)
  {
    var s' := Apply(code, s, a).s;
    match a
    case TurnOf(w, spare) => KeptTurn(code, s, w, spare);
    case BackTo(w, how) => KeptBack(s, w, how);
    case IdleBackTo(w, _) => forall v, g ensures Keeps(s', v, g) <==> Keeps(s, v, g) {}
    case _ => forall v, g ensures Keeps(s', v, g) <==> Keeps(s, v, g) {}
  }

  ghost predicate LeavesKeptAlone(code: Code, s: State, acts: seq<Action>)
    decreases |acts|
  {
    acts == [] || (Enabled(s, acts[0]) && !EntersKept(s, acts[0])
      && var o := Apply(code, s, acts[0]); o.Ran? ==> LeavesKeptAlone(code, o.s, acts[1..]))
  }

  /**
   * As long as nobody resumes a kept fiber as a task, every kept fiber stays null or INIT, and
   * with the repaired test no turn stops the process.
   */
  lemma {:induction false} UntouchedFibersStayInit(
      code: Code, s0: State, acts: seq<Action>, s: State, w: nat, spare: nat)
    requires R.Exclusive(s0) && Prepared(s0) && Runs(code, s0, acts, s) && LeavesKeptAlone(code, s0, acts)
    ensures R.Exclusive(s) && Prepared(s)
    ensures Enabled(s, TurnOf(w, spare)) && code.guarded ==> Turn(code, s, w, spare).Ran?
    decreases |acts|
  {
    if acts == [] {
      if Enabled(s, TurnOf(w, spare)) {
        R.TurnStopsIff(code, s, w, spare);
        assert s.workers[w].cbFiber.Some? ==> Keeps(s, w, s.workers[w].cbFiber.value);
      }
    } else {
      R.ExclusiveStep(code, s0, acts[0]);
      PreparedIff(code, s0, acts[0]);
      UntouchedFibersStayInit(code, Apply(code, s0, acts[0]).s, acts[1..], s, w, spare);
    }
  }

  lemma UntouchedFibersFromTheStart(code: Code, threads: set<nat>, acts: seq<Action>, s: State)
    requires Runs(code, Start(threads), acts, s) && LeavesKeptAlone(code, Start(threads), acts)
    ensures Prepared(s)
  {
    StartIsPrepared(threads);
    R.StartIsExclusive(threads);
    UntouchedFibersStayInit(code, Start(threads), acts, s, 0, 0);
  }

  // ---------------------------------------------------- when reset fails

  /** A kept fiber has no function, and is resettable or in execution; no two workers share one. */
  ghost predicate Hollowed(s: State) {
    && (forall w, f :: Keeps(s, w, f) ==>
          f in s.fibers && f in s.hollow && (F.Resettable(s.fibers[f]) || s.fibers[f] == F.EXEC))
    && (forall v, w :: v in s.workers && w in s.workers && v != w && s.workers[v].cbFiber.Some? ==>
          s.workers[v].cbFiber != s.workers[w].cbFiber)
  }

  lemma HollowedTurn(code: Code, s: State, w: nat, spare: nat)
    requires R.Exclusive(s) && Hollowed(s) && Enabled(s, TurnOf(w, spare)) && Turn(code, s, w, spare).Ran?
    ensures Hollowed(Turn(code, s, w, spare).s)
  {
    var s' := Turn(code, s, w, spare).s;
    var i := FirstEligible(s.queue, s.fibers, w);
    if i < |s.queue| && s.queue[i].task.CallTask? {
      HollowedCallback(code, s, w, spare);
    } else {
      TurnWithoutCallback(code, s, w, spare);
      hide Turn, FirstEligible, R.Exclusive, Without, Handles;
      forall v, f ensures Keeps(s', v, f) ==> Keeps(s, v, f) {}
    }
  }

  lemma TurnWithoutCallback(code: Code, s: State, w: nat, spare: nat)
    requires Enabled(s, TurnOf(w, spare)) && Turn(code, s, w, spare).Ran?
    requires var i := FirstEligible(s.queue, s.fibers, w); i < |s.queue| ==> s.queue[i].task.FiberTask?
    ensures var s' := Turn(code, s, w, spare).s;
      && (forall f :: f in s.fibers ==> f in s'.fibers && (s'.fibers[f] == s.fibers[f] || s'.fibers[f] == F.EXEC))
      && s'.hollow == s.hollow
      && w in s'.workers && s'.workers == s.workers[w := s'.workers[w]]
      && s'.workers[w].cbFiber == s.workers[w].cbFiber && !s'.workers[w].place.InCallback?
  {
    var i := FirstEligible(s.queue, s.fibers, w);
    if i == |s.queue| {
      TurnEffect(code, s, w, spare);
      hide FirstEligible, Without, Handles, Turn;
    } else {
      assert s.queue[i] in s.queue;
      var s1 := s.(queue := Without(s.queue, i), active := s.active + 1);
      assert Turn(code, s, w, spare) == EnterFiber(code, s1, w, s.queue[i].task.f);
      hide FirstEligible, Without, Handles, Turn, EnterCallback;
      EnterFiberEffect(code, s1, w, s.queue[i].task.f);
    }
  }

  lemma EnterFiberEffect(code: Code, s: State, w: nat, f: nat)
    requires w in s.workers && s.workers[w].place.Head? && f in s.fibers && EnterFiber(code, s, w, f).Ran?
    ensures var s' := EnterFiber(code, s, w, f).s;
      && (s'.fibers == s.fibers[f := F.EXEC] || (code.guarded && Finished(s.fibers[f]) && s'.fibers == s.fibers))
      && s'.hollow == s.hollow
      && w in s'.workers && s'.workers == s.workers[w := s'.workers[w]]
      && s'.workers[w].cbFiber == s.workers[w].cbFiber && !s'.workers[w].place.InCallback?
  {
  }

  lemma HollowedCallback(code: Code, s: State, w: nat, spare: nat)
    requires R.Exclusive(s) && Hollowed(s) && Enabled(s, TurnOf(w, spare)) && Turn(code, s, w, spare).Ran?
    requires var i := FirstEligible(s.queue, s.fibers, w); i < |s.queue| && s.queue[i].task.CallTask?
    ensures Hollowed(Turn(code, s, w, spare).s)
  {
    var s' := Turn(code, s, w, spare).s;
    var f := s'.workers[w].place.f;
    assert s'.fibers == s.fibers[f := F.EXEC] && s'.hollow == s.hollow - {f}
      && s'.workers == s.workers[w := s'.workers[w]];
    assert s'.workers[w].place.InCallback? && s'.workers[w].cbFiber == Some(f);
    assert f !in s.fibers || s.workers[w].cbFiber == Some(f);
    hide Turn, FirstEligible, R.Exclusive;
    forall v, g | Keeps(s', v, g)
      ensures g in s'.fibers && g in s'.hollow && (F.Resettable(s'.fibers[g]) || s'.fibers[g] == F.EXEC)
    {
      assert v != w && Keeps(s, v, g);
      assert s.workers[v].cbFiber == Some(g);
    }
    forall v | v in s.workers && v != w && s.workers[v].cbFiber.Some? ensures s.workers[v].cbFiber != Some(f) {
      assert s.workers[v].cbFiber.value in s.fibers;
    }
  }

  lemma HollowedBack(s: State, w: nat, how: F.FiberState)
    requires R.Exclusive(s) && Hollowed(s) && Enabled(s, BackTo(w, how))
    ensures Hollowed(Back(s, w, how))
  {
    var s' := Back(s, w, how);
    var f := s.workers[w].place.f;
    forall v, g | Keeps(s', v, g)
      ensures g in s'.fibers && g in s'.hollow && (F.Resettable(s'.fibers[g]) || s'.fibers[g] == F.EXEC)
    {
      if v == w && s.workers[w].place.InCallback? {
        assert g == f;
      } else {
        assert Keeps(s, v, g);
      }
    }
  }

  lemma HollowedStep(code: Code, s: State, a: Action)
    requires R.Exclusive(s) && Hollowed(s) && Enabled(s, a) && Apply(code, s, a).Ran?
    ensures Hollowed(Apply(code, s, a).s)
  {
    var s' := Apply(code, s, a).s;
    match a
    case TurnOf(w, spare) => HollowedTurn(code, s, w, spare);
    case BackTo(w, how) => HollowedBack(s, w, how);
    case CreateFiber(_) => forall v, g ensures Keeps(s', v, g) <==> Keeps(s, v, g) {}
    case RequeueOf(w) => forall v, g ensures Keeps(s', v, g) <==> Keeps(s, v, g) {}
    case IdleBackTo(w, _) => forall v, g ensures Keeps(s', v, g) <==> Keeps(s, v, g) {}
    case _ => forall v, g ensures Keeps(s', v, g) <==> Keeps(s, v, g) {}
  }

  /** The turn takes a callback whose fiber another worker is inside. */
  ghost predicate FiberIsTaken(s: State, w: nat) {
    && var i := FirstEligible(s.queue, s.fibers, w);
    && w in s.workers && i < |s.queue| && s.queue[i].task.CallTask?
    && s.workers[w].cbFiber.Some? && exists v :: v != w && R.Holds(s, v, s.workers[w].cbFiber.value)
  }

  /**
   * Over every run, stale handles of callback fibers included: the assertion of Fiber::reset
   * fails exactly when a worker takes a callback while another worker is inside the fiber it
   * keeps. With the repaired test nothing else stops a turn.
   */
  lemma {:induction false} ResetFailsIff(code: Code, s0: State, acts: seq<Action>, s: State, w: nat, spare: nat)
    requires R.Exclusive(s0) && Hollowed(s0) && Runs(code, s0, acts, s)
    ensures R.Exclusive(s) && Hollowed(s)
    ensures Enabled(s, TurnOf(w, spare)) ==> (Turn(code, s, w, spare) == Aborted(107) <==> FiberIsTaken(s, w))
    ensures Enabled(s, TurnOf(w, spare)) && code.guarded ==> (Turn(code, s, w, spare).Aborted? <==> FiberIsTaken(s, w))
    decreases |acts|
  {
    if acts == [] {
      if Enabled(s, TurnOf(w, spare)) { ResetFailsNowIff(code, s, w, spare); }
    } else {
      R.ExclusiveStep(code, s0, acts[0]);
      HollowedStep(code, s0, acts[0]);
      ResetFailsIff(code, Apply(code, s0, acts[0]).s, acts[1..], s, w, spare);
    }
  }

  lemma ResetFailsNowIff(code: Code, s: State, w: nat, spare: nat)
    requires R.Exclusive(s) && Hollowed(s) && Enabled(s, TurnOf(w, spare))
    ensures Turn(code, s, w, spare) == Aborted(107) <==> FiberIsTaken(s, w)
    ensures code.guarded ==> (Turn(code, s, w, spare).Aborted? <==> FiberIsTaken(s, w))
  {
    R.TurnStopsIff(code, s, w, spare);
    if s.workers[w].cbFiber.Some? {
      var f := s.workers[w].cbFiber.value;
      assert Keeps(s, w, f);
      if s.fibers[f] == F.EXEC {
        var v :| R.Holds(s, v, f);
        assert v != w;
      } else {
        assert forall v :: !R.Holds(s, v, f);
      }
    }
    hide Turn;
  }

  /** From the start, with workers of any threads. */
  lemma ResetFailsIffFromTheStart(code: Code, threads: set<nat>, acts: seq<Action>, s: State, w: nat, spare: nat)
    requires Runs(code, Start(threads), acts, s) && Enabled(s, TurnOf(w, spare))
    ensures Turn(code, s, w, spare) == Aborted(107) <==> FiberIsTaken(s, w)
  {
    R.StartIsExclusive(threads);
    ResetFailsIff(code, Start(threads), acts, s, w, spare);
  }

  // A callback on worker `w` schedules its own fiber and returns; worker `v` resumes the fiber,
  // and while it is inside, `w` takes the next callback.

  /** Both workers, nothing else. */
  function Two(w: nat, a: Worker, v: nat, b: Worker): State {
    State([], map[], {}, map[w := a, v := b], 0, 0, false, false)
  }

  const FRESH := Worker(Head, None, F.INIT)

  function BothCalling(w: nat, v: nat, f: nat, c: nat): State {
    Two(w, Worker(InCallback(f, c), Some(f), F.INIT), v, FRESH).(fibers := map[f := F.EXEC], active := 1)
  }

  /** The callback is over, its fiber is kept by `w`, and a handle of it is queued. */
  function Stale(w: nat, v: nat, f: nat): State {
    Two(w, Worker(Head, Some(f), F.INIT), v, FRESH).(
      fibers := map[f := F.INIT], hollow := {f}, queue := [Entry(FiberTask(f), None)])
  }

  function Inside(code: Code, w: nat, v: nat, f: nat): State {
    Two(w, Worker(Head, Some(f), F.INIT), v, Worker(InFiber(f), None, F.INIT)).(
      fibers := map[f := F.EXEC], hollow := {f}, active := 1 + code.extra)
  }

  lemma BothCallingIsReached(code: Code, w: nat, v: nat, f: nat, c: nat, acts: seq<Action>, s: State)
    requires w != v && Runs(code, BothCalling(w, v, f, c), acts, s)
    ensures Runs(code, Start({w, v}), [Schedule(CallTask(c), None)] + ([TurnOf(w, f)] + acts), s)
  {
    hide Runs;
    assert Start({w, v}) == Two(w, FRESH, v, FRESH);
    var s1 := Two(w, FRESH, v, FRESH).(queue := [Entry(CallTask(c), None)]);
    assert Turn(code, s1, w, f) == Ran(BothCalling(w, v, f, c)) by { TakesTheOnlyEntry(code, s1, w, f, s1.queue[0]); }
    hide Turn, BothCalling;
    RunsStep(code, s1, TurnOf(w, f), BothCalling(w, v, f, c), acts, s);
    RunsStep(code, Start({w, v}), Schedule(CallTask(c), None), s1, [TurnOf(w, f)] + acts, s);
  }

  lemma StaleIsReached(code: Code, w: nat, v: nat, f: nat, c: nat, acts: seq<Action>, s: State)
    requires w != v && Runs(code, Stale(w, v, f), acts, s)
    ensures Runs(code, BothCalling(w, v, f, c), [Schedule(FiberTask(f), None)] + ([BackTo(w, F.TERM)] + acts), s)
  {
    hide Runs;
    var s3 := BothCalling(w, v, f, c).(queue := [Entry(FiberTask(f), None)]);
    RunsStep(code, s3, BackTo(w, F.TERM), Stale(w, v, f), acts, s);
    RunsStep(code, BothCalling(w, v, f, c), Schedule(FiberTask(f), None), s3, [BackTo(w, F.TERM)] + acts, s);
  }

  lemma InsideIsReached(code: Code, w: nat, v: nat, f: nat, acts: seq<Action>, s: State)
    requires w != v && Runs(code, Inside(code, w, v, f), acts, s)
    ensures Runs(code, Stale(w, v, f), [TurnOf(v, f + 1)] + acts, s)
  {
    hide Runs;
    var s4 := Stale(w, v, f);
    assert Turn(code, s4, v, f + 1) == Ran(Inside(code, w, v, f)) by {
      TakesTheOnlyEntry(code, s4, v, f + 1, s4.queue[0]);
    }
    hide Turn, Inside;
    RunsStep(code, s4, TurnOf(v, f + 1), Inside(code, w, v, f), acts, s);
  }

  lemma InsideStops(code: Code, w: nat, v: nat, f: nat, c: nat) returns (s: State)
    requires w != v
    ensures Runs(code, Inside(code, w, v, f), [Schedule(CallTask(c), None)] + [], s)
    ensures Enabled(s, TurnOf(w, f + 1)) && Turn(code, s, w, f + 1) == Aborted(107)
  {
    hide Runs;
    s := Inside(code, w, v, f).(queue := [Entry(CallTask(c), None)]);
    assert Turn(code, s, w, f + 1) == Aborted(107) by { TakesTheOnlyEntry(code, s, w, f + 1, s.queue[0]); }
    hide Turn;
    RunsNone(code, s);
    RunsStep(code, Inside(code, w, v, f), Schedule(CallTask(c), None), s, [], s);
  }

  /** A complete run of two workers to the failing reset. */
  lemma StaleHandleExample(code: Code, w: nat, v: nat, f: nat, c: nat) returns (s: State)
    requires w != v
    ensures Runs(code, Start({w, v}),
      [Schedule(CallTask(c), None), TurnOf(w, f), Schedule(FiberTask(f), None), BackTo(w, F.TERM),
       TurnOf(v, f + 1), Schedule(CallTask(c), None)], s)
    ensures Enabled(s, TurnOf(w, f + 1)) && Turn(code, s, w, f + 1) == Aborted(107)
  {
    hide Runs, Turn, Enabled, Stale, BothCalling, Inside;
    s := InsideStops(code, w, v, f, c);
    var end := [Schedule(CallTask(c), None)] + [];
    InsideIsReached(code, w, v, f, end, s);
    var last := [TurnOf(v, f + 1)] + end;
    StaleIsReached(code, w, v, f, c, last, s);
    var rest := [Schedule(FiberTask(f), None)] + ([BackTo(w, F.TERM)] + last);
    BothCallingIsReached(code, w, v, f, c, rest, s);
    assert [Schedule(CallTask(c), None)] + ([TurnOf(w, f)] + rest)
      == [Schedule(CallTask(c), None), TurnOf(w, f), Schedule(FiberTask(f), None), BackTo(w, F.TERM),
          TurnOf(v, f + 1), Schedule(CallTask(c), None)];
  }

  /** One worker that runs callback `c` in fiber `f`. */
  function Calling(w: nat, f: nat, c: nat): State {
    Start({w}).(fibers := map[f := F.EXEC], active := 1, workers := map[w := Worker(InCallback(f, c), Some(f), F.INIT)])
  }

  lemma CallingIsReached(code: Code, w: nat, f: nat, c: nat, acts: seq<Action>, s: State)
    requires Runs(code, Calling(w, f, c), acts, s)
    ensures Runs(code, Start({w}), [Schedule(CallTask(c), None)] + ([TurnOf(w, f)] + acts), s)
  {
    hide Runs;
    var s1 := Start({w}).(queue := [Entry(CallTask(c), None)]);
    assert Turn(code, s1, w, f) == Ran(Calling(w, f, c)) by { TakesTheOnlyEntry(code, s1, w, f, s1.queue[0]); }
    hide Turn, Calling;
    RunsStep(code, s1, TurnOf(w, f), Calling(w, f, c), acts, s);
    RunsStep(code, Start({w}), Schedule(CallTask(c), None), s1, [TurnOf(w, f)] + acts, s);
  }

  /**
   * A callback that yields to READY is for a moment neither counted nor queued: stopping()
   * holds although its worker is about to re-enqueue the fiber.
   */
  lemma YieldedIsOverlookedExample(code: Code, w: nat, f: nat, c: nat) returns (s: State)
    ensures Runs(code, Start({w}), [Schedule(CallTask(c), None), TurnOf(w, f), Stop, BackTo(w, F.READY)], s)
    ensures Stopping(s) && s.workers == map[w := Worker(Requeueing(f), None, F.INIT)] && s.fibers == map[f := F.READY]
  {
    hide Runs;
    var s2 := Calling(w, f, c);
    var s3 := s2.(autoStop := true, stopping := true);
    s := s3.(fibers := map[f := F.READY], active := 0, workers := map[w := Worker(Requeueing(f), None, F.INIT)]);
    RunsNone(code, s);
    RunsStep(code, s3, BackTo(w, F.READY), s, [], s);
    RunsStep(code, s2, Stop, s3, [BackTo(w, F.READY)] + [], s);
    CallingIsReached(code, w, f, c, [Stop] + ([BackTo(w, F.READY)] + []), s);
    assert [Schedule(CallTask(c), None)] + ([TurnOf(w, f)] + ([Stop] + ([BackTo(w, F.READY)] + [])))
      == [Schedule(CallTask(c), None), TurnOf(w, f), Stop, BackTo(w, F.READY)];
  }

  lemma StartIsPrepared(threads: set<nat>)
    ensures Prepared(Start(threads)) && Hollowed(Start(threads))
  {
  }
}
