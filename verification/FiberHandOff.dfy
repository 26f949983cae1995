/**
 * One fiber between workers, write by write (duan_src/scheduler.cc, duan_src/fiber.cc): taking
 * the queue entry, entering, writing the state, leaving the stack and settling are steps of
 * their own, so other workers and wake-ups come in between.
 */
module FiberHandOff {
  import opened F = FiberModel

  /**
   * What a worker does with the fiber. Yielding is after the write to m_state and before
   * swapcontext has left the fiber's stack; Settling is before lines 203-208.
   */
  datatype Phase = Off | Taken | OnStack | Yielding | Settling

  datatype State = State(state: FiberState, entries: nat, workers: map<nat, Phase>)

  datatype Write =
    | Wake
    | Take(w: nat)
    | Enter(w: nat)
    | WriteState(w: nat, how: FiberState)
    | LeaveStack(w: nat)
    | Settle(w: nat)

  /** A step runs, or the assertion at line 140 or 236 of fiber.cc fails. */
  datatype Result = Ran(s: State) | Aborted(line: nat)

  predicate Ends(state: FiberState) {
    state.TERM? || state.EXCEPT?
  }

  predicate Possible(s: State, a: Write) {
    match a
    case Wake => true
    case Take(w) => w in s.workers && s.workers[w].Off? && s.entries > 0 && s.state != EXEC
    case Enter(w) => w in s.workers && s.workers[w].Taken?
    case WriteState(w, how) => w in s.workers && s.workers[w].OnStack? && how != INIT && how != EXEC
    case LeaveStack(w) => w in s.workers && s.workers[w].Yielding?
    case Settle(w) => w in s.workers && s.workers[w].Settling?
  }

  function Perform(s: State, a: Write): Result
    requires Possible(s, a)
  {
    match a
    case Wake => Ran(s.(entries := s.entries + 1))
    case Take(w) => Ran(s.(entries := s.entries - 1, workers := s.workers[w := Taken]))
    case Enter(w) =>
      if s.state == EXEC then Aborted(140)
      else if Ends(s.state) then Aborted(236)
      else Ran(s.(state := EXEC, workers := s.workers[w := OnStack]))
    case WriteState(w, how) => Ran(s.(state := how, workers := s.workers[w := Yielding]))
    case LeaveStack(w) => Ran(s.(workers := s.workers[w := Settling]))
    case Settle(w) =>
      if s.state == READY then Ran(s.(entries := s.entries + 1, workers := s.workers[w := Off]))
      else if Ends(s.state) then Ran(s.(workers := s.workers[w := Off]))
      else Ran(s.(state := HOLD, workers := s.workers[w := Off]))
  }

  /** No two workers are on the fiber's stack. */
  ghost predicate OneStack(s: State) {
    forall v, w :: v in s.workers && w in s.workers && UsesStack(s.workers[v]) && UsesStack(s.workers[w]) ==> v == w
  }

  predicate UsesStack(p: Phase) {
    p.OnStack? || p.Yielding?
  }

  /** Nobody has the fiber and no entry names it. */
  ghost predicate Parked(s: State) {
    s.entries == 0 && (forall w :: w in s.workers ==> s.workers[w].Off?)
  }

  /** One entry or one worker has the fiber, and m_state says which. */
  ghost predicate OneToken(s: State) {
    && s.entries <= 1
    && (forall w :: w in s.workers && !s.workers[w].Off? ==> s.entries == 0)
    && (forall v, w :: v in s.workers && w in s.workers && !s.workers[v].Off? && !s.workers[w].Off? ==> v == w)
    && (s.state == EXEC <==> exists w :: w in s.workers && s.workers[w].OnStack?)
  }

  /** A wake-up comes only for a parked fiber. */
  ghost predicate Timely(s: State, a: Write) {
    a.Wake? ==> Parked(s)
  }

  /** A fiber that has ended is not waiting to be entered. */
  ghost predicate EndedIsOver(s: State) {
    Ends(s.state) ==> s.entries == 0 && forall w :: w in s.workers ==> !s.workers[w].Taken?
  }

  /**
   * A write that gets through keeps the one token exactly when it is no wake-up or the fiber
   * is parked; and with one token only the end of MainFunc can stop the process, when an
   * ended fiber is entered.
   */
  lemma OneTokenIff(s: State, a: Write)
    requires OneToken(s) && Possible(s, a)
    ensures Perform(s, a).Ran? ==> (OneToken(Perform(s, a).s) <==> Timely(s, a))
    ensures Perform(s, a).Aborted? <==> a.Enter? && Ends(s.state)
    ensures Perform(s, a).Aborted? ==> Perform(s, a).line == 236
  {
    var r := Perform(s, a);
    if a.Wake? {
      assert r.s.workers == s.workers;
    } else {
      assert !a.Take? ==> forall v :: v in s.workers && v != a.w ==> s.workers[v].Off?;
      assert a.Enter? && r.Ran? ==> r.s.workers[a.w].OnStack?;
    }
  }

  /** Line 236 stays out of reach exactly while no wake-up comes for an ended fiber. */
  lemma EndedIsOverIff(s: State, a: Write)
    requires OneToken(s) && EndedIsOver(s) && Possible(s, a)
    ensures Perform(s, a).Ran?
    ensures EndedIsOver(Perform(s, a).s) <==> (a.Wake? ==> !Ends(s.state))
  {
    OneTokenIff(s, a);
  }

  ghost predicate Runs(s0: State, acts: seq<Write>, s: State)
    decreases |acts|
  {
    if acts == [] then s == s0
    else Possible(s0, acts[0]) && var r := Perform(s0, acts[0]); r.Ran? && Runs(r.s, acts[1..], s)
  }

  ghost predicate AllTimely(s: State, acts: seq<Write>)
    decreases |acts|
  {
    acts == [] || (Possible(s, acts[0]) && Timely(s, acts[0])
      && var r := Perform(s, acts[0]); r.Ran? ==> AllTimely(r.s, acts[1..]))
  }

  /**
   * As long as every wake-up is for a parked fiber, single writes of any workers may
   * interleave: nobody shares a stack, the assertion of swapIn never fails, and line 236 is
   * reached exactly by entering a fiber that has ended.
   */
  lemma {:induction false} TimelyWakesAreSafe(s0: State, acts: seq<Write>, s: State, next: Write)
    requires OneToken(s0) && Runs(s0, acts, s) && AllTimely(s0, acts)
    ensures OneToken(s) && OneStack(s)
    ensures Possible(s, next) ==> (Perform(s, next).Aborted? <==> next.Enter? && Ends(s.state))
    ensures Possible(s, next) ==> Perform(s, next) != Aborted(140)
    decreases |acts|
  {
    if acts == [] {
      if Possible(s, next) { OneTokenIff(s, next); }
    } else {
      OneTokenIff(s0, acts[0]);
      TimelyWakesAreSafe(Perform(s0, acts[0]).s, acts[1..], s, next);
    }
  }

  ghost predicate AllTimelyAndLive(s: State, acts: seq<Write>)
    decreases |acts|
  {
    acts == [] || (Possible(s, acts[0]) && Timely(s, acts[0]) && (acts[0].Wake? ==> !Ends(s.state))
      && var r := Perform(s, acts[0]); r.Ran? ==> AllTimelyAndLive(r.s, acts[1..]))
  }

  /** If moreover no wake-up is for an ended fiber, no write of any worker stops the process. */
  lemma {:induction false} LiveWakesNeverStop(s0: State, acts: seq<Write>, s: State, next: Write)
    requires OneToken(s0) && EndedIsOver(s0) && Runs(s0, acts, s) && AllTimelyAndLive(s0, acts)
    ensures OneToken(s) && EndedIsOver(s)
    ensures Possible(s, next) ==> Perform(s, next).Ran?
    decreases |acts|
  {
    if acts == [] {
      if Possible(s, next) { EndedIsOverIff(s, next); }
    } else {
      OneTokenIff(s0, acts[0]);
      EndedIsOverIff(s0, acts[0]);
      LiveWakesNeverStop(Perform(s0, acts[0]).s, acts[1..], s, next);
    }
  }

  /** A READY fiber is queued, or somebody has it. */
  ghost predicate ReadyIsQueued(s: State) {
    s.state == READY ==> s.entries > 0 || exists w :: w in s.workers && !s.workers[w].Off?
  }

  /**
   * Over every run, untimely wake-ups included: a READY fiber that no worker has is queued, and
   * a fiber that was ever entered is never INIT again.
   */
  lemma {:induction false} ReadyStaysQueued(s0: State, acts: seq<Write>, s: State)
    requires ReadyIsQueued(s0) && Runs(s0, acts, s)
    ensures s.state == READY && (forall w :: w in s.workers ==> s.workers[w].Off?) ==> s.entries > 0
    ensures s0.state != INIT ==> s.state != INIT
    decreases |acts|
  {
    if acts != [] {
      var s1 := Perform(s0, acts[0]).s;
      assert ReadyIsQueued(s1) by {
        if !acts[0].Wake? && !acts[0].Settle? { assert !s1.workers[acts[0].w].Off?; }
        if acts[0].Wake? { assert s1.entries > 0; }
      }
      ReadyStaysQueued(s1, acts[1..], s);
    }
  }

  /** A fiber that has ended stays as it ended, over every run with timely wake-ups. */
  lemma {:induction false} EndedStaysEnded(s0: State, acts: seq<Write>, s: State)
    requires OneToken(s0) && Ends(s0.state) && Runs(s0, acts, s) && AllTimely(s0, acts)
    ensures s.state == s0.state
    decreases |acts|
  {
    if acts != [] {
      OneTokenIff(s0, acts[0]);
      assert Perform(s0, acts[0]).s.state == s0.state;
      EndedStaysEnded(Perform(s0, acts[0]).s, acts[1..], s);
    }
  }

  /** A wake-up for a fiber that has ended stops the worker that takes it at line 236. */
  lemma EndedWakeStops(s: State, w: nat) returns (s': State)
    requires Parked(s) && Ends(s.state) && w in s.workers
    ensures Runs(s, [Wake, Take(w)], s') && Possible(s', Enter(w)) && Perform(s', Enter(w)) == Aborted(236)
  {
    var s1 := s.(entries := 1);
    s' := s.(workers := s.workers[w := Taken]);
    assert Runs(s', [], s');
    assert Runs(s1, [Take(w)], s');
  }

  /**
   * A wake-up while the fiber still runs, as when the event it is about to wait for has
   * already come, lets a second worker onto the stack between the write to m_state and swapcontext.
   */
  lemma EarlyWakeSharesTheStack(s: State, w: nat, v: nat) returns (s': State)
    requires OneToken(s) && w in s.workers && s.workers[w].OnStack? && v in s.workers && v != w
    ensures Runs(s, [Wake, WriteState(w, HOLD), Take(v), Enter(v)], s') && !OneStack(s')
  {
    assert s.workers[v].Off?;
    var s1 := s.(entries := s.entries + 1);
    var s2 := s1.(state := HOLD, workers := s.workers[w := Yielding]);
    var s3 := s2.(entries := s.entries, workers := s2.workers[v := Taken]);
    s' := s3.(state := EXEC, workers := s3.workers[v := OnStack]);
    assert Runs(s', [], s');
    assert Runs(s3, [Enter(v)], s');
    assert Runs(s2, [Take(v), Enter(v)], s');
    assert Runs(s1, [WriteState(w, HOLD), Take(v), Enter(v)], s');
    assert UsesStack(s'.workers[w]) && UsesStack(s'.workers[v]);
  }

  /** Two entries for a waiting fiber let two workers take it before either enters. */
  lemma DuplicateEntriesStop(s: State, w: nat, v: nat) returns (s': State)
    requires Parked(s) && s.state == HOLD && w in s.workers && v in s.workers && v != w
    ensures Runs(s, [Wake, Wake, Take(w), Take(v), Enter(w)], s')
    ensures Possible(s', Enter(v)) && Perform(s', Enter(v)) == Aborted(140)
  {
    var s1 := s.(entries := 1);
    var s2 := s.(entries := 2);
    var s3 := s1.(workers := s.workers[w := Taken]);
    var s4 := s.(workers := s3.workers[v := Taken]);
    s' := s4.(state := EXEC, workers := s4.workers[w := OnStack]);
    assert Runs(s', [], s');
    assert Runs(s4, [Enter(w)], s');
    assert Runs(s3, [Take(v), Enter(w)], s');
    assert Runs(s2, [Take(w), Take(v), Enter(w)], s');
    assert Runs(s1, [Wake, Take(w), Take(v), Enter(w)], s');
  }
}
