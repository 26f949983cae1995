/**
 * Whole runs of the timer manager: any interleaving of its lock regions, with a record of
 * what was emitted, cancelled, re-anchored and notified along the way.
 */
module TimerRuns {
  import opened Common
  import opened TimerModel

  /** Expire is listExpiredCb from its second lock on; an early return under the first changes nothing. */
  datatype Op =
    | Add(a: nat, ms: Word, cb: Option<nat>, recurring: bool, now: Word)
    | CancelOp(a: nat)
    | RefreshOp(a: nat, now: Word)
    | ResetOp(a: nat, ms: Word, fromNow: bool, now: Word)
    | GetNext(now: Word)
    | Expire(now: Word, probe: nat)

  /** One callback handed out by listExpiredCb; `since` is the log length when the timer was last touched. */
  datatype Emission = Emission(a: nat, cb: Option<nat>, at: Word, deadline: Word, ms: Word, rollover: bool, since: nat)

  /**
   * State plus history: callbacks at creation, last anchor and last touch of every timer,
   * latest clock reading, minimum seen by the last getNextTimer (2^64 when the set was empty),
   * front notifications and front insertions since then, emissions, successful cancels.
   */
  datatype History = History(
    s: State,
    born: map<nat, Option<nat>>,
    anchor: map<nat, Word>,
    touched: map<nat, nat>,
    clock: Word,
    horizon: nat,
    notified: nat,
    tookFront: bool,
    log: seq<Emission>,
    cancelledAt: map<nat, nat>)

  function Start(now: Word): History {
    History(State(map[], [], false, now), map[], map[], map[], now, TWO_TO_THE_64, 0, false, [], map[])
  }

  /** Timers exist; and an expiry gets past line 158. */
  predicate Enabled(h: History, op: Op) {
    match op
    case Add(a, _, _, _, _) => a !in h.s.timers
    case CancelOp(a) => a in h.s.timers
    case RefreshOp(a, _) => a in h.s.timers
    case ResetOp(a, _, _, _) => a in h.s.timers
    case GetNext(_) => true
    case Expire(now, _) => h.s.order != [] || Rollover(h.s.previous, now)
  }

  function Max(a: Word, b: Word): Word {
    if a < b then b else a
  }

  function CbIn(ts: Timers, a: nat): Option<nat> {
    if a in ts then ts[a].cb else None
  }

  function Emitted(h: History, fired: seq<nat>, now: Word, rollover: bool): (r: seq<Emission>)
    requires forall a :: a in fired ==> a in h.s.timers && a in h.touched
    ensures |r| == |fired|
  {
    seq(|fired|, i requires 0 <= i < |fired| =>
      assert fired[i] in fired;
      var t := h.s.timers[fired[i]];
      Emission(fired[i], t.cb, now, t.next, t.ms, rollover, h.touched[fired[i]]))
  }

  /** The timers in the set. */
  function Live(h: History): set<nat> {
    set a | a in h.s.order
  }

  /** What every run keeps without any condition on clocks or periods. */
  ghost predicate Sound(h: History) {
    && Valid(h.s, h.born)
    && h.anchor.Keys == h.touched.Keys == h.s.timers.Keys
    && h.cancelledAt.Keys <= h.s.timers.Keys
    && (forall e <- h.log :: e.a in h.s.timers)
  }

  lemma FiredFacts(h: History, now: Word, probe: nat)
    requires Sound(h)
    ensures var r := Collected(h.s, now, probe);
      && r.fired <= h.s.order
      && (forall i, j :: 0 <= i < j < |r.fired| ==> r.fired[i] != r.fired[j])
      && (forall a :: a in r.fired ==> a in h.s.order && a in h.s.timers && (r.rollover || h.s.timers[a].next <= now))
  {
    var r := Collected(h.s, now, probe);
    CollectedEffect(h.s, now, probe);
    if h.s.order != [] { DueMembers(h.s.timers, h.s.order, now); }
    forall i, j | 0 <= i < j < |r.fired| ensures r.fired[i] != r.fired[j] {
      assert KeyLess(KeyOf(h.s.timers, h.s.order[i]), KeyOf(h.s.timers, h.s.order[j]));
    }
  }

  ghost function AddStep(h: History, a: nat, ms: Word, cb: Option<nat>, recurring: bool, now: Word): History
    requires Sound(h) && a !in h.s.timers
  {
    var (s, front) := AddTimer(h.s, a, ms, cb, recurring, now);
    h.(s := s, born := h.born[a := cb], anchor := h.anchor[a := now], touched := h.touched[a := |h.log|],
       clock := Max(h.clock, now), notified := h.notified + (if front then 1 else 0),
       tookFront := h.tookFront || (s.order != [] && s.order[0] == a))
  }

  ghost function CancelStep(h: History, a: nat): History
    requires Sound(h) && a in h.s.timers
  {
    var (s, ok) := Cancel(h.s, a, h.born);
    h.(s := s, cancelledAt := if ok then h.cancelledAt[a := |h.log|] else h.cancelledAt)
  }

  ghost function RefreshStep(h: History, a: nat, now: Word): History
    requires Sound(h) && a in h.s.timers
  {
    var (s, ok) := Refresh(h.s, a, now);
    if ok then
      h.(s := s, anchor := h.anchor[a := now], touched := h.touched[a := |h.log|], clock := Max(h.clock, now))
    else h.(s := s)
  }

  ghost function ResetStep(h: History, a: nat, ms: Word, fromNow: bool, now: Word): History
    requires Sound(h) && a in h.s.timers
  {
    var (s, ok, front) := Reset(h.s, a, ms, fromNow, now);
    if (ms != h.s.timers[a].ms || fromNow) && ok then
      h.(s := s, anchor := if fromNow then h.anchor[a := now] else h.anchor, touched := h.touched[a := |h.log|],
         clock := if fromNow then Max(h.clock, now) else h.clock,
         notified := h.notified + (if front then 1 else 0),
         tookFront := h.tookFront || (s.order != [] && s.order[0] == a))
    else h.(s := s)
  }

  ghost function GetNextStep(h: History, now: Word): History
    requires Sound(h)
  {
    h.(s := GetNextTimer(h.s, now).0, notified := 0, tookFront := false,
       horizon := if h.s.order == [] then TWO_TO_THE_64 else h.s.timers[h.s.order[0]].next)
  }

  ghost function ExpireStep(h: History, now: Word, probe: nat): History
    requires Sound(h)
  {
    var r := Collected(h.s, now, probe);
    FiredFacts(h, now, probe);
    h.(s := r.s, clock := Max(h.clock, now),
       anchor := map a | a in h.anchor :: if a in r.fired && h.s.timers[a].recurring then now else h.anchor[a],
       log := h.log + Emitted(h, r.fired, now, r.rollover))
  }

  ghost function Step(h: History, op: Op): History
    requires Sound(h) && Enabled(h, op)
  {
    match op
    case Add(a, ms, cb, recurring, now) => AddStep(h, a, ms, cb, recurring, now)
    case CancelOp(a) => CancelStep(h, a)
    case RefreshOp(a, now) => RefreshStep(h, a, now)
    case ResetOp(a, ms, fromNow, now) => ResetStep(h, a, ms, fromNow, now)
    case GetNext(now) => GetNextStep(h, now)
    case Expire(now, probe) => ExpireStep(h, now, probe)
  }

  // Each step, reduced to what the invariants below look at.

  /** Timer `a` was put into the set as `t`, new or moved. */
  ghost predicate Put(h: History, h': History, a: nat, t: Timer, anchor: Word) {
    && Sound(h')
    && h'.s.timers == h.s.timers[a := t]
    && Live(h') == Live(h) + {a}
    && h'.anchor == h.anchor[a := anchor]
    && h'.touched == h.touched[a := |h.log|]
    && h'.born.Keys == h.born.Keys + {a} && (forall b :: b in h.born ==> h'.born[b] == h.born[b])
    && h'.log == h.log && h'.cancelledAt == h.cancelledAt && h'.horizon == h.horizon
    && h'.clock >= h.clock
  }

  /** It was addTimer that put it there: the front test decides on the notification. */
  ghost predicate Announced(h: History, h': History, a: nat) {
    && h'.s.order != []
    && var front := h'.s.order[0] == a;
    && h'.s.tickled == (h.s.tickled || front)
    && h'.tookFront == (h.tookFront || front)
    && h'.notified == h.notified + if front && !h.s.tickled then 1 else 0
  }

  /** Timer `a` was re-anchored inside the set, without the front test. */
  ghost predicate Rekeyed(h: History, h': History, a: nat, now: Word) {
    && Sound(h') && a in Live(h) && a in h.s.timers
    && h'.s.timers == h.s.timers[a := h.s.timers[a].(next := Add64(now, h.s.timers[a].ms))]
    && Live(h') == Live(h)
    && h'.s.tickled == h.s.tickled
    && h' == h.(s := h'.s, anchor := h.anchor[a := now], touched := h.touched[a := |h.log|], clock := Max(h.clock, now))
  }

  /** Timer `a` was taken out of the set for good. */
  ghost predicate Dropped(h: History, h': History, a: nat) {
    && Sound(h') && a in Live(h) && a in h.s.timers
    && h'.s.timers == h.s.timers[a := h.s.timers[a].(cb := None)]
    && Live(h') == Live(h) - {a}
    && h'.s.tickled == h.s.tickled
    && h' == h.(s := h'.s, cancelledAt := h.cancelledAt[a := |h.log|])
  }

  /** The operation returned false, or reset had nothing to change. */
  predicate Refused(h: History, op: Op)
    requires Enabled(h, op)
  {
    match op
    case CancelOp(a) => h.s.timers[a].cb.None?
    case RefreshOp(a, _) => h.s.timers[a].cb.None?
    case ResetOp(a, ms, fromNow, _) => h.s.timers[a].cb.None? || (ms == h.s.timers[a].ms && !fromNow)
    case _ => false
  }

  lemma LiveHasCallback(h: History, a: nat)
    requires Sound(h) && a in h.s.timers && h.s.timers[a].cb.Some?
    ensures a in Live(h) && a in h.s.order && h.born[a].Some?
  {
  }

  lemma SoundAfter(h: History, h': History)
    requires Sound(h) && Valid(h'.s, h'.born)
    requires h'.anchor.Keys == h'.touched.Keys == h'.s.timers.Keys
    requires h.s.timers.Keys <= h'.s.timers.Keys && h'.log == h.log && h'.cancelledAt == h.cancelledAt
    ensures Sound(h')
  {
    hide Valid;
    assert forall e <- h'.log :: e in h.log;
  }

  lemma OneMoreLive(h: History, h': History, a: nat)
    requires forall b :: b in h'.s.order <==> b in h.s.order || b == a
    ensures Live(h') == Live(h) + {a}
  {
  }

  lemma AddPuts(h: History, op: Op)
    requires Sound(h) && Enabled(h, op) && op.Add?
    ensures var h' := Step(h, op);
      Put(h, h', op.a, Timer(op.recurring, op.ms, Add64(op.now, op.ms), op.cb), op.now) && op.now <= h'.clock
  {
    hide AddTimer, Sorted, Add64, Live, Sound;
    AddIsSound(h, op);
    AddTimerEffect(h.s, op.a, op.ms, op.cb, op.recurring, op.now, h.born);
    OneMoreLive(h, Step(h, op), op.a);
  }

  lemma AddIsSound(h: History, op: Op)
    requires Sound(h) && Enabled(h, op) && op.Add?
    ensures Sound(Step(h, op)) && Valid(h.s, h.born)
  {
    hide AddTimer, Sorted, Add64;
    AddTimerValid(h.s, op.a, op.ms, op.cb, op.recurring, op.now, h.born);
    AddTimerEffect(h.s, op.a, op.ms, op.cb, op.recurring, op.now, h.born);
    hide Valid;
    SoundAfter(h, Step(h, op));
  }

  lemma AddAnnounces(h: History, op: Op)
    requires Sound(h) && Enabled(h, op) && op.Add?
    ensures Announced(h, Step(h, op), op.a)
  {
    hide AddTimer, Sorted, Add64;
    AddTimerEffect(h.s, op.a, op.ms, op.cb, op.recurring, op.now, h.born);
    hide Sound, Live, Valid;
  }

  /** The timer and the anchor a successful reset leaves behind. */
  function ResetTimer(t: Timer, op: Op): Timer
    requires op.ResetOp?
  {
    t.(ms := op.ms, next := Add64(if op.fromNow then op.now else Sub64(t.next, t.ms), op.ms))
  }

  function ResetAnchor(h: History, op: Op): Word
    requires op.ResetOp? && op.a in h.anchor
  {
    if op.fromNow then op.now else h.anchor[op.a]
  }

  lemma ResetPuts(h: History, op: Op)
    requires Sound(h) && Enabled(h, op) && op.ResetOp? && !Refused(h, op)
    ensures var h' := Step(h, op);
      && op.a in h.anchor && op.a in Live(h)
      && Put(h, h', op.a, ResetTimer(h.s.timers[op.a], op), ResetAnchor(h, op))
      && (op.fromNow ==> op.now <= h'.clock)
  {
    hide Step, ResetTimer, Sound, Live, Refused;
    ResetMoves(h, op);
    assert h.anchor[op.a := h.anchor[op.a]] == h.anchor;
    assert h.born.Keys + {op.a} == h.born.Keys;
  }

  lemma ResetMoves(h: History, op: Op)
    requires Sound(h) && Enabled(h, op) && op.ResetOp? && !Refused(h, op)
    ensures var h' := Step(h, op);
      && Sound(h') && op.a in h.anchor && op.a in Live(h) && Live(h') == Live(h) + {op.a}
      && op.a in h.born && h'.s.timers == h.s.timers[op.a := ResetTimer(h.s.timers[op.a], op)]
      && h' == h.(s := h'.s,
           anchor := if op.fromNow then h.anchor[op.a := op.now] else h.anchor,
           touched := h.touched[op.a := |h.log|],
           clock := if op.fromNow then Max(h.clock, op.now) else h.clock,
           notified := h'.notified, tookFront := h'.tookFront)
  {
    hide Reset, Sorted, Add64, Sub64;
    LiveHasCallback(h, op.a);
    ResetValid(h.s, op.a, op.ms, op.fromNow, op.now, h.born);
    var h' := Step(h, op);
    assert Live(h') == Live(h) + {op.a};
    hide Live, Valid;
    SoundAfter(h, h');
    hide Sound;
  }

  lemma ResetAnnounces(h: History, op: Op)
    requires Sound(h) && Enabled(h, op) && op.ResetOp? && !Refused(h, op)
    ensures Announced(h, Step(h, op), op.a)
  {
    hide Reset, Sorted, Add64, Sub64;
    LiveHasCallback(h, op.a);
    ResetValid(h.s, op.a, op.ms, op.fromNow, op.now, h.born);
    ResetFront(h.s, op.a, op.ms, op.fromNow, op.now, h.born);
    hide Sound, Live, Valid;
  }

  lemma RefreshRekeys(h: History, op: Op)
    requires Sound(h) && Enabled(h, op) && op.RefreshOp? && !Refused(h, op)
    ensures Rekeyed(h, Step(h, op), op.a, op.now)
  {
    hide Refresh, Sorted, Add64;
    LiveHasCallback(h, op.a);
    RefreshValid(h.s, op.a, op.now, h.born);
    var h' := Step(h, op);
    assert Live(h') == Live(h);
    hide Live, Valid;
    SoundAfter(h, h');
    hide Sound;
  }

  lemma CancelDrops(h: History, op: Op)
    requires Sound(h) && Enabled(h, op) && op.CancelOp? && !Refused(h, op)
    ensures Dropped(h, Step(h, op), op.a)
  {
    LiveHasCallback(h, op.a);
    CancelValid(h.s, op.a, h.born);
    hide Cancel, Sorted, Valid;
  }

  lemma RefusalChangesNothing(h: History, op: Op)
    requires Sound(h) && Enabled(h, op) && Refused(h, op)
    ensures Step(h, op) == h
  {
  }

  lemma GetNextKeeps(h: History, now: Word)
    requires Sound(h)
    ensures var h' := Step(h, GetNext(now));
      && Sound(h') && Live(h') == Live(h) && h'.s == h.s.(tickled := false)
      && h' == h.(s := h'.s, notified := 0, tookFront := false, horizon := h'.horizon)
      && (h.s.order != [] ==> h.s.order[0] in Live(h) && h'.horizon == h.s.timers[h.s.order[0]].next)
      && (h.s.order == [] ==> h'.horizon == TWO_TO_THE_64 && Live(h) == {})
  {
    assert Live(Step(h, GetNext(now))) == Live(h);
  }

  /** The timers an expiry fires. */
  ghost function FiredBy(h: History, now: Word, probe: nat): set<nat>
    requires Sound(h)
  {
    set a | a in Collected(h.s, now, probe).fired
  }

  /** What an expiry appends to the log. */
  ghost function NewLog(h: History, now: Word, probe: nat): seq<Emission>
    requires Sound(h)
  {
    FiredFacts(h, now, probe);
    var r := Collected(h.s, now, probe);
    Emitted(h, r.fired, now, r.rollover)
  }

  /** One entry for every fired timer, in any case with the timer's own data. */
  ghost predicate Entries(h: History, batch: seq<Emission>, fired: set<nat>, now: Word, rollover: bool) {
    && (forall i :: 0 <= i < |batch| ==>
          && batch[i].a in fired && batch[i].a in h.s.timers && batch[i].a in h.touched
          && var t := h.s.timers[batch[i].a];
             batch[i] == Emission(batch[i].a, t.cb, now, t.next, t.ms, rollover, h.touched[batch[i].a]))
    && (forall i, j :: 0 <= i < j < |batch| ==> batch[i].a != batch[j].a)
    && (forall a :: a in fired ==> exists i :: 0 <= i < |batch| && batch[i].a == a)
  }

  lemma ExpireLog(h: History, now: Word, probe: nat)
    requires Sound(h)
    ensures ExpireStep(h, now, probe).log == h.log + NewLog(h, now, probe)
    ensures Entries(h, NewLog(h, now, probe), FiredBy(h, now, probe), now, Rollover(h.s.previous, now))
  {
    FiredFacts(h, now, probe);
    CollectedEffect(h.s, now, probe);
    EmittedEntries(h, Collected(h.s, now, probe).fired, now, Collected(h.s, now, probe).rollover);
  }

  lemma EmittedEntries(h: History, fired: seq<nat>, now: Word, rollover: bool)
    requires forall a :: a in fired ==> a in h.s.timers && a in h.touched
    requires forall i, j :: 0 <= i < j < |fired| ==> fired[i] != fired[j]
    ensures Entries(h, Emitted(h, fired, now, rollover), (set a | a in fired), now, rollover)
  {
    var batch := Emitted(h, fired, now, rollover);
    assert forall i :: 0 <= i < |fired| ==> fired[i] in fired && batch[i].a == fired[i];
    forall a | a in fired ensures exists i :: 0 <= i < |batch| && batch[i].a == a {
      var i :| 0 <= i < |fired| && fired[i] == a;
      assert batch[i].a == a;
    }
  }

  lemma ExpireKeepsSound(h: History, now: Word, probe: nat)
    requires Sound(h)
    ensures Sound(ExpireStep(h, now, probe))
  {
    CollectedEffect(h.s, now, probe);
    CollectedValid(h.s, now, probe, h.born);
    ExpireLog(h, now, probe);
    var h' := ExpireStep(h, now, probe);
    assert h'.s == Collected(h.s, now, probe).s && h'.anchor.Keys == h.anchor.Keys;
    hide Collected, ExpireStep, Valid, Rollover;
    forall e <- h'.log ensures e.a in h'.s.timers {
      if e !in h.log { assert e in NewLog(h, now, probe); }
    }
  }

  lemma ExpireEffect(h: History, now: Word, probe: nat)
    requires Sound(h)
    ensures var fired := FiredBy(h, now, probe);
      var h' := ExpireStep(h, now, probe);
      && Sound(h')
      && fired <= Live(h) <= h.s.timers.Keys
      && (!Rollover(h.s.previous, now) ==> forall a :: a in fired ==> h.s.timers[a].next <= now)
      && h'.s.timers.Keys == h'.anchor.Keys == h.s.timers.Keys
      && (forall a :: a in h.s.timers ==>
            && h'.s.timers[a] == (if a in fired then Fired(h.s.timers[a], now) else h.s.timers[a])
            && h'.anchor[a] == (if a in fired && h.s.timers[a].recurring then now else h.anchor[a])
            && (a in Live(h') <==> a in Live(h) && (a in fired ==> h.s.timers[a].recurring)))
      && Live(h') <= Live(h)
      && h'.s.tickled == h.s.tickled
      && h' == h.(s := h'.s, clock := Max(h.clock, now), anchor := h'.anchor, log := h'.log)
  {
    CollectedEffect(h.s, now, probe);
    ExpireKeepsSound(h, now, probe);
    FiredFacts(h, now, probe);
    var h' := ExpireStep(h, now, probe);
    var r := Collected(h.s, now, probe);
    assert h'.s == r.s && h'.anchor.Keys == h.anchor.Keys;
    assert forall a :: a in h.anchor ==>
      h'.anchor[a] == if a in r.fired && h.s.timers[a].recurring then now else h.anchor[a];
    hide Collected, ExpireStep;
  }

  lemma SoundFacts(h: History)
    requires Sound(h)
    ensures Live(h) <= h.s.timers.Keys == h.touched.Keys == h.anchor.Keys == h.born.Keys
    ensures forall e <- h.log :: e.a in h.s.timers
    ensures h.cancelledAt.Keys <= h.s.timers.Keys
  {
  }

  lemma StepSound(h: History, op: Op)
    requires Sound(h) && Enabled(h, op)
    ensures Sound(Step(h, op))
  {
    hide AddStep, CancelStep, RefreshStep, ResetStep, ExpireStep, GetNextStep, Sound;
    if Refused(h, op) {
      RefusalChangesNothing(h, op);
    } else {
      match op
      case Add(_, _, _, _, _) => AddPuts(h, op);
      case CancelOp(_) => CancelDrops(h, op);
      case RefreshOp(_, _) => RefreshRekeys(h, op);
      case ResetOp(_, _, _, _) => ResetPuts(h, op);
      case GetNext(now) => GetNextKeeps(h, now);
      case Expire(now, probe) => ExpireEffect(h, now, probe);
    }
  }

  /** `h` is reached from `h0` by `ops`, every step of which meets `side`. */
  ghost predicate Runs(side: (History, Op) -> bool, h0: History, ops: seq<Op>, h: History)
    requires Sound(h0)
    decreases |ops|
  {
    if ops == [] then h == h0
    else
      && Enabled(h0, ops[0]) && side(h0, ops[0])
      && (StepSound(h0, ops[0]); Runs(side, Step(h0, ops[0]), ops[1..], h))
  }

  predicate Always(h: History, op: Op) {
    true
  }

  /** No clock rollover is detected. */
  predicate Calm(h: History, op: Op) {
    op.Expire? ==> !Rollover(h.s.previous, op.now)
  }

  /** No deadline is carried past 2^64. */
  ghost predicate Fits(h: History, op: Op) {
    match op
    case Add(_, ms, _, _, now) => now + ms < TWO_TO_THE_64
    case RefreshOp(a, now) => a in h.s.timers ==> now + h.s.timers[a].ms < TWO_TO_THE_64
    case ResetOp(a, ms, fromNow, now) =>
      (if fromNow then now else if a in h.anchor then h.anchor[a] else 0) + ms < TWO_TO_THE_64
    case Expire(now, _) =>
      forall a :: a in h.s.timers && h.s.timers[a].recurring ==> now + h.s.timers[a].ms < TWO_TO_THE_64
    case _ => true
  }

  ghost predicate CalmAndFits(h: History, op: Op) {
    Calm(h, op) && Fits(h, op)
  }

  /** Moreover refresh, which reads the clock inside its lock, never reads behind an earlier reading. */
  ghost predicate Steady(h: History, op: Op) {
    Calm(h, op) && Fits(h, op) && (op.RefreshOp? ==> op.now >= h.clock)
  }

  // How the insertion at the front shows in the new order.

  lemma SubUndoesAdd(start: Word, ms: Word)
    ensures Sub64(Add64(start, ms), ms) == start
  {
  }

  lemma InsertFront(ts: Timers, order: seq<nat>, a: nat)
    requires Sorted(ts, order) && a in ts && a !in order
    ensures var (order', i) := Insert(ts, order, a); |order'| > 0 && (i == 0 <==> order'[0] == a)
  {
    InsertSorted(ts, order, a);
  }

  lemma AddTimerEffect(
      s: State, a: nat, ms: Word, cb: Option<nat>, recurring: bool, now: Word, born: map<nat, Option<nat>>)
    requires Valid(s, born) && a !in s.timers
    ensures var (s', front) := AddTimer(s, a, ms, cb, recurring, now);
      && s'.timers == s.timers[a := Timer(recurring, ms, Add64(now, ms), cb)]
      && (forall b :: b in s'.order <==> b in s.order || b == a)
      && Sorted(s'.timers, s'.order) && s'.order != []
      && front == (s'.order[0] == a && !s.tickled)
      && s'.tickled == (s.tickled || front)
  {
    var ts := s.timers[a := Timer(recurring, ms, Add64(now, ms), cb)];
    SortedFrame(s.timers, ts, s.order);
    InsertSorted(ts, s.order, a);
    InsertFront(ts, s.order, a);
  }

  lemma ResetFront(s: State, a: nat, ms: Word, fromNow: bool, now: Word, born: map<nat, Option<nat>>)
    requires Valid(s, born) && a in s.order && born[a].Some?
    requires ms != s.timers[a].ms || fromNow
    ensures var (s', ok, front) := Reset(s, a, ms, fromNow, now);
      ok && s'.order != [] && front == (s'.order[0] == a && !s.tickled)
  {
    var t := s.timers[a];
    var t' := t.(ms := ms, next := Add64(if fromNow then now else Sub64(t.next, t.ms), ms));
    RekeyValid(s, a, t', born);
    InsertFront(s.timers[a := t'], EraseAt(s.order, Find(s.timers, s.order, a)), a);
  }

  // -------------------------------------------- anchors and notifications

  /** Deadline minus period is the last anchor, and the wake-up flag counts front insertions. */
  ghost predicate Anchored(h: History) {
    && Sound(h)
    && (forall a :: a in h.s.timers && a in h.anchor ==> Sub64(h.s.timers[a].next, h.s.timers[a].ms) == h.anchor[a])
    && h.s.tickled == h.tookFront
    && h.notified == (if h.tookFront then 1 else 0)
  }

  lemma AnchoredExpire(h: History, now: Word, probe: nat)
    requires Anchored(h)
    ensures Anchored(ExpireStep(h, now, probe))
  {
    ExpireEffect(h, now, probe);
    var h' := ExpireStep(h, now, probe);
    hide ExpireStep, Sound, Live, FiredBy, Add64, Sub64;
    forall a | a in h.s.timers ensures Sub64(h'.s.timers[a].next, h'.s.timers[a].ms) == h'.anchor[a] {
      SubUndoesAdd(now, h.s.timers[a].ms);
    }
  }

  lemma AnchoredPut(h: History, h': History, a: nat, t: Timer, anchor: Word)
    requires Anchored(h) && Put(h, h', a, t, anchor) && Announced(h, h', a)
    requires t.next == Add64(anchor, t.ms)
    ensures Anchored(h')
  {
    SubUndoesAdd(anchor, t.ms);
    hide Sound, Live, Add64, Sub64;
  }

  lemma AnchoredRekeyed(h: History, h': History, a: nat, now: Word)
    requires Anchored(h) && Rekeyed(h, h', a, now)
    ensures Anchored(h')
  {
    SubUndoesAdd(now, h.s.timers[a].ms);
    hide Sound, Live, Add64, Sub64;
  }

  lemma AnchoredDropped(h: History, h': History, a: nat)
    requires Anchored(h) && Dropped(h, h', a)
    ensures Anchored(h')
  {
    hide Sound, Live, Add64, Sub64;
  }

  lemma AnchoredGetNext(h: History, now: Word)
    requires Anchored(h)
    ensures Anchored(GetNextStep(h, now))
  {
    GetNextKeeps(h, now);
    hide GetNextStep, Sound, Live, Add64, Sub64;
  }

  lemma AnchoredStep(h: History, op: Op)
    requires Anchored(h) && Enabled(h, op)
    ensures Anchored(Step(h, op))
  {
    SoundFacts(h);
    var h' := Step(h, op);
    hide AddStep, CancelStep, RefreshStep, ResetStep, ExpireStep, GetNextStep, Live, Sound, Add64, Sub64, Put,
      Announced, Dropped, Rekeyed;
    if Refused(h, op) {
      RefusalChangesNothing(h, op);
      return;
    }
    match op
    case Add(a, ms, cb, recurring, now) =>
      AddPuts(h, op);
      AddAnnounces(h, op);
      AnchoredPut(h, h', a, Timer(recurring, ms, Add64(now, ms), cb), now);
    case CancelOp(a) =>
      CancelDrops(h, op);
      AnchoredDropped(h, h', a);
    case RefreshOp(a, now) =>
      RefreshRekeys(h, op);
      AnchoredRekeyed(h, h', a, now);
    case ResetOp(a, ms, fromNow, now) =>
      ResetPuts(h, op);
      ResetAnnounces(h, op);
      AnchoredPut(h, h', a, ResetTimer(h.s.timers[a], op), ResetAnchor(h, op));
    case GetNext(now) =>
      AnchoredGetNext(h, now);
    case Expire(now, probe) =>
      AnchoredExpire(h, now, probe);
  }

  /**
   * Over every run, wrapping or not: deadline minus period is the time of the last anchor
   * (so reset(ms, false) keeps it through any sequence of periods), and since the last
   * getNextTimer the front notification fired once if an addTimer took the front, else never.
   */
  lemma {:induction false} AnchorsAndNotifications(h0: History, ops: seq<Op>, h: History)
    requires Anchored(h0) && Runs(Always, h0, ops, h)
    ensures Anchored(h)
    decreases |ops|
  {
    if ops != [] {
      AnchoredStep(h0, ops[0]);
      AnchorsAndNotifications(Step(h0, ops[0]), ops[1..], h);
    }
  }

  /** The subtraction in Timer::reset goes below zero only for a deadline that wrapped. */
  lemma ResetUnderflowIff(h: History, a: nat)
    requires Anchored(h) && a in h.s.timers
    ensures a in h.anchor
    ensures h.s.timers[a].next >= h.s.timers[a].ms <==> h.anchor[a] + h.s.timers[a].ms < TWO_TO_THE_64
  {
    assert Sub64(h.s.timers[a].next, h.s.timers[a].ms) == h.anchor[a];
  }

  // ------------------------------------------------------ timer histories

  ghost predicate EmittedIn(log: seq<Emission>, a: nat) {
    exists i :: 0 <= i < |log| && log[i].a == a
  }

  /** What the log can contain: original callbacks, not early, and a one-shot at most once. */
  ghost predicate GoodLog(h: History) {
    && (forall i :: 0 <= i < |h.log| ==>
         && h.log[i].a in h.s.timers && h.log[i].a in h.born
         && (h.log[i].rollover || h.log[i].deadline <= h.log[i].at)
         && h.log[i].cb == h.born[h.log[i].a])
    && (forall i, j :: 0 <= i < j < |h.log| && h.log[i].a == h.log[j].a ==> h.s.timers[h.log[i].a].recurring)
    && (forall a, i :: a in h.cancelledAt && h.cancelledAt[a] <= i < |h.log| ==> h.log[i].a != a)
  }

  /** The fate of every timer. */
  ghost predicate Fates(h: History) {
    && Sound(h)
    && GoodLog(h)
    && (forall a :: a in h.cancelledAt ==> a in h.s.timers && a !in Live(h))
    && (forall a :: a in h.s.timers && h.s.timers[a].recurring ==> a in Live(h) || a in h.cancelledAt)
    && (forall a :: a in h.s.timers && !h.s.timers[a].recurring ==>
         && (a in Live(h) || a in h.cancelledAt || EmittedIn(h.log, a))
         && !(a in Live(h) && EmittedIn(h.log, a))
         && !(a in h.cancelledAt && EmittedIn(h.log, a)))
  }

  /** A step that emits and cancels nothing and puts new timers into the set. */
  lemma FatesFrame(h: History, h': History)
    requires Fates(h) && Sound(h') && h'.log == h.log && h'.cancelledAt == h.cancelledAt
    requires h.s.timers.Keys <= h'.s.timers.Keys
    requires forall a :: a in h.s.timers ==>
      && h'.s.timers[a].recurring == h.s.timers[a].recurring
      && a in h.born && a in h'.born && h'.born[a] == h.born[a]
      && (a in Live(h') <==> a in Live(h))
    requires forall a :: a in h'.s.timers && a !in h.s.timers ==> a in Live(h')
    ensures Fates(h')
  {
    hide Sound, Live;
    forall a | a in h'.s.timers && a !in h.s.timers ensures !EmittedIn(h.log, a) && a !in h.cancelledAt {
    }
    hide EmittedIn;
  }

  lemma EmittedGrows(log: seq<Emission>, batch: seq<Emission>, fired: set<nat>)
    requires forall i :: 0 <= i < |batch| ==> batch[i].a in fired
    requires forall a :: a in fired ==> exists i :: 0 <= i < |batch| && batch[i].a == a
    ensures forall a :: EmittedIn(log + batch, a) <==> EmittedIn(log, a) || a in fired
  {
    forall a | EmittedIn(log, a) ensures EmittedIn(log + batch, a) {
      var i :| 0 <= i < |log| && log[i].a == a;
      assert (log + batch)[i].a == a;
    }
    forall a | a in fired ensures EmittedIn(log + batch, a) {
      var i :| 0 <= i < |batch| && batch[i].a == a;
      assert (log + batch)[|log| + i].a == a;
    }
    forall a | EmittedIn(log + batch, a) ensures EmittedIn(log, a) || a in fired {
      var i :| 0 <= i < |log + batch| && (log + batch)[i].a == a;
      if i < |log| { assert log[i].a == a; }
    }
  }

  lemma GoodLogGrows(h: History, h': History, batch: seq<Emission>, fired: set<nat>, now: Word, rollover: bool)
    requires Fates(h) && Entries(h, batch, fired, now, rollover) && h'.log == h.log + batch
    requires h'.cancelledAt == h.cancelledAt && h'.born == h.born
    requires h'.s.timers.Keys == h.s.timers.Keys == h.born.Keys
    requires forall a :: a in h.s.timers ==> h'.s.timers[a].recurring == h.s.timers[a].recurring
    requires fired <= Live(h)
    requires forall a :: a in fired ==>
      a in h.s.timers && h.s.timers[a].cb == h.born[a] && (rollover || h.s.timers[a].next <= now)
    ensures GoodLog(h')
  {
    hide Sound, Live;
    var n := |h.log|;
    forall i, j | 0 <= i < j < |h'.log| && h'.log[i].a == h'.log[j].a
      ensures h'.s.timers[h'.log[i].a].recurring
    {
      if i < n <= j {
        assert EmittedIn(h.log, h.log[i].a);
        assert h'.log[j].a == batch[j - n].a;
      }
    }
    forall i | n <= i < |h'.log| ensures h'.log[i] == batch[i - n] && h'.log[i].a in fired {
    }
  }

  lemma FatesExpire(h: History, now: Word, probe: nat)
    requires Fates(h)
    ensures Fates(ExpireStep(h, now, probe))
  {
    hide ExpireStep, NewLog, FiredBy, Rollover, Live, GoodLog, EmittedIn, Entries;
    SoundFacts(h);
    FiredHaveCallbacks(h, now, probe);
    ExpireLog(h, now, probe);
    ExpireEffect(h, now, probe);
    hide Sound;
    var rollover := Rollover(h.s.previous, now);
    FatesGrow(h, ExpireStep(h, now, probe), NewLog(h, now, probe), FiredBy(h, now, probe), now, rollover);
  }

  lemma FatesGrow(h: History, h': History, batch: seq<Emission>, fired: set<nat>, now: Word, rollover: bool)
    requires Fates(h) && Sound(h') && Entries(h, batch, fired, now, rollover) && h'.log == h.log + batch
    requires h'.cancelledAt == h.cancelledAt && h'.born == h.born
    requires h'.s.timers.Keys == h.s.timers.Keys == h.born.Keys
    requires forall a :: a in h.s.timers ==>
      && h'.s.timers[a].recurring == h.s.timers[a].recurring
      && (a in Live(h') <==> a in Live(h) && (a in fired ==> h.s.timers[a].recurring))
    requires fired <= Live(h) && Live(h') <= Live(h)
    requires forall a :: a in fired ==>
      a in h.s.timers && h.s.timers[a].cb == h.born[a] && (rollover || h.s.timers[a].next <= now)
    ensures Fates(h')
  {
    EmittedGrows(h.log, batch, fired);
    hide Entries, EmittedIn, Sound, Live;
    GoodLogGrows(h, h', batch, fired, now, rollover);
    hide GoodLog;
  }

  lemma FiredHaveCallbacks(h: History, now: Word, probe: nat)
    requires Sound(h)
    ensures forall a :: a in FiredBy(h, now, probe) ==> a in h.s.timers && a in h.born && h.s.timers[a].cb == h.born[a]
  {
    FiredFacts(h, now, probe);
  }

  lemma FatesPut(h: History, h': History, a: nat, t: Timer, anchor: Word)
    requires Fates(h) && Put(h, h', a, t, anchor)
    requires a in h.s.timers ==> a in Live(h) && t.recurring == h.s.timers[a].recurring
    ensures Fates(h')
  {
    hide Live, GoodLog, EmittedIn, Sound;
    SoundFacts(h);
    SoundFacts(h');
    hide Fates;
    FatesFrame(h, h');
  }

  lemma FatesDropped(h: History, h': History, a: nat)
    requires Fates(h) && Dropped(h, h', a)
    ensures Fates(h')
  {
    hide Live, EmittedIn, GoodLog;
    SoundFacts(h);
    hide Sound;
    GoodLogDropped(h, h', a);
  }

  lemma GoodLogDropped(h: History, h': History, a: nat)
    requires GoodLog(h) && Dropped(h, h', a)
    ensures GoodLog(h')
  {
    hide Live, Sound;
    forall b, i | b in h'.cancelledAt && h'.cancelledAt[b] <= i < |h'.log| ensures h'.log[i].a != b {
      assert b != a && h.cancelledAt[b] == h'.cancelledAt[b];
    }
  }

  lemma FatesRekeyed(h: History, h': History, a: nat, now: Word)
    requires Fates(h) && Rekeyed(h, h', a, now)
    ensures Fates(h')
  {
    hide Live, GoodLog, EmittedIn, Add64;
    SoundFacts(h);
    hide Sound;
    FatesFrame(h, h');
  }

  lemma FatesGetNext(h: History, now: Word)
    requires Fates(h)
    ensures Fates(GetNextStep(h, now))
  {
    SoundFacts(h);
    GetNextKeeps(h, now);
    hide GetNextStep, Sound, Live, GoodLog, EmittedIn;
    FatesFrame(h, GetNextStep(h, now));
  }

  lemma FatesStep(h: History, op: Op)
    requires Fates(h) && Enabled(h, op)
    ensures Fates(Step(h, op))
  {
    var h' := Step(h, op);
    hide AddStep, CancelStep, RefreshStep, ResetStep, ExpireStep, GetNextStep, Live, GoodLog, EmittedIn, Add64, Sub64,
      Put, Announced, Dropped, Rekeyed;
    if Refused(h, op) {
      RefusalChangesNothing(h, op);
      return;
    }
    match op
    case Add(a, ms, cb, recurring, now) =>
      AddPuts(h, op);
      FatesPut(h, h', a, Timer(recurring, ms, Add64(now, ms), cb), now);
    case CancelOp(a) =>
      CancelDrops(h, op);
      FatesDropped(h, h', a);
    case RefreshOp(a, now) =>
      RefreshRekeys(h, op);
      FatesRekeyed(h, h', a, now);
    case ResetOp(a, ms, fromNow, now) =>
      LiveHasCallback(h, a);
      ResetPuts(h, op);
      FatesPut(h, h', a, ResetTimer(h.s.timers[a], op), ResetAnchor(h, op));
    case GetNext(now) =>
      FatesGetNext(h, now);
    case Expire(now, probe) =>
      FatesExpire(h, now, probe);
  }

  /**
   * Over every run: a one-shot callback is in the set, emitted once, or cancelled, and only
   * one of these; a recurring one stays in the set until cancelled; nothing is emitted after
   * a cancel that returned true, nor before its deadline unless rollover was detected.
   */
  lemma {:induction false} TimerFates(h0: History, ops: seq<Op>, h: History)
    requires Fates(h0) && Runs(Always, h0, ops, h)
    ensures Fates(h)
    decreases |ops|
  {
    if ops != [] {
      FatesStep(h0, ops[0]);
      TimerFates(Step(h0, ops[0]), ops[1..], h);
    }
  }

  // ------------------------------------------------ spacing of recurrences

  /** Two emissions of a timer nobody touched in between lie at least its period apart. */
  ghost predicate Spaced(h: History) {
    && Sound(h)
    && (forall i, j :: 0 <= i < j < |h.log| && h.log[i].a == h.log[j].a && h.log[j].since <= i ==>
          h.log[i].at + h.log[j].ms <= h.log[j].at)
    && (forall a :: a in h.touched ==> h.touched[a] <= |h.log|)
    && (forall i :: 0 <= i < |h.log| ==> Reached(h, i))
  }

  /** The deadline of a live timer lies a period behind each emission since it was last touched. */
  ghost predicate Reached(h: History, i: nat)
    requires i < |h.log|
  {
    var a := h.log[i].a;
    a in Live(h) && a in h.s.timers && a in h.touched && h.touched[a] <= i ==>
      h.log[i].at + h.s.timers[a].ms <= h.s.timers[a].next
  }

  lemma SpacedGrow(h: History, h': History, batch: seq<Emission>, fired: set<nat>, now: Word)
    requires Spaced(h) && Sound(h') && h'.touched == h.touched
    requires h.s.timers.Keys == h'.s.timers.Keys == h.touched.Keys
    requires h'.log == h.log + batch && Entries(h, batch, fired, now, false)
    requires fired <= Live(h) && Live(h') <= Live(h) <= h.s.timers.Keys
    requires forall a :: a in fired ==> h.s.timers[a].next <= now
    requires forall a :: a in Live(h') ==>
      && h'.s.timers[a].ms == h.s.timers[a].ms
      && h'.s.timers[a].next == (if a in fired then now + h.s.timers[a].ms else h.s.timers[a].next)
    ensures Spaced(h')
  {
    hide Sound, Live;
    var n := |h.log|;
    assert forall i :: 0 <= i < n ==> h'.log[i] == h.log[i];
    assert forall i :: n <= i < |h'.log| ==> h'.log[i] == batch[i - n];
    forall i, j | 0 <= i < j < |h'.log| && h'.log[i].a == h'.log[j].a && h'.log[j].since <= i
      ensures h'.log[i].at + h'.log[j].ms <= h'.log[j].at
    {
      if i < n { assert Reached(h, i); }
    }
    forall i | 0 <= i < |h'.log| ensures Reached(h', i) {
      if i < n { assert Reached(h, i); } else { assert batch[i - n].a in fired; }
    }
  }

  lemma SpacedFrame(h: History, h': History)
    requires Spaced(h) && Sound(h') && h'.log == h.log
    requires h'.touched.Keys == h'.s.timers.Keys
    requires forall a :: a in h'.touched ==>
      h'.touched[a] == |h.log| || (a in h.touched && h'.touched[a] == h.touched[a])
    requires forall a :: a in Live(h') && a in h'.touched && h'.touched[a] != |h.log| ==>
      && a in Live(h) && a in h.s.timers
      && h'.s.timers[a].ms == h.s.timers[a].ms && h'.s.timers[a].next == h.s.timers[a].next
    ensures Spaced(h')
  {
    hide Sound, Live;
    forall i | 0 <= i < |h'.log| ensures Reached(h', i) {
      assert Reached(h, i);
    }
  }

  lemma SpacedExpire(h: History, now: Word, probe: nat)
    requires Spaced(h) && Calm(h, Expire(now, probe)) && Fits(h, Expire(now, probe))
    ensures Spaced(ExpireStep(h, now, probe))
  {
    hide ExpireStep, NewLog, Rollover, FiredBy, Live, Entries;
    SoundFacts(h);
    ExpireEffect(h, now, probe);
    ExpireLog(h, now, probe);
    hide Sound, Spaced;
    SpacedGrow(h, ExpireStep(h, now, probe), NewLog(h, now, probe), FiredBy(h, now, probe), now);
  }

  lemma SpacedPut(h: History, h': History, a: nat, t: Timer, anchor: Word)
    requires Spaced(h) && Put(h, h', a, t, anchor)
    ensures Spaced(h')
  {
    SoundFacts(h);
    SoundFacts(h');
    hide Sound, Live;
    SpacedFrame(h, h');
  }

  lemma SpacedRekeyed(h: History, h': History, a: nat, now: Word)
    requires Spaced(h) && Rekeyed(h, h', a, now)
    ensures Spaced(h')
  {
    SoundFacts(h);
    hide Sound, Live, Add64;
    SpacedFrame(h, h');
  }

  lemma SpacedDropped(h: History, h': History, a: nat)
    requires Spaced(h) && Dropped(h, h', a)
    ensures Spaced(h')
  {
    SoundFacts(h);
    hide Sound, Live;
    SpacedFrame(h, h');
  }

  lemma SpacedGetNext(h: History, now: Word)
    requires Spaced(h)
    ensures Spaced(GetNextStep(h, now))
  {
    SoundFacts(h);
    GetNextKeeps(h, now);
    hide GetNextStep, Sound, Live;
    SpacedFrame(h, GetNextStep(h, now));
  }

  lemma SpacedStep(h: History, op: Op)
    requires Spaced(h) && Enabled(h, op) && CalmAndFits(h, op)
    ensures Spaced(Step(h, op))
  {
    var h' := Step(h, op);
    assert Sound(h);
    hide AddStep, CancelStep, RefreshStep, ResetStep, ExpireStep, GetNextStep, Live, Sound, Rollover, Add64, Sub64,
      Spaced, Put, Announced, Dropped, Rekeyed;
    if Refused(h, op) {
      RefusalChangesNothing(h, op);
      return;
    }
    match op
    case Add(a, ms, cb, recurring, now) =>
      AddPuts(h, op);
      SpacedPut(h, h', a, Timer(recurring, ms, Add64(now, ms), cb), now);
    case CancelOp(a) =>
      CancelDrops(h, op);
      SpacedDropped(h, h', a);
    case RefreshOp(a, now) =>
      RefreshRekeys(h, op);
      SpacedRekeyed(h, h', a, now);
    case ResetOp(a, ms, fromNow, now) =>
      ResetPuts(h, op);
      SpacedPut(h, h', a, ResetTimer(h.s.timers[a], op), ResetAnchor(h, op));
    case GetNext(now) =>
      SpacedGetNext(h, now);
    case Expire(now, probe) =>
      SpacedExpire(h, now, probe);
  }

  lemma {:induction false} RecurrencesAreSpaced(h0: History, ops: seq<Op>, h: History)
    requires Spaced(h0) && Runs(CalmAndFits, h0, ops, h)
    ensures Spaced(h)
    decreases |ops|
  {
    if ops != [] {
      SpacedStep(h0, ops[0]);
      RecurrencesAreSpaced(Step(h0, ops[0]), ops[1..], h);
    }
  }

  // -------------------------------------------------------- no lost wake-up

  /**
   * While the flag is down, no timer in the set is due before the minimum the last
   * getNextTimer saw: whoever sleeps until then oversleeps nothing.
   */
  ghost predicate NothingEarlier(h: History) {
    !h.s.tickled ==> forall a :: a in Live(h) && a in h.s.timers ==> h.horizon <= h.s.timers[a].next
  }

  /** No deadline has wrapped and no anchor lies behind the latest clock reading. */
  ghost predicate Anchors(h: History) {
    forall a :: a in h.s.timers && a in h.anchor ==>
      h.s.timers[a].next == h.anchor[a] + h.s.timers[a].ms && h.anchor[a] <= h.clock
  }

  ghost predicate Awake(h: History) {
    Sound(h) && Anchors(h) && NothingEarlier(h)
  }

  /** What getNextTimer saw is at most every deadline, and an insertion behind the front is behind it. */
  lemma FrontIsEarliest(h: History)
    requires Sound(h) && h.s.order != []
    ensures h.s.order[0] in Live(h) && Live(h) <= h.s.timers.Keys
    ensures forall a :: a in Live(h) ==> h.s.timers[h.s.order[0]].next <= h.s.timers[a].next
  {
    FrontIsLeast(h.s.timers, h.s.order);
  }

  lemma ExpireReanchors(h: History, now: Word, probe: nat)
    requires Awake(h) && Calm(h, Expire(now, probe)) && Fits(h, Expire(now, probe))
    ensures var h' := ExpireStep(h, now, probe);
      forall a :: a in h.s.timers ==>
        && a in h'.s.timers && a in h'.anchor
        && h'.s.timers[a].next == h'.anchor[a] + h'.s.timers[a].ms && h'.anchor[a] <= h'.clock
        && (a in Live(h') ==> h.s.timers[a].next <= h'.s.timers[a].next)
  {
    hide ExpireStep, Rollover, FiredBy, Live, NothingEarlier;
    SoundFacts(h);
    ExpireEffect(h, now, probe);
    hide Sound;
  }

  lemma AwakeExpire(h: History, now: Word, probe: nat)
    requires Awake(h) && Calm(h, Expire(now, probe)) && Fits(h, Expire(now, probe))
    ensures Awake(ExpireStep(h, now, probe))
  {
    hide ExpireStep, Rollover, FiredBy, Live, Fired;
    ExpireReanchors(h, now, probe);
    SoundFacts(h);
    ExpireEffect(h, now, probe);
    hide Sound;
  }

  lemma AnchorsPut(h: History, h': History, a: nat, t: Timer, anchor: Word)
    requires Anchors(h) && Put(h, h', a, t, anchor)
    requires t.next == anchor + t.ms && anchor <= h'.clock
    ensures Anchors(h')
  {
    hide Live, Sound;
  }

  lemma AwakePut(h: History, h': History, a: nat, t: Timer, anchor: Word)
    requires Awake(h) && Put(h, h', a, t, anchor) && Announced(h, h', a)
    requires t.next == anchor + t.ms && anchor <= h'.clock
    ensures Awake(h')
  {
    AnchorsPut(h, h', a, t, anchor);
    hide Live, Anchors;
    SoundFacts(h);
    FrontIsEarliest(h');
    hide Sound;
    assert h'.s.order[0] != a ==> h'.s.order[0] in Live(h);
  }

  lemma AwakeRekeyed(h: History, h': History, a: nat, now: Word)
    requires Awake(h) && Rekeyed(h, h', a, now)
    requires now + h.s.timers[a].ms < TWO_TO_THE_64 && h.clock <= now
    ensures Awake(h')
  {
    hide Live, NothingEarlier, Sound;
    SoundFacts(h);
    AnchorsRekeyed(h, h', a, now);
    hide Anchors, Max;
    RekeyedLater(h, h', a);
  }

  lemma AnchorsRekeyed(h: History, h': History, a: nat, now: Word)
    requires Anchors(h) && Rekeyed(h, h', a, now) && a in h.anchor
    requires now + h.s.timers[a].ms < TWO_TO_THE_64 && h.clock <= now
    ensures Anchors(h') && h.s.timers[a].next <= h'.s.timers[a].next
  {
    hide Live, Sound;
  }

  lemma RekeyedLater(h: History, h': History, a: nat)
    requires NothingEarlier(h) && a in h.s.timers && a in h'.s.timers
    requires h'.s.timers[a].next >= h.s.timers[a].next
    requires h'.s.timers == h.s.timers[a := h'.s.timers[a]] && Live(h') == Live(h)
    requires h'.s.tickled == h.s.tickled && h'.horizon == h.horizon
    ensures NothingEarlier(h')
  {
    hide Live;
  }

  lemma AwakeGetNext(h: History, now: Word)
    requires Awake(h)
    ensures Awake(Step(h, GetNext(now)))
  {
    GetNextKeeps(h, now);
    if h.s.order != [] { FrontIsEarliest(h); }
    hide GetNextStep, Sound, Live;
  }

  lemma AwakeStep(h: History, op: Op)
    requires Awake(h) && Enabled(h, op) && Steady(h, op)
    ensures Awake(Step(h, op))
  {
    SoundFacts(h);
    hide AddStep, CancelStep, RefreshStep, ResetStep, ExpireStep, GetNextStep, Rollover, Live, Sound, Put, Announced,
      NothingEarlier;
    var h' := Step(h, op);
    if Refused(h, op) {
      RefusalChangesNothing(h, op);
      return;
    }
    match op
    case Add(a, ms, cb, recurring, now) =>
      AddPuts(h, op);
      AddAnnounces(h, op);
      AwakePut(h, h', a, Timer(recurring, ms, Add64(now, ms), cb), now);
    case CancelOp(a) =>
      CancelDrops(h, op);
      AwakeDropped(h, h', a);
    case RefreshOp(a, now) =>
      RefreshRekeys(h, op);
      AwakeRekeyed(h, h', a, now);
    case ResetOp(a, ms, fromNow, now) =>
      AwakeResetPut(h, op);
    case GetNext(now) =>
      AwakeGetNext(h, now);
    case Expire(now, probe) =>
      AwakeExpire(h, now, probe);
  }

  lemma AwakeDropped(h: History, h': History, a: nat)
    requires Awake(h) && Dropped(h, h', a)
    ensures Awake(h')
  {
    hide Sound, Live;
  }

  lemma AwakeResetPut(h: History, op: Op)
    requires Awake(h) && Enabled(h, op) && op.ResetOp? && !Refused(h, op) && Fits(h, op)
    ensures Awake(Step(h, op))
  {
    SoundFacts(h);
    ResetPuts(h, op);
    ResetAnnounces(h, op);
    hide ResetStep, Live, Sound, Put, NothingEarlier, Announced;
    var t, start := ResetTimer(h.s.timers[op.a], op), ResetAnchor(h, op);
    assert Sub64(h.s.timers[op.a].next, h.s.timers[op.a].ms) == h.anchor[op.a];
    var h' := Step(h, op);
    PutClock(h, h', op.a, t, start);
    AwakePut(h, h', op.a, t, start);
  }

  lemma PutClock(h: History, h': History, a: nat, t: Timer, anchor: Word)
    requires Put(h, h', a, t, anchor)
    ensures h'.clock >= h.clock
  {
  }

  lemma {:induction false} NoLostWakeUp(h0: History, ops: seq<Op>, h: History)
    requires Awake(h0) && Runs(Steady, h0, ops, h)
    ensures Awake(h)
    decreases |ops|
  {
    if ops != [] {
      AwakeStep(h0, ops[0]);
      NoLostWakeUp(Step(h0, ops[0]), ops[1..], h);
    }
  }

  /** addTimer announces what it puts in front. */
  lemma EarlierPut(h: History, h': History, a: nat, t: Timer, anchor: Word)
    requires Sound(h) && NothingEarlier(h) && Put(h, h', a, t, anchor) && Announced(h, h', a)
    ensures NothingEarlier(h')
  {
    hide Live;
    SoundFacts(h);
    FrontIsEarliest(h');
    hide Sound;
    assert h'.s.order[0] != a ==> h'.s.order[0] in Live(h);
  }

  lemma RekeyedIff(h: History, h': History, a: nat, now: Word)
    requires NothingEarlier(h) && Rekeyed(h, h', a, now)
    ensures NothingEarlier(h') <==> h.s.tickled || h.horizon <= Add64(now, h.s.timers[a].ms)
  {
    hide Sound, Live, Add64;
  }

  lemma ExpireIff(h: History, now: Word, probe: nat)
    requires Sound(h) && NothingEarlier(h)
    ensures NothingEarlier(ExpireStep(h, now, probe)) <==> (h.s.tickled || (forall a ::
      a in FiredBy(h, now, probe) && a in h.s.timers && h.s.timers[a].recurring ==>
        h.horizon <= Add64(now, h.s.timers[a].ms)))
  {
    SoundFacts(h);
    ExpireEffect(h, now, probe);
    hide ExpireStep, FiredBy, Rollover, Live, Sound, Add64;
    var h' := ExpireStep(h, now, probe);
    forall a | a in FiredBy(h, now, probe) && h.s.timers[a].recurring
      ensures a in Live(h') && h'.s.timers[a].next == Add64(now, h.s.timers[a].ms) {}
    forall a | a in Live(h') ensures a in h.s.timers && h'.s.timers[a].next ==
      if a in FiredBy(h, now, probe) then Add64(now, h.s.timers[a].ms) else h.s.timers[a].next {}
  }

  /**
   * What an operation must not do while the flag is down: pull a deadline in front of the
   * horizon without an announcement. refresh and the re-insertion of recurring timers can.
   */
  ghost predicate PullsNothing(h: History, op: Op) {
    Sound(h) && Enabled(h, op) && !h.s.tickled ==>
      match op
      case RefreshOp(a, now) => Refused(h, op) || h.horizon <= Add64(now, h.s.timers[a].ms)
      case Expire(now, probe) =>
        forall a :: a in FiredBy(h, now, probe) && a in h.s.timers && h.s.timers[a].recurring ==>
          h.horizon <= Add64(now, h.s.timers[a].ms)
      case _ => true
  }

  /**
   * A step loses no wake-up exactly when it pulls nothing, whatever the clock does and whether
   * or not deadlines wrap.
   */
  lemma NothingEarlierIff(h: History, op: Op)
    requires Sound(h) && NothingEarlier(h) && Enabled(h, op)
    ensures NothingEarlier(Step(h, op)) <==> PullsNothing(h, op)
  {
    SoundFacts(h);
    hide AddStep, CancelStep, RefreshStep, ResetStep, ExpireStep, GetNextStep, FiredBy, Rollover, Live, Sound, Add64,
      Put, Announced, NothingEarlier;
    if Refused(h, op) {
      RefusalChangesNothing(h, op);
      return;
    }
    var h' := Step(h, op);
    match op
    case Add(a, ms, cb, recurring, now) =>
      AddPuts(h, op);
      AddAnnounces(h, op);
      EarlierPut(h, h', a, Timer(recurring, ms, Add64(now, ms), cb), now);
    case CancelOp(a) =>
      CancelDrops(h, op);
      EarlierDropped(h, h', a);
    case RefreshOp(a, now) =>
      RefreshRekeys(h, op);
      RekeyedIff(h, h', a, now);
    case ResetOp(a, _, _, _) =>
      ResetPuts(h, op);
      ResetAnnounces(h, op);
      EarlierPut(h, h', a, ResetTimer(h.s.timers[a], op), ResetAnchor(h, op));
    case GetNext(now) =>
      EarlierGetNext(h, now);
    case Expire(now, probe) =>
      ExpireIff(h, now, probe);
  }

  lemma EarlierDropped(h: History, h': History, a: nat)
    requires NothingEarlier(h) && Dropped(h, h', a)
    ensures NothingEarlier(h')
  {
    hide Sound, Live;
  }

  lemma EarlierGetNext(h: History, now: Word)
    requires Sound(h)
    ensures NothingEarlier(Step(h, GetNext(now)))
  {
    GetNextKeeps(h, now);
    if h.s.order != [] { FrontIsEarliest(h); }
    hide GetNextStep, Sound, Live;
  }

  lemma {:induction false} NothingPulledNothingLost(h0: History, ops: seq<Op>, h: History)
    requires Sound(h0) && NothingEarlier(h0) && Runs(PullsNothing, h0, ops, h)
    ensures Sound(h) && NothingEarlier(h)
    decreases |ops|
  {
    if ops != [] {
      StepSound(h0, ops[0]);
      NothingEarlierIff(h0, ops[0]);
      NothingPulledNothingLost(Step(h0, ops[0]), ops[1..], h);
    }
  }

  // A run that loses a wake-up: one recurring timer of 100 ms added at 1000, looked at, refreshed.

  const CLOCK_EXAMPLE: seq<Op> := [Add(1, 100, Some(7), true, 1000), GetNext(1000), RefreshOp(1, 900)]

  function ExampleAfter(k: nat): History
    requires k <= 3
  {
    var deadline := if k < 3 then 1100 else 1000;
    if k == 0 then Start(1000)
    else
      History(State(map[1 := Timer(true, 100, deadline, Some(7))], [1], k == 1, 1000),
        map[1 := Some(7)], map[1 := if k < 3 then 1000 else 900], map[1 := 0], 1000,
        if k == 1 then TWO_TO_THE_64 else 1100, if k == 1 then 1 else 0, k == 1, [], map[])
  }

  lemma ExampleAdds()
    ensures Sound(ExampleAfter(0)) && Step(ExampleAfter(0), CLOCK_EXAMPLE[0]) == ExampleAfter(1)
  {
    var ts := map[1 := Timer(true, 100, 1100, Some(7))];
    assert Insert(ts, [], 1).0 == [1];
  }

  lemma ExampleLooks()
    ensures Sound(ExampleAfter(1)) && Step(ExampleAfter(1), CLOCK_EXAMPLE[1]) == ExampleAfter(2)
  {
  }

  lemma ExampleRefreshes()
    ensures Sound(ExampleAfter(2)) && Step(ExampleAfter(2), CLOCK_EXAMPLE[2]) == ExampleAfter(3)
  {
    var h := ExampleAfter(2);
    assert Find(h.s.timers, h.s.order, 1) == 0;
    assert EraseAt(h.s.order, 0) == [];
    var ts := h.s.timers[1 := h.s.timers[1].(next := 1000)];
    assert Insert(ts, [], 1).0 == [1];
    assert ts == ExampleAfter(3).s.timers;
    assert h.anchor[1 := 900] == ExampleAfter(3).anchor && h.touched[1 := 0] == h.touched;
  }

  lemma ExampleRuns()
    ensures Sound(ExampleAfter(0)) && Runs(CalmAndFits, ExampleAfter(0), CLOCK_EXAMPLE, ExampleAfter(3))
  {
    var o0, o1, o2 := CLOCK_EXAMPLE[0], CLOCK_EXAMPLE[1], CLOCK_EXAMPLE[2];
    assert CLOCK_EXAMPLE == [o0] + ([o1] + ([o2] + []));
    hide Step, Sound, CalmAndFits, ExampleAfter, CLOCK_EXAMPLE, Enabled;
    ExampleAdds();
    ExampleLooks();
    ExampleRefreshes();
    ExampleMeetsConditions();
    StepSound(ExampleAfter(2), o2);
    var h := ExampleAfter(3);
    RunsCons(CalmAndFits, ExampleAfter(2), o2, [], h);
    RunsCons(CalmAndFits, ExampleAfter(1), o1, [o2] + [], h);
    RunsCons(CalmAndFits, ExampleAfter(0), o0, [o1] + ([o2] + []), h);
  }

  /**
   * Without the clock condition a wake-up is lost: a clock set back by 100 ms, less than the
   * rollover test notices, lets refresh pull a timer in front of the horizon unannounced.
   */
  lemma ClockSetBackExample()
    ensures var h := ExampleAfter(3);
      && Sound(Start(1000)) && Runs(CalmAndFits, Start(1000), CLOCK_EXAMPLE, h)
      && !h.s.tickled && Live(h) == {1} && h.s.timers[1].next < h.horizon
  {
    hide Runs, Sound, CalmAndFits, CLOCK_EXAMPLE;
    ExampleRuns();
    ExampleMeetsConditions();
  }

  lemma ExampleMeetsConditions()
    ensures forall k :: 0 <= k < 3 ==>
      Enabled(ExampleAfter(k), CLOCK_EXAMPLE[k]) && CalmAndFits(ExampleAfter(k), CLOCK_EXAMPLE[k])
    ensures Live(ExampleAfter(3)) == {1} && !ExampleAfter(3).s.tickled
    ensures ExampleAfter(3).s.timers.Keys == {1} && ExampleAfter(3).s.timers[1].next < ExampleAfter(3).horizon
    ensures ExampleAfter(0) == Start(1000)
  {
  }

  lemma RunsCons(side: (History, Op) -> bool, h: History, op: Op, rest: seq<Op>, end: History)
    requires Sound(h) && Enabled(h, op) && side(h, op) && Sound(Step(h, op))
    requires Runs(side, Step(h, op), rest, end)
    ensures Runs(side, h, [op] + rest, end)
  {
    assert ([op] + rest)[1..] == rest;
  }

  // ------------------------------------------- between the locks of listExpiredCb

  lemma {:induction false} RunsKeepSound(side: (History, Op) -> bool, h0: History, ops: seq<Op>, h: History)
    requires Sound(h0) && Runs(side, h0, ops, h)
    ensures Sound(h)
    decreases |ops|
  {
    if ops != [] {
      StepSound(h0, ops[0]);
      RunsKeepSound(side, Step(h0, ops[0]), ops[1..], h);
    }
  }

  lemma LiveGrows(h: History, op: Op)
    requires Sound(h) && Enabled(h, op) && !op.CancelOp? && !op.Expire?
    ensures Sound(Step(h, op)) && Live(h) <= Live(Step(h, op))
  {
    hide AddStep, CancelStep, RefreshStep, ResetStep, ExpireStep, GetNextStep, Sound, Live;
    StepSound(h, op);
    if Refused(h, op) {
      RefusalChangesNothing(h, op);
    } else {
      match op
      case Add(_, _, _, _, _) => AddPuts(h, op);
      case RefreshOp(_, _) => RefreshRekeys(h, op);
      case ResetOp(_, _, _, _) => ResetPuts(h, op);
      case GetNext(now) => GetNextKeeps(h, now);
    }
  }

  lemma {:induction false} LiveGrowsAll(side: (History, Op) -> bool, h0: History, ops: seq<Op>, h: History)
    requires Sound(h0) && Runs(side, h0, ops, h)
    requires forall op <- ops :: !op.CancelOp? && !op.Expire?
    ensures Live(h0) <= Live(h)
    decreases |ops|
  {
    hide Live;
    if ops != [] {
      LiveGrows(h0, ops[0]);
      LiveGrowsAll(side, Step(h0, ops[0]), ops[1..], h);
    }
  }

  /**
   * listExpiredCb has seen a timer under its first lock, in `h1`; other threads do `ops`
   * before its second lock, in `h2`. It dereferences begin() of an empty set exactly when the
   * set is empty then and no rollover is detected, which takes a cancel or an expiry in
   * between; otherwise it does what an expiry does in `h2`. Testing again never dereferences
   * and does what a whole listExpiredCb does in `h2`.
   */
  lemma DereferenceIff(h1: History, ops: seq<Op>, h2: History, now: Word, probe: nat)
    requires Sound(h1) && h1.s.order != [] && Runs(Always, h1, ops, h2)
    ensures Sound(h2)
    ensures Sweep(false, h2.s, now, probe) == Dereferenced <==> Live(h2) == {} && !Rollover(h2.s.previous, now)
    ensures Sweep(false, h2.s, now, probe) == Dereferenced ==> exists op <- ops :: op.CancelOp? || op.Expire?
    ensures Sweep(false, h2.s, now, probe) == Dereferenced <==> !Enabled(h2, Expire(now, probe))
    ensures Enabled(h2, Expire(now, probe)) ==>
      Sweep(false, h2.s, now, probe) == Swept(Collected(h2.s, now, probe))
      && Step(h2, Expire(now, probe)).s == Collected(h2.s, now, probe).s
    ensures Sweep(true, h2.s, now, probe) == Swept(ListExpired(h2.s, now, probe))
  {
    RunsKeepSound(Always, h1, ops, h2);
    assert h1.s.order[0] in Live(h1);
    assert Live(h2) == {} <==> h2.s.order == [] by {
      if h2.s.order != [] { assert h2.s.order[0] in Live(h2); }
    }
    if forall op <- ops :: !op.CancelOp? && !op.Expire? {
      LiveGrowsAll(Always, h1, ops, h2);
    }
    hide Live, Sound, ListExpired, Rollover;
  }

  /** A cancel between the two locks empties the set, and the process stops at line 158. */
  lemma EmptiedBetweenLocksExample(probe: nat) returns (h1: History, h2: History)
    ensures Sound(Start(1000)) && Runs(Always, Start(1000), [Add(1, 100, Some(7), false, 1000)], h1)
    ensures Sound(h1) && h1.s.order != [] && Runs(Always, h1, [CancelOp(1)], h2)
    ensures Sound(h2) && Sweep(false, h2.s, 1000, probe) == Dereferenced
  {
    var add, cancel := Add(1, 100, Some(7), false, 1000), CancelOp(1);
    h1 := Step(Start(1000), add);
    StepSound(Start(1000), add);
    assert h1.s == State(map[1 := Timer(false, 100, 1100, Some(7))], [1], true, 1000);
    h2 := Step(h1, cancel);
    StepSound(h1, cancel);
    assert h2.s.order == [] && h2.s.previous == 1000;
    hide Step, Sound;
    RunsCons(Always, Start(1000), add, [], h1);
    RunsCons(Always, h1, cancel, [], h2);
    assert [add] + [] == [add] && [cancel] + [] == [cancel];
  }

  lemma StartIsFine(now: Word)
    ensures Anchored(Start(now)) && Fates(Start(now)) && Spaced(Start(now)) && Awake(Start(now))
  {
  }
}
