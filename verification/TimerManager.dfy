/**
 * Timer and TimerManager (duan_src/timer.cc) as objects: timers are mutated in place, and
 * every method is tied to the operation of TimerModel it performs on the manager's view.
 */
module TimerManagerCode {
  import opened Common
  import M = TimerModel

  // The loop over the expired timers, on views.

  /** The timers of `batch` from `k` on are as they were in `s`, and not in the set. */
  ghost predicate Pending(now: M.State, s: M.State, batch: seq<nat>, k: nat) {
    && M.Sorted(now.timers, now.order)
    && k <= |batch|
    && (forall a :: a in batch[k..] ==> a in now.timers && a !in now.order)
    && (forall i :: k <= i < |batch| ==>
          batch[i] in s.timers && batch[i] in now.timers && now.timers[batch[i]] == s.timers[batch[i]])
    && (forall i, j :: k <= i < j < |batch| ==> batch[i] != batch[j])
  }

  /** What the rest of the loop will make of the manager. */
  ghost function Outcome(v: M.State, s: M.State, batch: seq<nat>, k: nat, now: Word): M.State
    requires Pending(v, s, batch, k)
  {
    var (ts, order) := M.FireAll(v.timers, v.order, batch[k..], now);
    v.(timers := ts, order := order)
  }

  lemma OutcomeOfNone(v: M.State, s: M.State, batch: seq<nat>, now: Word)
    requires Pending(v, s, batch, |batch|)
    ensures Outcome(v, s, batch, |batch|, now) == v
  {
  }

  lemma NextPending(v: M.State, s: M.State, batch: seq<nat>, k: nat)
    requires Pending(v, s, batch, k) && k < |batch|
    ensures batch[k] !in v.order
    ensures batch[k] in s.timers && batch[k] in v.timers && v.timers[batch[k]] == s.timers[batch[k]]
  {
    assert batch[k] in batch[k..];
  }

  lemma FiredAnother(v: M.State, v': M.State, s: M.State, batch: seq<nat>, k: nat, now: Word)
    requires Pending(v, s, batch, k) && k < |batch| && batch[k] in v.timers
    requires var a := batch[k];
      var ts := v.timers[a := M.Fired(v.timers[a], now)];
      && M.Sorted(ts, v.order)
      && v' == v.(timers := ts, order := if v.timers[a].recurring then M.Insert(ts, v.order, a).0 else v.order)
    ensures Pending(v', s, batch, k + 1)
    ensures Outcome(v', s, batch, k + 1, now) == Outcome(v, s, batch, k, now)
  {
    var a := batch[k];
    assert batch[k..][0] == a && batch[k..][1..] == batch[k + 1..];
    assert forall i :: k <= i < |batch| ==> batch[k..][i - k] == batch[i];
    M.InsertSorted(v'.timers, v.order, a);
    hide M.Sorted, M.Insert, M.Fired;
    forall b | b in batch[k + 1..] ensures b in batch[k..] && b != a {
      var i :| k + 1 <= i < |batch| && batch[i] == b;
    }
  }

  class Timer {
    const addr: nat
    const manager: TimerManager
    var recurring: bool
    var ms: Word
    var next: Word
    var cb: Option<nat>

    constructor (addr: nat, ms: Word, cb: Option<nat>, recurring: bool, manager: TimerManager, now: Word)
      ensures this.addr == addr && this.manager == manager
      ensures Record() == M.Timer(recurring, ms, Add64(now, ms), cb)
    {
      this.addr, this.manager, this.recurring, this.ms, this.cb := addr, manager, recurring, ms, cb;
      next := Add64(now, ms);
    }

    ghost function Record(): M.Timer
      reads this
    {
      M.Timer(recurring, ms, next, cb)
    }

    function Key(): M.Key
      reads this
    {
      M.Key(next, addr)
    }

    method Cancel() returns (ok: bool)
      requires manager.Valid() && manager.Knows(this)
      modifies this, manager`timers, manager`tickled, manager`notified
      ensures manager.Valid()
      ensures (manager.View(), ok) == M.Cancel(old(manager.View()), addr, manager.born)
      ensures manager.notified == old(manager.notified)
    {
      hide M.Sorted, M.Find, M.EraseAt, M.Valid;
      ghost var s := manager.View();
      M.ValidIsSorted(s, manager.born);
      if cb.Some? {
        M.CancelValid(s, addr, manager.born);
        label before:
        cb := None;
        manager.Rerecorded@before(this);
        M.SortedFrame(s.timers, manager.View().timers, s.order);
        var it := manager.FindPosition(this);
        M.LiveIsFound(s, addr, None, manager.born);
        manager.EraseAt(it);
        return true;
      }
      return false;
    }

    method Refresh(now: Word) returns (ok: bool)
      requires manager.Valid() && manager.Knows(this)
      modifies this, manager`timers, manager`tickled, manager`notified
      ensures manager.Valid()
      ensures (manager.View(), ok) == M.Refresh(old(manager.View()), addr, now)
      ensures manager.notified == old(manager.notified)
    {
      hide M.Sorted, M.Find, M.EraseAt, M.Insert, M.Valid, Add64;
      ghost var s := manager.View();
      M.ValidIsSorted(s, manager.born);
      M.RefreshValid(s, addr, now, manager.born);
      manager.RecordOf(this);
      hide TimerManager.View, TimerManager.Shape;
      if cb.None? {
        return false;
      }
      var it := manager.FindPosition(this);
      if it == |manager.timers| {
        return false;
      }
      ReanchorFrom(it, now);
      return true;
    }

    /** The tail of refresh: out of the set, new deadline, back in. */
    method ReanchorFrom(it: nat, now: Word)
      requires manager.InOrder() && manager.Knows(this) && it < |manager.timers|
      requires manager.View().order[it] == addr
      modifies this, manager`timers
      ensures manager.Shape()
      ensures var s := old(manager.View());
        && var ts := s.timers[addr := s.timers[addr].(next := Add64(now, s.timers[addr].ms))];
        && var order := M.EraseAt(s.order, it);
        && M.Sorted(ts, order)
        && manager.View() == s.(timers := ts, order := M.Insert(ts, order, addr).0)
    {
      hide M.Sorted, M.EraseAt, M.Insert, Add64;
      ghost var s := manager.View();
      manager.RecordOf(this);
      M.SortedMembers(s.timers, s.order);
      M.EraseSorted(s.timers, s.order, it);
      hide TimerManager.View, TimerManager.Shape;
      manager.EraseAt(it);
      label before:
      next := Add64(now, ms);
      manager.Rerecorded@before(this);
      M.SortedFrame(s.timers, manager.View().timers, manager.View().order);
      var _ := manager.InsertTimer(this);
    }

    method Reset(ms: Word, fromNow: bool, now: Word) returns (ok: bool)
      requires manager.Valid() && manager.Knows(this)
      modifies this, manager`timers, manager`tickled, manager`notified
      ensures manager.Valid()
      ensures var (s, r, front) := M.Reset(old(manager.View()), addr, ms, fromNow, now);
        && manager.View() == s && ok == r
        && manager.notified == old(manager.notified) + (if front then 1 else 0)
    {
      hide M.Sorted, M.Find, M.EraseAt, M.AddAndNotify, M.Valid, Add64, Sub64;
      ghost var s := manager.View();
      M.ValidIsSorted(s, manager.born);
      M.ResetValid(s, addr, ms, fromNow, now, manager.born);
      manager.RecordOf(this);
      hide TimerManager.View, TimerManager.Shape;
      if ms == this.ms && !fromNow {
        return true;
      }
      if cb.None? {
        return false;
      }
      var it := manager.FindPosition(this);
      if it == |manager.timers| {
        return false;
      }
      MoveFrom(it, ms, fromNow, now);
      return true;
    }

    /** The tail of reset: out of the set, new period and deadline, back through addTimer. */
    method MoveFrom(it: nat, ms: Word, fromNow: bool, now: Word)
      requires manager.InOrder() && manager.Knows(this) && it < |manager.timers|
      requires manager.View().order[it] == addr
      modifies this, manager`timers, manager`tickled, manager`notified
      ensures manager.Shape()
      ensures var s := old(manager.View());
        && var start := if fromNow then now else Sub64(s.timers[addr].next, s.timers[addr].ms);
        && var ts := s.timers[addr := s.timers[addr].(ms := ms, next := Add64(start, ms))];
        && var order := M.EraseAt(s.order, it);
        && M.Sorted(ts, order)
        && var (s', front) := M.AddAndNotify(s.(timers := ts, order := order), addr);
        && manager.View() == s'
        && manager.notified == old(manager.notified) + (if front then 1 else 0)
    {
      hide M.Sorted, M.EraseAt, M.AddAndNotify, Add64, Sub64;
      ghost var s := manager.View();
      manager.RecordOf(this);
      M.SortedMembers(s.timers, s.order);
      M.EraseSorted(s.timers, s.order, it);
      hide TimerManager.View, TimerManager.Shape;
      manager.EraseAt(it);
      label before:
      var start: Word := 0;
      if fromNow {
        start := now;
      } else {
        start := Sub64(next, this.ms);
      }
      this.ms := ms;
      next := Add64(start, this.ms);
      manager.Rerecorded@before(this);
      M.SortedFrame(s.timers, manager.View().timers, manager.View().order);
      manager.AddTimerLocked(this);
    }
  }

  class TimerManager {
    var timers: seq<Timer>
    var tickled: bool
    var previous: Word
    /** How often onTimerInsertedAtFront was called. */
    var notified: nat
    ghost var known: map<nat, Timer>
    ghost var born: map<nat, Option<nat>>

    constructor (now: Word)
      ensures Valid() && known == map[] && born == map[] && notified == 0
      ensures View() == M.State(map[], [], false, now)
    {
      timers, tickled, previous, notified, known, born := [], false, now, 0, map[], map[];
    }

    ghost predicate Knows(t: Timer)
      reads this
    {
      t.addr in known && known[t.addr] == t
    }

    /** Published timers are found under their address, and the set holds published timers only. */
    ghost predicate Shape()
      reads this
    {
      && (forall a :: a in known ==> known[a].addr == a && known[a].manager == this)
      && (forall t <- timers :: Knows(t))
    }

    ghost function View(): M.State
      reads this, known.Values
    {
      M.State(map a | a in known :: known[a].Record(), Addresses(timers), tickled, previous)
    }

    static ghost function Addresses(ts: seq<Timer>): (r: seq<nat>)
      ensures |r| == |ts|
      ensures forall i :: 0 <= i < |ts| ==> r[i] == ts[i].addr
    {
      seq(|ts|, i requires 0 <= i < |ts| => ts[i].addr)
    }

    ghost predicate Valid()
      reads this, known.Values
    {
      Shape() && M.Valid(View(), born)
    }

    ghost predicate InOrder()
      reads this, known.Values
    {
      Shape() && M.Sorted(View().timers, View().order)
    }

    /** A write to one timer shows in the view as an update of its record, and nowhere else. */
    twostate lemma Rerecorded(t: Timer)
      requires old(Shape()) && old(Knows(t)) && unchanged(this)
      requires forall a :: a in known && known[a] != t ==> unchanged(known[a])
      ensures Shape()
      ensures View() == old(View()).(timers := old(View()).timers[t.addr := t.Record()])
    {
      var ts := old(View()).timers[t.addr := t.Record()];
      assert View().timers.Keys == ts.Keys;
      forall a | a in known ensures View().timers[a] == ts[a] {
        if a != t.addr { assert known[a] != t && unchanged(known[a]); }
      }
      assert View().timers == ts;
    }

    lemma RecordOf(t: Timer)
      requires Knows(t)
      ensures t.addr in View().timers && View().timers[t.addr] == t.Record()
    {
    }

    // The operations of std::set that the manager uses, over the elements in order.

    static function LowerBoundPosition(ts: seq<Timer>, k: M.Key): (i: nat)
      reads ts
      ensures i <= |ts|
      ensures forall j :: 0 <= j < i ==> M.KeyLess(ts[j].Key(), k)
      ensures i < |ts| ==> !M.KeyLess(ts[i].Key(), k)
    {
      if ts == [] || !M.KeyLess(ts[0].Key(), k) then 0
      else 1 + LowerBoundPosition(ts[1..], k)
    }

    lemma KeysAgree(i: nat)
      requires Shape() && i < |timers|
      ensures timers[i].addr in View().timers && View().order[i] == timers[i].addr
      ensures M.KeyOf(View().timers, View().order[i]) == timers[i].Key()
    {
      assert Knows(timers[i]);
    }

    lemma LowerBoundAgrees(k: M.Key)
      requires InOrder()
      ensures LowerBoundPosition(timers, k) == M.LowerBound(View().timers, View().order, k)
    {
      var i, j := LowerBoundPosition(timers, k), M.LowerBound(View().timers, View().order, k);
      if i < j {
        KeysAgree(i);
      } else if j < i {
        KeysAgree(j);
      }
    }

    method FindPosition(t: Timer) returns (i: nat)
      requires InOrder() && Knows(t)
      ensures i == M.Find(View().timers, View().order, t.addr)
    {
      LowerBoundAgrees(t.Key());
      i := LowerBoundPosition(timers, t.Key());
      if i < |timers| {
        KeysAgree(i);
        if M.KeyLess(t.Key(), timers[i].Key()) {
          i := |timers|;
        }
      }
    }

    method EraseAt(i: nat)
      requires i < |timers| && Shape()
      modifies this`timers
      ensures Shape()
      ensures View() == old(View()).(order := M.EraseAt(old(View()).order, i))
    {
      ghost var before := timers;
      timers := timers[..i] + timers[i + 1..];
      assert forall t <- timers :: t in before;
      assert View().order == M.EraseAt(Addresses(before), i);
    }

    method SpliceAt(t: Timer, i: nat)
      requires i <= |timers| && Shape() && Knows(t)
      modifies this`timers
      ensures Shape()
      ensures View() == old(View()).(order := old(View()).order[..i] + [t.addr] + old(View()).order[i..])
    {
      ghost var before := timers;
      timers := timers[..i] + [t] + timers[i..];
      assert forall u <- timers :: u in before || u == t;
      assert Addresses(timers) == Addresses(before)[..i] + [t.addr] + Addresses(before)[i..];
    }

    method InsertTimer(t: Timer) returns (i: nat)
      requires InOrder() && Knows(t)
      modifies this`timers
      ensures Shape()
      ensures View() == old(View()).(order := M.Insert(old(View()).timers, old(View()).order, t.addr).0)
      ensures i == M.Insert(old(View()).timers, old(View()).order, t.addr).1
    {
      LowerBoundAgrees(t.Key());
      RecordOf(t);
      i := LowerBoundPosition(timers, t.Key());
      if i < |timers| { KeysAgree(i); }
      assert i < |timers| ==> Knows(timers[i]) && (timers[i] == t <==> View().order[i] == t.addr);
      hide M.Sorted, M.LowerBound, TimerManager.View, TimerManager.Shape, TimerManager.Addresses;
      if !(i < |timers| && timers[i] == t) {
        SpliceAt(t, i);
      }
    }

    /** The protected addTimer: insertion and the coalesced front notification. */
    method AddTimerLocked(t: Timer)
      requires InOrder() && Knows(t)
      modifies this`timers, this`tickled, this`notified
      ensures Shape()
      ensures var (s, front) := M.AddAndNotify(old(View()), t.addr);
        View() == s && notified == old(notified) + (if front then 1 else 0)
    {
      var it := InsertTimer(t);
      var atFront := it == 0 && !tickled;
      if atFront {
        tickled := true;
      }
      if atFront {
        notified := notified + 1;
      }
    }

    method AddTimer(ms: Word, cb: Option<nat>, recurring: bool, now: Word, addr: nat) returns (t: Timer)
      requires Valid() && addr !in known
      modifies this
      ensures Valid() && fresh(t) && known == old(known)[addr := t] && born == old(born)[addr := cb]
      ensures var (s, front) := M.AddTimer(old(View()), addr, ms, cb, recurring, now);
        View() == s && notified == old(notified) + (if front then 1 else 0)
    {
      hide M.Sorted, M.AddAndNotify, M.Valid, Add64;
      ghost var s := View();
      M.ValidIsSorted(s, born);
      M.AddTimerValid(s, addr, ms, cb, recurring, now, born);
      t := new Timer(addr, ms, cb, recurring, this, now);
      known := known[addr := t];
      born := born[addr := cb];
      assert View().timers == s.timers[addr := M.Timer(recurring, ms, Add64(now, ms), cb)];
      assert Shape() && View().order == s.order;
      hide TimerManager.View, TimerManager.Shape;
      M.SortedFrame(s.timers, View().timers, s.order);
      AddTimerLocked(t);
    }

    method GetNextTimer(now: Word) returns (wait: Word)
      requires Valid()
      modifies this`tickled
      ensures Valid()
      ensures (View(), wait) == M.GetNextTimer(old(View()), now)
    {
      tickled := false;
      assert View().timers == old(View()).timers;
      if timers == [] {
        return ALL_ONES;
      }
      KeysAgree(0);
      var next := timers[0];
      if now >= next.next {
        return 0;
      } else {
        return next.next - now;
      }
    }

    method DetectClockRollover(now: Word) returns (rollover: bool)
      modifies this`previous
      ensures rollover == M.Rollover(old(View()).previous, now)
      ensures rollover <==> now < old(previous) && (old(previous) < 3_600_000 || now + 3_600_000 < old(previous))
      ensures View() == old(View()).(previous := now) && Shape() == old(Shape())
    {
      rollover := false;
      if now < previous && now < Sub64(previous, 60 * 60 * 1000) {
        rollover := true;
      }
      previous := now;
    }

    /** listExpiredCb with nobody coming in between its two locks. */
    method ListExpiredCb(now: Word, probe: nat) returns (cbs: seq<Option<nat>>)
      requires Valid()
      modifies this, timers
      ensures known == old(known) && born == old(born) && notified == old(notified) && Valid()
      ensures var r := M.ListExpired(old(View()), now, probe);
        && View() == r.s
        && |cbs| == |r.fired|
        && forall i :: 0 <= i < |cbs| ==>
          r.fired[i] in old(View()).timers && cbs[i] == old(View()).timers[r.fired[i]].cb
    {
      hide M.Sorted, M.Valid, M.FireAll, M.ExpiredEnd, M.Rollover;
      M.ValidIsSorted(View(), born);
      cbs := [];
      if timers == [] {
        return;
      }
      var stop;
      stop, cbs := ExpireLocked(now, probe);
    }

    /** The second lock region, in whatever state it finds the set; `stop` is the failing line, or 0. */
    method ExpireLocked(now: Word, probe: nat) returns (stop: nat, cbs: seq<Option<nat>>)
      requires Valid()
      modifies this, timers
      ensures known == old(known) && born == old(born) && notified == old(notified)
      ensures match M.Sweep(false, old(View()), now, probe)
              case Dereferenced => stop == 158
              case Swept(r) =>
                && stop == 0 && Valid()
                && View() == r.s
                && |cbs| == |r.fired|
                && forall i :: 0 <= i < |cbs| ==>
                  r.fired[i] in old(View()).timers && cbs[i] == old(View()).timers[r.fired[i]].cb
    {
      hide M.Sorted, M.Valid, M.FireAll, M.ExpiredEnd, M.Rollover, M.ListExpired, TimerManager.View, TimerManager.Shape;
      ghost var s := View();
      M.ValidIsSorted(s, born);
      M.ListExpiredCases(s, now, probe);
      M.CollectedValid(s, now, probe, born);
      var rollover := DetectClockRollover(now);
      stop, cbs := ExpireSet(rollover, now, probe);
    }

    /** Whether anything expires, and everything that does. */
    method ExpireSet(rollover: bool, now: Word, probe: nat) returns (stop: nat, cbs: seq<Option<nat>>)
      requires InOrder()
      modifies this`timers, timers
      ensures known == old(known) && Shape()
      ensures var s := old(View());
        var end := M.ExpiredEnd(s.timers, s.order, rollover, now, probe);
        if s.order == [] then stop == (if rollover then 0 else 158) && View() == s && cbs == []
        else if !rollover && s.timers[s.order[0]].next > now then stop == 0 && View() == s && cbs == []
        else
          && stop == 0 && |cbs| == end
          && (forall i :: 0 <= i < end ==> s.order[i] in s.timers && cbs[i] == s.timers[s.order[i]].cb)
          && M.Sorted(s.timers, s.order[end..])
          && (forall a :: a in s.order[..end] ==> a in s.timers && a !in s.order[end..])
          && (forall i, j :: 0 <= i < j < end ==> s.order[..end][i] != s.order[..end][j])
          && var (ts, order) := M.FireAll(s.timers, s.order[end..], s.order[..end], now);
             View() == s.(timers := ts, order := order)
    {
      hide M.FireAll, M.ExpiredEnd;
      stop, cbs := 0, [];
      if timers != [] { KeysAgree(0); }
      if !rollover {
        if timers == [] {
          return 158, [];
        }
        if timers[0].next > now {
          return;
        }
      }
      // On an empty set the rest comes to nothing.
      if timers != [] {
        var it := ScanExpired(rollover, now, probe);
        cbs := ExpireFirst(it, now);
      }
    }

    /** Takes the first `it` timers out of the set and fires them. */
    method ExpireFirst(it: nat, now: Word) returns (cbs: seq<Option<nat>>)
      requires InOrder() && it <= |timers|
      modifies this`timers, timers
      ensures known == old(known) && Shape()
      ensures M.Sorted(old(View()).timers, old(View()).order[it..])
      ensures forall a :: a in old(View()).order[..it] ==> a in old(View()).timers && a !in old(View()).order[it..]
      ensures forall i, j :: 0 <= i < j < it ==> old(View()).order[..it][i] != old(View()).order[..it][j]
      ensures var (ts, order) := M.FireAll(old(View()).timers, old(View()).order[it..], old(View()).order[..it], now);
        View() == old(View()).(timers := ts, order := order)
      ensures |cbs| == it
      ensures forall i :: 0 <= i < it ==>
        old(View()).order[i] in old(View()).timers && cbs[i] == old(View()).timers[old(View()).order[i]].cb
    {
      hide M.FireAll;
      ghost var s := View();
      ghost var all := timers;
      M.SplitSorted(s.timers, s.order, it);
      var expired := timers[..it];
      timers := timers[it..];
      assert Addresses(timers) == s.order[it..] && Addresses(expired) == s.order[..it];
      assert View() == s.(order := s.order[it..]);
      hide M.Sorted;
      forall t | t in expired || t in timers ensures Knows(t) {
        assert t in all;
      }
      assert Addresses(expired)[0..] == s.order[..it];
      cbs := FireExpired(expired, now);
    }

    /** The iterator of listExpiredCb: lower_bound of the probe timer, then past equal deadlines. */
    method ScanExpired(rollover: bool, now: Word, probe: nat) returns (it: nat)
      requires InOrder()
      ensures it == M.ExpiredEnd(View().timers, View().order, rollover, now, probe)
    {
      LowerBoundAgrees(M.Key(now, probe));
      it := if rollover then |timers| else LowerBoundPosition(timers, M.Key(now, probe));
      ghost var start, ts, order := it, View().timers, View().order;
      assert M.ExpiredEnd(ts, order, rollover, now, probe) == M.SkipEqual(ts, order, now, start);
      assert Shape() && |order| == |timers|;
      hide M.Sorted, M.ExpiredEnd, M.LowerBound, LowerBoundPosition, View, Shape, Addresses, M.KeyLess;
      while it < |timers| && timers[it].next == now
        invariant start <= it <= |timers|
        invariant M.SkipEqual(ts, order, now, start) == M.SkipEqual(ts, order, now, it)
      {
        KeysAgree(it);
        it := it + 1;
      }
      if it < |timers| { KeysAgree(it); }
    }

    /** One turn of the loop over the expired timers. */
    method FireOne(timer: Timer, now: Word)
      requires InOrder() && Knows(timer) && timer.addr !in View().order
      modifies this`timers, timer
      ensures known == old(known) && InOrder() && timer.recurring == old(timer.recurring)
      ensures var ts := old(View()).timers[timer.addr := M.Fired(old(View()).timers[timer.addr], now)];
        && M.Sorted(ts, old(View()).order)
        && View() == old(View()).(timers := ts,
             order := if timer.recurring then M.Insert(ts, old(View()).order, timer.addr).0 else old(View()).order)
      ensures forall a :: a in View().order ==> a in old(View()).order || a == timer.addr
    {
      hide M.Sorted, M.Insert, Add64;
      ghost var s := View();
      M.SortedMembers(s.timers, s.order);
      label before:
      if timer.recurring {
        timer.next := Add64(now, timer.ms);
        Rerecorded@before(timer);
        M.SortedFrame(s.timers, View().timers, s.order);
        M.InsertSorted(View().timers, s.order, timer.addr);
        var _ := InsertTimer(timer);
      } else {
        timer.cb := None;
        Rerecorded@before(timer);
        M.SortedFrame(s.timers, View().timers, s.order);
      }
    }

    /** The loop over the expired timers. */
    method FireExpired(expired: seq<Timer>, now: Word) returns (cbs: seq<Option<nat>>)
      requires InOrder()
      requires forall t <- expired :: Knows(t)
      requires Pending(View(), View(), Addresses(expired), 0)
      modifies this`timers, expired
      ensures known == old(known) && Shape()
      ensures View() == Outcome(old(View()), old(View()), Addresses(expired), 0, now)
      ensures |cbs| == |expired|
      ensures forall i :: 0 <= i < |cbs| ==>
        Addresses(expired)[i] in old(View()).timers && cbs[i] == old(View()).timers[Addresses(expired)[i]].cb
    {
      ghost var s := View();
      ghost var batch := Addresses(expired);
      assert forall i :: 0 <= i < |expired| ==> Knows(expired[i]) && batch[i] == expired[i].addr;
      hide M.Sorted, M.Insert, M.Fired, TimerManager.View, TimerManager.Shape, TimerManager.Addresses, Pending, Outcome;
      cbs := [];
      var k := 0;
      while k < |expired|
        invariant 0 <= k <= |expired|
        invariant InOrder()
        invariant Pending(View(), s, batch, k)
        invariant Outcome(View(), s, batch, k, now) == Outcome(s, s, batch, 0, now)
        invariant |cbs| == k
        invariant forall i :: 0 <= i < k ==> batch[i] in s.timers && cbs[i] == s.timers[batch[i]].cb
      {
        var timer := expired[k];
        RecordOf(timer);
        NextPending(View(), s, batch, k);
        cbs := cbs + [timer.cb];
        ghost var v := View();
        FireOne(timer, now);
        FiredAnother(v, View(), s, batch, k, now);
        k := k + 1;
      }
      OutcomeOfNone(View(), s, batch, now);
    }
  }
}
