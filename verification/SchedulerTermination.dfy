/** The dispatch loop ends when callbacks only add events in the future, and how soon. */
module SchedulerTermination {
  import opened EventHeap
  import opened SchedulerModel
  import opened SchedulerRuns

  /** The callback never asks for an event in the current cycle. */
  ghost predicate DelaysAtLeastOne<Env(!new)>(cb: Callback<Env>) {
    forall e: Record, v: View, env: Env, i ::
      var cs := cb(e, v, env).0;
      0 <= i < |cs| && cs[i].AddEvent? ==> cs[i].delay >= 1
  }

  /** The pending events whose time stamp is `t`. */
  ghost function At(s: State, t: nat): set<Record> {
    set e | e in Pending(s) && e.timestamp == t
  }

  /** An upper bound on the iterations the loop still makes: 64 for every later cycle up to the limit,
      and one for every event that is due in the current cycle. */
  ghost function Work(s: State, limit: nat): nat {
    (if s.now <= limit then limit - s.now else 0) * MAX_EVENTS + |At(s, s.now)|
  }

  lemma AtMostCapacity(s: State, t: nat)
    ensures |At(s, t)| <= s.size
  {
    var p, m := Pending(s), multiset(At(s, t));
    assert m <= p;
    assert p == m + (p - m);
    assert |m| == |At(s, t)|;
  }

  lemma SmallerSet<T>(a: set<T>, b: set<T>)
    requires a < b
    ensures |a| < |b|
  {
    assert b == a + (b - a);
  }

  lemma {:induction false} CallbackAddsOnlyLater(s: State, cs: seq<Command>, current: U64)
    requires Good(s) && ExecAll(s, cs, current).Done?
    requires forall i :: 0 <= i < |cs| && cs[i].AddEvent? ==> cs[i].delay >= 1
    ensures var (s', _) := ExecAll(s, cs, current).value;
            Good(s') && s'.now == s.now && At(s', s.now) <= At(s, s.now)
    decreases |cs|
  {
    hide Exec, Good, Pending, Sound;
    if cs != [] {
      OneCallAddsOnlyLater(s, cs[0], current);
      CallbackAddsOnlyLater(Exec(s, cs[0], current).value.0, cs[1..], current);
    }
  }

  lemma OneCallAddsOnlyLater(s: State, c: Command, current: U64)
    requires Good(s) && Exec(s, c, current).Done?
    requires c.AddEvent? ==> c.delay >= 1
    ensures var (s', _) := Exec(s, c, current).value;
            Good(s') && s'.now == s.now && At(s', s.now) <= At(s, s.now)
  {
    hide Exec, Good, Pending, Conserved, NewIds;
    match c
    case AddEvent(delay, class_, priority, userData) => AddIsSound(s, delay, class_, priority, userData, current);
    case CancelEvent(uid) => CancelIsSound(s, uid, current);
  }

  lemma RetireShrinks(s1: State, e: Record, t: nat)
    requires Good(s1) && e in Pending(s1) && e != SENTINEL && e.timestamp == t
    ensures Find(s1, e.uid, 0) < s1.size
    ensures var s2 := Remove(s1, Find(s1, e.uid, 0));
            Good(s2) && At(s2, t) < At(s1, t) && s2.size < MAX_EVENTS
  {
    FindIsExact(s1, e);
    var n := Find(s1, e.uid, 0);
    RemoveKeepsGood(s1, n);
    var s2 := Remove(s1, n);
    assert Pending(s1)[e] == 1;
    hide Good, Remove, Pending, Find;
    assert e in At(s1, t) && e !in At(s2, t);
  }

  /** Each iteration lowers the bound. */
  lemma WorkDecreases<Env(!new)>(cb: Callback<Env>, s: State, env: Env, limit: nat)
    requires Good(s) && Due(s, limit) && limit < TIME_LIMIT && DelaysAtLeastOne(cb)
    requires Dispatch(cb, s, env).Done?
    ensures Good(Dispatch(cb, s, env).value.state)
    ensures Work(Dispatch(cb, s, env).value.state, limit) < Work(s, limit)
  {
    var e := s.slots[0];
    var s0 := s.(now := e.timestamp);
    TopIsNext(s);
    ClockToTop(s);
    TopIsRegular(s);
    var (cs, env') := cb(e, ViewOf(s0), env);
    assert forall i :: 0 <= i < |cs| && cs[i].AddEvent? ==> cs[i].delay >= 1;
    assert At(s0, s0.now) == At(s, s0.now);
    DispatchParts(cb, s, env, s0, cs, env', ExecAll(s0, cs, e.uid));
    hide Dispatch, Good, ExecAll, ViewOf, Find, Remove, Regular, DelaysAtLeastOne, At, NotLater, Pending;
    CallbackWork(s0, cs, e);
    WorkArithmetic(s.now, s0.now, limit, |At(s, s.now)|, |At(Dispatch(cb, s, env).value.state, s0.now)|);
  }

  /** A callback and the removal of its event leave fewer events in the current cycle. */
  lemma CallbackWork(s0: State, cs: seq<Command>, e: Record)
    requires Good(s0) && e in Pending(s0) && e != SENTINEL && e.timestamp == s0.now
    requires forall i :: 0 <= i < |cs| && cs[i].AddEvent? ==> cs[i].delay >= 1
    requires ExecAll(s0, cs, e.uid).Done?
    ensures var s1 := ExecAll(s0, cs, e.uid).value.0;
            var n := Find(s1, e.uid, 0);
            n < s1.size &&
            var s2 := Remove(s1, n);
            && Good(s2) && s2.now == s0.now
            && |At(s2, s0.now)| < |At(s0, s0.now)| && |At(s2, s0.now)| < MAX_EVENTS
  {
    hide Good, ExecAll, Find, Remove, At, Pending, Conserved, NewIds;
    var s1 := ExecAll(s0, cs, e.uid).value.0;
    ExecAllIsSound(s0, cs, e.uid);
    CallbackAddsOnlyLater(s0, cs, e.uid);
    RetireShrinks(s1, e, s0.now);
    var s2 := Remove(s1, Find(s1, e.uid, 0));
    RemoveKeepsClock(s1, Find(s1, e.uid, 0));
    SmallerSet(At(s2, s0.now), At(s0, s0.now));
    AtMostCapacity(s2, s0.now);
  }

  lemma WorkArithmetic(before: nat, after: nat, limit: nat, dueBefore: nat, dueAfter: nat)
    requires before <= after <= limit && dueAfter < MAX_EVENTS
    requires before == after ==> dueAfter < dueBefore
    ensures (limit - after) * MAX_EVENTS + dueAfter < (limit - before) * MAX_EVENTS + dueBefore
  {
  }

  /** The loop ends within its work bound. */
  lemma {:induction false} StepTerminates<Env(!new)>(cb: Callback<Env>, s: State, env: Env, limit: nat, fuel: nat)
    requires Good(s) && limit < TIME_LIMIT && DelaysAtLeastOne(cb) && fuel >= Work(s, limit)
    ensures Step(cb, s, env, limit, fuel) != Unfinished
    decreases fuel
  {
    hide Dispatch, Good, Work, DelaysAtLeastOne, Pending;
    if Due(s, limit) {
      var d := Dispatch(cb, s, env);
      NoLooseEnd(cb, s, env);
      if d.Done? {
        WorkDecreases(cb, s, env, limit);
        StepTerminates(cb, d.value.state, d.value.env, limit, fuel - 1);
      } else {
        WorkIsPositive(s, limit);
      }
    }
  }

  lemma {:induction false} ExecAllEnds(s: State, cs: seq<Command>, current: U64)
    ensures ExecAll(s, cs, current) != Unfinished
    decreases |cs|
  {
    if cs != [] && Exec(s, cs[0], current).Done? {
      ExecAllEnds(Exec(s, cs[0], current).value.0, cs[1..], current);
    }
  }

  lemma NoLooseEnd<Env>(cb: Callback<Env>, s: State, env: Env)
    requires s.size > 0
    ensures Dispatch(cb, s, env) != Unfinished
  {
    var s0 := s.(now := s.slots[0].timestamp);
    ExecAllEnds(s0, cb(s.slots[0], ViewOf(s0), env).0, s.slots[0].uid);
  }

  lemma WorkIsPositive(s: State, limit: nat)
    requires Good(s) && Due(s, limit)
    ensures Work(s, limit) > 0
  {
    TopIsNext(s);
    if s.now == limit {
      assert s.slots[0] in At(s, s.now);
    }
  }

  /** `AddCycles` always comes to an end, after at most 64 dispatches for each cycle it covers, the current
      one included, when callbacks add events with a delay of at least one cycle. */
  lemma AddCyclesTerminates<Env(!new)>(cb: Callback<Env>, s: State, env: Env, cycles: nat, fuel: nat)
    requires Good(s) && s.now + cycles < TIME_LIMIT && DelaysAtLeastOne(cb)
    requires fuel >= (cycles + 1) * MAX_EVENTS
    ensures AddCycles(cb, s, env, cycles, fuel) != Unfinished
  {
    hide Step, At, DelaysAtLeastOne, Good;
    AtMostCapacity(s, s.now);
    assert Work(s, s.now + cycles) <= cycles * MAX_EVENTS + MAX_EVENTS;
    StepTerminates(cb, s, env, s.now + cycles, fuel);
  }

  // ---------------------------------------------------------------- the rule is needed

  /** A callback that re-arms its own event in the current cycle. */
  function Rearm(e: Record, v: View, env: ()): (seq<Command>, ()) {
    ([AddEvent(0, e.class_, 0, 0)], ())
  }

  /** One event with uid `uid` is due at cycle 0. */
  ghost predicate Busy(s: State, uid: nat) {
    && s.size == 2 && s.now == 0 && s.nextUid == uid + 1
    && s.slots[0] == Record(0, 0, uid, 0, 0) && s.slots[1] == SENTINEL
  }

  lemma BusyAgain(s: State, uid: U64)
    requires 2 <= uid && uid + 2 < TWO_64 && Busy(s, uid)
    ensures Dispatch(Rearm, s, ()).Done? && Busy(Dispatch(Rearm, s, ()).value.state, uid + 1)
  {
    var c := AddEvent(0, 0, 0, 0);
    var e := NewEvent(s, 0, 0, 0, 0);
    assert s.(now := 0) == s;
    assert Insert(s.slots, 2, e) == s.slots[2 := e];
    var s1 := s.(slots := s.slots[2 := e], size := 3, nextUid := uid + 2);
    assert Exec(s, c, uid) == Done((s1, Added(e)));
    assert ExecAll(s1, [], uid) == Done((s1, []));
    assert [c][1..] == [];
    assert ExecAll(s, [c], uid).Done? && ExecAll(s, [c], uid).value.0 == s1;
    assert Find(s1, uid, 0) == 0;
    var h := Swap(s1.slots, 0, 2);
    assert h[0] == e && h[1] == SENTINEL;
    assert Heapify(h, 2, 0) == h;
  }

  /** Without that rule the loop need not end: an event re-armed in its own cycle keeps it busy. */
  lemma {:induction false} ZeroDelayNeverEnds(s: State, uid: U64, fuel: nat)
    requires 2 <= uid && uid + fuel + 2 < TWO_64 && Busy(s, uid)
    ensures Step(Rearm, s, (), 0, fuel) == Unfinished
    decreases fuel
  {
    hide Dispatch;
    if fuel > 0 {
      BusyAgain(s, uid);
      assert Dispatch(Rearm, s, ()).value.env == ();
      ZeroDelayNeverEnds(Dispatch(Rearm, s, ()).value.state, uid + 1, fuel - 1);
    }
  }
}
