/** What a run after loading a save state shares with the run that was not interrupted. */
module SchedulerReplay {
  import opened EventHeap
  import opened SchedulerModel
  import opened SchedulerRuns
  import opened SchedulerSave

  /** Two valid states that no query of a component can tell apart; their heap arrays may differ. */
  ghost predicate Alike(s: State, t: State) {
    Good(s) && Good(t) && ViewOf(s) == ViewOf(t)
  }

  /** The same outcome, up to states that are alike. */
  ghost predicate AlikeAfter<T>(o: Outcome<(State, T)>, p: Outcome<(State, T)>) {
    match (o, p)
    case (Done((s, a)), Done((t, b))) => Alike(s, t) && a == b
    case (Panicked, Panicked) => true
    case (Misused, Misused) => true
    case (Unfinished, Unfinished) => true
    case _ => false
  }

  lemma SameSize(s: State, t: State)
    requires Alike(s, t)
    ensures s.size == t.size && s.now == t.now && s.nextUid == t.nextUid && Pending(s) == Pending(t)
  {
    PendingSize(s);
    PendingSize(t);
  }

  lemma AddAlike(s: State, t: State, delay: U64, class_: U16, priority: nat, userData: U64, current: U64)
    requires Alike(s, t)
    ensures AlikeAfter(Exec(s, AddEvent(delay, class_, priority, userData), current),
                       Exec(t, AddEvent(delay, class_, priority, userData), current))
  {
    SameSize(s, t);
    if Exec(s, AddEvent(delay, class_, priority, userData), current).Done? {
      hide Good, Insert, KeyOf, Regular, Pending;
      assert NewEvent(s, delay, class_, priority, userData) == NewEvent(t, delay, class_, priority, userData);
      AddKeepsGood(s, delay, class_, priority, userData);
      AddKeepsGood(t, delay, class_, priority, userData);
    }
  }

  lemma CancelAlike(s: State, t: State, uid: U64, current: U64)
    requires Alike(s, t)
    ensures AlikeAfter(Exec(s, CancelEvent(uid), current), Exec(t, CancelEvent(uid), current))
  {
    hide Good, Remove, Find;
    SameSize(s, t);
    SameFind(s, t, uid);
    SameFind(t, s, uid);
    if Exec(s, CancelEvent(uid), current).Done? {
      RemoveKeepsGood(s, Find(s, uid, 0));
      RemoveKeepsGood(t, Find(t, uid, 0));
    }
    hide ViewOf, Pending;
  }

  lemma ExecAlike(s: State, t: State, c: Command, current: U64)
    requires Alike(s, t)
    ensures AlikeAfter(Exec(s, c, current), Exec(t, c, current))
  {
    hide Exec, Alike;
    match c
    case AddEvent(delay, class_, priority, userData) => AddAlike(s, t, delay, class_, priority, userData, current);
    case CancelEvent(uid) => CancelAlike(s, t, uid, current);
  }

  lemma {:induction false} ExecAllAlike(s: State, t: State, cs: seq<Command>, current: U64)
    requires Alike(s, t)
    ensures AlikeAfter(ExecAll(s, cs, current), ExecAll(t, cs, current))
    decreases |cs|
  {
    hide Exec, Alike;
    if cs != [] {
      ExecAlike(s, t, cs[0], current);
      if Exec(s, cs[0], current).Done? {
        ExecAllAlike(Exec(s, cs[0], current).value.0, Exec(t, cs[0], current).value.0, cs[1..], current);
      }
    }
  }

  // ---------------------------------------------------------------- ties

  /** No other pending event has the key of the first one. */
  ghost predicate Untied(e: Record, v: View) {
    forall f :: f in v.pending && f != e ==> f.key != e.key
  }

  ghost predicate TieFree(log: seq<LogEntry>) {
    forall i :: 0 <= i < |log| && log[i].Dispatched? ==> Untied(log[i].event, log[i].seen)
  }

  lemma SameTopTime(s: State, t: State)
    requires Alike(s, t) && s.size > 0
    ensures s.slots[0].timestamp == t.slots[0].timestamp && s.slots[0].key == t.slots[0].key
  {
    SameSize(s, t);
    TopIsNext(s);
    TopIsNext(t);
    KeyOrder(s.slots[0], t.slots[0]);
    KeyOrder(t.slots[0], s.slots[0]);
  }

  /** A tied event could as well be the first: the same events in another layout. */
  lemma OtherTop(s: State, f: Record) returns (t: State)
    requires Good(s) && s.size > 0 && f in Pending(s) && f.key == s.slots[0].key
    ensures Alike(s, t) && t.size > 0 && t.slots[0] == f
  {
    hide GoodView, Ordered;
    PendingAt(s, f);
    var i :| 0 <= i < s.size && s.slots[i] == f;
    t := Swapped(s, i);
  }

  lemma Swapped(s: State, i: nat) returns (t: State)
    requires i < s.size && s.slots[i].key == s.slots[0].key
    ensures t.size == s.size && t.slots[0] == s.slots[i] && ViewOf(t) == ViewOf(s)
    ensures Ordered(s.slots, s.size) ==> Ordered(t.slots, t.size)
  {
    hide Ordered;
    t := s.(slots := Swap(s.slots, 0, i));
    SwapPermutes(s.slots, s.size, 0, i);
    if Ordered(s.slots, s.size) { SameKeysOrdered(s.slots, t.slots, s.size); }
  }

  lemma SameKeysOrdered(h: seq<Record>, g: seq<Record>, size: nat)
    requires size <= |h| == |g| && Ordered(h, size) && forall j :: 0 <= j < |h| ==> g[j].key == h[j].key
    ensures Ordered(g, size)
  {
    forall j | 0 < j < size ensures g[Parent(j)].key <= g[j].key {
      assert h[Parent(j)].key <= h[j].key;
    }
  }

  /** How much queries tell about the next event: the states that no query can tell from `s` all dispatch the same event
      next if and only if no other pending event has the key of the first one. */
  lemma NextEventIff(s: State)
    requires Good(s) && s.size > 0
    ensures (forall t: State :: Alike(s, t) ==> t.size > 0 && t.slots[0] == s.slots[0]) <==> Untied(s.slots[0], ViewOf(s))
  {
    hide Good;
    if Untied(s.slots[0], ViewOf(s)) {
      forall t: State | Alike(s, t) ensures t.size > 0 && t.slots[0] == s.slots[0] {
        SameTop(s, t);
      }
    } else {
      var f :| f in ViewOf(s).pending && f != s.slots[0] && f.key == s.slots[0].key;
      var t := OtherTop(s, f);
    }
  }

  lemma SameTop(s: State, t: State)
    requires Alike(s, t) && s.size > 0 && Untied(s.slots[0], ViewOf(s))
    ensures t.size > 0 && s.slots[0] == t.slots[0]
  {
    SameSize(s, t);
    SameTopTime(s, t);
    TopIsNext(t);
  }

  function Both<Env>(o: Outcome<Run<Env>>): Outcome<(State, (Env, seq<LogEntry>))> {
    match o
    case Done(r) => Done((r.state, (r.env, r.log)))
    case Panicked => Panicked
    case Misused => Misused
    case Unfinished => Unfinished
  }

  lemma ClockAlike(s: State, t: State)
    requires Alike(s, t) && s.size > 0
    ensures Alike(s.(now := s.slots[0].timestamp), t.(now := s.slots[0].timestamp))
  {
    SameSize(s, t);
    SameTopTime(s, t);
    ClockToTop(s);
    ClockToTop(t);
  }

  lemma DispatchAlike<Env>(cb: Callback<Env>, s: State, t: State, env: Env)
    requires Alike(s, t) && s.size > 0 && Untied(s.slots[0], ViewOf(s)) && s.slots[0].timestamp < TIME_LIMIT
    ensures t.size > 0 && AlikeAfter(Both(Dispatch(cb, s, env)), Both(Dispatch(cb, t, env)))
  {
    hide Alike, AlikeAfter, Dispatch, Untied;
    SameTop(s, t);
    DispatchSameTop(cb, s, t, env);
  }

  /** Tied or not, states that are alike and have the same first event dispatch it alike. */
  lemma DispatchSameTop<Env>(cb: Callback<Env>, s: State, t: State, env: Env)
    requires Alike(s, t) && s.size > 0 && t.size > 0 && s.slots[0] == t.slots[0] && s.slots[0].timestamp < TIME_LIMIT
    ensures AlikeAfter(Both(Dispatch(cb, s, env)), Both(Dispatch(cb, t, env)))
  {
    var e := s.slots[0];
    var s0, t0 := s.(now := e.timestamp), t.(now := e.timestamp);
    ClockAlike(s, t);
    TopIsNext(s);
    TopIsRegular(s);
    ClockToTop(s);
    assert ViewOf(s0) == ViewOf(t0) && e in Pending(s0);
    hide Good, Pending, Remove, Find, ExecAll, Sound, ViewOf, Regular;
    var cs := cb(e, ViewOf(s0), env).0;
    ExecAllAlike(s0, t0, cs, e.uid);
    if ExecAll(s0, cs, e.uid).Done? {
      ExecAllIsSound(s0, cs, e.uid);
      RetireAlike(ExecAll(s0, cs, e.uid).value.0, ExecAll(t0, cs, e.uid).value.0, e);
    }
  }

  lemma RetireAlike(s: State, t: State, e: Record)
    requires Alike(s, t) && e != SENTINEL && e in Pending(s)
    ensures Find(s, e.uid, 0) < s.size && Find(t, e.uid, 0) < t.size
    ensures Alike(Remove(s, Find(s, e.uid, 0)), Remove(t, Find(t, e.uid, 0)))
  {
    FindIsExact(s, e);
    FindIsExact(t, e);
    RemoveKeepsGood(s, Find(s, e.uid, 0));
    RemoveKeepsGood(t, Find(t, e.uid, 0));
    hide Good, Remove, Find, Pending;
  }

  // ---------------------------------------------------------------- whole runs

  lemma SameDue(s: State, t: State, limit: int)
    requires Alike(s, t)
    ensures Due(s, limit) == Due(t, limit)
  {
    SameSize(s, t);
    if s.size > 0 {
      SameTopTime(s, t);
    }
  }

  /** Two states that are alike run alike, dispatch by dispatch, as long as no dispatch has to break a tie
      between equal keys. */
  lemma {:induction false} RunsAlike<Env>(cb: Callback<Env>, s: State, t: State, env: Env, limit: int, fuel: nat)
    requires Alike(s, t) && limit < TIME_LIMIT
    requires Step(cb, s, env, limit, fuel).Done? && TieFree(Step(cb, s, env, limit, fuel).value.log)
    ensures AlikeAfter(Both(Step(cb, s, env, limit, fuel)), Both(Step(cb, t, env, limit, fuel)))
    decreases fuel
  {
    hide Dispatch, Alike, Untied, TieFree;
    SameDue(s, t, limit);
    if Due(s, limit) {
      var d := Dispatch(cb, s, env).value;
      var r := Step(cb, d.state, d.env, limit, fuel - 1).value;
      LogStartsWithTop(cb, s, env);
      TieFreeParts(d.log, r.log);
      UntiedWhateverTheClock(s);
      DispatchAlike(cb, s, t, env);
      RunsAlike(cb, d.state, Dispatch(cb, t, env).value.state, d.env, limit, fuel - 1);
    }
  }

  lemma TieFreeParts(a: seq<LogEntry>, b: seq<LogEntry>)
    requires TieFree(a + b) && a != []
    ensures TieFree(b) && (a[0].Dispatched? ==> Untied(a[0].event, a[0].seen))
  {
    assert (a + b)[0] == a[0];
    forall i | 0 <= i < |b| && b[i].Dispatched? ensures Untied(b[i].event, b[i].seen) {
      assert (a + b)[|a| + i] == b[i];
    }
  }

  lemma LogStartsWithTop<Env>(cb: Callback<Env>, s: State, env: Env)
    requires s.size > 0 && Dispatch(cb, s, env).Done?
    ensures Dispatch(cb, s, env).value.log != []
    ensures Dispatch(cb, s, env).value.log[0] == Dispatched(s.slots[0], ViewOf(s.(now := s.slots[0].timestamp)))
  {
  }

  lemma UntiedWhateverTheClock(s: State)
    requires s.size > 0
    ensures Untied(s.slots[0], ViewOf(s.(now := s.slots[0].timestamp))) <==> Untied(s.slots[0], ViewOf(s))
  {
    assert Pending(s.(now := s.slots[0].timestamp)) == Pending(s);
  }

  /** Save and load in the middle of a game cannot be noticed afterwards while no dispatch is tied: every run
      from the loaded state has the same log and the same environment as the run that went on without it. */
  lemma LoadingIsUnobservable<Env>(cb: Callback<Env>, s: State, slots: seq<Record>, env: Env, limit: int, fuel: nat)
    requires Good(s) && |slots| == MAX_EVENTS && limit < TIME_LIMIT
    requires Step(cb, s, env, limit, fuel).Done? && TieFree(Step(cb, s, env, limit, fuel).value.log)
    ensures Load(slots, Save(s)).Done?
    ensures AlikeAfter(Both(Step(cb, s, env, limit, fuel)), Both(Step(cb, Load(slots, Save(s)).value, env, limit, fuel)))
  {
    LoadAfterSave(s, slots);
    hide Load, Save, Step;
    RunsAlike(cb, s, Load(slots, Save(s)).value, env, limit, fuel);
  }

  // ---------------------------------------------------------------- keys that stay apart

  /** No two pending events have the same key. */
  ghost predicate Apart(p: multiset<Record>) {
    forall e, f :: e in p && f in p && e.key == f.key ==> e == f
  }

  /** The key of the event that a call of `Add` makes at the time `now`; there is none for other calls. */
  function KeyAdded(now: U64, c: Command): int {
    if c.AddEvent? && c.priority <= 3 then KeyOf(Later(now, c.delay), c.priority) else -1
  }

  /** The added events have keys that are not pending and that differ from each other. */
  ghost predicate AddsApart(now: U64, p: multiset<Record>, cs: seq<Command>) {
    && (forall i, e :: 0 <= i < |cs| && e in p ==> KeyAdded(now, cs[i]) != e.key)
    && (forall i, j :: 0 <= i < j < |cs| && KeyAdded(now, cs[i]) != -1 ==> KeyAdded(now, cs[i]) != KeyAdded(now, cs[j]))
  }

  /** A callback that never adds an event whose key is pending in the view it was given, nor two events with one key.
      Only views count that a dispatch from keys that are apart can have. */
  ghost predicate KeepsApart<Env(!new)>(cb: Callback<Env>) {
    forall e: Record, v: View, env: Env :: GoodView(v) && Apart(v.pending) && e in v.pending && e.timestamp == v.now ==>
                                             AddsApart(v.now, v.pending, cb(e, v, env).0)
  }

  lemma ApartAfterOne(s: State, c: Command, cs: seq<Command>, current: U64)
    requires Good(s) && Apart(Pending(s)) && AddsApart(s.now, Pending(s), [c] + cs) && Exec(s, c, current).Done?
    ensures var s' := Exec(s, c, current).value.0;
            Good(s') && s'.now == s.now && Apart(Pending(s')) && AddsApart(s'.now, Pending(s'), cs)
  {
    ExecIsSound(s, c, current);
    var s' := Exec(s, c, current).value.0;
    hide Good, Pending, KeyOf, Later, ExecAll;
    assert ([c] + cs)[0] == c && forall i :: 0 <= i < |cs| ==> cs[i] == ([c] + cs)[i + 1];
    match c
    case AddEvent(delay, class_, priority, userData) =>
      AddKeepsGood(s, delay, class_, priority, userData);
      ApartWithNew(s.now, Pending(s), NewEvent(s, delay, class_, priority, userData), c, cs);
    case CancelEvent(uid) =>
      RemoveKeepsGood(s, Find(s, uid, 0));
      ApartWithout(s.now, Pending(s), s.slots[Find(s, uid, 0)], c, cs);
  }

  lemma ApartWithNew(now: U64, p: multiset<Record>, e: Record, c: Command, cs: seq<Command>)
    requires Apart(p) && AddsApart(now, p, [c] + cs) && KeyAdded(now, c) == e.key
    ensures Apart(p + multiset{e}) && AddsApart(now, p + multiset{e}, cs)
  {
    hide KeyAdded;
    var all := [c] + cs;
    assert all[0] == c;
    forall i, f | 0 <= i < |cs| && f in p + multiset{e} ensures KeyAdded(now, cs[i]) != f.key {
      assert all[i + 1] == cs[i];
    }
    forall i, j | 0 <= i < j < |cs| && KeyAdded(now, cs[i]) != -1 ensures KeyAdded(now, cs[i]) != KeyAdded(now, cs[j]) {
      assert all[i + 1] == cs[i] && all[j + 1] == cs[j];
    }
  }

  lemma ApartWithout(now: U64, p: multiset<Record>, e: Record, c: Command, cs: seq<Command>)
    requires Apart(p) && AddsApart(now, p, [c] + cs)
    ensures Apart(p - multiset{e}) && AddsApart(now, p - multiset{e}, cs)
  {
    hide KeyAdded;
    var all := [c] + cs;
    forall i, f | 0 <= i < |cs| && f in p - multiset{e} ensures KeyAdded(now, cs[i]) != f.key {
      assert all[i + 1] == cs[i];
    }
    forall i, j | 0 <= i < j < |cs| && KeyAdded(now, cs[i]) != -1 ensures KeyAdded(now, cs[i]) != KeyAdded(now, cs[j]) {
      assert all[i + 1] == cs[i] && all[j + 1] == cs[j];
    }
  }

  lemma {:induction false} ApartAfterAll(s: State, cs: seq<Command>, current: U64)
    requires Good(s) && Apart(Pending(s)) && AddsApart(s.now, Pending(s), cs) && ExecAll(s, cs, current).Done?
    ensures Good(ExecAll(s, cs, current).value.0) && Apart(Pending(ExecAll(s, cs, current).value.0))
    decreases |cs|
  {
    hide Good, Pending, Exec, AddsApart, Apart;
    if cs != [] {
      assert cs == [cs[0]] + cs[1..];
      ApartAfterOne(s, cs[0], cs[1..], current);
      ApartAfterAll(Exec(s, cs[0], current).value.0, cs[1..], current);
    }
  }

  /** The dispatch loop keeps keys apart. */
  lemma ApartAfterDispatch<Env(!new)>(cb: Callback<Env>, s: State, env: Env, limit: int)
    requires Good(s) && Apart(Pending(s)) && KeepsApart(cb) && Due(s, limit) && limit < TIME_LIMIT && Dispatch(cb, s, env).Done?
    ensures Good(Dispatch(cb, s, env).value.state) && Apart(Pending(Dispatch(cb, s, env).value.state))
  {
    var e := s.slots[0];
    var s0 := s.(now := e.timestamp);
    ClockToTop(s);
    TopIsNext(s);
    TopIsRegular(s);
    var cs := cb(e, ViewOf(s0), env).0;
    assert e in Pending(s0);
    hide Good, Pending, ExecAll, Remove, Find, Apart, AddsApart;
    ApartAfterAll(s0, cs, e.uid);
    var s1 := ExecAll(s0, cs, e.uid).value.0;
    ExecAllIsSound(s0, cs, e.uid);
    FindIsExact(s1, e);
    RemoveKeepsGood(s1, Find(s1, e.uid, 0));
  }

  lemma ApartIsUntied(s: State)
    requires Good(s) && s.size > 0 && Apart(Pending(s))
    ensures Untied(s.slots[0], ViewOf(s))
  {
    PendingAt(s, s.slots[0]);
  }

  /** From keys that are apart, with a callback that keeps them apart, no run ever has to break a tie. */
  lemma {:induction false} NoRunIsTied<Env(!new)>(cb: Callback<Env>, s: State, env: Env, limit: int, fuel: nat)
    requires Good(s) && Apart(Pending(s)) && KeepsApart(cb) && limit < TIME_LIMIT
    requires Step(cb, s, env, limit, fuel).Done?
    ensures TieFree(Step(cb, s, env, limit, fuel).value.log)
    decreases fuel
  {
    hide Dispatch, Good, Untied, Apart, KeepsApart;
    if Due(s, limit) {
      var d := Dispatch(cb, s, env).value;
      ApartAfterDispatch(cb, s, env, limit);
      NoRunIsTied(cb, d.state, d.env, limit, fuel - 1);
      ApartIsUntied(s);
      UntiedWhateverTheClock(s);
      DispatchIsTieFree(cb, s, env);
    }
  }

  lemma DispatchIsTieFree<Env>(cb: Callback<Env>, s: State, env: Env)
    requires Good(s) && s.size > 0 && Dispatch(cb, s, env).Done?
    requires Untied(s.slots[0], ViewOf(s.(now := s.slots[0].timestamp)))
    ensures TieFree(Dispatch(cb, s, env).value.log)
  {
    hide Good, Untied, ExecAll, Pending, Remove, Find, TieFree, ViewOf;
    var e := s.slots[0];
    var s0 := s.(now := e.timestamp);
    ClockToTop(s);
    TopIsNext(s);
    var cs := cb(e, ViewOf(s0), env).0;
    ExecAllIsSound(s0, cs, e.uid);
    OneDispatch(e, ViewOf(s0), ExecAll(s0, cs, e.uid).value.1);
  }

  lemma OneDispatch(e: Record, v: View, log: seq<LogEntry>)
    requires Untied(e, v) && forall i :: 0 <= i < |log| ==> !log[i].Dispatched?
    ensures TieFree([Dispatched(e, v)] + log)
  {
  }

  /** With keys apart, alike states run alike whatever the outcome. */
  lemma {:induction false} ApartRunsAlike<Env(!new)>(cb: Callback<Env>, s: State, t: State, env: Env, limit: int, fuel: nat)
    requires Alike(s, t) && Apart(Pending(s)) && KeepsApart(cb) && limit < TIME_LIMIT
    ensures AlikeAfter(Both(Step(cb, s, env, limit, fuel)), Both(Step(cb, t, env, limit, fuel)))
    decreases fuel
  {
    hide Dispatch, Untied, Apart, KeepsApart, Good, Pending;
    SameDue(s, t, limit);
    if Due(s, limit) && fuel > 0 {
      ApartIsUntied(s);
      DispatchAlike(cb, s, t, env);
      if Dispatch(cb, s, env).Done? {
        ApartAfterDispatch(cb, s, env, limit);
        var d := Dispatch(cb, s, env).value;
        ApartRunsAlike(cb, d.state, Dispatch(cb, t, env).value.state, d.env, limit, fuel - 1);
      }
    }
  }

  /** Save and load cannot be noticed when the pending events have different keys, and the callback never adds an event
      whose key is pending or two events with one key: conditions that can be checked before the run. */
  lemma LoadingWithKeysApart<Env(!new)>(cb: Callback<Env>, s: State, slots: seq<Record>, env: Env, limit: int, fuel: nat)
    requires Good(s) && |slots| == MAX_EVENTS && limit < TIME_LIMIT && Apart(Pending(s)) && KeepsApart(cb)
    ensures Load(slots, Save(s)).Done?
    ensures AlikeAfter(Both(Step(cb, s, env, limit, fuel)), Both(Step(cb, Load(slots, Save(s)).value, env, limit, fuel)))
  {
    LoadAfterSave(s, slots);
    hide Load, Save, Step, Apart, KeepsApart;
    ApartRunsAlike(cb, s, Load(slots, Save(s)).value, env, limit, fuel);
  }
}
