/** What every run of the dispatch loop keeps and achieves: order and conservation of events. */
module SchedulerRuns {
  import opened EventHeap
  import opened SchedulerModel

  // ---------------------------------------------------------------- what a log says

  datatype Kind = Adding | Cancelling | Dispatching

  function KindOf(entry: LogEntry): Kind {
    match entry
    case Dispatched(_, _) => Dispatching
    case Added(_) => Adding
    case Cancelled(_) => Cancelling
  }

  /** How often event `e` was added, cancelled or dispatched according to a log. */
  function Times(log: seq<LogEntry>, kind: Kind, e: Record): nat {
    if log == [] then 0
    else (if KindOf(log[0]) == kind && log[0].event == e then 1 else 0) + Times(log[1..], kind, e)
  }

  lemma {:induction false} TimesConcatenate(a: seq<LogEntry>, b: seq<LogEntry>, kind: Kind, e: Record)
    ensures Times(a + b, kind, e) == Times(a, kind, e) + Times(b, kind, e)
  {
    if a == [] {
      assert a + b == b;
    } else {
      TimesConcatenate(a[1..], b, kind, e);
      assert (a + b)[0] == a[0] && (a + b)[1..] == a[1..] + b;
    }
  }

  lemma TimesInOne(entry: LogEntry, kind: Kind, e: Record)
    ensures Times([entry], kind, e) == if KindOf(entry) == kind && entry.event == e then 1 else 0
  {
    assert [entry][1..] == [];
  }

  /** No event appears or vanishes: what was pending or got added is pending, dispatched or cancelled in the end. */
  ghost predicate Conserved(before: multiset<Record>, log: seq<LogEntry>, after: multiset<Record>) {
    forall e :: before[e] + Times(log, Adding, e) ==
                after[e] + Times(log, Dispatching, e) + Times(log, Cancelling, e)
  }

  /** Every uid handed out lies in [lo, hi) and is handed out once. */
  ghost predicate NewIds(log: seq<LogEntry>, lo: nat, hi: nat) {
    && lo <= hi
    && (forall e :: Times(log, Adding, e) > 0 ==> lo <= e.uid < hi && Times(log, Adding, e) == 1)
    && (forall e, f :: Times(log, Adding, e) > 0 && Times(log, Adding, f) > 0 && e.uid == f.uid ==> e == f)
  }

  lemma ConservedTwice(a: multiset<Record>, l: seq<LogEntry>, b: multiset<Record>, m: seq<LogEntry>, c: multiset<Record>)
    requires Conserved(a, l, b) && Conserved(b, m, c)
    ensures Conserved(a, l + m, c)
  {
    hide Times;
    forall e
      ensures a[e] + Times(l + m, Adding, e) == c[e] + Times(l + m, Dispatching, e) + Times(l + m, Cancelling, e)
    {
      TimesConcatenate(l, m, Adding, e);
      TimesConcatenate(l, m, Dispatching, e);
      TimesConcatenate(l, m, Cancelling, e);
    }
  }

  lemma NewIdsTwice(l: seq<LogEntry>, m: seq<LogEntry>, lo: nat, mid: nat, hi: nat)
    requires NewIds(l, lo, mid) && NewIds(m, mid, hi)
    ensures NewIds(l + m, lo, hi)
  {
    hide Times;
    forall e ensures Times(l + m, Adding, e) == Times(l, Adding, e) + Times(m, Adding, e) {
      TimesConcatenate(l, m, Adding, e);
    }
  }

  /** Every dispatch happens at the event's own time stamp, not after `limit`, and takes a pending event
      that no pending event precedes in (time stamp, priority). */
  ghost predicate FirstCome(log: seq<LogEntry>, from: nat, limit: int) {
    forall i :: 0 <= i < |log| && log[i].Dispatched? ==>
      && from <= log[i].event.timestamp <= limit
      && log[i].seen.now == log[i].event.timestamp
      && log[i].event in log[i].seen.pending
      && forall f :: f in log[i].seen.pending ==> NotLater(log[i].event, f)
  }

  /** Dispatch times never decrease. */
  ghost predicate Chronological(log: seq<LogEntry>) {
    forall i, j :: 0 <= i < j < |log| && log[i].Dispatched? && log[j].Dispatched? ==>
      log[i].event.timestamp <= log[j].event.timestamp
  }

  /** One step of a run: state invariant, conservation, and fresh uids. */
  ghost predicate Sound(before: State, log: seq<LogEntry>, after: State) {
    && Good(after)
    && Conserved(Pending(before), log, Pending(after))
    && NewIds(log, before.nextUid, after.nextUid)
  }

  lemma SoundTwice(a: State, l: seq<LogEntry>, b: State, m: seq<LogEntry>, c: State)
    requires Sound(a, l, b) && Sound(b, m, c)
    ensures Sound(a, l + m, c)
  {
    hide Good, Conserved, NewIds, Pending;
    ConservedTwice(Pending(a), l, Pending(b), m, Pending(c));
    NewIdsTwice(l, m, a.nextUid, b.nextUid, c.nextUid);
  }

  lemma EmptyIsSound(s: State)
    requires Good(s)
    ensures Sound(s, [], s)
  {
    hide Good, Pending;
  }

  // ---------------------------------------------------------------- one call of a callback

  lemma AddIsSound(s: State, delay: U64, class_: U16, priority: nat, userData: U64, current: U64)
    requires Good(s) && Exec(s, AddEvent(delay, class_, priority, userData), current).Done?
    ensures var (s', entry) := Exec(s, AddEvent(delay, class_, priority, userData), current).value;
            && Sound(s, [entry], s') && s'.now == s.now
            && entry.Added? && entry.event.timestamp == s.now + delay
            && Pending(s') == Pending(s) + multiset{entry.event}
  {
    var (s', entry) := Exec(s, AddEvent(delay, class_, priority, userData), current).value;
    AddKeepsGood(s, delay, class_, priority, userData);
    NewEventIsRegular(s, delay, class_, priority, userData);
    hide GoodView, Insert, KeyOf, NewEvent, Pending, Regular, Times, Ordered;
    forall e, kind ensures Times([entry], kind, e) == if kind == Adding && entry.event == e then 1 else 0 {
      TimesInOne(entry, kind, e);
    }
  }

  lemma CancelIsSound(s: State, uid: U64, current: U64)
    requires Good(s) && Exec(s, CancelEvent(uid), current).Done?
    ensures var (s', entry) := Exec(s, CancelEvent(uid), current).value;
            && Sound(s, [entry], s') && s'.now == s.now
            && entry.Cancelled? && entry.event.uid == uid != current
            && Pending(s') == Pending(s) - multiset{entry.event}
  {
    var n := Find(s, uid, 0);
    var entry := Cancelled(s.slots[n]);
    RemoveKeepsGood(s, n);
    RemoveIsSound(s, n);
  }

  lemma RemoveIsSound(s: State, n: nat)
    requires Good(s) && n < s.size && s.slots[n] != SENTINEL
    ensures Sound(s, [Cancelled(s.slots[n])], Remove(s, n))
  {
    RemoveKeepsGood(s, n);
    assert Remove(s, n).nextUid == s.nextUid;
    hide Good, Remove, Pending, Times, Conserved, NewIds;
    CancelConserves(Pending(s), s.slots[n], s.nextUid);
  }

  lemma CancelConserves(p: multiset<Record>, e: Record, lo: nat)
    requires e in p
    ensures Conserved(p, [Cancelled(e)], p - multiset{e})
    ensures NewIds([Cancelled(e)], lo, lo)
  {
    hide Times;
    forall f, kind ensures Times([Cancelled(e)], kind, f) == if kind == Cancelling && e == f then 1 else 0 {
      TimesInOne(Cancelled(e), kind, f);
    }
  }

  lemma ExecIsSound(s: State, c: Command, current: U64)
    requires Good(s) && Exec(s, c, current).Done?
    ensures var (s', entry) := Exec(s, c, current).value;
            && Sound(s, [entry], s') && s'.now == s.now && !entry.Dispatched?
            && (forall e :: e in Pending(s) && e.uid == current ==> e in Pending(s'))
  {
    hide Exec, Good, Pending, Sound;
    match c
    case AddEvent(delay, class_, priority, userData) => AddIsSound(s, delay, class_, priority, userData, current);
    case CancelEvent(uid) => CancelIsSound(s, uid, current);
  }

  lemma {:induction false} ExecAllIsSound(s: State, cs: seq<Command>, current: U64)
    requires Good(s) && ExecAll(s, cs, current).Done?
    ensures var (s', log) := ExecAll(s, cs, current).value;
            && Sound(s, log, s') && s'.now == s.now
            && (forall i :: 0 <= i < |log| ==> !log[i].Dispatched?)
            && (forall e :: e in Pending(s) && e.uid == current ==> e in Pending(s'))
    decreases |cs|
  {
    hide Exec, Good, Pending, Conserved, NewIds;
    if cs == [] {
      EmptyIsSound(s);
    } else {
      ExecIsSound(s, cs[0], current);
      var (s1, entry) := Exec(s, cs[0], current).value;
      ExecAllIsSound(s1, cs[1..], current);
      var (s2, log) := ExecAll(s1, cs[1..], current).value;
      SoundTwice(s, [entry], s1, log, s2);
    }
  }

  // ---------------------------------------------------------------- one iteration

  /** The top of the heap is pending, and no pending event precedes it. */
  lemma TopIsNext(s: State)
    requires Good(s) && s.size > 0
    ensures s.slots[0] in Pending(s)
    ensures s.now <= s.slots[0].timestamp
    ensures forall f :: f in Pending(s) ==> NotLater(s.slots[0], f)
  {
    TopIsMinimum(s.slots, s.size);
    PendingAt(s, s.slots[0]);
    forall f | f in Pending(s) ensures NotLater(s.slots[0], f) {
      PendingAt(s, f);
      KeyOrder(s.slots[0], f);
    }
  }

  lemma ClockToTop(s: State)
    requires Good(s) && s.size > 0
    ensures Good(s.(now := s.slots[0].timestamp))
    ensures Pending(s.(now := s.slots[0].timestamp)) == Pending(s)
  {
    TopIsNext(s);
  }

  lemma TopIsRegular(s: State)
    requires Good(s) && s.size > 0 && s.slots[0].timestamp < TIME_LIMIT
    ensures Regular(s.slots[0]) && s.slots[0] != SENTINEL
  {
    PendingAt(s, s.slots[0]);
  }

  /** Removal after the callback takes away the dispatched event and nothing else. */
  lemma RetireIsSound(s0: State, e: Record, log: seq<LogEntry>, s1: State, v: View)
    requires Sound(s0, log, s1) && e in Pending(s1) && e != SENTINEL
    ensures Find(s1, e.uid, 0) < s1.size
    ensures Sound(s0, [Dispatched(e, v)] + log, Remove(s1, Find(s1, e.uid, 0)))
  {
    FindIsExact(s1, e);
    var s2 := Remove(s1, Find(s1, e.uid, 0));
    RemoveKeepsGood(s1, Find(s1, e.uid, 0));
    assert s2.nextUid == s1.nextUid;
    hide Good, Find, Remove, Times, Pending, Conserved, NewIds;
    RetireConserves(Pending(s0), log, Pending(s1), s0.nextUid, s1.nextUid, e, v);
  }

  lemma RetireConserves(p: multiset<Record>, log: seq<LogEntry>, q: multiset<Record>, lo: nat, hi: nat, e: Record, v: View)
    requires Conserved(p, log, q) && NewIds(log, lo, hi) && e in q
    ensures Conserved(p, [Dispatched(e, v)] + log, q - multiset{e})
    ensures NewIds([Dispatched(e, v)] + log, lo, hi)
  {
    hide Times;
    var full := [Dispatched(e, v)] + log;
    forall f, kind
      ensures Times(full, kind, f) == Times(log, kind, f) + if kind == Dispatching && f == e then 1 else 0
    {
      TimesConcatenate([Dispatched(e, v)], log, kind, f);
      TimesInOne(Dispatched(e, v), kind, f);
    }
  }

  /** The effect of one iteration of the loop on a state whose first event is `s.slots[0]`. */
  ghost predicate IterationOk(s: State, limit: int, log: seq<LogEntry>, after: State)
    requires s.size > 0
  {
    && Sound(s, log, after)
    && s.now <= after.now == s.slots[0].timestamp <= limit
    && log != [] && log[0] == Dispatched(s.slots[0], ViewOf(s.(now := s.slots[0].timestamp)))
    && (forall i :: 0 < i < |log| ==> !log[i].Dispatched?)
    && FirstCome(log, s.now, limit)
  }

  /** An iteration of the loop moves the clock to the first event in (time stamp, priority) and removes exactly
      that event, even if its callback moved it inside the heap. */
  lemma DispatchIsSound<Env>(cb: Callback<Env>, s: State, env: Env, limit: int)
    requires Good(s) && Due(s, limit) && limit < TIME_LIMIT
    requires Dispatch(cb, s, env).Done?
    ensures IterationOk(s, limit, Dispatch(cb, s, env).value.log, Dispatch(cb, s, env).value.state)
  {
    var e := s.slots[0];
    var s0 := s.(now := e.timestamp);
    TopIsNext(s);
    ClockToTop(s);
    TopIsRegular(s);
    assert ViewOf(s0).pending == Pending(s) && ViewOf(s0).now == e.timestamp;
    var (cs, env') := cb(e, ViewOf(s0), env);
    DispatchParts(cb, s, env, s0, cs, env', ExecAll(s0, cs, e.uid));
    hide Dispatch, Good, ExecAll, NotLater, ViewOf, Pending, Find, Remove, Conserved, NewIds, Regular;
    var (s1, log) := ExecAll(s0, cs, e.uid).value;
    ExecAllIsSound(s0, cs, e.uid);
    RetireIsSound(s0, e, log, s1, ViewOf(s0));
    RemoveKeepsClock(s1, Find(s1, e.uid, 0));
    FirstComeOne(e, ViewOf(s0), log, s.now, limit);
  }

  lemma RemoveKeepsClock(s: State, n: nat)
    requires n < s.size
    ensures Remove(s, n).now == s.now
  {
  }

  lemma FirstComeOne(e: Record, v: View, log: seq<LogEntry>, from: nat, limit: int)
    requires from <= e.timestamp <= limit && v.now == e.timestamp && e in v.pending
    requires forall f :: f in v.pending ==> NotLater(e, f)
    requires forall i :: 0 <= i < |log| ==> !log[i].Dispatched?
    ensures FirstCome([Dispatched(e, v)] + log, from, limit)
  {
  }

  // ---------------------------------------------------------------- whole runs

  lemma FirstComeTwice(a: seq<LogEntry>, b: seq<LogEntry>, from: nat, mid: nat, limit: int)
    requires FirstCome(a, from, limit) && FirstCome(b, mid, limit) && from <= mid
    ensures FirstCome(a + b, from, limit)
  {
    hide NotLater;
    forall i | 0 <= i < |a + b| && (a + b)[i].Dispatched?
      ensures from <= (a + b)[i].event.timestamp <= limit
      ensures (a + b)[i].seen.now == (a + b)[i].event.timestamp && (a + b)[i].event in (a + b)[i].seen.pending
      ensures forall f :: f in (a + b)[i].seen.pending ==> NotLater((a + b)[i].event, f)
    {
      assert (a + b)[i] == if i < |a| then a[i] else b[i - |a|];
    }
  }

  lemma ChronologicalTwice(a: seq<LogEntry>, b: seq<LogEntry>, mid: nat, limit: int)
    requires a != [] && a[0].Dispatched? && a[0].event.timestamp <= mid
    requires forall i :: 0 < i < |a| ==> !a[i].Dispatched?
    requires Chronological(b) && FirstCome(b, mid, limit)
    ensures Chronological(a + b)
  {
    hide NotLater;
  }

  /** The result of a run of the loop up to `limit`. */
  ghost predicate RanTo(s: State, limit: int, log: seq<LogEntry>, after: State) {
    && Sound(s, log, after)
    && FirstCome(log, s.now, limit) && Chronological(log)
    && s.now <= after.now && (after.now <= limit || after.now == s.now)
    && forall e :: e in Pending(after) ==> e.timestamp > limit
  }

  /** Every run of the dispatch loop: each dispatch takes a first event in (time stamp, priority), time never moves
      backwards, every event that was pending or got added is afterwards pending, dispatched or cancelled,
      uids stay unique, the heap stays ordered, and nothing due is left. */
  lemma {:induction false} StepIsSound<Env>(cb: Callback<Env>, s: State, env: Env, limit: int, fuel: nat)
    requires Good(s) && limit < TIME_LIMIT
    requires Step(cb, s, env, limit, fuel).Done?
    ensures var r := Step(cb, s, env, limit, fuel).value;
            RanTo(s, limit, r.log, r.state)
    decreases fuel
  {
    hide Dispatch, Good, Pending, Conserved, NewIds, NotLater, FirstCome, Chronological;
    if !Due(s, limit) {
      EmptyRun(s, limit);
    } else {
      DispatchIsSound(cb, s, env, limit);
      var d := Dispatch(cb, s, env).value;
      StepIsSound(cb, d.state, d.env, limit, fuel - 1);
      var r := Step(cb, d.state, d.env, limit, fuel - 1).value;
      SoundTwice(s, d.log, d.state, r.log, r.state);
      FirstComeTwice(d.log, r.log, s.now, d.state.now, limit);
      ChronologicalTwice(d.log, r.log, d.state.now, limit);
    }
  }

  lemma EmptyRun(s: State, limit: int)
    requires Good(s) && !Due(s, limit)
    ensures RanTo(s, limit, [], s)
  {
    EmptyIsSound(s);
    NothingDue(s, limit);
  }

  lemma NothingDue(s: State, limit: int)
    requires Good(s) && !Due(s, limit)
    ensures forall e :: e in Pending(s) ==> e.timestamp > limit
  {
    assert SENTINEL in Pending(s);
    PendingAt(s, SENTINEL);
    TopIsNext(s);
  }

  /** Exactly once: an event that was pending at the start or added during the run ends in exactly one
      of the three places, and no two of all these events share a uid. */
  lemma ExactlyOnce(s: State, log: seq<LogEntry>, after: State, e: Record)
    requires Good(s) && Sound(s, log, after)
    requires e in Pending(s) || Times(log, Adding, e) > 0
    ensures Pending(after)[e] + Times(log, Dispatching, e) + Times(log, Cancelling, e) == 1
    ensures forall f :: (f in Pending(s) || Times(log, Adding, f) > 0) && f.uid == e.uid ==> f == e
  {
    hide Times, Pending, Regular;
    assert Pending(s)[e] + Times(log, Adding, e) == 1;
  }

  /** `AddCycles` ends at the requested time with nothing due left, and with the invariant in force. */
  lemma AddCyclesIsSound<Env>(cb: Callback<Env>, s: State, env: Env, cycles: nat, fuel: nat)
    requires Good(s) && s.now + cycles < TIME_LIMIT
    requires AddCycles(cb, s, env, cycles, fuel).Done?
    ensures var r := AddCycles(cb, s, env, cycles, fuel).value;
            RanTo(s, s.now + cycles, r.log, r.state) && r.state.now == s.now + cycles
  {
    hide Step, FirstCome, Chronological, Good, Conserved, NewIds, Pending;
    var limit := s.now + cycles;
    StepIsSound(cb, s, env, limit, fuel);
    var r := Step(cb, s, env, limit, fuel).value;
    ClockToLimit(r.state, limit);
  }

  lemma ClockToLimit(s: State, limit: U64)
    requires Good(s) && (forall e :: e in Pending(s) ==> e.timestamp > limit)
    ensures Good(s.(now := limit)) && Pending(s.(now := limit)) == Pending(s)
  {
  }
}
