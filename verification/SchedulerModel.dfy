/** The event scheduler as a deterministic machine. A state holds the 64 pooled event slots
    exactly as they lie in the heap array, so that the order in which equal keys are
    dispatched is part of the model. Callbacks are arbitrary functions that see everything
    the scheduler lets them query, and answer with the calls they make on it. */
module SchedulerModel {
  import opened EventHeap

  const MAX_EVENTS: nat := 64

  /** Below this time stamp the two bits of priority fit under the time stamp in a 64-bit key. */
  const TIME_LIMIT: nat := 0x4000_0000_0000_0000 - 1

  const END_OF_QUEUE: U16 := 27

  const SENTINEL := Record(TWO_64 - 1, TWO_64 - 4, 1, 0, END_OF_QUEUE)

  datatype Sched = Sched(slots: seq<Record>, size: nat, now: U64, nextUid: U64)

  type State = s: Sched | |s.slots| == MAX_EVENTS && s.size <= MAX_EVENTS
    witness Sched(seq(MAX_EVENTS, _ => SENTINEL), 0, 0, 1)

  /** What callbacks can query: the clock, the uid counter and the pending events, but not the heap layout. */
  datatype View = View(now: U64, nextUid: U64, pending: multiset<Record>)

  function Pending(s: State): multiset<Record> {
    multiset(s.slots[..s.size])
  }

  function ViewOf(s: State): View {
    View(s.now, s.nextUid, Pending(s))
  }

  /** Result of an operation. `Misused` marks a call outside the contract of the scheduler,
      `Unfinished` a run that needs more loop iterations than it was given. */
  datatype Outcome<+T> = Done(value: T) | Panicked | Misused | Unfinished

  // ---------------------------------------------------------------- single operations

  function KeyOf(timestamp: U64, priority: nat): U64
    requires priority <= 3
  {
    (timestamp * 4) % TWO_64 + priority
  }

  /** The 64-bit clock, `delay` cycles from now. */
  function Later(now: U64, delay: U64): U64 {
    (now + delay) % TWO_64
  }

  function NewEvent(s: State, delay: U64, class_: U16, priority: nat, userData: U64): Record
    requires priority <= 3
  {
    var timestamp := Later(s.now, delay);
    Record(timestamp, KeyOf(timestamp, priority), s.nextUid, userData, class_)
  }

  function Add(s: State, delay: U64, class_: U16, priority: nat, userData: U64): Outcome<State> {
    if s.size + 1 > MAX_EVENTS || priority > 3 then Panicked
    else
      Done(s.(slots := Insert(s.slots, s.size, NewEvent(s, delay, class_, priority, userData)),
              size := s.size + 1,
              nextUid := (s.nextUid + 1) % TWO_64))
  }

  function Remove(s: State, n: nat): State
    requires n < s.size
  {
    s.(slots := RemoveAt(s.slots, s.size, n), size := s.size - 1)
  }

  /** First heap position of an event with this uid, from position `i` on; `size` when there is none. */
  function Find(s: State, uid: U64, i: nat): (r: nat)
    requires i <= s.size
    ensures i <= r <= s.size
    ensures r < s.size ==> s.slots[r].uid == uid
    ensures forall j :: i <= j < r ==> s.slots[j].uid != uid
    decreases s.size - i
  {
    if i == s.size || s.slots[i].uid == uid then i else Find(s, uid, i + 1)
  }

  // ---------------------------------------------------------------- callbacks

  /** A call made by a callback. A component holds a pointer to its pending event; the model names it by uid. */
  datatype Command =
    | AddEvent(delay: U64, class_: U16, priority: nat, userData: U64)
    | CancelEvent(uid: U64)

  type Callback<!Env> = (Record, View, Env) -> (seq<Command>, Env)

  datatype LogEntry =
    | Dispatched(event: Record, seen: View)
    | Added(event: Record)
    | Cancelled(event: Record)

  /** Executes one call of the callback of the event `current`. Contract: time stamps stay below
      TIME_LIMIT, only the scheduler itself adds the end-of-queue event, the uid counter does not
      wrap, and only pending events other than `current` and the end-of-queue event are cancelled. */
  function Exec(s: State, c: Command, current: U64): Outcome<(State, LogEntry)> {
    match c
    case AddEvent(delay, class_, priority, userData) =>
      if s.now + delay >= TIME_LIMIT || class_ == END_OF_QUEUE || s.nextUid + 1 >= TWO_64 then Misused
      else
        (match Add(s, delay, class_, priority, userData)
         case Done(s') => Done((s', Added(NewEvent(s, delay, class_, priority, userData))))
         case _ => Panicked)
    case CancelEvent(uid) =>
      var n := Find(s, uid, 0);
      if n == s.size || uid == current || s.slots[n].class_ == END_OF_QUEUE then Misused
      else Done((Remove(s, n), Cancelled(s.slots[n])))
  }

  function ExecAll(s: State, cs: seq<Command>, current: U64): Outcome<(State, seq<LogEntry>)>
    decreases |cs|
  {
    if cs == [] then Done((s, []))
    else
      match Exec(s, cs[0], current)
      case Done((s1, entry)) =>
        (match ExecAll(s1, cs[1..], current)
         case Done((s2, log)) => Done((s2, [entry] + log))
         case Panicked => Panicked
         case Misused => Misused
         case Unfinished => Unfinished)
      case Panicked => Panicked
      case Misused => Misused
      case Unfinished => Unfinished
  }

  datatype Run<+Env> = Run(state: State, env: Env, log: seq<LogEntry>)

  /** The end of an iteration: the event of the callback is removed from wherever it then is in the heap. */
  function Conclude<Env>(e: Record, v: View, env: Env, o: Outcome<(State, seq<LogEntry>)>): Outcome<Run<Env>> {
    match o
    case Done((s, log)) =>
      var n := Find(s, e.uid, 0);
      if n == s.size then Misused
      else Done(Run(Remove(s, n), env, [Dispatched(e, v)] + log))
    case Panicked => Panicked
    case Misused => Misused
    case Unfinished => Unfinished
  }

  /** One iteration of the dispatch loop: the event stays in the heap while its callback runs. */
  function Dispatch<Env>(cb: Callback<Env>, s: State, env: Env): Outcome<Run<Env>>
    requires s.size > 0
  {
    var e := s.slots[0];
    var s0 := s.(now := e.timestamp);
    if e.class_ == END_OF_QUEUE then Panicked
    else
      var (cs, env') := cb(e, ViewOf(s0), env);
      Conclude(e, ViewOf(s0), env', ExecAll(s0, cs, e.uid))
  }

  /** The parts of an iteration: `o` is what the calls of the callback come to. */
  lemma DispatchParts<Env>(cb: Callback<Env>, s: State, env: Env, s0: State, cs: seq<Command>, env': Env,
                           o: Outcome<(State, seq<LogEntry>)>)
    requires s.size > 0 && s0 == s.(now := s.slots[0].timestamp) && (cs, env') == cb(s.slots[0], ViewOf(s0), env)
    requires s.slots[0].class_ != END_OF_QUEUE && o == ExecAll(s0, cs, s.slots[0].uid)
    ensures o.Panicked? ==> Dispatch(cb, s, env).Panicked?
    ensures o.Misused? ==> Dispatch(cb, s, env).Misused?
    ensures o.Unfinished? ==> Dispatch(cb, s, env).Unfinished?
    ensures o.Done? ==>
              var (s1, log) := o.value;
              var n := Find(s1, s.slots[0].uid, 0);
              if n == s1.size then Dispatch(cb, s, env).Misused?
              else Dispatch(cb, s, env) == Done(Run(Remove(s1, n), env', [Dispatched(s.slots[0], ViewOf(s0))] + log))
  {
  }

  function Prepend<Env>(log: seq<LogEntry>, o: Outcome<Run<Env>>): Outcome<Run<Env>> {
    match o
    case Done(r) => Done(r.(log := log + r.log))
    case _ => o
  }

  predicate Due(s: State, limit: int) {
    s.slots[0].timestamp <= limit && s.size > 0
  }

  /** The dispatch loop, for at most `fuel` iterations. */
  function Step<Env>(cb: Callback<Env>, s: State, env: Env, limit: int, fuel: nat): Outcome<Run<Env>>
    decreases fuel
  {
    if !Due(s, limit) then Done(Run(s, env, []))
    else if fuel == 0 then Unfinished
    else
      match Dispatch(cb, s, env)
      case Done(r) => Prepend(r.log, Step(cb, r.state, r.env, limit, fuel - 1))
      case o => o
  }

  function AddCycles<Env>(cb: Callback<Env>, s: State, env: Env, cycles: int, fuel: nat): Outcome<Run<Env>> {
    var limit := (s.now + cycles) % TWO_64;
    match Step(cb, s, env, limit, fuel)
    case Done(r) => Done(r.(state := r.state.(now := limit)))
    case o => o
  }

  function Reset(slots: seq<Record>): State
    requires |slots| == MAX_EVENTS
  {
    Sched(Insert(slots, 0, SENTINEL), 1, 0, 2)
  }

  // ---------------------------------------------------------------- invariant

  /** An event other than the end-of-queue event: its key is its time stamp and two bits of priority. */
  ghost predicate Regular(e: Record) {
    && e.class_ != END_OF_QUEUE
    && e.timestamp < TIME_LIMIT
    && e.key / 4 == e.timestamp
  }

  ghost predicate GoodView(v: View) {
    && SENTINEL in v.pending
    && (forall e :: e in v.pending ==> e == SENTINEL || Regular(e))
    && (forall e :: e in v.pending ==> e.uid < v.nextUid && v.now <= e.timestamp && v.pending[e] == 1)
    && (forall e, f :: e in v.pending && f in v.pending && e.uid == f.uid ==> e == f)
  }

  ghost predicate Good(s: State) {
    Ordered(s.slots, s.size) && GoodView(ViewOf(s))
  }

  /** Key order is the order by time stamp, then priority. */
  ghost predicate NotLater(e: Record, f: Record) {
    e.timestamp < f.timestamp || (e.timestamp == f.timestamp && e.key % 4 <= f.key % 4)
  }

  lemma KeyOrder(e: Record, f: Record)
    requires e == SENTINEL || Regular(e)
    requires f == SENTINEL || Regular(f)
    ensures e.key <= f.key <==> NotLater(e, f)
  {
  }

  lemma PendingAt(s: State, e: Record)
    ensures e in Pending(s) <==> exists i :: 0 <= i < s.size && s.slots[i] == e
  {
    if e in Pending(s) {
      assert e in s.slots[..s.size];
    }
  }

  lemma PendingSize(s: State)
    ensures |Pending(s)| == s.size
  {
  }

  // ---------------------------------------------------------------- effect of the operations on the view

  function AddedView(v: View, e: Record): View
    requires v.nextUid + 1 < TWO_64
  {
    View(v.now, v.nextUid + 1, v.pending + multiset{e})
  }

  function RemovedView(v: View, e: Record): View {
    v.(pending := v.pending - multiset{e})
  }

  lemma AddKeepsGood(s: State, delay: U64, class_: U16, priority: nat, userData: U64)
    requires Good(s) && s.now + delay < TIME_LIMIT && class_ != END_OF_QUEUE && s.nextUid + 1 < TWO_64
    requires Add(s, delay, class_, priority, userData).Done?
    ensures var s' := Add(s, delay, class_, priority, userData).value;
            var e := NewEvent(s, delay, class_, priority, userData);
            Good(s') && ViewOf(s') == AddedView(ViewOf(s), e) && Regular(e) && e !in Pending(s)
  {
    hide GoodView, Insert, Regular, KeyOf, NewEvent;
    var e := NewEvent(s, delay, class_, priority, userData);
    InsertIsCorrect(s.slots, s.size, e);
    NewEventIsRegular(s, delay, class_, priority, userData);
    AddedViewIsGood(ViewOf(s), e);
  }

  lemma NewEventIsRegular(s: State, delay: U64, class_: U16, priority: nat, userData: U64)
    requires s.now + delay < TIME_LIMIT && class_ != END_OF_QUEUE && priority <= 3
    ensures Regular(NewEvent(s, delay, class_, priority, userData))
    ensures NewEvent(s, delay, class_, priority, userData).timestamp == s.now + delay
    ensures NewEvent(s, delay, class_, priority, userData).uid == s.nextUid
  {
  }

  lemma AddedViewIsGood(v: View, e: Record)
    requires GoodView(v) && v.nextUid + 1 < TWO_64
    requires Regular(e) && e.uid == v.nextUid && v.now <= e.timestamp
    ensures GoodView(AddedView(v, e)) && e !in v.pending
  {
  }

  lemma RemoveKeepsGood(s: State, n: nat)
    requires Good(s) && n < s.size
    requires s.slots[n] != SENTINEL
    ensures Good(Remove(s, n)) && ViewOf(Remove(s, n)) == RemovedView(ViewOf(s), s.slots[n])
    ensures s.slots[n] in Pending(s)
  {
    hide RemoveAt, Ordered;
    RemoveOrders(s.slots, s.size, n);
    RemovePermutes(s.slots, s.size, n);
    PendingAt(s, s.slots[n]);
    hide GoodView;
  }

  /** Looking an event up by uid finds it exactly when it is pending. */
  lemma FindIsExact(s: State, e: Record)
    requires Good(s) && e in Pending(s)
    ensures Find(s, e.uid, 0) < s.size && s.slots[Find(s, e.uid, 0)] == e
  {
    PendingAt(s, e);
    var i :| 0 <= i < s.size && s.slots[i] == e;
    var n := Find(s, e.uid, 0);
    PendingAt(s, s.slots[n]);
  }
}
