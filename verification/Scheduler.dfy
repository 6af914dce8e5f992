/** The scheduler itself: 64 pooled event objects in a heap array, updated in place. */
module Scheduler {
  import opened SchedulerModel
  import opened SchedulerSave
  import H = EventHeap
  import R = SchedulerRuns
  import T = SchedulerTime

  type U64 = H.U64
  type U16 = H.U16
  type Record = H.Record

  class Event {
    var timestamp: U64
    var handle: int
    var key: U64
    var uid: U64
    var userData: U64
    var class_: U16

    constructor (handle: int)
      ensures this.handle == handle && Value() == ZERO
    {
      this.handle := handle;
      timestamp, key, uid, userData, class_ := 0, 0, 0, 0, 0;
    }

    /** The fields of the event other than its position in the heap. */
    function Value(): Record
      reads this
    {
      H.Record(timestamp, key, uid, userData, class_)
    }
  }

  ghost function Zeros(): (r: seq<Record>)
    ensures |r| == MAX_EVENTS && forall i :: 0 <= i < MAX_EVENTS ==> r[i] == ZERO
  {
    seq(MAX_EVENTS, _ => ZERO)
  }

  const ZERO: Record := H.Record(0, 0, 0, 0, 0)

  class Scheduler {
    const heap: array<Event>
    var heapSize: nat
    var timestampNow: U64
    var nextUid: U64
    ghost const pool: set<Event>
    ghost var slots: seq<Record>  // the values of the events, in heap array order

    /** The heap array is a permutation of the pool, and every event knows its position. */
    ghost predicate Shaped()
      reads this`slots, heap, pool
    {
      && heap.Length == MAX_EVENTS == |slots|
      && (forall i :: 0 <= i < MAX_EVENTS ==>
            heap[i] in pool && heap[i].handle == i && heap[i].Value() == slots[i])
      && (forall e :: e in pool ==> 0 <= e.handle < MAX_EVENTS && heap[e.handle] == e)
    }

    ghost predicate Valid()
      reads this`heapSize, this`slots, heap, pool
      ensures Valid() ==> heap.Length == MAX_EVENTS == |slots| && heapSize <= MAX_EVENTS
    {
      Shaped() && heapSize <= MAX_EVENTS
    }

    ghost function Model(): State
      requires |slots| == MAX_EVENTS && heapSize <= MAX_EVENTS
      reads this
    {
      Sched(slots, heapSize, timestampNow, nextUid)
    }

    /** What the heap array holds at position `i`, in terms of the model. */
    lemma At(i: nat)
      requires Valid() && i < MAX_EVENTS
      ensures heap[i].Value() == slots[i] && heap[i].handle == i && heap[i] in pool
    {
    }

    method Swap(i: nat, j: nat)
      requires Valid() && i < MAX_EVENTS && j < MAX_EVENTS
      modifies this`slots, heap, pool`handle
      ensures Valid() && slots == H.Swap(old(slots), i, j)
      ensures heap[i] == old(heap[j]) && heap[j] == old(heap[i])
      ensures forall k :: 0 <= k < MAX_EVENTS && k != i && k != j ==> heap[k] == old(heap[k])
    {
      Exchange(i, j);
      slots := H.Swap(slots, i, j);
    }

    method Exchange(i: nat, j: nat)
      requires Valid() && i < MAX_EVENTS && j < MAX_EVENTS
      modifies heap, pool`handle
      ensures heap[i] == old(heap[j]) && heap[j] == old(heap[i])
      ensures forall k :: 0 <= k < MAX_EVENTS && k != i && k != j ==> heap[k] == old(heap[k])
      ensures forall e :: e in pool ==>
                e.handle == if e == old(heap[i]) then j else if e == old(heap[j]) then i else old(e.handle)
    {
      var tmp := heap[i];
      heap[i] := heap[j];
      heap[j] := tmp;
      heap[i].handle := i;
      heap[j].handle := j;
    }

    method Heapify(n: nat)
      requires Valid() && n <= heapSize
      modifies this`slots, heap, pool`handle
      ensures Valid() && slots == H.Heapify(old(slots), heapSize, n)
      ensures forall k :: heapSize <= k < MAX_EVENTS ==> heap[k] == old(heap[k])
      decreases heapSize - n
    {
      var l := H.LeftChild(n);
      var r := H.RightChild(n);
      hide Valid;
      if l < heapSize {
        At(l);
        At(n);
        if heap[l].key < heap[n].key {
          Swap(l, n);
          Heapify(l);
        }
      }
      if r < heapSize {
        At(r);
        At(n);
        if heap[r].key < heap[n].key {
          Swap(r, n);
          Heapify(r);
        }
      }
    }

    /** The sift-up loop of `Add` and `Remove`. */
    method SiftUp(start: nat)
      requires Valid() && start < MAX_EVENTS
      modifies this`slots, heap, pool`handle
      ensures Valid() && slots == H.SiftUp(old(slots), start)
      ensures old(heap[start]).handle == SiftUpPosition(old(slots), start)
      ensures forall k :: start < k < MAX_EVENTS ==> heap[k] == old(heap[k])
    {
      hide Valid, H.SiftUp, SiftUpPosition;
      var n := start;
      var p := H.Parent(n);
      ghost var event := heap[n];
      At(n);
      At(p);
      Unfold(slots, n);
      while n != 0 && heap[p].key > heap[n].key
        invariant 0 <= n < MAX_EVENTS && p == H.Parent(n) && Valid()
        invariant H.SiftUp(slots, n) == H.SiftUp(old(slots), start)
        invariant SiftUpPosition(slots, n) == SiftUpPosition(old(slots), start)
        invariant heap[n] == event && event.handle == n
        invariant heap[n].key == slots[n].key && heap[p].key == slots[p].key
        invariant n <= start && forall k :: start < k < MAX_EVENTS ==> heap[k] == old(heap[k])
        decreases n
      {
        Unfold(slots, n);
        Swap(n, p);
        n := p;
        p := H.Parent(n);
        At(n);
        At(p);
      }
      Unfold(slots, n);
    }

    method Settle(n: nat)
      requires Valid() && n <= heapSize && n < MAX_EVENTS
      modifies this`slots, heap, pool`handle
      ensures Valid() && slots == H.Settle(old(slots), heapSize, n)
      ensures forall k :: heapSize <= k < MAX_EVENTS && n < k ==> heap[k] == old(heap[k])
    {
      hide Valid, H.SiftUp, H.Heapify;
      var p := H.Parent(n);
      At(n);
      At(p);
      if n != 0 && heap[p].key > heap[n].key {
        SiftUp(n);
      } else {
        Heapify(n);
      }
    }

    method Remove(n: nat)
      requires Valid() && n < heapSize
      modifies this`heapSize, this`slots, heap, pool`handle
      ensures Valid() && Model() == SchedulerModel.Remove(old(Model()), n)
      ensures forall k :: old(heapSize) <= k < MAX_EVENTS ==> heap[k] == old(heap[k])
    {
      hide Shaped, H.Settle, H.Swap, H.Parent;
      heapSize := heapSize - 1;
      Swap(n, heapSize);
      Settle(n);
      assert slots == H.RemoveAt(old(slots), old(heapSize), n);
      hide H.RemoveAt;
    }

    /** Cancels a pending event. */
    method Cancel(event: Event)
      requires Valid() && event in pool && 0 <= event.handle < heapSize
      modifies this`heapSize, this`slots, heap, pool`handle
      ensures Valid() && Model() == SchedulerModel.Remove(old(Model()), old(event.handle))
      ensures forall k :: old(heapSize) <= k < MAX_EVENTS ==> heap[k] == old(heap[k])
    {
      At(event.handle);
      Remove(event.handle);
    }

    method GetEventByUID(wanted: U64) returns (r: Event?)
      requires Valid()
      ensures r == null <==> Find(Model(), wanted, 0) == heapSize
      ensures r != null ==> r in pool && r.handle == Find(Model(), wanted, 0) < heapSize && r.uid == wanted
    {
      hide Valid;
      var i := 0;
      while i < heapSize
        invariant 0 <= i <= heapSize
        invariant Find(Model(), wanted, i) == Find(Model(), wanted, 0)
      {
        At(i);
        if heap[i].uid == wanted {
          return heap[i];
        }
        i := i + 1;
      }
      return null;
    }

    /** Writes a new event over the pooled event at `n`. */
    method Write(n: nat, e: Record)
      requires Valid() && n < MAX_EVENTS
      modifies this`slots, pool`timestamp, pool`key, pool`uid, pool`userData, pool`class_
      ensures Valid() && slots == old(slots)[n := e]
      ensures forall f :: f in pool && f != heap[n] ==> f.Value() == old(f.Value())
    {
      var event := heap[n];
      event.timestamp := e.timestamp;
      event.key := e.key;
      event.uid := e.uid;
      event.userData := e.userData;
      event.class_ := e.class_;
      slots := slots[n := e];
    }

    /** Reuses the pooled event at `n`, the end of the heap, for a new event. */
    method Place(n: nat, e: Record) returns (event: Event)
      requires Valid() && n < MAX_EVENTS
      modifies this`slots, heap, pool
      ensures Valid() && slots == H.Insert(old(slots), n, e)
      ensures event in pool && event.handle == SiftUpPosition(old(slots)[n := e], n) && event.uid == e.uid
      ensures forall f :: f in pool && f != old(heap[n]) ==> f.Value() == old(f.Value())
      ensures forall k :: n < k < MAX_EVENTS ==> heap[k] == old(heap[k])
    {
      hide Valid, H.SiftUp, SiftUpPosition;
      At(n);
      event := heap[n];
      Write(n, e);
      At(n);
      SiftUp(n);
    }

    /** Adds an event `delay` cycles from now; panics when the pool is exhausted or the priority is out of range. */
    method Add(delay: U64, class_: U16, priority: nat, userData: U64) returns (o: Outcome<Event>)
      requires Valid()
      modifies this, heap, pool
      ensures o.Done? <==> SchedulerModel.Add(old(Model()), delay, class_, priority, userData).Done?
      ensures o.Done? || o.Panicked?
      ensures o.Done? ==>
                && Valid() && Model() == SchedulerModel.Add(old(Model()), delay, class_, priority, userData).value
                && o.value in pool && o.value.uid == old(nextUid)
                && o.value.handle == AddedPosition(old(Model()), delay, class_, priority, userData)
                && (forall f :: f in pool && f != old(heap[heapSize]) ==> f.Value() == old(f.Value()))
                && (forall k :: old(heapSize) < k < MAX_EVENTS ==> heap[k] == old(heap[k]))
    {
      hide Shaped, H.Insert, SiftUpPosition, KeyOf, Later;
      var n := heapSize;
      heapSize := heapSize + 1;
      if heapSize > MAX_EVENTS {
        return Panicked;
      }
      if priority > 3 {
        return Panicked;
      }
      var timestamp := Later(timestampNow, delay);
      var event := Place(n, H.Record(timestamp, KeyOf(timestamp, priority), nextUid, userData, class_));
      nextUid := (nextUid + 1) % H.TWO_64;
      return Done(event);
    }

    /** Back to time zero with nothing but the end-of-queue event. */
    method Reset()
      requires Valid()
      modifies this, heap, pool
      ensures Valid() && Model() == SchedulerModel.Reset(old(slots))
    {
      heapSize := 0;
      timestampNow := 0;
      nextUid := 1;
      hide H.Insert;
      var o := Add(H.TWO_64 - 1, END_OF_QUEUE, 0, 0);
    }

    static method MakePool() returns (h: array<Event>, ghost p: set<Event>)
      ensures fresh(h) && fresh(p) && h.Length == MAX_EVENTS
      ensures forall k :: 0 <= k < MAX_EVENTS ==> h[k] in p && h[k].handle == k && h[k].Value() == ZERO
      ensures forall e :: e in p ==> 0 <= e.handle < MAX_EVENTS && h[e.handle] == e
    {
      var first := new Event(0);
      h := new Event[MAX_EVENTS](_ => first);
      p := {};
      for i := 0 to MAX_EVENTS
        invariant fresh(p)
        invariant forall k :: 0 <= k < i ==> h[k] in p && h[k].handle == k && h[k].Value() == ZERO
        invariant forall e :: e in p ==> 0 <= e.handle < i && h[e.handle] == e
      {
        var e := new Event(i);
        h[i] := e;
        p := p + {e};
      }
    }

    constructor ()
      ensures Valid() && fresh(heap) && fresh(pool)
      ensures Model() == SchedulerModel.Reset(Zeros())
    {
      var h, p := MakePool();
      heap := h;
      pool := p;
      slots := Zeros();
      heapSize, timestampNow, nextUid := 0, 0, 1;
      new;
      hide SchedulerModel.Reset;
      Reset();
    }

    // -------------------------------------------------------------- running

    /** What the queries of the scheduler tell a callback. */
    method Query() returns (v: View)
      requires Valid()
      ensures v == ViewOf(Model())
    {
      hide Valid;
      var pending: multiset<Record> := multiset{};
      for i := 0 to heapSize
        invariant pending == multiset(slots[..i])
      {
        At(i);
        pending := pending + multiset{heap[i].Value()};
        assert slots[..i + 1] == slots[..i] + [slots[i]];
      }
      return View(timestampNow, nextUid, pending);
    }

    /** The object `e` is a pending event. */
    ghost predicate Holds(e: Event)
      reads this`heapSize, this`slots, heap, pool
    {
      Valid() && e in pool && 0 <= e.handle < heapSize
    }

    /** An object that was in the heap proper and did not end up beyond it is still pending. */
    twostate lemma StaysPending(e: Event)
      requires old(Valid()) && Valid() && old(e in pool && 0 <= e.handle < heapSize)
      requires old(heapSize) <= heapSize + 1
      requires heapSize < old(heapSize) ==> slots[heapSize] != e.Value()
      requires forall k :: old(heapSize) <= k < MAX_EVENTS && heapSize <= k ==> heap[k] == old(heap[k])
      ensures Holds(e)
    {
    }

    /** Carries out one call made by the callback of the event `current`; false is a panic. That event stays
        pending and keeps its fields. */
    method Execute(c: Command, ghost current: Event) returns (ok: bool, ghost entry: LogEntry)
      requires Holds(current) && Good(Model())
      requires Exec(Model(), c, current.uid).Done? || Exec(Model(), c, current.uid).Panicked?
      modifies this, heap, pool
      ensures ok <==> Exec(old(Model()), c, old(current.uid)).Done?
      ensures ok ==> Holds(current) && current.Value() == old(current.Value())
      ensures ok ==> Exec(old(Model()), c, current.uid) == Done((Model(), entry))
    {
      hide Exec, Valid, Good;
      match c
      case AddEvent(delay, class_, priority, userData) =>
        ok, entry := ExecuteAdd(delay, class_, priority, userData, current);
      case CancelEvent(uid) =>
        entry := ExecuteCancel(uid, current);
        ok := true;
    }

    method ExecuteAdd(delay: U64, class_: U16, priority: nat, userData: U64, ghost current: Event)
      returns (ok: bool, ghost entry: LogEntry)
      requires Holds(current) && Good(Model())
      requires var o := Exec(Model(), AddEvent(delay, class_, priority, userData), current.uid); o.Done? || o.Panicked?
      modifies this, heap, pool
      ensures ok <==> Exec(old(Model()), AddEvent(delay, class_, priority, userData), old(current.uid)).Done?
      ensures ok ==> Holds(current) && current.Value() == old(current.Value())
      ensures ok ==> Exec(old(Model()), AddEvent(delay, class_, priority, userData), current.uid) == Done((Model(), entry))
    {
      ghost var s := Model();
      entry := if priority <= 3 then Added(NewEvent(s, delay, class_, priority, userData)) else Added(ZERO);
      hide Valid, H.Insert, NewEvent, AddedPosition, Good;
      if heapSize < MAX_EVENTS {
        At(heapSize);
      }
      var o := Add(delay, class_, priority, userData);
      ok := o.Done?;
      if ok {
        StaysPending(current);
      }
    }

    method ExecuteCancel(uid: U64, ghost current: Event) returns (ghost entry: LogEntry)
      requires Holds(current) && Good(Model())
      requires var o := Exec(Model(), CancelEvent(uid), current.uid); o.Done? || o.Panicked?
      modifies this, heap, pool
      ensures Holds(current) && current.Value() == old(current.Value())
      ensures Exec(old(Model()), CancelEvent(uid), current.uid) == Done((Model(), entry))
    {
      hide Valid, H.RemoveAt;
      ghost var n := Find(Model(), uid, 0);
      H.RemovePermutes(slots, heapSize, n);
      entry := Cancelled(slots[n]);
      var event := GetEventByUID(uid);
      hide Good;
      Cancel(event);
      StaysPending(current);
    }

    /** Carries out the calls made by the callback of the event `current`, in order; false is a panic. */
    method ExecuteAll(cs: seq<Command>, ghost current: Event) returns (ok: bool, ghost log: seq<LogEntry>)
      requires Holds(current) && Good(Model())
      requires var o := ExecAll(Model(), cs, current.uid); o.Done? || o.Panicked?
      modifies this, heap, pool
      ensures ok <==> ExecAll(old(Model()), cs, old(current.uid)).Done?
      ensures ok ==> Holds(current) && current.Value() == old(current.Value())
      ensures ok ==> ExecAll(old(Model()), cs, current.uid) == Done((Model(), log))
      decreases |cs|
    {
      hide Exec, Valid, Good;
      log := [];
      if cs == [] {
        return true, log;
      }
      ghost var s, uid := Model(), current.uid;
      if Exec(s, cs[0], uid).Done? {
        R.ExecIsSound(s, cs[0], uid);
      }
      ghost var entry: LogEntry;
      ok, entry := Execute(cs[0], current);
      if ok {
        ok, log := ExecuteAll(cs[1..], current);
        log := [entry] + log;
      }
    }

    /** Removes a dispatched event by its handle. */
    method Retire(event: Event)
      requires Holds(event) && Good(Model())
      modifies this`heapSize, this`slots, heap, pool`handle
      ensures Valid() && Find(old(Model()), event.uid, 0) < old(heapSize)
      ensures Model() == SchedulerModel.Remove(old(Model()), Find(old(Model()), event.uid, 0))
    {
      hide Good, SchedulerModel.Remove;
      At(event.handle);
      FindsHandle(Model(), event.handle, event.Value());
      Remove(event.handle);
    }

    /** Carries out the calls of a callback while its event is still in the heap, then removes the event by the
        handle it has by then; false is a panic. */
    method RunCallback<Env>(cs: seq<Command>, event: Event, ghost v: View, ghost env: Env)
      returns (ok: bool, ghost log: seq<LogEntry>)
      requires Holds(event) && Good(Model())
      requires var o := Conclude(event.Value(), v, env, ExecAll(Model(), cs, event.uid)); o.Done? || o.Panicked?
      modifies this, heap, pool
      ensures ok <==> Conclude(old(event.Value()), v, env, ExecAll(old(Model()), cs, old(event.uid))).Done?
      ensures ok ==> Valid()
      ensures ok ==> Conclude(old(event.Value()), v, env, ExecAll(old(Model()), cs, old(event.uid))) ==
                     Done(Run(Model(), env, log))
    {
      hide Valid, ExecAll, SchedulerModel.Remove, Good, R.Conserved, R.NewIds, Pending, Find;
      ghost var s := Model();
      ok, log := ExecuteAll(cs, event);
      if ok {
        R.ExecAllIsSound(s, cs, event.uid);
        Retire(event);
        log := [Dispatched(event.Value(), v)] + log;
      }
    }

    /** One iteration of the dispatch loop; false is a panic. */
    method DispatchFirst<Env>(cb: Callback<Env>, env: Env) returns (ok: bool, env': Env, ghost log: seq<LogEntry>)
      requires Valid() && heapSize > 0 && Good(Model())
      requires Dispatch(cb, Model(), env).Done? || Dispatch(cb, Model(), env).Panicked?
      modifies this, heap, pool
      ensures ok <==> Dispatch(cb, old(Model()), env).Done?
      ensures ok ==> Valid() && Dispatch(cb, old(Model()), env) == Done(Run(Model(), env', log))
    {
      ghost var before := Model();
      R.ClockToTop(before);
      hide Valid, ExecAll, ViewOf, Good, Pending, Conclude;
      At(0);
      var event := heap[0];
      timestampNow := event.timestamp;
      assert Model() == before.(now := slots[0].timestamp) && event.Value() == slots[0];
      if event.class_ == END_OF_QUEUE {
        return false, env, [];
      }
      var cs;
      cs, env' := Ask(cb, event, env);
      assert Dispatch(cb, before, env) == Conclude(event.Value(), ViewOf(Model()), env', ExecAll(Model(), cs, event.uid));
      hide Dispatch;
      ok, log := RunCallback(cs, event, ViewOf(Model()), env');
    }

    /** Calls the callback of an event. */
    method Ask<Env>(cb: Callback<Env>, event: Event, env: Env) returns (cs: seq<Command>, env': Env)
      requires Valid()
      ensures (cs, env') == cb(event.Value(), ViewOf(Model()), env)
    {
      hide Valid, ViewOf;
      var v := Query();
      var answer := cb(event.Value(), v, env);
      cs, env' := answer.0, answer.1;
    }

    /** The dispatch loop; false is a panic. `fuel` bounds the number of iterations. */
    method Step<Env>(cb: Callback<Env>, env: Env, limit: nat, ghost fuel: nat)
      returns (ok: bool, env': Env, ghost log: seq<LogEntry>)
      requires Valid() && Good(Model()) && limit < TIME_LIMIT
      requires var o := SchedulerModel.Step(cb, Model(), env, limit, fuel); o.Done? || o.Panicked?
      modifies this, heap, pool
      ensures ok <==> SchedulerModel.Step(cb, old(Model()), env, limit, fuel).Done?
      ensures ok ==> Valid() && SchedulerModel.Step(cb, old(Model()), env, limit, fuel) == Done(Run(Model(), env', log))
    {
      hide Valid, Dispatch, Good, SchedulerModel.Step;
      env', log := env, [];
      ghost var left := fuel;
      At(0);
      T.PrependTwice([], [], SchedulerModel.Step(cb, Model(), env, limit, fuel));
      while heap[0].timestamp <= limit && heapSize > 0
        invariant Valid() && Good(Model()) && heap[0].timestamp == slots[0].timestamp
        invariant SchedulerModel.Step(cb, old(Model()), env, limit, fuel) ==
                  Prepend(log, SchedulerModel.Step(cb, Model(), env', limit, left))
        decreases left
      {
        ghost var s, before, sofar := Model(), env', log;
        StepTurns(cb, s, before, limit, left);
        if Dispatch(cb, s, before).Done? {
          R.DispatchIsSound(cb, s, before, limit);
        }
        ghost var entries: seq<LogEntry>;
        ok, env', entries := DispatchFirst(cb, env');
        if !ok {
          return;
        }
        left := left - 1;
        T.PrependTwice(sofar, entries, SchedulerModel.Step(cb, Model(), env', limit, left));
        log := log + entries;
        At(0);
      }
      ok := true;
      StepEnds(cb, Model(), env', limit, left);
      assert log + [] == log;
    }

    /** Runs the scheduler for a number of cycles; false is a panic. */
    method AddCycles<Env>(cb: Callback<Env>, env: Env, cycles: nat, ghost fuel: nat)
      returns (ok: bool, env': Env, ghost log: seq<LogEntry>)
      requires Valid() && Good(Model()) && timestampNow + cycles < TIME_LIMIT
      requires var o := SchedulerModel.AddCycles(cb, Model(), env, cycles, fuel); o.Done? || o.Panicked?
      modifies this, heap, pool
      ensures ok <==> SchedulerModel.AddCycles(cb, old(Model()), env, cycles, fuel).Done?
      ensures ok ==> Valid() && SchedulerModel.AddCycles(cb, old(Model()), env, cycles, fuel) == Done(Run(Model(), env', log))
    {
      hide Valid, Good, SchedulerModel.Step;
      var next := timestampNow + cycles;
      ok, env', log := Step(cb, env, next, fuel);
      if ok {
        timestampNow := next;
      }
    }

    // -------------------------------------------------------------- save states

    method CopyState() returns (saved: Saved)
      requires Valid()
      ensures saved == Save(Model())
    {
      hide Valid;
      var events: seq<SavedEvent> := [];
      for i := 0 to heapSize
        invariant events == Save(Model()).events[..i]
      {
        At(i);
        var event := heap[i];
        events := events + [SavedEvent(event.key, event.uid, event.userData, event.class_)];
      }
      return Saved(timestampNow, events, nextUid);
    }

    /** Loads saved events on top of what is there; false when the pool is exhausted. */
    method LoadState(saved: Saved) returns (ok: bool)
      requires Valid()
      modifies this, heap, pool
      ensures ok <==> LoadEvents(old(Model()), saved.events, saved.timestamp).Done?
      ensures ok ==> Valid()
      ensures ok ==> Model() == LoadEvents(old(Model()), saved.events, saved.timestamp).value.(nextUid := saved.nextUid)
    {
      hide Valid, LoadEvent;
      assert saved.events[0..] == saved.events;
      for i := 0 to |saved.events|
        invariant Valid()
        invariant LoadEvents(Model(), saved.events[i..], saved.timestamp) ==
                  LoadEvents(old(Model()), saved.events, saved.timestamp)
      {
        var e := saved.events[i];
        assert saved.events[i..][0] == e && saved.events[i..][1..] == saved.events[i + 1..];
        var done := LoadOneEvent(e, saved.timestamp);
        if !done {
          return false;
        }
      }
      nextUid := saved.nextUid;
      return true;
    }

    method LoadOneEvent(e: SavedEvent, now: U64) returns (ok: bool)
      requires Valid()
      modifies this, heap, pool
      ensures ok <==> LoadEvent(old(Model()), e, now).Done?
      ensures !ok ==> LoadEvent(old(Model()), e, now).Panicked?
      ensures ok ==> Valid() && Model() == LoadEvent(old(Model()), e, now).value
    {
      if e.class_ == END_OF_QUEUE {
        return true;
      }
      hide Valid, H.Insert, KeyOf, NewEvent, AddedPosition, DelayUntil;
      ghost var s := Model();
      var delay := DelayUntil(e.key / 4, now);
      var priority := e.key % 4;
      var o := Add(delay, e.class_, priority, e.userData);
      if !o.Done? {
        return false;
      }
      SetUid(o.value, e.uid);
      PatchedUid(s, delay, e.class_, priority, e.userData, e.uid);
      return true;
    }

    method SetUid(event: Event, uid: U64)
      requires Valid() && event in pool
      modifies this`slots, event`uid
      ensures Valid() && 0 <= event.handle < MAX_EVENTS
      ensures slots == old(slots)[event.handle := old(slots)[event.handle].(uid := uid)]
    {
      event.uid := uid;
      slots := slots[event.handle := slots[event.handle].(uid := uid)];
    }

    /** The part of loading a save state of the whole machine that concerns the scheduler. */
    method RestoreCore(saved: Saved) returns (ok: bool)
      requires Valid()
      modifies this, heap, pool
      ensures ok <==> Load(old(slots), saved).Done?
      ensures ok ==> Valid() && Model() == Load(old(slots), saved).value
    {
      Reset();
      timestampNow := saved.timestamp;
      hide Valid, LoadEvents, SchedulerModel.Reset;
      ok := LoadState(saved);
    }
  }

  // ---------------------------------------------------------------- where an added event ends up

  /** A turn of the dispatch loop of the model. */
  lemma StepTurns<Env>(cb: Callback<Env>, s: State, env: Env, limit: nat, fuel: nat)
    requires Due(s, limit) && !SchedulerModel.Step(cb, s, env, limit, fuel).Unfinished?
    ensures fuel > 0 && match Dispatch(cb, s, env)
                        case Done(r) => SchedulerModel.Step(cb, s, env, limit, fuel)
                                        == Prepend(r.log, SchedulerModel.Step(cb, r.state, r.env, limit, fuel - 1))
                        case o => SchedulerModel.Step(cb, s, env, limit, fuel) == o
  {
    hide Dispatch;
  }

  lemma StepEnds<Env>(cb: Callback<Env>, s: State, env: Env, limit: nat, fuel: nat)
    requires !Due(s, limit)
    ensures SchedulerModel.Step(cb, s, env, limit, fuel) == Done(Run(s, env, []))
  {
  }

  function SiftUpPosition(h: seq<Record>, n: nat): (r: nat)
    requires n < |h|
    ensures r < |h|
    decreases n
  {
    if n != 0 && h[H.Parent(n)].key > h[n].key then
      SiftUpPosition(H.Swap(h, n, H.Parent(n)), H.Parent(n))
    else
      n
  }

  lemma Unfold(h: seq<Record>, n: nat)
    requires n < |h|
    ensures if n != 0 && h[H.Parent(n)].key > h[n].key then
              var g := H.Swap(h, n, H.Parent(n));
              H.SiftUp(h, n) == H.SiftUp(g, H.Parent(n)) && SiftUpPosition(h, n) == SiftUpPosition(g, H.Parent(n))
            else
              H.SiftUp(h, n) == h && SiftUpPosition(h, n) == n
  {
  }

  function AddedPosition(s: State, delay: U64, class_: U16, priority: nat, userData: U64): nat
    requires s.size < MAX_EVENTS && priority <= 3
  {
    SiftUpPosition(s.slots[s.size := NewEvent(s, delay, class_, priority, userData)], s.size)
  }

  /** The uid of an event does not steer the heap: it may be replaced after the insertion. */
  lemma {:induction false} UidDoesNotSteer(h: seq<Record>, n: nat, uid: U64)
    requires n < |h|
    ensures var p := SiftUpPosition(h, n);
            H.SiftUp(h, n)[p] == h[n] &&
            H.SiftUp(h[n := h[n].(uid := uid)], n) == H.SiftUp(h, n)[p := h[n].(uid := uid)]
    decreases n
  {
    var g := h[n := h[n].(uid := uid)];
    var p := H.Parent(n);
    if n != 0 && h[p].key > h[n].key {
      var h1 := H.Swap(h, n, p);
      UidDoesNotSteer(h1, p, uid);
      assert H.Swap(g, n, p) == h1[p := h1[p].(uid := uid)];
    }
  }

  lemma PatchedUid(s: State, delay: U64, class_: U16, priority: nat, userData: U64, uid: U64)
    requires s.size < MAX_EVENTS && priority <= 3
    ensures var e := NewEvent(s, delay, class_, priority, userData);
            var p := AddedPosition(s, delay, class_, priority, userData);
            H.Insert(s.slots, s.size, e.(uid := uid)) ==
            H.Insert(s.slots, s.size, e)[p := H.Insert(s.slots, s.size, e)[p].(uid := uid)]
  {
    hide NewEvent, H.SiftUp, SiftUpPosition;
    var e := NewEvent(s, delay, class_, priority, userData);
    UidDoesNotSteer(s.slots[s.size := e], s.size, uid);
    assert s.slots[s.size := e][s.size := e.(uid := uid)] == s.slots[s.size := e.(uid := uid)];
  }

  /** A pending event is found by its uid at its own heap position, since live uids are unique. */
  lemma FindsHandle(s: State, i: nat, e: Record)
    requires Good(s) && i < s.size && s.slots[i] == e
    ensures Find(s, e.uid, 0) == i
  {
    PendingAt(s, e);
    FindIsExact(s, e);
    var n := Find(s, e.uid, 0);
    if n < i {
      TwiceInSeq(s.slots[..s.size], n, i);
    }
  }

  lemma TwiceInSeq(h: seq<Record>, i: nat, j: nat)
    requires i < j < |h| && h[i] == h[j]
    ensures multiset(h)[h[i]] >= 2
  {
    assert h == h[..i] + [h[i]] + h[i + 1..j] + [h[j]] + h[j + 1..];
  }
}
