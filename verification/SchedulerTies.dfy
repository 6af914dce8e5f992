/** Events with equal keys are dispatched in an order that depends on the heap layout, and loading a save
    state rebuilds the heap in another layout: the reason for the untied condition of the replay theorem. */
module SchedulerTies {
  import opened EventHeap
  import opened SchedulerModel
  import opened SchedulerSave

  const A := Record(10, 40, 2, 0, 0)
  const B := Record(10, 40, 3, 0, 0)
  const C := Record(10, 40, 4, 0, 0)

  /** Three events that are due together. The third one has passed the end-of-queue event, so it lies before the second. */
  ghost predicate ThreeTied(s: State) {
    && s.size == 4 && s.now == 0 && s.nextUid == 5
    && s.slots[0] == A && s.slots[1] == C && s.slots[2] == B && s.slots[3] == SENTINEL
  }

  function Idle(e: Record, v: View, env: ()): (seq<Command>, ()) {
    ([], ())
  }

  lemma ThreeTiedIsGood(s: State)
    requires ThreeTied(s)
    ensures Good(s)
  {
    assert s.slots[..4] == [A, C, B, SENTINEL];
    assert Pending(s) == multiset{A, B, C, SENTINEL};
  }

  /** Removing the top of a four-event heap whose first three events are tied. */
  lemma RemoveTopOfTied(h: seq<Record>, y: Record, z: Record)
    requires |h| == MAX_EVENTS && h[0] == A && h[1] == y && h[2] == z && h[3] == SENTINEL
    requires y.key == z.key == 40
    ensures RemoveAt(h, 4, 0)[0] == y
  {
    var g := Swap(h, 0, 3);
    assert g[0] == SENTINEL && g[1] == y && g[2] == z;
    var g1 := Swap(g, 1, 0);
    assert g1[0] == y && g1[1] == SENTINEL && g1[2] == z;
    assert Heapify(g1, 3, 1) == g1;
  }

  /** The heap that loading builds: the end-of-queue event first, then A, C and B in array order. */
  lemma LoadedLayout(s: State, slots: seq<Record>)
    requires ThreeTied(s) && |slots| == MAX_EVENTS
    ensures Load(slots, Save(s)).Done?
    ensures var t := Load(slots, Save(s)).value;
            t.size == 4 && t.slots[0] == A && t.slots[1] == B && t.slots[2] == C && t.slots[3] == SENTINEL
  {
    var t0 := Reset(slots).(now := 0);
    assert t0.slots[0] == SENTINEL;
    var t1 := LoadStep(t0, A);
    var t2 := LoadStep(t1, C);
    var t3 := LoadStep(t2, B);
    hide LoadEvent;
    var ev := Save(s).events;
    assert ev == [SaveEvent(A), SaveEvent(C), SaveEvent(B), SaveEvent(SENTINEL)];
    assert ev[1..] == [SaveEvent(C), SaveEvent(B), SaveEvent(SENTINEL)];
    assert ev[1..][1..] == [SaveEvent(B), SaveEvent(SENTINEL)];
    assert ev[1..][1..][1..] == [SaveEvent(SENTINEL)];
    LoadSentinelLast(t3);
    assert LoadEvents(t2, ev[1..][1..], 0) == Done(t3);
    assert LoadEvents(t1, ev[1..], 0) == Done(t3);
    assert LoadEvents(t0, ev, 0) == Done(t3);
  }

  lemma LoadSentinelLast(t: State)
    ensures LoadEvents(t, [SaveEvent(SENTINEL)], 0) == Done(t)
  {
    assert [SaveEvent(SENTINEL)][1..] == [];
    assert LoadEvents(t, [], 0) == Done(t);
  }

  /** Loading one of the tied events: it goes to the end and passes the end-of-queue event if that is its parent. */
  lemma LoadStep(t: State, e: Record) returns (t': State)
    requires e == A || e == B || e == C
    requires t.now == 0 && 1 <= t.size <= 3
    requires t.slots[Parent(t.size)].key == 40 || (t.slots[Parent(t.size)] == SENTINEL)
    requires Parent(t.size) == 0 || t.slots[0].key == 40
    ensures LoadEvent(t, SaveEvent(e), 0) == Done(t')
    ensures t'.now == 0 && t'.size == t.size + 1
    ensures t'.slots == if t.slots[Parent(t.size)] == SENTINEL
                        then t.slots[t.size := SENTINEL][Parent(t.size) := e]
                        else t.slots[t.size := e]
  {
    LoadedEventIsSaved(t, e, 0);
    t' := LoadEvent(t, SaveEvent(e), 0).value;
    var n := t.size;
    var h := t.slots[n := e];
    if h[Parent(n)] == SENTINEL {
      assert Swap(h, n, Parent(n)) == t.slots[n := SENTINEL][Parent(n) := e];
    }
  }

  lemma IdleDispatch(s: State)
    requires s.size > 0 && s.slots[0] == A
    ensures Dispatch(Idle, s, ()).Done?
    ensures Dispatch(Idle, s, ()).value.state.slots == RemoveAt(s.slots, s.size, 0)
    ensures Dispatch(Idle, s, ()).value.state.size == s.size - 1
  {
    var s0 := s.(now := 10);
    assert ExecAll(s0, [], A.uid) == Done((s0, []));
    assert Find(s0, A.uid, 0) == 0;
  }

  /** `Add` of an event that is due at cycle 10 puts it at the end, or before the end-of-queue event. */
  lemma AddStep(s: State) returns (s': State)
    requires s.now == 0 && 1 <= s.size <= 3 && s.nextUid + 1 < TWO_64
    requires s.slots[Parent(s.size)].key == 40 || s.slots[Parent(s.size)] == SENTINEL
    requires Parent(s.size) == 0 || s.slots[0].key == 40
    ensures Add(s, 10, 0, 0, 0) == Done(s')
    ensures s'.now == 0 && s'.size == s.size + 1 && s'.nextUid == s.nextUid + 1
    ensures var e := Record(10, 40, s.nextUid, 0, 0);
            s'.slots == if s.slots[Parent(s.size)] == SENTINEL
                        then s.slots[s.size := SENTINEL][Parent(s.size) := e]
                        else s.slots[s.size := e]
  {
    s' := Add(s, 10, 0, 0, 0).value;
    var n := s.size;
    var e := NewEvent(s, 10, 0, 0, 0);
    assert e == Record(10, 40, s.nextUid, 0, 0);
    var h := s.slots[n := e];
    if h[Parent(n)] == SENTINEL {
      assert Swap(h, n, Parent(n)) == s.slots[n := SENTINEL][Parent(n) := e];
    }
  }

  /** The state is what three calls of `Add` after a reset leave. */
  lemma ThreeTiedIsReached(slots: seq<Record>) returns (s1: State, s2: State, s3: State)
    requires |slots| == MAX_EVENTS
    ensures Add(Reset(slots), 10, 0, 0, 0) == Done(s1) && Add(s1, 10, 0, 0, 0) == Done(s2) && Add(s2, 10, 0, 0, 0) == Done(s3)
    ensures ThreeTied(s3)
  {
    var s0 := Reset(slots);
    assert s0.slots[0] == SENTINEL;
    s1 := AddStep(s0);
    s2 := AddStep(s1);
    s3 := AddStep(s2);
  }

  /** With equal keys a save and load in between does change the order of dispatch: after three additions to a fresh
      scheduler, the uninterrupted run takes C after A, the loaded one takes B after A. */
  lemma LoadingCanReorderTies(s: State, slots: seq<Record>)
    requires ThreeTied(s) && |slots| == MAX_EVENTS
    ensures Good(s) && Load(slots, Save(s)).Done?
    ensures var t := Load(slots, Save(s)).value;
            && t.size > 0 && s.slots[0] == t.slots[0] == A
            && Dispatch(Idle, s, ()).Done? && Dispatch(Idle, t, ()).Done?
            && Dispatch(Idle, s, ()).value.state.slots[0] == C
            && Dispatch(Idle, t, ()).value.state.slots[0] == B
  {
    ThreeTiedIsGood(s);
    LoadedLayout(s, slots);
    hide Load, Dispatch, RemoveAt, Good, Save;
    var t := Load(slots, Save(s)).value;
    IdleDispatch(s);
    IdleDispatch(t);
    RemoveTopOfTied(s.slots, C, B);
    RemoveTopOfTied(t.slots, B, C);
  }
}
