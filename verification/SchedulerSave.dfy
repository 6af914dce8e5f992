/** Saving and loading the scheduler: what survives, and what later runs can tell. */
module SchedulerSave {
  import opened EventHeap
  import opened SchedulerModel
  import opened SchedulerRuns

  datatype SavedEvent = SavedEvent(key: U64, uid: U64, userData: U64, class_: U16)

  /** The scheduler's part of a save state: the clock and the events in heap array order. */
  datatype Saved = Saved(timestamp: U64, events: seq<SavedEvent>, nextUid: U64)

  function SaveEvent(e: Record): SavedEvent {
    SavedEvent(e.key, e.uid, e.userData, e.class_)
  }

  function Save(s: State): Saved {
    Saved(s.now, seq(s.size, i requires 0 <= i < s.size => SaveEvent(s.slots[i])), s.nextUid)
  }

  /** The delay handed to `Add` for a saved time stamp, computed modulo 2^64. */
  function DelayUntil(timestamp: U64, now: U64): U64 {
    (timestamp - now) % TWO_64
  }

  /** The event made from a saved one. */
  function LoadedEvent(s: State, e: SavedEvent, now: U64): Record {
    NewEvent(s, DelayUntil(e.key / 4, now), e.class_, e.key % 4, e.userData).(uid := e.uid)
  }

  /** One iteration of the loading loop; the end-of-queue event already exists after `Reset`. */
  function LoadEvent(s: State, e: SavedEvent, now: U64): Outcome<State> {
    if e.class_ == END_OF_QUEUE then Done(s)
    else if s.size + 1 > MAX_EVENTS then Panicked
    else Done(s.(slots := Insert(s.slots, s.size, LoadedEvent(s, e, now)),
                 size := s.size + 1, nextUid := (s.nextUid + 1) % TWO_64))
  }

  function LoadEvents(s: State, events: seq<SavedEvent>, now: U64): Outcome<State>
    decreases |events|
  {
    if events == [] then Done(s)
    else
      match LoadEvent(s, events[0], now)
      case Done(s1) => LoadEvents(s1, events[1..], now)
      case o => o
  }

  /** Reset, set the clock, load the events, restore the uid counter. */
  function Load(slots: seq<Record>, saved: Saved): Outcome<State>
    requires |slots| == MAX_EVENTS
  {
    match LoadEvents(Reset(slots).(now := saved.timestamp), saved.events, saved.timestamp)
    case Done(s) => Done(s.(nextUid := saved.nextUid))
    case o => o
  }

  // ---------------------------------------------------------------- round trip

  lemma LoadedEventIsSaved(s: State, e: Record, now: U64)
    requires Regular(e) && s.now == now
    ensures LoadedEvent(s, SaveEvent(e), now) == e
  {
    var t := e.timestamp;
    assert e.key / 4 == t;
    var delay := DelayUntil(t, now);
    assert (now + delay) % TWO_64 == t;
    assert (t * 4) % TWO_64 == t * 4;
  }

  /** The events other than the end-of-queue event among the first `i` of the heap array. */
  ghost function Others(s: State, i: nat): multiset<Record>
    requires i <= s.size
  {
    multiset(s.slots[..i]) - multiset{SENTINEL}
  }

  lemma NextOther(s: State, i: nat)
    requires i < s.size && Good(s)
    ensures s.slots[i] in Pending(s)
    ensures s.slots[i] == SENTINEL ==> Others(s, i + 1) == Others(s, i)
    ensures s.slots[i] != SENTINEL ==>
              Others(s, i + 1) == Others(s, i) + multiset{s.slots[i]} && |Others(s, i)| + 2 <= s.size
  {
    var e := s.slots[i];
    PendingAt(s, e);
    assert s.slots[..i + 1] == s.slots[..i] + [e];
    assert s.slots[..s.size] == s.slots[..i] + [e] + s.slots[i + 1..s.size];
    assert Pending(s)[SENTINEL] == 1;
    hide GoodView, Ordered;
    OneMoreOther(multiset(s.slots[..i]), e, multiset(s.slots[i + 1..s.size]), Pending(s));
    PendingSize(s);
  }

  lemma OneMoreOther(p: multiset<Record>, e: Record, q: multiset<Record>, all: multiset<Record>)
    requires all == p + multiset{e} + q && all[SENTINEL] == 1
    ensures e == SENTINEL ==> (p + multiset{e}) - multiset{SENTINEL} == p - multiset{SENTINEL}
    ensures e != SENTINEL ==>
              (p + multiset{e}) - multiset{SENTINEL} == (p - multiset{SENTINEL}) + multiset{e} &&
              |p - multiset{SENTINEL}| + 2 <= |all|
  {
    if e != SENTINEL {
      var some := (p - multiset{SENTINEL}) + multiset{e} + multiset{SENTINEL};
      assert some <= all;
      assert all == some + (all - some);
    }
  }

  /** A heap that holds the end-of-queue event and the first `i` saved events. */
  ghost predicate LoadedUpTo(s: State, i: nat, t: State)
    requires i <= s.size
  {
    Ordered(t.slots, t.size) && t.now == s.now && Pending(t) == Others(s, i) + multiset{SENTINEL}
  }

  lemma LoadOne(s: State, t: State, i: nat)
    requires i < s.size && Good(s) && LoadedUpTo(s, i, t)
    ensures LoadEvent(t, SaveEvent(s.slots[i]), s.now).Done?
    ensures LoadedUpTo(s, i + 1, LoadEvent(t, SaveEvent(s.slots[i]), s.now).value)
  {
    var e := s.slots[i];
    NextOther(s, i);
    PendingSize(t);
    if e != SENTINEL {
      assert Regular(e);
      assert t.size + 1 <= MAX_EVENTS;
      LoadedEventIsSaved(t, e, s.now);
      InsertIsCorrect(t.slots, t.size, e);
      hide Ordered, Insert, LoadedEvent, GoodView, Others;
    }
  }

  lemma {:induction false} LoadEventsIsExact(s: State, t: State, i: nat)
    requires i <= s.size && Good(s) && LoadedUpTo(s, i, t)
    ensures LoadEvents(t, Save(s).events[i..], s.now).Done?
    ensures LoadedUpTo(s, s.size, LoadEvents(t, Save(s).events[i..], s.now).value)
    decreases s.size - i
  {
    hide Good, LoadEvent, LoadedUpTo, SaveEvent;
    var events := Save(s).events;
    if i < s.size {
      var e := s.slots[i];
      assert events[i..][0] == SaveEvent(e) && events[i..][1..] == events[i + 1..];
      LoadOne(s, t, i);
      LoadEventsIsExact(s, LoadEvent(t, SaveEvent(e), s.now).value, i + 1);
    }
  }

  lemma ResetIsLoadedUpToNothing(s: State, slots: seq<Record>)
    requires |slots| == MAX_EVENTS
    ensures LoadedUpTo(s, 0, Reset(slots).(now := s.now))
  {
    var t := Reset(slots).(now := s.now);
    assert t.slots[..1] == [SENTINEL];
  }

  /** Saving, resetting and loading keeps the clock, the uid counter and exactly the pending events with their
      time stamps, keys, uids, user data and classes, with one end-of-queue event and the heap order intact. */
  lemma LoadAfterSave(s: State, slots: seq<Record>)
    requires Good(s) && |slots| == MAX_EVENTS
    ensures Load(slots, Save(s)).Done?
    ensures var t := Load(slots, Save(s)).value;
            Good(t) && ViewOf(t) == ViewOf(s)
  {
    var t := Reset(slots).(now := s.now);
    ResetIsLoadedUpToNothing(s, slots);
    LoadEventsIsExact(s, t, 0);
    assert Save(s).events[0..] == Save(s).events;
    var u := LoadEvents(t, Save(s).events, s.now).value;
    assert SENTINEL in Pending(s);
    assert Others(s, s.size) + multiset{SENTINEL} == Pending(s);
    assert Pending(u.(nextUid := s.nextUid)) == Pending(u);
    hide GoodView, Ordered, LoadEvents, Save, Others;
  }

  /** A component that finds its event again by uid after loading finds the same event. */
  lemma SameEventByUid(s: State, slots: seq<Record>, uid: U64)
    requires Good(s) && |slots| == MAX_EVENTS
    ensures Load(slots, Save(s)).Done?
    ensures var t := Load(slots, Save(s)).value;
            && (Find(s, uid, 0) < s.size <==> Find(t, uid, 0) < t.size)
            && (Find(s, uid, 0) < s.size ==> t.slots[Find(t, uid, 0)] == s.slots[Find(s, uid, 0)])
  {
    LoadAfterSave(s, slots);
    var t := Load(slots, Save(s)).value;
    hide Load, Save;
    SameFind(s, t, uid);
    SameFind(t, s, uid);
  }

  lemma SameFind(s: State, t: State, uid: U64)
    requires Good(s) && Good(t) && Pending(s) == Pending(t)
    ensures Find(s, uid, 0) < s.size ==>
              Find(t, uid, 0) < t.size && t.slots[Find(t, uid, 0)] == s.slots[Find(s, uid, 0)]
  {
    var n := Find(s, uid, 0);
    if n < s.size {
      PendingAt(s, s.slots[n]);
      FindIsExact(t, s.slots[n]);
    }
  }
}
