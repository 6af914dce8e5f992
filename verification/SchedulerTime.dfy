/** How time may be cut up: running the scheduler for a number of cycles in one call or in
    several calls cannot be told apart, so jumping to the next event is sound. */
module SchedulerTime {
  import opened EventHeap
  import opened SchedulerModel

  /** `AddCycles` comes to an end with outcome `o`. */
  ghost predicate Ends<Env>(cb: Callback<Env>, s: State, env: Env, cycles: int, o: Outcome<Run<Env>>) {
    o != Unfinished && exists fuel: nat :: AddCycles(cb, s, env, cycles, fuel) == o
  }

  lemma {:induction false} MoreFuel<Env>(cb: Callback<Env>, s: State, env: Env, limit: int, fuel: nat, more: nat)
    requires fuel <= more && Step(cb, s, env, limit, fuel) != Unfinished
    ensures Step(cb, s, env, limit, more) == Step(cb, s, env, limit, fuel)
    decreases fuel
  {
    hide Dispatch;
    if Due(s, limit) && Dispatch(cb, s, env).Done? {
      var r := Dispatch(cb, s, env).value;
      MoreFuel(cb, r.state, r.env, limit, fuel - 1, more - 1);
    }
  }

  lemma EndsOnce<Env>(cb: Callback<Env>, s: State, env: Env, cycles: int, o: Outcome<Run<Env>>, p: Outcome<Run<Env>>)
    requires Ends(cb, s, env, cycles, o) && Ends(cb, s, env, cycles, p)
    ensures o == p
  {
    hide Step;
    var f: nat :| AddCycles(cb, s, env, cycles, f) == o;
    var g: nat :| AddCycles(cb, s, env, cycles, g) == p;
    var limit := (s.now + cycles) % TWO_64;
    if f <= g {
      MoreFuel(cb, s, env, limit, f, g);
    } else {
      MoreFuel(cb, s, env, limit, g, f);
    }
  }

  /** The loop reads the clock only after setting it, so the clock it starts from does not matter. */
  lemma ClockIsOverwritten<Env>(cb: Callback<Env>, s: State, env: Env, limit: int, fuel: nat, now: U64)
    ensures var s' := s.(now := now);
            Step(cb, s', env, limit, fuel) ==
            if Due(s, limit) then Step(cb, s, env, limit, fuel) else Done(Run(s', env, []))
  {
    var s' := s.(now := now);
    if Due(s, limit) {
      assert s'.(now := s.slots[0].timestamp) == s.(now := s.slots[0].timestamp);
      assert Dispatch(cb, s', env) == Dispatch(cb, s, env);
    }
  }

  lemma PrependTwice<Env>(a: seq<LogEntry>, b: seq<LogEntry>, o: Outcome<Run<Env>>)
    ensures Prepend(a, Prepend(b, o)) == Prepend(a + b, o)
    ensures Prepend([], o) == o
  {
    if o.Done? {
      assert a + (b + o.value.log) == a + b + o.value.log;
      assert [] + o.value.log == o.value.log;
    }
  }

  /** A run to a later limit passes through the end of the run to an earlier one. */
  lemma {:induction false} StopOver<Env>(cb: Callback<Env>, s: State, env: Env, early: int, late: int, f: nat, g: nat)
    requires early <= late && Step(cb, s, env, early, f) != Unfinished
    ensures var o := Step(cb, s, env, early, f);
            Step(cb, s, env, late, f + g) ==
            if o.Done? then Prepend(o.value.log, Step(cb, o.value.state, o.value.env, late, FuelLeft(cb, s, env, early, f) + g))
            else o
    decreases f
  {
    hide Dispatch;
    if !Due(s, early) {
      PrependTwice([], [], Step(cb, s, env, late, f + g));
    } else {
      var d := Dispatch(cb, s, env);
      if d.Done? {
        var r := d.value;
        StopOver(cb, r.state, r.env, early, late, f - 1, g);
        var o := Step(cb, r.state, r.env, early, f - 1);
        if o.Done? {
          PrependTwice(r.log, o.value.log,
                       Step(cb, o.value.state, o.value.env, late, FuelLeft(cb, r.state, r.env, early, f - 1) + g));
        }
      }
    }
  }

  /** Loop iterations that a finished run to `limit` does not use. */
  function FuelLeft<Env>(cb: Callback<Env>, s: State, env: Env, limit: int, fuel: nat): nat
    decreases fuel
  {
    if !Due(s, limit) || fuel == 0 then fuel
    else
      match Dispatch(cb, s, env)
      case Done(r) => FuelLeft(cb, r.state, r.env, limit, fuel - 1)
      case _ => fuel
  }

  lemma {:induction false} EarlierEndsToo<Env>(cb: Callback<Env>, s: State, env: Env, early: int, late: int, f: nat)
    requires early <= late && Step(cb, s, env, late, f) != Unfinished
    ensures Step(cb, s, env, early, f) != Unfinished
    decreases f
  {
    hide Dispatch;
    if Due(s, early) && Dispatch(cb, s, env).Done? {
      var r := Dispatch(cb, s, env).value;
      EarlierEndsToo(cb, r.state, r.env, early, late, f - 1);
    }
  }

  function WithClock<Env>(o: Outcome<Run<Env>>, now: U64): Outcome<Run<Env>> {
    match o
    case Done(r) => Done(r.(state := r.state.(now := now)))
    case _ => o
  }

  /** The second call continues where the first stopped, whatever the clock was set to in between. */
  lemma SecondCall<Env>(cb: Callback<Env>, r: Run<Env>, now: U64, limit: U64, fuel: nat)
    ensures WithClock(Step(cb, r.state.(now := now), r.env, limit, fuel), limit) ==
            WithClock(Step(cb, r.state, r.env, limit, fuel), limit)
  {
    ClockIsOverwritten(cb, r.state, r.env, limit, fuel, now);
  }

  /** Two calls one after the other have outcome `o`. */
  ghost predicate EndsInTwo<Env(!new)>(cb: Callback<Env>, s: State, env: Env, a: int, b: int, o: Outcome<Run<Env>>) {
    exists m: Outcome<Run<Env>> :: Ends(cb, s, env, a, m) && Continues(cb, m, b, o)
  }

  ghost predicate Continues<Env(!new)>(cb: Callback<Env>, m: Outcome<Run<Env>>, b: int, o: Outcome<Run<Env>>) {
    if m.Done? then
      exists p: Outcome<Run<Env>> :: Ends(cb, m.value.state, m.value.env, b, p) && o == Prepend(m.value.log, p)
    else o == m
  }

  /** Splitting time is unobservable: for every callback, `AddCycles(a)` followed by `AddCycles(b)` ends
      exactly when `AddCycles(a + b)` does, with the same final state, the same environment, the same log
      of dispatched, added and cancelled events, and the same panic if there is one. */
  lemma SplittingTimeIsUnobservable<Env(!new)>(cb: Callback<Env>, s: State, env: Env, a: nat, b: nat, o: Outcome<Run<Env>>)
    requires s.now + a + b < TWO_64
    ensures Ends(cb, s, env, a + b, o) <==> EndsInTwo(cb, s, env, a, b, o)
  {
    if Ends(cb, s, env, a + b, o) {
      OneCallIsTwo(cb, s, env, a, b, o);
    }
    if EndsInTwo(cb, s, env, a, b, o) {
      TwoCallsAreOne(cb, s, env, a, b, o);
    }
  }

  lemma OneCallIsTwo<Env(!new)>(cb: Callback<Env>, s: State, env: Env, a: nat, b: nat, o: Outcome<Run<Env>>)
    requires s.now + a + b < TWO_64 && Ends(cb, s, env, a + b, o)
    ensures EndsInTwo(cb, s, env, a, b, o)
  {
    hide Dispatch, Step, FuelLeft;
    var early, late := s.now + a, s.now + a + b;
    var f: nat :| AddCycles(cb, s, env, a + b, f) == o;
    EarlierEndsToo(cb, s, env, early, late, f);
    StopOver(cb, s, env, early, late, f, 0);
    var m := AddCycles(cb, s, env, a, f);
    assert Ends(cb, s, env, a, m);
    var first := Step(cb, s, env, early, f);
    if first.Done? {
      var g := FuelLeft(cb, s, env, early, f);
      SecondCall(cb, first.value, early, late, g);
      var p := AddCycles(cb, m.value.state, m.value.env, b, g);
      assert o == Prepend(m.value.log, p);
      assert Ends(cb, m.value.state, m.value.env, b, p);
    }
    assert Continues(cb, m, b, o);
  }

  lemma TwoCallsAreOne<Env(!new)>(cb: Callback<Env>, s: State, env: Env, a: nat, b: nat, o: Outcome<Run<Env>>)
    requires s.now + a + b < TWO_64 && EndsInTwo(cb, s, env, a, b, o)
    ensures Ends(cb, s, env, a + b, o)
  {
    hide Dispatch, Step, FuelLeft, AddCycles;
    var m :| Ends(cb, s, env, a, m) && Continues(cb, m, b, o);
    var f: nat :| AddCycles(cb, s, env, a, f) == m;
    if m.Done? {
      var p :| Ends(cb, m.value.state, m.value.env, b, p) && o == Prepend(m.value.log, p);
      var g: nat :| AddCycles(cb, m.value.state, m.value.env, b, g) == p;
      BothAreOne(cb, s, env, a, b, f, g);
    } else {
      FirstIsAll(cb, s, env, a, b, f);
    }
  }

  /** Two finished calls. */
  lemma BothAreOne<Env(!new)>(cb: Callback<Env>, s: State, env: Env, a: nat, b: nat, f: nat, g: nat)
    requires s.now + a + b < TWO_64 && AddCycles(cb, s, env, a, f).Done?
    requires var m := AddCycles(cb, s, env, a, f).value; AddCycles(cb, m.state, m.env, b, g) != Unfinished
    ensures var m := AddCycles(cb, s, env, a, f).value;
            AddCycles(cb, s, env, a + b, f + g) == Prepend(m.log, AddCycles(cb, m.state, m.env, b, g))
  {
    hide Dispatch, Step, FuelLeft;
    var early, late := s.now + a, s.now + a + b;
    var first := Step(cb, s, env, early, f);
    StopOver(cb, s, env, early, late, f, g);
    SecondCall(cb, first.value, early, late, g);
    assert Step(cb, first.value.state, first.value.env, late, g) != Unfinished;
    MoreFuel(cb, first.value.state, first.value.env, late, g, FuelLeft(cb, s, env, early, f) + g);
  }

  /** A first call that does not come back. */
  lemma FirstIsAll<Env(!new)>(cb: Callback<Env>, s: State, env: Env, a: nat, b: nat, f: nat)
    requires s.now + a + b < TWO_64 && !AddCycles(cb, s, env, a, f).Done? && AddCycles(cb, s, env, a, f) != Unfinished
    ensures AddCycles(cb, s, env, a + b, f) == AddCycles(cb, s, env, a, f)
  {
    hide Dispatch, Step, FuelLeft;
    StopOver(cb, s, env, s.now + a, s.now + a + b, f, 0);
  }

  // ---------------------------------------------------------------- any number of calls

  function Sum(chunks: seq<nat>): nat {
    if chunks == [] then 0 else chunks[0] + Sum(chunks[1..])
  }

  /** A sequence of calls has outcome `o`. */
  ghost predicate EndsInChunks<Env(!new)>(cb: Callback<Env>, s: State, env: Env, chunks: seq<nat>, o: Outcome<Run<Env>>)
    requires chunks != []
    decreases |chunks|
  {
    if |chunks| == 1 then Ends(cb, s, env, chunks[0], o)
    else
      exists m: Outcome<Run<Env>> :: Ends(cb, s, env, chunks[0], m) &&
        if m.Done? then
          exists p: Outcome<Run<Env>> ::
            EndsInChunks(cb, m.value.state, m.value.env, chunks[1..], p) && o == Prepend(m.value.log, p)
        else o == m
  }

  lemma ClockAfter<Env>(cb: Callback<Env>, s: State, env: Env, a: nat, m: Outcome<Run<Env>>)
    requires s.now + a < TWO_64 && Ends(cb, s, env, a, m) && m.Done?
    ensures m.value.state.now == s.now + a
  {
  }

  /** However a stretch of time is cut into calls, the outcome is that of the single call. */
  lemma {:induction false} ChunksAreUnobservable<Env(!new)>(cb: Callback<Env>, s: State, env: Env, chunks: seq<nat>, o: Outcome<Run<Env>>)
    requires chunks != [] && s.now + Sum(chunks) < TWO_64
    ensures EndsInChunks(cb, s, env, chunks, o) <==> Ends(cb, s, env, Sum(chunks), o)
    decreases |chunks|
  {
    hide Ends, EndsInTwo;
    if |chunks| == 1 {
      assert Sum(chunks) == chunks[0];
    } else {
      var a, rest := chunks[0], chunks[1..];
      SplittingTimeIsUnobservable(cb, s, env, a, Sum(rest), o);
      forall m: Outcome<Run<Env>>, p: Outcome<Run<Env>> | Ends(cb, s, env, a, m) && m.Done?
        ensures EndsInChunks(cb, m.value.state, m.value.env, rest, p) <==>
                Ends(cb, m.value.state, m.value.env, Sum(rest), p)
      {
        ClockAfter(cb, s, env, a, m);
        ChunksAreUnobservable(cb, m.value.state, m.value.env, rest, p);
      }
      ChunksUnfold(cb, s, env, chunks, o);
    }
  }

  lemma ChunksUnfold<Env(!new)>(cb: Callback<Env>, s: State, env: Env, chunks: seq<nat>, o: Outcome<Run<Env>>)
    requires |chunks| > 1
    requires forall m: Outcome<Run<Env>>, p: Outcome<Run<Env>> | Ends(cb, s, env, chunks[0], m) && m.Done? ::
               EndsInChunks(cb, m.value.state, m.value.env, chunks[1..], p) <==>
               Ends(cb, m.value.state, m.value.env, Sum(chunks[1..]), p)
    ensures EndsInChunks(cb, s, env, chunks, o) <==> EndsInTwo(cb, s, env, chunks[0], Sum(chunks[1..]), o)
  {
    var rest := chunks[1..];
    if EndsInChunks(cb, s, env, chunks, o) {
      var m: Outcome<Run<Env>> :| Ends(cb, s, env, chunks[0], m) &&
        if m.Done? then
          exists p: Outcome<Run<Env>> ::
            EndsInChunks(cb, m.value.state, m.value.env, rest, p) && o == Prepend(m.value.log, p)
        else o == m;
      assert Continues(cb, m, Sum(rest), o);
    }
    if EndsInTwo(cb, s, env, chunks[0], Sum(rest), o) {
      var m :| Ends(cb, s, env, chunks[0], m) && Continues(cb, m, Sum(rest), o);
      if m.Done? {
        var p :| Ends(cb, m.value.state, m.value.env, Sum(rest), p) && o == Prepend(m.value.log, p);
        assert EndsInChunks(cb, m.value.state, m.value.env, rest, p);
      }
    }
  }

  // ---------------------------------------------------------------- the halt loop

  function Remaining(s: State): int {
    s.slots[0].timestamp - s.now
  }

  /** The reference for the halted CPU: one cycle at a time, until `wake` sees the wake-up condition or
      `n` cycles have passed. */
  function WaitByCycle<Env>(cb: Callback<Env>, s: State, env: Env, wake: Env -> bool, n: nat, fuel: nat): Outcome<Run<Env>>
    decreases n
  {
    if n == 0 || wake(env) then Done(Run(s, env, []))
    else
      match AddCycles(cb, s, env, 1, fuel)
      case Done(r) => Prepend(r.log, WaitByCycle(cb, r.state, r.env, wake, n - 1, fuel))
      case o => o
  }

  /** Before the next event a halted CPU sees nothing happen: only the clock advances. */
  lemma QuietUntilNextEvent<Env>(cb: Callback<Env>, s: State, env: Env, k: nat, fuel: nat)
    requires k < Remaining(s)
    ensures AddCycles(cb, s, env, k, fuel) == Done(Run(s.(now := s.now + k), env, []))
  {
  }

  lemma QuietWithoutEvents<Env>(cb: Callback<Env>, s: State, env: Env, k: nat, fuel: nat)
    requires s.size == 0 && s.now + k < TWO_64
    ensures AddCycles(cb, s, env, k, fuel) == Done(Run(s.(now := s.now + k), env, []))
  {
  }

  /** The jump of the halt loop to the next event is sound: it does exactly what waiting cycle by cycle
      does, including when the wake-up condition is tested after every single cycle. */
  lemma {:induction false} JumpIsSound<Env>(cb: Callback<Env>, s: State, env: Env, wake: Env -> bool, fuel: nat)
    requires Remaining(s) > 0 && !wake(env)
    ensures WaitByCycle(cb, s, env, wake, Remaining(s), fuel) == AddCycles(cb, s, env, Remaining(s), fuel)
    decreases Remaining(s)
  {
    hide Dispatch, Step;
    var n := Remaining(s);
    if n > 1 {
      QuietUntilNextEvent(cb, s, env, 1, fuel);
      var s1 := s.(now := s.now + 1);
      JumpIsSound(cb, s1, env, wake, fuel);
      PrependTwice([], [], WaitByCycle(cb, s1, env, wake, n - 1, fuel));
      if s.size == 0 {
        QuietWithoutEvents(cb, s, env, n, fuel);
        QuietWithoutEvents(cb, s1, env, n - 1, fuel);
      }
      var limit := s.slots[0].timestamp;
      ClockIsOverwritten(cb, s, env, limit, fuel, s.now + 1);
    } else {
      var o := AddCycles(cb, s, env, 1, fuel);
      if o.Done? {
        assert WaitByCycle(cb, o.value.state, o.value.env, wake, 0, fuel) == Done(Run(o.value.state, o.value.env, []));
        assert o.value.log + [] == o.value.log;
      }
    }
  }
}
