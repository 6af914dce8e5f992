/** The halted CPU. Between transfers of the DMA unit, which are an arbitrary function of scheduler and environment,
    the emulator jumps from event to event; the reference looks after every cycle whether the CPU wakes up or a
    transfer is due. */
module SchedulerHalt {
  import opened SchedulerModel
  import opened SchedulerTime

  /** What the halt loop asks the hardware: does the CPU wake up, is a transfer due, and what does it do. */
  datatype Hardware<!Env> =
    Hardware(wake: Env -> bool, busy: Env -> bool, transfer: (State, Env) -> Outcome<Run<Env>>)

  /** Waiting until the next event in one call. Nothing is left to wait for when that event is due already. */
  function Jump<Env>(cb: Callback<Env>, s: State, env: Env, fuel: nat): Outcome<Run<Env>> {
    AddCycles(cb, s, env, Remaining(s), fuel)
  }

  /** Waiting one cycle at a time, until the next event, the end of the halt or a transfer. */
  function Poll<Env>(cb: Callback<Env>, hw: Hardware<Env>, s: State, env: Env, fuel: nat): Outcome<Run<Env>> {
    if Remaining(s) <= 0 then AddCycles(cb, s, env, Remaining(s), fuel)
    else WaitByCycle(cb, s, env, e => hw.wake(e) || hw.busy(e), Remaining(s), fuel)
  }

  /** How a turn of the loop waits. */
  function Wait<Env>(cb: Callback<Env>, hw: Hardware<Env>, polls: bool, s: State, env: Env, fuel: nat): Outcome<Run<Env>> {
    if polls then Poll(cb, hw, s, env, fuel) else Jump(cb, s, env, fuel)
  }

  /** One turn of the loop. A transfer can wake up the CPU, which is then tested at once. */
  function Turn<Env>(cb: Callback<Env>, hw: Hardware<Env>, polls: bool, s: State, env: Env, fuel: nat): Outcome<Run<Env>> {
    if hw.busy(env) then
      match hw.transfer(s, env)
      case Done(r) =>
        if hw.wake(r.env) then Done(r) else Prepend(r.log, Wait(cb, hw, polls, r.state, r.env, fuel))
      case o => o
    else Wait(cb, hw, polls, s, env, fuel)
  }

  /** The loop, for at most `turns` turns. */
  function Halted<Env>(cb: Callback<Env>, hw: Hardware<Env>, polls: bool, s: State, env: Env, limit: int, turns: nat,
                       fuel: nat): Outcome<Run<Env>>
    decreases turns
  {
    if s.now >= limit || hw.wake(env) then Done(Run(s, env, []))
    else if turns == 0 then Unfinished
    else
      match Turn(cb, hw, polls, s, env, fuel)
      case Done(r) => Prepend(r.log, Halted(cb, hw, polls, r.state, r.env, limit, turns - 1, fuel))
      case o => o
  }

  // ---------------------------------------------------------------- one wait

  lemma JumpMovesTheClock<Env>(cb: Callback<Env>, s: State, env: Env, fuel: nat)
    requires s.now < s.slots[0].timestamp && Jump(cb, s, env, fuel).Done?
    ensures Jump(cb, s, env, fuel).value.state.now == s.slots[0].timestamp
  {
    hide Step;
  }

  /** Where the next event lies ahead and the CPU sleeps, the jump does what waiting cycle by cycle does if and
      only if no transfer is due. */
  lemma JumpIffNotBusy<Env>(cb: Callback<Env>, hw: Hardware<Env>, s: State, env: Env, fuel: nat)
    requires Remaining(s) > 0 && !hw.wake(env)
    ensures Jump(cb, s, env, fuel) == Poll(cb, hw, s, env, fuel) <==> !hw.busy(env)
  {
    hide AddCycles;
    if hw.busy(env) {
      if Jump(cb, s, env, fuel).Done? {
        JumpMovesTheClock(cb, s, env, fuel);
      }
    } else {
      JumpIsSound(cb, s, env, e => hw.wake(e) || hw.busy(e), fuel);
    }
  }

  // ---------------------------------------------------------------- turns

  /** The transfer of this turn leaves another one due, and the CPU asleep until the next event. */
  predicate LeavesTransfer<Env>(hw: Hardware<Env>, s: State, env: Env) {
    && hw.busy(env) && hw.transfer(s, env).Done?
    && var r := hw.transfer(s, env).value;
    && !hw.wake(r.env) && hw.busy(r.env) && Remaining(r.state) > 0
  }

  lemma WaitsAgree<Env>(cb: Callback<Env>, hw: Hardware<Env>, s: State, env: Env, fuel: nat)
    requires !hw.wake(env)
    ensures Jump(cb, s, env, fuel) == Poll(cb, hw, s, env, fuel) <==> !(hw.busy(env) && Remaining(s) > 0)
  {
    hide AddCycles, WaitByCycle;
    if Remaining(s) > 0 {
      JumpIffNotBusy(cb, hw, s, env, fuel);
    }
  }

  lemma PrependInjective<Env>(log: seq<LogEntry>, o: Outcome<Run<Env>>, p: Outcome<Run<Env>>)
    ensures Prepend(log, o) == Prepend(log, p) <==> o == p
  {
    if o.Done? && p.Done? && Prepend(log, o) == Prepend(log, p) {
      assert (log + o.value.log)[|log|..] == o.value.log;
      assert (log + p.value.log)[|log|..] == p.value.log;
    }
  }

  /** A turn that jumps and one that polls come to the same exactly if no transfer is left waiting by a transfer. */
  lemma TurnsAgreeIff<Env>(cb: Callback<Env>, hw: Hardware<Env>, s: State, env: Env, fuel: nat)
    requires !hw.wake(env)
    ensures Turn(cb, hw, false, s, env, fuel) == Turn(cb, hw, true, s, env, fuel) <==> !LeavesTransfer(hw, s, env)
  {
    hide Poll, Jump;
    if !hw.busy(env) {
      WaitsAgree(cb, hw, s, env, fuel);
    } else if hw.transfer(s, env).Done? && !hw.wake(hw.transfer(s, env).value.env) {
      var r := hw.transfer(s, env).value;
      WaitsAgree(cb, hw, r.state, r.env, fuel);
      PrependInjective(r.log, Jump(cb, r.state, r.env, fuel), Poll(cb, hw, r.state, r.env, fuel));
    }
  }

  // ---------------------------------------------------------------- the loop

  /** After a transfer no other is due, or the CPU wakes up. */
  ghost predicate Settles<Env(!new)>(hw: Hardware<Env>) {
    forall s: State, env: Env :: hw.busy(env) && hw.transfer(s, env).Done? ==>
                                   hw.wake(hw.transfer(s, env).value.env) || !hw.busy(hw.transfer(s, env).value.env)
  }

  /** The halt loop cannot be told from one that looks at the hardware after every cycle, whatever callbacks and
      transfers do, if transfers leave no transfer waiting. */
  lemma {:induction false} HaltLoopIsPolling<Env(!new)>(cb: Callback<Env>, hw: Hardware<Env>, s: State, env: Env,
                                                        limit: int, turns: nat, fuel: nat)
    requires Settles(hw)
    ensures Halted(cb, hw, false, s, env, limit, turns, fuel) == Halted(cb, hw, true, s, env, limit, turns, fuel)
    decreases turns
  {
    hide Turn;
    if s.now < limit && !hw.wake(env) && turns > 0 {
      TurnsAgreeIff(cb, hw, s, env, fuel);
      var o := Turn(cb, hw, false, s, env, fuel);
      if o.Done? {
        HaltLoopIsPolling(cb, hw, o.value.state, o.value.env, limit, turns - 1, fuel);
      }
    }
  }

  // ---------------------------------------------------------------- a transfer that is delayed

  /** Transfers that do nothing but count down how many are due. */
  function CountDown(s: State, due: int): Outcome<Run<int>> {
    Done(Run(s, due - 1, []))
  }

  /** With two transfers due, the first leaves the second waiting: the loop sleeps until the next event, whereas polling
      comes back at once. */
  lemma TransferIsDelayed(cb: Callback<int>, s: State, fuel: nat)
    requires Remaining(s) > 0
    ensures var hw := Hardware((due: int) => false, (due: int) => due > 0, CountDown);
            && LeavesTransfer(hw, s, 2)
            && Turn(cb, hw, true, s, 2, fuel) == Done(Run(s, 1, []))
            && Turn(cb, hw, false, s, 2, fuel) != Turn(cb, hw, true, s, 2, fuel)
  {
    hide AddCycles;
    var hw := Hardware((due: int) => false, (due: int) => due > 0, CountDown);
    TurnsAgreeIff(cb, hw, s, 2, fuel);
    assert Poll(cb, hw, s, 1, fuel) == Done(Run(s, 1, []));
    PrependTwice([], [], Poll(cb, hw, s, 1, fuel));
  }
}
