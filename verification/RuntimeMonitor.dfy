/** One tick of the runtime monitor of bot/api/main.py: a chain switch if one is wanted, a reload of
    the dex router if its settings changed, the health rules, and the ready hold. */
module RuntimeMonitor {
  import opened BotStates
  import opened SampleWindows
  import opened RuntimeInvariant
  import SwitchControl

  type Chain = SwitchControl.Chain

  /** How a chain switch ended. The last two are failures: inside `_apply_chain_target_once`, or in
      the validation that the controller runs after it. */
  datatype SwitchResult = Succeeded | ApplyFailed | SecondValidationFailed

  /** What happened that concerns the hold: a switch, or a ready-hold check. */
  datatype Event = Switch(target: Chain, result: SwitchResult) | HoldCheck(trading: bool)

  /** The hold target that these events leave. */
  function HoldOf(log: seq<Event>): (r: Option<Chain>)
  {
    if log == [] then None
    else
      match log[|log| - 1]
      case Switch(target, result) => if result == ApplyFailed then None else Some(target)
      case HoldCheck(trading) => if trading then None else HoldOf(log[..|log| - 1])
  }

  predicate QuietAt(log: seq<Event>, i: nat)
    requires i < |log|
  {
    log[i] == HoldCheck(false)
  }

  /** The i-th event is the last switch, and no ready-hold check since has seen the operator TRADING. */
  ghost predicate LastSwitch(log: seq<Event>, i: nat)
  {
    i < |log| && log[i].Switch? && forall j :: i < j < |log| ==> QuietAt(log, j)
  }

  /** A hold means exactly that the last switch was applied and that no check since has seen the
      operator TRADING. */
  lemma {:induction false} HoldIff(log: seq<Event>)
    ensures HoldOf(log).Some? <==> exists i: nat :: LastSwitch(log, i) && log[i].result != ApplyFailed
    ensures forall i: nat :: LastSwitch(log, i) && log[i].result != ApplyFailed ==> HoldOf(log) == Some(log[i].target)
  {
    if log != [] {
      var k := |log| - 1;
      forall i: nat | LastSwitch(log, i) ensures i == k || (log[k] == HoldCheck(false) && LastSwitch(log[..k], i)) {
        assert i < k ==> QuietAt(log, k);
        forall j | i < j < k ensures QuietAt(log[..k], j) { assert QuietAt(log, j); }
      }
      match log[k]
      case Switch(_, _) => assert LastSwitch(log, k);
      case HoldCheck(trading) =>
        if !trading {
          HoldIff(log[..k]);
          forall i: nat | LastSwitch(log[..k], i) ensures LastSwitch(log, i) {
            forall j | i < j < |log| ensures QuietAt(log, j) { assert j < k ==> QuietAt(log[..k], j); }
          }
        }
    }
  }

  lemma HoldChecked(log: seq<Event>, trading: bool)
    ensures HoldOf(log + [HoldCheck(trading)]) == if trading then None else HoldOf(log)
  {
    assert (log + [HoldCheck(trading)])[..|log|] == log;
  }

  /** The state a tick ends in: what `evaluate` asks for, or READY under the hold. */
  function EndState(v: Verdict, held: bool, current: BotState): BotState
  {
    if held && current == READY && v.state == PAUSED && v.reason == OperatorNotTrading then READY else v.state
  }

  /** `_maybe_reload_dex_router` in one tick. */
  datatype DexReload = Unchanged | Reloaded | ReloadFailed

  /** What one tick meets: the operator file and rule inputs, the wanted and current chain, how the
      switch would end, and the transitions that API calls make while its callbacks wait. */
  datatype TickEnv = TickEnv(
    operator: OperatorState, drawdown: real, now: real, desired: Chain, effective: Chain,
    result: SwitchResult, duringApply: seq<BotState>, duringValidate: seq<BotState>, dex: DexReload)
  {
    predicate Switches() { desired.Named? && desired != effective }

    function SwitchMoves(): seq<BotState>
    {
      [PAUSED, SYNCING] + duringApply + if result == ApplyFailed then [DEGRADED] else [READY] + duringValidate
    }

    function DexMoves(): seq<BotState>
    {
      match dex
      case Unchanged => []
      case Reloaded => [PAUSED, READY]
      case ReloadFailed => [PAUSED, DEGRADED]
    }

    /** Every transition of the tick before the rules are evaluated. */
    function Moves(): seq<BotState>
    {
      (if Switches() then SwitchMoves() else []) + DexMoves()
    }
  }

  function LastOr(moves: seq<BotState>, s: BotState): BotState
  {
    if moves == [] then s else moves[|moves| - 1]
  }

  lemma LastOrConcat(moves: seq<BotState>, more: seq<BotState>, s: BotState)
    ensures LastOr(moves + more, s) == LastOr(more, LastOr(moves, s))
  {
  }

  /** The state a tick ends in, from the log before it and the state it started in. */
  ghost function TickEnd(limits: Limits, rpc: seq<Sample<real>>, tx: seq<Sample<bool>>, e: TickEnv, log: seq<Event>,
                         start: BotState): BotState
  {
    EndState(Decide(limits, rpc, tx, e.operator, e.drawdown, e.now), HoldOf(LogAfter(e, log)).Some?,
      LastOr(e.Moves(), start))
  }

  function LogAfter(e: TickEnv, log: seq<Event>): (r: seq<Event>)
  {
    log + (if e.Switches() then [Switch(e.desired, e.result)] else []) + [HoldCheck(e.operator.trading)]
  }

  /** The state the machine has when the rules are evaluated: the reload of the router has the last word,
      then the switch with what API calls did while its validation ran, else it is where it started. */
  ghost predicate Reaches(e: TickEnv, start: BotState, s: BotState)
  {
    match e.dex
    case Reloaded => s == READY
    case ReloadFailed => s == DEGRADED
    case Unchanged =>
      if !e.desired.Named? || e.desired == e.effective then s == start
      else if e.result == ApplyFailed then s == DEGRADED
      else s == if e.duringValidate == [] then READY else e.duringValidate[|e.duringValidate| - 1]
  }

  lemma MovesReach(e: TickEnv, start: BotState)
    ensures Reaches(e, start, LastOr(e.Moves(), start))
  {
    var sw := if e.Switches() then e.SwitchMoves() else [];
    LastOrConcat(sw, e.DexMoves(), start);
    if e.Switches() {
      var before := [PAUSED, SYNCING] + e.duringApply;
      var after := if e.result == ApplyFailed then [DEGRADED] else [READY] + e.duringValidate;
      LastOrConcat(before, after, start);
      assert before + after == sw;
    }
  }

  /** The end of a tick in plain terms: the state of the rules, except that READY stays for a trading pause
      under a hold, which is in place exactly if the last switch was applied and no check since, this one
      included, has seen the operator TRADING. */
  lemma TickMeans(limits: Limits, rpc: seq<Sample<real>>, tx: seq<Sample<bool>>, e: TickEnv, log: seq<Event>,
                  start: BotState)
    returns (reached: BotState)
    ensures Reaches(e, start, reached)
    ensures LogAfter(e, log) == log +
              (if !e.desired.Named? || e.desired == e.effective then [] else [Switch(e.desired, e.result)])
              + [HoldCheck(e.operator.trading)]
    ensures var v := Decide(limits, rpc, tx, e.operator, e.drawdown, e.now);
            var held := exists i: nat :: LastSwitch(LogAfter(e, log), i) && LogAfter(e, log)[i].result != ApplyFailed;
            TickEnd(limits, rpc, tx, e, log, start) ==
            if held && reached == READY && v == Verdict(PAUSED, OperatorNotTrading) then READY else v.state
  {
    reached := LastOr(e.Moves(), start);
    MovesReach(e, start);
    HoldIff(LogAfter(e, log));
  }

  /** A tick ends elsewhere than the rules ask exactly if its moves reached READY, the operator is not
      trading, the kill switch is off, and the last switch was applied with no check since, this one
      included, that saw the operator TRADING. It then ends in READY for PAUSED. */
  lemma ExceptionIff(limits: Limits, rpc: seq<Sample<real>>, tx: seq<Sample<bool>>, e: TickEnv, log: seq<Event>,
                     start: BotState)
    ensures var asked := Decide(limits, rpc, tx, e.operator, e.drawdown, e.now).state;
            var end := TickEnd(limits, rpc, tx, e, log, start);
            && (end != asked ==> end == READY && asked == PAUSED)
            && (end != asked <==>
                && LastOr(e.Moves(), start) == READY && !e.operator.killSwitch && !e.operator.trading
                && exists i: nat :: LastSwitch(LogAfter(e, log), i) && LogAfter(e, log)[i].result != ApplyFailed)
  {
    HoldIff(LogAfter(e, log));
  }

  /** The switch need not have succeeded, though: in a tick whose switch fails, with the operator
      not trading and nothing else moving the state, READY is shown exactly if the failure came from
      the controller's own validation. */
  lemma FailedSwitchShowsReadyIff(limits: Limits, rpc: seq<Sample<real>>, tx: seq<Sample<bool>>, e: TickEnv,
                                  log: seq<Event>, start: BotState)
    requires e.Switches() && e.result != Succeeded && e.duringValidate == [] && e.dex == Unchanged
    requires !e.operator.killSwitch && !e.operator.trading
    ensures TickEnd(limits, rpc, tx, e, log, start) == if e.result == SecondValidationFailed then READY else PAUSED
  {
    var after := log + [Switch(e.desired, e.result)];
    assert LogAfter(e, log)[..|after|] == after && after[..|log|] == log;
    assert HoldOf(after).Some? <==> e.result == SecondValidationFailed;
    assert HoldOf(LogAfter(e, log)) == HoldOf(after);
    var reached := if e.result == ApplyFailed then DEGRADED else READY;
    assert e.Moves() == [PAUSED, SYNCING] + e.duringApply + [reached];
    assert LastOr(e.Moves(), start) == reached;
  }

  /** The parts of `app.state` that the monitor works on. */
  class AppState {
    var botStateMachine: Option<BotState>
    var runtimeState: Option<BotState>
    var paused: bool
    var holdTarget: Option<Chain>
    const inv: RuntimeInvariants

    ghost var log: seq<Event>

    ghost predicate Valid()
      reads this, inv
    {
      inv.Valid() && holdTarget == HoldOf(log)
    }

    constructor (inv: RuntimeInvariants, botStateMachine: Option<BotState>, runtimeState: Option<BotState>)
      requires inv.Valid()
      ensures Valid() && log == [] && this.inv == inv
      ensures this.botStateMachine == botStateMachine && this.runtimeState == runtimeState
    {
      this.inv, this.botStateMachine, this.runtimeState := inv, botStateMachine, runtimeState;
      paused, holdTarget, log := false, None, [];
    }

    function Current(): BotState
      reads this
    {
      if botStateMachine.Some? then botStateMachine.value
      else if runtimeState.Some? then runtimeState.value else PAUSED
    }

    /** The state machine, the process-wide state and the paused flag say the same. */
    predicate Shows(s: BotState)
      reads this
    {
      runtimeState == Some(s) && paused == (s == PAUSED) && (botStateMachine.Some? ==> botStateMachine == Some(s))
    }

    /** `_transition_state` with force, which builds the state machine if there is none. */
    method TransitionState(target: BotState)
      modifies this`botStateMachine, this`runtimeState, this`paused
      ensures Shows(target) && botStateMachine == Some(target)
    {
      botStateMachine := Some(target);
      runtimeState := Some(target);
      paused := target == PAUSED;
    }

    /** Transitions in a row. */
    method TransitionAll(moves: seq<BotState>)
      modifies this`botStateMachine, this`runtimeState, this`paused
      ensures Current() == LastOr(moves, old(Current()))
    {
      var i := 0;
      while i < |moves|
        invariant 0 <= i <= |moves| && Current() == LastOr(moves[..i], old(Current()))
      {
        TransitionState(moves[i]);
        i := i + 1;
      }
      assert moves[..i] == moves;
    }

    /** `_apply_chain_target_once`: the hold is dropped first and set again only at the very end. */
    method ApplyChainTargetOnce(target: Chain, ok: bool, meanwhile: seq<BotState>)
      requires target.Named?
      modifies this`botStateMachine, this`runtimeState, this`paused, this`holdTarget
      ensures holdTarget == if ok then Some(target) else None
      ensures Current() == if ok then READY else DEGRADED
    {
      holdTarget := None;
      TransitionState(PAUSED);
      TransitionState(SYNCING);
      TransitionAll(meanwhile);
      if ok {
        TransitionState(READY);
        holdTarget := Some(target);
      } else {
        TransitionState(DEGRADED);
        holdTarget := None;
      }
    }

    /** `_apply_chain_ready_hold` */
    method ApplyChainReadyHold(operator: OperatorState, suggested: Verdict) returns (s: BotState)
      requires Valid()
      modifies this`holdTarget, this`log
      ensures Valid() && log == old(log) + [HoldCheck(operator.trading)]
      ensures s == EndState(suggested, !operator.trading && old(holdTarget).Some?, Current())
    {
      log := log + [HoldCheck(operator.trading)];
      assert log[..|log| - 1] == old(log);
      if operator.trading {
        holdTarget := None;
        return suggested.state;
      }
      if holdTarget == None { return suggested.state; }
      if Current() == READY && suggested.state == PAUSED && suggested.reason == OperatorNotTrading {
        return READY;
      }
      return suggested.state;
    }

    /** The controller's `reconcile` in one tick: apply, then its own validation. */
    method Reconcile(e: TickEnv)
      requires Valid()
      modifies this
      ensures Valid() && log == old(log) + if e.Switches() then [Switch(e.desired, e.result)] else []
      ensures Current() == LastOr(if e.Switches() then e.SwitchMoves() else [], old(Current()))
    {
      if e.Switches() {
        ApplyChainTargetOnce(e.desired, e.result != ApplyFailed, e.duringApply);
        if e.result != ApplyFailed { TransitionAll(e.duringValidate); }
        log := log + [Switch(e.desired, e.result)];
      }
    }

    method MaybeReloadDexRouter(e: TickEnv)
      modifies this`botStateMachine, this`runtimeState, this`paused
      ensures Current() == LastOr(e.DexMoves(), old(Current()))
    {
      if e.dex == Unchanged { return; }
      TransitionState(PAUSED);
      TransitionState(if e.dex == Reloaded then READY else DEGRADED);
    }

    /** A completed tick of `_runtime_monitor_loop` leaves the machine in the state that the rules ask
        for, or in READY under the hold, whatever API calls did in between. */
    method MonitorTick(e: TickEnv)
      requires Valid() && inv.clock <= e.now
      modifies this, inv
      ensures Valid() && inv.clock == e.now && unchanged(inv`rpcHistory) && unchanged(inv`txHistory)
      ensures log == LogAfter(e, old(log))
      ensures Shows(TickEnd(inv.limits, Recent(inv.rpcHistory), Recent(inv.txHistory), e, old(log), old(Current())))
    {
      LastOrConcat(if e.Switches() then e.SwitchMoves() else [], e.DexMoves(), Current());
      ghost var log0 := log;
      Reconcile(e);
      MaybeReloadDexRouter(e);
      var v := inv.Evaluate(e.operator, e.drawdown, e.now);
      assert Current() == LastOr(e.Moves(), old(Current()));
      HoldChecked(log, e.operator.trading);
      var target := ApplyChainReadyHold(e.operator, v);
      assert log == LogAfter(e, log0);
      ShowState(target);
    }

    /** The end of a tick: a machine that is there, the process-wide state and the flag show the state. */
    method ShowState(target: BotState)
      modifies this`botStateMachine, this`runtimeState, this`paused
      ensures Shows(target)
    {
      if botStateMachine.Some? && botStateMachine.value != target {
        botStateMachine := Some(target);
      }
      runtimeState := Some(target);
      paused := target == PAUSED;
    }
  }
}
