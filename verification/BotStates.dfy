/** The bot's states and what the operator file says, as bot/core/state.py and
    bot/core/operator_control.py present them. */
module BotStates {

  datatype BotState = BOOTING | SYNCING | READY | TRADING | PAUSED | DEGRADED | PANIC

  /** `trading` says that the operator's state word is TRADING, in any letter case. */
  datatype OperatorState = OperatorState(killSwitch: bool, trading: bool)

  datatype Mode = DryRun | Paper | Live

  datatype Option<+T> = None | Some(value: T)
}
