/**
 The vocabulary of the forward-paper log: event payloads, the configuration the
 lifecycle reads, and the semantic identity of each lifecycle action.
 Prices and sizes are exact reals, timestamps are integers.
 */
module PaperEvents {

  datatype Direction = Long | Short

  /** "STOP_LOSS" or "TP<level>", levels counted from 1. */
  datatype ExitReason = StopLoss | TakeProfit(level: nat)

  /** "TP1_FEE_BE" or "PROFIT_LOCK_FEE_BE". */
  datatype StopReason = Tp1FeeBreakEven | ProfitLockFeeBreakEven

  /** The payload of TRADE_OPENED, frozen when the trade opens. */
  datatype Opening = Opening(
    strategy: string, symbol: string, direction: Direction, timeframe: string,
    plannedEntry: real, fill: real, stop: real, targets: seq<real>, size: real,
    riskPrice: real, riskCurrency: real, entryFee: real,
    // When the signal was seen, and what the plan and the market looked like: described, never computed with.
    signal: int, planDetails: string, marketDetails: string)

  datatype Body =
    | TradeOpened(opening: Opening)
    | MarkDecision(mark: real, high: real, low: real, currentStop: real, remaining: real)
    | MfeUpdate(price: real, pct: real)
    | MaeUpdate(price: real, pct: real)
    | TpTouch(level: nat, price: real, mark: real)
    | SlTouch(price: real, mark: real)
    | PartialExit(price: real, size: real, gross: real, fee: real, reason: ExitReason, level: nat)
    | BreakEvenActivated(stop: real, mark: real)
    | ProfitLockActivated(stop: real, mark: real)
    | StopUpdated(oldStop: real, newStop: real, why: StopReason)
    | ExitReasonTransition(to: ExitReason, price: real)
    | TradeClosed(price: real, size: real, gross: real, fee: real, reason: ExitReason)
    | Funding(amount: real)
    | PaperRejected(cause: string, symbol: string, strategy: string)

  datatype Event = Event(timestamp: int, body: Body)

  /** The persistent identity of a lifecycle action, within one trade. */
  datatype Action =
    | Open
    | Touch(level: nat)
    | Partial(level: nat)
    | TerminalClose
    | ExitTo(reason: ExitReason)
    | StopMove(why: StopReason)
    | SlTouched
    | BreakEvenArmed
    | ProfitLockArmed
    | Refused
    | Observation(event: Event)

  function ActionOf(e: Event): Action {
    match e.body
    case TradeOpened(_) => Open
    case TpTouch(level, _, _) => Touch(level)
    case PartialExit(_, _, _, _, _, level) => Partial(level)
    case TradeClosed(_, _, _, _, _) => TerminalClose
    case ExitReasonTransition(to, _) => ExitTo(to)
    case StopUpdated(_, _, why) => StopMove(why)
    case SlTouch(_, _) => SlTouched
    case BreakEvenActivated(_, _) => BreakEvenArmed
    case ProfitLockActivated(_, _) => ProfitLockArmed
    case PaperRejected(_, _, _) => Refused
    // Observations are not transitions: only an exact replay shares their identity.
    case MarkDecision(_, _, _, _, _) => Observation(e)
    case MfeUpdate(_, _) => Observation(e)
    case MaeUpdate(_, _) => Observation(e)
    case Funding(_) => Observation(e)
  }

  /** The settings the lifecycle reads; percentages are out of 100. */
  datatype Config = Config(
    tp1ClosePct: real, tp2ClosePct: real, breakEvenBufferPct: real,
    profitLockFraction: real, roundtripFeeBps: real, maxOpenPositions: int)

  /** The last candle of a snapshot, when it has one, and its latest close. */
  datatype Range = Range(high: real, low: real)
}
