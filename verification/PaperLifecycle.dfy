/**
 The lifecycle of one paper trade: the fold that rebuilds its state from the log,
 and the events one market update tries to append, in order.
 */
module PaperLifecycle {
  import opened Wrappers
  import opened Reals
  import opened PaperEvents

  const EPSILON := 0.000000000001

  datatype Tick = Tick(timestamp: int, mark: real, candle: Option<Range>) {
    function High(): real { if candle.Some? then candle.value.high else mark }
    function Low(): real { if candle.Some? then candle.value.low else mark }
  }

  // ----- the state of a trade and its reconstruction -----

  datatype Pending = Pending(timestamp: int, price: real, reason: ExitReason, remaining: real)

  datatype State = State(
    opening: Opening, stop: real, exited: real, remaining: real,
    touched: set<nat>, completed: set<nat>, mfe: real, mae: real, profitLock: bool,
    closed: bool, finalReason: Option<ExitReason>, pending: Option<Pending>)

  function Initial(o: Opening): State {
    State(o, o.stop, 0.0, o.size, {}, {}, 0.0, 0.0, false, false, None, None)
  }

  function Apply(s: State, e: Event): State {
    match e.body
    case PartialExit(_, size, _, _, _, level) =>
      s.(exited := s.exited + size, remaining := s.remaining - size,
         completed := if level > 0 then s.completed + {level - 1} else s.completed)
    case TpTouch(level, _, _) =>
      if level > 0 then s.(touched := s.touched + {level - 1}) else s
    case SlTouch(price, _) => s.(pending := Some(Pending(e.timestamp, price, StopLoss, s.remaining)))
    case ExitReasonTransition(to, price) => s.(pending := Some(Pending(e.timestamp, price, to, s.remaining)))
    case StopUpdated(_, newStop, _) => s.(stop := newStop)
    case MfeUpdate(_, pct) => s.(mfe := if pct > s.mfe then pct else s.mfe)
    case MaeUpdate(_, pct) => s.(mae := if pct < s.mae then pct else s.mae)
    case ProfitLockActivated(_, _) => s.(profitLock := true)
    case TradeClosed(_, size, _, _, reason) =>
      s.(closed := true, finalReason := Some(reason), exited := s.exited + size, remaining := 0.0)
    case _ => s
  }

  function ApplyAll(s: State, log: seq<Event>): State {
    if log == [] then s else Apply(ApplyAll(s, log[..|log| - 1]), log[|log| - 1])
  }

  predicate Opened(log: seq<Event>) {
    log != [] && log[0].body.TradeOpened?
  }

  /** The state a restarted process rebuilds from the events of one trade. */
  function Replay(log: seq<Event>): State
    requires Opened(log)
  {
    ApplyAll(Initial(log[0].body.opening), log)
  }

  lemma ReplayPush(log: seq<Event>, e: Event)
    requires Opened(log)
    ensures Opened(log + [e]) && Replay(log + [e]) == Apply(Replay(log), e)
  {
    assert (log + [e])[..|log|] == log;
  }

  // ----- prices -----

  function Pnl(o: Opening, price: real, size: real): real {
    if o.direction.Long? then (price - o.fill) * size else (o.fill - price) * size
  }

  function Fee(cfg: Config, price: real, size: real): real {
    price * size * (cfg.roundtripFeeBps / 10000.0) / 2.0
  }

  function FeeBreakEven(cfg: Config, o: Opening): real {
    if o.direction.Long? then o.fill * (1.0 + cfg.breakEvenBufferPct / 100.0)
    else o.fill * (1.0 - cfg.breakEvenBufferPct / 100.0)
  }

  function ExcursionPct(o: Opening, price: real): real
    requires o.fill > 0.0
  {
    if o.direction.Long? then (price - o.fill) / o.fill * 100.0 else (o.fill - price) / o.fill * 100.0
  }

  function Favorable(o: Opening, t: Tick): real { if o.direction.Long? then t.High() else t.Low() }

  function Adverse(o: Opening, t: Tick): real { if o.direction.Long? then t.Low() else t.High() }

  predicate StopHit(s: State, t: Tick) {
    if s.opening.direction.Long? then t.Low() <= s.stop else t.High() >= s.stop
  }

  predicate TargetHit(o: Opening, t: Tick, i: nat)
    requires i < |o.targets|
  {
    if o.direction.Long? then t.High() >= o.targets[i] else t.Low() <= o.targets[i]
  }

  // ----- one market update, as the list of appends it attempts -----

  function MarkEvent(s: State, t: Tick): Event {
    Event(t.timestamp, MarkDecision(t.mark, t.High(), t.Low(), s.stop, s.remaining))
  }

  function MfeEvents(s: State, t: Tick): seq<Event>
    requires s.opening.fill > 0.0
  {
    var price := Favorable(s.opening, t);
    var pct := ExcursionPct(s.opening, price);
    if pct > s.mfe then [Event(t.timestamp, MfeUpdate(price, pct))] else []
  }

  function MaeEvents(s: State, t: Tick): seq<Event>
    requires s.opening.fill > 0.0
  {
    var price := Adverse(s.opening, t);
    var pct := ExcursionPct(s.opening, price);
    if pct < s.mae then [Event(t.timestamp, MaeUpdate(price, pct))] else []
  }

  function Observations(s: State, t: Tick): seq<Event>
    requires s.opening.fill > 0.0
  {
    [MarkEvent(s, t)] + MfeEvents(s, t) + MaeEvents(s, t)
  }

  function Observed(s: State, t: Tick): State
    requires s.opening.fill > 0.0
  {
    var up, down := ExcursionPct(s.opening, Favorable(s.opening, t)), ExcursionPct(s.opening, Adverse(s.opening, t));
    s.(mfe := if up > s.mfe then up else s.mfe, mae := if down < s.mae then down else s.mae)
  }

  function ClosePair(cfg: Config, o: Opening, timestamp: int, price: real, reason: ExitReason, size: real): seq<Event> {
    [Event(timestamp, ExitReasonTransition(reason, price)),
     Event(timestamp, TradeClosed(price, size, Pnl(o, price, size), Fee(cfg, price, size), reason))]
  }

  function CloseSize(cfg: Config, s: State, i: nat): real
    requires i < |s.opening.targets|
  {
    if i == |s.opening.targets| - 1 then s.remaining
    else
      var fraction := if i == 0 then cfg.tp1ClosePct / 100.0 else if i == 1 then cfg.tp2ClosePct / 100.0 else 1.0;
      Min(s.remaining, s.opening.size * fraction)
  }

  predicate ArmsBreakEven(cfg: Config, s: State, i: nat)
    requires i < |s.opening.targets|
  {
    i == 0 && s.remaining - CloseSize(cfg, s, i) > 0.0
  }

  function TouchEvents(s: State, t: Tick, i: nat): seq<Event>
    requires i < |s.opening.targets|
  {
    if i in s.touched then [] else [Event(t.timestamp, TpTouch(i + 1, s.opening.targets[i], t.mark))]
  }

  function PartialEvents(cfg: Config, s: State, t: Tick, i: nat): seq<Event>
    requires i < |s.opening.targets|
  {
    var size, price := CloseSize(cfg, s, i), s.opening.targets[i];
    if size <= 0.0 then []
    else [Event(t.timestamp, PartialExit(price, size, Pnl(s.opening, price, size), Fee(cfg, price, size),
                                         TakeProfit(i + 1), i + 1))]
  }

  function BreakEvenEvents(cfg: Config, s: State, t: Tick, i: nat): seq<Event>
    requires i < |s.opening.targets|
  {
    var stop := FeeBreakEven(cfg, s.opening);
    if !ArmsBreakEven(cfg, s, i) then []
    else [Event(t.timestamp, BreakEvenActivated(stop, t.mark)),
          Event(t.timestamp, StopUpdated(s.stop, stop, Tp1FeeBreakEven))]
  }

  function FillEvents(cfg: Config, s: State, t: Tick, i: nat): seq<Event>
    requires i < |s.opening.targets|
  {
    TouchEvents(s, t, i) + PartialEvents(cfg, s, t, i) + BreakEvenEvents(cfg, s, t, i)
  }

  /** The in-memory state after target i has been worked on; `completed` is not updated in memory. */
  function AfterFill(cfg: Config, s: State, i: nat): State
    requires i < |s.opening.targets|
  {
    s.(touched := s.touched + {i},
       remaining := s.remaining - CloseSize(cfg, s, i),
       stop := if ArmsBreakEven(cfg, s, i) then FeeBreakEven(cfg, s.opening) else s.stop)
  }

  predicate ArmsProfitLock(cfg: Config, s: State)
    requires s.opening.fill > 0.0
  {
    && s.touched == {} && !s.profitLock && s.opening.targets != []
    && var distance := Abs(s.opening.targets[0] - s.opening.fill);
       distance > 0.0 && s.mfe >= cfg.profitLockFraction * (distance / s.opening.fill * 100.0)
  }

  function ProfitLockEvents(cfg: Config, s: State, t: Tick): seq<Event>
    requires s.opening.fill > 0.0
  {
    var stop := FeeBreakEven(cfg, s.opening);
    if !ArmsProfitLock(cfg, s) then []
    else [Event(t.timestamp, ProfitLockActivated(stop, t.mark)),
          Event(t.timestamp, StopUpdated(s.stop, stop, ProfitLockFeeBreakEven))]
  }

  function TargetEvents(cfg: Config, s: State, t: Tick, i: nat): seq<Event>
    requires s.opening.fill > 0.0 && i <= |s.opening.targets|
    decreases |s.opening.targets| - i
  {
    if i == |s.opening.targets| then ProfitLockEvents(cfg, s, t)
    else
      var close := ClosePair(cfg, s.opening, t.timestamp, s.opening.targets[i], TakeProfit(i + 1), 0.0);
      if i in s.completed then
        if s.remaining <= EPSILON then close else TargetEvents(cfg, s, t, i + 1)
      else if i !in s.touched && !TargetHit(s.opening, t, i) then TargetEvents(cfg, s, t, i + 1)
      else
        var after := AfterFill(cfg, s, i);
        FillEvents(cfg, s, t, i) + if after.remaining <= EPSILON then close else TargetEvents(cfg, after, t, i + 1)
  }

  function StopEvents(cfg: Config, s: State, t: Tick): seq<Event> {
    [Event(t.timestamp, SlTouch(s.stop, t.mark))]
    + ClosePair(cfg, s.opening, t.timestamp, s.stop, StopLoss, s.remaining)
  }

  /** Everything one update of an open trade tries to append, in order. */
  function Program(cfg: Config, s: State, t: Tick): seq<Event>
    requires s.opening.fill > 0.0
  {
    match s.pending
    case Some(p) => ClosePair(cfg, s.opening, p.timestamp, p.price, p.reason, p.remaining)
    case None =>
      Observations(s, t)
      + if StopHit(s, t) then StopEvents(cfg, Observed(s, t), t) else TargetEvents(cfg, Observed(s, t), t, 0)
  }

  // ----- appending attempts to the events of one trade -----

  ghost predicate HasAction(log: seq<Event>, a: Action) {
    exists e | e in log :: ActionOf(e) == a
  }

  ghost predicate Repeats(log: seq<Event>, e: Event) {
    exists r | r in log :: ActionOf(r) == ActionOf(e) && r.body == e.body
  }

  datatype Verdict = Appended | Duplicate | Conflict

  ghost function Judge(log: seq<Event>, e: Event): Verdict {
    if !HasAction(log, ActionOf(e)) then Appended else if Repeats(log, e) then Duplicate else Conflict
  }

  datatype Executed = Executed(log: seq<Event>, conflict: bool)

  ghost function Exec(log: seq<Event>, attempts: seq<Event>): Executed
    decreases |attempts|
  {
    if attempts == [] then Executed(log, false)
    else match Judge(log, attempts[0])
      case Appended => Exec(log + [attempts[0]], attempts[1..])
      case Duplicate => Exec(log, attempts[1..])
      case Conflict => Executed(log, true)
  }
}
