/**
 A live position as the manager records it, what the manager sees of the market and of the
 exchange in one synchronisation, and the conditions under which it acts.
 */
module PositionRecords {
  import opened Wrappers
  import opened Reals

  datatype Status = Open | Closed | ClosedSynced

  datatype Protection = Protection(stop: real, tps: seq<real>)

  /** What a record is about, and how the trade was opened. */
  datatype Identity = Identity(
    symbol: string, long: bool, lifecycleManaged: bool, reclaim: bool, openedAt: Option<real>, entry: real, size: real)

  datatype Hits = Hits(tp1Hit: bool, tp2Hit: bool, tp3Hit: bool)

  datatype Guards = Guards(
    breakEven: bool, locked: bool, profitLock: bool, nearTp: bool, tightened: bool, tightenPending: bool,
    verified: bool, payload: bool)

  /** The ids of the stop orders a record knows. */
  datatype Orders = Orders(directId: string, activeIds: seq<string>, payloadId: string)

  datatype Position = Position(
    id: Identity, status: Status, reason: string, stop: real, tps: seq<real>, remaining: real,
    hits: Hits, guards: Guards, orders: Orders, mfe: real, lastPrice: real)

  datatype Settings = Settings(
    tp1ClosePct: real, tp2ClosePct: real, tp3ClosePct: real, moveStopToBreakEven: bool, tp3CloseAll: bool,
    feeBufferPct: real, profitLockFraction: real, deadReclaimMinutes: real, deadDefaultMinutes: real,
    deadMaxAbsPnl: real)

  /** What one synchronisation knows about a symbol that is open on the exchange. */
  datatype View = View(
    price: real, high: real, low: real, liveSize: real, tpslLive: bool, fallback: Option<Protection>,
    now: real, pressureFailed: bool, useSnapshot: bool)

  const REPAIR_RETRIES: nat := 3
  const MOVE_RETRIES: nat := 3
  const RESIDUAL_PCT := 5.0
  const RESIDUAL_SIZE := 0.000001
  const NEAR_MISS_PCT := 0.18
  const NEAR_TRIGGER_PCT := 85.0
  const NEAR_BUFFER_PCT := 0.08
  const TIGHTEN_MIN_AGE := 10.0
  const TIGHTEN_BUFFER_PCT := 0.06
  const TIGHTEN_MIN_PNL := -0.35

  function Pnl(long: bool, entry: real, price: real): real {
    if entry <= 0.0 then 0.0 else if long then (price - entry) / entry * 100.0 else (entry - price) / entry * 100.0
  }

  function PnlPct(p: Position, v: View): real { Pnl(p.id.long, p.id.entry, v.price) }

  predicate TargetHit(long: bool, v: View, target: real) {
    if long then v.high >= target else v.low <= target
  }

  predicate StopHit(long: bool, v: View, stop: real) {
    if long then v.low <= stop else v.high >= stop
  }

  /** A break-even stop that covers the fees; an unset buffer counts as 0.10 percent. */
  function BreakEven(cfg: Settings, p: Position): real {
    var buffer := (if cfg.feeBufferPct == 0.0 then 0.10 else cfg.feeBufferPct) / 100.0;
    if p.id.long then p.id.entry * (1.0 + buffer) else p.id.entry * (1.0 - buffer)
  }

  /** `a` is a tighter stop than `b`; for a short, a stop that is not positive is no stop. */
  predicate Tighter(long: bool, a: real, b: real) {
    if long then a > b else b <= 0.0 || a < b
  }

  predicate HasTargets(p: Position) {
    exists i | 0 <= i < |p.tps| :: p.tps[i] > 0.0
  }

  function PositiveOnly(tps: seq<real>): (r: seq<real>)
    ensures forall x | x in r :: x > 0.0
  {
    if tps == [] then [] else (if tps[0] > 0.0 then [tps[0]] else []) + PositiveOnly(tps[1..])
  }

  // ----- the percentage that is left on the exchange -----

  function OriginalSize(p: Position, v: View): real { if p.id.size != 0.0 then p.id.size else v.liveSize }

  function RemainingPct(p: Position, v: View): real {
    if OriginalSize(p, v) > 0.0 && v.liveSize > 0.0 then v.liveSize / OriginalSize(p, v) * 100.0 else p.remaining
  }

  function AgeMinutes(p: Position, v: View): real {
    if p.id.openedAt.None? then 0.0 else Max(0.0, v.now - p.id.openedAt.value)
  }

  // ----- healing -----

  /** A position without a positive stop or target takes both from the execution log, when the log has them. */
  function Healed(p: Position, v: View): Position {
    if p.id.symbol == "" || (p.stop > 0.0 && HasTargets(p)) || v.fallback.None? then p
    else
      var stop, tps := v.fallback.value.stop, PositiveOnly(v.fallback.value.tps);
      if stop <= 0.0 || tps == [] then p
        // The payload becomes the entry of the log, which names no order.
        else p.(stop := stop, tps := tps, guards := p.guards.(verified := true, payload := true),
                orders := p.orders.(payloadId := ""))
  }

  /** What is noted before any decision: the last price and the best profit so far. */
  function Marked(p: Position, v: View): Position {
    p.(lastPrice := v.price, mfe := Max(p.mfe, PnlPct(p, v)))
  }

  // ----- near TP1 -----

  function Tp1Distance(p: Position): real
    requires p.tps != []
  {
    Abs(p.tps[0] - p.id.entry) / Max(p.id.entry, 0.000000001) * 100.0
  }

  function Tp1Reach(p: Position): real
    requires p.tps != []
  {
    if Tp1Distance(p) > 0.0 then Max(0.0, Min(999.0, p.mfe / Tp1Distance(p) * 100.0)) else 0.0
  }

  function NearStop(p: Position): real {
    if p.id.long then p.id.entry * (1.0 + NEAR_BUFFER_PCT / 100.0) else p.id.entry * (1.0 - NEAR_BUFFER_PCT / 100.0)
  }

  predicate NearTpDue(p: Position, v: View) {
    && p.tps != [] && p.tps[0] > 0.0 && p.id.entry > 0.0 && !p.hits.tp1Hit
    && Tp1Reach(p) >= NEAR_TRIGGER_PCT && !p.guards.nearTp
    && if p.id.long then p.stop < NearStop(p) < v.price else v.price < NearStop(p) < p.stop
  }

  // ----- residual positions -----

  predicate MarkedDone(p: Position) {
    p.hits.tp3Hit || p.remaining <= RESIDUAL_PCT || p.reason in {"tp3", "break_even_stop", "stop_loss",
      "exchange_position_closed"}
  }

  predicate ResidualDue(p: Position, v: View, pct: real) {
    MarkedDone(p) && v.liveSize > RESIDUAL_SIZE && OriginalSize(p, v) > 0.0 && pct <= RESIDUAL_PCT
  }

  // ----- profit lock and targets -----

  predicate LockRecoveryDue(p: Position) {
    p.status.Open? && p.hits.tp2Hit && !p.guards.locked && p.tps != []
  }

  predicate ProfitLockDue(cfg: Settings, p: Position) {
    && cfg.profitLockFraction > 0.0 && p.tps != [] && p.id.entry > 0.0 && p.status.Open?
    && !p.hits.tp1Hit && !p.guards.profitLock && !p.guards.breakEven
    && Abs(p.tps[0] - p.id.entry) > 0.0
    && p.mfe >= cfg.profitLockFraction * (Abs(p.tps[0] - p.id.entry) / p.id.entry * 100.0)
    && (if p.id.long then BreakEven(cfg, p) > p.stop else BreakEven(cfg, p) < p.stop || p.stop <= 0.0)
  }

  predicate Tp1Due(cfg: Settings, p: Position, v: View, pct: real) {
    && p.tps != [] && !p.hits.tp1Hit
    && (TargetHit(p.id.long, v, p.tps[0]) || (pct <= 100.0 - cfg.tp1ClosePct + 5.0 && pct < 99.0))
  }

  predicate Tp2Due(cfg: Settings, p: Position, v: View, pct: real) {
    && |p.tps| >= 2 && !p.hits.tp2Hit
    && (TargetHit(p.id.long, v, p.tps[1]) || pct <= 100.0 - cfg.tp1ClosePct - cfg.tp2ClosePct + 5.0)
  }

  predicate Tp3Due(p: Position, v: View, pct: real) {
    |p.tps| >= 3 && !p.hits.tp3Hit && (TargetHit(p.id.long, v, p.tps[2]) || 0.0 < pct <= 5.0)
  }

  function Reduced(remaining: real, pct: real): real { Max(0.0, remaining - pct) }

  /** What the record says is left once the shares of the due targets are taken off. */
  function AfterPartials(cfg: Settings, p: Position, v: View, pct: real): real {
    var one := if Tp1Due(cfg, p, v, pct) then Reduced(p.remaining, cfg.tp1ClosePct) else p.remaining;
    if Tp2Due(cfg, p, v, pct) then Reduced(one, cfg.tp2ClosePct) else one
  }

  function AfterTargets(cfg: Settings, p: Position, v: View, pct: real): real {
    var two := AfterPartials(cfg, p, v, pct);
    if Tp3Due(p, v, pct) then Reduced(two, cfg.tp3ClosePct) else two
  }

  predicate MovesToBreakEven(cfg: Settings, p: Position, v: View, pct: real) {
    Tp1Due(cfg, p, v, pct) && cfg.moveStopToBreakEven && |p.tps| != 1
  }

  /** Where the due targets move the stop when the exchange grants it: TP2 to TP1, TP1 alone to break-even. */
  function TargetStop(cfg: Settings, p: Position, v: View, pct: real): real {
    if Tp2Due(cfg, p, v, pct) then p.tps[0]
    else if MovesToBreakEven(cfg, p, v, pct) then BreakEven(cfg, p)
    else p.stop
  }

  // ----- failed continuation -----

  function TightenStop(cfg: Settings, p: Position, v: View): real {
    var buffer := TIGHTEN_BUFFER_PCT / 100.0;
    if p.id.long then Max(BreakEven(cfg, p), v.price * (1.0 - buffer))
      else Min(BreakEven(cfg, p), v.price * (1.0 + buffer))
  }

  function NextTarget(p: Position): real {
    var tps := PositiveOnly(p.tps);
    if tps == [] then 0.0
    else if !p.hits.tp1Hit then tps[0]
    else if !p.hits.tp2Hit && |tps| >= 2 then tps[1]
    else if !p.hits.tp3Hit && |tps| >= 3 then tps[2]
    else 0.0
  }

  function DistancePct(long: bool, price: real, target: real): real {
    if price <= 0.0 || target <= 0.0 then 999.0
    else if long then if price >= target then 0.0 else (target - price) / price * 100.0
    else if price <= target then 0.0 else (price - target) / price * 100.0
  }

  predicate TightenDue(cfg: Settings, p: Position, v: View) {
    && v.useSnapshot && !p.guards.tightened && p.status.Open? && p.id.lifecycleManaged
    && AgeMinutes(p, v) >= TIGHTEN_MIN_AGE
    && NextTarget(p) > 0.0
    && (DistancePct(p.id.long, v.price, NextTarget(p)) <= NEAR_MISS_PCT || p.hits.tp1Hit || PnlPct(p, v) > 0.10)
    && v.pressureFailed && PnlPct(p, v) >= TIGHTEN_MIN_PNL
    && Tighter(p.id.long, TightenStop(cfg, p, v), p.stop)
  }

  // ----- dead trades -----

  predicate DeadTradeDue(cfg: Settings, p: Position, v: View) {
    var timeout := if p.id.reclaim then cfg.deadReclaimMinutes else cfg.deadDefaultMinutes;
    && p.status.Open? && timeout > 0.0 && AgeMinutes(p, v) >= timeout
    && !p.hits.tp1Hit && Abs(PnlPct(p, v)) < cfg.deadMaxAbsPnl && v.liveSize > 0.0
  }

  // ----- what no synchronisation may do -----

  predicate NonNegative(cfg: Settings) {
    cfg.tp1ClosePct >= 0.0 && cfg.tp2ClosePct >= 0.0 && cfg.tp3ClosePct >= 0.0
  }

  /** What a synchronisation never changes of a record. */
  predicate SameIdentity(p: Position, q: Position) {
    q.id == p.id && q.tps == p.tps
  }

  /** Identity stays, target flags stay set, and the remaining percentage does not rise. */
  ghost predicate Keeps(cfg: Settings, p: Position, q: Position) {
    && q.id == p.id
    && (p.hits.tp1Hit ==> q.hits.tp1Hit) && (p.hits.tp2Hit ==> q.hits.tp2Hit) && (p.hits.tp3Hit ==> q.hits.tp3Hit)
    && (NonNegative(cfg) && p.remaining >= 0.0 ==> 0.0 <= q.remaining <= p.remaining)
  }

  /** And closed stays closed, with its stop. */
  ghost predicate Evolves(cfg: Settings, p: Position, q: Position) {
    Keeps(cfg, p, q) && (!p.status.Open? ==> q.status == p.status && q.stop == p.stop)
  }

  lemma EvolvesTrans(cfg: Settings, p: Position, q: Position, r: Position)
    requires Evolves(cfg, p, q) && Evolves(cfg, q, r)
    ensures Evolves(cfg, p, r)
  {
  }

  lemma HealedKeeps(cfg: Settings, p: Position, v: View)
    ensures Keeps(cfg, p, Healed(p, v)) && Healed(p, v).status == p.status
    ensures p.stop > 0.0 && HasTargets(p) ==> Healed(p, v).stop == p.stop && Healed(p, v).tps == p.tps
  {
    hide HasTargets, PositiveOnly;
  }

  lemma MarkedKeeps(cfg: Settings, p: Position, v: View)
    ensures Keeps(cfg, p, Marked(p, v)) && Marked(p, v).status == p.status && Marked(p, v).stop == p.stop
    ensures Marked(p, v).tps == p.tps
  {
    hide PnlPct, Max;
  }

  /** Healing and marking change no open record beyond a missing protection. */
  lemma HealKeeps(cfg: Settings, p: Position, v: View)
    requires p.status.Open?
    ensures Evolves(cfg, p, Marked(Healed(p, v), v)) && Marked(Healed(p, v), v).status.Open?
    ensures p.stop > 0.0 && HasTargets(p) ==>
      Marked(Healed(p, v), v).stop == p.stop && Marked(Healed(p, v), v).tps == p.tps
  {
    hide Healed, Marked, HasTargets;
    HealedKeeps(cfg, p, v);
    MarkedKeeps(cfg, Healed(p, v), v);
  }
}
