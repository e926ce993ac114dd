/**
 When each step of a synchronisation is due, and the prices it uses, in the numbers of the
 record and of the market: no condition here is stated through the predicates that decide it.
 */
module PositionTriggers {
  import opened Wrappers
  import opened Reals
  import opened PositionRecords

  // ----- what is left, and what was gained -----

  /** The percentage left: live size against the opened size, or the record's own where they cannot be compared. */
  lemma RemainingInNumbers(p: Position, v: View)
    ensures var full := if p.id.size != 0.0 then p.id.size else v.liveSize;
            if full > 0.0 && v.liveSize > 0.0 then RemainingPct(p, v) * full == v.liveSize * 100.0
            else RemainingPct(p, v) == p.remaining
  {
  }

  lemma ProfitInNumbers(p: Position, v: View)
    ensures if p.id.entry <= 0.0 then PnlPct(p, v) == 0.0
            else PnlPct(p, v) * p.id.entry == (if p.id.long then v.price - p.id.entry else p.id.entry - v.price) * 100.0
    ensures Marked(p, v).lastPrice == v.price
    ensures Marked(p, v).mfe == if PnlPct(p, v) >= p.mfe then PnlPct(p, v) else p.mfe
  {
  }

  lemma BreakEvenInNumbers(cfg: Settings, p: Position)
    ensures var buffer := if cfg.feeBufferPct == 0.0 then 0.10 else cfg.feeBufferPct;
            BreakEven(cfg, p) * 100.0 == p.id.entry * if p.id.long then 100.0 + buffer else 100.0 - buffer
  {
    var buffer := if cfg.feeBufferPct == 0.0 then 0.10 else cfg.feeBufferPct;
    var b := buffer / 100.0;
    assert p.id.entry * (1.0 + b) == p.id.entry + p.id.entry * b;
    assert p.id.entry * (1.0 - b) == p.id.entry - p.id.entry * b;
    assert p.id.entry * b * 100.0 == p.id.entry * buffer;
  }

  lemma {:induction false} PositiveOnlyConcat(a: seq<real>, b: seq<real>)
    ensures PositiveOnly(a + b) == PositiveOnly(a) + PositiveOnly(b)
    decreases |a|
  {
    if a == [] {
      assert a + b == b;
    } else {
      assert (a + b)[1..] == a[1..] + b;
      PositiveOnlyConcat(a[1..], b);
    }
  }

  lemma PositiveOnlyOne(x: real)
    ensures PositiveOnly([x]) == if x > 0.0 then [x] else []
  {
    assert [x][1..] == [];
  }

  lemma {:induction false} NoPositiveTarget(tps: seq<real>)
    ensures PositiveOnly(tps) == [] <==> forall x | x in tps :: x <= 0.0
  {
    if tps != [] {
      NoPositiveTarget(tps[1..]);
      assert tps[0] in tps && forall x :: x in tps <==> x == tps[0] || x in tps[1..];
    }
  }

  // ----- healing -----

  /**
   A record takes stop and targets from the execution log if and only if it names a symbol, lacks
   a positive stop or a positive target, and the log has both; otherwise it stays as it is.
   */
  lemma HealedIff(p: Position, v: View)
    ensures var heals := && p.id.symbol != "" && v.fallback.Some?
                         && (p.stop <= 0.0 || forall x | x in p.tps :: x <= 0.0)
                         && v.fallback.value.stop > 0.0 && exists x | x in v.fallback.value.tps :: x > 0.0;
            var q := Healed(p, v);
            && (heals ==> q.stop == v.fallback.value.stop && q.tps == PositiveOnly(v.fallback.value.tps)
                          && q.guards.verified && q.guards.payload && q.orders.payloadId == "")
            && (heals ==> q == p.(stop := q.stop, tps := q.tps, guards := p.guards.(verified := true, payload := true),
                                  orders := p.orders.(payloadId := "")))
            && (!heals ==> q == p)
  {
    hide PositiveOnly;
    assert HasTargets(p) <==> !(forall x | x in p.tps :: x <= 0.0) by {
      if HasTargets(p) {
        var i :| 0 <= i < |p.tps| && p.tps[i] > 0.0;
        assert p.tps[i] in p.tps;
      }
    }
    if v.fallback.Some? {
      NoPositiveTarget(v.fallback.value.tps);
    }
  }

  // ----- targets -----

  /**
   Which targets a synchronisation takes: those whose own price the candle reached, and those whose
   share is already gone from the exchange.
   */
  lemma TargetsDueIff(cfg: Settings, p: Position, v: View, left: real)
    ensures Tp1Due(cfg, p, v, left) <==>
      && !p.hits.tp1Hit && |p.tps| >= 1
      && ((if p.id.long then v.high >= p.tps[0] else v.low <= p.tps[0])
          || (left <= 105.0 - cfg.tp1ClosePct && left < 99.0))
    ensures Tp2Due(cfg, p, v, left) <==>
      && !p.hits.tp2Hit && |p.tps| >= 2
      && ((if p.id.long then v.high >= p.tps[1] else v.low <= p.tps[1])
          || left <= 105.0 - cfg.tp1ClosePct - cfg.tp2ClosePct)
    ensures Tp3Due(p, v, left) <==>
      && !p.hits.tp3Hit && |p.tps| >= 3
      && ((if p.id.long then v.high >= p.tps[2] else v.low <= p.tps[2]) || (left > 0.0 && left <= 5.0))
  {
  }

  /** The flags after a synchronisation: a target is taken by its own price, or by what is left on the exchange. */
  predicate TakenByPrice(cfg: Settings, p: Position, v: View, left: real, hits: Hits) {
    && (hits.tp1Hit <==>
        || p.hits.tp1Hit
        || (|p.tps| >= 1 && ((if p.id.long then v.high >= p.tps[0] else v.low <= p.tps[0])
                             || (left <= 105.0 - cfg.tp1ClosePct && left < 99.0))))
    && (hits.tp2Hit <==>
        || p.hits.tp2Hit
        || (|p.tps| >= 2 && ((if p.id.long then v.high >= p.tps[1] else v.low <= p.tps[1])
                             || left <= 105.0 - cfg.tp1ClosePct - cfg.tp2ClosePct)))
    && (hits.tp3Hit <==>
        || p.hits.tp3Hit
        || (|p.tps| >= 3 && ((if p.id.long then v.high >= p.tps[2] else v.low <= p.tps[2]) || 0.0 < left <= 5.0)))
  }

  /** What is left after the shares of the targets newly taken, and not below zero. */
  predicate SharesTaken(cfg: Settings, p: Position, hits: Hits, remaining: real) {
    var taken := (if hits.tp1Hit && !p.hits.tp1Hit then cfg.tp1ClosePct else 0.0)
                 + (if hits.tp2Hit && !p.hits.tp2Hit then cfg.tp2ClosePct else 0.0)
                 + (if hits.tp3Hit && !p.hits.tp3Hit then cfg.tp3ClosePct else 0.0);
    remaining == if taken <= p.remaining then p.remaining - taken else 0.0
  }

  lemma DueIsByPrice(cfg: Settings, p: Position, v: View, left: real, hits: Hits)
    requires hits.tp1Hit == (p.hits.tp1Hit || Tp1Due(cfg, p, v, left))
    requires hits.tp2Hit == (p.hits.tp2Hit || Tp2Due(cfg, p, v, left))
    requires hits.tp3Hit == (p.hits.tp3Hit || Tp3Due(p, v, left))
    ensures TakenByPrice(cfg, p, v, left, hits)
    ensures NonNegative(cfg) && p.remaining >= 0.0 ==> SharesTaken(cfg, p, hits, AfterTargets(cfg, p, v, left))
  {
    hide AfterTargets, Tp1Due, Tp2Due, Tp3Due;
    TargetsDueIff(cfg, p, v, left);
    if NonNegative(cfg) && p.remaining >= 0.0 {
      SharesInNumbers(cfg, p, v, left);
      TakenOnce(cfg, p, v, left);
    }
  }

  lemma TakenOnce(cfg: Settings, p: Position, v: View, left: real)
    ensures p.hits.tp1Hit ==> !Tp1Due(cfg, p, v, left)
    ensures p.hits.tp2Hit ==> !Tp2Due(cfg, p, v, left)
    ensures p.hits.tp3Hit ==> !Tp3Due(p, v, left)
  {
  }

  /** What the record says is left: what it said before, less the shares newly taken, and not below zero. */
  lemma SharesInNumbers(cfg: Settings, p: Position, v: View, left: real)
    requires NonNegative(cfg) && p.remaining >= 0.0
    ensures var taken := (if Tp1Due(cfg, p, v, left) then cfg.tp1ClosePct else 0.0)
                         + (if Tp2Due(cfg, p, v, left) then cfg.tp2ClosePct else 0.0)
                         + (if Tp3Due(p, v, left) then cfg.tp3ClosePct else 0.0);
            AfterTargets(cfg, p, v, left) == if taken <= p.remaining then p.remaining - taken else 0.0
  {
    hide Tp1Due, Tp2Due, Tp3Due;
  }

  // ----- near TP1 -----

  /**
   The stop near TP1 is due if and only if the first target is not taken, the best profit covered
   85 percent of the way to it, no such stop was set, and it lies between the stop and the price.
   */
  lemma NearTpDueIff(p: Position, v: View)
    ensures NearTpDue(p, v) <==>
      && p.tps != [] && p.tps[0] > 0.0 && p.id.entry > 0.0 && !p.hits.tp1Hit && !p.guards.nearTp
      && var way := if p.tps[0] >= p.id.entry then p.tps[0] - p.id.entry else p.id.entry - p.tps[0];
         var unit := if p.id.entry > 0.000000001 then p.id.entry else 0.000000001;
         && way > 0.0 && p.mfe * unit >= 85.0 * way
         && if p.id.long then p.stop * 100.0 < p.id.entry * 100.08 < v.price * 100.0
            else v.price * 100.0 < p.id.entry * 99.92 < p.stop * 100.0
  {
    NearStopInNumbers(p);
    if p.tps != [] && p.id.entry > 0.0 {
      ReachInNumbers(p);
    }
    hide NearStop, Tp1Reach;
  }

  lemma NearStopInNumbers(p: Position)
    ensures NearStop(p) * 100.0 == p.id.entry * if p.id.long then 100.08 else 99.92
  {
  }

  lemma ReachInNumbers(p: Position)
    requires p.tps != [] && p.id.entry > 0.0
    ensures var way := if p.tps[0] >= p.id.entry then p.tps[0] - p.id.entry else p.id.entry - p.tps[0];
            var unit := if p.id.entry > 0.000000001 then p.id.entry else 0.000000001;
            Tp1Reach(p) >= 85.0 <==> way > 0.0 && p.mfe * unit >= 85.0 * way
  {
    var way := Abs(p.tps[0] - p.id.entry);
    var unit := Max(p.id.entry, 0.000000001);
    var distance := Tp1Distance(p);
    assert distance * unit == way * 100.0;
    assert distance > 0.0 <==> way > 0.0;
    if distance > 0.0 {
      RatioAtLeast(p.mfe, distance, unit, way);
    }
  }

  lemma RatioAtLeast(mfe: real, distance: real, unit: real, way: real)
    requires distance > 0.0 && unit > 0.0 && distance * unit == way * 100.0
    ensures mfe / distance * 100.0 >= 85.0 <==> mfe * unit >= 85.0 * way
  {
    var ratio := mfe / distance;
    assert ratio * distance == mfe;
    assert mfe * unit == ratio * (distance * unit) == ratio * way * 100.0;
    assert way > 0.0;
    Scaled(ratio * 100.0, 85.0, way);
  }

  lemma Scaled(x: real, y: real, f: real)
    requires f > 0.0
    ensures x >= y <==> x * f >= y * f
  {
    assert (x - y) * f == x * f - y * f;
  }

  // ----- residual positions, lock recovery and profit lock -----

  /** A residual is due where the record is marked done, but no more than 5 percent is still live. */
  lemma ResidualDueIff(p: Position, v: View, left: real)
    ensures ResidualDue(p, v, left) <==>
      && (p.hits.tp3Hit || p.remaining <= 5.0 || p.reason == "tp3" || p.reason == "break_even_stop"
          || p.reason == "stop_loss" || p.reason == "exchange_position_closed")
      && v.liveSize > 0.000001 && (p.id.size > 0.0 || (p.id.size == 0.0 && v.liveSize > 0.0)) && left <= 5.0
  {
  }

  /**
   The profit lock is due if and only if it is configured, no target, lock or break-even came
   before, the best profit covers its fraction of the way to the first target, and the fee
   break-even is a tighter stop.
   */
  lemma ProfitLockDueIff(cfg: Settings, p: Position)
    ensures ProfitLockDue(cfg, p) <==>
      && p.status.Open? && p.tps != [] && p.id.entry > 0.0 && cfg.profitLockFraction > 0.0
      && !p.hits.tp1Hit && !p.guards.profitLock && !p.guards.breakEven
      && var way := if p.tps[0] >= p.id.entry then p.tps[0] - p.id.entry else p.id.entry - p.tps[0];
         var buffer := if cfg.feeBufferPct == 0.0 then 0.10 else cfg.feeBufferPct;
         && way > 0.0 && p.mfe * p.id.entry >= cfg.profitLockFraction * way * 100.0
         && if p.id.long then p.id.entry * (100.0 + buffer) > p.stop * 100.0
            else p.stop <= 0.0 || p.id.entry * (100.0 - buffer) < p.stop * 100.0
  {
    BreakEvenInNumbers(cfg, p);
    if p.tps != [] && p.id.entry > 0.0 {
      FractionOfWay(p.mfe, cfg.profitLockFraction, Abs(p.tps[0] - p.id.entry), p.id.entry);
    }
    hide BreakEven;
  }

  lemma FractionOfWay(mfe: real, fraction: real, way: real, entry: real)
    requires entry > 0.0
    ensures mfe >= fraction * (way / entry * 100.0) <==> mfe * entry >= fraction * way * 100.0
  {
    var ratio := way / entry;
    assert ratio * entry == way;
    var needed := fraction * (ratio * 100.0);
    assert needed == fraction * ratio * 100.0;
    assert needed * entry == fraction * (ratio * entry) * 100.0;
    Scaled(mfe, needed, entry);
  }

  // ----- failed continuation -----

  /** The tightened stop: the fee break-even, or 0.06 percent behind the price where that is tighter. */
  lemma TightenStopInNumbers(cfg: Settings, p: Position, v: View)
    ensures var stop, behind := TightenStop(cfg, p, v), v.price * if p.id.long then 99.94 else 100.06;
            stop * 100.0 == if p.id.long
                            then if BreakEven(cfg, p) * 100.0 >= behind then BreakEven(cfg, p) * 100.0 else behind
                            else if BreakEven(cfg, p) * 100.0 <= behind then BreakEven(cfg, p) * 100.0 else behind
  {
    hide BreakEven;
  }

  /** The next target: the first positive one that is not taken, once those before it are. */
  lemma NextTargetIff(p: Position)
    ensures var tps, hits := PositiveOnly(p.tps), p.hits;
            && (|tps| >= 1 && !hits.tp1Hit ==> NextTarget(p) == tps[0])
            && (|tps| >= 2 && hits.tp1Hit && !hits.tp2Hit ==> NextTarget(p) == tps[1])
            && (|tps| >= 3 && hits.tp1Hit && hits.tp2Hit && !hits.tp3Hit ==> NextTarget(p) == tps[2])
            && (NextTarget(p) > 0.0 <==>
                || (|tps| >= 1 && !hits.tp1Hit) || (|tps| >= 2 && hits.tp1Hit && !hits.tp2Hit)
                || (|tps| >= 3 && hits.tp1Hit && hits.tp2Hit && !hits.tp3Hit))
            && NextTarget(p) >= 0.0
  {
    var tps := PositiveOnly(p.tps);
    assert forall i | 0 <= i < |tps| :: tps[i] in tps;
    hide PositiveOnly;
  }

  /** How far a target is, in percent of the price: nothing once it is passed, and out of reach where it is unknown. */
  lemma DistanceInNumbers(long: bool, price: real, target: real)
    ensures var far := DistancePct(long, price, target);
            if price <= 0.0 || target <= 0.0 then far == 999.0
            else if long then if target <= price then far == 0.0 else far * price == (target - price) * 100.0
            else if target >= price then far == 0.0 else far * price == (price - target) * 100.0
  {
  }

  /**
   A failed continuation is tightened if and only if the scan has fresh context, the managed record
   is open, not tightened yet and at least ten minutes old, pressure failed, the profit is at least
   -0.35 percent, the next target is within 0.18 percent or the first one taken or the profit above
   0.10 percent, and the new stop is tighter.
   */
  lemma TightenDueIff(cfg: Settings, p: Position, v: View)
    ensures TightenDue(cfg, p, v) <==>
      && v.useSnapshot && v.pressureFailed && p.id.lifecycleManaged && p.status.Open? && !p.guards.tightened
      && p.id.openedAt.Some? && v.now - p.id.openedAt.value >= 10.0 && PnlPct(p, v) >= -0.35 && NextTarget(p) > 0.0
      && (p.hits.tp1Hit || PnlPct(p, v) > 0.10 || DistancePct(p.id.long, v.price, NextTarget(p)) <= 0.18)
      && (if p.id.long then TightenStop(cfg, p, v) > p.stop else p.stop <= 0.0 || TightenStop(cfg, p, v) < p.stop)
  {
    hide PnlPct, NextTarget, DistancePct, TightenStop;
  }

  /** A dead trade: open past the time of its kind, before the first target, flat, and still live. */
  lemma DeadTradeDueIff(cfg: Settings, p: Position, v: View)
    ensures DeadTradeDue(cfg, p, v) <==>
      && p.status.Open? && !p.hits.tp1Hit && v.liveSize > 0.0
      && -cfg.deadMaxAbsPnl < PnlPct(p, v) < cfg.deadMaxAbsPnl
      && var timeout := if p.id.reclaim then cfg.deadReclaimMinutes else cfg.deadDefaultMinutes;
         timeout > 0.0 && p.id.openedAt.Some? && v.now - p.id.openedAt.value >= timeout
  {
    hide PnlPct;
  }

  // ----- where the targets move the stop -----

  /** After TP2 the stop belongs at TP1; after TP1 alone at the fee break-even, unless there is only one target. */
  lemma TargetStopInNumbers(cfg: Settings, p: Position, v: View, left: real)
    ensures var stop := TargetStop(cfg, p, v, left);
            var buffer := if cfg.feeBufferPct == 0.0 then 0.10 else cfg.feeBufferPct;
            if Tp2Due(cfg, p, v, left) then |p.tps| >= 2 && stop == p.tps[0]
            else if Tp1Due(cfg, p, v, left) && cfg.moveStopToBreakEven && |p.tps| >= 2
            then stop * 100.0 == p.id.entry * if p.id.long then 100.0 + buffer else 100.0 - buffer
            else stop == p.stop
  {
    BreakEvenInNumbers(cfg, p);
    hide BreakEven, TargetHit;
  }
}
