/** From an executable plan and a market snapshot to the opening of a paper trade. */
module PaperPlanning {
  import opened Wrappers
  import opened Reals
  import opened PaperEvents
  import opened PaperLifecycle
  import opened PaperProtocol

  datatype Plan = Plan(
    candidateId: string, planId: string, symbol: string, strategy: string, direction: Option<Direction>,
    executable: bool, entryPrices: seq<real>, stopLoss: real, takeProfits: seq<real>, notional: real,
    details: string)

  datatype Snapshot = Snapshot(symbol: string, timestamp: int, latestClose: real, timeframe: string,
    candle: Option<Range>, details: string)

  function TickOf(s: Snapshot): Tick {
    Tick(s.timestamp, s.latestClose, s.candle)
  }

  function Sum(xs: seq<real>): real {
    if xs == [] then 0.0 else xs[0] + Sum(xs[1..])
  }

  function Mean(xs: seq<real>): real {
    if xs == [] then 0.0 else Sum(xs) / |xs| as real
  }

  function Positive(xs: seq<real>): (r: seq<real>)
    ensures forall x | x in r :: x > 0.0 && x in xs
  {
    if xs == [] then []
    else if xs[0] > 0.0 then [xs[0]] + Positive(xs[1..])
    else Positive(xs[1..])
  }

  /** The payload of the opening; `direction` defaults to Long only where the caller has already checked it. */
  function PlannedOpening(cfg: Config, plan: Plan, snap: Snapshot): Opening {
    var fill := snap.latestClose;
    var risk := Abs(fill - plan.stopLoss);
    var size := if fill > 0.0 then plan.notional / fill else 0.0;
    Opening(plan.strategy, plan.symbol, if plan.direction == Some(Short) then Short else Long, snap.timeframe,
            Mean(plan.entryPrices), fill, plan.stopLoss, Positive(plan.takeProfits), size,
            risk, risk * size, plan.notional * (cfg.roundtripFeeBps / 10000.0) / 2.0,
            snap.timestamp, plan.details, snap.details)
  }

  /** The sum is additive, and the mean is the sum over the number. */
  lemma {:induction false} SumConcat(xs: seq<real>, ys: seq<real>)
    ensures Sum(xs + ys) == Sum(xs) + Sum(ys)
    decreases |xs|
  {
    if xs == [] {
      assert xs + ys == ys;
    } else {
      assert (xs + ys)[1..] == xs[1..] + ys;
      SumConcat(xs[1..], ys);
    }
  }

  lemma MeanOfSum(xs: seq<real>)
    ensures Mean(xs) * |xs| as real == Sum(xs)
    ensures forall x :: Sum([x]) == x
  {
    forall x ensures Sum([x]) == x {
      assert [x][1..] == [];
    }
  }

  /** The targets of a trade are the positive prices of the plan, in their order. */
  lemma {:induction false} PositiveConcat(a: seq<real>, b: seq<real>)
    ensures Positive(a + b) == Positive(a) + Positive(b)
    decreases |a|
  {
    if a == [] {
      assert a + b == b;
    } else {
      assert (a + b)[1..] == a[1..] + b;
      PositiveConcat(a[1..], b);
    }
  }

  lemma PositiveOne(x: real)
    ensures Positive([x]) == if x > 0.0 then [x] else []
  {
    assert [x][1..] == [];
  }

  lemma {:induction false} NonePositive(xs: seq<real>)
    ensures Positive(xs) == [] <==> forall x | x in xs :: x <= 0.0
  {
    if xs != [] {
      NonePositive(xs[1..]);
      assert xs[0] in xs && forall x :: x in xs <==> x == xs[0] || x in xs[1..];
    }
  }

  /**
   What a planned trade is worth: the size at the fill is the notional, the risk is the distance of
   the stop from the fill times the size, and the entry pays half the round-trip rate on the notional.
   */
  lemma PlannedInNumbers(cfg: Config, plan: Plan, snap: Snapshot)
    ensures var o := PlannedOpening(cfg, plan, snap);
            && o.fill == snap.latestClose && o.stop == plan.stopLoss && o.symbol == plan.symbol
            && o.strategy == plan.strategy && o.timeframe == snap.timeframe && o.signal == snap.timestamp
            && (o.direction.Short? <==> plan.direction == Some(Short))
            && (if o.fill > 0.0 then o.size * o.fill == plan.notional else o.size == 0.0)
            && o.riskPrice == (if o.fill >= o.stop then o.fill - o.stop else o.stop - o.fill)
            && o.riskCurrency == o.riskPrice * o.size
            && o.entryFee * 20000.0 == plan.notional * cfg.roundtripFeeBps
            && o.targets == Positive(plan.takeProfits)
            && o.plannedEntry * |plan.entryPrices| as real == Sum(plan.entryPrices)
            && (plan.entryPrices == [] ==> o.plannedEntry == 0.0)
  {
    MeanOfSum(plan.entryPrices);
    var value := plan.notional * (cfg.roundtripFeeBps / 10000.0);
    assert value == plan.notional * cfg.roundtripFeeBps / 10000.0;
  }

  function NamedIf(empty: bool, name: string): seq<string> {
    if empty then [name] else []
  }

  /** The critical fields that are empty or zero, in payload order. */
  function MissingCritical(cfg: Config, plan: Plan, snap: Snapshot): seq<string> {
    var o := PlannedOpening(cfg, plan, snap);
    NamedIf(o.strategy == "", "strategy") + NamedIf(o.symbol == "", "symbol")
    + NamedIf(plan.direction.None?, "direction") + NamedIf(o.timeframe == "", "timeframe")
    + NamedIf(o.plannedEntry == 0.0, "planned_entry") + NamedIf(o.fill == 0.0, "simulated_fill")
    + NamedIf(o.stop == 0.0, "initial_stop") + NamedIf(o.targets == [], "initial_targets")
    + NamedIf(o.riskPrice == 0.0, "initial_risk_price") + NamedIf(o.size == 0.0, "position_size")
  }

  predicate CriticalMissing(cfg: Config, plan: Plan, snap: Snapshot) {
    MissingCritical(cfg, plan, snap) != []
  }

  function Join(xs: seq<string>): string {
    if xs == [] then "" else if |xs| == 1 then xs[0] else xs[0] + "," + Join(xs[1..])
  }

  function MissingCause(cfg: Config, plan: Plan, snap: Snapshot): string {
    "critical_fields_missing:" + Join(MissingCritical(cfg, plan, snap))
  }

  /** When each critical field is reported missing. */
  lemma MissingIff(cfg: Config, plan: Plan, snap: Snapshot)
    ensures var fill := snap.latestClose;
            forall name :: name in MissingCritical(cfg, plan, snap) <==>
                           || (name == "strategy" && plan.strategy == "")
                           || (name == "symbol" && plan.symbol == "")
                           || (name == "direction" && plan.direction.None?)
                           || (name == "timeframe" && snap.timeframe == "")
                           || (name == "planned_entry" && Sum(plan.entryPrices) == 0.0)
                           || (name == "simulated_fill" && fill == 0.0)
                           || (name == "initial_stop" && plan.stopLoss == 0.0)
                           || (name == "initial_targets" && forall x | x in plan.takeProfits :: x <= 0.0)
                           || (name == "initial_risk_price" && fill == plan.stopLoss)
                           || (name == "position_size" && (fill <= 0.0 || plan.notional == 0.0))
  {
    hide NamedIf, PlannedOpening;
    var o := PlannedOpening(cfg, plan, snap);
    MissingFields(cfg, plan, snap);
    NamedIfIn(o.strategy == "", "strategy");
    NamedIfIn(o.symbol == "", "symbol");
    NamedIfIn(plan.direction.None?, "direction");
    NamedIfIn(o.timeframe == "", "timeframe");
    NamedIfIn(o.plannedEntry == 0.0, "planned_entry");
    NamedIfIn(o.fill == 0.0, "simulated_fill");
    NamedIfIn(o.stop == 0.0, "initial_stop");
    NamedIfIn(o.targets == [], "initial_targets");
    NamedIfIn(o.riskPrice == 0.0, "initial_risk_price");
    NamedIfIn(o.size == 0.0, "position_size");
  }

  lemma NamedIfIn(empty: bool, name: string)
    ensures forall x :: x in NamedIf(empty, name) <==> empty && x == name
  {
  }

  lemma MissingFields(cfg: Config, plan: Plan, snap: Snapshot)
    ensures var o, fill := PlannedOpening(cfg, plan, snap), snap.latestClose;
            && o.strategy == plan.strategy && o.symbol == plan.symbol && o.timeframe == snap.timeframe
            && (o.plannedEntry == 0.0 <==> Sum(plan.entryPrices) == 0.0)
            && o.fill == fill && o.stop == plan.stopLoss && (o.riskPrice == 0.0 <==> fill == plan.stopLoss)
            && (o.targets == [] <==> forall x | x in plan.takeProfits :: x <= 0.0)
            && (o.size == 0.0 <==> fill <= 0.0 || plan.notional == 0.0)
  {
    hide Positive, Mean;
    NonePositive(plan.takeProfits);
    MeanIsZero(plan.entryPrices);
    var o := PlannedOpening(cfg, plan, snap);
    if snap.latestClose > 0.0 {
      assert o.size * snap.latestClose == plan.notional;
    }
  }

  lemma MeanIsZero(xs: seq<real>)
    ensures Mean(xs) == 0.0 <==> Sum(xs) == 0.0
  {
    MeanOfSum(xs);
    if xs == [] {
      assert Sum(xs) == 0.0;
    }
  }

  /** An empty plan is rejected for every critical field, named in payload order. */
  lemma EverythingMissing(cfg: Config)
    ensures var plan := Plan("c", "p", "", "", None, true, [], 0.0, [], 0.0, "");
            MissingCritical(cfg, plan, Snapshot("", 0, 0.0, "", None, "")) ==
            ["strategy", "symbol", "direction", "timeframe", "planned_entry", "simulated_fill", "initial_stop",
             "initial_targets", "initial_risk_price", "position_size"]
  {
  }

  /** The cause of a rejection names the fields, separated by commas. */
  lemma {:induction false} JoinedNames(names: seq<string>, last: string)
    ensures Join([]) == "" && Join([last]) == last
    ensures names != [] ==> Join(names + [last]) == Join(names) + "," + last
    decreases |names|
  {
    if |names| > 1 {
      JoinedNames(names[1..], last);
      assert (names + [last])[1..] == names[1..] + [last];
    } else if |names| == 1 {
      assert (names + [last])[1..] == [last];
    }
  }

  /** The fields that only describe a trade, and do not enter its arithmetic. */
  predicate Described(plan: Plan, snap: Snapshot) {
    && plan.strategy != "" && plan.symbol != "" && plan.direction.Some? && snap.timeframe != ""
    && Mean(plan.entryPrices) != 0.0 && plan.stopLoss != 0.0
  }

  /**
   The critical-field check lets through the openings the lifecycle can work on, and besides
   those only plans with a negative notional: it tests sizes for zero, not for their sign.
   */
  lemma CriticalCheckIsValid(cfg: Config, plan: Plan, snap: Snapshot)
    ensures !CriticalMissing(cfg, plan, snap) && plan.notional >= 0.0 <==>
      Described(plan, snap) && ValidOpening(PlannedOpening(cfg, plan, snap))
  {
    var o := PlannedOpening(cfg, plan, snap);
    if o.fill > 0.0 && plan.notional > 0.0 {
      assert o.size > 0.0;
    }
    forall i | 0 <= i < |o.targets| ensures o.targets[i] > 0.0 {
      assert o.targets[i] in o.targets;
    }
  }

  /** A plan with a negative notional passes the check and opens a trade of negative size. */
  lemma NegativeNotionalPasses(cfg: Config) returns (plan: Plan, snap: Snapshot)
    ensures !CriticalMissing(cfg, plan, snap) && PlannedOpening(cfg, plan, snap).size < 0.0
  {
    plan := Plan("c", "p", "BTCUSDT", "s", Some(Long), true, [100.0], 90.0, [110.0], -100.0, "");
    snap := Snapshot("BTCUSDT", 0, 100.0, "15m", None, "");
    var o := PlannedOpening(cfg, plan, snap);
    assert Sum([100.0]) == 100.0 + Sum([100.0][1..]) && [100.0][1..] == [];
    assert o.size == -1.0 && o.riskPrice == 10.0 && o.targets != [] && o.plannedEntry == 100.0;
  }
}
