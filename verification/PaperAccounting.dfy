/**
 Profit and loss of a trade log, before rounding: the loss bound and the invariance of
 the result under every recovery path.
 */
module PaperAccounting {
  import opened Wrappers
  import opened PaperEvents
  import opened PaperLifecycle
  import opened PaperProtocol
  import opened PaperCrashes
  import opened PaperGuarantees

  function EventGross(e: Event): real {
    match e.body
    case PartialExit(_, _, gross, _, _, _) => gross
    case TradeClosed(_, _, gross, _, _) => gross
    case _ => 0.0
  }

  function EventFee(e: Event): real {
    match e.body
    case PartialExit(_, _, _, fee, _, _) => fee
    case TradeClosed(_, _, _, fee, _) => fee
    case _ => 0.0
  }

  function EventFunding(e: Event): real {
    match e.body
    case Funding(amount) => amount
    case _ => 0.0
  }

  function Gross(log: seq<Event>): real {
    if log == [] then 0.0 else Gross(log[..|log| - 1]) + EventGross(log[|log| - 1])
  }

  function ExitFees(log: seq<Event>): real {
    if log == [] then 0.0 else ExitFees(log[..|log| - 1]) + EventFee(log[|log| - 1])
  }

  function FundingSum(log: seq<Event>): real {
    if log == [] then 0.0 else FundingSum(log[..|log| - 1]) + EventFunding(log[|log| - 1])
  }

  function Net(log: seq<Event>): real
    requires Opened(log)
  {
    Gross(log) - (log[0].body.opening.entryFee + ExitFees(log)) + FundingSum(log)
  }

  /** What one more event adds: an exit its gross and its fee, a funding event its amount, any other nothing. */
  lemma SumsGrow(log: seq<Event>, e: Event)
    ensures var sums := (Gross(log + [e]) - Gross(log), ExitFees(log + [e]) - ExitFees(log),
                         FundingSum(log + [e]) - FundingSum(log));
            match e.body
            case PartialExit(_, _, gross, fee, _, _) => sums == (gross, fee, 0.0)
            case TradeClosed(_, _, gross, fee, _) => sums == (gross, fee, 0.0)
            case Funding(amount) => sums == (0.0, 0.0, amount)
            case _ => sums == (0.0, 0.0, 0.0)
    ensures Gross([]) == ExitFees([]) == FundingSum([]) == 0.0
  {
    SumsPush(log, e);
  }

  lemma SumsPush(log: seq<Event>, e: Event)
    ensures Gross(log + [e]) == Gross(log) + EventGross(e)
    ensures ExitFees(log + [e]) == ExitFees(log) + EventFee(e)
    ensures FundingSum(log + [e]) == FundingSum(log) + EventFunding(e)
  {
    assert (log + [e])[..|log|] == log;
  }

  // ----- fees and gross over the prices and sizes of the exits -----

  /** Price times size over every exit of a log, partial and terminal. */
  function Turnover(log: seq<Event>): real {
    if log == [] then 0.0
    else
      var last := log[|log| - 1].body;
      Turnover(log[..|log| - 1])
      + if last.PartialExit? || last.TradeClosed? then last.price * last.size else 0.0
  }

  /** Distance from the fill times size over every exit of a log, partial and terminal. */
  function Distance(fill: real, log: seq<Event>): real {
    if log == [] then 0.0
    else
      var last := log[|log| - 1].body;
      Distance(fill, log[..|log| - 1])
      + if last.PartialExit? || last.TradeClosed? then (last.price - fill) * last.size else 0.0
  }

  lemma ExitAmounts(cfg: Config, log: seq<Event>, s: State, e: Event)
    requires Admissible(cfg, log, s, e)
    ensures e.body.PartialExit? || e.body.TradeClosed? ==>
      && EventFee(e) == cfg.roundtripFeeBps / 20000.0 * (e.body.price * e.body.size)
      && EventGross(e) == (if s.opening.direction.Long? then (e.body.price - s.opening.fill) * e.body.size
                           else -((e.body.price - s.opening.fill) * e.body.size))
    ensures !e.body.PartialExit? && !e.body.TradeClosed? ==> EventFee(e) == 0.0 && EventGross(e) == 0.0
  {
    if e.body.PartialExit? || e.body.TradeClosed? {
      var value := e.body.price * e.body.size;
      assert value * (cfg.roundtripFeeBps / 10000.0) / 2.0 == cfg.roundtripFeeBps / 20000.0 * value;
    }
  }

  lemma AmountsPush(fill: real, log: seq<Event>, e: Event)
    ensures var exit := e.body.PartialExit? || e.body.TradeClosed?;
            && Turnover(log + [e]) == Turnover(log) + (if exit then e.body.price * e.body.size else 0.0)
            && Distance(fill, log + [e]) == Distance(fill, log)
                                            + if exit then (e.body.price - fill) * e.body.size else 0.0
  {
    assert (log + [e])[..|log|] == log;
  }

  lemma Distributes(rate: real, x: real, y: real)
    ensures rate * (x + y) == rate * x + rate * y
  {
  }

  /**
   What the sums of a log are worth in prices and sizes: every exit pays half the round-trip
   rate on price times size, and earns its signed distance from the fill times its size.
   */
  lemma {:induction false} SumsOfExits(cfg: Config, log: seq<Event>)
    requires Legal(cfg, log)
    ensures var o := log[0].body.opening;
            && ExitFees(log) == cfg.roundtripFeeBps / 20000.0 * Turnover(log)
            && Gross(log) == if o.direction.Long? then Distance(o.fill, log) else -Distance(o.fill, log)
  {
    hide Fee, FeeBreakEven, HasAction, Admissible, ApplyAll, Turnover, Distance, Gross, ExitFees, EventGross, EventFee;
    var o := log[0].body.opening;
    var rate := cfg.roundtripFeeBps / 20000.0;
    if |log| == 1 {
      OpeningExitsNothing(o.fill, log);
    } else {
      var before, e := LegalPop(cfg, log);
      SumsOfExits(cfg, before);
      LegalKeyFacts(cfg, before);
      SumsPush(before, e);
      AmountsPush(o.fill, before, e);
      ExitAmounts(cfg, before, Replay(before), e);
      if e.body.PartialExit? || e.body.TradeClosed? {
        Distributes(rate, Turnover(before), e.body.price * e.body.size);
      }
    }
  }

  lemma OpeningExitsNothing(fill: real, log: seq<Event>)
    requires Opened(log) && |log| == 1
    ensures Turnover(log) == Distance(fill, log) == ExitFees(log) == Gross(log) == 0.0
  {
    assert log[..0] == [];
    assert Turnover([]) == Distance(fill, []) == ExitFees([]) == Gross([]) == 0.0;
  }

  // ----- the loss bound -----

  /** Stop and targets lie on their own sides of the fill. */
  predicate Sided(o: Opening) {
    if o.direction.Long? then o.stop < o.fill && forall i | 0 <= i < |o.targets| :: o.targets[i] > o.fill
    else o.stop > o.fill && forall i | 0 <= i < |o.targets| :: o.targets[i] < o.fill
  }

  /** `a` protects a position at least as tightly as `b`. */
  predicate AtLeastAsTight(o: Opening, a: real, b: real) {
    if o.direction.Long? then a >= b else a <= b
  }

  ghost predicate StopMoved(log: seq<Event>) {
    HasAction(log, StopMove(Tp1FeeBreakEven)) || HasAction(log, StopMove(ProfitLockFeeBreakEven))
  }

  lemma PnlSign(o: Opening, price: real, size: real)
    requires size >= 0.0 && AtLeastAsTight(o, price, o.fill)
    ensures Pnl(o, price, size) >= 0.0
  {
  }

  lemma BreakEvenCoversFill(cfg: Config, o: Opening)
    requires cfg.breakEvenBufferPct >= 0.0 && o.fill > 0.0
    ensures AtLeastAsTight(o, FeeBreakEven(cfg, o), o.fill)
  {
    assert o.fill * (cfg.breakEvenBufferPct / 100.0) >= 0.0;
  }

  lemma StopLossBound(o: Opening, size: real)
    requires ValidOpening(o) && Sided(o) && 0.0 <= size <= o.size
    ensures Pnl(o, o.stop, size) >= -o.riskCurrency
  {
    assert Pnl(o, o.stop, size) == -(o.riskPrice * size);
    assert o.riskPrice * size <= o.riskPrice * o.size;
  }

  /** The stop never loosens: any later stop is at least as tight as any earlier one. */
  lemma {:induction false} StopNeverLoosens(cfg: Config, log: seq<Event>, n: nat)
    requires Legal(cfg, log) && 1 <= n <= |log|
    requires Sided(log[0].body.opening) && cfg.breakEvenBufferPct >= 0.0
    ensures Opened(log[..n])
    ensures AtLeastAsTight(log[0].body.opening, Replay(log).stop, Replay(log[..n]).stop)
  {
    var o := log[0].body.opening;
    LegalPrefix(cfg, log, n);
    var earlier := log[..n];
    LegalKeyFacts(cfg, log);
    LegalKeyFacts(cfg, earlier);
    LegalStopFacts(cfg, log);
    LegalStopFacts(cfg, earlier);
    BreakEvenCoversFill(cfg, o);
    if StopMoved(earlier) {
      var a := if HasAction(earlier, StopMove(Tp1FeeBreakEven)) then StopMove(Tp1FeeBreakEven)
        else StopMove(ProfitLockFeeBreakEven);
      var e :| e in earlier && ActionOf(e) == a;
      assert e in log;
    }
  }

  /** The profit of a single admissible event. */
  lemma ExitGross(cfg: Config, log: seq<Event>, s: State, e: Event)
    requires Admissible(cfg, log, s, e) && QuantityFacts(s) && IntentFacts(log, s) && StopFacts(cfg, log, s)
    requires ValidOpening(s.opening) && Sided(s.opening) && cfg.breakEvenBufferPct >= 0.0
    requires s.exited >= 0.0
    ensures !e.body.TradeClosed? ==> EventGross(e) >= 0.0
    ensures e.body.TradeClosed? ==> EventGross(e) >= -s.opening.riskCurrency
    ensures e.body.TradeClosed? && StopMoved(log) ==> EventGross(e) >= 0.0
  {
    hide Pnl, Fee, FeeBreakEven, HasAction, ValidOpening;
    var o := s.opening;
    assert o.fill > 0.0 && o.riskCurrency >= 0.0 by { OpeningRisk(o); }
    BreakEvenCoversFill(cfg, o);
    if e.body.PartialExit? {
      PnlSign(o, e.body.price, e.body.size);
    } else if e.body.TradeClosed? {
      if e.body.reason.TakeProfit? {
        PnlSign(o, e.body.price, e.body.size);
      } else if StopMoved(log) {
        PnlSign(o, e.body.price, e.body.size);
      } else {
        StopLossBound(o, e.body.size);
      }
    }
  }

  lemma OpeningRisk(o: Opening)
    requires ValidOpening(o)
    ensures o.fill > 0.0 && o.riskCurrency >= 0.0
  {
  }

  lemma ExitedNonNegative(cfg: Config, log: seq<Event>)
    requires Legal(cfg, log)
    ensures Replay(log).exited >= 0.0
  {
    hide Pnl, Fee, FeeBreakEven, HasAction;
    if |log| == 1 {
      ReplayOpening(log);
    } else {
      var before, e := LegalPop(cfg, log);
      ExitedNonNegative(cfg, before);
      LegalQuantityFacts(cfg, before);
    }
  }

  /**
   The loss bound, at every crash point of every run: what has been realised so far is
   never below minus the initial risk, it is not negative while the trade is open, and it
   is not negative at all once a stop update is persisted.
   */
  lemma {:induction false} LossBound(cfg: Config, log: seq<Event>)
    requires Legal(cfg, log) && Sided(log[0].body.opening) && cfg.breakEvenBufferPct >= 0.0
    ensures Gross(log) >= -log[0].body.opening.riskCurrency
    ensures !Replay(log).closed || StopMoved(log) ==> Gross(log) >= 0.0
  {
    hide Pnl, Fee, FeeBreakEven, HasAction, Admissible, ApplyAll;
    LegalKeyFacts(cfg, log);
    OpeningRisk(log[0].body.opening);
    if |log| == 1 {
      assert log[..0] == [];
      assert Gross(log) == Gross([]) + EventGross(log[0]);
    } else {
      var before, e := LegalPop(cfg, log);
      LossBound(cfg, before);
      LegalKeyFacts(cfg, before);
      LegalQuantityFacts(cfg, before);
      LegalIntentFacts(cfg, before);
      LegalStopFacts(cfg, before);
      ExitedNonNegative(cfg, before);
      OpenBeforeLast(cfg, log);
      ExitGross(cfg, before, Replay(before), e);
      SumsPush(before, e);
      HasActionPush(before, e);
    }
  }

  /** The loss bound over every run of updates and crashes from the opening of a trade. */
  lemma RunLossBound(cfg: Config, timestamp: int, o: Opening, steps: seq<Step>)
    requires ValidOpening(o) && Sided(o) && Sane(cfg) && cfg.breakEvenBufferPct >= 0.0
    ensures var final := RunTrade(cfg, OpenLog(timestamp, o), steps).log;
            && Gross(final) >= -o.riskCurrency
            && (!Replay(final).closed || StopMoved(final) ==> Gross(final) >= 0.0)
  {
    var log := OpenLog(timestamp, o);
    RunLegal(cfg, log, steps);
    var final := RunTrade(cfg, log, steps).log;
    assert final[0] == log[0];
    hide Legal, ApplyAll, Gross;
    LossBound(cfg, final);
  }

  // ----- the result does not depend on the recovery path -----

  /** Once nothing remains, no event of any legal continuation changes gross, fees or funding. */
  lemma {:induction false} SettledPnl(cfg: Config, log: seq<Event>, ext: seq<Event>)
    requires Opened(log) && Legal(cfg, log) && Legal(cfg, ext) && log <= ext && Replay(log).remaining == 0.0
    ensures Replay(ext).remaining == 0.0 && Gross(ext) == Gross(log) && ExitFees(ext) == ExitFees(log)
    ensures Net(ext) == Net(log)
    decreases |ext|
  {
    hide HasAction, Legal, ApplyAll, Gross, ExitFees, FundingSum;
    if |ext| > |log| {
      var before, e := LegalPop(cfg, ext);
      SettledPnl(cfg, log, before);
      LegalQuantityFacts(cfg, before);
      SumsPush(before, e);
      SettledExit(cfg, before, Replay(before), e);
    } else {
      assert ext == log;
    }
  }

  lemma SettledExit(cfg: Config, log: seq<Event>, s: State, e: Event)
    requires Admissible(cfg, log, s, e) && s.remaining == 0.0
    ensures Apply(s, e).remaining == 0.0 && EventGross(e) == 0.0 && EventFee(e) == 0.0 && EventFunding(e) == 0.0
  {
  }

  /**
   Recovery invariance: two ways of finishing a trade whose last partial is persisted give
   the same gross profit, exit fees and net result, whatever label the exit carries.
   */
  lemma RecoveryPathsAgree(cfg: Config, log: seq<Event>, one: seq<Event>, other: seq<Event>)
    requires Legal(cfg, log) && Replay(log).remaining == 0.0
    requires Legal(cfg, one) && Legal(cfg, other) && log <= one && log <= other
    ensures Gross(one) == Gross(other) && ExitFees(one) == ExitFees(other) && Net(one) == Net(other)
  {
    SettledPnl(cfg, log, one);
    SettledPnl(cfg, log, other);
  }
}
