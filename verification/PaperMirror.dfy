/**
 Longs and shorts are mirror images: reflect every price about the fill and exchange the
 directions, and every run of updates and crashes of a trade becomes the run of its mirror
 image, event by event.  Only fees differ, by the rate on the difference of the two prices.
 */
module PaperMirror {
  import opened Wrappers
  import opened Reals
  import opened PaperEvents
  import opened PaperLifecycle
  import opened PaperProtocol
  import opened PaperGuarantees
  import opened PaperAccounting
  import opened PaperTriggers

  function Other(d: Direction): Direction {
    if d.Long? then Short else Long
  }

  /** A price reflected about the fill. */
  function Reflect(fill: real, price: real): real {
    2.0 * fill - price
  }

  function ReflectAll(fill: real, prices: seq<real>): seq<real> {
    seq(|prices|, i requires 0 <= i < |prices| => Reflect(fill, prices[i]))
  }

  function MirrorOpening(o: Opening): Opening {
    o.(direction := Other(o.direction), stop := Reflect(o.fill, o.stop), targets := ReflectAll(o.fill, o.targets))
  }

  function MirrorTick(fill: real, t: Tick): Tick {
    Tick(t.timestamp, Reflect(fill, t.mark),
         match t.candle
         case Some(c) => Some(Range(Reflect(fill, c.low), Reflect(fill, c.high)))
         case None => None)
  }

  /** The fee of the same size at the reflected price. */
  function MirrorFee(cfg: Config, fill: real, price: real, size: real, fee: real): real {
    fee + (fill - price) * size * cfg.roundtripFeeBps / 10000.0
  }

  function MirrorBody(cfg: Config, fill: real, b: Body): Body {
    match b
    case TradeOpened(o) => if o.fill == fill then TradeOpened(MirrorOpening(o)) else b
    case MarkDecision(mark, high, low, stop, remaining) =>
      MarkDecision(Reflect(fill, mark), Reflect(fill, low), Reflect(fill, high), Reflect(fill, stop), remaining)
    case MfeUpdate(price, pct) => MfeUpdate(Reflect(fill, price), pct)
    case MaeUpdate(price, pct) => MaeUpdate(Reflect(fill, price), pct)
    case TpTouch(level, price, mark) => TpTouch(level, Reflect(fill, price), Reflect(fill, mark))
    case SlTouch(price, mark) => SlTouch(Reflect(fill, price), Reflect(fill, mark))
    case PartialExit(price, size, gross, fee, reason, level) =>
      PartialExit(Reflect(fill, price), size, gross, MirrorFee(cfg, fill, price, size, fee), reason, level)
    case BreakEvenActivated(stop, mark) => BreakEvenActivated(Reflect(fill, stop), Reflect(fill, mark))
    case ProfitLockActivated(stop, mark) => ProfitLockActivated(Reflect(fill, stop), Reflect(fill, mark))
    case StopUpdated(oldStop, newStop, why) => StopUpdated(Reflect(fill, oldStop), Reflect(fill, newStop), why)
    case ExitReasonTransition(to, price) => ExitReasonTransition(to, Reflect(fill, price))
    case TradeClosed(price, size, gross, fee, reason) =>
      TradeClosed(Reflect(fill, price), size, gross, MirrorFee(cfg, fill, price, size, fee), reason)
    case Funding(_) => b
    case PaperRejected(_, _, _) => b
  }

  function MirrorEvent(cfg: Config, fill: real, e: Event): Event {
    Event(e.timestamp, MirrorBody(cfg, fill, e.body))
  }

  function Mirror(cfg: Config, fill: real, es: seq<Event>): (r: seq<Event>)
    ensures |r| == |es| && forall i | 0 <= i < |es| :: r[i] == MirrorEvent(cfg, fill, es[i])
  {
    seq(|es|, i requires 0 <= i < |es| => MirrorEvent(cfg, fill, es[i]))
  }

  function MirrorState(s: State): State {
    var fill := s.opening.fill;
    s.(opening := MirrorOpening(s.opening), stop := Reflect(fill, s.stop),
       pending := match s.pending
                  case Some(p) => Some(p.(price := Reflect(fill, p.price)))
                  case None => None)
  }

  // ----- reflecting twice changes nothing -----

  lemma ReflectTwice(cfg: Config, fill: real, b: Body)
    ensures MirrorBody(cfg, fill, MirrorBody(cfg, fill, b)) == b
  {
    match b
    case TradeOpened(o) =>
      assert ReflectAll(o.fill, ReflectAll(o.fill, o.targets)) == o.targets;
    case PartialExit(price, size, gross, fee, reason, level) => FeesCancel(cfg, fill, price, size, fee);
    case TradeClosed(price, size, gross, fee, reason) => FeesCancel(cfg, fill, price, size, fee);
    case _ =>
  }

  lemma FeesCancel(cfg: Config, fill: real, price: real, size: real, fee: real)
    ensures MirrorFee(cfg, fill, Reflect(fill, price), size, MirrorFee(cfg, fill, price, size, fee)) == fee
  {
    var d := (fill - price) * size;
    assert (fill - Reflect(fill, price)) * size == -d;
    assert -d * cfg.roundtripFeeBps == -(d * cfg.roundtripFeeBps);
  }

  lemma SameEventIff(cfg: Config, fill: real, a: Event, b: Event)
    ensures MirrorBody(cfg, fill, a.body) == MirrorBody(cfg, fill, b.body) <==> a.body == b.body
    ensures MirrorEvent(cfg, fill, a) == MirrorEvent(cfg, fill, b) <==> a == b
  {
    ReflectTwice(cfg, fill, a.body);
    ReflectTwice(cfg, fill, b.body);
  }

  lemma SameActionIff(cfg: Config, fill: real, a: Event, b: Event)
    ensures ActionOf(MirrorEvent(cfg, fill, a)) == ActionOf(MirrorEvent(cfg, fill, b)) <==> ActionOf(a) == ActionOf(b)
  {
    SameEventIff(cfg, fill, a, b);
    hide MirrorOpening, Reflect, MirrorFee;
  }

  // ----- the attempts of an update -----

  lemma MirrorConcat(cfg: Config, fill: real, a: seq<Event>, b: seq<Event>)
    ensures Mirror(cfg, fill, a + b) == Mirror(cfg, fill, a) + Mirror(cfg, fill, b)
  {
  }

  lemma MirrorAmounts(cfg: Config, o: Opening, price: real, size: real)
    ensures Pnl(MirrorOpening(o), Reflect(o.fill, price), size) == Pnl(o, price, size)
    ensures Fee(cfg, Reflect(o.fill, price), size) == MirrorFee(cfg, o.fill, price, size, Fee(cfg, price, size))
    ensures FeeBreakEven(cfg, MirrorOpening(o)) == Reflect(o.fill, FeeBreakEven(cfg, o))
  {
    var rate := cfg.roundtripFeeBps / 10000.0;
    var v, w := price * size, Reflect(o.fill, price) * size;
    assert w == 2.0 * (o.fill * size) - v;
    assert w * rate / 2.0 == v * rate / 2.0 + (w - v) * rate / 2.0;
    assert w - v == 2.0 * ((o.fill - price) * size);
    MirrorRate((o.fill - price) * size, cfg.roundtripFeeBps);
    var buffer := o.fill * (cfg.breakEvenBufferPct / 100.0);
    assert o.fill * (1.0 + cfg.breakEvenBufferPct / 100.0) == o.fill + buffer;
    assert o.fill * (1.0 - cfg.breakEvenBufferPct / 100.0) == o.fill - buffer;
  }

  lemma MirrorRate(d: real, bps: real)
    ensures 2.0 * d * (bps / 10000.0) / 2.0 == d * bps / 10000.0
  {
  }

  lemma MirrorPrices(s: State, t: Tick)
    requires s.opening.fill > 0.0
    ensures var o, m, u := s.opening, MirrorState(s), MirrorTick(s.opening.fill, t);
            && u.High() == Reflect(o.fill, t.Low()) && u.Low() == Reflect(o.fill, t.High())
            && Favorable(m.opening, u) == Reflect(o.fill, Favorable(o, t))
            && Adverse(m.opening, u) == Reflect(o.fill, Adverse(o, t))
            && (StopHit(m, u) <==> StopHit(s, t))
            && (forall i: nat | i < |o.targets| :: TargetHit(m.opening, u, i) <==> TargetHit(o, t, i))
            && (forall price :: ExcursionPct(m.opening, Reflect(o.fill, price)) == ExcursionPct(o, price))
  {
    var o, m := s.opening, MirrorState(s);
    forall price ensures ExcursionPct(m.opening, Reflect(o.fill, price)) == ExcursionPct(o, price) {
      assert Reflect(o.fill, price) - o.fill == o.fill - price;
    }
  }

  lemma MirrorObservations(cfg: Config, s: State, t: Tick)
    requires s.opening.fill > 0.0
    ensures var u := MirrorTick(s.opening.fill, t);
            && Observations(MirrorState(s), u) == Mirror(cfg, s.opening.fill, Observations(s, t))
            && Observed(MirrorState(s), u) == MirrorState(Observed(s, t))
  {
    MirrorPrices(s, t);
    hide ExcursionPct, StopHit, TargetHit, Favorable, Adverse, Reflect;
  }

  lemma MirrorClose(cfg: Config, o: Opening, timestamp: int, price: real, reason: ExitReason, size: real)
    ensures ClosePair(cfg, MirrorOpening(o), timestamp, Reflect(o.fill, price), reason, size) ==
            Mirror(cfg, o.fill, ClosePair(cfg, o, timestamp, price, reason, size))
  {
    MirrorAmounts(cfg, o, price, size);
    hide Pnl, Fee, FeeBreakEven, Reflect, MirrorFee, MirrorOpening;
  }

  lemma MirrorFill(cfg: Config, m: State, t: Tick, i: nat)
    requires i < |m.opening.targets|
    ensures var u := MirrorTick(m.opening.fill, t);
            && FillEvents(cfg, MirrorState(m), u, i) == Mirror(cfg, m.opening.fill, FillEvents(cfg, m, t, i))
            && AfterFill(cfg, MirrorState(m), i) == MirrorState(AfterFill(cfg, m, i))
  {
    var size := CloseSize(cfg, m, i);
    assert CloseSize(cfg, MirrorState(m), i) == size;
    MirrorAmounts(cfg, m.opening, m.opening.targets[i], size);
    hide Pnl, Fee, FeeBreakEven, Reflect, MirrorFee, CloseSize;
  }

  lemma MirrorLock(cfg: Config, m: State, t: Tick)
    requires m.opening.fill > 0.0
    ensures ProfitLockEvents(cfg, MirrorState(m), MirrorTick(m.opening.fill, t)) ==
            Mirror(cfg, m.opening.fill, ProfitLockEvents(cfg, m, t))
  {
    assert ArmsProfitLock(cfg, MirrorState(m)) <==> ArmsProfitLock(cfg, m) by {
      if m.opening.targets != [] {
        assert Abs(Reflect(m.opening.fill, m.opening.targets[0]) - m.opening.fill)
            == Abs(m.opening.targets[0] - m.opening.fill);
      }
    }
    MirrorAmounts(cfg, m.opening, m.stop, 0.0);
    hide ArmsProfitLock, FeeBreakEven, Reflect, Pnl, Fee, MirrorFee;
  }

  lemma MirrorStep(cfg: Config, m: State, t: Tick, i: nat)
    requires i < |m.opening.targets| && m.opening.fill > 0.0
    ensures var fill, image, u := m.opening.fill, MirrorState(m), MirrorTick(m.opening.fill, t);
            && (ClosesAt(cfg, image, u, i) <==> ClosesAt(cfg, m, t, i))
            && Next(cfg, image, u, i) == MirrorState(Next(cfg, m, t, i)) && Next(cfg, m, t, i).opening == m.opening
            && Head(cfg, image, u, i) == Mirror(cfg, fill, Head(cfg, m, t, i))
  {
    MirrorPrices(m, t);
    MirrorFill(cfg, m, t, i);
    hide TargetHit, StopHit, FillEvents, Reflect, MirrorTick, ExcursionPct, FeeBreakEven, CloseSize, ArmsBreakEven;
  }

  lemma {:induction false} MirrorTargets(cfg: Config, m: State, t: Tick, i: nat)
    requires i <= |m.opening.targets| && m.opening.fill > 0.0
    ensures TargetEvents(cfg, MirrorState(m), MirrorTick(m.opening.fill, t), i) ==
            Mirror(cfg, m.opening.fill, TargetEvents(cfg, m, t, i))
    decreases |m.opening.targets| - i
  {
    hide TargetHit, Head, Next, ClosesAt, ClosePair, ProfitLockEvents, Reflect;
    if i == |m.opening.targets| {
      MirrorLock(cfg, m, t);
    } else {
      var u := MirrorTick(m.opening.fill, t);
      MirrorStep(cfg, m, t, i);
      TargetStep(cfg, m, t, i);
      TargetStep(cfg, MirrorState(m), u, i);
      MirrorConcat(cfg, m.opening.fill, Head(cfg, m, t, i), Rest(cfg, m, t, i));
      if ClosesAt(cfg, m, t, i) {
        MirrorClose(cfg, m.opening, t.timestamp, m.opening.targets[i], TakeProfit(i + 1), 0.0);
      } else {
        MirrorTargets(cfg, Next(cfg, m, t, i), t, i + 1);
      }
    }
  }

  /** The attempts of an update of the mirror image are the mirror images of the attempts. */
  lemma MirrorProgram(cfg: Config, s: State, t: Tick)
    requires s.opening.fill > 0.0
    ensures Program(cfg, MirrorState(s), MirrorTick(s.opening.fill, t)) ==
            Mirror(cfg, s.opening.fill, Program(cfg, s, t))
  {
    hide StopHit, TargetEvents, ClosePair, Reflect, Observations, Observed, ExcursionPct;
    match s.pending
    case Some(p) => MirrorClose(cfg, s.opening, p.timestamp, p.price, p.reason, p.remaining);
    case None =>
      var m := Observed(s, t);
      MirrorPrices(s, t);
      MirrorObservations(cfg, s, t);
      ObservedSame(s, t);
      if StopHit(s, t) {
        MirrorStop(cfg, m, t);
        MirrorConcat(cfg, s.opening.fill, Observations(s, t), StopEvents(cfg, m, t));
      } else {
        MirrorTargets(cfg, m, t, 0);
        MirrorConcat(cfg, s.opening.fill, Observations(s, t), TargetEvents(cfg, m, t, 0));
      }
  }

  lemma ObservedSame(s: State, t: Tick)
    requires s.opening.fill > 0.0
    ensures Observed(s, t).opening == s.opening
  {
  }

  lemma MirrorStop(cfg: Config, m: State, t: Tick)
    ensures StopEvents(cfg, MirrorState(m), MirrorTick(m.opening.fill, t)) ==
            Mirror(cfg, m.opening.fill, StopEvents(cfg, m, t))
  {
    hide ClosePair, Reflect;
    MirrorClose(cfg, m.opening, t.timestamp, m.stop, StopLoss, m.remaining);
  }

  // ----- whole runs -----

  lemma {:induction false} MirrorReplay(cfg: Config, s: State, log: seq<Event>)
    ensures ApplyAll(MirrorState(s), Mirror(cfg, s.opening.fill, log)) == MirrorState(ApplyAll(s, log))
    ensures ApplyAll(s, log).opening == s.opening
    decreases |log|
  {
    if log != [] {
      var before, last := log[..|log| - 1], log[|log| - 1];
      var fill := s.opening.fill;
      MirrorReplay(cfg, s, before);
      assert Mirror(cfg, fill, log)[..|log| - 1] == Mirror(cfg, fill, before);
      MirrorApply(cfg, ApplyAll(s, before), last);
    }
  }

  lemma MirrorApply(cfg: Config, s: State, e: Event)
    ensures Apply(MirrorState(s), MirrorEvent(cfg, s.opening.fill, e)) == MirrorState(Apply(s, e))
    ensures Apply(s, e).opening == s.opening
  {
    hide MirrorOpening, MirrorFee, Reflect;
    var image := MirrorEvent(cfg, s.opening.fill, e);
    match e.body
    case TradeOpened(_) => assert Apply(s, e) == s;
    case MarkDecision(_, _, _, _, _) => assert Apply(s, e) == s;
    case BreakEvenActivated(_, _) => assert Apply(s, e) == s;
    case Funding(_) => assert Apply(s, e) == s;
    case PaperRejected(_, _, _) => assert Apply(s, e) == s;
    case _ =>
  }

  lemma MirrorOpened(cfg: Config, log: seq<Event>)
    requires Started(log)
    ensures var fill := log[0].body.opening.fill;
            && Started(Mirror(cfg, fill, log))
            && Replay(Mirror(cfg, fill, log)) == MirrorState(Replay(log)) && Replay(log).opening.fill == fill
  {
    var o := log[0].body.opening;
    MirrorReplay(cfg, Initial(o), log);
    assert MirrorState(Initial(o)) == Initial(MirrorOpening(o));
  }

  lemma MirrorJudge(cfg: Config, fill: real, log: seq<Event>, e: Event)
    ensures Judge(Mirror(cfg, fill, log), MirrorEvent(cfg, fill, e)) == Judge(log, e)
  {
    var mirrored := Mirror(cfg, fill, log);
    forall i | 0 <= i < |log|
      ensures ActionOf(mirrored[i]) == ActionOf(MirrorEvent(cfg, fill, e)) <==> ActionOf(log[i]) == ActionOf(e)
      ensures mirrored[i].body == MirrorBody(cfg, fill, e.body) <==> log[i].body == e.body
    {
      SameActionIff(cfg, fill, log[i], e);
      SameEventIff(cfg, fill, log[i], e);
    }
    hide MirrorEvent;
    if HasAction(log, ActionOf(e)) {
      var i :| 0 <= i < |log| && ActionOf(log[i]) == ActionOf(e);
      assert mirrored[i] in mirrored;
    }
    if Repeats(log, e) {
      var i :| 0 <= i < |log| && ActionOf(log[i]) == ActionOf(e) && log[i].body == e.body;
      assert mirrored[i] in mirrored;
    }
  }

  lemma {:induction false} MirrorExec(cfg: Config, fill: real, log: seq<Event>, es: seq<Event>)
    ensures var r := Exec(log, es);
            Exec(Mirror(cfg, fill, log), Mirror(cfg, fill, es)) == Executed(Mirror(cfg, fill, r.log), r.conflict)
    decreases |es|
  {
    hide Judge, MirrorEvent;
    if es != [] {
      assert Mirror(cfg, fill, es)[1..] == Mirror(cfg, fill, es[1..]);
      MirrorJudge(cfg, fill, log, es[0]);
      match Judge(log, es[0])
      case Appended =>
        assert Mirror(cfg, fill, log + [es[0]]) == Mirror(cfg, fill, log) + [MirrorEvent(cfg, fill, es[0])];
        MirrorExec(cfg, fill, log + [es[0]], es[1..]);
      case Duplicate => MirrorExec(cfg, fill, log, es[1..]);
      case Conflict =>
    }
  }

  function MirrorSteps(fill: real, steps: seq<Step>): seq<Step> {
    seq(|steps|, i requires 0 <= i < |steps| => Step(MirrorTick(fill, steps[i].tick), steps[i].appends))
  }

  lemma MirrorAdvance(cfg: Config, log: seq<Event>, step: Step)
    requires Started(log)
    ensures var fill := log[0].body.opening.fill;
            && Started(Mirror(cfg, fill, log))
            && var r := Advance(cfg, log, step);
               Advance(cfg, Mirror(cfg, fill, log), Step(MirrorTick(fill, step.tick), step.appends)) ==
               Executed(Mirror(cfg, fill, r.log), r.conflict)
  {
    hide Exec, Program, ApplyAll, MirrorTick;
    var fill := log[0].body.opening.fill;
    MirrorOpened(cfg, log);
    if !Replay(log).closed {
      var s := Replay(log);
      MirrorProgram(cfg, s, step.tick);
      var es := Program(cfg, s, step.tick);
      assert Take(Mirror(cfg, fill, es), step.appends) == Mirror(cfg, fill, Take(es, step.appends));
      MirrorExec(cfg, fill, log, Take(es, step.appends));
    }
  }

  /**
   Mirror images: reflect the market and the trade about the fill, and every run of updates
   and crashes ends in the reflected log, with the same conflicts.
   */
  lemma {:induction false} RunsMirror(cfg: Config, log: seq<Event>, steps: seq<Step>)
    requires Started(log)
    ensures var fill := log[0].body.opening.fill;
            && Started(Mirror(cfg, fill, log))
            && var r := RunTrade(cfg, log, steps);
               RunTrade(cfg, Mirror(cfg, fill, log), MirrorSteps(fill, steps)) ==
               Executed(Mirror(cfg, fill, r.log), r.conflict)
    decreases |steps|
  {
    hide Advance, MirrorTick;
    var fill := log[0].body.opening.fill;
    MirrorOpened(cfg, log);
    if steps != [] {
      MirrorAdvance(cfg, log, steps[0]);
      assert MirrorSteps(fill, steps)[1..] == MirrorSteps(fill, steps[1..]);
      RunsMirror(cfg, Advance(cfg, log, steps[0]).log, steps[1..]);
    }
  }

  lemma MirrorExit(cfg: Config, fill: real, e: Event)
    ensures EventGross(MirrorEvent(cfg, fill, e)) == EventGross(e)
    ensures var exit := e.body.PartialExit? || e.body.TradeClosed?;
            var distance := if exit then (e.body.price - fill) * e.body.size else 0.0;
            EventFee(MirrorEvent(cfg, fill, e)) == EventFee(e) - distance * cfg.roundtripFeeBps / 10000.0
  {
    if e.body.PartialExit? || e.body.TradeClosed? {
      var distance := (e.body.price - fill) * e.body.size;
      assert (fill - e.body.price) * e.body.size == -distance;
      assert -distance * cfg.roundtripFeeBps == -(distance * cfg.roundtripFeeBps);
    }
  }

  lemma {:induction false} MirrorSums(cfg: Config, fill: real, log: seq<Event>)
    ensures Gross(Mirror(cfg, fill, log)) == Gross(log)
    ensures ExitFees(Mirror(cfg, fill, log)) ==
            ExitFees(log) - Distance(fill, log) * cfg.roundtripFeeBps / 10000.0
    decreases |log|
  {
    hide MirrorEvent, EventGross, EventFee, Gross, ExitFees, Distance;
    if log == [] {
      NothingSums(fill);
      assert Mirror(cfg, fill, log) == [];
    } else {
      var before, last := log[..|log| - 1], log[|log| - 1];
      assert Mirror(cfg, fill, log) == Mirror(cfg, fill, before) + [MirrorEvent(cfg, fill, last)];
      assert log == before + [last];
      MirrorSums(cfg, fill, before);
      SumsPush(before, last);
      SumsPush(Mirror(cfg, fill, before), MirrorEvent(cfg, fill, last));
      AmountsPush(fill, before, last);
      MirrorExit(cfg, fill, last);
      Distributes(cfg.roundtripFeeBps / 10000.0, Distance(fill, before),
        if last.body.PartialExit? || last.body.TradeClosed? then (last.body.price - fill) * last.body.size else 0.0);
      RateOf(Distance(fill, before), cfg.roundtripFeeBps);
      RateOf(Distance(fill, log), cfg.roundtripFeeBps);
      RateOf(Distance(fill, log) - Distance(fill, before), cfg.roundtripFeeBps);
    }
  }

  lemma NothingSums(fill: real)
    ensures Gross([]) == ExitFees([]) == Distance(fill, []) == 0.0
  {
  }

  lemma RateOf(x: real, bps: real)
    ensures x * bps / 10000.0 == bps / 10000.0 * x
  {
  }

  /**
   What a trade and its mirror image are worth: the same gross, and fees that differ by the
   round-trip rate on what the exits gained in price.
   */
  lemma MirroredResult(cfg: Config, timestamp: int, o: Opening, steps: seq<Step>)
    requires o.fill > 0.0
    ensures var image := RunTrade(cfg, OpenLog(timestamp, MirrorOpening(o)), MirrorSteps(o.fill, steps));
            var run := RunTrade(cfg, OpenLog(timestamp, o), steps);
            && image == Executed(Mirror(cfg, o.fill, run.log), run.conflict)
            && Gross(image.log) == Gross(run.log)
            && ExitFees(image.log) == ExitFees(run.log) - Distance(o.fill, run.log) * cfg.roundtripFeeBps / 10000.0
  {
    hide MirrorTick, Gross, ExitFees, Distance, RunTrade;
    RunsMirror(cfg, OpenLog(timestamp, o), steps);
    assert Mirror(cfg, o.fill, OpenLog(timestamp, o)) == OpenLog(timestamp, MirrorOpening(o));
    MirrorSums(cfg, o.fill, RunTrade(cfg, OpenLog(timestamp, o), steps).log);
  }
}
