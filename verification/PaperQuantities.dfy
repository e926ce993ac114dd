/**
 Conservation of quantities, and exactly which settings keep it.  A share that is not
 positive writes no partial exit; a negative one also gives size back in memory, and the
 last target then closes more than was opened.  Conflicts do no harm: they append nothing.
 */
module PaperQuantities {
  import opened Wrappers
  import opened PaperEvents
  import opened PaperLifecycle
  import opened PaperProtocol
  import opened PaperCrashes
  import opened PaperGuarantees
  import opened PaperReplay

  /** Shares under which no target gives size back. */
  predicate SharesNotNegative(cfg: Config) {
    cfg.tp1ClosePct >= 0.0 && cfg.tp2ClosePct >= 0.0
  }

  // ----- attempts that keep the quantities, whatever the store answers -----

  /** Whether an event keeps the quantities when it is appended. */
  predicate Fair(s: State, e: Event) {
    match e.body
    case PartialExit(_, size, _, _, _, _) => !s.closed && s.pending.None? && 0.0 < size <= s.remaining
    case SlTouch(_, _) => !s.closed
    case ExitReasonTransition(to, _) => !s.closed && (to.TakeProfit? ==> s.remaining <= EPSILON)
    case TradeClosed(_, size, _, _, _) => !s.closed && (size == s.remaining || (size == 0.0 && s.remaining <= EPSILON))
    case _ => true
  }

  lemma FairStep(s: State, e: Event)
    requires QuantityFacts(s) && Fair(s, e)
    ensures QuantityFacts(Apply(s, e))
  {
  }

  /** Every attempt that gets appended is fair; a conflict ends the attempts. */
  ghost predicate FairAll(log: seq<Event>, es: seq<Event>)
    requires Opened(log)
    decreases |es|
  {
    es == [] ||
    match Judge(log, es[0])
    case Appended => Fair(Replay(log), es[0]) && FairAll(log + [es[0]], es[1..])
    case Duplicate => FairAll(log, es[1..])
    case Conflict => true
  }

  lemma {:induction false} FairPrefix(log: seq<Event>, es: seq<Event>, k: nat)
    requires Opened(log) && QuantityFacts(Replay(log)) && FairAll(log, es) && k <= |es|
    ensures Opened(Exec(log, es[..k]).log) && QuantityFacts(Replay(Exec(log, es[..k]).log))
    decreases |es|
  {
    hide QuantityFacts, Fair, Apply, HasAction, Repeats, ApplyAll;
    if k == 0 {
      assert es[..k] == [];
    } else {
      assert es[..k][0] == es[0] && es[..k][1..] == es[1..][..k - 1];
      match Judge(log, es[0])
      case Appended =>
        ReplayPush(log, es[0]);
        FairStep(Replay(log), es[0]);
        FairPrefix(log + [es[0]], es[1..], k - 1);
      case Duplicate => FairPrefix(log, es[1..], k - 1);
      case Conflict =>
    }
  }

  lemma {:induction false} FairConcat(log: seq<Event>, a: seq<Event>, b: seq<Event>)
    requires Opened(log) && FairAll(log, a) && Opened(Exec(log, a).log)
    requires Exec(log, a).conflict || FairAll(Exec(log, a).log, b)
    ensures FairAll(log, a + b)
    decreases |a|
  {
    hide Fair, HasAction, Repeats, ApplyAll;
    if a == [] {
      assert a + b == b;
    } else {
      assert (a + b)[0] == a[0] && (a + b)[1..] == a[1..] + b;
      match Judge(log, a[0])
      case Appended => FairConcat(log + [a[0]], a[1..], b);
      case Duplicate => FairConcat(log, a[1..], b);
      case Conflict =>
    }
  }

  /** What quantities depend on. */
  predicate SameSize(b: State, r: State) {
    && r.opening == b.opening && r.remaining == b.remaining && r.exited == b.exited && r.completed == b.completed
    && r.pending == b.pending && r.closed == b.closed
  }

  predicate Inert(e: Event) {
    !e.body.PartialExit? && !e.body.SlTouch? && !e.body.ExitReasonTransition? && !e.body.TradeClosed?
  }

  lemma InertStep(s: State, e: Event)
    requires Inert(e)
    ensures Fair(s, e) && SameSize(s, Apply(s, e))
  {
  }

  lemma {:induction false} InertFair(log: seq<Event>, es: seq<Event>)
    requires Opened(log) && forall e | e in es :: Inert(e)
    ensures FairAll(log, es) && Opened(Exec(log, es).log) && SameSize(Replay(log), Replay(Exec(log, es).log))
    decreases |es|
  {
    hide Inert, Fair, Apply, HasAction, Repeats, ApplyAll;
    if es != [] {
      InertStep(Replay(log), es[0]);
      ReplayPush(log, es[0]);
      match Judge(log, es[0])
      case Appended => InertFair(log + [es[0]], es[1..]);
      case Duplicate => InertFair(log, es[1..]);
      case Conflict =>
    }
  }

  /** The keys that matter for quantities can be read off the fold of any log. */
  lemma {:induction false} FoldKeys(s: State, log: seq<Event>)
    ensures forall i: nat :: HasAction(log, Partial(i + 1)) ==> i in ApplyAll(s, log).completed
    ensures HasAction(log, TerminalClose) ==> ApplyAll(s, log).closed
    decreases |log|
  {
    if log != [] {
      var before, last := log[..|log| - 1], log[|log| - 1];
      FoldKeys(s, before);
      HasActionPush(before, last);
      assert before + [last] == log;
      hide HasAction;
    }
  }

  /** A single fair attempt. */
  lemma OneFair(log: seq<Event>, e: Event) returns (next: seq<Event>)
    requires Opened(log) && (!HasAction(log, ActionOf(e)) ==> Fair(Replay(log), e))
    ensures FairAll(log, [e]) && next == Exec(log, [e]).log && Opened(next)
    ensures Replay(next) == if HasAction(log, ActionOf(e)) then Replay(log) else Apply(Replay(log), e)
  {
    hide Fair, HasAction, Repeats, ApplyAll;
    next := Exec(log, [e]).log;
    assert [e][1..] == [];
    assert Exec(log, []) == Executed(log, false) && Exec(log + [e], []) == Executed(log + [e], false);
    assert FairAll(log, []) && FairAll(log + [e], []);
    ReplayPush(log, e);
  }

  lemma CloseFair(cfg: Config, log: seq<Event>, timestamp: int, price: real, reason: ExitReason, size: real)
    requires Opened(log) && !Replay(log).closed && (reason.TakeProfit? ==> Replay(log).remaining <= EPSILON)
    requires size == Replay(log).remaining || (size == 0.0 && Replay(log).remaining <= EPSILON)
    ensures FairAll(log, ClosePair(cfg, Replay(log).opening, timestamp, price, reason, size))
  {
    hide ApplyAll, FairAll, Exec, HasAction, Pnl, Fee;
    var pair := ClosePair(cfg, Replay(log).opening, timestamp, price, reason, size);
    var mid := OneFair(log, pair[0]);
    var last := OneFair(mid, pair[1]);
    FairConcat(log, [pair[0]], [pair[1]]);
    assert [pair[0]] + [pair[1]] == pair;
  }

  /** Memory and replay agree on what the targets from i on do to the quantities. */
  ghost predicate Held(m: State, s: State, i: nat) {
    && m.opening == s.opening && m.remaining == s.remaining && s.pending.None? && !s.closed
    && QuantityFacts(s) && (forall j: nat | j >= i :: j in m.completed <==> j in s.completed)
  }

  lemma SizeInRange(cfg: Config, m: State, i: nat)
    requires SharesNotNegative(cfg) && i < |m.opening.targets| && m.opening.size > 0.0 && m.remaining >= 0.0
    ensures 0.0 <= CloseSize(cfg, m, i) <= m.remaining
  {
    assert m.opening.size * (cfg.tp1ClosePct / 100.0) >= 0.0 && m.opening.size * (cfg.tp2ClosePct / 100.0) >= 0.0;
  }

  lemma PartialFair(cfg: Config, log: seq<Event>, m: State, t: Tick, i: nat) returns (next: seq<Event>)
    requires Opened(log) && Held(m, Replay(log), i) && i < |m.opening.targets| && i !in m.completed
    requires SharesNotNegative(cfg) && m.opening.size > 0.0
    ensures var es := PartialEvents(cfg, m, t, i);
            FairAll(log, es) && next == Exec(log, es).log && Opened(next)
    ensures Held(m.(remaining := m.remaining - CloseSize(cfg, m, i)), Replay(next), i + 1)
  {
    hide ApplyAll, FairAll, Exec, HasAction, CloseSize, Pnl, Fee;
    SizeInRange(cfg, m, i);
    if CloseSize(cfg, m, i) <= 0.0 {
      next := log;
      InertFair(log, []);
      ExecNothing(log);
    } else {
      FoldKeys(Initial(log[0].body.opening), log);
      next := OneFair(log, PartialEvents(cfg, m, t, i)[0]);
    }
  }

  lemma ExecNothing(log: seq<Event>)
    ensures Exec(log, []) == Executed(log, false)
  {
  }

  lemma FillFair(cfg: Config, log: seq<Event>, m: State, t: Tick, i: nat) returns (next: seq<Event>)
    requires Opened(log) && Held(m, Replay(log), i) && i < |m.opening.targets| && i !in m.completed
    requires SharesNotNegative(cfg) && m.opening.size > 0.0
    ensures var es := FillEvents(cfg, m, t, i);
            && FairAll(log, es) && Opened(Exec(log, es).log)
            && (!Exec(log, es).conflict ==>
                  next == Exec(log, es).log && Opened(next) && Held(AfterFill(cfg, m, i), Replay(next), i + 1))
  {
    hide ApplyAll, FairAll, Exec, HasAction, CloseSize, Pnl, Fee, PartialEvents, FeeBreakEven, ArmsBreakEven;
    var touch, partial, be := TouchEvents(m, t, i), PartialEvents(cfg, m, t, i), BreakEvenEvents(cfg, m, t, i);
    InertFair(log, touch);
    var l1 := Exec(log, touch).log;
    var l2 := PartialFair(cfg, l1, m, t, i);
    InertFair(l2, be);
    next := Exec(l2, be).log;
    FairConcat(log, touch, partial);
    ExecConcat(log, touch, partial);
    FairConcat(log, touch + partial, be);
    ExecConcat(log, touch + partial, be);
  }

  lemma {:induction false} TargetsFair(cfg: Config, log: seq<Event>, m: State, t: Tick, i: nat)
    requires Opened(log) && Held(m, Replay(log), i) && i <= |m.opening.targets| && m.opening.fill > 0.0
    requires SharesNotNegative(cfg) && m.opening.size > 0.0
    ensures FairAll(log, TargetEvents(cfg, m, t, i))
    decreases |m.opening.targets| - i
  {
    hide ApplyAll, FairAll, Exec, Pnl, Fee, FeeBreakEven, TargetHit, FillEvents, ClosePair, QuantityFacts;
    if i == |m.opening.targets| {
      InertFair(log, ProfitLockEvents(cfg, m, t));
    } else if i in m.completed {
      if m.remaining <= EPSILON {
        CloseFair(cfg, log, t.timestamp, m.opening.targets[i], TakeProfit(i + 1), 0.0);
      } else {
        TargetsFair(cfg, log, m, t, i + 1);
      }
    } else if i !in m.touched && !TargetHit(m.opening, t, i) {
      TargetsFair(cfg, log, m, t, i + 1);
    } else {
      var filled := AfterFill(cfg, m, i);
      var next := FillFair(cfg, log, m, t, i);
      FillComesNext(cfg, m, t, i);
      if !Exec(log, FillEvents(cfg, m, t, i)).conflict {
        if filled.remaining <= EPSILON {
          CloseFair(cfg, next, t.timestamp, m.opening.targets[i], TakeProfit(i + 1), 0.0);
        } else {
          TargetsFair(cfg, next, filled, t, i + 1);
        }
      }
      FairConcat(log, FillEvents(cfg, m, t, i), AfterFillEvents(cfg, m, t, i));
    }
  }

  lemma StopFair(cfg: Config, log: seq<Event>, m: State, t: Tick)
    requires Opened(log) && Held(m, Replay(log), 0)
    ensures FairAll(log, StopEvents(cfg, m, t))
  {
    hide ApplyAll, FairAll, Exec, ClosePair, HasAction;
    var touch := Event(t.timestamp, SlTouch(m.stop, t.mark));
    var next := OneFair(log, touch);
    CloseFair(cfg, next, t.timestamp, m.stop, StopLoss, m.remaining);
    FairConcat(log, [touch], ClosePair(cfg, m.opening, t.timestamp, m.stop, StopLoss, m.remaining));
  }

  lemma ProgramFair(cfg: Config, log: seq<Event>, t: Tick)
    requires Opened(log) && QuantityFacts(Replay(log)) && !Replay(log).closed && SharesNotNegative(cfg)
    requires Replay(log).opening.fill > 0.0 && Replay(log).opening.size > 0.0
    ensures FairAll(log, Program(cfg, Replay(log), t))
  {
    hide ApplyAll, FairAll, Exec, TargetEvents, StopHit, ClosePair, ExcursionPct, StopEvents;
    var s := Replay(log);
    match s.pending
    case Some(p) =>
      CloseFair(cfg, log, p.timestamp, p.price, p.reason, p.remaining);
    case None =>
      var m, seen := Observed(s, t), Observations(s, t);
      InertFair(log, seen);
      var next := Exec(log, seen).log;
      if StopHit(s, t) {
        StopFair(cfg, next, m, t);
        FairConcat(log, seen, StopEvents(cfg, m, t));
      } else {
        TargetsFair(cfg, next, m, t, 0);
        FairConcat(log, seen, TargetEvents(cfg, m, t, 0));
      }
  }

  lemma {:induction false} RunKeepsQuantities(cfg: Config, log: seq<Event>, steps: seq<Step>)
    requires Started(log) && QuantityFacts(Replay(log)) && log[0].body.opening.size > 0.0 && SharesNotNegative(cfg)
    ensures QuantityFacts(Replay(RunTrade(cfg, log, steps).log))
    decreases |steps|
  {
    hide QuantityFacts, ApplyAll, Exec, Program, FairAll;
    if steps != [] {
      var s, step := Replay(log), steps[0];
      ApplyKeepsOpening(Initial(log[0].body.opening), log);
      if !s.closed {
        var program := Program(cfg, s, step.tick);
        ProgramFair(cfg, log, step.tick);
        FairPrefix(log, program, |Take(program, step.appends)|);
        assert program[..|program|] == program;
      }
      RunKeepsQuantities(cfg, Advance(cfg, log, step).log, steps[1..]);
    }
  }

  /** What is opened is what is exited plus what remains; once closed, up to the tolerance. */
  predicate Balanced(size: real, s: State) {
    if s.closed then 0.0 <= size - s.exited <= EPSILON else size == s.exited + s.remaining && s.remaining >= 0.0
  }

  /** Quantity conservation over every run from the opening of a trade, conflicts included. */
  lemma RunConserves(cfg: Config, timestamp: int, o: Opening, steps: seq<Step>)
    requires ValidOpening(o) && SharesNotNegative(cfg)
    ensures Balanced(o.size, Replay(RunTrade(cfg, OpenLog(timestamp, o), steps).log))
  {
    hide RunTrade, ApplyAll;
    var log := OpenLog(timestamp, o);
    ReplayOpening(log);
    RunKeepsQuantities(cfg, log, steps);
    ApplyKeepsOpening(Initial(o), RunTrade(cfg, log, steps).log);
  }

  // ----- negative shares -----

  /** Attempts none of which meets its action, in the log or among the others, are all appended. */
  lemma {:induction false} ExecAllNew(log: seq<Event>, es: seq<Event>)
    requires forall e | e in es :: !HasAction(log, ActionOf(e))
    requires forall i, j | 0 <= i < j < |es| :: ActionOf(es[i]) != ActionOf(es[j])
    ensures Exec(log, es) == Executed(log + es, false)
    decreases |es|
  {
    hide HasAction, Repeats;
    if es == [] {
      assert log + es == log;
    } else {
      var next := log + [es[0]];
      assert es[0] in es;
      forall e | e in es[1..] ensures !HasAction(next, ActionOf(e)) {
        HasActionPush(log, es[0]);
        var k :| 0 <= k < |es| - 1 && es[1..][k] == e;
        assert es[k + 1] == e && e in es;
      }
      forall i, j | 0 <= i < j < |es| - 1 ensures ActionOf(es[1..][i]) != ActionOf(es[1..][j]) {
        assert es[1..][i] == es[i + 1] && es[1..][j] == es[j + 1];
      }
      ExecAllNew(next, es[1..]);
      assert next + es[1..] == log + es;
    }
  }

  ghost predicate Overdraws(cfg: Config, timestamp: int, o: Opening, steps: seq<Step>)
    requires ValidOpening(o)
  {
    Replay(RunTrade(cfg, OpenLog(timestamp, o), steps).log).exited > o.size
  }

  /** Some run of the trade exits more than was opened. */
  ghost predicate CanOverdraw(cfg: Config, o: Opening) {
    ValidOpening(o) && exists timestamp, steps :: Overdraws(cfg, timestamp, o, steps)
  }

  /** A first update that attempts inert events and then a partial of more than was opened. */
  lemma FirstUpdateOverdraws(cfg: Config, o: Opening, t: Tick, es: seq<Event>, last: Event, rest: seq<Event>)
    requires ValidOpening(o) && Program(cfg, Initial(o), t) == es + [last] + rest
    requires last.body.PartialExit? && last.body.size > o.size && forall e | e in es :: Inert(e)
    requires forall e | e in es + [last] :: ActionOf(e) != Open
    requires forall i, j | 0 <= i < j <= |es| :: ActionOf((es + [last])[i]) != ActionOf((es + [last])[j])
    ensures Overdraws(cfg, 0, o, [Step(t, |es| + 1)])
  {
    hide Program, Exec, ApplyAll, FairAll, Inert;
    var log, step := OpenLog(0, o), Step(t, |es| + 1);
    ReplayOpening(log);
    ExecAllNew(log, es + [last]);
    assert forall e | e in es :: e in es + [last];
    assert forall i | 0 <= i < |es| :: (es + [last])[i] == es[i];
    ExecAllNew(log, es);
    InertFair(log, es);
    assert Take(es + [last] + rest, |es| + 1) == es + [last];
    assert log + (es + [last]) == (log + es) + [last];
    ReplayPush(log + es, last);
    assert [step][1..] == [];
    assert RunTrade(cfg, Advance(cfg, log, step).log, []) == Executed(Advance(cfg, log, step).log, false);
  }

  const THROUGH := Tick(1, 105.0, Some(Range(121.0, 101.0)))

  /** The observations of the tick on a fresh long trade filled at 100. */
  lemma FirstObservations(o: Opening)
    requires o.fill == 100.0 && o.direction.Long?
    ensures var mark := Event(1, MarkDecision(105.0, 121.0, 101.0, o.stop, o.size));
            Observations(Initial(o), THROUGH) == [mark, Event(1, MfeUpdate(121.0, 21.0))]
  {
    assert ExcursionPct(o, 121.0) == 21.0 && ExcursionPct(o, 101.0) == 1.0;
  }

  /** What the last target closes: all that memory has left after a negative share was given back. */
  function Overdraft(cfg: Config, o: Opening, share: real, level: nat): Event {
    var size := 1.0 - share / 100.0;
    Event(1, PartialExit(120.0, size, Pnl(o, 120.0, size), Fee(cfg, 120.0, size), TakeProfit(level), level))
  }

  const TWO_TARGETS :=
    Opening("s", "BTCUSDT", Long, "15m", 100.0, 100.0, 90.0, [110.0, 120.0], 1.0, 10.0, 10.0, 0.0, 0, "", "")

  lemma FirstShareProgram(cfg: Config) returns (es: seq<Event>, rest: seq<Event>)
    requires cfg.tp1ClosePct < 0.0
    ensures Program(cfg, Initial(TWO_TARGETS), THROUGH) == es + [Overdraft(cfg, TWO_TARGETS, cfg.tp1ClosePct, 2)] + rest
    ensures |es| == 6 && es[..2] == Observations(Initial(TWO_TARGETS), THROUGH)
    ensures es[2].body == TpTouch(1, 110.0, 105.0) && es[3].body.BreakEvenActivated?
    ensures es[4].body.StopUpdated? && es[4].body.why == Tp1FeeBreakEven && es[5].body == TpTouch(2, 120.0, 105.0)
  {
    hide Pnl, Fee, FeeBreakEven, ClosePair, ExcursionPct;
    FirstObservations(TWO_TARGETS);
    var m := Observed(Initial(TWO_TARGETS), THROUGH);
    var after := AfterFill(cfg, m, 0);
    var be := BreakEvenEvents(cfg, m, THROUGH, 0);
    assert CloseSize(cfg, m, 0) == cfg.tp1ClosePct / 100.0;
    assert FillEvents(cfg, m, THROUGH, 0) == [Event(1, TpTouch(1, 110.0, 105.0))] + be;
    assert FillEvents(cfg, after, THROUGH, 1)
        == [Event(1, TpTouch(2, 120.0, 105.0)), Overdraft(cfg, TWO_TARGETS, cfg.tp1ClosePct, 2)];
    FillComesNext(cfg, m, THROUGH, 0);
    FillComesNext(cfg, after, THROUGH, 1);
    es := Observations(Initial(TWO_TARGETS), THROUGH) + [Event(1, TpTouch(1, 110.0, 105.0))] + be
      + [Event(1, TpTouch(2, 120.0, 105.0))];
    rest := AfterFillEvents(cfg, after, THROUGH, 1);
  }

  /** With a negative TP1 share one update exits more than was opened. */
  lemma NegativeFirstShareOverdraws(cfg: Config)
    requires cfg.tp1ClosePct < 0.0
    ensures CanOverdraw(cfg, TWO_TARGETS)
  {
    hide Program, Overdraws, Observations;
    FirstObservations(TWO_TARGETS);
    var es, rest := FirstShareProgram(cfg);
    assert es[0] == es[..2][0] && es[1] == es[..2][1];
    FirstUpdateOverdraws(cfg, TWO_TARGETS, THROUGH, es, Overdraft(cfg, TWO_TARGETS, cfg.tp1ClosePct, 2), rest);
    assert Overdraws(cfg, 0, TWO_TARGETS, [Step(THROUGH, 7)]);
  }

  /** A trade whose last two targets are nearer than the first. */
  const THREE_TARGETS :=
    Opening("s", "BTCUSDT", Long, "15m", 100.0, 100.0, 90.0, [200.0, 110.0, 120.0], 1.0, 10.0, 10.0, 0.0, 0, "", "")

  lemma SecondShareProgram(cfg: Config) returns (es: seq<Event>, rest: seq<Event>)
    requires cfg.tp2ClosePct < 0.0
    ensures Program(cfg, Initial(THREE_TARGETS), THROUGH)
         == es + [Overdraft(cfg, THREE_TARGETS, cfg.tp2ClosePct, 3)] + rest
    ensures |es| == 4 && es[..2] == Observations(Initial(THREE_TARGETS), THROUGH)
    ensures es[2].body == TpTouch(2, 110.0, 105.0) && es[3].body == TpTouch(3, 120.0, 105.0)
  {
    hide Pnl, Fee, FeeBreakEven, ClosePair, ExcursionPct;
    FirstObservations(THREE_TARGETS);
    var m := Observed(Initial(THREE_TARGETS), THROUGH);
    var after := AfterFill(cfg, m, 1);
    assert CloseSize(cfg, m, 1) == cfg.tp2ClosePct / 100.0;
    assert FillEvents(cfg, m, THROUGH, 1) == [Event(1, TpTouch(2, 110.0, 105.0))];
    assert FillEvents(cfg, after, THROUGH, 2)
        == [Event(1, TpTouch(3, 120.0, 105.0)), Overdraft(cfg, THREE_TARGETS, cfg.tp2ClosePct, 3)];
    assert TargetEvents(cfg, m, THROUGH, 0) == TargetEvents(cfg, m, THROUGH, 1);
    FillComesNext(cfg, m, THROUGH, 1);
    FillComesNext(cfg, after, THROUGH, 2);
    es := Observations(Initial(THREE_TARGETS), THROUGH)
      + [Event(1, TpTouch(2, 110.0, 105.0)), Event(1, TpTouch(3, 120.0, 105.0))];
    rest := AfterFillEvents(cfg, after, THROUGH, 2);
  }

  /** With a negative TP2 share one update exits more than was opened. */
  lemma NegativeSecondShareOverdraws(cfg: Config)
    requires cfg.tp2ClosePct < 0.0
    ensures CanOverdraw(cfg, THREE_TARGETS)
  {
    hide Program, Overdraws, Observations;
    FirstObservations(THREE_TARGETS);
    var es, rest := SecondShareProgram(cfg);
    assert es[0] == es[..2][0] && es[1] == es[..2][1];
    FirstUpdateOverdraws(cfg, THREE_TARGETS, THROUGH, es, Overdraft(cfg, THREE_TARGETS, cfg.tp2ClosePct, 3), rest);
    assert Overdraws(cfg, 0, THREE_TARGETS, [Step(THROUGH, 5)]);
  }

  ghost predicate Keeps(cfg: Config, timestamp: int, o: Opening, steps: seq<Step>)
    requires ValidOpening(o)
  {
    Balanced(o.size, Replay(RunTrade(cfg, OpenLog(timestamp, o), steps).log))
  }

  lemma KeepsNeverOverdraws(cfg: Config, timestamp: int, o: Opening, steps: seq<Step>)
    requires ValidOpening(o)
    ensures Keeps(cfg, timestamp, o, steps) ==> !Overdraws(cfg, timestamp, o, steps)
  {
    hide RunTrade, ApplyAll;
  }

  /**
   Which settings keep quantities, for every trade, candles and crashes: none exits more
   than was opened if and only if neither share is negative, and then they all balance.
   */
  lemma NeverOverdrawsIff(cfg: Config)
    ensures (forall o :: !CanOverdraw(cfg, o)) <==> SharesNotNegative(cfg)
    ensures (forall timestamp, o, steps | ValidOpening(o) :: Keeps(cfg, timestamp, o, steps)) <==>
      SharesNotNegative(cfg)
  {
    hide RunTrade, ApplyAll, Balanced, Overdraws;
    if SharesNotNegative(cfg) {
      forall timestamp, o, steps | ValidOpening(o)
        ensures !Overdraws(cfg, timestamp, o, steps) && Keeps(cfg, timestamp, o, steps)
      {
        RunConserves(cfg, timestamp, o, steps);
        KeepsNeverOverdraws(cfg, timestamp, o, steps);
      }
    } else {
      var o := SomeTradeOverdraws(cfg);
      var timestamp, steps :| Overdraws(cfg, timestamp, o, steps);
      KeepsNeverOverdraws(cfg, timestamp, o, steps);
      assert !Keeps(cfg, timestamp, o, steps);
    }
  }

  lemma SomeTradeOverdraws(cfg: Config) returns (o: Opening)
    requires !SharesNotNegative(cfg)
    ensures CanOverdraw(cfg, o)
  {
    hide CanOverdraw;
    if cfg.tp1ClosePct < 0.0 {
      o := TWO_TARGETS;
      NegativeFirstShareOverdraws(cfg);
    } else {
      o := THREE_TARGETS;
      NegativeSecondShareOverdraws(cfg);
    }
  }
}
