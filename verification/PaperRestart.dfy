/**
 Restarts at the crash points that are no arrival at a target: among the observations,
 between a partial exit and its stop update, after the profit lock, and after the partial
 that takes everything.  Only the last of these can change what is written besides a lost
 stop move: the scan starts over at the first target, and closes at the first it meets.
 */
module PaperRestart {
  import opened Wrappers
  import opened PaperEvents
  import opened PaperLifecycle
  import opened PaperProtocol
  import opened PaperCrashes
  import opened PaperGuarantees
  import opened PaperReplay
  import opened PaperRecovery

  // ----- trades with nothing left and no exit reason -----

  /** A target that an update does not pass by: completed, touched before, or hit now. */
  predicate Reached(s: State, t: Tick, j: nat)
    requires j < |s.opening.targets|
  {
    j in s.completed || j in s.touched || TargetHit(s.opening, t, j)
  }

  ghost predicate NoneReached(s: State, t: Tick, i: nat, j: nat)
    requires j <= |s.opening.targets|
  {
    forall k: nat | i <= k < j :: !Reached(s, t, k)
  }

  /** The close at target j, after its own touch and the dust it takes, if it was not completed yet. */
  function FinalEvents(cfg: Config, s: State, t: Tick, j: nat): seq<Event>
    requires j < |s.opening.targets|
  {
    (if j in s.completed then [] else FillEvents(cfg, s, t, j))
    + ClosePair(cfg, s.opening, t.timestamp, s.opening.targets[j], TakeProfit(j + 1), 0.0)
  }

  lemma {:induction false} SettledTargets(cfg: Config, s: State, t: Tick, i: nat, j: nat)
    requires s.opening.fill > 0.0 && s.opening.size > 0.0 && 0.0 <= s.remaining <= EPSILON && Sane(cfg)
    requires i <= j < |s.opening.targets| && Reached(s, t, j) && NoneReached(s, t, i, j)
    ensures TargetEvents(cfg, s, t, i) == FinalEvents(cfg, s, t, j)
    decreases j - i
  {
    hide Pnl, Fee, FeeBreakEven, TargetHit, ClosePair, FillEvents;
    if i < j {
      assert !Reached(s, t, i);
      SettledTargets(cfg, s, t, i + 1, j);
    } else if j !in s.completed {
      assert s.opening.size * (cfg.tp1ClosePct / 100.0) >= 0.0 && s.opening.size * (cfg.tp2ClosePct / 100.0) >= 0.0;
      assert CloseSize(cfg, s, j) >= 0.0;
      assert AfterFill(cfg, s, j).remaining == s.remaining - CloseSize(cfg, s, j);
      FillComesNext(cfg, s, t, j);
    }
  }

  lemma {:induction false} LowestReached(s: State, t: Tick, n: nat) returns (j: nat)
    requires n < |s.opening.targets| && Reached(s, t, n)
    ensures j <= n && Reached(s, t, j) && NoneReached(s, t, 0, j)
  {
    hide Reached;
    j := 0;
    while !Reached(s, t, j)
      invariant j <= n && NoneReached(s, t, 0, j)
      decreases n - j
    {
      j := j + 1;
    }
  }

  /** An open trade of which a partial took all that was left, without a persisted exit reason. */
  ghost predicate Settled(cfg: Config, log: seq<Event>) {
    && Legal(cfg, log) && Started(log) && !Replay(log).closed && Replay(log).pending.None?
    && Replay(log).remaining <= EPSILON && Replay(log).completed != {}
  }

  lemma SettledFacts(cfg: Config, log: seq<Event>)
    requires Settled(cfg, log)
    ensures var s := Replay(log);
            && s.opening.fill > 0.0 && s.opening.size > 0.0 && 0.0 <= s.remaining <= EPSILON
            && forall i | i in s.completed :: i < |s.opening.targets|
  {
    LegalKeyFacts(cfg, log);
    LegalQuantityFacts(cfg, log);
    hide Legal, ApplyAll, HasAction;
  }

  /**
   What an update does with such a trade: it stops out, or it closes at the lowest target
   that is completed, touched or hit, which need not be the one that took the rest.
   */
  lemma SettledProgram(cfg: Config, log: seq<Event>, t: Tick) returns (j: nat)
    requires Settled(cfg, log) && Sane(cfg)
    ensures Replay(log).opening.fill > 0.0 && j < |Replay(log).opening.targets|
    ensures Reached(Replay(log), t, j) && NoneReached(Replay(log), t, 0, j)
    ensures var s := Replay(log);
            var m := Observed(s, t);
            Program(cfg, s, t)
              == Observations(s, t) + (if StopHit(s, t) then StopEvents(cfg, m, t) else FinalEvents(cfg, m, t, j))
  {
    hide Legal, ApplyAll, TargetEvents, FinalEvents, StopEvents, Observations, StopHit, TargetHit, ExcursionPct;
    SettledFacts(cfg, log);
    var s := Replay(log);
    var n :| n in s.completed;
    j := LowestReached(s, t, n);
    var m := Observed(s, t);
    forall k: nat | k <= j ensures Reached(m, t, k) == Reached(s, t, k) {
    }
    SettledTargets(cfg, m, t, 0, j);
  }

  ghost predicate WritesExit(es: seq<Event>, reason: ExitReason, price: real) {
    exists e | e in es :: e.body == ExitReasonTransition(reason, price)
  }

  lemma FinalExit(cfg: Config, s: State, t: Tick, j: nat)
    requires j < |s.opening.targets|
    ensures forall reason, price ::
      WritesExit(FinalEvents(cfg, s, t, j), reason, price) <==>
        reason == TakeProfit(j + 1) && price == s.opening.targets[j]
  {
    hide Pnl, Fee, FeeBreakEven, CloseSize;
    var pair := ClosePair(cfg, s.opening, t.timestamp, s.opening.targets[j], TakeProfit(j + 1), 0.0);
    var before := if j in s.completed then [] else FillEvents(cfg, s, t, j);
    assert forall e | e in before :: !e.body.ExitReasonTransition?;
    assert FinalEvents(cfg, s, t, j) == before + pair;
    assert pair[0] in before + pair;
  }

  lemma StopExit(cfg: Config, s: State, t: Tick)
    ensures forall reason, price | WritesExit(StopEvents(cfg, s, t), reason, price) :: reason == StopLoss
  {
  }

  lemma ObservationsExitNothing(s: State, t: Tick, es: seq<Event>)
    requires s.opening.fill > 0.0
    ensures forall reason, price ::
      WritesExit(Observations(s, t) + es, reason, price) <==> WritesExit(es, reason, price)
  {
    hide ExcursionPct;
    forall reason, price | WritesExit(es, reason, price) ensures WritesExit(Observations(s, t) + es, reason, price) {
      var e :| e in es && e.body == ExitReasonTransition(reason, price);
      assert e in Observations(s, t) + es;
    }
  }

  /**
   Which exit such a trade gets.  The update writes the exit of a completed target i if and
   only if the replayed stop is not hit and no target before i is completed, touched or hit.
   */
  lemma ExitLabelIff(cfg: Config, log: seq<Event>, t: Tick, i: nat)
    requires Settled(cfg, log) && Sane(cfg) && i in Replay(log).completed
    ensures Replay(log).opening.fill > 0.0 && i < |Replay(log).opening.targets|
    ensures WritesExit(Program(cfg, Replay(log), t), TakeProfit(i + 1), Replay(log).opening.targets[i]) <==>
      !StopHit(Replay(log), t) && NoneReached(Replay(log), t, 0, i)
  {
    hide Legal, ApplyAll, FinalEvents, StopEvents, Observations, StopHit, TargetHit, WritesExit, Program;
    SettledFacts(cfg, log);
    var s := Replay(log);
    var m := Observed(s, t);
    var j := SettledProgram(cfg, log, t);
    ObservationsExitNothing(s, t, StopEvents(cfg, m, t));
    ObservationsExitNothing(s, t, FinalEvents(cfg, m, t, j));
    StopExit(cfg, m, t);
    FinalExit(cfg, m, t, j);
    assert Reached(s, t, i);
    assert NoneReached(s, t, 0, i) <==> i == j by {
      LowestIsUnique(s, t, i, j);
    }
  }

  lemma LowestIsUnique(s: State, t: Tick, i: nat, j: nat)
    requires i < |s.opening.targets| && Reached(s, t, i)
    requires j < |s.opening.targets| && Reached(s, t, j) && NoneReached(s, t, 0, j)
    ensures NoneReached(s, t, 0, i) <==> i == j
  {
    hide Reached;
  }

  // ----- dying after the partial that takes everything -----

  /** Whether the update, on arrival at target i, exits all that is left there. */
  predicate TakesRest(cfg: Config, m: State, t: Tick, i: nat) {
    && i < |m.opening.targets| && i !in m.completed && (i in m.touched || TargetHit(m.opening, t, i))
    && CloseSize(cfg, m, i) > 0.0 && AfterFill(cfg, m, i).remaining <= EPSILON
  }

  /** No attempt of a fill, and none of the observations before it, ends the trade. */
  predicate EndsNothing(e: Event) {
    !e.body.SlTouch? && !e.body.ExitReasonTransition? && !e.body.TradeClosed?
  }

  lemma {:induction false} ArriveEndsNothing(cfg: Config, s: State, t: Tick, i: nat)
    requires s.opening.fill > 0.0 && i <= |s.opening.targets| && Arrive(cfg, s, t, i).Some?
    ensures forall e | e in Arrive(cfg, s, t, i).value.attempted :: EndsNothing(e)
  {
    hide FillEvents, Observations, AfterFill, TargetHit, StopHit, EndsNothing;
    ObservationsEndNothing(s, t);
    if i > 0 {
      ArriveEndsNothing(cfg, s, t, i - 1);
      FillsEndNothing(cfg, Arrive(cfg, s, t, i - 1).value.memory, t, i - 1);
    }
  }

  lemma ObservationsEndNothing(s: State, t: Tick)
    requires s.opening.fill > 0.0
    ensures forall e | e in Observations(s, t) :: EndsNothing(e)
  {
    hide ExcursionPct;
  }

  lemma FillsEndNothing(cfg: Config, m: State, t: Tick, i: nat)
    requires i < |m.opening.targets|
    ensures forall e | e in FillEvents(cfg, m, t, i) :: EndsNothing(e)
  {
    hide CloseSize, ArmsBreakEven, FeeBreakEven, Pnl, Fee;
  }

  lemma OpenStaysOpen(cfg: Config, log: seq<Event>, es: seq<Event>)
    requires Legal(cfg, log) && Opened(log) && !Replay(log).closed && Replay(log).pending.None?
    requires forall e | e in es :: EndsNothing(e)
    requires Opened(Exec(log, es).log) && Legal(cfg, Exec(log, es).log)
    ensures !Replay(Exec(log, es).log).closed && Replay(Exec(log, es).log).pending.None?
  {
    hide Legal, ApplyAll, Exec, HasAction;
    var next := Exec(log, es).log;
    LegalKeyFacts(cfg, log);
    LegalIntentFacts(cfg, log);
    LegalKeyFacts(cfg, next);
    LegalIntentFacts(cfg, next);
    ExecAddsAttempts(log, es, SlTouched);
    ExecAddsAttempts(log, es, TerminalClose);
    forall r ensures HasAction(next, ExitTo(r)) <==> HasAction(log, ExitTo(r)) {
      ExecAddsAttempts(log, es, ExitTo(r));
    }
  }

  /** The update up to and including the partial of target i: what is left afterwards. */
  lemma PartialPersisted(cfg: Config, log: seq<Event>, t: Tick, i: nat) returns (es: seq<Event>, after: seq<Event>)
    requires Legal(cfg, log) && Started(log) && !Replay(log).closed && Sane(cfg) && Replay(log).opening.fill > 0.0
    requires i < |Replay(log).opening.targets| && Arrive(cfg, Replay(log), t, i).Some?
    requires TakesRest(cfg, Arrive(cfg, Replay(log), t, i).value.memory, t, i)
    ensures var c := Arrive(cfg, Replay(log), t, i).value;
            var m := c.memory;
            && es == c.attempted + TouchEvents(m, t, i) + PartialEvents(cfg, m, t, i)
            && Opened(after) && Exec(log, es) == Executed(after, false) && Legal(cfg, after)
            && i in Replay(after).completed && Replay(after).remaining <= EPSILON
            && Program(cfg, Replay(log), t) == es + BreakEvenEvents(cfg, m, t, i)
                 + ClosePair(cfg, m.opening, t.timestamp, m.opening.targets[i], TakeProfit(i + 1), 0.0)
  {
    hide Legal, ApplyAll, Good, Exec, Program, TouchEvents, PartialEvents, BreakEvenEvents, ClosePair, TargetHit;
    hide PassedOver, TargetEvents, CloseSize;
    var l0 := ArrivePlays(cfg, log, t, i);
    var c := Arrive(cfg, Replay(log), t, i).value;
    var m := c.memory;
    var l1 := TouchPlays(cfg, l0, m, Replay(l0), t, i);
    after := PartialPlays(cfg, l1, m, Replay(l1), t, i);
    PlaysThen(cfg, log, c.attempted, l0, TouchEvents(m, t, i), l1);
    PlaysThen(cfg, log, c.attempted + TouchEvents(m, t, i), l1, PartialEvents(cfg, m, t, i), after);
    es := c.attempted + TouchEvents(m, t, i) + PartialEvents(cfg, m, t, i);
    FillComesNext(cfg, m, t, i);
    var pair := ClosePair(cfg, m.opening, t.timestamp, m.opening.targets[i], TakeProfit(i + 1), 0.0);
    assert AfterFillEvents(cfg, m, t, i) == pair;
    assert c.attempted + (FillEvents(cfg, m, t, i) + pair) == es + BreakEvenEvents(cfg, m, t, i) + pair;
  }

  /** The crash points after the partial of target i and before the exit reason. */
  ghost predicate AfterRest(cfg: Config, s: State, t: Tick, i: nat, n: nat)
    requires s.opening.fill > 0.0
  {
    && i < |s.opening.targets| && Arrive(cfg, s, t, i).Some? && TakesRest(cfg, Arrive(cfg, s, t, i).value.memory, t, i)
    && var c := Arrive(cfg, s, t, i).value;
       var upTo := |c.attempted| + |TouchEvents(c.memory, t, i)| + 1;
       upTo <= n <= upTo + |BreakEvenEvents(cfg, c.memory, t, i)|
  }

  /** What a crash there leaves: a trade with nothing left and no exit reason. */
  lemma RestTaken(cfg: Config, log: seq<Event>, t: Tick, i: nat, n: nat)
    requires Legal(cfg, log) && Started(log) && !Replay(log).closed && Sane(cfg) && Replay(log).opening.fill > 0.0
    requires AfterRest(cfg, Replay(log), t, i, n)
    ensures var after := Advance(cfg, log, Step(t, n)).log;
            Settled(cfg, after) && i in Replay(after).completed
  {
    hide Legal, ApplyAll, Exec, Program, TargetHit, CloseSize, HasAction, ClosePair, TouchEvents, BreakEvenEvents;
    hide Arrive, EndsNothing, AfterFill, PartialEvents;
    var s := Replay(log);
    var m := Arrive(cfg, s, t, i).value.memory;
    var es, l2 := PartialPersisted(cfg, log, t, i);
    OneRestPartial(cfg, m, t, i);
    var be := BreakEvenEvents(cfg, m, t, i);
    var k := n - |es|;
    var pair := ClosePair(cfg, m.opening, t.timestamp, m.opening.targets[i], TakeProfit(i + 1), 0.0);
    assert Take(es + be + pair, n) == es + be[..k];
    ArriveIsPending(cfg, s, t, i);
    var after := Advance(cfg, log, Step(t, n)).log;
    assert after == Exec(log, es + be[..k]).log;
    AdvanceLegal(cfg, log, Step(t, n));
    ExecConcat(log, es, be[..k]);
    ExecExtends(l2, be[..k]);
    LegalLater(cfg, l2, after);
    FillIsParts(cfg, m, t, i);
    FillEndsNothing(cfg, s, t, i, es + be[..k]);
    OpenStaysOpen(cfg, log, es + be[..k]);
    LegalStarted(cfg, after);
  }

  lemma OneRestPartial(cfg: Config, m: State, t: Tick, i: nat)
    requires TakesRest(cfg, m, t, i)
    ensures |PartialEvents(cfg, m, t, i)| == 1
  {
  }

  lemma FillIsParts(cfg: Config, m: State, t: Tick, i: nat)
    requires i < |m.opening.targets|
    ensures FillEvents(cfg, m, t, i)
         == TouchEvents(m, t, i) + PartialEvents(cfg, m, t, i) + BreakEvenEvents(cfg, m, t, i)
  {
  }

  /**
   A crash after the partial that takes everything, and before the exit reason.  The dead
   update was about to write the exit of target i.  A restart, on this tick or any other,
   writes that exit if and only if the replayed stop is not hit and no target before i is
   completed, touched or hit; otherwise it closes with another label and price.
   */
  lemma RestartAfterLastPartial(cfg: Config, log: seq<Event>, t: Tick, i: nat, n: nat, later: Tick)
    requires Legal(cfg, log) && Started(log) && !Replay(log).closed && Sane(cfg) && Replay(log).opening.fill > 0.0
    requires AfterRest(cfg, Replay(log), t, i, n)
    ensures var s := Replay(log);
            var after := Advance(cfg, log, Step(t, n)).log;
            && Settled(cfg, after) && Replay(after).opening == s.opening && i in Replay(after).completed
            && WritesExit(Program(cfg, s, t), TakeProfit(i + 1), s.opening.targets[i])
            && (WritesExit(Program(cfg, Replay(after), later), TakeProfit(i + 1), s.opening.targets[i]) <==>
                  !StopHit(Replay(after), later) && NoneReached(Replay(after), later, 0, i))
  {
    hide Legal, ApplyAll, Exec, Program, TargetHit, CloseSize, HasAction, ClosePair, StopHit, NoneReached, WritesExit;
    hide TouchEvents, BreakEvenEvents, Arrive, TakesRest;
    var s := Replay(log);
    var m := Arrive(cfg, s, t, i).value.memory;
    var after := Advance(cfg, log, Step(t, n)).log;
    RestTaken(cfg, log, t, i, n);
    LegalStarted(cfg, log);
    LegalStarted(cfg, after);
    ExitLabelIff(cfg, after, later, i);
    var es, l2 := PartialPersisted(cfg, log, t, i);
    LiveExit(es + BreakEvenEvents(cfg, m, t, i), cfg, m.opening, t.timestamp, m.opening.targets[i], TakeProfit(i + 1));
  }

  lemma {:induction false} ArriveIsPending(cfg: Config, s: State, t: Tick, i: nat)
    requires s.opening.fill > 0.0 && i <= |s.opening.targets| && Arrive(cfg, s, t, i).Some?
    ensures s.pending.None?
  {
    hide TargetHit, FillEvents, AfterFill, StopHit, Observations;
    if i > 0 {
      ArriveIsPending(cfg, s, t, i - 1);
    }
  }

  lemma FillEndsNothing(cfg: Config, s: State, t: Tick, i: nat, es: seq<Event>)
    requires s.opening.fill > 0.0 && i < |s.opening.targets| && Arrive(cfg, s, t, i).Some?
    requires var c := Arrive(cfg, s, t, i).value; es <= c.attempted + FillEvents(cfg, c.memory, t, i)
    ensures forall e | e in es :: EndsNothing(e)
  {
    hide FillEvents, Arrive, EndsNothing;
    ArriveEndsNothing(cfg, s, t, i);
    var c := Arrive(cfg, s, t, i).value;
    var fill := FillEvents(cfg, c.memory, t, i);
    FillsEndNothing(cfg, c.memory, t, i);
    forall e | e in es ensures EndsNothing(e) {
      assert e in c.attempted + fill;
    }
  }

  lemma LiveExit(before: seq<Event>, cfg: Config, o: Opening, timestamp: int, price: real, reason: ExitReason)
    ensures WritesExit(before + ClosePair(cfg, o, timestamp, price, reason, 0.0), reason, price)
  {
    hide Pnl, Fee;
    var pair := ClosePair(cfg, o, timestamp, price, reason, 0.0);
    assert pair[0] in before + pair;
  }

  const TWICE := Tick(1, 105.0, Some(Range(121.0, 101.0)))

  lemma TwiceObserved()
    ensures |Observations(Initial(TRADE), TWICE)| == 2
  {
    assert ExcursionPct(TRADE, 121.0) == 21.0 && ExcursionPct(TRADE, 101.0) == 1.0;
  }

  lemma FirstFill(m: State)
    requires m.opening == TRADE && m.remaining == 1.0 && m.touched == {} == m.completed
    ensures |FillEvents(SETTINGS, m, TWICE, 0)| == 4
    ensures var after := AfterFill(SETTINGS, m, 0);
            && after.remaining == 0.6 && after.touched == {0} && after.completed == {} && after.opening == TRADE
  {
    hide Pnl, Fee, FeeBreakEven;
    assert CloseSize(SETTINGS, m, 0) == 0.4;
  }

  lemma LastFill(m: State)
    requires m.opening == TRADE && m.remaining == 0.6 && m.touched == {0} && m.completed == {}
    ensures TakesRest(SETTINGS, m, TWICE, 1) && |TouchEvents(m, TWICE, 1)| == 1
    ensures BreakEvenEvents(SETTINGS, m, TWICE, 1) == []
  {
    hide Pnl, Fee, FeeBreakEven;
    assert CloseSize(SETTINGS, m, 1) == 0.6;
  }

  lemma SecondTakesRest()
    ensures var arrived := Arrive(SETTINGS, Initial(TRADE), TWICE, 1);
            && arrived.Some? && TakesRest(SETTINGS, arrived.value.memory, TWICE, 1)
            && |arrived.value.attempted| == 6 && |TouchEvents(arrived.value.memory, TWICE, 1)| == 1
            && BreakEvenEvents(SETTINGS, arrived.value.memory, TWICE, 1) == []
  {
    hide FillEvents, AfterFill, Observations, TouchEvents, BreakEvenEvents, TakesRest, ExcursionPct;
    var m := Observed(Initial(TRADE), TWICE);
    TwiceObserved();
    FirstFill(m);
    LastFill(AfterFill(SETTINGS, m, 0));
    assert Arrive(SETTINGS, Initial(TRADE), TWICE, 0) == Some(Checkpoint(Observations(Initial(TRADE), TWICE), m));
  }

  lemma OpenStop(cfg: Config, log: seq<Event>)
    requires Opened(log) && Legal(cfg, log)
    ensures Replay(log).stop == Replay(log).opening.stop || Replay(log).stop == FeeBreakEven(cfg, Replay(log).opening)
  {
    LegalStopFacts(cfg, log);
    hide Legal, ApplyAll, HasAction;
  }

  /**
   A candle through both targets; the process dies after the second partial, with the exit
   at TP2 due.  The same candle, replayed, does not touch the stop, and is closed at TP1.
   */
  lemma ExitLabelLost()
    ensures var after := Advance(SETTINGS, OpenLog(0, TRADE), Step(TWICE, 8)).log;
            && WritesExit(Program(SETTINGS, Initial(TRADE), TWICE), TakeProfit(2), 120.0)
            && Settled(SETTINGS, after) && Replay(after).opening == TRADE && !StopHit(Replay(after), TWICE)
            && WritesExit(Program(SETTINGS, Replay(after), TWICE), TakeProfit(1), 110.0)
            && !WritesExit(Program(SETTINGS, Replay(after), TWICE), TakeProfit(2), 120.0)
  {
    hide Legal, ApplyAll, Advance, Arrive, Program, TakesRest, TouchEvents, BreakEvenEvents, WritesExit, FinalEvents;
    hide Observations, StopEvents, ExcursionPct;
    TradeOpens();
    SecondTakesRest();
    RestartAfterLastPartial(SETTINGS, OpenLog(0, TRADE), TWICE, 1, 8, TWICE);
    var after := Advance(SETTINGS, OpenLog(0, TRADE), Step(TWICE, 8)).log;
    var p := Replay(after);
    OpenStop(SETTINGS, after);
    assert FeeBreakEven(SETTINGS, TRADE) == 100.1;
    assert Reached(p, TWICE, 0);
    var j := SettledProgram(SETTINGS, after, TWICE);
    LowestIsUnique(p, TWICE, 0, j);
    ObservationsExitNothing(p, TWICE, FinalEvents(SETTINGS, Observed(p, TWICE), TWICE, 0));
    FinalExit(SETTINGS, Observed(p, TWICE), TWICE, 0);
  }

  // ----- dying among the observations -----

  /** What an update does after its observations. */
  function Tail(cfg: Config, s: State, t: Tick): seq<Event>
    requires s.opening.fill > 0.0
  {
    if StopHit(s, t) then StopEvents(cfg, Observed(s, t), t) else TargetEvents(cfg, Observed(s, t), t, 0)
  }

  lemma ObservedOnce(s: State, x: State, t: Tick, e: Event)
    requires s.opening.fill > 0.0 && x.opening == s.opening && e in Observations(s, t)
    ensures Apply(x, e) == x.(mfe := Apply(x, e).mfe, mae := Apply(x, e).mae)
    ensures Observed(Apply(x, e), t) == Observed(x, t)
  {
    hide ExcursionPct;
  }

  lemma {:induction false} ObservedReplay(s: State, t: Tick, first: State, log: seq<Event>, more: seq<Event>)
    requires s.opening.fill > 0.0 && ApplyAll(first, log) == s && forall e | e in more :: e in Observations(s, t)
    ensures var r := ApplyAll(first, log + more);
            r == s.(mfe := r.mfe, mae := r.mae) && Observed(r, t) == Observed(s, t)
    decreases |more|
  {
    hide Observations, Apply, ExcursionPct;
    if more == [] {
      assert log + more == log;
    } else {
      var before, last := log + more[..|more| - 1], more[|more| - 1];
      assert log + more == before + [last] && (before + [last])[..|before|] == before;
      assert last in more;
      ObservedReplay(s, t, first, log, more[..|more| - 1]);
      ObservedOnce(s, ApplyAll(first, before), t, last);
    }
  }

  /** A crash among the observations costs nothing: a restart on the tick attempts all that follows them. */
  lemma RestartInObservations(cfg: Config, log: seq<Event>, t: Tick, n: nat)
    requires Started(log) && !Replay(log).closed && Replay(log).pending.None? && Replay(log).opening.fill > 0.0
    requires n <= |Observations(Replay(log), t)|
    ensures var s := Replay(log);
            var p := Replay(Advance(cfg, log, Step(t, n)).log);
            && p.opening == s.opening
            && Program(cfg, s, t) == Observations(s, t) + Tail(cfg, s, t)
            && Program(cfg, p, t) == Observations(p, t) + Tail(cfg, s, t)
  {
    hide ApplyAll, Exec, Observations, ExcursionPct, StopEvents, TargetEvents;
    var s := Replay(log);
    var es := Observations(s, t)[..n];
    assert Take(Program(cfg, s, t), n) == es;
    var after := Advance(cfg, log, Step(t, n)).log;
    ExecAddsOnly(log, es);
    assert log + after[|log|..] == after;
    ObservedReplay(s, t, Initial(log[0].body.opening), log, after[|log|..]);
  }

  // ----- dying between the TP1 partial and its stop update -----

  lemma FillTouches(cfg: Config, s: State, i: nat)
    requires i < |s.opening.targets|
    ensures i in AfterFill(cfg, s, i).touched && AfterFill(cfg, s, i).opening == s.opening
  {
  }

  lemma LaterFillIgnoresStop(cfg: Config, s: State, stop: real, t: Tick, i: nat)
    requires 0 < i < |s.opening.targets|
    ensures AfterFill(cfg, s.(stop := stop), i) == AfterFill(cfg, s, i).(stop := stop)
    ensures FillEvents(cfg, s.(stop := stop), t, i) == FillEvents(cfg, s, t, i)
  {
    hide Pnl, Fee, FeeBreakEven;
    var r := s.(stop := stop);
    assert !ArmsBreakEven(cfg, s, i) && !ArmsBreakEven(cfg, r, i);
    assert CloseSize(cfg, r, i) == CloseSize(cfg, s, i);
  }

  lemma {:induction false} LaterTargetsIgnoreStop(cfg: Config, s: State, stop: real, t: Tick, i: nat)
    requires s.opening.fill > 0.0 && 0 < i <= |s.opening.targets| && s.touched != {}
    ensures TargetEvents(cfg, s.(stop := stop), t, i) == TargetEvents(cfg, s, t, i)
    decreases |s.opening.targets| - i
  {
    hide Pnl, Fee, FeeBreakEven, TargetHit, AfterFill, FillEvents, ClosePair;
    if i < |s.opening.targets| {
      assert AfterFill(cfg, s, i).touched != {} && AfterFill(cfg, s, i).opening == s.opening by {
        FillTouches(cfg, s, i);
      }
      LaterTargetsIgnoreStop(cfg, s, stop, t, i + 1);
      if i !in s.completed {
        LaterFillIgnoresStop(cfg, s, stop, t, i);
        LaterTargetsIgnoreStop(cfg, AfterFill(cfg, s, i), stop, t, i + 1);
      }
    }
  }

  /** The log at the two crash points that lose the break-even move. */
  lemma PartialWithoutMove(cfg: Config, log: seq<Event>, t: Tick, n: nat) returns (after: seq<Event>)
    requires Legal(cfg, log) && Started(log) && Sane(cfg) && Replay(log).opening.fill > 0.0
    requires MovesToBreakEven(cfg, Replay(log), t)
    requires var before := |Observations(Replay(log), t)| + |TouchEvents(Replay(log), t, 0)|;
             before + 1 <= n <= before + 2
    ensures after == Advance(cfg, log, Step(t, n)).log && Opened(after)
    ensures var m := Observed(Replay(log), t);
            var r := Replay(after);
            && r == m.(touched := m.touched + {0}, completed := m.completed + {0}, exited := r.exited,
                 remaining := m.remaining - CloseSize(cfg, m, 0))
            && CloseSize(cfg, m, 0) > 0.0
  {
    hide Legal, ApplyAll, Good, Exec, Program, Observations, TouchEvents, PartialEvents, CloseSize, TargetHit, StopHit;
    hide HasAction, ExcursionPct, FeeBreakEven;
    var s := Replay(log);
    var m := Observed(s, t);
    FillFacts(cfg, log, s);
    ObservedArms(cfg, s, t);
    ArmingClosesSomething(cfg, m);
    var rest := BreakEvenProgram(cfg, s, t);
    var partial, be := PartialEvents(cfg, m, t, 0), BreakEvenEvents(cfg, m, t, 0);
    var seen, touch := Observations(s, t), TouchEvents(m, t, 0);
    assert |partial| == 1 by { OnePartial(cfg, m, t); }
    assert TouchEvents(s, t, 0) == touch by { SameTouch(s, t); }
    var l0 := ObservationsPlay(cfg, log, s, t);
    var l1 := TouchPlays(cfg, l0, m, Replay(l0), t, 0);
    var l2 := PartialPlays(cfg, l1, m, Replay(l1), t, 0);
    PlaysThen(cfg, log, seen, l0, touch, l1);
    PlaysThen(cfg, log, seen + touch, l1, partial, l2);
    var es := seen + touch + partial;
    var k := n - |es|;
    assert seen + touch + (partial + be + rest) == es + (be + rest);
    assert Take(Program(cfg, s, t), n) == es + be[..k];
    after := Advance(cfg, log, Step(t, n)).log;
    ExecConcat(log, es, be[..k]);
    if k == 0 {
      assert be[..k] == [] && Exec(l2, []) == Executed(l2, false) by { NothingPlays(l2); }
    } else {
      assert be[..k] == [be[0]];
      ArmingChangesNothing(l2, be[0]);
    }
  }

  lemma ObservedArms(cfg: Config, s: State, t: Tick)
    requires s.opening.fill > 0.0 && s.opening.targets != []
    ensures ArmsBreakEven(cfg, Observed(s, t), 0) == ArmsBreakEven(cfg, s, 0)
  {
  }

  lemma OnePartial(cfg: Config, m: State, t: Tick)
    requires m.opening.targets != [] && CloseSize(cfg, m, 0) > 0.0
    ensures |PartialEvents(cfg, m, t, 0)| == 1
  {
  }

  lemma SameTouch(s: State, t: Tick)
    requires s.opening.fill > 0.0 && s.opening.targets != []
    ensures TouchEvents(s, t, 0) == TouchEvents(Observed(s, t), t, 0)
  {
  }

  lemma NothingPlays(log: seq<Event>)
    ensures Exec(log, []) == Executed(log, false)
  {
  }

  /** Arming break-even leaves the fold as it is. */
  lemma ArmingChangesNothing(log: seq<Event>, e: Event)
    requires Opened(log) && e.body.BreakEvenActivated?
    ensures Opened(Exec(log, [e]).log) && Replay(Exec(log, [e]).log) == Replay(log)
  {
    assert [e][1..] == [];
    assert forall l: seq<Event> :: Exec(l, []) == Executed(l, false);
    ReplayPush(log, e);
  }

  /**
   A crash between the TP1 partial and its stop update costs the move, and nothing else as
   long as something is left: a restart on the tick attempts the rest of the live update.
   */
  lemma RestartWithoutBreakEven(cfg: Config, log: seq<Event>, t: Tick, n: nat)
    requires Legal(cfg, log) && Started(log) && Sane(cfg) && Replay(log).opening.fill > 0.0
    requires MovesToBreakEven(cfg, Replay(log), t) && AfterFill(cfg, Observed(Replay(log), t), 0).remaining > EPSILON
    requires var before := |Observations(Replay(log), t)| + |TouchEvents(Replay(log), t, 0)|;
             before + 1 <= n <= before + 2
    ensures var s := Replay(log);
            var m := Observed(s, t);
            var p := Replay(Advance(cfg, log, Step(t, n)).log);
            var rest := TargetEvents(cfg, AfterFill(cfg, m, 0), t, 1);
            && p.opening == s.opening && !StopHit(p, t)
            && Program(cfg, s, t) == Observations(s, t) + FillEvents(cfg, m, t, 0) + rest
            && Program(cfg, p, t) == [MarkEvent(p, t)] + rest
  {
    hide Legal, ApplyAll, Exec, FillEvents, TouchEvents, TargetHit, ExcursionPct, FeeBreakEven, CloseSize, Advance;
    var s := Replay(log);
    var m := Observed(s, t);
    var after := PartialWithoutMove(cfg, log, t, n);
    var p := Replay(after);
    var filled := AfterFill(cfg, m, 0);
    FillComesNext(cfg, m, t, 0);
    assert Observations(s, t) + (FillEvents(cfg, m, t, 0) + TargetEvents(cfg, filled, t, 1))
        == Observations(s, t) + FillEvents(cfg, m, t, 0) + TargetEvents(cfg, filled, t, 1);
    assert Observed(p, t) == p;
    assert Observations(p, t) == [MarkEvent(p, t)];
    assert TargetEvents(cfg, p, t, 0) == TargetEvents(cfg, p, t, 1);
    LaterTargetsIgnoreStop(cfg, filled, p.stop, t, 1);
    AgreeingStatesActAlike(cfg, filled.(stop := p.stop), p, t, 1);
  }

  // ----- dying after the profit lock -----

  lemma LockProgram(cfg: Config, log: seq<Event>, t: Tick)
    requires Legal(cfg, log) && Started(log) && Replay(log).opening.fill > 0.0 && LocksProfit(cfg, Replay(log), t)
    ensures var m := Observed(Replay(log), t);
            Program(cfg, Replay(log), t) == Observations(Replay(log), t) + ProfitLockEvents(cfg, m, t)
  {
    hide Legal, ApplyAll, Observations, TargetHit, StopHit, HasAction, ExcursionPct, FeeBreakEven, TargetEvents;
    hide ProfitLockEvents;
    var s := Replay(log);
    var m := Observed(s, t);
    LegalKeyFacts(cfg, log);
    assert forall j | 0 <= j < |s.opening.targets| :: TargetHit(m.opening, t, j) == TargetHit(s.opening, t, j);
    QuietTargets(cfg, m, t, 0);
  }

  /** The two events of the lock go through. */
  lemma LockPlays(cfg: Config, log: seq<Event>, m: State, t: Tick) returns (armed: seq<Event>, moved: seq<Event>)
    requires Opened(log) && Legal(cfg, log) && m == Replay(log) && m.opening.fill > 0.0
    requires !m.closed && m.pending.None? && ArmsProfitLock(cfg, m)
    ensures var lock := ProfitLockEvents(cfg, m, t);
            && |lock| == 2 && Opened(armed) && Plays(cfg, log, [lock[0]], armed)
            && Opened(moved) && Plays(cfg, armed, [lock[1]], moved)
    ensures Replay(armed) == m.(profitLock := true)
    ensures Replay(moved) == m.(profitLock := true, stop := Replay(moved).stop)
  {
    hide Legal, ApplyAll, Good, Exec, HasAction, FeeBreakEven;
    LegalKeyFacts(cfg, log);
    var lock := ProfitLockEvents(cfg, m, t);
    armed := PlaysOne(cfg, log, lock[0]);
    moved := PlaysOne(cfg, armed, lock[1]);
  }

  /** The log after PROFIT_LOCK_ACTIVATED, with or without its stop update. */
  lemma LockPersisted(cfg: Config, log: seq<Event>, t: Tick, n: nat) returns (after: seq<Event>)
    requires Legal(cfg, log) && Started(log) && Sane(cfg) && Replay(log).opening.fill > 0.0
    requires LocksProfit(cfg, Replay(log), t)
    requires |Observations(Replay(log), t)| + 1 <= n
    ensures after == Advance(cfg, log, Step(t, n)).log && Opened(after)
    ensures var r := Replay(after);
            r == Observed(Replay(log), t).(profitLock := true, stop := r.stop)
  {
    hide Legal, ApplyAll, Good, Exec, Observations, TargetHit, StopHit, ExcursionPct, Program, ProfitLockEvents;
    hide ArmsProfitLock;
    var s := Replay(log);
    var m := Observed(s, t);
    LockProgram(cfg, log, t);
    var lock := ProfitLockEvents(cfg, m, t);
    var l0 := ObservationsPlay(cfg, log, s, t);
    var l1, l2 := LockPlays(cfg, l0, m, t);
    var es := Observations(s, t) + [lock[0]];
    PlaysThen(cfg, log, Observations(s, t), l0, [lock[0]], l1);
    PlaysThen(cfg, log, es, l1, [lock[1]], l2);
    after := Advance(cfg, log, Step(t, n)).log;
    assert es + [lock[1]] == Observations(s, t) + lock;
    assert Take(Observations(s, t) + lock, n) == if n == |es| then es else es + [lock[1]];
  }

  /** After the lock is armed nothing is left to do on this tick; a restart only checks the stop again. */
  lemma RestartAfterLock(cfg: Config, log: seq<Event>, t: Tick, n: nat)
    requires Legal(cfg, log) && Started(log) && Sane(cfg) && Replay(log).opening.fill > 0.0
    requires LocksProfit(cfg, Replay(log), t)
    requires |Observations(Replay(log), t)| + 1 <= n
    ensures var p := Replay(Advance(cfg, log, Step(t, n)).log);
            && p.opening == Replay(log).opening
            && Program(cfg, p, t) == [MarkEvent(p, t)] + (if StopHit(p, t) then StopEvents(cfg, p, t) else [])
  {
    hide Legal, ApplyAll, Exec, TargetHit, StopHit, ExcursionPct, FeeBreakEven, TargetEvents, Advance, StopEvents;
    var s := Replay(log);
    var after := LockPersisted(cfg, log, t, n);
    var p := Replay(after);
    LegalKeyFacts(cfg, log);
    assert Observed(p, t) == p;
    assert Observations(p, t) == [MarkEvent(p, t)];
    assert forall j | 0 <= j < |p.opening.targets| :: TargetHit(p.opening, t, j) == TargetHit(s.opening, t, j);
    QuietTargets(cfg, p, t, 0);
  }
}
