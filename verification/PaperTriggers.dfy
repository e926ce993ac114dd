/**
 What sets off each step of a market update, in the prices of the candle, and what the
 step writes: the touch of the stop and of each target, partial exits, the two stop moves,
 the excursions and the exits.  Conditions and amounts are stated in numbers, both ways,
 first for the attempts of an update and then for the log of a trade after it.
 */
module PaperTriggers {
  import opened Wrappers
  import opened Reals
  import opened PaperEvents
  import opened PaperLifecycle
  import opened PaperProtocol
  import opened PaperCrashes
  import opened PaperGuarantees
  import opened PaperAccounting

  // ----- which actions a list of attempts holds -----

  lemma ActionsConcat(a: seq<Event>, b: seq<Event>)
    ensures forall x :: HasAction(a + b, x) <==> HasAction(a, x) || HasAction(b, x)
  {
    forall x ensures HasAction(a + b, x) <==> HasAction(a, x) || HasAction(b, x) {
      if HasAction(a + b, x) {
        var e :| e in a + b && ActionOf(e) == x;
        assert e in a || e in b;
      }
      if HasAction(a, x) {
        var e :| e in a && ActionOf(e) == x;
        assert e in a + b;
      }
      if HasAction(b, x) {
        var e :| e in b && ActionOf(e) == x;
        assert e in a + b;
      }
    }
  }

  lemma ActionsNone()
    ensures forall x :: !HasAction([], x)
  {
  }

  lemma ActionsOne(e: Event)
    ensures forall x :: HasAction([e], x) <==> ActionOf(e) == x
  {
    HasActionPush([], e);
    assert [] + [e] == [e];
  }

  lemma ActionsTwo(a: Event, b: Event)
    ensures forall x :: HasAction([a, b], x) <==> ActionOf(a) == x || ActionOf(b) == x
  {
    ActionsOne(a);
    HasActionPush([a], b);
    assert [a] + [b] == [a, b];
  }

  lemma CloseActions(cfg: Config, o: Opening, timestamp: int, price: real, reason: ExitReason, size: real)
    ensures forall x :: HasAction(ClosePair(cfg, o, timestamp, price, reason, size), x) <==>
                        x == ExitTo(reason) || x == TerminalClose
  {
    var pair := ClosePair(cfg, o, timestamp, price, reason, size);
    ActionsTwo(pair[0], pair[1]);
  }

  lemma StopActions(cfg: Config, s: State, t: Tick)
    ensures forall x :: HasAction(StopEvents(cfg, s, t), x) <==>
                        x == SlTouched || x == ExitTo(StopLoss) || x == TerminalClose
  {
    hide HasAction, ClosePair;
    var touch := Event(t.timestamp, SlTouch(s.stop, t.mark));
    ActionsOne(touch);
    CloseActions(cfg, s.opening, t.timestamp, s.stop, StopLoss, s.remaining);
    ActionsConcat([touch], ClosePair(cfg, s.opening, t.timestamp, s.stop, StopLoss, s.remaining));
  }

  lemma FillActions(cfg: Config, m: State, t: Tick, i: nat)
    requires i < |m.opening.targets|
    ensures forall x :: HasAction(FillEvents(cfg, m, t, i), x) <==>
                        || (x == Touch(i + 1) && i !in m.touched)
                        || (x == Partial(i + 1) && CloseSize(cfg, m, i) > 0.0)
                        || (x in {BreakEvenArmed, StopMove(Tp1FeeBreakEven)} && ArmsBreakEven(cfg, m, i))
  {
    var touch, partial, arm := TouchEvents(m, t, i), PartialEvents(cfg, m, t, i), BreakEvenEvents(cfg, m, t, i);
    ActionsConcat(touch, partial);
    ActionsConcat(touch + partial, arm);
    assert forall x :: HasAction(touch, x) <==> x == Touch(i + 1) && i !in m.touched by {
      if i !in m.touched { ActionsOne(touch[0]); }
    }
    assert forall x :: HasAction(partial, x) <==> x == Partial(i + 1) && CloseSize(cfg, m, i) > 0.0 by {
      hide Pnl, Fee, CloseSize;
      if CloseSize(cfg, m, i) > 0.0 { ActionsOne(partial[0]); }
    }
    assert forall x :: HasAction(arm, x) <==>
                       x in {BreakEvenArmed, StopMove(Tp1FeeBreakEven)} && ArmsBreakEven(cfg, m, i) by {
      hide FeeBreakEven, ArmsBreakEven;
      if ArmsBreakEven(cfg, m, i) { ActionsTwo(arm[0], arm[1]); }
    }
  }

  lemma LockActions(cfg: Config, m: State, t: Tick)
    requires m.opening.fill > 0.0
    ensures forall x :: HasAction(ProfitLockEvents(cfg, m, t), x) <==>
                        x in {ProfitLockArmed, StopMove(ProfitLockFeeBreakEven)} && ArmsProfitLock(cfg, m)
  {
    hide FeeBreakEven, ArmsProfitLock;
    if ArmsProfitLock(cfg, m) {
      var es := ProfitLockEvents(cfg, m, t);
      ActionsTwo(es[0], es[1]);
    }
  }

  lemma ObservationActions(s: State, t: Tick)
    requires s.opening.fill > 0.0
    ensures forall x :: HasAction(Observations(s, t), x) ==> x.Observation?
  {
  }

  // ----- what the partial exits among some attempts take -----

  /** The size of the partial exits among `es` up to a target level. */
  function Taken(es: seq<Event>, level: nat): real {
    if es == [] then 0.0
    else
      var last := es[|es| - 1].body;
      Taken(es[..|es| - 1], level) + if last.PartialExit? && last.level <= level then last.size else 0.0
  }

  lemma {:induction false} TakenConcat(a: seq<Event>, b: seq<Event>, level: nat)
    ensures Taken(a + b, level) == Taken(a, level) + Taken(b, level)
    decreases |b|
  {
    if b == [] {
      assert a + b == a;
    } else {
      assert (a + b)[..|a + b| - 1] == a + b[..|b| - 1];
      TakenConcat(a, b[..|b| - 1], level);
    }
  }

  lemma {:induction false} TakenNothing(es: seq<Event>, level: nat)
    requires forall e | e in es :: !e.body.PartialExit?
    ensures Taken(es, level) == 0.0
    decreases |es|
  {
    if es != [] {
      TakenNothing(es[..|es| - 1], level);
    }
  }

  lemma PartialTaken(cfg: Config, m: State, t: Tick, i: nat, level: nat)
    requires i < |m.opening.targets|
    ensures Taken(PartialEvents(cfg, m, t, i), level) ==
            if level > i && CloseSize(cfg, m, i) > 0.0 then CloseSize(cfg, m, i) else 0.0
  {
    hide Pnl, Fee, CloseSize;
    var partial := PartialEvents(cfg, m, t, i);
    if partial != [] {
      assert partial[..0] == [];
      assert Taken(partial, level) == Taken([], level) + if i < level then partial[0].body.size else 0.0;
    }
  }

  lemma FillTaken(cfg: Config, m: State, t: Tick, i: nat, level: nat)
    requires i < |m.opening.targets|
    ensures Taken(FillEvents(cfg, m, t, i), level) ==
            if level > i && CloseSize(cfg, m, i) > 0.0 then CloseSize(cfg, m, i) else 0.0
  {
    hide Pnl, Fee, CloseSize, FeeBreakEven, PartialEvents, Taken;
    var touch, partial, arm := TouchEvents(m, t, i), PartialEvents(cfg, m, t, i), BreakEvenEvents(cfg, m, t, i);
    TakenConcat(touch, partial, level);
    TakenConcat(touch + partial, arm, level);
    TakenNothing(touch, level);
    TakenNothing(arm, level);
    PartialTaken(cfg, m, t, i, level);
  }

  // ----- the target loop, one target at a time -----

  /** What the loop does at target k: work on it, close there, or go on with `next`. */
  predicate Works(m: State, t: Tick, k: nat)
    requires k < |m.opening.targets|
  {
    k !in m.completed && (k in m.touched || TargetHit(m.opening, t, k))
  }

  function Next(cfg: Config, m: State, t: Tick, k: nat): State
    requires k < |m.opening.targets|
  {
    if Works(m, t, k) then AfterFill(cfg, m, k) else m
  }

  predicate ClosesAt(cfg: Config, m: State, t: Tick, k: nat)
    requires k < |m.opening.targets|
  {
    (k in m.completed || Works(m, t, k)) && Next(cfg, m, t, k).remaining <= EPSILON
  }

  function Head(cfg: Config, m: State, t: Tick, k: nat): seq<Event>
    requires k < |m.opening.targets|
  {
    if Works(m, t, k) then FillEvents(cfg, m, t, k) else []
  }

  function Rest(cfg: Config, m: State, t: Tick, k: nat): seq<Event>
    requires k < |m.opening.targets| && m.opening.fill > 0.0
  {
    if ClosesAt(cfg, m, t, k)
    then ClosePair(cfg, m.opening, t.timestamp, m.opening.targets[k], TakeProfit(k + 1), 0.0)
    else TargetEvents(cfg, Next(cfg, m, t, k), t, k + 1)
  }

  lemma TargetStep(cfg: Config, m: State, t: Tick, k: nat)
    requires k < |m.opening.targets| && m.opening.fill > 0.0
    ensures TargetEvents(cfg, m, t, k) == Head(cfg, m, t, k) + Rest(cfg, m, t, k)
  {
    hide FillEvents, TargetHit, ClosePair, CloseSize, ArmsBreakEven, FeeBreakEven;
    assert [] + Rest(cfg, m, t, k) == Rest(cfg, m, t, k);
  }

  lemma StepActions(cfg: Config, m: State, t: Tick, k: nat)
    requires k < |m.opening.targets| && m.opening.fill > 0.0
    ensures forall x :: HasAction(TargetEvents(cfg, m, t, k), x) <==>
                        || (Works(m, t, k) && HasAction(FillEvents(cfg, m, t, k), x))
                        || HasAction(Rest(cfg, m, t, k), x)
    ensures forall level ::
      Taken(TargetEvents(cfg, m, t, k), level) ==
      (if Works(m, t, k) then Taken(FillEvents(cfg, m, t, k), level) else 0.0) + Taken(Rest(cfg, m, t, k), level)
  {
    hide FillEvents, Rest, HasAction, Works;
    TargetStep(cfg, m, t, k);
    ActionsConcat(Head(cfg, m, t, k), Rest(cfg, m, t, k));
    ActionsNone();
    forall level
      ensures Taken(TargetEvents(cfg, m, t, k), level) ==
              (if Works(m, t, k) then Taken(FillEvents(cfg, m, t, k), level) else 0.0)
              + Taken(Rest(cfg, m, t, k), level)
    {
      TakenConcat(Head(cfg, m, t, k), Rest(cfg, m, t, k), level);
    }
  }

  /** The loop from target k on writes nothing about the targets before k, and no stop touch. */
  lemma {:induction false} TargetsAhead(cfg: Config, m: State, t: Tick, k: nat)
    requires k <= |m.opening.targets| && m.opening.fill > 0.0
    ensures forall level: nat | level <= k ::
      var es := TargetEvents(cfg, m, t, k);
      && !HasAction(es, Touch(level)) && !HasAction(es, Partial(level)) && !HasAction(es, ExitTo(TakeProfit(level)))
      && Taken(es, level) == 0.0
    ensures !HasAction(TargetEvents(cfg, m, t, k), SlTouched)
    ensures !HasAction(TargetEvents(cfg, m, t, k), ExitTo(StopLoss))
    ensures forall e :: !HasAction(TargetEvents(cfg, m, t, k), Observation(e))
    decreases |m.opening.targets| - k
  {
    hide HasAction, FillEvents, ClosePair, TargetEvents, Works;
    if k == |m.opening.targets| {
      LoopEnds(cfg, m, t);
    } else {
      StepActions(cfg, m, t, k);
      FillActions(cfg, m, t, k);
      forall level: nat | level <= k ensures Taken(FillEvents(cfg, m, t, k), level) == 0.0 {
        FillTaken(cfg, m, t, k, level);
      }
      if ClosesAt(cfg, m, t, k) {
        CloseAhead(cfg, m.opening, t.timestamp, m.opening.targets[k], TakeProfit(k + 1));
      } else {
        TargetsAhead(cfg, Next(cfg, m, t, k), t, k + 1);
      }
    }
  }

  lemma LoopEnds(cfg: Config, m: State, t: Tick)
    requires m.opening.fill > 0.0
    ensures var es := TargetEvents(cfg, m, t, |m.opening.targets|);
            && (forall x :: HasAction(es, x) <==>
                            x in {ProfitLockArmed, StopMove(ProfitLockFeeBreakEven)} && ArmsProfitLock(cfg, m))
            && (forall level :: Taken(es, level) == 0.0)
  {
    hide HasAction, FeeBreakEven, ArmsProfitLock;
    LockActions(cfg, m, t);
    forall level ensures Taken(ProfitLockEvents(cfg, m, t), level) == 0.0 {
      TakenNothing(ProfitLockEvents(cfg, m, t), level);
    }
  }

  lemma CloseAhead(cfg: Config, o: Opening, timestamp: int, price: real, reason: ExitReason)
    ensures forall x :: HasAction(ClosePair(cfg, o, timestamp, price, reason, 0.0), x) <==>
                        x == ExitTo(reason) || x == TerminalClose
    ensures forall level :: Taken(ClosePair(cfg, o, timestamp, price, reason, 0.0), level) == 0.0
  {
    hide HasAction, Pnl, Fee;
    CloseActions(cfg, o, timestamp, price, reason, 0.0);
    forall level ensures Taken(ClosePair(cfg, o, timestamp, price, reason, 0.0), level) == 0.0 {
      TakenNothing(ClosePair(cfg, o, timestamp, price, reason, 0.0), level);
    }
  }

  /** No exit at any of the first i targets. */
  ghost predicate NoExit(es: seq<Event>, i: nat) {
    forall level: nat | 1 <= level <= i :: !HasAction(es, ExitTo(TakeProfit(level)))
  }

  /** The loop from target k on touches target i if it is reached and new, unless the loop closed before. */
  lemma {:induction false} TouchesIff(cfg: Config, m: State, t: Tick, k: nat, i: nat)
    requires k <= i < |m.opening.targets| && m.opening.fill > 0.0
    ensures var es := TargetEvents(cfg, m, t, k);
            HasAction(es, Touch(i + 1)) <==> Works(m, t, i) && i !in m.touched && NoExit(es, i)
    decreases i - k
  {
    hide HasAction, FillEvents, ClosePair, TargetEvents, TargetHit, CloseSize, FeeBreakEven, ArmsBreakEven;
    StepActions(cfg, m, t, k);
    FillActions(cfg, m, t, k);
    TargetsAhead(cfg, m, t, k);
    if ClosesAt(cfg, m, t, k) {
      CloseAhead(cfg, m.opening, t.timestamp, m.opening.targets[k], TakeProfit(k + 1));
    } else {
      TargetsAhead(cfg, Next(cfg, m, t, k), t, k + 1);
      if k < i {
        TouchesIff(cfg, Next(cfg, m, t, k), t, k + 1, i);
      }
    }
  }

  /** What is taken before target i never exceeds what was left, and leaves something unless the loop closed before. */
  lemma {:induction false} TakenLeaves(cfg: Config, m: State, t: Tick, k: nat, i: nat)
    requires k <= i < |m.opening.targets| && m.opening.fill > 0.0 && m.opening.size > 0.0
    requires Sane(cfg) && m.remaining >= 0.0
    ensures var es := TargetEvents(cfg, m, t, k);
            && m.remaining >= Taken(es, i)
            && (m.remaining > 0.0 && NoExit(es, i) ==> m.remaining > Taken(es, i))
    decreases i - k
  {
    hide HasAction, FillEvents, ClosePair, TargetEvents, TargetHit, CloseSize, FeeBreakEven, ArmsBreakEven;
    StepActions(cfg, m, t, k);
    FillActions(cfg, m, t, k);
    FillTaken(cfg, m, t, k, i);
    SizeTaken(cfg, m, k);
    if ClosesAt(cfg, m, t, k) {
      CloseAhead(cfg, m.opening, t.timestamp, m.opening.targets[k], TakeProfit(k + 1));
    } else {
      TargetsAhead(cfg, Next(cfg, m, t, k), t, k + 1);
      if k < i {
        TakenLeaves(cfg, Next(cfg, m, t, k), t, k + 1, i);
      }
    }
  }

  /** It takes a partial there if it works on the target, something is left and its share is not zero. */
  lemma {:induction false} PartialsIff(cfg: Config, m: State, t: Tick, k: nat, i: nat)
    requires k <= i < |m.opening.targets| && m.opening.fill > 0.0 && m.opening.size > 0.0
    requires Sane(cfg) && m.remaining >= 0.0
    ensures var es := TargetEvents(cfg, m, t, k);
            HasAction(es, Partial(i + 1)) <==>
            && Works(m, t, i) && NoExit(es, i) && m.remaining > Taken(es, i)
            && (i + 1 == |m.opening.targets| || (i == 1 ==> cfg.tp2ClosePct > 0.0))
    decreases i - k
  {
    hide HasAction, FillEvents, ClosePair, TargetEvents, TargetHit, CloseSize, FeeBreakEven, ArmsBreakEven;
    StepActions(cfg, m, t, k);
    FillActions(cfg, m, t, k);
    FillTaken(cfg, m, t, k, i);
    SizeTaken(cfg, m, k);
    TargetsAhead(cfg, m, t, k);
    if ClosesAt(cfg, m, t, k) {
      CloseAhead(cfg, m.opening, t.timestamp, m.opening.targets[k], TakeProfit(k + 1));
    } else {
      TargetsAhead(cfg, Next(cfg, m, t, k), t, k + 1);
      if k < i {
        PartialsIff(cfg, Next(cfg, m, t, k), t, k + 1, i);
      }
    }
  }

  /** It closes there if the target is worked on or completed, and what is taken up to it leaves no more than dust. */
  lemma {:induction false} ExitsIff(cfg: Config, m: State, t: Tick, k: nat, i: nat)
    requires k <= i < |m.opening.targets| && m.opening.fill > 0.0 && m.opening.size > 0.0
    requires Sane(cfg) && m.remaining >= 0.0
    ensures var es := TargetEvents(cfg, m, t, k);
            HasAction(es, ExitTo(TakeProfit(i + 1))) <==>
            (Works(m, t, i) || i in m.completed) && NoExit(es, i) && m.remaining - Taken(es, i + 1) <= EPSILON
    decreases i - k
  {
    hide HasAction, FillEvents, ClosePair, TargetEvents, TargetHit, CloseSize, FeeBreakEven, ArmsBreakEven;
    StepActions(cfg, m, t, k);
    FillActions(cfg, m, t, k);
    FillTaken(cfg, m, t, k, i + 1);
    SizeTaken(cfg, m, k);
    TargetsAhead(cfg, m, t, k);
    if ClosesAt(cfg, m, t, k) {
      CloseAhead(cfg, m.opening, t.timestamp, m.opening.targets[k], TakeProfit(k + 1));
    } else {
      TargetsAhead(cfg, Next(cfg, m, t, k), t, k + 1);
      if k < i {
        ExitsIff(cfg, Next(cfg, m, t, k), t, k + 1, i);
      }
    }
  }

  lemma SizeTaken(cfg: Config, m: State, i: nat)
    requires i < |m.opening.targets| && m.opening.size > 0.0 && Sane(cfg) && m.remaining >= 0.0
    ensures 0.0 <= CloseSize(cfg, m, i) <= m.remaining
    ensures CloseSize(cfg, m, i) > 0.0 <==>
      m.remaining > 0.0 && (i + 1 == |m.opening.targets| || (i == 1 ==> cfg.tp2ClosePct > 0.0))
  {
    var size := m.opening.size;
    assert size * (cfg.tp1ClosePct / 100.0) > 0.0;
    assert cfg.tp2ClosePct > 0.0 ==> size * (cfg.tp2ClosePct / 100.0) > 0.0;
    assert cfg.tp2ClosePct == 0.0 ==> size * (cfg.tp2ClosePct / 100.0) == 0.0;
  }

  /** Break-even is armed at the first target only, when its share leaves something. */
  lemma {:induction false} ArmsIff(cfg: Config, m: State, t: Tick, k: nat)
    requires k <= |m.opening.targets| && m.opening.fill > 0.0
    ensures forall x | x in {BreakEvenArmed, StopMove(Tp1FeeBreakEven)} ::
      HasAction(TargetEvents(cfg, m, t, k), x) <==>
      && k == 0 && m.opening.targets != [] && Works(m, t, 0)
      && |m.opening.targets| > 1 && m.remaining > m.opening.size * cfg.tp1ClosePct / 100.0
    decreases |m.opening.targets| - k
  {
    hide HasAction, FillEvents, ClosePair, TargetEvents, TargetHit, FeeBreakEven;
    if k == |m.opening.targets| {
      LoopEnds(cfg, m, t);
    } else {
      StepActions(cfg, m, t, k);
      FillActions(cfg, m, t, k);
      ShareLeaves(cfg, m);
      if ClosesAt(cfg, m, t, k) {
        CloseAhead(cfg, m.opening, t.timestamp, m.opening.targets[k], TakeProfit(k + 1));
      } else {
        ArmsIff(cfg, Next(cfg, m, t, k), t, k + 1);
      }
    }
  }

  lemma ShareLeaves(cfg: Config, m: State)
    requires m.opening.targets != []
    ensures ArmsBreakEven(cfg, m, 0) <==>
      |m.opening.targets| > 1 && m.remaining > m.opening.size * cfg.tp1ClosePct / 100.0
  {
    var share := m.opening.size * (cfg.tp1ClosePct / 100.0);
    assert share == m.opening.size * cfg.tp1ClosePct / 100.0;
  }

  /** The profit lock is armed after a loop that touched nothing, nor any update before. */
  lemma {:induction false} LocksIff(cfg: Config, m: State, t: Tick, k: nat)
    requires k <= |m.opening.targets| && m.opening.fill > 0.0 && m.completed <= m.touched
    ensures forall x | x in {ProfitLockArmed, StopMove(ProfitLockFeeBreakEven)} ::
      HasAction(TargetEvents(cfg, m, t, k), x) <==>
      ArmsProfitLock(cfg, m) && forall i: nat | k <= i < |m.opening.targets| :: !TargetHit(m.opening, t, i)
    decreases |m.opening.targets| - k
  {
    hide HasAction, FillEvents, ClosePair, TargetEvents, TargetHit, CloseSize, ArmsBreakEven;
    if k == |m.opening.targets| {
      LoopEnds(cfg, m, t);
    } else {
      StepActions(cfg, m, t, k);
      FillActions(cfg, m, t, k);
      if ClosesAt(cfg, m, t, k) {
        CloseAhead(cfg, m.opening, t.timestamp, m.opening.targets[k], TakeProfit(k + 1));
      } else {
        LocksIff(cfg, Next(cfg, m, t, k), t, k + 1);
      }
    }
  }

  // ----- one update of the log of an open trade -----

  /** The log of an open trade with no exit pending. */
  ghost predicate Awake(cfg: Config, log: seq<Event>) {
    Legal(cfg, log) && Started(log) && !Replay(log).closed && Replay(log).pending.None?
  }

  /** The log after an update that lives through all its appends. */
  ghost function Updated(cfg: Config, log: seq<Event>, t: Tick): seq<Event>
    requires Awake(cfg, log)
  {
    LegalStarted(cfg, log);
    Advance(cfg, log, Step(t, |Program(cfg, Replay(log), t)|)).log
  }

  /** The update is one of the runs the guarantees speak of, and persists exactly the actions it attempts. */
  lemma UpdatedActions(cfg: Config, log: seq<Event>, t: Tick)
    requires Awake(cfg, log) && Sane(cfg)
    ensures Replay(log).opening == log[0].body.opening && ValidOpening(log[0].body.opening)
    ensures Legal(cfg, Updated(cfg, log, t)) && Opened(Updated(cfg, log, t))
    ensures forall x :: HasAction(Updated(cfg, log, t), x) <==>
                        HasAction(log, x) || HasAction(Program(cfg, Replay(log), t), x)
  {
    hide Legal, ApplyAll, Program, HasAction, Exec, ValidOpening;
    LegalStarted(cfg, log);
    var es := Program(cfg, Replay(log), t);
    AdvanceLegal(cfg, log, Step(t, |es|));
    assert Take(es, |es|) == es;
    ExecActions(log, es);
  }

  lemma ExecActions(log: seq<Event>, es: seq<Event>)
    requires !Exec(log, es).conflict
    ensures forall x :: HasAction(Exec(log, es).log, x) <==> HasAction(log, x) || HasAction(es, x)
  {
    ExecExtends(log, es);
    HasActionGrows(log, Exec(log, es).log);
    ExecHolds(log, es);
    forall x ensures HasAction(Exec(log, es).log, x) <==> HasAction(log, x) || HasAction(es, x) {
      if !HasAction(es, x) {
        ExecAddsAttempts(log, es, x);
      }
    }
  }

  /** The attempts of an update with no exit pending, action by action. */
  lemma ProgramActions(cfg: Config, s: State, t: Tick)
    requires s.opening.fill > 0.0 && s.pending.None?
    ensures forall x: Action | !x.Observation? ::
      HasAction(Program(cfg, s, t), x) <==>
      if StopHit(s, t) then x == SlTouched || x == ExitTo(StopLoss) || x == TerminalClose
      else HasAction(TargetEvents(cfg, Observed(s, t), t, 0), x)
    ensures forall level :: Taken(Program(cfg, s, t), level) ==
                            if StopHit(s, t) then 0.0 else Taken(TargetEvents(cfg, Observed(s, t), t, 0), level)
  {
    hide HasAction, Observations, StopEvents, TargetEvents, StopHit, ExcursionPct;
    var rest := if StopHit(s, t) then StopEvents(cfg, Observed(s, t), t) else TargetEvents(cfg, Observed(s, t), t, 0);
    ObservationActions(s, t);
    StopActions(cfg, Observed(s, t), t);
    ActionsConcat(Observations(s, t), rest);
    forall level
      ensures Taken(Program(cfg, s, t), level) ==
              if StopHit(s, t) then 0.0 else Taken(TargetEvents(cfg, Observed(s, t), t, 0), level)
    {
      TakenConcat(Observations(s, t), rest, level);
      NothingTaken(cfg, s, t, level);
    }
  }

  lemma NothingTaken(cfg: Config, s: State, t: Tick, level: nat)
    requires s.opening.fill > 0.0
    ensures Taken(Observations(s, t), level) == 0.0
    ensures Taken(StopEvents(cfg, Observed(s, t), t), level) == 0.0
  {
    hide Pnl, Fee, ExcursionPct;
    TakenNothing(Observations(s, t), level);
    TakenNothing(StopEvents(cfg, Observed(s, t), t), level);
  }

  /**
   The stop of an open trade is taken if and only if the candle trades there: a long by its
   low, a short by its high, and where there is no candle by the mark.
   */
  lemma StopTakenIff(cfg: Config, log: seq<Event>, t: Tick)
    requires Awake(cfg, log) && Sane(cfg)
    ensures var high := if t.candle.Some? then t.candle.value.high else t.mark;
            var low := if t.candle.Some? then t.candle.value.low else t.mark;
            HasAction(Updated(cfg, log, t), SlTouched) <==>
            if log[0].body.opening.direction.Long? then low <= Replay(log).stop else high >= Replay(log).stop
  {
    hide Legal, ApplyAll, Program, Updated, HasAction, ValidOpening, TargetEvents;
    var s := Replay(log);
    UpdatedActions(cfg, log, t);
    ProgramActions(cfg, s, t);
    TargetsAhead(cfg, Observed(s, t), t, 0);
    LegalKeyFacts(cfg, log);
    assert !HasAction(log, SlTouched);
  }

  /** What is not persisted before an update with no exit pending. */
  lemma AwakeFacts(cfg: Config, log: seq<Event>)
    requires Awake(cfg, log)
    ensures var s := Replay(log);
            && s.opening == log[0].body.opening && ValidOpening(s.opening)
            && !HasAction(log, SlTouched) && (forall r :: !HasAction(log, ExitTo(r)))
            && (forall i: nat :: HasAction(log, Touch(i + 1)) <==> i in s.touched)
            && (forall i: nat :: HasAction(log, Partial(i + 1)) <==> i in s.completed)
            && s.completed <= s.touched && s.remaining >= 0.0
            && (forall i | i in s.touched :: i < |s.opening.targets|)
  {
    hide Legal, ApplyAll, HasAction, ValidOpening;
    LegalKeyFacts(cfg, log);
    LegalIntentFacts(cfg, log);
    LegalQuantityFacts(cfg, log);
  }

  /**
   A target is newly touched if and only if the stop is not taken, the candle trades at the
   target, on the far side for a short, and no exit was made at a target before it.
   */
  lemma TargetTouchedIff(cfg: Config, log: seq<Event>, t: Tick, i: nat)
    requires Awake(cfg, log) && Sane(cfg) && i < |log[0].body.opening.targets|
    ensures var o, next := log[0].body.opening, Updated(cfg, log, t);
            var high := if t.candle.Some? then t.candle.value.high else t.mark;
            var low := if t.candle.Some? then t.candle.value.low else t.mark;
            HasAction(next, Touch(i + 1)) <==>
            || HasAction(log, Touch(i + 1))
            || (!HasAction(next, SlTouched) && NoExit(next, i)
                && if o.direction.Long? then high >= o.targets[i] else low <= o.targets[i])
  {
    hide Legal, ApplyAll, Program, Updated, HasAction, ValidOpening, TargetEvents, StopHit;
    var s := Replay(log);
    AwakeFacts(cfg, log);
    SizedOpening(s.opening);
    UpdatedActions(cfg, log, t);
    ProgramActions(cfg, s, t);
    TargetsAhead(cfg, Observed(s, t), t, 0);
    TouchesIff(cfg, Observed(s, t), t, 0, i);
  }

  lemma SizedOpening(o: Opening)
    requires ValidOpening(o)
    ensures o.fill > 0.0 && o.size > 0.0 && o.targets != []
  {
  }

  /**
   A touched target takes a partial if and only if the stop is not taken, no exit was made at
   a target before it, something remains and its share is not zero.
   */
  lemma PartialTakenIff(cfg: Config, log: seq<Event>, t: Tick, i: nat)
    requires Awake(cfg, log) && Sane(cfg) && i < |log[0].body.opening.targets|
    ensures var o, next := log[0].body.opening, Updated(cfg, log, t);
            HasAction(next, Partial(i + 1)) <==>
            || HasAction(log, Partial(i + 1))
            || (!HasAction(next, SlTouched) && NoExit(next, i) && HasAction(next, Touch(i + 1))
                && Replay(log).remaining > 0.0 && (i + 1 == |o.targets| || (i == 1 ==> cfg.tp2ClosePct > 0.0)))
  {
    hide Legal, ApplyAll, Program, Updated, HasAction, ValidOpening, TargetEvents, StopHit, TargetHit;
    var s := Replay(log);
    AwakeFacts(cfg, log);
    SizedOpening(s.opening);
    UpdatedActions(cfg, log, t);
    ProgramActions(cfg, s, t);
    TargetsAhead(cfg, Observed(s, t), t, 0);
    TouchesIff(cfg, Observed(s, t), t, 0, i);
    PartialsIff(cfg, Observed(s, t), t, 0, i);
    TakenLeaves(cfg, Observed(s, t), t, 0, i);
    TakenNotNegative(cfg, Observed(s, t), t, 0, i);
  }

  lemma {:induction false} TakenNotNegative(cfg: Config, m: State, t: Tick, k: nat, level: nat)
    requires k <= |m.opening.targets| && m.opening.fill > 0.0
    ensures Taken(TargetEvents(cfg, m, t, k), level) >= 0.0
    decreases |m.opening.targets| - k
  {
    hide HasAction, FillEvents, ClosePair, TargetEvents, TargetHit, CloseSize, ArmsBreakEven, FeeBreakEven;
    if k == |m.opening.targets| {
      LoopEnds(cfg, m, t);
    } else {
      StepActions(cfg, m, t, k);
      FillTaken(cfg, m, t, k, level);
      if ClosesAt(cfg, m, t, k) {
        CloseAhead(cfg, m.opening, t.timestamp, m.opening.targets[k], TakeProfit(k + 1));
      } else {
        TakenNotNegative(cfg, Next(cfg, m, t, k), t, k + 1, level);
      }
    }
  }

  /**
   The trade is closed at target i if and only if the stop is not taken, the target is touched,
   no exit was made before, and what the update takes up to target i leaves no more than dust.
   */
  lemma TargetExitIff(cfg: Config, log: seq<Event>, t: Tick, i: nat)
    requires Awake(cfg, log) && Sane(cfg) && i < |log[0].body.opening.targets|
    ensures Replay(log).opening.fill > 0.0
    ensures var o, next := log[0].body.opening, Updated(cfg, log, t);
            HasAction(next, ExitTo(TakeProfit(i + 1))) <==>
            && !HasAction(next, SlTouched) && NoExit(next, i) && HasAction(next, Touch(i + 1))
            && Replay(log).remaining - Taken(Program(cfg, Replay(log), t), i + 1) <= 0.000000000001
  {
    hide Legal, ApplyAll, Program, Updated, HasAction, ValidOpening, TargetEvents, StopHit, TargetHit;
    var s := Replay(log);
    AwakeFacts(cfg, log);
    SizedOpening(s.opening);
    UpdatedActions(cfg, log, t);
    ProgramActions(cfg, s, t);
    TargetsAhead(cfg, Observed(s, t), t, 0);
    TouchesIff(cfg, Observed(s, t), t, 0, i);
    ExitsIff(cfg, Observed(s, t), t, 0, i);
  }

  /**
   The stop moves to break-even at the first target if and only if the stop is not taken, the
   target is touched without a partial before, it is not the only one, and its share leaves something.
   */
  lemma BreakEvenMovesIff(cfg: Config, log: seq<Event>, t: Tick)
    requires Awake(cfg, log) && Sane(cfg)
    ensures var o, next := log[0].body.opening, Updated(cfg, log, t);
            forall x | x in {BreakEvenArmed, StopMove(Tp1FeeBreakEven)} ::
              HasAction(next, x) <==>
              || HasAction(log, x)
              || (!HasAction(next, SlTouched) && HasAction(next, Touch(1)) && !HasAction(log, Partial(1))
                  && |o.targets| > 1 && Replay(log).remaining > o.size * cfg.tp1ClosePct / 100.0)
  {
    hide Legal, ApplyAll, Program, Updated, HasAction, ValidOpening, TargetEvents, StopHit, TargetHit;
    var s := Replay(log);
    AwakeFacts(cfg, log);
    SizedOpening(s.opening);
    UpdatedActions(cfg, log, t);
    ProgramActions(cfg, s, t);
    TargetsAhead(cfg, Observed(s, t), t, 0);
    TouchesIff(cfg, Observed(s, t), t, 0, 0);
    ArmsIff(cfg, Observed(s, t), t, 0);
    assert HasAction(log, Touch(0 + 1)) <==> 0 in s.touched;
    assert HasAction(log, Partial(0 + 1)) <==> 0 in s.completed;
  }

  /**
   The profit lock is armed, and the stop moved with it, if and only if the stop is not taken,
   no target was ever touched, the lock was not armed before, and the best price so far covers
   the configured fraction of the way from the fill to the first target.
   */
  lemma ProfitLocksIff(cfg: Config, log: seq<Event>, t: Tick)
    requires Awake(cfg, log) && Sane(cfg)
    ensures var o, s, next := log[0].body.opening, Replay(log), Updated(cfg, log, t);
            && o.targets != []
            && var high := if t.candle.Some? then t.candle.value.high else t.mark;
               var low := if t.candle.Some? then t.candle.value.low else t.mark;
               var way := if o.targets[0] >= o.fill then o.targets[0] - o.fill else o.fill - o.targets[0];
               var gain := if o.direction.Long? then high - o.fill else o.fill - low;
               forall x | x in {ProfitLockArmed, StopMove(ProfitLockFeeBreakEven)} ::
                 HasAction(next, x) <==>
                 || HasAction(log, x)
                 || (!HasAction(next, SlTouched) && !s.profitLock
                     && (forall level | 1 <= level <= |o.targets| :: !HasAction(next, Touch(level)))
                     && way != 0.0
                     && (s.mfe * o.fill >= cfg.profitLockFraction * way * 100.0
                         || gain * 100.0 >= cfg.profitLockFraction * way * 100.0))
  {
    hide Legal, ApplyAll, Program, Updated, HasAction, ValidOpening, TargetEvents, StopHit, ArmsProfitLock;
    var s := Replay(log);
    AwakeFacts(cfg, log);
    SizedOpening(s.opening);
    UpdatedActions(cfg, log, t);
    ProgramActions(cfg, s, t);
    TargetsAhead(cfg, Observed(s, t), t, 0);
    LocksIff(cfg, Observed(s, t), t, 0);
    LockInNumbers(cfg, s, t);
    UntouchedIff(cfg, log);
    if s.touched == {} {
      TouchesNothingIff(cfg, Observed(s, t), t, 0);
    }
  }

  lemma UntouchedIff(cfg: Config, log: seq<Event>)
    requires Awake(cfg, log)
    ensures Replay(log).touched == {} <==>
            forall level | 1 <= level <= |log[0].body.opening.targets| :: !HasAction(log, Touch(level))
  {
    hide Legal, ApplyAll, HasAction;
    AwakeFacts(cfg, log);
    var s := Replay(log);
    if s.touched == {} {
      forall level | 1 <= level <= |log[0].body.opening.targets| ensures !HasAction(log, Touch(level)) {
        assert HasAction(log, Touch(level - 1 + 1)) <==> level - 1 in s.touched;
      }
    } else {
      var i :| i in s.touched;
      assert HasAction(log, Touch(i + 1));
    }
  }

  lemma {:induction false} TouchesNothingIff(cfg: Config, m: State, t: Tick, k: nat)
    requires k <= |m.opening.targets| && m.opening.fill > 0.0 && m.completed == m.touched == {}
    ensures (forall level | k < level <= |m.opening.targets| :: !HasAction(TargetEvents(cfg, m, t, k), Touch(level)))
      <==> forall i: nat | k <= i < |m.opening.targets| :: !TargetHit(m.opening, t, i)
    decreases |m.opening.targets| - k
  {
    hide HasAction, FillEvents, ClosePair, TargetEvents, TargetHit, CloseSize, ArmsBreakEven;
    if k < |m.opening.targets| {
      StepActions(cfg, m, t, k);
      FillActions(cfg, m, t, k);
      if Works(m, t, k) {
        assert HasAction(TargetEvents(cfg, m, t, k), Touch(k + 1));
      } else {
        TargetsAhead(cfg, m, t, k + 1);
        TouchesNothingIff(cfg, m, t, k + 1);
      }
    }
  }

  lemma LockInNumbers(cfg: Config, s: State, t: Tick)
    requires s.opening.fill > 0.0 && s.opening.targets != []
    ensures var o := s.opening;
            var high := if t.candle.Some? then t.candle.value.high else t.mark;
            var low := if t.candle.Some? then t.candle.value.low else t.mark;
            var way := if o.targets[0] >= o.fill then o.targets[0] - o.fill else o.fill - o.targets[0];
            var gain := if o.direction.Long? then high - o.fill else o.fill - low;
            ArmsProfitLock(cfg, Observed(s, t)) <==>
            && s.touched == {} && !s.profitLock && way != 0.0
            && (s.mfe * o.fill >= cfg.profitLockFraction * way * 100.0
                || gain * 100.0 >= cfg.profitLockFraction * way * 100.0)
  {
    hide ExcursionPct;
    var o := s.opening;
    var way := Abs(o.targets[0] - o.fill);
    var pct := ExcursionPct(o, Favorable(o, t));
    PctInNumbers(o, Favorable(o, t));
    FractionReached(s.mfe, cfg.profitLockFraction, way, o.fill);
    FractionReached(pct, cfg.profitLockFraction, way, o.fill);
  }

  lemma FractionReached(pct: real, fraction: real, way: real, fill: real)
    requires fill > 0.0
    ensures pct >= fraction * (way / fill * 100.0) <==> pct * fill >= fraction * way * 100.0
  {
    var needed := fraction * (way / fill * 100.0);
    assert needed * fill == fraction * way * 100.0 by {
      assert way / fill * fill == way;
    }
    assert pct >= needed <==> pct * fill >= needed * fill by {
      ScaledExtremes(pct, needed, fill);
    }
  }

  // ----- what the attempts of an update say, in numbers -----

  /** A size sold at a price: its signed distance from the fill, and half the round-trip rate on its value. */
  predicate PaysFor(cfg: Config, o: Opening, price: real, size: real, gross: real, fee: real) {
    && gross == (if o.direction.Long? then (price - o.fill) * size else (o.fill - price) * size)
    && fee * 20000.0 == price * size * cfg.roundtripFeeBps
  }

  predicate MovedStop(cfg: Config, o: Opening, stop: real) {
    stop * 100.0 ==
    o.fill * if o.direction.Long? then 100.0 + cfg.breakEvenBufferPct else 100.0 - cfg.breakEvenBufferPct
  }

  /** The price of an exit: the stop, or that of its target. */
  predicate PriceOf(s: State, reason: ExitReason, price: real) {
    match reason
    case StopLoss => price == s.stop
    case TakeProfit(level) => 1 <= level <= |s.opening.targets| && price == s.opening.targets[level - 1]
  }

  predicate InNumbers(cfg: Config, s: State, t: Tick, e: Event) {
    var o := s.opening;
    var high := if t.candle.Some? then t.candle.value.high else t.mark;
    var low := if t.candle.Some? then t.candle.value.low else t.mark;
    && e.timestamp == t.timestamp
    && match e.body
       case MarkDecision(mark, h, l, stop, remaining) =>
         mark == t.mark && h == high && l == low && stop == s.stop && remaining == s.remaining
       case MfeUpdate(price, pct) =>
         && pct > s.mfe && price == (if o.direction.Long? then high else low)
         && pct * o.fill == (if o.direction.Long? then high - o.fill else o.fill - low) * 100.0
       case MaeUpdate(price, pct) =>
         && pct < s.mae && price == (if o.direction.Long? then low else high)
         && pct * o.fill == (if o.direction.Long? then low - o.fill else o.fill - high) * 100.0
       case TpTouch(level, price, mark) => PriceOf(s, TakeProfit(level), price) && mark == t.mark
       case SlTouch(price, mark) => price == s.stop && mark == t.mark
       case PartialExit(price, size, gross, fee, reason, level) =>
         && size > 0.0 && reason == TakeProfit(level) && PriceOf(s, reason, price)
         && PaysFor(cfg, o, price, size, gross, fee)
       case BreakEvenActivated(stop, mark) => MovedStop(cfg, o, stop) && mark == t.mark
       case ProfitLockActivated(stop, mark) => MovedStop(cfg, o, stop) && mark == t.mark
       case StopUpdated(oldStop, newStop, _) => oldStop == s.stop && MovedStop(cfg, o, newStop)
       case ExitReasonTransition(to, price) => PriceOf(s, to, price)
       case TradeClosed(price, size, gross, fee, reason) =>
         && PriceOf(s, reason, price) && PaysFor(cfg, o, price, size, gross, fee)
         && size == if reason.StopLoss? then s.remaining else 0.0
       case _ => false
  }

  ghost predicate AllInNumbers(cfg: Config, s: State, t: Tick, es: seq<Event>) {
    forall e | e in es :: InNumbers(cfg, s, t, e)
  }

  lemma NumbersConcat(cfg: Config, s: State, t: Tick, a: seq<Event>, b: seq<Event>)
    requires AllInNumbers(cfg, s, t, a) && AllInNumbers(cfg, s, t, b)
    ensures AllInNumbers(cfg, s, t, a + b)
  {
    hide InNumbers;
  }

  lemma Amounts(cfg: Config, o: Opening, price: real, size: real)
    ensures PaysFor(cfg, o, price, size, Pnl(o, price, size), Fee(cfg, price, size))
    ensures MovedStop(cfg, o, FeeBreakEven(cfg, o))
  {
    var value := price * size;
    assert Fee(cfg, price, size) == value * (cfg.roundtripFeeBps / 10000.0) / 2.0;
    assert value * (cfg.roundtripFeeBps / 10000.0) == value * cfg.roundtripFeeBps / 10000.0;
  }

  lemma ObservationNumbers(cfg: Config, s: State, t: Tick)
    requires s.opening.fill > 0.0
    ensures AllInNumbers(cfg, s, t, Observations(s, t))
  {
    hide PaysFor, MovedStop, PriceOf;
    var o := s.opening;
    assert ExcursionPct(o, Favorable(o, t)) * o.fill ==
           (if o.direction.Long? then Favorable(o, t) - o.fill else o.fill - Favorable(o, t)) * 100.0;
    assert ExcursionPct(o, Adverse(o, t)) * o.fill ==
           (if o.direction.Long? then Adverse(o, t) - o.fill else o.fill - Adverse(o, t)) * 100.0;
    hide ExcursionPct;
  }

  lemma CloseNumbers(cfg: Config, s: State, t: Tick, price: real, reason: ExitReason)
    requires PriceOf(s, reason, price)
    ensures AllInNumbers(cfg, s, t,
                         ClosePair(cfg, s.opening, t.timestamp, price, reason,
                           if reason.StopLoss? then s.remaining else 0.0))
  {
    hide Pnl, Fee, PaysFor, MovedStop;
    Amounts(cfg, s.opening, price, if reason.StopLoss? then s.remaining else 0.0);
  }

  lemma FillNumbers(cfg: Config, m: State, t: Tick, i: nat)
    requires i < |m.opening.targets|
    ensures AllInNumbers(cfg, m, t, FillEvents(cfg, m, t, i))
  {
    hide Pnl, Fee, PaysFor, MovedStop, FeeBreakEven, CloseSize;
    Amounts(cfg, m.opening, m.opening.targets[i], CloseSize(cfg, m, i));
  }

  /** After the first target nothing moves the stop once a target is touched. */
  lemma {:induction false} MovesNothing(cfg: Config, m: State, t: Tick, k: nat)
    requires 1 <= k <= |m.opening.targets| && m.opening.fill > 0.0 && m.touched != {}
    ensures forall e | e in TargetEvents(cfg, m, t, k) :: !e.body.StopUpdated? && !e.body.MarkDecision?
    ensures forall e | e in TargetEvents(cfg, m, t, k) :: !e.body.MfeUpdate? && !e.body.MaeUpdate?
    decreases |m.opening.targets| - k
  {
    hide Pnl, Fee, FeeBreakEven, CloseSize, TargetHit;
    if k < |m.opening.targets| {
      TargetStep(cfg, m, t, k);
      if !ClosesAt(cfg, m, t, k) {
        MovesNothing(cfg, Next(cfg, m, t, k), t, k + 1);
      }
    }
  }

  lemma {:induction false} TargetNumbers(cfg: Config, m: State, t: Tick, k: nat)
    requires k <= |m.opening.targets| && m.opening.fill > 0.0
    ensures AllInNumbers(cfg, m, t, TargetEvents(cfg, m, t, k))
    ensures forall e | e in TargetEvents(cfg, m, t, k) :: !e.body.SlTouch?
    ensures forall e | e in TargetEvents(cfg, m, t, k) :: e.body.TradeClosed? ==> e.body.reason.TakeProfit?
    ensures forall e | e in TargetEvents(cfg, m, t, k) :: e.body.ExitReasonTransition? ==> e.body.to.TakeProfit?
    decreases |m.opening.targets| - k
  {
    hide Pnl, Fee, FeeBreakEven, CloseSize, TargetHit, PaysFor, MovedStop, FillEvents, ArmsProfitLock;
    if k == |m.opening.targets| {
      Amounts(cfg, m.opening, 0.0, 0.0);
    } else {
      TargetStep(cfg, m, t, k);
      FillNumbers(cfg, m, t, k);
      FillExitsNothing(cfg, m, t, k);
      if ClosesAt(cfg, m, t, k) {
        CloseNumbers(cfg, m, t, m.opening.targets[k], TakeProfit(k + 1));
      } else {
        var next := Next(cfg, m, t, k);
        TargetNumbers(cfg, next, t, k + 1);
        if Works(m, t, k) {
          MovesNothing(cfg, next, t, k + 1);
          OtherNumbers(cfg, m, next, t, TargetEvents(cfg, next, t, k + 1));
        }
      }
      NumbersConcat(cfg, m, t, Head(cfg, m, t, k), Rest(cfg, m, t, k));
    }
  }

  lemma FillExitsNothing(cfg: Config, m: State, t: Tick, i: nat)
    requires i < |m.opening.targets|
    ensures forall e | e in FillEvents(cfg, m, t, i) ::
      !e.body.SlTouch? && !e.body.TradeClosed? && !e.body.ExitReasonTransition?
  {
    hide Pnl, Fee, FeeBreakEven, CloseSize;
  }

  lemma OtherNumbers(cfg: Config, m: State, next: State, t: Tick, es: seq<Event>)
    requires m.opening == next.opening && AllInNumbers(cfg, next, t, es)
    requires forall e | e in es :: !e.body.StopUpdated? && !e.body.MarkDecision? && !e.body.MfeUpdate?
    requires forall e | e in es :: !e.body.MaeUpdate? && !e.body.SlTouch?
    requires forall e | e in es :: e.body.TradeClosed? ==> e.body.reason.TakeProfit?
    requires forall e | e in es :: e.body.ExitReasonTransition? ==> e.body.to.TakeProfit?
    ensures AllInNumbers(cfg, m, t, es)
  {
    hide PaysFor, MovedStop;
  }

  /**
   Everything an update with no exit pending attempts, in numbers: prices and marks, excursions
   in percent of the fill, gross and fee of each exit, the size of the final close, and the stop moves.
   */
  lemma AttemptsInNumbers(cfg: Config, s: State, t: Tick)
    requires s.opening.fill > 0.0 && s.pending.None?
    ensures AllInNumbers(cfg, s, t, Program(cfg, s, t))
    ensures Program(cfg, s, t) != [] && Program(cfg, s, t)[0].body.MarkDecision?
  {
    hide ExcursionPct, StopHit, TargetEvents, PaysFor, MovedStop, Pnl, Fee;
    var m := Observed(s, t);
    ObservationNumbers(cfg, s, t);
    if StopHit(s, t) {
      CloseNumbers(cfg, m, t, s.stop, StopLoss);
      NumbersConcat(cfg, s, t, Observations(s, t), StopEvents(cfg, m, t));
    } else {
      TargetNumbers(cfg, m, t, 0);
      TargetsObserveNothing(cfg, m, t, 0);
      NumbersConcat(cfg, s, t, Observations(s, t), TargetEvents(cfg, m, t, 0));
    }
  }

  lemma {:induction false} TargetsObserveNothing(cfg: Config, m: State, t: Tick, k: nat)
    requires k <= |m.opening.targets| && m.opening.fill > 0.0
    ensures forall e | e in TargetEvents(cfg, m, t, k) ::
      !e.body.MarkDecision? && !e.body.MfeUpdate? && !e.body.MaeUpdate?
    decreases |m.opening.targets| - k
  {
    TargetsAhead(cfg, m, t, k);
    forall e | e in TargetEvents(cfg, m, t, k)
      ensures !e.body.MarkDecision? && !e.body.MfeUpdate? && !e.body.MaeUpdate?
    {
      assert HasAction(TargetEvents(cfg, m, t, k), ActionOf(e));
    }
  }

  // ----- what the log of a trade says, in numbers -----

  lemma {:induction false} LoopCloses(cfg: Config, m: State, t: Tick, k: nat)
    requires k <= |m.opening.targets| && m.opening.fill > 0.0
    ensures var es := TargetEvents(cfg, m, t, k);
            HasAction(es, TerminalClose) <==> exists level :: HasAction(es, ExitTo(TakeProfit(level)))
    decreases |m.opening.targets| - k
  {
    hide HasAction, FillEvents, ClosePair, TargetEvents, TargetHit;
    if k == |m.opening.targets| {
      LoopEnds(cfg, m, t);
    } else {
      StepActions(cfg, m, t, k);
      FillActions(cfg, m, t, k);
      if ClosesAt(cfg, m, t, k) {
        CloseAhead(cfg, m.opening, t.timestamp, m.opening.targets[k], TakeProfit(k + 1));
        assert HasAction(TargetEvents(cfg, m, t, k), ExitTo(TakeProfit(k + 1)));
      } else {
        LoopCloses(cfg, Next(cfg, m, t, k), t, k + 1);
      }
    }
  }

  /**
   An update closes the trade if and only if the stop or the exit of a target is taken.  The
   close is then the last event of the log: at the stop for all that remained, or at the price
   of the target for nothing more, with gross and fee as written out in `PaysFor`.
   */
  lemma CloseInNumbers(cfg: Config, log: seq<Event>, t: Tick)
    requires Awake(cfg, log) && Sane(cfg)
    ensures var next := Updated(cfg, log, t);
            && Opened(next)
            && (Replay(next).closed <==>
                HasAction(next, SlTouched) || exists level :: HasAction(next, ExitTo(TakeProfit(level))))
            && (Replay(next).closed ==>
                  var last := next[|next| - 1];
                  && last.body.TradeClosed? && InNumbers(cfg, Replay(log), t, last)
                  && (last.body.reason.StopLoss? <==> HasAction(next, SlTouched)))
  {
    hide Legal, ApplyAll, HasAction, ValidOpening, TargetEvents, StopHit, InNumbers, Program, Exec;
    var s, next := Replay(log), Updated(cfg, log, t);
    AwakeFacts(cfg, log);
    SizedOpening(s.opening);
    UpdatedActions(cfg, log, t);
    ProgramActions(cfg, s, t);
    LoopCloses(cfg, Observed(s, t), t, 0);
    TargetsAhead(cfg, Observed(s, t), t, 0);
    LegalKeyFacts(cfg, log);
    LegalKeyFacts(cfg, next);
    if Replay(next).closed {
      LastIsAttempted(cfg, log, t);
    }
  }

  lemma LastIsAttempted(cfg: Config, log: seq<Event>, t: Tick)
    requires Awake(cfg, log) && Sane(cfg) && Opened(Updated(cfg, log, t)) && Replay(Updated(cfg, log, t)).closed
    ensures var next := Updated(cfg, log, t);
            && next[|next| - 1].body.TradeClosed? && InNumbers(cfg, Replay(log), t, next[|next| - 1])
            && (next[|next| - 1].body.reason.StopLoss? <==> HasAction(next, SlTouched))
  {
    hide Legal, ApplyAll, HasAction, ValidOpening, InNumbers, Program, Exec, TargetEvents, StopHit;
    var s, next := Replay(log), Updated(cfg, log, t);
    AwakeFacts(cfg, log);
    SizedOpening(s.opening);
    UpdatedActions(cfg, log, t);
    LastCloses(cfg, next);
    var es := Program(cfg, s, t);
    assert Take(es, |es|) == es;
    ExecAddsOnly(log, es);
    ProperPrefix(log, next);
    assert next[|next| - 1] in next[|log|..];
    AttemptsInNumbers(cfg, s, t);
    LegalIntentFacts(cfg, next);
    LegalIntentFacts(cfg, next[..|next| - 1]);
  }

  lemma ProperPrefix(log: seq<Event>, next: seq<Event>)
    requires log <= next && log != next
    ensures |log| < |next|
  {
    assert next[..|log|] == log;
    assert next[..|next|] == next;
  }

  /** A closed trade ends with its close, whose reason is the persisted exit reason. */
  lemma LastCloses(cfg: Config, log: seq<Event>)
    requires Legal(cfg, log) && Replay(log).closed
    ensures |log| > 1 && log[|log| - 1].body.TradeClosed?
    ensures Legal(cfg, log[..|log| - 1]) && !Replay(log[..|log| - 1]).closed
    ensures var s := Replay(log[..|log| - 1]);
            s.pending == Replay(log).pending && s.pending.Some? && s.pending.value.reason == log[|log| - 1].body.reason
  {
    hide Pnl, Fee, HasAction, FeeBreakEven;
    if |log| == 1 {
      ReplayOpening(log);
    } else {
      var before, e := LegalPop(cfg, log);
    }
  }

  /** The final reason of a trade is that of its close, and an open trade has none. */
  lemma {:induction false} FinalReasonIsLast(cfg: Config, log: seq<Event>)
    requires Legal(cfg, log)
    ensures var s, last := Replay(log), log[|log| - 1].body;
            && (s.closed <==> last.TradeClosed?)
            && s.finalReason == if last.TradeClosed? then Some(last.reason) else None
  {
    hide Pnl, Fee, FeeBreakEven, HasAction;
    if |log| == 1 {
      ReplayOpening(log);
    } else {
      var before, e := LegalPop(cfg, log);
      FinalReasonIsLast(cfg, before);
    }
  }

  /** A stop that moved lies at the fill plus the buffer, minus it for a short; one that did not is the initial one. */
  lemma StopInNumbers(cfg: Config, log: seq<Event>)
    requires Legal(cfg, log)
    ensures var o, stop := log[0].body.opening, Replay(log).stop;
            if StopMoved(log)
            then stop * 100.0 == o.fill * if o.direction.Long? then 100.0 + cfg.breakEvenBufferPct
                                          else 100.0 - cfg.breakEvenBufferPct
            else stop == o.stop
  {
    hide Legal, ApplyAll, HasAction;
    LegalKeyFacts(cfg, log);
    LegalStopFacts(cfg, log);
  }

  /** The share of a target in the opened size or, at the last target and where less is left, all that is left. */
  predicate SharesOut(cfg: Config, o: Opening, left: real, level: nat, size: real) {
    var pct := if level == 1 then cfg.tp1ClosePct else if level == 2 then cfg.tp2ClosePct else 100.0;
    if level == |o.targets| || o.size * pct > left * 100.0 then size == left else size * 100.0 == o.size * pct
  }

  /**
   Every partial exit of a legal log is made at the price of its target, and takes the share of
   that target out of what the partials before it left of the opened size.
   */
  lemma PartialSizeInNumbers(cfg: Config, log: seq<Event>, k: nat)
    requires Legal(cfg, log) && 1 <= k < |log| && log[k].body.PartialExit?
    ensures var o, exit := log[0].body.opening, log[k].body;
            && 1 <= exit.level <= |o.targets| && exit.price == o.targets[exit.level - 1]
            && SharesOut(cfg, o, o.size - Taken(log[..k], |o.targets|), exit.level, exit.size)
  {
    hide ApplyAll, HasAction, Legal, Taken, Admissible, KeyFacts, ValidOpening, SharesOut;
    LegalPrefix(cfg, log, k + 1);
    var before, e := LegalPop(cfg, log[..k + 1]);
    assert before == log[..k] && before[0] == log[0] && e == log[k];
    PartialOnTop(cfg, before, e);
  }

  lemma PartialOnTop(cfg: Config, log: seq<Event>, e: Event)
    requires Legal(cfg, log) && Opened(log) && Admissible(cfg, log, Replay(log), e) && e.body.PartialExit?
    ensures var o := log[0].body.opening;
            && 1 <= e.body.level <= |o.targets| && e.body.price == o.targets[e.body.level - 1]
            && SharesOut(cfg, o, o.size - Taken(log, |o.targets|), e.body.level, e.body.size)
  {
    hide ApplyAll, HasAction, Legal, Taken, Admissible, KeyFacts, ValidOpening, SharesOut, TakesShare;
    LegalKeyFacts(cfg, log);
    PartialIsShare(cfg, log, Replay(log), e);
    RemainingInNumbers(cfg, log);
    ShareInNumbers(cfg, log[0].body.opening, Replay(log).remaining, e.body.level, e.body.size);
  }

  lemma RemainingInNumbers(cfg: Config, log: seq<Event>)
    requires Legal(cfg, log) && !Replay(log).closed
    ensures Replay(log).remaining == log[0].body.opening.size - Taken(log, |log[0].body.opening.targets|)
  {
    hide ApplyAll, HasAction, Legal, Taken;
    LegalKeyFacts(cfg, log);
    LegalQuantityFacts(cfg, log);
    ExitedIsTaken(cfg, log);
  }

  lemma PartialIsShare(cfg: Config, log: seq<Event>, s: State, e: Event)
    requires Admissible(cfg, log, s, e) && e.body.PartialExit?
    ensures TakesShare(cfg, s.opening, s.remaining, e.body.level, e.body.size)
    ensures 1 <= e.body.level <= |s.opening.targets| && e.body.price == s.opening.targets[e.body.level - 1]
    ensures !s.closed
  {
  }

  lemma ShareInNumbers(cfg: Config, o: Opening, left: real, level: nat, size: real)
    requires TakesShare(cfg, o, left, level, size)
    ensures SharesOut(cfg, o, left, level, size)
  {
    var pct := if level == 1 then cfg.tp1ClosePct else if level == 2 then cfg.tp2ClosePct else 100.0;
    var share := o.size * pct / 100.0;
    assert share * 100.0 == o.size * pct;
  }

  lemma {:induction false} ExitedIsTaken(cfg: Config, log: seq<Event>)
    requires Legal(cfg, log) && !Replay(log).closed
    ensures Replay(log).exited == Taken(log, |log[0].body.opening.targets|)
  {
    hide Pnl, Fee, FeeBreakEven, HasAction;
    var n := |log[0].body.opening.targets|;
    if |log| == 1 {
      ReplayOpening(log);
      assert Taken(log[..0], n) == 0.0;
    } else {
      var before, e := LegalPop(cfg, log);
      OpenBeforeLast(cfg, log);
      LegalKeyFacts(cfg, before);
      ExitedIsTaken(cfg, before);
    }
  }

  /** An excursion that is the greatest, or for losses the least, of those in a log and of zero. */
  ghost predicate Greatest(log: seq<Event>, mfe: real) {
    && mfe >= 0.0 && (forall e | e in log && e.body.MfeUpdate? :: e.body.pct <= mfe)
    && (mfe == 0.0 || exists e | e in log && e.body.MfeUpdate? :: e.body.pct == mfe)
  }

  ghost predicate Least(log: seq<Event>, mae: real) {
    && mae <= 0.0 && (forall e | e in log && e.body.MaeUpdate? :: e.body.pct >= mae)
    && (mae == 0.0 || exists e | e in log && e.body.MaeUpdate? :: e.body.pct == mae)
  }

  lemma GreatestPush(log: seq<Event>, e: Event, mfe: real)
    requires Greatest(log, mfe)
    ensures Greatest(log + [e], if e.body.MfeUpdate? && e.body.pct > mfe then e.body.pct else mfe)
  {
    assert e in log + [e] && forall x | x in log :: x in log + [e];
  }

  lemma LeastPush(log: seq<Event>, e: Event, mae: real)
    requires Least(log, mae)
    ensures Least(log + [e], if e.body.MaeUpdate? && e.body.pct < mae then e.body.pct else mae)
  {
    assert e in log + [e] && forall x | x in log :: x in log + [e];
  }

  /** The replayed excursions are the extremes of those in the log and of zero. */
  lemma {:induction false} ExcursionsOfLog(o: Opening, log: seq<Event>)
    ensures Greatest(log, ApplyAll(Initial(o), log).mfe) && Least(log, ApplyAll(Initial(o), log).mae)
    decreases |log|
  {
    hide Greatest, Least;
    if log == [] {
      NothingExcursed();
    } else {
      var before, last := log[..|log| - 1], log[|log| - 1];
      ExcursionsOfLog(o, before);
      GreatestPush(before, last, ApplyAll(Initial(o), before).mfe);
      LeastPush(before, last, ApplyAll(Initial(o), before).mae);
      assert log == before + [last];
    }
  }

  lemma NothingExcursed()
    ensures Greatest([], 0.0) && Least([], 0.0)
  {
  }

  lemma {:induction false} ExcursionsKept(s: State, log: seq<Event>, more: seq<Event>)
    requires forall e | e in more :: !e.body.MfeUpdate? && !e.body.MaeUpdate?
    ensures ApplyAll(s, log + more).mfe == ApplyAll(s, log).mfe && ApplyAll(s, log + more).mae == ApplyAll(s, log).mae
    decreases |more|
  {
    if more == [] {
      assert log + more == log;
    } else {
      var head, last := more[..|more| - 1], more[|more| - 1];
      assert (log + more)[..|log + more| - 1] == log + head;
      ExcursionsKept(s, log, head);
    }
  }

  /** A new extreme, in percent of the fill, against the old one. */
  predicate Tracks(fill: real, before: real, distance: real, up: bool, after: real) {
    after * fill ==
    if up then if distance * 100.0 > before * fill then distance * 100.0 else before * fill
    else if distance * 100.0 < before * fill then distance * 100.0 else before * fill
  }

  /** The excursions after an update are the extremes of those before it and of the candle, in percent of the fill. */
  lemma ExcursionsInNumbers(cfg: Config, log: seq<Event>, t: Tick)
    requires Awake(cfg, log) && Sane(cfg)
    ensures var o, s, next := log[0].body.opening, Replay(log), Updated(cfg, log, t);
            var high := if t.candle.Some? then t.candle.value.high else t.mark;
            var low := if t.candle.Some? then t.candle.value.low else t.mark;
            && Opened(next)
            && Tracks(o.fill, s.mfe, if o.direction.Long? then high - o.fill else o.fill - low, true, Replay(next).mfe)
            && Tracks(o.fill, s.mae, if o.direction.Long? then low - o.fill else o.fill - high, false, Replay(next).mae)
  {
    hide Legal, HasAction, ValidOpening, ApplyAll, Updated, Observed, Tracks;
    AwakeFacts(cfg, log);
    SizedOpening(log[0].body.opening);
    UpdatedActions(cfg, log, t);
    ExcursionsObserved(cfg, log, t);
    ObservedInNumbers(Replay(log), t);
  }

  lemma ExcursionsObserved(cfg: Config, log: seq<Event>, t: Tick)
    requires Awake(cfg, log) && Sane(cfg) && Replay(log).opening.fill > 0.0 && Opened(Updated(cfg, log, t))
    ensures var m, next := Observed(Replay(log), t), Updated(cfg, log, t);
            Replay(next).mfe == m.mfe && Replay(next).mae == m.mae
  {
    hide Legal, HasAction, ValidOpening, StopHit, TargetEvents, Good, Exec, Apply, ApplyAll, ExcursionPct;
    var s := Replay(log);
    var l1 := ObservationsPlay(cfg, log, s, t);
    var m := Observed(s, t);
    var rest := if StopHit(s, t) then StopEvents(cfg, m, t) else TargetEvents(cfg, m, t, 0);
    var es := Program(cfg, s, t);
    assert es == Observations(s, t) + rest && Take(es, |es|) == es;
    ExecConcat(log, Observations(s, t), rest);
    ExecExtends(log, Observations(s, t));
    ExecAddsOnly(l1, rest);
    TargetsObserveNothing(cfg, m, t, 0);
    var next := Updated(cfg, log, t);
    assert next == l1 + next[|l1|..];
    ExcursionsKept(Initial(log[0].body.opening), l1, next[|l1|..]);
  }

  lemma ObservedInNumbers(s: State, t: Tick)
    requires s.opening.fill > 0.0
    ensures var o, m := s.opening, Observed(s, t);
            var high := if t.candle.Some? then t.candle.value.high else t.mark;
            var low := if t.candle.Some? then t.candle.value.low else t.mark;
            && Tracks(o.fill, s.mfe, if o.direction.Long? then high - o.fill else o.fill - low, true, m.mfe)
            && Tracks(o.fill, s.mae, if o.direction.Long? then low - o.fill else o.fill - high, false, m.mae)
  {
    hide ExcursionPct, Tracks;
    ExtremesInNumbers(s.opening, Favorable(s.opening, t), s.mfe);
    ExtremesInNumbers(s.opening, Adverse(s.opening, t), s.mae);
  }

  lemma ExtremesInNumbers(o: Opening, price: real, before: real)
    requires o.fill > 0.0
    ensures var pct := ExcursionPct(o, price);
            var distance := if o.direction.Long? then price - o.fill else o.fill - price;
            && Tracks(o.fill, before, distance, true, if pct > before then pct else before)
            && Tracks(o.fill, before, distance, false, if pct < before then pct else before)
  {
    hide ExcursionPct;
    PctInNumbers(o, price);
    ScaledExtremes(ExcursionPct(o, price), before, o.fill);
  }

  lemma PctInNumbers(o: Opening, price: real)
    requires o.fill > 0.0
    ensures ExcursionPct(o, price) * o.fill ==
            (if o.direction.Long? then price - o.fill else o.fill - price) * 100.0
  {
  }

  lemma ScaledExtremes(x: real, y: real, f: real)
    requires f > 0.0
    ensures (if x > y then x else y) * f == if x * f > y * f then x * f else y * f
    ensures (if x < y then x else y) * f == if x * f < y * f then x * f else y * f
  {
    if x > y {
      assert (x - y) * f > 0.0;
    } else {
      assert (y - x) * f >= 0.0;
    }
  }

  /** An update of a trade with a pending exit: that exit again, and the close of what remained when it was written. */
  lemma PendingInNumbers(cfg: Config, s: State, t: Tick)
    requires s.opening.fill > 0.0 && s.pending.Some?
    ensures var p, es := s.pending.value, Program(cfg, s, t);
            && |es| == 2 && es[0] == Event(p.timestamp, ExitReasonTransition(p.reason, p.price))
            && es[1].timestamp == p.timestamp && es[1].body.TradeClosed?
            && es[1].body.price == p.price && es[1].body.size == p.remaining && es[1].body.reason == p.reason
            && PaysFor(cfg, s.opening, p.price, p.remaining, es[1].body.gross, es[1].body.fee)
  {
    Amounts(cfg, s.opening, s.pending.value.price, s.pending.value.remaining);
  }
}
