/**
 What a crash costs.  The two stop moves of the lifecycle are persisted in two appends
 each, after the event that replay takes for the whole step.  Here: exactly which logs
 still lead to each move, exactly which crash points lose it, and trades that do.
 */
module PaperRecovery {
  import opened Wrappers
  import opened Reals
  import opened PaperEvents
  import opened PaperLifecycle
  import opened PaperProtocol
  import opened PaperCrashes
  import opened PaperGuarantees
  import opened PaperReplay

  /** A snapshot whose latest close lies within its last candle. */
  predicate Sound(t: Tick) { t.Low() <= t.mark <= t.High() }

  predicate AllSound(steps: seq<Step>) {
    forall k | 0 <= k < |steps| :: Sound(steps[k].tick)
  }

  /** Some run of updates and crashes on sound candles still makes this stop move. */
  ghost predicate StillMoves(cfg: Config, log: seq<Event>, why: StopReason)
    requires Started(log)
  {
    && !HasAction(log, StopMove(why))
    && exists steps | AllSound(steps) :: HasAction(RunTrade(cfg, log, steps).log, StopMove(why))
  }

  /** The move is not persisted and never will be. */
  ghost predicate Lost(cfg: Config, log: seq<Event>, why: StopReason)
    requires Started(log)
  {
    !HasAction(log, StopMove(why)) && !StillMoves(cfg, log, why)
  }

  /** There is room for a price between the stop and every target. */
  predicate Clear(s: State) {
    forall j | 0 <= j < |s.opening.targets| ::
      if s.opening.direction.Long? then s.stop < s.opening.targets[j] else s.stop > s.opening.targets[j]
  }

  /** What the replayed state must look like for the move to lie ahead. */
  predicate Awaits(cfg: Config, s: State, why: StopReason) {
    && !s.closed && s.pending.None? && s.opening.targets != []
    && match why
       case Tp1FeeBreakEven => 0 !in s.completed && ArmsBreakEven(cfg, s, 0)
       case ProfitLockFeeBreakEven =>
         !s.profitLock && s.touched == {} && s.opening.targets[0] != s.opening.fill && Clear(s)
  }

  // ----- states that await nothing: no update attempts the move, and they stay so -----

  lemma {:induction false} NoBreakEvenAhead(cfg: Config, s: State, t: Tick, i: nat)
    requires s.opening.fill > 0.0 && i <= |s.opening.targets|
    requires i > 0 || 0 in s.completed || (s.opening.targets != [] && !ArmsBreakEven(cfg, s, 0))
    ensures forall e | e in TargetEvents(cfg, s, t, i) :: ActionOf(e) != StopMove(Tp1FeeBreakEven)
    decreases |s.opening.targets| - i
  {
    hide Pnl, Fee, FeeBreakEven, TargetHit;
    if i < |s.opening.targets| {
      NoBreakEvenAhead(cfg, s, t, i + 1);
      if i !in s.completed {
        NoBreakEvenAhead(cfg, AfterFill(cfg, s, i), t, i + 1);
      }
    }
  }

  ghost predicate TouchesAhead(s: State, t: Tick, i: nat) {
    exists j: nat | i <= j < |s.opening.targets| :: TargetHit(s.opening, t, j)
  }

  lemma {:induction false} NoLockAhead(cfg: Config, s: State, t: Tick, i: nat)
    requires s.opening.fill > 0.0 && i <= |s.opening.targets| && s.opening.targets != [] && s.completed <= s.touched
    requires s.profitLock || s.touched != {} || s.opening.targets[0] == s.opening.fill || TouchesAhead(s, t, i)
    ensures forall e | e in TargetEvents(cfg, s, t, i) :: ActionOf(e) != StopMove(ProfitLockFeeBreakEven)
    decreases |s.opening.targets| - i
  {
    hide Pnl, Fee, FeeBreakEven, TargetHit, FillEvents, AfterFill;
    if i < |s.opening.targets| {
      if i in s.completed || (i !in s.touched && !TargetHit(s.opening, t, i)) {
        NoLockAhead(cfg, s, t, i + 1);
      } else {
        FillNoLock(cfg, s, t, i);
        NoLockAhead(cfg, AfterFill(cfg, s, i), t, i + 1);
      }
    }
  }

  lemma FillNoLock(cfg: Config, s: State, t: Tick, i: nat)
    requires i < |s.opening.targets|
    ensures forall e | e in FillEvents(cfg, s, t, i) :: ActionOf(e) != StopMove(ProfitLockFeeBreakEven)
    ensures var after := AfterFill(cfg, s, i);
            after.opening == s.opening && after.touched == s.touched + {i} && after.completed == s.completed
  {
    hide Pnl, Fee, FeeBreakEven, CloseSize, ArmsBreakEven;
  }

  lemma NoRoomTouches(s: State, t: Tick)
    requires !Clear(s) && Sound(t) && !StopHit(s, t)
    ensures TouchesAhead(s, t, 0)
  {
    var j :| 0 <= j < |s.opening.targets|
      && !(if s.opening.direction.Long? then s.stop < s.opening.targets[j] else s.stop > s.opening.targets[j]);
    assert TargetHit(s.opening, t, j);
  }

  lemma NoMoveAttempted(cfg: Config, s: State, t: Tick, why: StopReason)
    requires s.opening.fill > 0.0 && s.opening.targets != [] && s.completed <= s.touched && !s.closed
    requires Sound(t) && !Awaits(cfg, s, why)
    ensures forall e | e in Program(cfg, s, t) :: ActionOf(e) != StopMove(why)
  {
    hide TargetEvents, StopHit, Clear, ExcursionPct, TargetHit, TouchesAhead;
    if s.pending.None? && !StopHit(s, t) {
      var m := Observed(s, t);
      if why.Tp1FeeBreakEven? {
        NoBreakEvenAhead(cfg, m, t, 0);
      } else {
        if !Clear(s) {
          NoRoomTouches(s, t);
          TouchesAheadObserved(s, t);
        }
        NoLockAhead(cfg, m, t, 0);
      }
    }
  }

  lemma TouchesAheadObserved(s: State, t: Tick)
    requires s.opening.fill > 0.0
    ensures TouchesAhead(Observed(s, t), t, 0) <==> TouchesAhead(s, t, 0)
  {
    hide ExcursionPct, TargetHit;
  }

  /** What only grows, or only shrinks, along a legal log. */
  predicate Later(s: State, r: State) {
    && r.opening == s.opening && (s.closed ==> r.closed) && (s.pending.Some? ==> r.pending.Some?)
    && s.completed <= r.completed && s.touched <= r.touched && (s.profitLock ==> r.profitLock)
    && (r.closed || r.remaining <= s.remaining)
  }

  lemma {:induction false} LegalLater(cfg: Config, log: seq<Event>, next: seq<Event>)
    requires Opened(log) && log <= next && Legal(cfg, next)
    ensures Later(Replay(log), Replay(next))
    decreases |next|
  {
    if |next| == |log| {
      assert next == log;
    } else {
      var before, e := LegalPop(cfg, next);
      hide Legal, ApplyAll, HasAction, FeeBreakEven, PricedExit, Pnl, Fee;
      LegalLater(cfg, log, before);
    }
  }

  lemma AwaitsNothingStays(cfg: Config, log: seq<Event>, next: seq<Event>, why: StopReason)
    requires Opened(log) && Legal(cfg, log) && log <= next && Legal(cfg, next) && !Awaits(cfg, Replay(log), why)
    ensures !Awaits(cfg, Replay(next), why)
  {
    hide Legal, ApplyAll, FeeBreakEven, HasAction;
    LegalKeyFacts(cfg, log);
    LegalKeyFacts(cfg, next);
    LegalStopFacts(cfg, log);
    LegalStopFacts(cfg, next);
    LegalLater(cfg, log, next);
  }

  /** Once the replayed state awaits no move, no later run of updates and crashes makes it. */
  lemma {:induction false} NeverMoves(cfg: Config, log: seq<Event>, steps: seq<Step>, why: StopReason)
    requires Legal(cfg, log) && Started(log) && Sane(cfg) && AllSound(steps)
    requires !HasAction(log, StopMove(why)) && !Awaits(cfg, Replay(log), why)
    ensures !HasAction(RunTrade(cfg, log, steps).log, StopMove(why))
    decreases |steps|
  {
    hide Legal, ApplyAll, HasAction, Exec, Awaits, Program;
    if steps != [] {
      var s, next := Replay(log), Advance(cfg, log, steps[0]).log;
      AdvanceLegal(cfg, log, steps[0]);
      LegalStarted(cfg, log);
      LegalKeyFacts(cfg, log);
      if !s.closed {
        NoMoveAttempted(cfg, s, steps[0].tick, why);
        ExecAddsAttempts(log, Take(Program(cfg, s, steps[0].tick), steps[0].appends), StopMove(why));
      }
      AwaitsNothingStays(cfg, log, next, why);
      NeverMoves(cfg, next, steps[1..], why);
    }
  }

  // ----- states that await a move: a run that makes it -----

  /** A candle on which nothing happens but trading at one price. */
  function Flat(timestamp: int, price: real): Tick {
    Tick(timestamp, price, Some(Range(price, price)))
  }

  lemma UpdateMakes(cfg: Config, log: seq<Event>, t: Tick, e: Event)
    requires Legal(cfg, log) && Started(log) && Sane(cfg) && !Replay(log).closed && Replay(log).opening.fill > 0.0
    requires e in Program(cfg, Replay(log), t)
    ensures HasAction(Advance(cfg, log, Step(t, |Program(cfg, Replay(log), t)|)).log, ActionOf(e))
  {
    hide Legal, ApplyAll, Program, Exec;
    var step := Step(t, |Program(cfg, Replay(log), t)|);
    AdvanceLegal(cfg, log, step);
    ExecHolds(log, Program(cfg, Replay(log), t));
  }

  lemma OneStepRun(cfg: Config, log: seq<Event>, step: Step, why: StopReason)
    requires Started(log) && Sound(step.tick) && !HasAction(log, StopMove(why))
    requires HasAction(Advance(cfg, log, step).log, StopMove(why))
    ensures StillMoves(cfg, log, why)
  {
    hide Advance, HasAction;
    assert [step][1..] == [];
    assert RunTrade(cfg, Advance(cfg, log, step).log, []) == Executed(Advance(cfg, log, step).log, false);
    assert RunTrade(cfg, log, [step]).log == Advance(cfg, log, step).log;
    assert AllSound([step]);
  }

  lemma TwoStepRun(cfg: Config, log: seq<Event>, step: Step, why: StopReason)
    requires Started(log) && Sound(step.tick) && !HasAction(log, StopMove(why))
    requires StillMoves(cfg, Advance(cfg, log, step).log, why)
    ensures StillMoves(cfg, log, why)
  {
    hide Advance, HasAction;
    var next := Advance(cfg, log, step).log;
    var steps :| AllSound(steps) && HasAction(RunTrade(cfg, next, steps).log, StopMove(why));
    assert ([step] + steps)[1..] == steps;
    assert RunTrade(cfg, log, [step] + steps).log == RunTrade(cfg, next, steps).log;
    assert AllSound([step] + steps);
  }

  /** A price beyond TP1 that does not touch the stop. */
  function BeyondFirst(s: State): real
    requires s.opening.targets != []
  {
    var target := s.opening.targets[0];
    if s.opening.direction.Long? then (if target > s.stop then target else s.stop + 1.0)
    else if target < s.stop then target else if s.stop > 0.0 then s.stop / 2.0 else s.stop - 1.0
  }

  lemma BreakEvenAhead(cfg: Config, log: seq<Event>)
    requires Legal(cfg, log) && Started(log) && Sane(cfg) && Awaits(cfg, Replay(log), Tp1FeeBreakEven)
    ensures StillMoves(cfg, log, Tp1FeeBreakEven)
  {
    hide Legal, ApplyAll, HasAction, Advance, StillMoves, FillEvents, AfterFillEvents, Observations, ExcursionPct;
    var s := Replay(log);
    LegalKeyFacts(cfg, log);
    var t := Flat(0, BeyondFirst(s));
    var m := Observed(s, t);
    assert TargetHit(m.opening, t, 0) && !StopHit(s, t);
    FillComesNext(cfg, m, t, 0);
    var move := Event(t.timestamp, StopUpdated(m.stop, FeeBreakEven(cfg, m.opening), Tp1FeeBreakEven));
    assert BreakEvenEvents(cfg, m, t, 0)[1] == move;
    assert move in FillEvents(cfg, m, t, 0) by {
      FillHasBreakEven(cfg, m, t, 0, move);
    }
    assert move in Program(cfg, s, t);
    UpdateMakes(cfg, log, t, move);
    OneStepRun(cfg, log, Step(t, |Program(cfg, s, t)|), Tp1FeeBreakEven);
  }

  lemma FillHasBreakEven(cfg: Config, m: State, t: Tick, i: nat, e: Event)
    requires i < |m.opening.targets| && e in BreakEvenEvents(cfg, m, t, i)
    ensures e in FillEvents(cfg, m, t, i)
  {
    hide BreakEvenEvents, TouchEvents, PartialEvents;
  }

  /** The excursion at which the lock arms. */
  function LockNeeds(cfg: Config, o: Opening): real
    requires o.fill > 0.0 && o.targets != []
  {
    cfg.profitLockFraction * (Abs(o.targets[0] - o.fill) / o.fill * 100.0)
  }

  /** The nearest target, seen from the stop. */
  function {:induction false} Nearest(o: Opening, n: nat): (r: real)
    requires 1 <= n <= |o.targets|
    ensures exists j | 0 <= j < n :: r == o.targets[j]
    ensures forall j | 0 <= j < n :: if o.direction.Long? then r <= o.targets[j] else r >= o.targets[j]
  {
    if n == 1 then o.targets[0]
    else
      var r, x := Nearest(o, n - 1), o.targets[n - 1];
      if o.direction.Long? == (x < r) then x else r
  }

  lemma CalmPrice(s: State) returns (price: real)
    requires s.opening.targets != [] && Clear(s)
    ensures forall timestamp :: !StopHit(s, Flat(timestamp, price))
    ensures forall timestamp, j | 0 <= j < |s.opening.targets| :: !TargetHit(s.opening, Flat(timestamp, price), j)
  {
    price := (s.stop + Nearest(s.opening, |s.opening.targets|)) / 2.0;
  }

  lemma {:induction false} QuietTargets(cfg: Config, s: State, t: Tick, i: nat)
    requires s.opening.fill > 0.0 && i <= |s.opening.targets| && s.touched == {} == s.completed
    requires forall j | i <= j < |s.opening.targets| :: !TargetHit(s.opening, t, j)
    ensures TargetEvents(cfg, s, t, i) == ProfitLockEvents(cfg, s, t)
    decreases |s.opening.targets| - i
  {
    hide TargetHit, ProfitLockEvents;
    if i < |s.opening.targets| {
      QuietTargets(cfg, s, t, i + 1);
    }
  }

  /** With the excursion in the log, one calm candle moves the stop. */
  lemma LockOnCalm(cfg: Config, log: seq<Event>)
    requires Legal(cfg, log) && Started(log) && Sane(cfg) && Replay(log).opening.fill > 0.0
    requires Awaits(cfg, Replay(log), ProfitLockFeeBreakEven)
    requires Replay(log).mfe >= LockNeeds(cfg, Replay(log).opening)
    ensures StillMoves(cfg, log, ProfitLockFeeBreakEven)
  {
    hide Legal, ApplyAll, HasAction, Advance, StillMoves, Observations, ExcursionPct, StopHit, TargetHit;
    var s := Replay(log);
    LegalKeyFacts(cfg, log);
    var price := CalmPrice(s);
    var t := Flat(0, price);
    var m := Observed(s, t);
    QuietTargets(cfg, m, t, 0);
    var move := Event(t.timestamp, StopUpdated(m.stop, FeeBreakEven(cfg, m.opening), ProfitLockFeeBreakEven));
    assert ProfitLockEvents(cfg, m, t)[1] == move;
    assert move in Program(cfg, s, t);
    UpdateMakes(cfg, log, t, move);
    OneStepRun(cfg, log, Step(t, |Program(cfg, s, t)|), ProfitLockFeeBreakEven);
  }

  lemma ExcursionReached(o: Opening, pct: real) returns (price: real)
    requires o.fill > 0.0
    ensures ExcursionPct(o, price) == pct
  {
    var d := o.fill * (pct / 100.0);
    price := if o.direction.Long? then o.fill + d else o.fill - d;
    assert d / o.fill == pct / 100.0;
  }

  /** An update that dies right after its favourable excursion is persisted. */
  lemma ExcursionThenDeath(cfg: Config, log: seq<Event>, t: Tick)
    requires Legal(cfg, log) && Started(log) && !Replay(log).closed && Replay(log).pending.None?
    requires Replay(log).opening.fill > 0.0
    requires ExcursionPct(Replay(log).opening, Favorable(Replay(log).opening, t)) > Replay(log).mfe
    ensures var next := Advance(cfg, log, Step(t, 2)).log;
            && Legal(cfg, next)
            && Replay(next) == Replay(log).(mfe := ExcursionPct(Replay(log).opening, Favorable(Replay(log).opening, t)))
  {
    hide Legal, ApplyAll, Good, Exec, ExcursionPct, Favorable, TargetEvents, StopEvents, StopHit;
    var s := Replay(log);
    var l1 := MarkPlays(cfg, log, s, t);
    var l2 := MfePlays(cfg, l1, s, t);
    PlaysThen(cfg, log, [MarkEvent(s, t)], l1, MfeEvents(s, t), l2);
    var es := [MarkEvent(s, t)] + MfeEvents(s, t);
    assert |es| == 2;
    assert Program(cfg, s, t)[..2] == es;
    assert Take(Program(cfg, s, t), 2) == es;
  }

  lemma LockAhead(cfg: Config, log: seq<Event>)
    requires Legal(cfg, log) && Started(log) && Sane(cfg) && Awaits(cfg, Replay(log), ProfitLockFeeBreakEven)
    ensures StillMoves(cfg, log, ProfitLockFeeBreakEven)
  {
    hide Legal, ApplyAll, HasAction, Advance, StillMoves, ExcursionPct;
    var s := Replay(log);
    LegalKeyFacts(cfg, log);
    var needs := LockNeeds(cfg, s.opening);
    if s.mfe >= needs {
      LockOnCalm(cfg, log);
    } else {
      var price := ExcursionReached(s.opening, needs);
      var t := Flat(0, price);
      ExcursionThenDeath(cfg, log, t);
      LockOnCalm(cfg, Advance(cfg, log, Step(t, 2)).log);
      TwoStepRun(cfg, log, Step(t, 2), ProfitLockFeeBreakEven);
    }
  }

  /**
   Which logs still lead to a stop move.  After any restart, some run of updates and
   crashes on sound candles makes the move if and only if the replayed state awaits it.
   For break-even: the trade is open without a terminal intent, the TP1 partial is not
   persisted, and TP1 would leave something.  For the lock: open without an intent, the
   lock not armed, no target touched, TP1 off the fill, and room between stop and targets.
   */
  lemma StillMovesIff(cfg: Config, log: seq<Event>, why: StopReason)
    requires Legal(cfg, log) && Started(log) && Sane(cfg)
    ensures StillMoves(cfg, log, why) <==> Awaits(cfg, Replay(log), why)
  {
    hide Legal, ApplyAll, HasAction, Awaits;
    if Awaits(cfg, Replay(log), why) {
      if why.Tp1FeeBreakEven? {
        BreakEvenAhead(cfg, log);
      } else {
        LockAhead(cfg, log);
      }
    } else if !HasAction(log, StopMove(why)) {
      forall steps | AllSound(steps) ensures !HasAction(RunTrade(cfg, log, steps).log, StopMove(why)) {
        NeverMoves(cfg, log, steps, why);
      }
    }
  }

  /** A move is lost exactly in the logs that neither hold it nor await it. */
  lemma LostIff(cfg: Config, log: seq<Event>, why: StopReason)
    requires Legal(cfg, log) && Started(log) && Sane(cfg)
    ensures Lost(cfg, log, why) <==> !HasAction(log, StopMove(why)) && !Awaits(cfg, Replay(log), why)
  {
    StillMovesIff(cfg, log, why);
  }

  // ----- the crash points that lose a move -----

  /** Events that leave the quantities, the stop and the terminal flags of a trade alone. */
  predicate Harmless(e: Event) {
    !e.body.PartialExit? && !e.body.SlTouch? && !e.body.ExitReasonTransition? && !e.body.TradeClosed?
      && !e.body.StopUpdated?
  }

  predicate Quiet(e: Event) {
    Harmless(e) && !e.body.TpTouch? && !e.body.ProfitLockActivated?
  }

  predicate SameTrade(b: State, r: State, quietly: bool) {
    && r.opening == b.opening && r.stop == b.stop && r.remaining == b.remaining && r.completed == b.completed
    && r.pending == b.pending && r.closed == b.closed && r.exited == b.exited
    && (quietly ==> r.touched == b.touched && r.profitLock == b.profitLock)
  }

  lemma HarmlessApply(s: State, e: Event)
    requires Harmless(e)
    ensures SameTrade(s, Apply(s, e), Quiet(e))
  {
  }

  lemma {:induction false} HarmlessReplay(s: State, log: seq<Event>, more: seq<Event>)
    requires forall e | e in more :: Harmless(e)
    ensures SameTrade(ApplyAll(s, log), ApplyAll(s, log + more), forall e | e in more :: Quiet(e))
    decreases |more|
  {
    hide Harmless, Quiet, Apply;
    if more == [] {
      assert log + more == log;
    } else {
      var before, last := log + more[..|more| - 1], more[|more| - 1];
      assert log + more == before + [last] && (before + [last])[..|before|] == before;
      assert last in more;
      HarmlessReplay(s, log, more[..|more| - 1]);
      HarmlessApply(ApplyAll(s, before), last);
    }
  }

  /** After harmless attempts the trade awaits break-even as before; after quiet ones, the lock too. */
  lemma HarmlessAwaits(cfg: Config, log: seq<Event>, es: seq<Event>)
    requires Started(log) && forall e | e in es :: Harmless(e)
    ensures Opened(Exec(log, es).log)
    ensures var r := Replay(Exec(log, es).log);
            && (Awaits(cfg, Replay(log), Tp1FeeBreakEven) ==> Awaits(cfg, r, Tp1FeeBreakEven))
            && ((forall e | e in es :: Quiet(e)) && Awaits(cfg, Replay(log), ProfitLockFeeBreakEven)
                ==> Awaits(cfg, r, ProfitLockFeeBreakEven))
  {
    hide ApplyAll, Exec, Harmless, Quiet;
    ExecAddsOnly(log, es);
    var next := Exec(log, es).log;
    HarmlessReplay(Initial(log[0].body.opening), log, next[|log|..]);
    assert log + next[|log|..] == next;
  }

  /** An update whose attempts are `es`, then the event that disarms the retry, perhaps more, then the move. */
  lemma LostBetween(cfg: Config, log: seq<Event>, t: Tick, n: nat, why: StopReason,
                    es: seq<Event>, rest: seq<Event>, width: nat)
    requires Legal(cfg, log) && Started(log) && Sane(cfg) && Replay(log).opening.fill > 0.0
    requires Awaits(cfg, Replay(log), why) && Program(cfg, Replay(log), t) == es + rest && 1 <= width < |rest|
    requires forall e | e in es :: Harmless(e) && (why.ProfitLockFeeBreakEven? ==> Quiet(e))
    requires ActionOf(rest[0]) == (if why.Tp1FeeBreakEven? then Partial(1) else ProfitLockArmed)
    requires ActionOf(rest[width]) == StopMove(why) && forall j | 0 <= j < width :: ActionOf(rest[j]) != StopMove(why)
    ensures Lost(cfg, Advance(cfg, log, Step(t, n)).log, why) <==> |es| + 1 <= n <= |es| + width
    ensures n > |es| ==> HasAction(Advance(cfg, log, Step(t, n)).log, ActionOf(rest[0]))
  {
    hide Legal, ApplyAll, Program, Exec, HasAction, Awaits, Lost, StillMoves;
    var program := es + rest;
    var taken := Take(program, n);
    var after := Advance(cfg, log, Step(t, n)).log;
    AdvanceLegal(cfg, log, Step(t, n));
    LostIff(cfg, after, why);
    AwaitsIsOpen(cfg, Replay(log), why);
    assert Exec(log, taken).log == after;
    if n <= |es| {
      assert taken == es[..n];
      HarmlessAwaits(cfg, log, taken);
    } else {
      ExecHolds(log, taken);
      assert taken[|es|] == rest[0];
      if n > |es| + width {
        assert taken[|es| + width] == rest[width];
      } else {
        assert taken == es + rest[..n - |es|];
        NotYetMoved(cfg, log, why);
        ExecAddsAttempts(log, taken, StopMove(why));
        Disarmed(cfg, after, why);
      }
    }
  }

  lemma AwaitsIsOpen(cfg: Config, s: State, why: StopReason)
    requires Awaits(cfg, s, why)
    ensures !s.closed && s.pending.None?
  {
  }

  lemma NotYetMoved(cfg: Config, log: seq<Event>, why: StopReason)
    requires Legal(cfg, log) && Started(log) && Awaits(cfg, Replay(log), why)
    ensures !HasAction(log, StopMove(why))
  {
    LegalKeyFacts(cfg, log);
    hide Legal, ApplyAll, HasAction;
  }

  lemma Disarmed(cfg: Config, log: seq<Event>, why: StopReason)
    requires Legal(cfg, log) && Started(log)
    requires HasAction(log, if why.Tp1FeeBreakEven? then Partial(1) else ProfitLockArmed)
    ensures !Awaits(cfg, Replay(log), why)
  {
    LegalKeyFacts(cfg, log);
    hide Legal, ApplyAll, HasAction;
    assert HasAction(log, Partial(0 + 1)) ==> 0 in Replay(log).completed;
  }

  /** Whether an uncrashed update with this tick fills TP1 and moves the stop to break-even. */
  predicate MovesToBreakEven(cfg: Config, s: State, t: Tick)
    requires s.opening.fill > 0.0
  {
    && Awaits(cfg, s, Tp1FeeBreakEven) && !StopHit(s, t) && (0 in s.touched || TargetHit(s.opening, t, 0))
  }

  lemma BreakEvenProgram(cfg: Config, s: State, t: Tick) returns (rest: seq<Event>)
    requires s.opening.fill > 0.0 && MovesToBreakEven(cfg, s, t)
    ensures var m := Observed(s, t);
            Program(cfg, s, t) == Observations(s, t) + TouchEvents(m, t, 0)
              + (PartialEvents(cfg, m, t, 0) + BreakEvenEvents(cfg, m, t, 0) + rest)
  {
    hide AfterFillEvents, TargetHit, CloseSize, Observations, TouchEvents, PartialEvents, BreakEvenEvents;
    var m := Observed(s, t);
    FillComesNext(cfg, m, t, 0);
    rest := AfterFillEvents(cfg, m, t, 0);
  }

  /**
   Which crash points lose the break-even move of an update that would make it: exactly
   those after the TP1 partial and before the stop update, two out of all of them.
   */
  lemma CrashLosesBreakEven(cfg: Config, log: seq<Event>, t: Tick, n: nat)
    requires Legal(cfg, log) && Started(log) && Sane(cfg) && Replay(log).opening.fill > 0.0
    requires MovesToBreakEven(cfg, Replay(log), t)
    ensures var before := |Observations(Replay(log), t)| + |TouchEvents(Replay(log), t, 0)|;
            && (Lost(cfg, Advance(cfg, log, Step(t, n)).log, Tp1FeeBreakEven) <==> before + 1 <= n <= before + 2)
            && (n > before ==> HasAction(Advance(cfg, log, Step(t, n)).log, Partial(1)))
  {
    hide Legal, ApplyAll, Program, Lost, Advance, ExcursionPct, TargetHit, StopHit, HasAction, FeeBreakEven, Pnl, Fee;
    var s := Replay(log);
    var m := Observed(s, t);
    FillFacts(cfg, log, s);
    ArmingClosesSomething(cfg, m);
    var rest := BreakEvenProgram(cfg, s, t);
    var partial, be := PartialEvents(cfg, m, t, 0), BreakEvenEvents(cfg, m, t, 0);
    assert |partial| == 1 && |be| == 2;
    LostBetween(cfg, log, t, n, Tp1FeeBreakEven, Observations(s, t) + TouchEvents(m, t, 0), partial + be + rest, 2);
  }

  /** Whether an uncrashed update with this tick arms the profit lock and moves the stop. */
  predicate LocksProfit(cfg: Config, s: State, t: Tick)
    requires s.opening.fill > 0.0
  {
    && !s.closed && s.pending.None? && !StopHit(s, t) && ArmsProfitLock(cfg, Observed(s, t))
    && forall j | 0 <= j < |s.opening.targets| :: !TargetHit(s.opening, t, j)
  }

  lemma LockingAwaits(cfg: Config, s: State, t: Tick)
    requires s.opening.fill > 0.0 && LocksProfit(cfg, s, t) && Sound(t)
    ensures Awaits(cfg, s, ProfitLockFeeBreakEven)
  {
    if !Clear(s) {
      NoRoomTouches(s, t);
    }
  }

  /** Which crash points lose the move of the profit lock: exactly the one after PROFIT_LOCK_ACTIVATED. */
  lemma CrashLosesProfitLock(cfg: Config, log: seq<Event>, t: Tick, n: nat)
    requires Legal(cfg, log) && Started(log) && Sane(cfg) && Replay(log).opening.fill > 0.0
    requires LocksProfit(cfg, Replay(log), t) && Sound(t)
    ensures Lost(cfg, Advance(cfg, log, Step(t, n)).log, ProfitLockFeeBreakEven)
       <==> n == |Observations(Replay(log), t)| + 1
  {
    hide Legal, ApplyAll, Lost, Advance, ExcursionPct, TargetHit, StopHit, HasAction, FeeBreakEven, Awaits,
      TargetEvents;
    var s := Replay(log);
    var m := Observed(s, t);
    LegalKeyFacts(cfg, log);
    LockingAwaits(cfg, s, t);
    assert forall j | 0 <= j < |s.opening.targets| :: TargetHit(m.opening, t, j) == TargetHit(s.opening, t, j);
    QuietTargets(cfg, m, t, 0);
    LostBetween(cfg, log, t, n, ProfitLockFeeBreakEven, Observations(s, t), ProfitLockEvents(cfg, m, t), 1);
  }

  // ----- trades that lose -----

  const SETTINGS := Config(40.0, 30.0, 0.1, 0.5, 12.0, 3)

  const TRADE :=
    Opening("s", "BTCUSDT", Long, "15m", 100.0, 100.0, 90.0, [110.0, 120.0], 1.0, 10.0, 10.0, 0.0, 0, "", "")

  lemma TradeOpens()
    ensures var log := OpenLog(0, TRADE);
            Legal(SETTINGS, log) && Started(log) && Replay(log) == Initial(TRADE) && Sane(SETTINGS)
  {
    ReplayOpening(OpenLog(0, TRADE));
  }

  /** A candle through TP1; the process dies right after the partial: the stop stays at 90 for good. */
  lemma BreakEvenLost()
    ensures var t := Tick(1, 108.0, Some(Range(111.0, 101.0)));
            && HasAction(Advance(SETTINGS, OpenLog(0, TRADE), Step(t, 4)).log, Partial(1))
            && Lost(SETTINGS, Advance(SETTINGS, OpenLog(0, TRADE), Step(t, 4)).log, Tp1FeeBreakEven)
  {
    hide Legal, Lost, ApplyAll, Advance;
    var log, t := OpenLog(0, TRADE), Tick(1, 108.0, Some(Range(111.0, 101.0)));
    TradeOpens();
    CrashLosesBreakEven(SETTINGS, log, t, 4);
  }

  /** A candle more than half way to TP1; the process dies after arming the lock: the stop stays at 90 for good. */
  lemma ProfitLockLost()
    ensures Lost(SETTINGS, Advance(SETTINGS, OpenLog(0, TRADE), Step(Tick(1, 105.0, Some(Range(106.0, 101.0))), 3)).log,
                 ProfitLockFeeBreakEven)
  {
    hide Legal, Lost, ApplyAll, Advance;
    TradeOpens();
    CrashLosesProfitLock(SETTINGS, OpenLog(0, TRADE), Tick(1, 105.0, Some(Range(106.0, 101.0))), 3);
  }

  const WIDE := Tick(1, 105.0, Some(Range(121.0, 99.0)))

  /** The memory of the live update when it arrives at TP2: 40 of 100 closed, stop at the fee break-even. */
  lemma ArrivesAtSecond()
    ensures var arrived := Arrive(SETTINGS, Initial(TRADE), WIDE, 1);
            && arrived.Some? && arrived.value.memory.stop == 100.1 && arrived.value.memory.remaining == 0.6
            && arrived.value.memory.touched == {0} && arrived.value.memory.completed == {}
            && arrived.value.memory.opening == TRADE
  {
    hide FillEvents, Observations;
    var m := Observed(Initial(TRADE), WIDE);
    assert Arrive(SETTINGS, Initial(TRADE), WIDE, 0) == Some(Checkpoint(Observations(Initial(TRADE), WIDE), m));
    assert CloseSize(SETTINGS, m, 0) == 0.4;
    assert FeeBreakEven(SETTINGS, TRADE) == 100.1;
  }

  lemma SecondFills(m: State)
    requires m.stop == 100.1 && m.remaining == 0.6 && m.touched == {0} && m.completed == {} && m.opening == TRADE
    ensures HasAction(TargetEvents(SETTINGS, m, WIDE, 1), Partial(2))
  {
    hide Pnl, Fee, AfterFillEvents;
    FillComesNext(SETTINGS, m, WIDE, 1);
    var partial := PartialEvents(SETTINGS, m, WIDE, 1)[0];
    assert ActionOf(partial) == Partial(2) && partial in FillEvents(SETTINGS, m, WIDE, 1);
  }

  /**
   A candle through both targets whose low lies under the new stop.  The live update goes
   on to TP2; a process that dies after the TP1 step and sees the same candle stops out.
   */
  lemma RestartStopsOut()
    ensures Arrive(SETTINGS, Initial(TRADE), WIDE, 1).Some?
    ensures var c := Arrive(SETTINGS, Initial(TRADE), WIDE, 1).value;
            var persisted := Exec(OpenLog(0, TRADE), c.attempted).log;
            && Opened(persisted) && Replay(persisted).opening == TRADE
            && Program(SETTINGS, Initial(TRADE), WIDE) == c.attempted + TargetEvents(SETTINGS, c.memory, WIDE, 1)
            && HasAction(TargetEvents(SETTINGS, c.memory, WIDE, 1), Partial(2))
            && Program(SETTINGS, Replay(persisted), WIDE)
               == [MarkEvent(Replay(persisted), WIDE)] + StopEvents(SETTINGS, Replay(persisted), WIDE)
  {
    hide Legal, ApplyAll, Arrive, Exec, TargetEvents, Program, HasAction, StopEvents, Observations;
    TradeOpens();
    ArrivesAtSecond();
    RestartResumes(SETTINGS, OpenLog(0, TRADE), WIDE, 1);
    ReplayRefinesLive(SETTINGS, OpenLog(0, TRADE), WIDE, 1);
    SecondFills(Arrive(SETTINGS, Initial(TRADE), WIDE, 1).value.memory);
  }
}
