/**
 When retries of paper transitions conflict.  Every lifecycle key may be written once
 per trade; an update that retries one with a different payload fails closed.  That
 never happens exactly when TP1 is configured to close something.
 */
module PaperConflicts {
  import opened Wrappers
  import opened PaperEvents
  import opened PaperLifecycle
  import opened PaperProtocol
  import opened PaperCrashes
  import opened PaperGuarantees
  import opened PaperReplay
  import opened PaperRecovery
  import opened PaperKeys

  /** No trade and no sequence of updates and crashes ever meets a semantic conflict. */
  ghost predicate ConflictFree(cfg: Config) {
    forall timestamp, o, steps | ValidOpening(o) :: !RunTrade(cfg, OpenLog(timestamp, o), steps).conflict
  }

  // ----- a conflicting run, for any setting that closes nothing at TP1 -----

  /** A price above the break-even stop and above the first target. */
  function Calm(cfg: Config): real {
    var be := 100.0 * (1.0 + cfg.breakEvenBufferPct / 100.0);
    if be > 300.0 then be + 1.0 else 301.0
  }

  function Victim(cfg: Config): Opening {
    Opening("s", "BTCUSDT", Long, "15m", 100.0, 100.0, 50.0, [200.0, Calm(cfg) + 1000.0], 1.0, 50.0, 50.0, 0.0,
            0, "", "")
  }

  lemma VictimIsValid(cfg: Config)
    ensures ValidOpening(Victim(cfg)) && Calm(cfg) > 300.0
  {
  }

  function Arming(cfg: Config, t: Tick): Event {
    Event(t.timestamp, BreakEvenActivated(FeeBreakEven(cfg, Victim(cfg)), t.mark))
  }

  ghost predicate Untouched(cfg: Config, s: State) {
    && s.opening == Victim(cfg) && s.pending.None? && !s.closed
    && s.completed == {} && s.remaining == 1.0 && s.stop == 50.0
  }

  /** While TP1 is touched and closes nothing, each update arms break-even again. */
  lemma RearmingProgram(cfg: Config, s: State, t: Tick) returns (before: seq<Event>, after: seq<Event>)
    requires cfg.tp1ClosePct <= 0.0 && Untouched(cfg, s) && t.High() == t.Low() == Calm(cfg)
    ensures Program(cfg, s, t) == before + [Arming(cfg, t)] + after
    ensures forall e | e in before :: Harmless(e) && ActionOf(e) != BreakEvenArmed
  {
    hide FeeBreakEven, Pnl, Fee, Calm, ExcursionPct, TargetEvents, AfterFillEvents;
    VictimIsValid(cfg);
    var m := Observed(s, t);
    var be := VictimFill(cfg, m, t);
    hide FillEvents;
    FillComesNext(cfg, m, t, 0);
    before := Observations(s, t) + TouchEvents(m, t, 0);
    after := [be] + AfterFillEvents(cfg, m, t, 0);
    assert Observations(s, t) + (TouchEvents(m, t, 0) + [Arming(cfg, t), be] + AfterFillEvents(cfg, m, t, 0))
        == before + [Arming(cfg, t)] + after;
  }

  /** A fill that closes nothing: a touch at most, and break-even. */
  lemma VictimFill(cfg: Config, m: State, t: Tick) returns (be: Event)
    requires cfg.tp1ClosePct <= 0.0 && Untouched(cfg, m)
    ensures FillEvents(cfg, m, t, 0) == TouchEvents(m, t, 0) + [Arming(cfg, t), be]
  {
    hide FeeBreakEven, Pnl, Fee, Calm;
    assert CloseSize(cfg, m, 0) <= 0.0;
    assert PartialEvents(cfg, m, t, 0) == [];
    be := BreakEvenEvents(cfg, m, t, 0)[1];
  }

  /** An attempt that meets its action under another payload makes the whole list conflict. */
  lemma ConflictSpreads(log: seq<Event>, before: seq<Event>, e: Event, after: seq<Event>)
    requires HasAction(Exec(log, before).log, ActionOf(e)) && !Repeats(Exec(log, before).log, e)
    ensures Exec(log, before + [e] + after).conflict
  {
    ExecConcat(log, before, [e] + after);
    assert before + ([e] + after) == before + [e] + after;
    assert ([e] + after)[0] == e;
  }

  /** First update: dies right after break-even is armed. */
  lemma FirstArming(cfg: Config, t: Tick) returns (n: nat)
    requires cfg.tp1ClosePct <= 0.0 && t.High() == t.Low() == Calm(cfg)
    ensures var r := Advance(cfg, OpenLog(0, Victim(cfg)), Step(t, n));
            && Untouched(cfg, Replay(r.log))
            && (r.conflict || Arming(cfg, t) in r.log)
            && (forall e | e in r.log && ActionOf(e) == BreakEvenArmed :: e == Arming(cfg, t))
  {
    hide Program, FeeBreakEven, Calm, ValidOpening, ApplyAll, Exec;
    var log := OpenLog(0, Victim(cfg));
    ReplayOpening(log);
    var before, after := RearmingProgram(cfg, Replay(log), t);
    var es := before + [Arming(cfg, t)];
    n := |es|;
    assert Take(Program(cfg, Replay(log), t), n) == es;
    var r := Advance(cfg, log, Step(t, n));
    ExecAddsOnly(log, es);
    HarmlessReplay(Initial(Victim(cfg)), log, r.log[|log|..]);
    assert log + r.log[|log|..] == r.log;
    ExecConcat(log, before, [Arming(cfg, t)]);
    ExecReaches(Exec(log, before).log, Arming(cfg, t));
    assert forall e | e in r.log && ActionOf(e) == BreakEvenArmed :: e == Arming(cfg, t);
  }

  lemma ExecReaches(log: seq<Event>, e: Event)
    ensures Exec(log, [e]).conflict || HasAction(Exec(log, [e]).log, ActionOf(e))
  {
    assert [e][1..] == [];
    assert forall l: seq<Event> :: Exec(l, []) == Executed(l, false);
    HasActionPush(log, e);
  }

  /** Second update, at another mark price: break-even is armed again under another payload. */
  lemma SecondArming(cfg: Config, log: seq<Event>, first: Tick, t: Tick) returns (n: nat)
    requires cfg.tp1ClosePct <= 0.0 && t.High() == t.Low() == Calm(cfg) && t.mark != first.mark
    requires Started(log) && Untouched(cfg, Replay(log)) && Arming(cfg, first) in log
    requires forall e | e in log && ActionOf(e) == BreakEvenArmed :: e == Arming(cfg, first)
    ensures Advance(cfg, log, Step(t, n)).conflict
  {
    hide FeeBreakEven, Calm, ValidOpening, ApplyAll, TargetEvents;
    var before, after := RearmingProgram(cfg, Replay(log), t);
    n := |before + [Arming(cfg, t)] + after|;
    var reached := Exec(log, before).log;
    ExecAddsOnly(log, before);
    ExecExtends(log, before);
    assert Arming(cfg, first) in reached;
    assert HasAction(reached, BreakEvenArmed);
    assert forall e | e in reached && ActionOf(e) == BreakEvenArmed :: e == Arming(cfg, first);
    assert !Repeats(reached, Arming(cfg, t));
    ConflictSpreads(log, before, Arming(cfg, t), after);
  }

  lemma ConflictingRun(cfg: Config) returns (steps: seq<Step>)
    requires cfg.tp1ClosePct <= 0.0
    ensures ValidOpening(Victim(cfg)) && RunTrade(cfg, OpenLog(0, Victim(cfg)), steps).conflict
  {
    hide Calm, Advance, FeeBreakEven, ApplyAll, Arming;
    VictimIsValid(cfg);
    var log := OpenLog(0, Victim(cfg));
    var t1 := Tick(1, 1.0, Some(Range(Calm(cfg), Calm(cfg))));
    var t2 := Tick(2, 2.0, Some(Range(Calm(cfg), Calm(cfg))));
    var n1 := FirstArming(cfg, t1);
    var after := Advance(cfg, log, Step(t1, n1));
    if after.conflict {
      steps := [Step(t1, n1)];
    } else {
      var n2 := SecondArming(cfg, after.log, t1, t2);
      steps := [Step(t1, n1), Step(t2, n2)];
      assert steps[1..] == [Step(t2, n2)];
      assert RunTrade(cfg, after.log, steps[1..]).conflict;
    }
  }

  /**
   Conflict freedom, exactly: retries of persisted transitions never conflict, for any
   trade, any candles and any crashes, if and only if TP1 closes a positive percentage.
   */
  lemma ConflictFreeIff(cfg: Config)
    ensures ConflictFree(cfg) <==> cfg.tp1ClosePct > 0.0
  {
    if cfg.tp1ClosePct > 0.0 {
      forall timestamp, o, steps | ValidOpening(o) ensures !RunTrade(cfg, OpenLog(timestamp, o), steps).conflict {
        OpeningIsKeyed(timestamp, o);
        RunNeverConflicts(cfg, OpenLog(timestamp, o), steps);
      }
    } else {
      var steps := ConflictingRun(cfg);
      assert !ConflictFree(cfg);
    }
  }
}
