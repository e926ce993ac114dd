/**
 Replay refines live: whenever a market update arrives at a target, its memory agrees
 with the fold of the log.  And what a process that restarts there attempts on the same
 tick: the live remainder, unless the stop it replays is hit.  What a crash inside the
 appends of one target or of the profit lock costs is the subject of `PaperRecovery`.
 */
module PaperReplay {
  import opened Wrappers
  import opened PaperEvents
  import opened PaperLifecycle
  import opened PaperProtocol
  import opened PaperCrashes
  import opened PaperGuarantees

  /** What has been attempted, and the memory, when an update arrives at target i; None if it ended before. */
  datatype Checkpoint = Checkpoint(attempted: seq<Event>, memory: State)

  function Arrive(cfg: Config, s: State, t: Tick, i: nat): Option<Checkpoint>
    requires s.opening.fill > 0.0 && i <= |s.opening.targets|
    ensures Arrive(cfg, s, t, i).Some? ==> Arrive(cfg, s, t, i).value.memory.opening == s.opening
  {
    if s.pending.Some? || StopHit(s, t) then None
    else if i == 0 then Some(Checkpoint(Observations(s, t), Observed(s, t)))
    else
      match Arrive(cfg, s, t, i - 1)
      case None => None
      case Some(c) =>
        var m := c.memory;
        if i - 1 in m.completed then if m.remaining <= EPSILON then None else Some(c)
        else if i - 1 !in m.touched && !TargetHit(m.opening, t, i - 1) then Some(c)
        else
          var after := AfterFill(cfg, m, i - 1);
          if after.remaining <= EPSILON then None
          else Some(Checkpoint(c.attempted + FillEvents(cfg, m, t, i - 1), after))
  }

  /** States that agree from target i on attempt the same appends from there. */
  lemma {:induction false} AgreeingStatesActAlike(cfg: Config, m: State, s: State, t: Tick, i: nat)
    requires Agrees(m, s, i) && m.opening.fill > 0.0 && i <= |m.opening.targets|
    ensures TargetEvents(cfg, m, t, i) == TargetEvents(cfg, s, t, i)
    decreases |m.opening.targets| - i
  {
    hide Pnl, Fee, FeeBreakEven, TargetHit;
    if i < |m.opening.targets| {
      if i in m.completed || (i !in m.touched && !TargetHit(m.opening, t, i)) {
        AgreeingStatesActAlike(cfg, m, s, t, i + 1);
      } else {
        AgreeingStatesActAlike(cfg, AfterFill(cfg, m, i), AfterFill(cfg, s, i), t, i + 1);
      }
    }
  }

  /** Targets before i that an update with this tick passes over without attempting anything. */
  ghost predicate PassedOver(cfg: Config, s: State, t: Tick, i: nat)
    requires i <= |s.opening.targets|
  {
    forall j: nat | j < i ::
      if j in s.completed then s.remaining > EPSILON
      else (j in s.touched || TargetHit(s.opening, t, j)) ==> s.remaining > EPSILON && ClosesNothing(cfg, s, j)
  }

  /** A touched TP2 whose configured share is zero, and which is not the last target. */
  predicate ClosesNothing(cfg: Config, s: State, j: nat) {
    j == 1 && j in s.touched && j < |s.opening.targets| - 1 && cfg.tp2ClosePct == 0.0
  }

  lemma FilledPassesOver(cfg: Config, m: State, s: State, t: Tick, i: nat)
    requires Agrees(m, s, i) && i < |m.opening.targets| && PassedOver(cfg, s, t, i) && Sane(cfg)
    requires m.opening.size > 0.0 && AfterFill(cfg, m, i).remaining > EPSILON && m.remaining >= 0.0
    ensures PassedOver(cfg, Filled(cfg, m, s, i), t, i + 1)
  {
    hide FeeBreakEven, TargetHit, ArmsBreakEven;
    assert m.opening.size * (cfg.tp1ClosePct / 100.0) > 0.0;
    assert m.opening.size * (cfg.tp2ClosePct / 100.0) >= 0.0;
    assert m.opening.size * (cfg.tp2ClosePct / 100.0) == 0.0 ==> cfg.tp2ClosePct == 0.0;
  }

  lemma {:induction false} ArrivePlays(cfg: Config, log: seq<Event>, t: Tick, i: nat) returns (after: seq<Event>)
    requires Legal(cfg, log) && Started(log) && !Replay(log).closed && Sane(cfg) && Replay(log).opening.fill > 0.0
    requires i <= |Replay(log).opening.targets| && Arrive(cfg, Replay(log), t, i).Some?
    ensures var c := Arrive(cfg, Replay(log), t, i).value;
            && Opened(after) && Legal(cfg, after) && Plays(cfg, log, c.attempted, after)
            && Agrees(c.memory, Replay(after), i) && PassedOver(cfg, Replay(after), t, i)
            && Program(cfg, Replay(log), t) == c.attempted + TargetEvents(cfg, c.memory, t, i)
  {
    hide Legal, ApplyAll, Plays, FillEvents, TargetHit, Observations, StopHit, CloseSize, ArmsBreakEven, FeeBreakEven;
    hide ClosePair;
    var s := Replay(log);
    if i == 0 {
      after := ObservationsPlay(cfg, log, s, t);
    } else {
      var l1 := ArrivePlays(cfg, log, t, i - 1);
      var c := Arrive(cfg, s, t, i - 1).value;
      var m := c.memory;
      if i - 1 in m.completed || (i - 1 !in m.touched && !TargetHit(m.opening, t, i - 1)) {
        after := l1;
      } else {
        FillFacts(cfg, l1, Replay(l1));
        after := FillPlays(cfg, l1, m, Replay(l1), t, i - 1);
        FilledAgrees(cfg, m, Replay(l1), i - 1);
        FilledPassesOver(cfg, m, Replay(l1), t, i - 1);
        PlaysThen(cfg, log, c.attempted, l1, FillEvents(cfg, m, t, i - 1), after);
        assert c.attempted + (FillEvents(cfg, m, t, i - 1) + TargetEvents(cfg, AfterFill(cfg, m, i - 1), t, i))
            == c.attempted + FillEvents(cfg, m, t, i - 1) + TargetEvents(cfg, AfterFill(cfg, m, i - 1), t, i);
      }
    }
  }

  /**
   Replay refines live.  When an update arrives at target i, its memory agrees with the
   fold of the log persisted so far on stop, size, touched targets and excursions, and
   what the update still attempts is what the replayed state calls for from target i on.
   */
  lemma ReplayRefinesLive(cfg: Config, log: seq<Event>, t: Tick, i: nat)
    requires Legal(cfg, log) && Started(log) && !Replay(log).closed && Sane(cfg) && Replay(log).opening.fill > 0.0
    requires i <= |Replay(log).opening.targets| && Arrive(cfg, Replay(log), t, i).Some?
    ensures var c := Arrive(cfg, Replay(log), t, i).value;
            var persisted := Exec(log, c.attempted).log;
            && Opened(persisted) && Agrees(c.memory, Replay(persisted), i)
            && Replay(persisted).opening == Replay(log).opening
            && Program(cfg, Replay(log), t) == c.attempted + TargetEvents(cfg, Replay(persisted), t, i)
  {
    var after := ArrivePlays(cfg, log, t, i);
    var c := Arrive(cfg, Replay(log), t, i).value;
    AgreeingStatesActAlike(cfg, c.memory, Replay(after), t, i);
  }

  // ----- a restart on the same tick -----

  /** An update that starts over attempts nothing for the targets it passes over. */
  lemma {:induction false} RescanSkips(cfg: Config, s: State, t: Tick, j: nat, i: nat)
    requires s.opening.fill > 0.0 && j <= i <= |s.opening.targets| && PassedOver(cfg, s, t, i)
    ensures TargetEvents(cfg, s, t, j) == TargetEvents(cfg, s, t, i)
    decreases i - j
  {
    hide Pnl, Fee, FeeBreakEven, TargetHit;
    if j < i {
      RescanSkips(cfg, s, t, j + 1, i);
      if j !in s.completed && (j in s.touched || TargetHit(s.opening, t, j)) {
        assert CloseSize(cfg, s, j) == 0.0;
        assert AfterFill(cfg, s, j).remaining == s.remaining - CloseSize(cfg, s, j);
        assert s.touched + {j} == s.touched;
        assert AfterFill(cfg, s, j) == s;
        assert FillEvents(cfg, s, t, j) == [];
      }
    }
  }

  lemma {:induction false} ArriveObserved(cfg: Config, s: State, t: Tick, i: nat)
    requires s.opening.fill > 0.0 && i <= |s.opening.targets| && Arrive(cfg, s, t, i).Some?
    ensures var m := Arrive(cfg, s, t, i).value.memory;
            && Observed(m, t) == m && !StopHit(s, t) && (m.stop == s.stop || m.stop == FeeBreakEven(cfg, s.opening))
  {
    hide TargetHit, FillEvents, CloseSize, ArmsBreakEven, FeeBreakEven, StopHit;
    if i > 0 {
      ArriveObserved(cfg, s, t, i - 1);
    }
  }

  lemma {:induction false} NoStopTouchAhead(cfg: Config, s: State, t: Tick, i: nat)
    requires s.opening.fill > 0.0 && i <= |s.opening.targets|
    ensures forall e | e in TargetEvents(cfg, s, t, i) :: !e.body.SlTouch?
    decreases |s.opening.targets| - i
  {
    hide Pnl, Fee, FeeBreakEven, TargetHit;
    if i < |s.opening.targets| {
      NoStopTouchAhead(cfg, s, t, i + 1);
      if i !in s.completed {
        NoStopTouchAhead(cfg, AfterFill(cfg, s, i), t, i + 1);
      }
    }
  }

  /** What a process attempts that replays `p` and sees the tick again; `rest` is what the dead one left undone. */
  predicate Resumes(cfg: Config, p: State, t: Tick, rest: seq<Event>)
    requires p.opening.fill > 0.0
  {
    && Observations(p, t) == [MarkEvent(p, t)]
    && Program(cfg, p, t) == [MarkEvent(p, t)] + (if StopHit(p, t) then StopEvents(cfg, p, t) else rest)
    && (Program(cfg, p, t) == [MarkEvent(p, t)] + rest <==> !StopHit(p, t))
  }

  lemma ResumesAt(cfg: Config, m: State, p: State, t: Tick, i: nat)
    requires Agrees(m, p, i) && m.opening.fill > 0.0 && i <= |m.opening.targets|
    requires Observed(m, t) == m && PassedOver(cfg, p, t, i)
    ensures Resumes(cfg, p, t, TargetEvents(cfg, m, t, i))
  {
    hide PassedOver, TargetEvents, ExcursionPct, StopHit, ClosePair;
    var rest := TargetEvents(cfg, m, t, i);
    AgreeingStatesActAlike(cfg, m, p, t, i);
    RescanSkips(cfg, p, t, 0, i);
    NoStopTouchAhead(cfg, m, t, i);
    assert MfeEvents(p, t) == [] && MaeEvents(p, t) == [] by {
      assert Observed(m, t).mfe == m.mfe && Observed(m, t).mae == m.mae;
    }
    assert Observed(p, t) == p;
    assert Observations(p, t) == [MarkEvent(p, t)];
    if StopHit(p, t) {
      var stopped := StopEvents(cfg, p, t);
      assert stopped[0].body.SlTouch?;
      assert ([MarkEvent(p, t)] + stopped)[1..] == stopped && ([MarkEvent(p, t)] + rest)[1..] == rest;
    }
  }

  lemma SameStopSameHit(s: State, p: State, t: Tick)
    requires s.opening == p.opening && s.stop == p.stop
    ensures StopHit(s, t) == StopHit(p, t)
  {
  }

  /**
   A restart on the same tick.  A process that dies where its update arrives at target i
   and starts over from the log attempts the live remainder if and only if the replayed
   stop is not hit; if it is, it stops out, which takes a break-even move of this update.
   */
  lemma RestartResumes(cfg: Config, log: seq<Event>, t: Tick, i: nat)
    requires Legal(cfg, log) && Started(log) && !Replay(log).closed && Sane(cfg) && Replay(log).opening.fill > 0.0
    requires i <= |Replay(log).opening.targets| && Arrive(cfg, Replay(log), t, i).Some?
    ensures var c := Arrive(cfg, Replay(log), t, i).value;
            var persisted := Exec(log, c.attempted).log;
            var rest := TargetEvents(cfg, c.memory, t, i);
            && Opened(persisted) && Replay(persisted).opening == Replay(log).opening
            && Program(cfg, Replay(log), t) == c.attempted + rest
            && Resumes(cfg, Replay(persisted), t, rest)
            && (StopHit(Replay(persisted), t) ==> Replay(persisted).stop == FeeBreakEven(cfg, Replay(log).opening))
  {
    hide Legal, ApplyAll, Program, Observed, TargetEvents, Resumes, PassedOver, FeeBreakEven, StopHit;
    var s := Replay(log);
    var after := ArrivePlays(cfg, log, t, i);
    var c := Arrive(cfg, s, t, i).value;
    ArriveObserved(cfg, s, t, i);
    ResumesAt(cfg, c.memory, Replay(after), t, i);
    if Replay(after).stop == s.stop {
      SameStopSameHit(s, Replay(after), t);
    }
  }

  /** What follows the fill of target i in the same update. */
  function AfterFillEvents(cfg: Config, m: State, t: Tick, i: nat): seq<Event>
    requires m.opening.fill > 0.0 && i < |m.opening.targets|
  {
    var after := AfterFill(cfg, m, i);
    if after.remaining <= EPSILON
    then ClosePair(cfg, m.opening, t.timestamp, m.opening.targets[i], TakeProfit(i + 1), 0.0)
    else TargetEvents(cfg, after, t, i + 1)
  }

  lemma FillComesNext(cfg: Config, m: State, t: Tick, i: nat)
    requires m.opening.fill > 0.0 && i < |m.opening.targets| && i !in m.completed
    requires (i in m.touched || TargetHit(m.opening, t, i))
    ensures TargetEvents(cfg, m, t, i) == FillEvents(cfg, m, t, i) + AfterFillEvents(cfg, m, t, i)
  {
    hide Pnl, Fee, FeeBreakEven, TargetHit, ClosePair, CloseSize, FillEvents;
  }

  lemma TouchChangesNoFill(cfg: Config, m: State, t: Tick, i: nat)
    requires i < |m.opening.targets|
    ensures var touchedM := m.(touched := m.touched + {i});
            && AfterFill(cfg, touchedM, i) == AfterFill(cfg, m, i)
            && FillEvents(cfg, m, t, i) == TouchEvents(m, t, i) + FillEvents(cfg, touchedM, t, i)
  {
    hide Pnl, Fee, FeeBreakEven;
    var touchedM := m.(touched := m.touched + {i});
    assert touchedM.touched + {i} == m.touched + {i};
    assert TouchEvents(touchedM, t, i) == [];
  }

  lemma TouchedAhead(cfg: Config, m: State, t: Tick, i: nat)
    requires m.opening.fill > 0.0 && i < |m.opening.targets| && i !in m.completed
    requires (i in m.touched || TargetHit(m.opening, t, i))
    ensures TargetEvents(cfg, m, t, i)
         == TouchEvents(m, t, i) + TargetEvents(cfg, m.(touched := m.touched + {i}), t, i)
  {
    hide TargetEvents, ClosePair, AfterFill, FillEvents, TouchEvents, TargetHit;
    FillComesNext(cfg, m, t, i);
    FillComesNext(cfg, m.(touched := m.touched + {i}), t, i);
    TouchChangesNoFill(cfg, m, t, i);
  }

  /** The same between a touch and its partial: dying there, the target is taken up again after the stop check. */
  lemma TouchBoundary(cfg: Config, log: seq<Event>, t: Tick, i: nat)
    requires Legal(cfg, log) && Started(log) && !Replay(log).closed && Sane(cfg) && Replay(log).opening.fill > 0.0
    requires i < |Replay(log).opening.targets| && Arrive(cfg, Replay(log), t, i).Some?
    requires var m := Arrive(cfg, Replay(log), t, i).value.memory;
             i !in m.completed && (i in m.touched || TargetHit(m.opening, t, i))
    ensures var c := Arrive(cfg, Replay(log), t, i).value;
            var done := c.attempted + TouchEvents(c.memory, t, i);
            var persisted := Exec(log, done).log;
            var rest := TargetEvents(cfg, c.memory.(touched := c.memory.touched + {i}), t, i);
            && Opened(persisted) && Replay(persisted).opening == Replay(log).opening
            && Program(cfg, Replay(log), t) == done + rest
            && Resumes(cfg, Replay(persisted), t, rest)
  {
    hide Legal, ApplyAll, Good, Exec, TargetEvents, TouchEvents, TargetHit, Program, Resumes, ExcursionPct, CloseSize;
    var s := Replay(log);
    var l0 := ArrivePlays(cfg, log, t, i);
    var c := Arrive(cfg, s, t, i).value;
    var m := c.memory.(touched := c.memory.touched + {i});
    ArriveObserved(cfg, s, t, i);
    var l1 := TouchPlays(cfg, l0, c.memory, Replay(l0), t, i);
    PlaysThen(cfg, log, c.attempted, l0, TouchEvents(c.memory, t, i), l1);
    TouchedAhead(cfg, c.memory, t, i);
    assert c.attempted + (TouchEvents(c.memory, t, i) + TargetEvents(cfg, m, t, i))
        == c.attempted + TouchEvents(c.memory, t, i) + TargetEvents(cfg, m, t, i);
    ResumesAt(cfg, m, Replay(l1), t, i);
  }
}
