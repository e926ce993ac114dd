/**
 Guarantees over whole runs of one trade: any sequence of market updates, each of
 which may die after any number of appends and be followed by a restart.
 */
module PaperGuarantees {
  import opened Wrappers
  import opened PaperEvents
  import opened PaperLifecycle
  import opened PaperProtocol
  import opened PaperCrashes

  /** One market update that lives for at most `appends` appends. */
  datatype Step = Step(tick: Tick, appends: nat)

  function Take(es: seq<Event>, n: nat): seq<Event> {
    if n < |es| then es[..n] else es
  }

  lemma {:induction false} ApplyKeepsOpening(s: State, log: seq<Event>)
    ensures ApplyAll(s, log).opening == s.opening
    decreases |log|
  {
    if log != [] {
      ApplyKeepsOpening(s, log[..|log| - 1]);
    }
  }

  lemma {:induction false} ExecExtends(log: seq<Event>, attempts: seq<Event>)
    ensures log <= Exec(log, attempts).log
    decreases |attempts|
  {
    if attempts != [] {
      match Judge(log, attempts[0])
      case Appended => ExecExtends(log + [attempts[0]], attempts[1..]);
      case Duplicate => ExecExtends(log, attempts[1..]);
      case Conflict =>
    }
  }

  /** An action that is not attempted does not appear. */
  lemma {:induction false} ExecAddsAttempts(log: seq<Event>, es: seq<Event>, a: Action)
    requires forall e | e in es :: ActionOf(e) != a
    ensures HasAction(Exec(log, es).log, a) <==> HasAction(log, a)
    decreases |es|
  {
    if es != [] {
      match Judge(log, es[0])
      case Appended =>
        HasActionPush(log, es[0]);
        ExecAddsAttempts(log + [es[0]], es[1..], a);
      case Duplicate => ExecAddsAttempts(log, es[1..], a);
      case Conflict =>
    }
  }

  /** Whatever is new in the log was attempted. */
  lemma {:induction false} ExecAddsOnly(log: seq<Event>, es: seq<Event>)
    ensures log <= Exec(log, es).log
    ensures forall e | e in Exec(log, es).log[|log|..] :: e in es
    decreases |es|
  {
    ExecExtends(log, es);
    if es != [] {
      match Judge(log, es[0])
      case Appended =>
        ExecAddsOnly(log + [es[0]], es[1..]);
        ExecExtends(log + [es[0]], es[1..]);
        assert Exec(log, es).log[|log|..] == [es[0]] + Exec(log, es).log[|log| + 1..];
      case Duplicate => ExecAddsOnly(log, es[1..]);
      case Conflict =>
    }
  }

  /** Where nothing conflicts, every attempted action is persisted. */
  lemma {:induction false} ExecHolds(log: seq<Event>, es: seq<Event>)
    requires !Exec(log, es).conflict
    ensures forall e | e in es :: HasAction(Exec(log, es).log, ActionOf(e))
    decreases |es|
  {
    if es != [] {
      var first := if Judge(log, es[0]).Appended? then log + [es[0]] else log;
      HasActionPush(log, es[0]);
      ExecHolds(first, es[1..]);
      ExecExtends(first, es[1..]);
      HasActionGrows(first, Exec(log, es).log);
      assert es == [es[0]] + es[1..];
    }
  }

  lemma HasActionGrows(log: seq<Event>, more: seq<Event>)
    requires log <= more
    ensures forall a :: HasAction(log, a) ==> HasAction(more, a)
  {
    forall a | HasAction(log, a) ensures HasAction(more, a) {
      var r :| r in log && ActionOf(r) == a;
      assert r in more;
    }
  }

  predicate Started(log: seq<Event>) {
    Opened(log) && log[0].body.opening.fill > 0.0
  }

  /** What one update does to the log of a trade; closed trades are not updated. */
  ghost function Advance(cfg: Config, log: seq<Event>, step: Step): (r: Executed)
    requires Started(log)
    ensures log <= r.log && Started(r.log)
  {
    ApplyKeepsOpening(Initial(log[0].body.opening), log);
    var s := Replay(log);
    if s.closed then Executed(log, false)
    else
      var attempts := Take(Program(cfg, s, step.tick), step.appends);
      ExecExtends(log, attempts);
      Exec(log, attempts)
  }

  ghost function RunTrade(cfg: Config, log: seq<Event>, steps: seq<Step>): (r: Executed)
    requires Started(log)
    ensures log <= r.log && Started(r.log)
    decreases |steps|
  {
    if steps == [] then Executed(log, false)
    else
      var first := Advance(cfg, log, steps[0]);
      var rest := RunTrade(cfg, first.log, steps[1..]);
      Executed(rest.log, first.conflict || rest.conflict)
  }

  lemma LegalStarted(cfg: Config, log: seq<Event>)
    requires Legal(cfg, log)
    ensures Started(log) && ValidOpening(log[0].body.opening) && Replay(log).opening == log[0].body.opening
  {
    LegalKeyFacts(cfg, log);
  }

  lemma AdvanceLegal(cfg: Config, log: seq<Event>, step: Step)
    requires Legal(cfg, log) && Started(log) && Sane(cfg)
    ensures Legal(cfg, Advance(cfg, log, step).log) && !Advance(cfg, log, step).conflict
  {
    LegalStarted(cfg, log);
    if !Replay(log).closed {
      var program := Program(cfg, Replay(log), step.tick);
      var after := ProgramPlays(cfg, log, step.tick);
      GoodPrefixLegal(cfg, log, program, |Take(program, step.appends)|);
      assert program[..|program|] == program;
    }
  }

  /** Crash safety: every run from a legal log is conflict free and keeps the log legal. */
  lemma {:induction false} RunLegal(cfg: Config, log: seq<Event>, steps: seq<Step>)
    requires Legal(cfg, log) && Started(log) && Sane(cfg)
    ensures Legal(cfg, RunTrade(cfg, log, steps).log) && !RunTrade(cfg, log, steps).conflict
    decreases |steps|
  {
    if steps != [] {
      AdvanceLegal(cfg, log, steps[0]);
      RunLegal(cfg, Advance(cfg, log, steps[0]).log, steps[1..]);
    }
  }

  function OpenLog(timestamp: int, o: Opening): seq<Event> {
    [Event(timestamp, TradeOpened(o))]
  }

  // ----- terminal intents -----

  /** What a trade with a pending terminal intent still has to append. */
  ghost function Completion(cfg: Config, log: seq<Event>): seq<Event>
    requires Opened(log) && Replay(log).pending.Some?
  {
    var p := Replay(log).pending.value;
    var pair := ClosePair(cfg, Replay(log).opening, p.timestamp, p.price, p.reason, p.remaining);
    if HasAction(log, ExitTo(p.reason)) then [pair[1]] else pair
  }

  lemma {:induction false} ExecFresh(log: seq<Event>, e: Event)
    requires !HasAction(log, ActionOf(e))
    ensures Exec(log, [e]) == Executed(log + [e], false)
  {
    assert [e][1..] == [];
    assert Exec(log + [e], []) == Executed(log + [e], false);
  }

  lemma {:induction false} ExecRepeat(log: seq<Event>, e: Event)
    requires Repeats(log, e)
    ensures Exec(log, [e]) == Executed(log, false)
  {
    assert HasAction(log, ActionOf(e));
    assert [e][1..] == [];
    assert Exec(log, []) == Executed(log, false);
  }

  /** One update of a trade whose exit reason is persisted: it closes, or dies before. */
  lemma AdvanceExited(cfg: Config, log: seq<Event>, step: Step)
    requires Legal(cfg, log) && Started(log) && !Replay(log).closed
    requires Replay(log).pending.Some? && HasAction(log, ExitTo(Replay(log).pending.value.reason))
    ensures Advance(cfg, log, step).log == if step.appends < 2 then log else log + Completion(cfg, log)
  {
    hide Legal, ApplyAll, Pnl, Fee;
    LegalKeyFacts(cfg, log);
    LegalIntentFacts(cfg, log);
    var pair := Program(cfg, Replay(log), step.tick);
    var taken := Take(pair, step.appends);
    assert pair[0] in log;
    assert Repeats(log, pair[0]);
    ExecRepeat(log, pair[0]);
    if step.appends == 0 {
      assert taken == [];
    } else if step.appends == 1 {
      assert taken == [pair[0]];
    } else {
      assert taken == [pair[0]] + [pair[1]];
      ExecConcat(log, [pair[0]], [pair[1]]);
      ExecFresh(log, pair[1]);
    }
  }

  /** One update of a trade whose stop touch is persisted but not its exit reason. */
  lemma AdvanceStopped(cfg: Config, log: seq<Event>, step: Step)
    requires Legal(cfg, log) && Started(log) && !Replay(log).closed
    requires Replay(log).pending.Some? && !HasAction(log, ExitTo(Replay(log).pending.value.reason))
    ensures Advance(cfg, log, step).log == log + Take(Completion(cfg, log), step.appends)
  {
    hide Legal, ApplyAll, Pnl, Fee;
    LegalKeyFacts(cfg, log);
    var pair := Program(cfg, Replay(log), step.tick);
    var taken := Take(pair, step.appends);
    ExecFresh(log, pair[0]);
    if step.appends == 0 {
      assert taken == [] && log + [] == log;
    } else if step.appends == 1 {
      assert taken == [pair[0]];
    } else {
      assert taken == [pair[0]] + [pair[1]];
      ExecConcat(log, [pair[0]], [pair[1]]);
      HasActionPush(log, pair[0]);
      ExecFresh(log + [pair[0]], pair[1]);
      assert log + [pair[0]] + [pair[1]] == log + pair;
    }
  }

  lemma {:induction false} ClosedStays(cfg: Config, log: seq<Event>, steps: seq<Step>)
    requires Started(log) && Replay(log).closed
    ensures RunTrade(cfg, log, steps) == Executed(log, false)
    decreases |steps|
  {
    if steps != [] {
      ClosedStays(cfg, log, steps[1..]);
    }
  }

  /** After the exit intent is appended, what is left is the close that was already due. */
  lemma CompletionStep(cfg: Config, log: seq<Event>)
    requires Legal(cfg, log) && !Replay(log).closed && Replay(log).pending.Some?
    requires !HasAction(log, ExitTo(Replay(log).pending.value.reason))
    ensures var c := Completion(cfg, log);
            var next := log + [c[0]];
            && |c| == 2 && Opened(next) && Replay(next).pending == Replay(log).pending && !Replay(next).closed
            && HasAction(next, ExitTo(Replay(log).pending.value.reason)) && Completion(cfg, next) == [c[1]]
  {
    hide Pnl, Fee;
    LegalQuantityFacts(cfg, log);
    var e := Completion(cfg, log)[0];
    ReplayPush(log, e);
    HasActionPush(log, e);
  }

  lemma CompletionCloses(cfg: Config, log: seq<Event>)
    requires Opened(log) && Replay(log).pending.Some?
    ensures var next := log + Completion(cfg, log); Opened(next) && Replay(next).closed
  {
    var c := Completion(cfg, log);
    var last := c[|c| - 1];
    var before := log + c[..|c| - 1];
    assert log + c == before + [last];
    ReplayPush(before, last);
  }

  ghost predicate SomeSurvives(steps: seq<Step>) {
    exists i | 0 <= i < |steps| :: steps[i].appends >= 2
  }

  lemma SurvivorAhead(steps: seq<Step>)
    ensures SomeSurvives(steps) ==> steps != [] && (steps[0].appends >= 2 || SomeSurvives(steps[1..]))
  {
    if SomeSurvives(steps) && steps[0].appends < 2 {
      var i :| 0 <= i < |steps| && steps[i].appends >= 2;
      assert steps[1..][i - 1] == steps[i];
    }
  }

  /** One update of a pending trade appends nothing, the exit alone, or everything due. */
  lemma AdvancePending(cfg: Config, log: seq<Event>, step: Step)
    requires Legal(cfg, log) && Started(log) && !Replay(log).closed && Replay(log).pending.Some?
    ensures var c, next := Completion(cfg, log), Advance(cfg, log, step).log;
            && 1 <= |c| <= 2
            && (step.appends >= 2 ==> next == log + c)
            && (next == log || next == log + c
                || (next == log + [c[0]] && |c| == 2 && !HasAction(log, ExitTo(Replay(log).pending.value.reason))))
  {
    if HasAction(log, ExitTo(Replay(log).pending.value.reason)) {
      AdvanceExited(cfg, log, step);
    } else {
      AdvanceStopped(cfg, log, step);
      assert Take(Completion(cfg, log), 0) == [] && log + [] == log;
    }
  }

  ghost predicate CompletesTo(log: seq<Event>, rest: seq<Event>, final: seq<Event>) {
    log <= final && final[|log|..] <= rest
  }

  /**
   Crash recovery of a persisted terminal intent.  Whatever candles follow and wherever
   the process dies, the only events the trade can still get are the exit and the close
   that were due when the intent was persisted: same price, size, reason and timestamp.
   One update that survives two appends is enough to get them all.
   */
  lemma {:induction false} PendingCompletes(cfg: Config, log: seq<Event>, steps: seq<Step>)
    requires Legal(cfg, log) && Started(log) && Sane(cfg) && !Replay(log).closed && Replay(log).pending.Some?
    ensures CompletesTo(log, Completion(cfg, log), RunTrade(cfg, log, steps).log)
    ensures SomeSurvives(steps) ==> RunTrade(cfg, log, steps).log == log + Completion(cfg, log)
    decreases |steps|
  {
    hide Legal, ApplyAll, Advance, SomeSurvives, Completion, HasAction;
    SurvivorAhead(steps);
    if steps != [] {
      var step, c := steps[0], Completion(cfg, log);
      var next := Advance(cfg, log, step).log;
      AdvanceLegal(cfg, log, step);
      AdvancePending(cfg, log, step);
      if next == log + c {
        CompletionCloses(cfg, log);
        ClosedStays(cfg, next, steps[1..]);
      } else if next == log {
        PendingCompletes(cfg, log, steps[1..]);
      } else {
        CompletionStep(cfg, log);
        PendingCompletes(cfg, next, steps[1..]);
        assert next + [c[1]] == log + c;
      }
    }
  }

  /** The log after a stop touch at index i, where the state before the touch was `before`. */
  ghost predicate AfterStop(cfg: Config, log: seq<Event>, s: State, i: nat, before: State) {
    && i < |log| <= i + 3 && log[i].body.SlTouch?
    && s.opening == before.opening && (s.closed <==> |log| == i + 3)
    && log[i + 1..]
       == Take(ClosePair(cfg, before.opening, log[i].timestamp, before.stop, StopLoss, before.remaining), |log| - i - 1)
    && (HasAction(log, ExitTo(StopLoss)) <==> |log| > i + 1)
    && (!s.closed ==>
          && s.remaining == before.remaining && s.pending.Some? && s.pending.value.reason == StopLoss
          && s.pending.value.timestamp == log[i].timestamp && s.pending.value.price == before.stop)
  }

  lemma AfterStopStep(cfg: Config, log: seq<Event>, s: State, e: Event, i: nat, before: State)
    requires AfterStop(cfg, log, s, i, before) && Admissible(cfg, log, s, e) && !HasAction(log, ActionOf(e))
    ensures AfterStop(cfg, log + [e], Apply(s, e), i, before)
  {
    hide Pnl, Fee, FeeBreakEven;
    HasActionPush(log, e);
    assert (log + [e])[i + 1..] == log[i + 1..] + [e];
  }

  /**
   In every legal log, nothing but the due exit and close can follow a stop touch: at the
   stop price, for the whole remaining size, at the time of the touch.
   */
  lemma {:induction false} StopTouchDecides(cfg: Config, log: seq<Event>, i: nat)
    requires Legal(cfg, log) && 1 <= i < |log| && log[i].body.SlTouch?
    ensures log[i].body.price == Replay(log[..i]).stop
    ensures AfterStop(cfg, log, Replay(log), i, Replay(log[..i]))
    decreases |log|
  {
    hide Legal, ApplyAll, Pnl, Fee, FeeBreakEven, AfterStop;
    var head, e := LegalPop(cfg, log);
    if i < |log| - 1 {
      assert head[i] == log[i] && head[..i] == log[..i];
      StopTouchDecides(cfg, head, i);
      AfterStopStep(cfg, head, Replay(head), e, i, Replay(head[..i]));
    } else {
      assert head == log[..i];
      StopTouchFirst(cfg, head, e);
    }
  }

  lemma StopTouchFirst(cfg: Config, log: seq<Event>, e: Event)
    requires Legal(cfg, log) && e.body.SlTouch? && Admissible(cfg, log, Replay(log), e)
    ensures AfterStop(cfg, log + [e], Apply(Replay(log), e), |log|, Replay(log))
  {
    HasActionPush(log, e);
    LegalIntentFacts(cfg, log);
    hide Legal, ApplyAll, Pnl, Fee;
  }
}
