/**
 Crash safety of one market update.  An update is a list of attempted appends; the
 process may die after any of them.  Here: whatever prefix gets through, the log
 stays legal and no append conflicts.
 */
module PaperCrashes {
  import opened Wrappers
  import opened PaperEvents
  import opened PaperLifecycle
  import opened PaperProtocol

  /** Every attempt is admissible and new, or repeats what is already persisted. */
  ghost predicate Good(cfg: Config, log: seq<Event>, attempts: seq<Event>)
    requires Opened(log)
    decreases |attempts|
  {
    attempts == [] ||
    match Judge(log, attempts[0])
    case Appended => Admissible(cfg, log, Replay(log), attempts[0]) && Good(cfg, log + [attempts[0]], attempts[1..])
    case Duplicate => Good(cfg, log, attempts[1..])
    case Conflict => false
  }

  /** The attempts go through without conflict and leave the legal log `after`. */
  ghost predicate Plays(cfg: Config, log: seq<Event>, attempts: seq<Event>, after: seq<Event>) {
    && Opened(log) && Good(cfg, log, attempts)
    && Exec(log, attempts) == Executed(after, false)
    && Opened(after) && Legal(cfg, after)
  }

  lemma {:induction false} GoodPrefixLegal(cfg: Config, log: seq<Event>, attempts: seq<Event>, k: nat)
    requires Legal(cfg, log) && Good(cfg, log, attempts) && k <= |attempts|
    ensures Plays(cfg, log, attempts[..k], Exec(log, attempts[..k]).log)
    decreases |attempts|
  {
    if k > 0 {
      var e := attempts[0];
      assert attempts[..k][0] == e && attempts[..k][1..] == attempts[1..][..k - 1];
      if Judge(log, e).Appended? {
        LegalPush(cfg, log, e);
        GoodPrefixLegal(cfg, log + [e], attempts[1..], k - 1);
      } else {
        GoodPrefixLegal(cfg, log, attempts[1..], k - 1);
      }
    } else {
      assert attempts[..k] == [];
    }
  }

  lemma {:induction false} ExecConcat(log: seq<Event>, a: seq<Event>, b: seq<Event>)
    ensures Exec(log, a + b) == if Exec(log, a).conflict then Exec(log, a) else Exec(Exec(log, a).log, b)
    decreases |a|
  {
    if a == [] {
      assert a + b == b;
    } else {
      assert (a + b)[0] == a[0] && (a + b)[1..] == a[1..] + b;
      if Judge(log, a[0]).Appended? {
        ExecConcat(log + [a[0]], a[1..], b);
      } else if Judge(log, a[0]).Duplicate? {
        ExecConcat(log, a[1..], b);
      }
    }
  }

  lemma {:induction false} GoodConcat(cfg: Config, log: seq<Event>, a: seq<Event>, mid: seq<Event>, b: seq<Event>)
    requires Opened(log) && Good(cfg, log, a) && Exec(log, a) == Executed(mid, false) && Opened(mid)
    requires Good(cfg, mid, b)
    ensures Good(cfg, log, a + b)
    decreases |a|
  {
    if a == [] {
      assert a + b == b;
    } else {
      assert (a + b)[0] == a[0] && (a + b)[1..] == a[1..] + b;
      GoodConcat(cfg, if Judge(log, a[0]).Appended? then log + [a[0]] else log, a[1..], mid, b);
    }
  }

  lemma PlaysThen(cfg: Config, log: seq<Event>, a: seq<Event>, mid: seq<Event>, b: seq<Event>, after: seq<Event>)
    requires Plays(cfg, log, a, mid) && Plays(cfg, mid, b, after)
    ensures Opened(after) && Legal(cfg, after) && Plays(cfg, log, a + b, after)
  {
    GoodConcat(cfg, log, a, mid, b);
    ExecConcat(log, a, b);
  }

  lemma PlaysNothing(cfg: Config, log: seq<Event>)
    requires Legal(cfg, log)
    ensures Plays(cfg, log, [], log)
  {
  }

  lemma PlaysOne(cfg: Config, log: seq<Event>, e: Event) returns (after: seq<Event>)
    requires Legal(cfg, log) && !HasAction(log, ActionOf(e)) && Admissible(cfg, log, Replay(log), e)
    ensures after == log + [e] && Plays(cfg, log, [e], after) && Replay(after) == Apply(Replay(log), e)
    ensures forall a :: HasAction(after, a) <==> HasAction(log, a) || ActionOf(e) == a
  {
    after := log + [e];
    LegalPush(cfg, log, e);
    ReplayPush(log, e);
    HasActionPush(log, e);
    assert [e][1..] == [];
    assert Exec(after, []) == Executed(after, false);
    assert Good(cfg, after, []);
  }

  lemma PlaysDuplicate(cfg: Config, log: seq<Event>, e: Event)
    requires Legal(cfg, log) && Repeats(log, e)
    ensures Plays(cfg, log, [e], log)
  {
    assert HasAction(log, ActionOf(e));
    assert [e][1..] == [];
    assert Exec(log, []) == Executed(log, false);
  }

  lemma PlaysTwo(cfg: Config, log: seq<Event>, a: Event, mid: seq<Event>, b: Event, after: seq<Event>)
    requires Plays(cfg, log, [a], mid) && Plays(cfg, mid, [b], after)
    ensures Opened(after) && Legal(cfg, after) && Plays(cfg, log, [a, b], after)
  {
    PlaysThen(cfg, log, [a], mid, [b], after);
    assert [a] + [b] == [a, b];
  }

  // ----- excursions -----

  ghost predicate ExcursionFacts(log: seq<Event>, s: State) {
    && (forall e | e in log && e.body.MfeUpdate? :: e.body.pct <= s.mfe)
    && (forall e | e in log && e.body.MaeUpdate? :: e.body.pct >= s.mae)
  }

  lemma ExcursionStep(cfg: Config, log: seq<Event>, s: State, e: Event)
    requires ExcursionFacts(log, s)
    ensures ExcursionFacts(log + [e], Apply(s, e))
  {
  }

  lemma {:induction false} LegalExcursionFacts(cfg: Config, log: seq<Event>)
    requires Legal(cfg, log)
    ensures ExcursionFacts(log, Replay(log))
  {
    if |log| == 1 {
      ReplayOpening(log);
    } else {
      var before, e := LegalPop(cfg, log);
      hide ExcursionFacts, Legal, ApplyAll, Admissible, HasAction;
      LegalExcursionFacts(cfg, before);
      ExcursionStep(cfg, before, Replay(before), e);
    }
  }

  // ----- memory and replay -----

  /** The in-memory state `m` and the replayed state `s` agree on all that is read from target `i` on. */
  ghost predicate Agrees(m: State, s: State, i: nat) {
    && m.opening == s.opening && m.stop == s.stop && m.remaining == s.remaining && m.touched == s.touched
    && m.mfe == s.mfe && m.mae == s.mae && m.profitLock == s.profitLock
    && m.pending.None? && s.pending.None? && !m.closed && !s.closed
    && (forall j: nat | j >= i :: j in m.completed <==> j in s.completed)
  }

  lemma MarkPlays(cfg: Config, log: seq<Event>, s: State, t: Tick) returns (after: seq<Event>)
    requires Legal(cfg, log) && s == Replay(log) && s.pending.None? && !s.closed
    ensures Opened(after) && Legal(cfg, after) && Plays(cfg, log, [MarkEvent(s, t)], after) && Replay(after) == s
  {
    hide Legal, ApplyAll, Plays, Good, Exec;
    var e := MarkEvent(s, t);
    if HasAction(log, ActionOf(e)) {
      var r :| r in log && ActionOf(r) == ActionOf(e);
      assert r == e;
      PlaysDuplicate(cfg, log, e);
      after := log;
    } else {
      after := PlaysOne(cfg, log, e);
    }
  }

  lemma MfePlays(cfg: Config, log: seq<Event>, s: State, t: Tick) returns (after: seq<Event>)
    requires Legal(cfg, log) && s == Replay(log) && s.pending.None? && !s.closed && s.opening.fill > 0.0
    ensures var pct := ExcursionPct(s.opening, Favorable(s.opening, t));
            Plays(cfg, log, MfeEvents(s, t), after) && Replay(after) == s.(mfe := if pct > s.mfe then pct else s.mfe)
  {
    hide Good, Exec, Legal, ApplyAll, Pnl, Fee, FeeBreakEven, ExcursionPct, Favorable;
    var es := MfeEvents(s, t);
    if es == [] {
      after := log;
      PlaysNothing(cfg, log);
    } else {
      LegalExcursionFacts(cfg, log);
      after := PlaysOne(cfg, log, es[0]);
    }
  }

  lemma MaePlays(cfg: Config, log: seq<Event>, s: State, t: Tick) returns (after: seq<Event>)
    requires Legal(cfg, log) && s == Replay(log) && s.pending.None? && !s.closed && s.opening.fill > 0.0
    ensures var pct := ExcursionPct(s.opening, Adverse(s.opening, t));
            Plays(cfg, log, MaeEvents(s, t), after) && Replay(after) == s.(mae := if pct < s.mae then pct else s.mae)
  {
    hide Good, Exec, Legal, ApplyAll, Pnl, Fee, FeeBreakEven, ExcursionPct, Adverse;
    var es := MaeEvents(s, t);
    if es == [] {
      after := log;
      PlaysNothing(cfg, log);
    } else {
      LegalExcursionFacts(cfg, log);
      after := PlaysOne(cfg, log, es[0]);
    }
  }

  /** The observations of a tick go through, and memory and replay agree after them. */
  lemma ObservationsPlay(cfg: Config, log: seq<Event>, s: State, t: Tick) returns (after: seq<Event>)
    requires Legal(cfg, log) && s == Replay(log) && s.pending.None? && !s.closed && s.opening.fill > 0.0
    ensures Opened(after) && Legal(cfg, after) && Plays(cfg, log, Observations(s, t), after)
    ensures Replay(after) == Observed(s, t)
  {
    var l1 := MarkPlays(cfg, log, s, t);
    var l2 := MfePlays(cfg, l1, s, t);
    var s2 := Replay(l2);
    assert MaeEvents(s2, t) == MaeEvents(s, t);
    after := MaePlays(cfg, l2, s2, t);
    PlaysThen(cfg, log, [MarkEvent(s, t)], l1, MfeEvents(s, t), l2);
    PlaysThen(cfg, log, [MarkEvent(s, t)] + MfeEvents(s, t), l2, MaeEvents(s, t), after);
  }

  // ----- closing -----

  /** Whether closing at this price for this reason with this size is what the replayed state calls for. */
  ghost predicate Closable(s: State, timestamp: int, price: real, reason: ExitReason, size: real) {
    && !s.closed
    && (size == s.remaining || (reason.TakeProfit? && size == 0.0))
    && match s.pending
       case Some(p) => p.timestamp == timestamp && p.price == price && p.reason == reason
       case None => reason.TakeProfit? && 1 <= reason.level <= |s.opening.targets|
                    && price == s.opening.targets[reason.level - 1] && s.remaining <= EPSILON
  }

  lemma ExitPlays(cfg: Config, log: seq<Event>, s: State, timestamp: int, price: real, reason: ExitReason)
    returns (after: seq<Event>)
    requires Legal(cfg, log) && s == Replay(log) && Closable(s, timestamp, price, reason, s.remaining)
    ensures Opened(after) && Legal(cfg, after)
    ensures Plays(cfg, log, [Event(timestamp, ExitReasonTransition(reason, price))], after)
    ensures HasAction(after, ExitTo(reason)) && !HasAction(after, TerminalClose)
    ensures Closable(Replay(after), timestamp, price, reason, s.remaining)
    ensures Replay(after).pending.Some? && Replay(after).opening == s.opening && Replay(after).remaining == s.remaining
  {
    hide Good, Exec, Legal, ApplyAll, Pnl, Fee, FeeBreakEven;
    var e := Event(timestamp, ExitReasonTransition(reason, price));
    LegalKeyFacts(cfg, log);
    LegalIntentFacts(cfg, log);
    if HasAction(log, ActionOf(e)) {
      assert e in log;
      PlaysDuplicate(cfg, log, e);
      after := log;
    } else {
      after := PlaysOne(cfg, log, e);
    }
  }

  lemma ClosePlays(cfg: Config, log: seq<Event>, timestamp: int, price: real, reason: ExitReason, size: real)
    returns (after: seq<Event>)
    requires Legal(cfg, log) && Closable(Replay(log), timestamp, price, reason, size)
    ensures Opened(after) && Legal(cfg, after)
    ensures Plays(cfg, log, ClosePair(cfg, Replay(log).opening, timestamp, price, reason, size), after)
    ensures Replay(after).closed
  {
    var pair := ClosePair(cfg, Replay(log).opening, timestamp, price, reason, size);
    hide Legal, ApplyAll, Plays, Good, Exec, Pnl, Fee;
    var l1 := ExitPlays(cfg, log, Replay(log), timestamp, price, reason);
    after := PlaysOne(cfg, l1, pair[1]);
    PlaysTwo(cfg, log, pair[0], l1, pair[1], after);
  }

  lemma StopPlays(cfg: Config, log: seq<Event>, m: State, t: Tick) returns (after: seq<Event>)
    requires Legal(cfg, log) && Agrees(m, Replay(log), 0)
    ensures Opened(after) && Legal(cfg, after) && Plays(cfg, log, StopEvents(cfg, m, t), after) && Replay(after).closed
  {
    hide Legal, ApplyAll, Good, Exec, Pnl, Fee, HasAction;
    LegalKeyFacts(cfg, log);
    var touch := Event(t.timestamp, SlTouch(m.stop, t.mark));
    var l1 := PlaysOne(cfg, log, touch);
    after := ClosePlays(cfg, l1, t.timestamp, m.stop, StopLoss, m.remaining);
    PlaysThen(cfg, log, [touch], l1, ClosePair(cfg, m.opening, t.timestamp, m.stop, StopLoss, m.remaining), after);
  }

  // ----- working on a target -----

  /** The settings under which no retry conflicts: TP1 closes something, TP2 does not add size. */
  predicate Sane(cfg: Config) {
    cfg.tp1ClosePct > 0.0 && cfg.tp2ClosePct >= 0.0
  }

  ghost predicate Adds(log: seq<Event>, after: seq<Event>, a: Action) {
    forall b :: HasAction(after, b) ==> HasAction(log, b) || b == a
  }

  lemma TouchPlays(cfg: Config, log: seq<Event>, m: State, s: State, t: Tick, i: nat) returns (after: seq<Event>)
    requires Legal(cfg, log) && s == Replay(log) && Agrees(m, s, i) && i < |m.opening.targets|
    ensures Opened(after) && Legal(cfg, after) && Plays(cfg, log, TouchEvents(m, t, i), after)
    ensures Replay(after) == s.(touched := s.touched + {i})
    ensures Adds(log, after, Touch(i + 1))
  {
    hide Good, Exec, Legal, ApplyAll, Pnl, Fee, FeeBreakEven;
    if i in m.touched {
      after := log;
      PlaysNothing(cfg, log);
      assert s.touched + {i} == s.touched;
    } else {
      LegalKeyFacts(cfg, log);
      after := PlaysOne(cfg, log, TouchEvents(m, t, i)[0]);
    }
  }

  lemma PartialPlays(cfg: Config, log: seq<Event>, m: State, s: State, t: Tick, i: nat) returns (after: seq<Event>)
    requires Legal(cfg, log) && s == Replay(log) && Sane(cfg)
    requires s.pending.None? && !s.closed && i < |s.opening.targets| && i in s.touched && i !in s.completed
    requires m.opening == s.opening && m.remaining == s.remaining
    ensures var size := CloseSize(cfg, m, i);
            && 0.0 <= size <= s.remaining
            && Opened(after) && Legal(cfg, after) && Plays(cfg, log, PartialEvents(cfg, m, t, i), after)
            && Replay(after) == if size == 0.0 then s
                                else s.(exited := s.exited + size, remaining := s.remaining - size,
                                  completed := s.completed + {i})
    ensures Adds(log, after, Partial(i + 1))
  {
    hide Good, Exec, Legal, ApplyAll;
    LegalKeyFacts(cfg, log);
    LegalQuantityFacts(cfg, log);
    var size := CloseSize(cfg, m, i);
    assert 0.0 <= size <= s.remaining by {
      assert s.opening.size * (cfg.tp1ClosePct / 100.0) >= 0.0;
      assert s.opening.size * (cfg.tp2ClosePct / 100.0) >= 0.0;
    }
    if size <= 0.0 {
      after := log;
      PlaysNothing(cfg, log);
    } else {
      after := PlaysOne(cfg, log, PartialEvents(cfg, m, t, i)[0]);
    }
  }

  lemma BreakEvenPlays(cfg: Config, log: seq<Event>, m: State, s: State, t: Tick, i: nat) returns (after: seq<Event>)
    requires Legal(cfg, log) && s == Replay(log) && s.pending.None? && !s.closed && i < |s.opening.targets|
    requires m.opening == s.opening && m.stop == s.stop && m.remaining - CloseSize(cfg, m, i) == s.remaining
    requires ArmsBreakEven(cfg, m, i) ==> 0 in s.completed && !HasAction(log, BreakEvenArmed)
    ensures Opened(after) && Legal(cfg, after) && Plays(cfg, log, BreakEvenEvents(cfg, m, t, i), after)
    ensures Replay(after) == s.(stop := if ArmsBreakEven(cfg, m, i) then FeeBreakEven(cfg, s.opening) else s.stop)
  {
    hide Good, Exec, Legal, ApplyAll;
    var es := BreakEvenEvents(cfg, m, t, i);
    if es == [] {
      after := log;
      PlaysNothing(cfg, log);
    } else {
      LegalKeyFacts(cfg, log);
      var l1 := PlaysOne(cfg, log, es[0]);
      after := PlaysOne(cfg, l1, es[1]);
      PlaysTwo(cfg, log, es[0], l1, es[1], after);
    }
  }

  lemma ArmingClosesSomething(cfg: Config, m: State)
    requires Sane(cfg) && m.opening.targets != [] && m.opening.size > 0.0 && m.remaining >= 0.0
    requires ArmsBreakEven(cfg, m, 0)
    ensures CloseSize(cfg, m, 0) > 0.0
  {
    assert m.opening.size * (cfg.tp1ClosePct / 100.0) > 0.0;
  }

  lemma FillFacts(cfg: Config, log: seq<Event>, s: State)
    requires Legal(cfg, log) && s == Replay(log)
    ensures s.opening.targets != [] && s.opening.size > 0.0 && s.remaining >= 0.0
    ensures HasAction(log, BreakEvenArmed) ==> 0 in s.completed
  {
    LegalKeyFacts(cfg, log);
    LegalQuantityFacts(cfg, log);
  }

  /** The replayed state after the events of target i, starting from `s`. */
  function Filled(cfg: Config, m: State, s: State, i: nat): State
    requires i < |m.opening.targets|
  {
    var size := CloseSize(cfg, m, i);
    var s1 := s.(touched := s.touched + {i});
    var s2 := if size == 0.0 then s1
              else s1.(exited := s1.exited + size, remaining := s1.remaining - size, completed := s1.completed + {i});
    s2.(stop := if ArmsBreakEven(cfg, m, i) then FeeBreakEven(cfg, s.opening) else s.stop)
  }

  lemma FilledAgrees(cfg: Config, m: State, s: State, i: nat)
    requires i < |m.opening.targets| && Agrees(m, s, i)
    ensures Agrees(AfterFill(cfg, m, i), Filled(cfg, m, s, i), i + 1)
  {
    hide CloseSize, ArmsBreakEven, FeeBreakEven;
  }

  /** Touch, partial and break-even move go through, and memory and replay agree afterwards. */
  lemma FillPlays(cfg: Config, log: seq<Event>, m: State, s: State, t: Tick, i: nat) returns (after: seq<Event>)
    requires Opened(log) && Legal(cfg, log) && s == Replay(log) && Agrees(m, s, i) && Sane(cfg)
    requires i < |m.opening.targets| && i !in m.completed
    ensures Opened(after) && Legal(cfg, after) && Plays(cfg, log, FillEvents(cfg, m, t, i), after)
    ensures Replay(after) == Filled(cfg, m, s, i)
  {
    hide Plays, Good, Exec, Legal, ApplyAll, HasAction, FeeBreakEven, TouchEvents, PartialEvents, BreakEvenEvents;
    hide ValidOpening;
    FillFacts(cfg, log, s);
    var l1 := TouchPlays(cfg, log, m, s, t, i);
    var l2 := PartialPlays(cfg, l1, m, Replay(l1), t, i);
    if ArmsBreakEven(cfg, m, i) {
      ArmingClosesSomething(cfg, m);
    }
    after := BreakEvenPlays(cfg, l2, m, Replay(l2), t, i);
    PlaysThen(cfg, log, TouchEvents(m, t, i), l1, PartialEvents(cfg, m, t, i), l2);
    PlaysThen(cfg, log, TouchEvents(m, t, i) + PartialEvents(cfg, m, t, i), l2, BreakEvenEvents(cfg, m, t, i), after);
  }

  lemma ProfitLockPlays(cfg: Config, log: seq<Event>, m: State, t: Tick) returns (after: seq<Event>)
    requires Legal(cfg, log) && Agrees(m, Replay(log), |m.opening.targets|) && m.opening.fill > 0.0
    ensures Opened(after) && Legal(cfg, after) && Plays(cfg, log, ProfitLockEvents(cfg, m, t), after)
  {
    hide Good, Exec, Legal, ApplyAll, Pnl, Fee, FeeBreakEven;
    var es := ProfitLockEvents(cfg, m, t);
    if es == [] {
      after := log;
      PlaysNothing(cfg, log);
    } else {
      LegalKeyFacts(cfg, log);
      var l1 := PlaysOne(cfg, log, es[0]);
      after := PlaysOne(cfg, l1, es[1]);
      PlaysTwo(cfg, log, es[0], l1, es[1], after);
    }
  }

  lemma {:induction false} TargetsPlay(cfg: Config, log: seq<Event>, m: State, t: Tick, i: nat)
    returns (after: seq<Event>)
    requires Opened(log) && Legal(cfg, log) && Agrees(m, Replay(log), i) && Sane(cfg)
    requires i <= |m.opening.targets| && m.opening.fill > 0.0
    ensures Opened(after) && Legal(cfg, after) && Plays(cfg, log, TargetEvents(cfg, m, t, i), after)
    decreases |m.opening.targets| - i
  {
    hide Good, Exec, Legal, ApplyAll;
    if i == |m.opening.targets| {
      after := ProfitLockPlays(cfg, log, m, t);
    } else if i in m.completed {
      if m.remaining <= EPSILON {
        after := ClosePlays(cfg, log, t.timestamp, m.opening.targets[i], TakeProfit(i + 1), 0.0);
      } else {
        after := TargetsPlay(cfg, log, m, t, i + 1);
      }
    } else if i !in m.touched && !TargetHit(m.opening, t, i) {
      after := TargetsPlay(cfg, log, m, t, i + 1);
    } else {
      var filled := AfterFill(cfg, m, i);
      var l1 := FillPlays(cfg, log, m, Replay(log), t, i);
      FilledAgrees(cfg, m, Replay(log), i);
      var rest;
      if filled.remaining <= EPSILON {
        rest := ClosePair(cfg, m.opening, t.timestamp, m.opening.targets[i], TakeProfit(i + 1), 0.0);
        after := ClosePlays(cfg, l1, t.timestamp, m.opening.targets[i], TakeProfit(i + 1), 0.0);
      } else {
        rest := TargetEvents(cfg, filled, t, i + 1);
        after := TargetsPlay(cfg, l1, filled, t, i + 1);
      }
      PlaysThen(cfg, log, FillEvents(cfg, m, t, i), l1, rest, after);
    }
  }

  /** One market update of an open trade: every attempt is admissible or a repeat. */
  lemma ProgramPlays(cfg: Config, log: seq<Event>, t: Tick) returns (after: seq<Event>)
    requires Legal(cfg, log) && !Replay(log).closed && Replay(log).opening.fill > 0.0 && Sane(cfg)
    ensures Opened(after) && Legal(cfg, after) && Plays(cfg, log, Program(cfg, Replay(log), t), after)
  {
    var s := Replay(log);
    LegalQuantityFacts(cfg, log);
    match s.pending
    case Some(p) =>
      after := ClosePlays(cfg, log, p.timestamp, p.price, p.reason, p.remaining);
    case None =>
      var l1 := ObservationsPlay(cfg, log, s, t);
      var m := Observed(s, t);
      if StopHit(s, t) {
        after := StopPlays(cfg, l1, m, t);
        PlaysThen(cfg, log, Observations(s, t), l1, StopEvents(cfg, m, t), after);
      } else {
        after := TargetsPlay(cfg, l1, m, t, 0);
        PlaysThen(cfg, log, Observations(s, t), l1, TargetEvents(cfg, m, t, 0), after);
      }
  }
}
