/**
 Freedom from conflicts, from the persisted keys alone.  Which lifecycle keys are in the
 log can be read off the replayed flags; quantities do not enter, so this holds for
 every setting under which TP1 closes something.
 */
module PaperKeys {
  import opened Wrappers
  import opened PaperEvents
  import opened PaperLifecycle
  import opened PaperProtocol
  import opened PaperCrashes
  import opened PaperGuarantees
  import opened PaperReplay
  import opened PaperRecovery

  /** What the replayed flags say about the persisted keys. */
  ghost predicate KeysKept(log: seq<Event>, s: State) {
    && (forall i: nat :: HasAction(log, Touch(i + 1)) ==> i in s.touched)
    && (forall i: nat :: HasAction(log, Partial(i + 1)) ==> i in s.completed)
    && (HasAction(log, SlTouched) ==> s.pending.Some?)
    && (HasAction(log, TerminalClose) ==> s.closed)
    && (HasAction(log, BreakEvenArmed) || HasAction(log, StopMove(Tp1FeeBreakEven)) ==> 0 in s.completed)
    && (HasAction(log, ProfitLockArmed) || HasAction(log, StopMove(ProfitLockFeeBreakEven)) ==> s.profitLock)
    && (forall r :: HasAction(log, ExitTo(r)) ==> ExitIs(log, s, r))
  }

  ghost predicate ExitIs(log: seq<Event>, s: State, r: ExitReason) {
    && s.pending.Some? && s.pending.value.reason == r
    && exists e | e in log :: e.body == ExitReasonTransition(r, s.pending.value.price)
  }

  ghost predicate Keyed(log: seq<Event>) {
    Opened(log) && KeysKept(log, Replay(log))
  }

  /** Whether the flags that an event relies on are set before it. */
  predicate InTurn(s: State, e: Event) {
    match e.body
    case BreakEvenActivated(_, _) => 0 in s.completed
    case StopUpdated(_, _, why) => if why.Tp1FeeBreakEven? then 0 in s.completed else s.profitLock
    case SlTouch(_, _) => s.pending.None?
    case ExitReasonTransition(to, price) =>
      s.pending.Some? ==> s.pending.value.reason == to && s.pending.value.price == price
    case _ => true
  }

  lemma KeysStep(log: seq<Event>, s: State, e: Event)
    requires KeysKept(log, s) && InTurn(s, e) && !HasAction(log, ActionOf(e))
    ensures KeysKept(log + [e], Apply(s, e))
  {
    HasActionPush(log, e);
    assert (log + [e])[|log|] == e;
    hide HasAction;
    forall r | HasAction(log + [e], ExitTo(r)) ensures ExitIs(log + [e], Apply(s, e), r) {
      if HasAction(log, ExitTo(r)) {
        assert ExitIs(log, s, r);
      }
    }
  }

  /** Every attempt repeats what is persisted, or is new and in its turn. */
  ghost predicate Orderly(log: seq<Event>, es: seq<Event>)
    requires Opened(log)
    decreases |es|
  {
    es == [] ||
    match Judge(log, es[0])
    case Appended => InTurn(Replay(log), es[0]) && Orderly(log + [es[0]], es[1..])
    case Duplicate => Orderly(log, es[1..])
    case Conflict => false
  }

  lemma {:induction false} OrderlyPrefix(log: seq<Event>, es: seq<Event>, k: nat)
    requires Keyed(log) && Orderly(log, es) && k <= |es|
    ensures !Exec(log, es[..k]).conflict && Keyed(Exec(log, es[..k]).log)
    decreases |es|
  {
    hide KeysKept;
    if k == 0 {
      assert es[..k] == [];
    } else {
      assert es[..k][0] == es[0] && es[..k][1..] == es[1..][..k - 1];
      if Judge(log, es[0]).Appended? {
        ReplayPush(log, es[0]);
        KeysStep(log, Replay(log), es[0]);
        OrderlyPrefix(log + [es[0]], es[1..], k - 1);
      } else {
        OrderlyPrefix(log, es[1..], k - 1);
      }
    }
  }

  lemma {:induction false} OrderlyConcat(log: seq<Event>, a: seq<Event>, mid: seq<Event>, b: seq<Event>)
    requires Opened(log) && Orderly(log, a) && Exec(log, a) == Executed(mid, false) && Opened(mid) && Orderly(mid, b)
    ensures Orderly(log, a + b)
    decreases |a|
  {
    if a == [] {
      assert a + b == b;
    } else {
      assert (a + b)[0] == a[0] && (a + b)[1..] == a[1..] + b;
      OrderlyConcat(if Judge(log, a[0]).Appended? then log + [a[0]] else log, a[1..], mid, b);
    }
  }

  /** The attempts are orderly and lead to the keyed log `after`. */
  ghost predicate Settles(log: seq<Event>, es: seq<Event>, after: seq<Event>) {
    Opened(log) && Orderly(log, es) && Exec(log, es) == Executed(after, false) && Keyed(after)
  }

  lemma SettlesThen(log: seq<Event>, a: seq<Event>, mid: seq<Event>, b: seq<Event>, after: seq<Event>)
    requires Settles(log, a, mid) && Settles(mid, b, after)
    ensures Settles(log, a + b, after)
  {
    hide KeysKept;
    OrderlyConcat(log, a, mid, b);
    ExecConcat(log, a, b);
  }

  lemma SettlesOne(log: seq<Event>, e: Event) returns (after: seq<Event>)
    requires Keyed(log) && !HasAction(log, ActionOf(e)) && InTurn(Replay(log), e)
    ensures after == log + [e] && Settles(log, [e], after) && Replay(after) == Apply(Replay(log), e)
  {
    after := log + [e];
    ReplayPush(log, e);
    KeysStep(log, Replay(log), e);
    hide KeysKept, HasAction;
    assert [e][1..] == [];
    assert Exec(after, []) == Executed(after, false) && Orderly(after, []);
  }

  lemma SettlesRepeat(log: seq<Event>, e: Event)
    requires Keyed(log) && Repeats(log, e)
    ensures Settles(log, [e], log)
  {
    hide KeysKept;
    assert HasAction(log, ActionOf(e));
    assert [e][1..] == [];
    assert Exec(log, []) == Executed(log, false) && Orderly(log, []);
  }

  lemma SettlesNothing(log: seq<Event>)
    requires Keyed(log)
    ensures Settles(log, [], log)
  {
  }

  // ----- the parts of an update -----

  lemma {:induction false} ObservationsSettle(log: seq<Event>, es: seq<Event>) returns (after: seq<Event>)
    requires Keyed(log) && forall e | e in es :: ActionOf(e) == Observation(e)
    ensures Settles(log, es, after) && SameTrade(Replay(log), Replay(after), true)
    decreases |es|
  {
    hide KeysKept, ApplyAll, HasAction, Exec, Orderly;
    if es == [] {
      after := log;
      SettlesNothing(log);
    } else {
      var e := es[0];
      assert es == [e] + es[1..];
      var mid;
      if HasAction(log, ActionOf(e)) {
        ObservedAgain(log, e);
        mid := log;
        SettlesRepeat(log, e);
      } else {
        mid := SettlesOne(log, e);
        HarmlessApply(Replay(log), e);
      }
      after := ObservationsSettle(mid, es[1..]);
      SettlesThen(log, [e], mid, es[1..], after);
    }
  }

  lemma ObservedAgain(log: seq<Event>, e: Event)
    requires ActionOf(e) == Observation(e) && HasAction(log, ActionOf(e))
    ensures Repeats(log, e)
  {
    var r :| r in log && ActionOf(r) == ActionOf(e);
    assert r == e;
  }

  lemma CloseSettles(cfg: Config, log: seq<Event>, timestamp: int, price: real, reason: ExitReason, size: real)
    returns (after: seq<Event>)
    requires Keyed(log) && !Replay(log).closed
    requires Replay(log).pending.Some? ==>
      Replay(log).pending.value.reason == reason && Replay(log).pending.value.price == price
    ensures Settles(log, ClosePair(cfg, Replay(log).opening, timestamp, price, reason, size), after)
  {
    hide ApplyAll, HasAction, Exec, Orderly, Pnl, Fee;
    var pair := ClosePair(cfg, Replay(log).opening, timestamp, price, reason, size);
    var mid;
    if HasAction(log, ExitTo(reason)) {
      assert ExitIs(log, Replay(log), reason);
      mid := log;
      SettlesRepeat(log, pair[0]);
    } else {
      mid := SettlesOne(log, pair[0]);
    }
    after := SettlesOne(mid, pair[1]);
    SettlesThen(log, [pair[0]], mid, [pair[1]], after);
    assert [pair[0]] + [pair[1]] == pair;
  }

  /** Memory and replay agree on the flags that decide about keys, from target i on. */
  ghost predicate SameFlags(m: State, s: State, i: nat) {
    && m.opening == s.opening && m.touched == s.touched && m.profitLock == s.profitLock
    && s.pending.None? && !s.closed && (forall j: nat | j >= i :: j in m.completed <==> j in s.completed)
  }

  lemma ArmingCloses(cfg: Config, m: State)
    requires cfg.tp1ClosePct > 0.0 && m.opening.targets != [] && m.opening.size > 0.0 && ArmsBreakEven(cfg, m, 0)
    ensures CloseSize(cfg, m, 0) > 0.0
  {
    assert m.opening.size * (cfg.tp1ClosePct / 100.0) > 0.0;
  }

  lemma PairSettles(log: seq<Event>, a: Event, b: Event) returns (after: seq<Event>)
    requires Keyed(log) && !HasAction(log, ActionOf(a)) && !HasAction(log, ActionOf(b)) && ActionOf(a) != ActionOf(b)
    requires InTurn(Replay(log), a) && InTurn(Apply(Replay(log), a), b)
    ensures Settles(log, [a, b], after) && Replay(after) == Apply(Apply(Replay(log), a), b)
  {
    hide KeysKept, ApplyAll, HasAction, Exec, Orderly;
    var mid := SettlesOne(log, a);
    HasActionPush(log, a);
    after := SettlesOne(mid, b);
    SettlesThen(log, [a], mid, [b], after);
    assert [a] + [b] == [a, b];
  }

  lemma TouchSettles(log: seq<Event>, m: State, s: State, t: Tick, i: nat) returns (after: seq<Event>)
    requires Keyed(log) && s == Replay(log) && SameFlags(m, s, i) && i < |m.opening.targets|
    ensures Settles(log, TouchEvents(m, t, i), after) && Adds(log, after, Touch(i + 1))
    ensures Replay(after) == s.(touched := s.touched + {i})
  {
    hide ApplyAll, Exec, Orderly, HasAction;
    if i in m.touched {
      after := log;
      SettlesNothing(log);
      assert s.touched + {i} == s.touched;
    } else {
      after := SettlesOne(log, TouchEvents(m, t, i)[0]);
      HasActionPush(log, TouchEvents(m, t, i)[0]);
    }
  }

  lemma PartialSettles(cfg: Config, log: seq<Event>, m: State, s: State, t: Tick, i: nat) returns (after: seq<Event>)
    requires Keyed(log) && s == Replay(log) && i < |m.opening.targets| && i !in s.completed
    ensures Settles(log, PartialEvents(cfg, m, t, i), after) && Adds(log, after, Partial(i + 1))
    ensures var r := Replay(after);
            r == s.(exited := r.exited, remaining := r.remaining,
              completed := if CloseSize(cfg, m, i) <= 0.0 then s.completed else s.completed + {i})
  {
    hide ApplyAll, Exec, Orderly, HasAction, CloseSize, Pnl, Fee;
    if CloseSize(cfg, m, i) <= 0.0 {
      after := log;
      SettlesNothing(log);
    } else {
      after := SettlesOne(log, PartialEvents(cfg, m, t, i)[0]);
      HasActionPush(log, PartialEvents(cfg, m, t, i)[0]);
    }
  }

  lemma BreakEvenSettles(cfg: Config, log: seq<Event>, m: State, s: State, t: Tick, i: nat) returns (after: seq<Event>)
    requires Keyed(log) && s == Replay(log) && i < |m.opening.targets|
    requires ArmsBreakEven(cfg, m, i) ==>
      0 in s.completed && !HasAction(log, BreakEvenArmed) && !HasAction(log, StopMove(Tp1FeeBreakEven))
    ensures Settles(log, BreakEvenEvents(cfg, m, t, i), after)
    ensures Replay(after) == s.(stop := Replay(after).stop)
  {
    hide ApplyAll, Exec, Orderly, HasAction, CloseSize, FeeBreakEven, KeysKept;
    var be := BreakEvenEvents(cfg, m, t, i);
    if be == [] {
      after := log;
      SettlesNothing(log);
    } else {
      after := PairSettles(log, be[0], be[1]);
    }
  }

  lemma FillSettles(cfg: Config, log: seq<Event>, m: State, t: Tick, i: nat) returns (after: seq<Event>)
    requires Keyed(log) && SameFlags(m, Replay(log), i) && i < |m.opening.targets| && i !in m.completed
    requires cfg.tp1ClosePct > 0.0 && m.opening.size > 0.0
    ensures Settles(log, FillEvents(cfg, m, t, i), after)
    ensures SameFlags(AfterFill(cfg, m, i), Replay(after), i + 1)
  {
    hide ApplyAll, Exec, Orderly, FeeBreakEven, CloseSize, HasAction, Settles, TouchEvents, PartialEvents,
      BreakEvenEvents;
    if ArmsBreakEven(cfg, m, i) {
      ArmingCloses(cfg, m);
    }
    var l1 := TouchSettles(log, m, Replay(log), t, i);
    SettledIsKeyed(log, TouchEvents(m, t, i), l1);
    var l2 := PartialSettles(cfg, l1, m, Replay(l1), t, i);
    SettledIsKeyed(l1, PartialEvents(cfg, m, t, i), l2);
    after := BreakEvenSettles(cfg, l2, m, Replay(l2), t, i);
    SettledIsKeyed(l2, BreakEvenEvents(cfg, m, t, i), after);
    SettlesThen(log, TouchEvents(m, t, i), l1, PartialEvents(cfg, m, t, i), l2);
    SettlesThen(log, TouchEvents(m, t, i) + PartialEvents(cfg, m, t, i), l2, BreakEvenEvents(cfg, m, t, i), after);
  }

  lemma SettledIsKeyed(log: seq<Event>, es: seq<Event>, after: seq<Event>)
    requires Settles(log, es, after)
    ensures Keyed(after)
  {
  }

  lemma LockSettles(cfg: Config, log: seq<Event>, m: State, t: Tick) returns (after: seq<Event>)
    requires Keyed(log) && SameFlags(m, Replay(log), |m.opening.targets|) && m.opening.fill > 0.0
    ensures Settles(log, ProfitLockEvents(cfg, m, t), after)
  {
    hide ApplyAll, Exec, Orderly, FeeBreakEven, HasAction;
    var es := ProfitLockEvents(cfg, m, t);
    if es == [] {
      after := log;
      SettlesNothing(log);
    } else {
      after := PairSettles(log, es[0], es[1]);
    }
  }

  lemma {:induction false} TargetsSettle(cfg: Config, log: seq<Event>, m: State, t: Tick, i: nat)
    returns (after: seq<Event>)
    requires Keyed(log) && SameFlags(m, Replay(log), i) && i <= |m.opening.targets| && m.opening.fill > 0.0
    requires cfg.tp1ClosePct > 0.0 && m.opening.size > 0.0
    ensures Settles(log, TargetEvents(cfg, m, t, i), after)
    decreases |m.opening.targets| - i
  {
    hide ApplyAll, Exec, Orderly, KeysKept, FeeBreakEven, Pnl, Fee, TargetHit, FillEvents, ClosePair;
    if i == |m.opening.targets| {
      after := LockSettles(cfg, log, m, t);
    } else if i in m.completed {
      if m.remaining <= EPSILON {
        after := CloseSettles(cfg, log, t.timestamp, m.opening.targets[i], TakeProfit(i + 1), 0.0);
      } else {
        after := TargetsSettle(cfg, log, m, t, i + 1);
      }
    } else if i !in m.touched && !TargetHit(m.opening, t, i) {
      after := TargetsSettle(cfg, log, m, t, i + 1);
    } else {
      var filled := AfterFill(cfg, m, i);
      var l1 := FillSettles(cfg, log, m, t, i);
      if filled.remaining <= EPSILON {
        after := CloseSettles(cfg, l1, t.timestamp, m.opening.targets[i], TakeProfit(i + 1), 0.0);
      } else {
        after := TargetsSettle(cfg, l1, filled, t, i + 1);
      }
      SettlesThen(log, FillEvents(cfg, m, t, i), l1, AfterFillEvents(cfg, m, t, i), after);
      FillComesNext(cfg, m, t, i);
    }
  }

  lemma StopSettles(cfg: Config, log: seq<Event>, m: State, t: Tick) returns (after: seq<Event>)
    requires Keyed(log) && m.opening == Replay(log).opening && Replay(log).pending.None? && !Replay(log).closed
    ensures Settles(log, StopEvents(cfg, m, t), after)
  {
    hide ApplyAll, Exec, Orderly, HasAction, ClosePair;
    var touch := Event(t.timestamp, SlTouch(m.stop, t.mark));
    var l1 := SettlesOne(log, touch);
    after := CloseSettles(cfg, l1, t.timestamp, m.stop, StopLoss, m.remaining);
    SettlesThen(log, [touch], l1, ClosePair(cfg, m.opening, t.timestamp, m.stop, StopLoss, m.remaining), after);
  }

  lemma ProgramSettles(cfg: Config, log: seq<Event>, t: Tick) returns (after: seq<Event>)
    requires Keyed(log) && !Replay(log).closed && Replay(log).opening.fill > 0.0 && Replay(log).opening.size > 0.0
    requires cfg.tp1ClosePct > 0.0
    ensures Settles(log, Program(cfg, Replay(log), t), after)
  {
    hide ApplyAll, Exec, Orderly, KeysKept, TargetEvents, StopHit, ClosePair, ExcursionPct;
    var s := Replay(log);
    match s.pending
    case Some(p) =>
      after := CloseSettles(cfg, log, p.timestamp, p.price, p.reason, p.remaining);
    case None =>
      var l1 := ObservationsSettle(log, Observations(s, t));
      var m := Observed(s, t);
      if StopHit(s, t) {
        after := StopSettles(cfg, l1, m, t);
        SettlesThen(log, Observations(s, t), l1, StopEvents(cfg, m, t), after);
      } else {
        after := TargetsSettle(cfg, l1, m, t, 0);
        SettlesThen(log, Observations(s, t), l1, TargetEvents(cfg, m, t, 0), after);
      }
  }

  /** No run of updates and crashes ever meets a conflict when TP1 closes something. */
  lemma {:induction false} RunNeverConflicts(cfg: Config, log: seq<Event>, steps: seq<Step>)
    requires Keyed(log) && Started(log) && log[0].body.opening.size > 0.0 && cfg.tp1ClosePct > 0.0
    ensures !RunTrade(cfg, log, steps).conflict
    decreases |steps|
  {
    hide KeysKept, ApplyAll, Exec, Program;
    if steps != [] {
      var s, step := Replay(log), steps[0];
      ApplyKeepsOpening(Initial(log[0].body.opening), log);
      if !s.closed {
        var program := Program(cfg, s, step.tick);
        var after := ProgramSettles(cfg, log, step.tick);
        OrderlyPrefix(log, program, |Take(program, step.appends)|);
        assert program[..|program|] == program;
      }
      RunNeverConflicts(cfg, Advance(cfg, log, step).log, steps[1..]);
    }
  }

  lemma OpeningIsKeyed(timestamp: int, o: Opening)
    ensures Keyed(OpenLog(timestamp, o))
  {
    ReplayOpening(OpenLog(timestamp, o));
  }
}
