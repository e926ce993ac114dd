/**
 The protocol every trade log obeys.  `Admissible` says which event may come next in
 a replayed state; `Legal` logs are built from admissible events with fresh actions.
 The facts proved here about legal logs hold at every crash point.
 */
module PaperProtocol {
  import opened Wrappers
  import opened Reals
  import opened PaperEvents
  import opened PaperLifecycle

  /** What a trade must look like when it opens. */
  predicate ValidOpening(o: Opening) {
    && o.fill > 0.0 && o.size > 0.0
    && o.targets != [] && (forall i | 0 <= i < |o.targets| :: o.targets[i] > 0.0)
    && o.riskPrice == Abs(o.fill - o.stop) && o.riskPrice > 0.0
    && o.riskCurrency == o.riskPrice * o.size
  }

  predicate PricedExit(cfg: Config, o: Opening, price: real, size: real, gross: real, fee: real) {
    gross == Pnl(o, price, size) && fee == Fee(cfg, price, size)
  }

  /** A target takes its share of the opened size, the last one all that remains; nothing takes more than remains. */
  predicate TakesShare(cfg: Config, o: Opening, remaining: real, level: nat, size: real) {
    var pct := if level == 1 then cfg.tp1ClosePct else if level == 2 then cfg.tp2ClosePct else 100.0;
    var share := o.size * pct / 100.0;
    && size <= remaining
    && if level == |o.targets| then size == remaining
       else size <= share && (size == remaining || size == share)
  }

  /** Whether `e` may follow `log`, whose replayed state is `s`. */
  ghost predicate Admissible(cfg: Config, log: seq<Event>, s: State, e: Event) {
    var o := s.opening;
    && !s.closed
    && match e.body
       case MarkDecision(_, _, _, _, _) => s.pending.None?
       case MfeUpdate(_, pct) => s.pending.None? && pct > s.mfe
       case MaeUpdate(_, pct) => s.pending.None? && pct < s.mae
       case TpTouch(level, price, _) =>
         s.pending.None? && 1 <= level <= |o.targets| && price == o.targets[level - 1]
       case PartialExit(price, size, gross, fee, reason, level) =>
         && s.pending.None? && 1 <= level <= |o.targets| && price == o.targets[level - 1]
         && level - 1 in s.touched && reason == TakeProfit(level)
         && 0.0 < size && TakesShare(cfg, o, s.remaining, level, size) && PricedExit(cfg, o, price, size, gross, fee)
       case BreakEvenActivated(stop, _) =>
         s.pending.None? && 0 in s.completed && s.remaining > 0.0 && stop == FeeBreakEven(cfg, o)
       case ProfitLockActivated(stop, _) =>
         s.pending.None? && s.touched == {} && stop == FeeBreakEven(cfg, o)
       case StopUpdated(oldStop, newStop, why) =>
         && s.pending.None? && oldStop == s.stop && newStop == FeeBreakEven(cfg, o)
         && (if why.Tp1FeeBreakEven? then HasAction(log, BreakEvenArmed) else s.touched == {} && s.profitLock)
       case SlTouch(price, _) => s.pending.None? && price == s.stop
       case ExitReasonTransition(to, price) =>
         (match s.pending
          case Some(p) => to == p.reason && price == p.price && e.timestamp == p.timestamp
          case None => to.TakeProfit? && 1 <= to.level <= |o.targets| && price == o.targets[to.level - 1]
                       && s.remaining <= EPSILON)
       case TradeClosed(price, size, gross, fee, reason) =>
         && s.pending.Some? && HasAction(log, ExitTo(reason))
         && reason == s.pending.value.reason && price == s.pending.value.price
         && e.timestamp == s.pending.value.timestamp
         && (size == s.remaining || (reason.TakeProfit? && size == 0.0))
         && PricedExit(cfg, o, price, size, gross, fee)
       case _ => false
  }

  ghost predicate Legal(cfg: Config, log: seq<Event>) {
    && Opened(log)
    && if |log| == 1 then ValidOpening(log[0].body.opening)
       else
         var before, e := log[..|log| - 1], log[|log| - 1];
         Legal(cfg, before) && !HasAction(before, ActionOf(e)) && Admissible(cfg, before, Replay(before), e)
  }

  lemma HasActionPush(log: seq<Event>, e: Event)
    ensures forall a :: HasAction(log + [e], a) <==> HasAction(log, a) || ActionOf(e) == a
  {
    assert (log + [e])[|log|] == e;
    forall a | HasAction(log, a) ensures HasAction(log + [e], a) {
      var r :| r in log && ActionOf(r) == a;
      assert r in log + [e];
    }
  }

  lemma LegalPush(cfg: Config, log: seq<Event>, e: Event)
    requires Legal(cfg, log) && !HasAction(log, ActionOf(e)) && Admissible(cfg, log, Replay(log), e)
    ensures Legal(cfg, log + [e])
  {
    assert (log + [e])[..|log|] == log;
  }

  lemma LegalPop(cfg: Config, log: seq<Event>) returns (before: seq<Event>, e: Event)
    requires Legal(cfg, log) && |log| > 1
    ensures log == before + [e] && before == log[..|log| - 1] && Legal(cfg, before)
    ensures !HasAction(before, ActionOf(e)) && Admissible(cfg, before, Replay(before), e)
    ensures Replay(log) == Apply(Replay(before), e)
  {
    before, e := log[..|log| - 1], log[|log| - 1];
    ReplayPush(before, e);
  }

  lemma LegalPrefix(cfg: Config, log: seq<Event>, n: nat)
    requires Legal(cfg, log) && 1 <= n <= |log|
    ensures Legal(cfg, log[..n])
  {
    if n < |log| {
      LegalPrefix(cfg, log[..|log| - 1], n);
      assert log[..|log| - 1][..n] == log[..n];
    } else {
      assert log[..n] == log;
    }
  }

  lemma ReplayOpening(log: seq<Event>)
    requires Opened(log) && |log| == 1
    ensures log == [log[0]] && Replay(log) == Initial(log[0].body.opening)
  {
    assert log[..|log| - 1] == [];
    assert ApplyAll(Initial(log[0].body.opening), []) == Initial(log[0].body.opening);
  }

  lemma HasActionAt(log: seq<Event>, i: nat)
    requires i < |log|
    ensures HasAction(log, ActionOf(log[i]))
  {
  }

  // ----- the replayed flags tell exactly which actions are persisted -----

  ghost predicate KeyFacts(log: seq<Event>, s: State) {
    && HasAction(log, Open)
    && (forall i: nat :: HasAction(log, Touch(i + 1)) <==> i in s.touched)
    && (forall i: nat :: HasAction(log, Partial(i + 1)) <==> i in s.completed)
    && (HasAction(log, SlTouched) ==> s.pending.Some?)
    && (HasAction(log, TerminalClose) <==> s.closed)
    && (HasAction(log, BreakEvenArmed) ==> 0 in s.completed)
    && (HasAction(log, StopMove(Tp1FeeBreakEven)) ==> HasAction(log, BreakEvenArmed))
    && (HasAction(log, ProfitLockArmed) <==> s.profitLock)
    && (HasAction(log, StopMove(ProfitLockFeeBreakEven)) ==> s.profitLock)
    && s.completed <= s.touched
    && (forall i | i in s.touched :: i < |s.opening.targets|)
  }

  lemma KeyStep(cfg: Config, log: seq<Event>, s: State, e: Event)
    requires KeyFacts(log, s) && Admissible(cfg, log, s, e)
    ensures KeyFacts(log + [e], Apply(s, e))
  {
    HasActionPush(log, e);
    hide HasAction, FeeBreakEven, PricedExit;
  }

  lemma {:induction false} LegalKeyFacts(cfg: Config, log: seq<Event>)
    requires Legal(cfg, log)
    ensures KeyFacts(log, Replay(log)) && Replay(log).opening == log[0].body.opening
    ensures ValidOpening(log[0].body.opening)
  {
    if |log| == 1 {
      ReplayOpening(log);
      HasActionAt(log, 0);
    } else {
      var before, e := LegalPop(cfg, log);
      LegalKeyFacts(cfg, before);
      KeyStep(cfg, before, Replay(before), e);
    }
  }

  // ----- a persisted exit intent is the pending terminal state, word for word -----

  ghost predicate IntentFacts(log: seq<Event>, s: State) {
    && (forall r :: HasAction(log, ExitTo(r)) ==>
          && s.pending.Some? && s.pending.value.reason == r
          && Event(s.pending.value.timestamp, ExitReasonTransition(r, s.pending.value.price)) in log)
    && (s.pending.Some? ==>
          match s.pending.value.reason
          case StopLoss => s.pending.value.price == s.stop && HasAction(log, SlTouched)
          case TakeProfit(level) =>
            && 1 <= level <= |s.opening.targets| && s.pending.value.price == s.opening.targets[level - 1]
            && HasAction(log, ExitTo(TakeProfit(level))) && !HasAction(log, SlTouched))
  }

  lemma IntentStep(cfg: Config, log: seq<Event>, s: State, e: Event)
    requires KeyFacts(log, s) && IntentFacts(log, s) && Admissible(cfg, log, s, e)
    ensures IntentFacts(log + [e], Apply(s, e))
  {
    HasActionPush(log, e);
    assert (log + [e])[|log|] == e;
    hide HasAction, FeeBreakEven, PricedExit;
  }

  lemma {:induction false} LegalIntentFacts(cfg: Config, log: seq<Event>)
    requires Legal(cfg, log)
    ensures IntentFacts(log, Replay(log))
  {
    if |log| == 1 {
      ReplayOpening(log);
    } else {
      var before, e := LegalPop(cfg, log);
      LegalIntentFacts(cfg, before);
      LegalKeyFacts(cfg, before);
      IntentStep(cfg, before, Replay(before), e);
    }
  }

  // ----- quantity conservation -----

  ghost predicate QuantityFacts(s: State) {
    && 0.0 <= s.remaining
    && (!s.closed ==> s.opening.size == s.exited + s.remaining)
    && (s.closed ==> s.remaining == 0.0 && 0.0 <= s.opening.size - s.exited <= EPSILON)
    && (!s.closed && s.pending.Some? ==>
          s.pending.value.remaining == s.remaining && (s.pending.value.reason.TakeProfit? ==> s.remaining <= EPSILON))
  }

  lemma QuantityStep(cfg: Config, log: seq<Event>, s: State, e: Event)
    requires QuantityFacts(s) && Admissible(cfg, log, s, e)
    ensures QuantityFacts(Apply(s, e))
  {
  }

  lemma {:induction false} LegalQuantityFacts(cfg: Config, log: seq<Event>)
    requires Legal(cfg, log)
    ensures QuantityFacts(Replay(log))
  {
    if |log| == 1 {
      ReplayOpening(log);
    } else {
      var before, e := LegalPop(cfg, log);
      LegalQuantityFacts(cfg, before);
      QuantityStep(cfg, before, Replay(before), e);
    }
  }

  // ----- the stop -----

  /** The stop is the initial one, or the fee break-even once a stop update is persisted. */
  ghost predicate StopFacts(cfg: Config, log: seq<Event>, s: State) {
    if HasAction(log, StopMove(Tp1FeeBreakEven)) || HasAction(log, StopMove(ProfitLockFeeBreakEven))
    then s.stop == FeeBreakEven(cfg, s.opening)
    else s.stop == s.opening.stop
  }

  lemma StopStep(cfg: Config, log: seq<Event>, s: State, e: Event)
    requires StopFacts(cfg, log, s) && Admissible(cfg, log, s, e)
    ensures StopFacts(cfg, log + [e], Apply(s, e))
  {
    HasActionPush(log, e);
    hide HasAction, FeeBreakEven, PricedExit;
  }

  lemma {:induction false} LegalStopFacts(cfg: Config, log: seq<Event>)
    requires Legal(cfg, log)
    ensures StopFacts(cfg, log, Replay(log))
  {
    if |log| == 1 {
      ReplayOpening(log);
    } else {
      var before, e := LegalPop(cfg, log);
      LegalStopFacts(cfg, before);
      StopStep(cfg, before, Replay(before), e);
    }
  }

  lemma OpenBeforeLast(cfg: Config, log: seq<Event>)
    requires Legal(cfg, log) && |log| > 1
    ensures Legal(cfg, log[..|log| - 1]) && !HasAction(log[..|log| - 1], TerminalClose)
  {
    var before, e := LegalPop(cfg, log);
    LegalKeyFacts(cfg, before);
  }

  /** TRADE_CLOSED is the last event of its trade. */
  lemma {:induction false} ClosedIsLast(cfg: Config, log: seq<Event>, i: nat)
    requires Legal(cfg, log) && i < |log| && log[i].body.TradeClosed?
    ensures i == |log| - 1
  {
    hide Admissible, Apply, HasAction, Pnl, Fee, FeeBreakEven, ApplyAll;
    if i < |log| - 1 {
      OpenBeforeLast(cfg, log);
      HasActionAt(log[..|log| - 1], i);
    }
  }
}
