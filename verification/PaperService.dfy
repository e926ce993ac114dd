/**
 The forward-paper service as it runs: a mutable in-memory trade, one store append
 after another, and a process that may die before any append.  `life` is the number
 of appends the process still lives to make; a conflict raises and ends the call.
 */
module PaperService {
  import opened Wrappers
  import opened PaperEvents
  import opened PaperStore
  import opened PaperLifecycle
  import opened PaperProtocol
  import opened PaperCrashes
  import opened PaperGuarantees
  import opened PaperReplay
  import opened PaperBook
  import opened PaperWorld
  import opened PaperPlanning
  import opened PaperStates

  /** The state dictionary of one update: what was reconstructed, and what the update changes in it. */
  class LiveTrade {
    const id: TradeId
    const rebuilt: State
    var stop: real
    var remaining: real
    var touched: set<nat>
    var mfe: real
    var mae: real

    constructor (id: TradeId, rebuilt: State)
      ensures this.id == id && Memory() == rebuilt
    {
      this.id, this.rebuilt := id, rebuilt;
      stop, remaining, touched, mfe, mae := rebuilt.stop, rebuilt.remaining, rebuilt.touched, rebuilt.mfe, rebuilt.mae;
    }

    function Memory(): State
      reads this
    {
      rebuilt.(stop := stop, remaining := remaining, touched := touched, mfe := mfe, mae := mae)
    }
  }

  /** The book after the trade's attempts `es` went to the store, starting from `start`. */
  ghost function Emitted(start: seq<Entry>, id: TradeId, es: seq<Event>): seq<Entry>
    requires id.PaperTrade?
  {
    var events := ByTrade(start, id);
    ExecExtends(events, es);
    start + Lift(id, Exec(events, es).log[|events|..])
  }

  ghost predicate Conflicts(start: seq<Entry>, id: TradeId, es: seq<Event>) {
    Exec(ByTrade(start, id), es).conflict
  }

  predicate ProperId(id: TradeId) {
    id.PaperTrade? && id.candidateId != "" && id.planId != ""
  }

  function EntryFor(id: TradeId, e: Event): Entry
    requires id.PaperTrade?
  {
    Entry(id.candidateId, id, id.planId, e)
  }

  lemma EmittedEvents(start: seq<Entry>, id: TradeId, es: seq<Event>)
    requires id.PaperTrade?
    ensures ByTrade(Emitted(start, id, es), id) == Exec(ByTrade(start, id), es).log
  {
    hide Exec, ByTrade;
    var events := ByTrade(start, id);
    var mid := Exec(events, es).log;
    ExecExtends(events, es);
    ByTradeLift(start, id, mid[|events|..], id);
    assert events + mid[|events|..] == mid;
  }

  lemma ExecPush(events: seq<Event>, es: seq<Event>, e: Event)
    requires !Exec(events, es).conflict
    ensures var mid := Exec(events, es).log;
            Exec(events, es + [e]) == match Judge(mid, e)
                                      case Appended => Executed(mid + [e], false)
                                      case Duplicate => Executed(mid, false)
                                      case Conflict => Executed(mid, true)
  {
    hide Judge;
    ExecConcat(events, es, [e]);
    assert [e][1..] == [];
    assert forall log: seq<Event> :: Exec(log, []) == Executed(log, false);
  }

  /** One more attempt of the trade is one more submission to the store. */
  lemma EmittedPush(start: seq<Entry>, id: TradeId, es: seq<Event>, e: Event)
    requires ProperId(id) && !Conflicts(start, id, es) && !e.body.TradeOpened?
    ensures var book := Emitted(start, id, es);
            && (Conflicts(start, id, es + [e]) <==> Submit(book, EntryFor(id, e)) == ConflictingRetry)
            && Submit(book, EntryFor(id, e)) in {Written, Ignored, ConflictingRetry}
            && (!Conflicts(start, id, es + [e]) ==> Emitted(start, id, es + [e]) == SubmitTo(book, EntryFor(id, e)))
  {
    hide Judge, Exec, ByTrade;
    var events := ByTrade(start, id);
    var mid := Exec(events, es).log;
    ExecExtends(events, es);
    EmittedEvents(start, id, es);
    ExecPush(events, es, e);
    if Judge(mid, e).Appended? {
      assert (mid + [e])[|events|..] == mid[|events|..] + [e];
      assert Lift(id, mid[|events|..] + [e]) == Lift(id, mid[|events|..]) + [EntryFor(id, e)];
    }
  }

  lemma ConflictsExtend(start: seq<Entry>, id: TradeId, es: seq<Event>, more: seq<Event>)
    requires Conflicts(start, id, es)
    ensures Conflicts(start, id, es + more)
  {
    ExecConcat(ByTrade(start, id), es, more);
  }

  // ----- what a scan that is not cut short computes -----

  /** The events of a trade after a market update that reached it. */
  ghost function AfterTick(cfg: Config, book: seq<Entry>, id: TradeId, snapshots: map<string, Snapshot>): seq<Event> {
    var events := ByTrade(book, id);
    if IsOpen(book, id) && SymbolOf(book, id) in snapshots && Replay(events).opening.fill > 0.0
    then Exec(events, Program(cfg, Replay(events), TickOf(snapshots[SymbolOf(book, id)]))).log
    else events
  }

  /** Every open trade with a snapshot got its whole update, and no other trade changed. */
  ghost predicate MarketApplied(cfg: Config, book: seq<Entry>, snapshots: map<string, Snapshot>, after: seq<Entry>) {
    forall id ::
      ByTrade(after, id) == if IsOpen(book, id) then AfterTick(cfg, book, id, snapshots) else ByTrade(book, id)
  }

  function PlanEntry(cfg: Config, plan: Plan, snap: Snapshot): Entry {
    if CriticalMissing(cfg, plan, snap)
    then RefuseEntry(plan.candidateId, plan.planId, snap.timestamp, MissingCause(cfg, plan, snap), plan.symbol,
      plan.strategy)
    else AdmitEntry(PaperTrade(plan.candidateId, plan.planId), snap.timestamp, PlannedOpening(cfg, plan, snap))
  }

  ghost function PlanEffect(cfg: Config, book: seq<Entry>, plan: Plan, snapshots: map<string, Snapshot>,
      now: int): seq<Entry> {
    if !plan.executable || plan.symbol in OpenSymbols(book) then book
    else if plan.symbol !in snapshots
    then SubmitTo(book,
      RefuseEntry(plan.candidateId, plan.planId, now, "missing_market_snapshot", plan.symbol, plan.strategy))
    else SubmitTo(book, PlanEntry(cfg, plan, snapshots[plan.symbol]))
  }

  /** Plans in order, each judged against the open trades of the book it finds, until the cap is reached. */
  ghost function AdmitPlans(cfg: Config, book: seq<Entry>, plans: seq<Plan>, snapshots: map<string, Snapshot>,
      now: int): seq<Entry>
    decreases |plans|
  {
    if plans == [] || |OpenIds(book)| >= Cap(cfg) then book
    else AdmitPlans(cfg, PlanEffect(cfg, book, plans[0], snapshots, now), plans[1..], snapshots, now)
  }

  ghost predicate LastFor(snapshots: seq<Snapshot>, symbol: string, i: nat, snap: Snapshot) {
    && i < |snapshots| && snapshots[i] == snap && snap.symbol == symbol
    && forall j | i < j < |snapshots| :: snapshots[j].symbol != symbol
  }

  /** For each symbol the last of its snapshots. */
  ghost predicate LatestSnapshots(snapshots: seq<Snapshot>, latest: map<string, Snapshot>) {
    && (forall i | 0 <= i < |snapshots| :: snapshots[i].symbol in latest)
    && (forall symbol | symbol in latest :: exists i :: LastFor(snapshots, symbol, i, latest[symbol]))
  }

  class ForwardPaperService {
    const cfg: Config
    const store: EventStore
    var life: nat

    constructor (cfg: Config, store: EventStore, life: nat)
      ensures this.cfg == cfg && this.store == store && this.life == life
    {
      this.cfg, this.store, this.life := cfg, store, life;
    }

    ghost predicate Valid()
      reads this, store
    {
      Healthy(store.hash, store.lines)
    }

    ghost function Book(): seq<Entry>
      reads this, store
    {
      Entries(store.lines)
    }

    /** One append; `ok` is false when the process died before it or the store raised. */
    method AppendEvent(e: Entry) returns (ok: bool, written: bool)
      requires Valid() && !e.tradeId.NamedTrade?
      modifies this`life, store
      ensures Valid()
      ensures old(life) == 0 ==> !ok && !written && Book() == old(Book()) && life == 0
      ensures old(life) > 0 ==>
        && Book() == SubmitTo(old(Book()), e) && (ok <==> Submit(old(Book()), e) in {Written, Ignored})
        && (written <==> Submit(old(Book()), e).Written?) && life == if ok then old(life) - 1 else old(life)
    {
      hide Decide, Submit, Accepted;
      if life == 0 {
        return false, false;
      }
      DecideIsSubmit(store.lines, e);
      WriteHealthy(store.hash, store.lines, DraftOf(e));
      ghost var before := store.lines;
      var answer := store.Append(DraftOf(e));
      assert store.lines == Write(store.hash, before, DraftOf(e));
      assert answer.Written? ==> Entries(store.lines) == Entries(before) + [e];
      ok := answer.Written? || answer.Ignored?;
      written := answer.Written?;
      if ok {
        life := life - 1;
      }
    }

    /** The trade's attempts so far are `done`, and they are what changed the book since `start`. */
    ghost predicate At(start: seq<Entry>, id: TradeId, done: seq<Event>)
      reads this, store
    {
      Valid() && ProperId(id) && !Conflicts(start, id, done) && Book() == Emitted(start, id, done)
    }

    /** How a stretch of attempts `es` ends: all made, or cut short by death or by a conflict. */
    ghost predicate Ended(start: seq<Entry>, id: TradeId, before: seq<Event>, es: seq<Event>, ok: bool,
        done: seq<Event>)
      reads this, store
    {
      && At(start, id, done) && before <= done <= before + es
      && (ok ==> done == before + es)
      && (!ok ==> life == 0 || Conflicts(start, id, before + es))
    }

    method Emit(trade: LiveTrade, e: Event, ghost start: seq<Entry>, ghost before: seq<Event>)
      returns (ok: bool, ghost done: seq<Event>)
      requires At(start, trade.id, before) && !e.body.TradeOpened?
      modifies this`life, store
      ensures Ended(start, trade.id, before, [e], ok, done) && life + |done| == old(life) + |before|
    {
      hide Exec, Submit, Healthy, Entries, ByTrade;
      EmittedPush(start, trade.id, before, e);
      var written;
      ok, written := AppendEvent(EntryFor(trade.id, e));
      done := if ok then before + [e] else before;
    }

    lemma EndedEarly(start: seq<Entry>, id: TradeId, before: seq<Event>, a: seq<Event>, b: seq<Event>, done: seq<Event>)
      requires Ended(start, id, before, a, false, done)
      ensures Ended(start, id, before, a + b, false, done)
    {
      hide Exec, Healthy, Entries, ByTrade, Emitted;
      assert before + (a + b) == before + a + b;
      if Conflicts(start, id, before + a) {
        ConflictsExtend(start, id, before + a, b);
      }
    }

    lemma EndedLate(start: seq<Entry>, id: TradeId, before: seq<Event>, a: seq<Event>, b: seq<Event>, ok: bool,
        done: seq<Event>)
      requires Ended(start, id, before + a, b, ok, done)
      ensures Ended(start, id, before, a + b, ok, done)
    {
      hide Exec, Healthy, Entries, ByTrade, Emitted;
      assert before + (a + b) == before + a + b;
    }

    method EmitTwo(trade: LiveTrade, a: Event, b: Event, ghost start: seq<Entry>, ghost before: seq<Event>)
      returns (ok: bool, ghost done: seq<Event>)
      requires At(start, trade.id, before) && !a.body.TradeOpened? && !b.body.TradeOpened?
      modifies this`life, store
      ensures Ended(start, trade.id, before, [a, b], ok, done) && life + |done| == old(life) + |before|
    {
      hide At, Exec, Healthy, Entries, ByTrade, Emitted;
      ok, done := Emit(trade, a, start, before);
      assert [a] + [b] == [a, b];
      if !ok {
        EndedEarly(start, trade.id, before, [a], [b], done);
        return;
      }
      ok, done := Emit(trade, b, start, done);
      EndedLate(start, trade.id, before, [a], [b], ok, done);
    }

    method Close(trade: LiveTrade, timestamp: int, price: real, reason: ExitReason, size: real,
        ghost start: seq<Entry>, ghost before: seq<Event>)
      returns (ok: bool, ghost done: seq<Event>)
      requires At(start, trade.id, before)
      modifies this`life, store
      ensures Ended(start, trade.id, before,
                    ClosePair(cfg, trade.rebuilt.opening, timestamp, price, reason, size), ok, done)
      ensures life + |done| == old(life) + |before|
    {
      hide At, Ended;
      var o := trade.rebuilt.opening;
      var gross := if o.direction.Long? then (price - o.fill) * size else (o.fill - price) * size;
      var fee := price * size * (cfg.roundtripFeeBps / 10000.0) / 2.0;
      var exit := Event(timestamp, ExitReasonTransition(reason, price));
      var close := Event(timestamp, TradeClosed(price, size, gross, fee, reason));
      assert gross == Pnl(o, price, size) && fee == Fee(cfg, price, size);
      assert [exit, close] == ClosePair(cfg, o, timestamp, price, reason, size);
      ok, done := EmitTwo(trade, exit, close, start, before);
    }

    method Partial(trade: LiveTrade, timestamp: int, price: real, size: real, level: nat, ghost start: seq<Entry>,
        ghost before: seq<Event>)
      returns (ok: bool, ghost done: seq<Event>)
      requires At(start, trade.id, before)
      modifies this`life, store
      ensures var o := trade.rebuilt.opening;
              Ended(start, trade.id, before,
                    if size <= 0.0 then []
                    else [Event(timestamp, PartialExit(price, size, Pnl(o, price, size), Fee(cfg, price, size),
                                            TakeProfit(level), level))],
                    ok, done)
      ensures life + |done| == old(life) + |before|
    {
      if size <= 0.0 {
        assert before + [] == before;
        return true, before;
      }
      hide At, Ended;
      var o := trade.rebuilt.opening;
      var gross := if o.direction.Long? then (price - o.fill) * size else (o.fill - price) * size;
      var fee := price * size * (cfg.roundtripFeeBps / 10000.0) / 2.0;
      var exit := Event(timestamp, PartialExit(price, size, gross, fee, TakeProfit(level), level));
      assert gross == Pnl(o, price, size) && fee == Fee(cfg, price, size);
      ok, done := Emit(trade, exit, start, before);
    }

    /** The mark decision and the excursion updates of a tick. */
    method Observe(trade: LiveTrade, t: Tick, ghost start: seq<Entry>, ghost before: seq<Event>)
      returns (ok: bool, ghost done: seq<Event>)
      requires At(start, trade.id, before) && trade.rebuilt.opening.fill > 0.0
      modifies this`life, store, trade`mfe, trade`mae
      ensures Ended(start, trade.id, before, Observations(old(trade.Memory()), t), ok, done)
      ensures life + |done| == old(life) + |before|
      ensures ok ==> trade.Memory() == Observed(old(trade.Memory()), t)
    {
      hide At, Exec, Healthy, Entries, ByTrade, Emitted;
      ghost var m := trade.Memory();
      var o := trade.rebuilt.opening;
      var favorable, adverse := Favorable(o, t), Adverse(o, t);
      var up, down := ExcursionPct(o, favorable), ExcursionPct(o, adverse);
      ok, done := Emit(trade, MarkEvent(trade.Memory(), t), start, before);
      if !ok {
        EndedEarly(start, trade.id, before, [MarkEvent(m, t)], MfeEvents(m, t) + MaeEvents(m, t), done);
        assert [MarkEvent(m, t)] + (MfeEvents(m, t) + MaeEvents(m, t)) == Observations(m, t);
        return;
      }
      ghost var first := [MarkEvent(m, t)];
      if up > trade.mfe {
        ok, done := Emit(trade, Event(t.timestamp, MfeUpdate(favorable, up)), start, done);
        EndedLate(start, trade.id, before, first, MfeEvents(m, t), ok, done);
        if !ok {
          EndedEarly(start, trade.id, before, first + MfeEvents(m, t), MaeEvents(m, t), done);
          return;
        }
        trade.mfe := up;
      }
      assert done == before + (first + MfeEvents(m, t));
      if down < trade.mae {
        ok, done := Emit(trade, Event(t.timestamp, MaeUpdate(adverse, down)), start, done);
        EndedLate(start, trade.id, before, first + MfeEvents(m, t), MaeEvents(m, t), ok, done);
        if !ok {
          return;
        }
        trade.mae := down;
      }
    }

    /** The touch of one target, unless it is already recorded. */
    method TouchTarget(trade: LiveTrade, t: Tick, i: nat, ghost start: seq<Entry>, ghost before: seq<Event>)
      returns (ok: bool, ghost done: seq<Event>)
      requires At(start, trade.id, before) && i < |trade.rebuilt.opening.targets|
      modifies this`life, store, trade`touched
      ensures Ended(start, trade.id, before, TouchEvents(old(trade.Memory()), t, i), ok, done)
      ensures life + |done| == old(life) + |before|
      ensures ok ==> trade.touched == old(trade.touched) + {i}
      ensures !ok ==> trade.touched == old(trade.touched)
    {
      hide At, Exec, Healthy, Entries, ByTrade, Emitted;
      ok, done := true, before;
      if i !in trade.touched {
        ok, done := Emit(trade, Event(t.timestamp, TpTouch(i + 1, trade.rebuilt.opening.targets[i], t.mark)), start,
          before);
      } else {
        assert before + [] == before;
      }
      if ok {
        trade.touched := trade.touched + {i};
      }
    }

    /** Touch, partial and break-even move of one target. */
    method WorkTarget(trade: LiveTrade, t: Tick, i: nat, ghost start: seq<Entry>, ghost before: seq<Event>)
      returns (ok: bool, ghost done: seq<Event>)
      requires At(start, trade.id, before) && i < |trade.rebuilt.opening.targets|
      modifies this`life, store, trade`touched, trade`remaining, trade`stop
      ensures Ended(start, trade.id, before, FillEvents(cfg, old(trade.Memory()), t, i), ok, done)
      ensures life + |done| == old(life) + |before|
      ensures ok ==> trade.Memory() == AfterFill(cfg, old(trade.Memory()), i)
    {
      hide At, Exec, Healthy, Entries, ByTrade, Emitted, FeeBreakEven, Pnl, Fee, Ended, TouchEvents, BreakEvenEvents;
      ghost var m := trade.Memory();
      var target := trade.rebuilt.opening.targets[i];
      ghost var touch, partial, arm := TouchEvents(m, t, i), PartialEvents(cfg, m, t, i), BreakEvenEvents(cfg, m, t, i);
      assert touch + (partial + arm) == touch + partial + arm;
      ok, done := TouchTarget(trade, t, i, start, before);
      if !ok {
        EndedEarly(start, trade.id, before, touch, partial + arm, done);
        return;
      }
      EndedOk(start, trade.id, before, touch, done);
      var closeSize := CloseSize(cfg, trade.Memory(), i);
      assert closeSize == CloseSize(cfg, m, i);
      ok, done := Partial(trade, t.timestamp, target, closeSize, i + 1, start, done);
      EndedLate(start, trade.id, before, touch, partial, ok, done);
      if !ok {
        EndedEarly(start, trade.id, before, touch + partial, arm, done);
        return;
      }
      EndedOk(start, trade.id, before, touch + partial, done);
      trade.remaining := trade.remaining - closeSize;
      ok, done := MoveToBreakEven(trade, t, i, m, start, done);
      EndedLate(start, trade.id, before, touch + partial, arm, ok, done);
    }

    /** The break-even move after the first target, when something is left; `m` is the memory before the fill. */
    method MoveToBreakEven(trade: LiveTrade, t: Tick, i: nat, ghost m: State, ghost start: seq<Entry>,
        ghost before: seq<Event>)
      returns (ok: bool, ghost done: seq<Event>)
      requires At(start, trade.id, before) && i < |trade.rebuilt.opening.targets| && m.opening == trade.rebuilt.opening
      requires trade.remaining == m.remaining - CloseSize(cfg, m, i) && trade.stop == m.stop
      modifies this`life, store, trade`stop
      ensures Ended(start, trade.id, before, BreakEvenEvents(cfg, m, t, i), ok, done)
      ensures life + |done| == old(life) + |before|
      ensures ok ==> trade.stop == AfterFill(cfg, m, i).stop
    {
      hide At, Exec, Healthy, Entries, ByTrade, Emitted, FeeBreakEven, Pnl, Fee, CloseSize;
      ok, done := true, before;
      if i == 0 && trade.remaining > 0.0 {
        var stop := FeeBreakEven(cfg, trade.rebuilt.opening);
        ok, done := EmitTwo(trade,
          Event(t.timestamp, BreakEvenActivated(stop, t.mark)),
          Event(t.timestamp, StopUpdated(trade.stop, stop, Tp1FeeBreakEven)), start, before);
        if ok {
          trade.stop := stop;
        }
      }
    }

    /** The target loop and the profit lock after it. */
    method WorkTargets(trade: LiveTrade, t: Tick, ghost start: seq<Entry>, ghost before: seq<Event>)
      returns (ok: bool, ghost done: seq<Event>)
      requires At(start, trade.id, before) && trade.rebuilt.opening.fill > 0.0
      modifies this`life, store, trade`touched, trade`remaining, trade`stop
      ensures Ended(start, trade.id, before, TargetEvents(cfg, old(trade.Memory()), t, 0), ok, done)
      ensures life + |done| == old(life) + |before|
    {
      hide At, Exec, Healthy, Entries, ByTrade, Emitted, FeeBreakEven, Pnl, Fee, FillEvents, AfterFill, Ended;
      hide TargetHit;
      ghost var program := TargetEvents(cfg, trade.Memory(), t, 0);
      ghost var sent: seq<Event> := [];
      var targets := trade.rebuilt.opening.targets;
      done := before;
      assert before + sent == before;
      for i := 0 to |targets|
        invariant At(start, trade.id, done) && done == before + sent && life + |done| == old(life) + |before|
        invariant program == sent + TargetEvents(cfg, trade.Memory(), t, i)
      {
        ghost var m := trade.Memory();
        ghost var close := ClosePair(cfg, trade.rebuilt.opening, t.timestamp, targets[i], TakeProfit(i + 1), 0.0);
        if i in trade.rebuilt.completed {
          if trade.remaining <= EPSILON {
            ok, done := Close(trade, t.timestamp, targets[i], TakeProfit(i + 1), 0.0, start, done);
            EndedLate(start, trade.id, before, sent, close, ok, done);
            return;
          }
        } else if i in trade.touched || TargetHit(trade.rebuilt.opening, t, i) {
          ghost var fill, rest := FillEvents(cfg, m, t, i), AfterFillEvents(cfg, m, t, i);
          FillComesNext(cfg, m, t, i);
          assert program == sent + (fill + rest) && sent + (fill + rest) == (sent + fill) + rest;
          ok, done := WorkTarget(trade, t, i, start, done);
          EndedLate(start, trade.id, before, sent, fill, ok, done);
          if !ok {
            EndedEarly(start, trade.id, before, sent + fill, rest, done);
            return;
          }
          EndedOk(start, trade.id, before, sent + fill, done);
          sent := sent + fill;
          if trade.remaining <= EPSILON {
            ok, done := Close(trade, t.timestamp, targets[i], TakeProfit(i + 1), 0.0, start, done);
            EndedLate(start, trade.id, before, sent, close, ok, done);
            return;
          }
        }
      }
      ok, done := LockProfit(trade, t, start, done);
      EndedLate(start, trade.id, before, sent, ProfitLockEvents(cfg, trade.Memory(), t), ok, done);
    }

    lemma EndedOk(start: seq<Entry>, id: TradeId, before: seq<Event>, es: seq<Event>, done: seq<Event>)
      requires Ended(start, id, before, es, true, done)
      ensures At(start, id, done) && done == before + es
    {
    }

    method LockProfit(trade: LiveTrade, t: Tick, ghost start: seq<Entry>, ghost before: seq<Event>)
      returns (ok: bool, ghost done: seq<Event>)
      requires At(start, trade.id, before) && trade.rebuilt.opening.fill > 0.0
      modifies this`life, store
      ensures Ended(start, trade.id, before, ProfitLockEvents(cfg, trade.Memory(), t), ok, done)
      ensures life + |done| == old(life) + |before|
    {
      hide At, Exec, Healthy, Entries, ByTrade, Emitted, FeeBreakEven;
      ok, done := true, before;
      if ArmsProfitLock(cfg, trade.Memory()) {
        var stop := FeeBreakEven(cfg, trade.rebuilt.opening);
        ok, done := EmitTwo(trade,
          Event(t.timestamp, ProfitLockActivated(stop, t.mark)),
          Event(t.timestamp, StopUpdated(trade.stop, stop, ProfitLockFeeBreakEven)), start, before);
      }
    }

    /** One market update of one open trade. */
    method UpdateTrade(id: TradeId, state: State, t: Tick) returns (ok: bool, ghost done: seq<Event>)
      requires Valid() && ProperId(id) && state.opening.fill > 0.0
      modifies this`life, store
      ensures Valid() && Ended(old(Book()), id, [], Program(cfg, state, t), ok, done)
      ensures life + |done| == old(life)
    {
      hide Exec, Healthy, Entries, ByTrade, Emitted, FeeBreakEven, Pnl, Fee, Observations, TargetEvents, ClosePair;
      ghost var start := Book();
      var trade := new LiveTrade(id, state);
      EmittedNothing(start, id);
      assert At(start, id, []) by { AtStart(start, id); }
      match state.pending {
        case Some(p) =>
          ok, done := Close(trade, p.timestamp, p.price, p.reason, p.remaining, start, []);
        case None =>
          ghost var seen := Observations(state, t);
          ghost var m := Observed(state, t);
          ghost var rest := if StopHit(state, t) then StopEvents(cfg, m, t) else TargetEvents(cfg, m, t, 0);
          ok, done := Observe(trade, t, start, []);
          if !ok {
            EndedEarly(start, id, [], seen, rest, done);
            return;
          }
          assert done == [] + seen;
          if StopHit(trade.Memory(), t) {
            ok, done := Stop(trade, t, start, done);
          } else {
            ok, done := WorkTargets(trade, t, start, done);
          }
          EndedLate(start, id, [], seen, rest, ok, done);
      }
    }

    /** The stop was touched: record it and close at the stop. */
    method Stop(trade: LiveTrade, t: Tick, ghost start: seq<Entry>, ghost before: seq<Event>)
      returns (ok: bool, ghost done: seq<Event>)
      requires At(start, trade.id, before)
      modifies this`life, store
      ensures Ended(start, trade.id, before, StopEvents(cfg, trade.Memory(), t), ok, done)
      ensures life + |done| == old(life) + |before|
    {
      hide At, Exec, Healthy, Entries, ByTrade, Emitted, ClosePair;
      var touch := Event(t.timestamp, SlTouch(trade.stop, t.mark));
      ghost var pair := ClosePair(cfg, trade.rebuilt.opening, t.timestamp, trade.stop, StopLoss, trade.remaining);
      ok, done := Emit(trade, touch, start, before);
      if !ok {
        EndedEarly(start, trade.id, before, [touch], pair, done);
        return;
      }
      ok, done := Close(trade, t.timestamp, trade.stop, StopLoss, trade.remaining, start, done);
      EndedLate(start, trade.id, before, [touch], pair, ok, done);
    }

    // ----- scans -----

    method Reject(candidateId: string, planId: string, timestamp: int, cause: string, symbol: string, strategy: string)
      returns (ok: bool, ghost moves: seq<Move>)
      requires Valid()
      modifies this`life, store
      ensures Valid() && Runs(cfg, old(Book()), moves, Book())
      ensures ok ==>
        Book() == SubmitTo(old(Book()), RefuseEntry(candidateId, planId, timestamp, cause, symbol, strategy))
      ensures OpenIds(Book()) == OpenIds(old(Book())) && OpenSymbols(Book()) == OpenSymbols(old(Book()))
    {
      hide Submit, Healthy, Entries, OpenIds, OpenSymbols, Allowed;
      ghost var start := Book();
      ghost var m := Refuse(candidateId, planId, timestamp, cause, symbol, strategy);
      RefuseEffect(cfg, start, m);
      RunsOne(cfg, start, m);
      var written;
      ok, written := AppendEvent(RefuseEntry(candidateId, planId, timestamp, cause, symbol, strategy));
      moves := if Book() == start then [] else [m];
    }

    /** Opens a paper trade for a plan, unless critical fields are missing or the store already knows it. */
    method OpenTrade(plan: Plan, snap: Snapshot) returns (ok: bool, admitted: bool, ghost moves: seq<Move>)
      requires Valid() && World(cfg, Book()) && plan.notional >= 0.0
      requires |OpenIds(Book())| < Cap(cfg) && plan.symbol !in OpenSymbols(Book())
      modifies this`life, store
      ensures Valid() && Runs(cfg, old(Book()), moves, Book())
      ensures ok ==> Book() == SubmitTo(old(Book()), PlanEntry(cfg, plan, snap))
      ensures admitted ==> |OpenIds(Book())| == |OpenIds(old(Book()))| + 1
      ensures admitted ==> OpenSymbols(Book()) == OpenSymbols(old(Book())) + {plan.symbol}
      ensures !admitted && ok ==>
        OpenIds(Book()) == OpenIds(old(Book())) && OpenSymbols(Book()) == OpenSymbols(old(Book()))
    {
      ghost var start := Book();
      if plan.candidateId == "" || plan.planId == "" {
        return false, false, [];
      }
      if CriticalMissing(cfg, plan, snap) {
        ok, moves := Reject(plan.candidateId, plan.planId, snap.timestamp, MissingCause(cfg, plan, snap), plan.symbol,
          plan.strategy);
        return ok, false, moves;
      }
      CriticalCheckIsValid(cfg, plan, snap);
      ok, admitted, moves := Admission(PaperTrade(plan.candidateId, plan.planId), snap.timestamp,
        PlannedOpening(cfg, plan, snap));
    }

    method Admission(id: TradeId, timestamp: int, o: Opening) returns (ok: bool, admitted: bool, ghost moves: seq<Move>)
      requires Valid() && World(cfg, Book()) && ProperId(id) && ValidOpening(o)
      requires |OpenIds(Book())| < Cap(cfg) && o.symbol !in OpenSymbols(Book())
      modifies this`life, store
      ensures Valid() && Runs(cfg, old(Book()), moves, Book())
      ensures ok ==> Book() == SubmitTo(old(Book()), AdmitEntry(id, timestamp, o))
      ensures admitted ==> |OpenIds(Book())| == |OpenIds(old(Book()))| + 1
      ensures admitted ==> OpenSymbols(Book()) == OpenSymbols(old(Book())) + {o.symbol}
      ensures !admitted ==> Book() == old(Book())
    {
      hide Submit, Healthy, Entries, OpenIds, ValidOpening, World;
      ghost var start := Book();
      ghost var m := Admit(id, timestamp, o);
      assert Allowed(cfg, start, m);
      AdmitEffect(cfg, start, m);
      RunsOne(cfg, start, m);
      ok, admitted := AppendEvent(AdmitEntry(id, timestamp, o));
      moves := if Book() == start then [] else [m];
    }

    /** Updates every open trade that has a snapshot, each from the state reconstructed at the start. */
    method UpdateMarket(snapshots: map<string, Snapshot>) returns (ok: bool, ghost moves: seq<Move>)
      requires Valid() && World(cfg, Book()) && Sane(cfg)
      modifies this`life, store
      ensures Valid() && World(cfg, Book()) && Runs(cfg, old(Book()), moves, Book())
      ensures !ok ==> life == 0
      ensures ok ==> MarketApplied(cfg, old(Book()), snapshots, Book())
    {
      hide Healthy, Entries, World, OpenIds, ByTrade, Legal, Next, OpenState, Rebuilt, Ended, Program, UpdatedLog;
      hide AfterTick;
      ghost var start := Book();
      var order, states := OpenStates(ReadBook());
      moves := [];
      StatesAtStart(start, order, states);
      for k := 0 to |order|
        invariant Valid() && World(cfg, Book()) && Runs(cfg, start, moves, Book())
        invariant forall j | k <= j < |order| :: Waiting(Book(), order[j], states)
        invariant Progress(start, order[..k], snapshots, Book())
      {
        var id := order[k];
        var state := states[id];
        assert order[..k + 1] == order[..k] + [id];
        StillAsAtStart(start, order, k, states, snapshots, Book());
        if state.opening.symbol in snapshots {
          ghost var before := Book();
          ghost var done;
          var tick := TickOf(snapshots[state.opening.symbol]);
          ok, done := UpdateTrade(id, state, tick);
          ghost var m := Update(id, Step(tick, |done|));
          UpdateIsMove(before, id, state, tick, ok, done);
          NextKeepsWorld(cfg, before, m);
          RunsPush(cfg, start, moves, before, m);
          OthersWait(before, id, Step(tick, |done|), order, states, k);
          moves := moves + [m];
          if !ok {
            return;
          }
          UpdateProgress(start, before, id, state, tick, order[..k], snapshots, done, Book());
        } else {
          SkipProgress(start, id, state, order[..k], snapshots, Book());
        }
      }
      ok := true;
      assert order[..|order|] == order;
      ProgressComplete(start, order, states, snapshots, Book());
    }

    /** Of the trades in `done`, those with a snapshot have their update; all other trades are as at the start. */
    ghost predicate Progress(start: seq<Entry>, done: seq<TradeId>, snapshots: map<string, Snapshot>,
        book: seq<Entry>) {
      forall id :: ByTrade(book, id) == if id in done then AfterTick(cfg, start, id, snapshots) else ByTrade(start, id)
    }

    lemma StillAsAtStart(start: seq<Entry>, order: seq<TradeId>, k: nat, states: map<TradeId, State>,
        snapshots: map<string, Snapshot>, book: seq<Entry>)
      requires Distinct(order) && k < |order| && Progress(start, order[..k], snapshots, book)
      requires Waiting(book, order[k], states)
      ensures order[k] !in order[..k] && ByTrade(book, order[k]) == ByTrade(start, order[k]) && IsOpen(start, order[k])
      ensures SymbolOf(start, order[k]) == states[order[k]].opening.symbol
    {
      hide ByTrade, AfterTick;
      ApplyKeepsOpening(Initial(ByTrade(start, order[k])[0].body.opening), ByTrade(start, order[k]));
    }

    lemma UpdateProgress(start: seq<Entry>, before: seq<Entry>, id: TradeId, state: State, t: Tick, done: seq<TradeId>,
                         snapshots: map<string, Snapshot>, es: seq<Event>, book: seq<Entry>)
      requires Progress(start, done, snapshots, before) && id !in done && ByTrade(before, id) == ByTrade(start, id)
      requires IsOpen(before, id) && IsOpen(start, id) && state == Replay(ByTrade(before, id))
      requires state.opening.fill > 0.0
      requires SymbolOf(start, id) in snapshots && t == TickOf(snapshots[SymbolOf(start, id)])
      requires es == Program(cfg, state, t) && book == UpdatedLog(cfg, before, id, Step(t, |es|))
      ensures Progress(start, done + [id], snapshots, book)
    {
      UpdatedEvents(cfg, before, id, Step(t, |es|));
      assert Take(es, |es|) == es;
      hide ByTrade, UpdatedLog, Program, ApplyAll;
    }

    lemma SkipProgress(start: seq<Entry>, id: TradeId, state: State, done: seq<TradeId>,
        snapshots: map<string, Snapshot>, book: seq<Entry>)
      requires Progress(start, done, snapshots, book) && id !in done && IsOpen(start, id)
      requires SymbolOf(start, id) !in snapshots
      ensures Progress(start, done + [id], snapshots, book)
    {
      hide ByTrade;
    }

    lemma ProgressComplete(start: seq<Entry>, order: seq<TradeId>, states: map<TradeId, State>,
        snapshots: map<string, Snapshot>, book: seq<Entry>)
      requires World(cfg, start) && Progress(start, order, snapshots, book)
      requires forall id :: id in order <==> id in states
      requires forall id :: id in states <==> OpenState(start, id)
      ensures MarketApplied(cfg, start, snapshots, book)
    {
      hide Rebuilt, Legal, Exposed, OnePlanPerCandidate, Attributed, ByTrade, AfterTick;
      forall id ensures id in order <==> IsOpen(start, id) {
        OpenStatesAreOpenTrades(cfg, start, id);
      }
    }

    /** The events as the reader returns them. */
    function ReadBook(): (book: seq<Entry>)
      reads this, store
      ensures book == Book()
    {
      Entries(store.lines)
    }

    /** A trade that is still to be updated in this scan: open, and its state is up to date. */
    ghost predicate Waiting(book: seq<Entry>, id: TradeId, states: map<TradeId, State>) {
      id in states && ProperId(id) && IsOpen(book,
        id) && states[id] == Replay(ByTrade(book, id)) && states[id].opening.fill > 0.0
    }

    lemma StatesAtStart(book: seq<Entry>, order: seq<TradeId>, states: map<TradeId, State>)
      requires World(cfg, book)
      requires forall id :: id in order <==> id in states
      requires forall id :: id in states <==> OpenState(book, id)
      requires forall id | id in states :: Some(states[id]) == Rebuilt(ByTrade(book, id))
      ensures forall j | 0 <= j < |order| :: Waiting(book, order[j], states)
    {
      forall j | 0 <= j < |order| ensures Waiting(book, order[j], states) {
        var id := order[j];
        hide OpenState, Rebuilt, ByTrade, Legal, Exposed, OnePlanPerCandidate;
        OpenStatesAreOpenTrades(cfg, book, id);
        OpenTradeFacts(book, id);
      }
    }

    lemma OpenTradeFacts(book: seq<Entry>, id: TradeId)
      requires AllLegal(cfg, book) && Attributed(book) && IsOpen(book, id)
      ensures ProperId(id) && Replay(ByTrade(book, id)).opening.fill > 0.0
    {
      var events := ByTrade(book, id);
      assert TradeLegal(cfg, id, events);
      LegalStarted(cfg, events);
      InByTrade(book, id, events[0]);
    }

    /** An update that made the attempts `done` is the move that dies after that many appends. */
    lemma UpdateIsMove(before: seq<Entry>, id: TradeId, state: State, t: Tick, ok: bool, done: seq<Event>)
      requires Sane(cfg) && World(cfg, before) && IsOpen(before, id) && state == Replay(ByTrade(before, id))
      requires state.opening.fill > 0.0
      requires Ended(before, id, [], Program(cfg, state, t), ok, done)
      ensures Allowed(cfg, before, Update(id, Step(t, |done|)))
      ensures Book() == Next(cfg, before, Update(id, Step(t, |done|))) == UpdatedLog(cfg, before, id, Step(t, |done|))
      ensures !ok ==> life == 0
      ensures ok ==> done == Program(cfg, state, t)
    {
      hide Healthy, Entries, Program, Legal, Exec, ByTrade, ApplyAll;
      var events := ByTrade(before, id);
      var program := Program(cfg, state, t);
      assert [] + program == program;
      assert Take(program, |done|) == done;
      assert TradeLegal(cfg, id, events);
      AdvanceLegal(cfg, events, Step(t, |program|));
      assert Take(program, |program|) == program;
    }

    lemma OthersWait(before: seq<Entry>, id: TradeId, step: Step, order: seq<TradeId>, states: map<TradeId, State>,
        k: nat)
      requires Distinct(order) && k < |order| && id == order[k] && IsOpen(before, id)
      requires forall j | k <= j < |order| :: Waiting(before, order[j], states)
      ensures forall j | k < j < |order| :: Waiting(UpdatedLog(cfg, before, id, step), order[j], states)
    {
      UpdatedEvents(cfg, before, id, step);
      hide ByTrade, UpdatedLog, Advance;
    }

    /**
     One scan: advance the open trades, then open new ones while capacity lasts.  A scan
     that is not cut short leaves the book that `AdmitPlans` computes from the persisted
     log alone, without the running counters.
     */
    method Process(enabled: bool, plans: seq<Plan>, snapshots: seq<Snapshot>, now: int)
      returns (ok: bool, ghost moves: seq<Move>, ghost advanced: seq<Entry>, ghost latest: map<string, Snapshot>)
      requires Valid() && World(cfg, Book()) && Sane(cfg)
      requires forall plan | plan in plans :: plan.notional >= 0.0
      modifies this`life, store
      ensures Valid() && World(cfg, Book()) && Runs(cfg, old(Book()), moves, Book())
      ensures !enabled ==> ok && Book() == old(Book())
      ensures enabled && ok ==> LatestSnapshots(snapshots, latest) && MarketApplied(cfg, old(Book()), latest, advanced)
      ensures enabled && ok ==> Book() == AdmitPlans(cfg, advanced, plans, latest, now)
      ensures |OpenIds(Book())| <= if cfg.maxOpenPositions > 0 then cfg.maxOpenPositions else 0
    {
      hide Healthy, Entries, World, OpenIds, OpenSymbols, Next, OpenState, Rebuilt, MarketApplied, PlanEffect;
      ghost var start := Book();
      moves, advanced, latest := [], start, map[];
      WorldExposed(start);
      if !enabled {
        return true, moves, advanced, latest;
      }
      var snapshotMap := MapSnapshots(snapshots);
      latest := snapshotMap;
      ok, moves := UpdateMarket(snapshotMap);
      advanced := Book();
      WorldExposed(advanced);
      if !ok {
        return;
      }
      var openSymbols := ReadOpenSymbols();
      var capacity := Cap(cfg) - |openSymbols|;
      for i := 0 to |plans|
        invariant Valid() && World(cfg, Book()) && Runs(cfg, start, moves, Book())
        invariant openSymbols == OpenSymbols(Book()) && capacity == Cap(cfg) - |OpenIds(Book())| >= 0
        invariant AdmitPlans(cfg, advanced, plans, latest, now) == AdmitPlans(cfg, Book(), plans[i..], latest, now)
      {
        var plan := plans[i];
        assert plans[i..][0] == plan && plans[i..][1..] == plans[i + 1..];
        if capacity <= 0 {
          return true, moves, advanced, latest;
        }
        ghost var before := Book();
        ghost var more;
        var admitted := false;
        ok, admitted, more := ConsiderPlan(plan, snapshotMap, openSymbols, now);
        RunsConcat(cfg, start, moves, before, more, Book());
        RunsKeepWorld(cfg, before, more, Book());
        WorldExposed(Book());
        moves := moves + more;
        if !ok {
          return;
        }
        if admitted {
          openSymbols := openSymbols + {plan.symbol};
          capacity := capacity - 1;
        }
      }
      ok := true;
    }

    /** The body of the plan loop. */
    method ConsiderPlan(plan: Plan, snapshots: map<string, Snapshot>, openSymbols: set<string>, now: int)
      returns (ok: bool, admitted: bool, ghost moves: seq<Move>)
      requires Valid() && World(cfg, Book()) && plan.notional >= 0.0
      requires |OpenIds(Book())| < Cap(cfg) && openSymbols == OpenSymbols(Book())
      modifies this`life, store
      ensures Valid() && Runs(cfg, old(Book()), moves, Book())
      ensures ok ==> Book() == PlanEffect(cfg, old(Book()), plan, snapshots, now)
      ensures ok && admitted ==> |OpenIds(Book())| == |OpenIds(old(Book()))| + 1
      ensures ok && admitted ==> OpenSymbols(Book()) == OpenSymbols(old(Book())) + {plan.symbol}
      ensures ok && !admitted ==>
        OpenIds(Book()) == OpenIds(old(Book())) && OpenSymbols(Book()) == OpenSymbols(old(Book()))
    {
      hide Healthy, Entries, World, OpenIds, OpenSymbols, Next, Submit;
      if !plan.executable || plan.symbol in openSymbols {
        return true, false, [];
      }
      admitted := false;
      if plan.symbol !in snapshots {
        ok, moves := Reject(plan.candidateId, plan.planId, now, "missing_market_snapshot", plan.symbol, plan.strategy);
      } else {
        ok, admitted, moves := OpenTrade(plan, snapshots[plan.symbol]);
      }
    }

    lemma WorldExposed(book: seq<Entry>)
      requires World(cfg, book)
      ensures |OpenSymbols(book)| == |OpenIds(book)| <= Cap(cfg)
    {
      OpenSymbolsSize(cfg, book);
    }

    /** The symbols of the open states. */
    method ReadOpenSymbols() returns (symbols: set<string>)
      requires Valid() && World(cfg, Book())
      ensures symbols == OpenSymbols(Book())
    {
      hide Healthy, Entries, World, ByTrade, Legal, OpenState, Rebuilt, OpenSymbols;
      var order, states := OpenStates(ReadBook());
      StatesAtStart(Book(), order, states);
      symbols := {};
      for k := 0 to |order|
        invariant forall symbol :: symbol in symbols <==>
          exists j | 0 <= j < k :: states[order[j]].opening.symbol == symbol
      {
        symbols := symbols + {states[order[k]].opening.symbol};
      }
      StatesSymbols(Book(), order, states, symbols);
    }

    lemma StatesSymbols(book: seq<Entry>, order: seq<TradeId>, states: map<TradeId, State>, symbols: set<string>)
      requires World(cfg, book)
      requires forall id :: id in order <==> id in states
      requires forall id :: id in states <==> OpenState(book, id)
      requires forall j | 0 <= j < |order| :: Waiting(book, order[j], states)
      requires forall symbol :: symbol in symbols <==>
        exists j | 0 <= j < |order| :: states[order[j]].opening.symbol == symbol
      ensures symbols == OpenSymbols(book)
    {
      hide Rebuilt, Legal, ByTrade, Exposed, OnePlanPerCandidate, Attributed;
      OpenIdsIff(book);
      forall id ensures id in OpenIds(book) <==> id in order {
        OpenStatesAreOpenTrades(cfg, book, id);
      }
      forall j | 0 <= j < |order| ensures states[order[j]].opening.symbol == SymbolOf(book, order[j]) {
        assert Waiting(book, order[j], states);
        ApplyKeepsOpening(Initial(ByTrade(book, order[j])[0].body.opening), ByTrade(book, order[j]));
      }
      forall symbol ensures symbol in symbols <==> symbol in OpenSymbols(book) {
        if symbol in OpenSymbols(book) {
          var id :| id in OpenIds(book) && SymbolOf(book, id) == symbol;
          var j :| 0 <= j < |order| && order[j] == id;
          assert states[order[j]].opening.symbol == symbol;
        }
        if symbol in symbols {
          var j :| 0 <= j < |order| && states[order[j]].opening.symbol == symbol;
          assert order[j] in OpenIds(book) && SymbolOf(book, order[j]) == symbol;
        }
      }
    }

    lemma AtStart(start: seq<Entry>, id: TradeId)
      requires Valid() && ProperId(id) && start == Book()
      ensures At(start, id, [])
    {
      EmittedNothing(start, id);
    }
  }

  lemma EmittedNothing(start: seq<Entry>, id: TradeId)
    requires id.PaperTrade?
    ensures Emitted(start, id, []) == start && !Conflicts(start, id, [])
  {
    var events := ByTrade(start, id);
    assert events[|events|..] == [];
    assert Lift(id, []) == [];
  }

  lemma RunsOne(cfg: Config, log: seq<Entry>, m: Move)
    requires Allowed(cfg, log, m)
    ensures Runs(cfg, log, [], log) && Runs(cfg, log, [m], Next(cfg, log, m))
  {
    assert [m][1..] == [];
    assert Runs(cfg, Next(cfg, log, m), [], Next(cfg, log, m));
  }

  method MapSnapshots(snapshots: seq<Snapshot>) returns (latest: map<string, Snapshot>)
    ensures LatestSnapshots(snapshots, latest)
  {
    latest := map[];
    for i := 0 to |snapshots|
      invariant LatestSnapshots(snapshots[..i], latest)
    {
      ghost var was, now, before := snapshots[..i], snapshots[..i + 1], latest;
      var s := snapshots[i];
      latest := latest[s.symbol := s];
      assert now == was + [s];
      forall symbol | symbol in latest ensures exists k :: LastFor(now, symbol, k, latest[symbol]) {
        if symbol == s.symbol {
          assert LastFor(now, symbol, i, s);
        } else {
          var k :| LastFor(was, symbol, k, before[symbol]);
          assert LastFor(now, symbol, k, latest[symbol]);
        }
      }
    }
    assert snapshots[..|snapshots|] == snapshots;
  }
}
