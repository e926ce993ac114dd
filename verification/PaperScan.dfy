/**
 What one complete scan does to the book, in the candles and plans it is given: which open
 trades it stops out, which targets it touches, and which plans it opens.
 */
module PaperScan {
  import opened Wrappers
  import opened PaperEvents
  import opened PaperStore
  import opened PaperLifecycle
  import opened PaperProtocol
  import opened PaperCrashes
  import opened PaperGuarantees
  import opened PaperTriggers
  import opened PaperBook
  import opened PaperWorld
  import opened PaperPlanning
  import opened PaperService

  lemma ScannedTrade(cfg: Config, book: seq<Entry>, id: TradeId, snapshots: map<string, Snapshot>)
    requires World(cfg, book) && IsOpen(book, id) && Replay(ByTrade(book, id)).pending.None?
    requires SymbolOf(book, id) in snapshots
    ensures Awake(cfg, ByTrade(book, id))
    ensures AfterTick(cfg, book, id, snapshots) ==
            Updated(cfg, ByTrade(book, id), TickOf(snapshots[SymbolOf(book, id)]))
  {
    hide Legal, ApplyAll, Program, Exec, ByTrade, Exposed, OnePlanPerCandidate, Attributed;
    var events := ByTrade(book, id);
    assert TradeLegal(cfg, id, events);
    LegalStarted(cfg, events);
    var es := Program(cfg, Replay(events), TickOf(snapshots[SymbolOf(book, id)]));
    assert Take(es, |es|) == es;
  }

  /**
   A complete scan stops out an open trade with no exit pending if and only if the last candle of
   its symbol trades at its stop, or the latest close does where the snapshot has no candle.
   */
  lemma ScanStopsIff(cfg: Config, book: seq<Entry>, snapshots: map<string, Snapshot>, after: seq<Entry>, id: TradeId)
    requires World(cfg, book) && Sane(cfg) && MarketApplied(cfg, book, snapshots, after)
    requires IsOpen(book, id) && Replay(ByTrade(book, id)).pending.None? && SymbolOf(book, id) in snapshots
    ensures var s, snap := Replay(ByTrade(book, id)), snapshots[SymbolOf(book, id)];
            var high := if snap.candle.Some? then snap.candle.value.high else snap.latestClose;
            var low := if snap.candle.Some? then snap.candle.value.low else snap.latestClose;
            HasAction(ByTrade(after, id), SlTouched) <==>
            if s.opening.direction.Long? then low <= s.stop else high >= s.stop
  {
    hide Legal, ApplyAll, HasAction, Updated, ByTrade, AfterTick, World;
    var snap := snapshots[SymbolOf(book, id)];
    ScannedTrade(cfg, book, id, snapshots);
    StopTakenIff(cfg, ByTrade(book, id), TickOf(snap));
    AwakeFacts(cfg, ByTrade(book, id));
  }

  /**
   A complete scan touches a target of such a trade if and only if it was touched before, or the
   stop is not taken, no exit was made at an earlier target, and the candle trades at the target.
   */
  lemma ScanTouchesIff(cfg: Config, book: seq<Entry>, snapshots: map<string, Snapshot>, after: seq<Entry>, id: TradeId,
      i: nat)
    requires World(cfg, book) && Sane(cfg) && MarketApplied(cfg, book, snapshots, after)
    requires IsOpen(book, id) && Replay(ByTrade(book, id)).pending.None? && SymbolOf(book, id) in snapshots
    requires i < |ByTrade(book, id)[0].body.opening.targets|
    ensures var o, snap := ByTrade(book, id)[0].body.opening, snapshots[SymbolOf(book, id)];
            var high := if snap.candle.Some? then snap.candle.value.high else snap.latestClose;
            var low := if snap.candle.Some? then snap.candle.value.low else snap.latestClose;
            HasAction(ByTrade(after, id), Touch(i + 1)) <==>
            || HasAction(ByTrade(book, id), Touch(i + 1))
            || (!HasAction(ByTrade(after, id), SlTouched) && NoExit(ByTrade(after, id), i)
                && if o.direction.Long? then high >= o.targets[i] else low <= o.targets[i])
  {
    hide Legal, ApplyAll, HasAction, Updated, ByTrade, AfterTick, World;
    var snap := snapshots[SymbolOf(book, id)];
    ScannedTrade(cfg, book, id, snapshots);
    TargetTouchedIff(cfg, ByTrade(book, id), TickOf(snap), i);
  }

  /** The opening of a plan that the book can take. */
  function OpeningEntry(cfg: Config, plan: Plan, snap: Snapshot): Entry {
    var id := PaperTrade(plan.candidateId, plan.planId);
    Entry(plan.candidateId, id, plan.planId, Event(snap.timestamp, TradeOpened(PlannedOpening(cfg, plan, snap))))
  }

  lemma OpeningSubmitted(cfg: Config, book: seq<Entry>, plan: Plan, snap: Snapshot)
    requires World(cfg, book) && plan.candidateId != "" && plan.planId != ""
    ensures Submit(book, OpeningEntry(cfg, plan, snap)).Written? <==>
            forall e | e in book :: !(e.candidateId == plan.candidateId && e.event.body.TradeOpened?)
  {
    hide Legal, World, PlannedOpening, ByTrade, ApplyAll;
    var id := PaperTrade(plan.candidateId, plan.planId);
    assert CandidateHasOpen(book, plan.candidateId) <==>
      !(forall e | e in book :: !(e.candidateId == plan.candidateId && e.event.body.TradeOpened?));
    if ByTrade(book, id) != [] {
      TradeHasOpening(cfg, book, id);
    } else {
      ActionsNone();
    }
  }

  /**
   Which plans a scan opens: exactly the executable ones whose symbol is in no open trade and has
   a snapshot, whose descriptive fields are filled, whose opening the lifecycle can work on, and
   whose candidate was never opened.  Every other plan leaves the open trades as they are.
   */
  lemma PlanOpensIff(cfg: Config, book: seq<Entry>, plan: Plan, snapshots: map<string, Snapshot>, now: int)
    requires World(cfg, book) && plan.notional >= 0.0 && plan.candidateId != "" && plan.planId != ""
    ensures var after := PlanEffect(cfg, book, plan, snapshots, now);
            && ((exists e | e in after[|book|..] :: e.event.body.TradeOpened?) <==>
                && plan.executable && plan.symbol in snapshots
                && (forall other | other in OpenIds(book) :: SymbolOf(book, other) != plan.symbol)
                && Described(plan, snapshots[plan.symbol])
                && ValidOpening(PlannedOpening(cfg, plan, snapshots[plan.symbol]))
                && (forall e | e in book :: !(e.candidateId == plan.candidateId && e.event.body.TradeOpened?)))
            && ((exists e | e in after[|book|..] :: e.event.body.TradeOpened?) ==>
                  plan.symbol in snapshots && after == book + [OpeningEntry(cfg, plan, snapshots[plan.symbol])])
            && (after == book || (|after| == |book| + 1 && book == after[..|book|]))
  {
    hide Legal, World, PlannedOpening, ByTrade, ApplyAll, OpenIds, Submit, Described, ValidOpening, CriticalMissing;
    var after := PlanEffect(cfg, book, plan, snapshots, now);
    assert plan.symbol in OpenSymbols(book) <==> exists other | other in OpenIds(book) ::
        SymbolOf(book, other) == plan.symbol by {
      OpenIdsIff(book);
    }
    if plan.symbol in snapshots {
      CriticalCheckIsValid(cfg, plan, snapshots[plan.symbol]);
      OpeningSubmitted(cfg, book, plan, snapshots[plan.symbol]);
    }
    if after != book {
      assert after == book + [after[|book|]];
      assert after[|book|..] == [after[|book|]];
    } else {
      assert after[|book|..] == [];
    }
  }

  /**
   What a plan that is executable, with a free symbol, leaves when it is not opened: without a snapshot
   a rejection for that, with one a rejection that names the missing fields, if any are missing; each
   once per plan.
   */
  lemma PlanRejects(cfg: Config, book: seq<Entry>, plan: Plan, snapshots: map<string, Snapshot>, now: int)
    requires plan.executable && forall other | other in OpenIds(book) :: SymbolOf(book, other) != plan.symbol
    requires plan.candidateId != "" && plan.planId != ""
    ensures var after, id := PlanEffect(cfg, book, plan, snapshots, now), RejectedTrade(plan.planId);
            && (plan.symbol !in snapshots ==>
                  after == if HasAction(ByTrade(book, id), Refused) then book
                           else book + [Entry(plan.candidateId, id, plan.planId,
                                          Event(now, PaperRejected("missing_market_snapshot", plan.symbol,
                                                                   plan.strategy)))])
            && (plan.symbol in snapshots && MissingCritical(cfg, plan, snapshots[plan.symbol]) != [] ==>
                  var snap := snapshots[plan.symbol];
                  var cause := "critical_fields_missing:" + Join(MissingCritical(cfg, plan, snap));
                  after == if HasAction(ByTrade(book, id), Refused) then book
                           else book + [Entry(plan.candidateId, id, plan.planId,
                                          Event(snap.timestamp, PaperRejected(cause, plan.symbol, plan.strategy)))])
  {
    hide PlannedOpening, ByTrade, OpenIds, MissingCritical;
    assert plan.symbol !in OpenSymbols(book) by {
      OpenIdsIff(book);
    }
  }
}
