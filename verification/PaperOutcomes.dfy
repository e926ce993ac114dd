/**
 Outcomes: the report a reconstruction makes of the whole log.  One row per completed
 trade, an entry under `incomplete` for every other trade, and the counters of the
 data-quality report.
 */
module PaperOutcomes {
  import opened Wrappers
  import opened PaperEvents
  import opened PaperStore
  import opened PaperLifecycle
  import opened PaperProtocol
  import opened PaperCrashes
  import opened PaperGuarantees
  import opened PaperRecovery
  import opened PaperAccounting
  import opened PaperBook
  import opened PaperWorld
  import opened PaperStates

  datatype Row = Row(
    tradeId: TradeId, opening: Opening, entryTimestamp: int, exitTimestamp: int, exitPrice: real,
    gross: real, fees: real, funding: real, net: real, resultR: real, duration: int, reason: ExitReason,
    tpTouches: nat, slTouches: nat, breakEven: bool, profitLock: bool, partials: nat, events: nat)

  function Select(events: seq<Event>, p: Event -> bool): seq<Event> {
    if events == [] then []
    else
      var rest, last := Select(events[..|events| - 1], p), events[|events| - 1];
      if p(last) then rest + [last] else rest
  }

  predicate IsClose(e: Event) { e.body.TradeClosed? }

  predicate IsPartial(e: Event) { e.body.PartialExit? }

  predicate IsTargetTouch(e: Event) { e.body.TpTouch? }

  predicate IsStopTouch(e: Event) { e.body.SlTouch? }

  predicate IsBreakEven(e: Event) { e.body.BreakEvenActivated? }

  predicate IsProfitLock(e: Event) { e.body.ProfitLockActivated? }

  function Closes(events: seq<Event>): seq<Event> {
    Select(events, IsClose)
  }

  function RowOf(id: TradeId, opened_: Event, close: Event, events: seq<Event>): Row
    requires opened_.body.TradeOpened? && close.body.TradeClosed? && opened_.body.opening.riskCurrency > 0.0
  {
    var o := opened_.body.opening;
    var gross, fees, funding := Gross(events), o.entryFee + ExitFees(events), FundingSum(events);
    var net := gross - fees + funding;
    Row(id, o, opened_.timestamp, close.timestamp, close.body.price, gross, fees, funding, net, net / o.riskCurrency,
        close.timestamp - opened_.timestamp, close.body.reason,
        |Select(events, IsTargetTouch)|, |Select(events, IsStopTouch)|,
        Select(events, IsBreakEven) != [],
        Select(events, IsProfitLock) != [],
        |Select(events, IsPartial)|, |events|)
  }

  /** The outcome of a trade: None when it is not closed or a critical value is not positive. */
  function Outcome(id: TradeId, events: seq<Event>): Option<Row>
    ensures Outcome(id, events).Some? ==> Outcome(id, events).value.tradeId == id && Closes(events) != []
  {
    SelectedHold(events, IsClose);
    var first := OpenedBy(events);
    var closes := Closes(events);
    if first.None? || closes == [] then None
    else
      var o := first.value.body.opening;
      if o.fill <= 0.0 || o.stop <= 0.0 || o.size <= 0.0 || o.riskCurrency <= 0.0 then None
      else assert closes[0] in closes; Some(RowOf(id, first.value, closes[0], events))
  }

  lemma {:induction false} SelectedHold(events: seq<Event>, p: Event -> bool)
    ensures forall e :: e in Select(events, p) <==> e in events && p(e)
  {
    if events != [] {
      var before, last := events[..|events| - 1], events[|events| - 1];
      SelectedHold(before, p);
      assert events == before + [last];
    }
  }

  lemma {:induction false} ClosedMeansClose(s: State, events: seq<Event>)
    requires !s.closed
    ensures ApplyAll(s, events).closed <==> Closes(events) != []
    decreases |events|
  {
    if events != [] {
      ClosedMeansClose(s, events[..|events| - 1]);
    }
  }

  function PartialSize(events: seq<Event>): real {
    if events == [] then 0.0
    else
      var last := events[|events| - 1];
      PartialSize(events[..|events| - 1]) + if last.body.PartialExit? then last.body.size else 0.0
  }

  predicate HasPendingTransition(events: seq<Event>) {
    exists e | e in events :: e.body.TpTouch? || e.body.ExitReasonTransition?
  }

  /** An opened, unclosed trade. */
  predicate Unresolved(events: seq<Event>) {
    OpenedBy(events).Some? && Closes(events) == []
  }

  /** An unresolved trade in which some transition was started. */
  predicate Fragmented(events: seq<Event>) {
    && Unresolved(events)
    && (HasPendingTransition(events) || PartialSize(events) >= OpenedBy(events).value.body.opening.size - EPSILON)
  }

  datatype Report = Report(outcomes: seq<Row>, incomplete: seq<TradeId>, trades: nat, unresolved: nat, fragmented: nat)

  function TradeIds(log: seq<Entry>): set<TradeId> {
    set e | e in log :: e.tradeId
  }

  lemma TradeIdsIff(log: seq<Entry>)
    ensures forall id :: id in TradeIds(log) <==> ByTrade(log, id) != []
  {
    forall id ensures id in TradeIds(log) <==> ByTrade(log, id) != [] {
      if id in TradeIds(log) {
        var e :| e in log && e.tradeId == id;
        InByTrade(log, id, e.event);
      }
      if ByTrade(log, id) != [] {
        InByTrade(log, id, ByTrade(log, id)[0]);
      }
    }
  }

  ghost function UnresolvedIds(log: seq<Entry>): set<TradeId> {
    set id | id in TradeIds(log) && Unresolved(ByTrade(log, id))
  }

  ghost function FragmentedIds(log: seq<Entry>): set<TradeId> {
    set id | id in TradeIds(log) && Fragmented(ByTrade(log, id))
  }

  /** Every trade is reported once: with its row, or among the incomplete ones. */
  ghost predicate Partitions(log: seq<Entry>, r: Report) {
    && Distinct(r.outcomes) && Distinct(r.incomplete)
    && (forall row :: row in r.outcomes <==>
          row.tradeId in TradeIds(log) && Outcome(row.tradeId, ByTrade(log, row.tradeId)) == Some(row))
    && (forall id :: id in r.incomplete <==> id in TradeIds(log) && Outcome(id, ByTrade(log, id)).None?)
    && |r.outcomes| + |r.incomplete| == r.trades == |TradeIds(log)|
  }

  lemma {:induction false} DistinctSize<T>(s: seq<T>, elements: set<T>)
    requires Distinct(s) && forall x :: x in s <==> x in elements
    ensures |s| == |elements|
    decreases |s|
  {
    if s == [] {
      assert elements == {};
    } else {
      var x := s[|s| - 1];
      var before := s[..|s| - 1];
      assert s == before + [x];
      DistinctSize(before, elements - {x});
    }
  }

  /** The rows and the incomplete trades among the first trades of the reconstruction. */
  ghost predicate Reported(log: seq<Entry>, ids: seq<TradeId>, outcomes: seq<Row>, incomplete: seq<TradeId>) {
    && Distinct(outcomes) && Distinct(incomplete) && |outcomes| + |incomplete| == |ids|
    && (forall row :: row in outcomes <==>
          row.tradeId in ids && Outcome(row.tradeId, ByTrade(log, row.tradeId)) == Some(row))
    && (forall id :: id in incomplete <==> id in ids && Outcome(id, ByTrade(log, id)).None?)
  }

  lemma ReportedPush(log: seq<Entry>, ids: seq<TradeId>, outcomes: seq<Row>, incomplete: seq<TradeId>, id: TradeId)
    requires Reported(log, ids, outcomes, incomplete) && id !in ids
    ensures var row := Outcome(id, ByTrade(log, id));
            if row.Some? then Reported(log, ids + [id], outcomes + [row.value], incomplete)
            else Reported(log, ids + [id], outcomes, incomplete + [id])
  {
    var row := Outcome(id, ByTrade(log, id));
    assert row.Some? ==> row.value.tradeId == id;
    hide Outcome, ByTrade;
    DistinctPush(outcomes, row);
    DistinctPush(incomplete, Some(id));
  }

  lemma DistinctPush<T>(s: seq<T>, x: Option<T>)
    requires Distinct(s)
    ensures x.Some? && x.value !in s ==> Distinct(s + [x.value])
  {
  }

  /** The unresolved and fragmented trades among the first ones. */
  ghost predicate Counted(log: seq<Entry>, ids: seq<TradeId>, unresolved: set<TradeId>, fragmented: set<TradeId>) {
    && (forall id :: id in unresolved <==> id in ids && Unresolved(ByTrade(log, id)))
    && (forall id :: id in fragmented <==> id in ids && Fragmented(ByTrade(log, id)))
  }

  lemma CountedPush(log: seq<Entry>, ids: seq<TradeId>, unresolved: set<TradeId>, fragmented: set<TradeId>, id: TradeId)
    requires Counted(log, ids, unresolved, fragmented)
    ensures Counted(log, ids + [id], if Unresolved(ByTrade(log, id)) then unresolved + {id} else unresolved,
                    if Fragmented(ByTrade(log, id)) then fragmented + {id} else fragmented)
  {
    hide Unresolved, Fragmented, ByTrade;
  }

  lemma ReportedAll(log: seq<Entry>, order: seq<TradeId>, outcomes: seq<Row>, incomplete: seq<TradeId>,
      unresolved: set<TradeId>, fragmented: set<TradeId>)
    requires Reported(log, order, outcomes, incomplete) && Counted(log, order, unresolved, fragmented)
    requires Distinct(order) && forall id :: id in order <==> ByTrade(log, id) != []
    ensures Partitions(log, Report(outcomes, incomplete, |order|, |unresolved|, |fragmented|))
    ensures unresolved == UnresolvedIds(log) && fragmented == FragmentedIds(log)
  {
    hide Outcome, Unresolved, Fragmented, ByTrade, TradeIds;
    TradeIdsIff(log);
    DistinctSize(order, TradeIds(log));
  }

  lemma NoneCloses(log: seq<Entry>, order: seq<TradeId>)
    requires forall id :: id in order <==> ByTrade(log, id) != []
    requires forall k | 0 <= k < |order| :: |Closes(ByTrade(log, order[k]))| <= 1
    ensures forall id :: |Closes(ByTrade(log, id))| <= 1
  {
    hide ByTrade;
    forall id ensures |Closes(ByTrade(log, id))| <= 1 {
      if id in order {
        var k :| 0 <= k < |order| && order[k] == id;
      } else {
        assert ByTrade(log, id) == [];
      }
    }
  }

  /** The reconstruction; fails on the first trade with several terminal closes. */
  method Reconstruct(log: seq<Entry>) returns (r: Result<Report, TradeId>)
    ensures r.Ok? <==> forall id :: |Closes(ByTrade(log, id))| <= 1
    ensures r.Err? ==> |Closes(ByTrade(log, r.error))| > 1
    ensures r.Ok? ==> Partitions(log, r.value)
    ensures r.Ok? ==> r.value.unresolved == |UnresolvedIds(log)| && r.value.fragmented == |FragmentedIds(log)|
  {
    hide Outcome, Unresolved, Fragmented, ByTrade, Closes, Reported, Counted, Partitions, UnresolvedIds, FragmentedIds;
    var order, grouped := GroupByTrade(log);
    var outcomes: seq<Row> := [];
    var incomplete: seq<TradeId> := [];
    var unresolved: set<TradeId>, fragmented: set<TradeId> := {}, {};
    NothingReported(log);
    for i := 0 to |order|
      invariant forall k | 0 <= k < i :: |Closes(ByTrade(log, order[k]))| <= 1
      invariant Reported(log, order[..i], outcomes, incomplete) && Counted(log, order[..i], unresolved, fragmented)
    {
      var id := order[i];
      assert id in order;
      var events := grouped[id];
      assert order[..i + 1] == order[..i] + [id];
      if |Closes(events)| > 1 {
        return Err(id);
      }
      CountedPush(log, order[..i], unresolved, fragmented, id);
      ReportedPush(log, order[..i], outcomes, incomplete, id);
      FragmentedIsUnresolved(events);
      if Unresolved(events) {
        unresolved := unresolved + {id};
        if Fragmented(events) {
          fragmented := fragmented + {id};
        }
      }
      var row := Outcome(id, events);
      if row.Some? {
        outcomes := outcomes + [row.value];
      } else {
        incomplete := incomplete + [id];
      }
    }
    assert order[..|order|] == order;
    ReportedAll(log, order, outcomes, incomplete, unresolved, fragmented);
    NoneCloses(log, order);
    return Ok(Report(outcomes, incomplete, |order|, |unresolved|, |fragmented|));
  }

  lemma NothingReported(log: seq<Entry>)
    ensures forall ids: seq<TradeId> | ids == [] :: Reported(log, ids, [], []) && Counted(log, ids, {}, {})
  {
  }

  lemma FragmentedIsUnresolved(events: seq<Event>)
    ensures Fragmented(events) ==> Unresolved(events)
  {
  }

  /** The unresolved trades are exactly the ones the service still updates. */
  lemma UnresolvedAreOpenStates(log: seq<Entry>, id: TradeId)
    ensures OpenState(log, id) <==> id in UnresolvedIds(log)
  {
    var events := ByTrade(log, id);
    TradeIdsIff(log);
    if OpenedBy(events).Some? {
      ClosedMeansClose(Initial(OpenedBy(events).value.body.opening), events);
    }
  }

  lemma UnresolvedCountsOpenTrades(cfg: Config, log: seq<Entry>)
    requires World(cfg, log)
    ensures UnresolvedIds(log) == OpenIds(log) && |UnresolvedIds(log)| <= Cap(cfg)
  {
    hide UnresolvedIds, OpenIds, OpenState, Legal;
    OpenIdsIff(log);
    forall id ensures id in UnresolvedIds(log) <==> id in OpenIds(log) {
      UnresolvedAreOpenStates(log, id);
      OpenStatesAreOpenTrades(cfg, log, id);
    }
  }

  // ----- rows of legal trades -----

  lemma {:induction false} OneClose(cfg: Config, log: seq<Event>)
    requires Legal(cfg, log)
    ensures Closes(log) == if Replay(log).closed then [log[|log| - 1]] else []
    ensures Replay(log).closed ==> log[|log| - 1].body.TradeClosed?
  {
    hide Pnl, Fee, FeeBreakEven, HasAction;
    if |log| == 1 {
      ReplayOpening(log);
      assert Closes(log[..0]) == [];
    } else {
      var before, e := LegalPop(cfg, log);
      OneClose(cfg, before);
      assert Closes(log) == if e.body.TradeClosed? then Closes(before) + [e] else Closes(before);
    }
  }

  lemma {:induction false} NoFunding(cfg: Config, log: seq<Event>)
    requires Legal(cfg, log)
    ensures FundingSum(log) == 0.0
  {
    hide Pnl, Fee, FeeBreakEven, HasAction;
    if |log| == 1 {
      assert log[..0] == [];
      assert FundingSum([]) == 0.0;
    } else {
      var before, e := LegalPop(cfg, log);
      NoFunding(cfg, before);
      SumsPush(before, e);
    }
  }

  /** The counts and flags a row reports, as facts about the log's actions and the replayed state. */
  ghost predicate CountsAre(log: seq<Event>, s: State, touches: nat, stops: nat, partials: nat, arms: nat, locks: nat) {
    && touches == |s.touched| && partials == |s.completed|
    && stops == (if HasAction(log, SlTouched) then 1 else 0)
    && arms == (if HasAction(log, BreakEvenArmed) then 1 else 0)
    && locks == (if HasAction(log, ProfitLockArmed) then 1 else 0)
  }

  lemma FreshLevels(cfg: Config, log: seq<Event>, s: State, e: Event)
    requires KeyFacts(log, s) && Admissible(cfg, log, s, e) && !HasAction(log, ActionOf(e))
    ensures e.body.TpTouch? ==> e.body.level > 0 && e.body.level - 1 !in s.touched
    ensures e.body.PartialExit? ==> e.body.level > 0 && e.body.level - 1 !in s.completed
  {
    hide HasAction, FeeBreakEven, PricedExit;
    if e.body.TpTouch? || e.body.PartialExit? {
      var i := e.body.level - 1;
      assert HasAction(log, Touch(i + 1)) <==> i in s.touched;
      assert HasAction(log, Partial(i + 1)) <==> i in s.completed;
    }
  }

  lemma CountsStep(log: seq<Event>, s: State, e: Event, touches: nat, stops: nat, partials: nat, arms: nat, locks: nat)
    requires !HasAction(log, ActionOf(e)) && CountsAre(log, s, touches, stops, partials, arms, locks)
    requires e.body.TpTouch? ==> e.body.level > 0 && e.body.level - 1 !in s.touched
    requires e.body.PartialExit? ==> e.body.level > 0 && e.body.level - 1 !in s.completed
    ensures CountsAre(log + [e], Apply(s, e),
                      if e.body.TpTouch? then touches + 1 else touches,
                      if e.body.SlTouch? then stops + 1 else stops,
                      if e.body.PartialExit? then partials + 1 else partials,
                      if e.body.BreakEvenActivated? then arms + 1 else arms,
                      if e.body.ProfitLockActivated? then locks + 1 else locks)
  {
    hide HasAction;
    HasActionPush(log, e);
  }

  /** Every touched target, partial, stop touch, break-even and profit lock is counted once. */
  lemma {:induction false} RowCounts(cfg: Config, log: seq<Event>)
    requires Legal(cfg, log)
    ensures CountsAre(log, Replay(log), |Select(log, IsTargetTouch)|, |Select(log, IsStopTouch)|,
                      |Select(log, IsPartial)|, |Select(log, IsBreakEven)|, |Select(log, IsProfitLock)|)
  {
    hide Pnl, Fee, FeeBreakEven, CountsAre, KeyFacts, Admissible;
    if |log| == 1 {
      ReplayOpening(log);
      NothingSelected(log);
    } else {
      var before, e := LegalPop(cfg, log);
      RowCounts(cfg, before);
      LegalKeyFacts(cfg, before);
      FreshLevels(cfg, before, Replay(before), e);
      CountsStep(before, Replay(before), e,
        |Select(before, IsTargetTouch)|, |Select(before, IsStopTouch)|, |Select(before, IsPartial)|,
        |Select(before, IsBreakEven)|, |Select(before, IsProfitLock)|);
    }
  }

  lemma NothingSelected(log: seq<Event>)
    requires Opened(log) && |log| == 1
    ensures CountsAre(log, Initial(log[0].body.opening), |Select(log, IsTargetTouch)|, |Select(log, IsStopTouch)|,
                      |Select(log, IsPartial)|, |Select(log, IsBreakEven)|, |Select(log, IsProfitLock)|)
  {
    forall p: Event -> bool | !p(log[0]) ensures Select(log, p) == [] {
      assert log[..0] == [];
      assert Select(log[..0], p) == [];
    }
  }

  /**
   Which reachable trades have an outcome, and what it is worth: exactly the closed ones with
   a positive stop price.  Gross is the signed distance from the fill times the size over every
   exit, fees are the entry fee and half the round-trip rate on price times size of every exit,
   the net result is gross minus fees, and the counts are those of the log.
   */
  lemma RowOfLegalTrade(cfg: Config, id: TradeId, log: seq<Event>)
    requires Legal(cfg, log) && Opened(log)
    ensures Outcome(id, log).Some? <==> Replay(log).closed && log[0].body.opening.stop > 0.0
    ensures Outcome(id, log).Some? ==>
      var row, o, close := Outcome(id, log).value, log[0].body.opening, log[|log| - 1];
      && row.opening == o && row.funding == 0.0 && row.gross == Gross(log) && row.net == Net(log)
      && row.gross == (if o.direction.Long? then Distance(o.fill, log) else -Distance(o.fill, log))
      && row.fees == o.entryFee + cfg.roundtripFeeBps / 20000.0 * Turnover(log)
      && row.resultR * o.riskCurrency == row.net == row.gross - row.fees
      && close.body.TradeClosed? && row.exitTimestamp == close.timestamp && row.exitPrice == close.body.price
      && row.reason == close.body.reason && row.events == |log|
    ensures Outcome(id, log).Some? ==>
      var row, s := Outcome(id, log).value, Replay(log);
      && row.tradeId == id && row.entryTimestamp == log[0].timestamp
      && row.duration == log[|log| - 1].timestamp - log[0].timestamp
      && row.tpTouches == |s.touched| && row.partials == |s.completed| && (row.profitLock <==> s.profitLock)
      && row.slTouches == (if HasAction(log, SlTouched) then 1 else 0)
      && (row.breakEven <==> HasAction(log, BreakEvenArmed))
  {
    hide Legal, ApplyAll, Gross, ExitFees, FundingSum, Select, Turnover, Distance, HasAction;
    LegalKeyFacts(cfg, log);
    OneClose(cfg, log);
    NoFunding(cfg, log);
    SumsOfExits(cfg, log);
    RowCounts(cfg, log);
    PositiveRisk(log[0].body.opening);
    assert OpenedBy(log) == Some(log[0]);
  }

  lemma {:induction false} SelectFirst(events: seq<Event>, p: Event -> bool, k: nat)
    requires k < |events| && p(events[k]) && forall j | 0 <= j < k :: !p(events[j])
    ensures Select(events, p) != [] && Select(events, p)[0] == events[k]
    decreases |events|
  {
    if k < |events| - 1 {
      SelectFirst(events[..|events| - 1], p, k);
    } else {
      SelectNone(events[..k], p);
    }
  }

  lemma {:induction false} SelectNone(events: seq<Event>, p: Event -> bool)
    requires forall j | 0 <= j < |events| :: !p(events[j])
    ensures Select(events, p) == []
    decreases |events|
  {
    if events != [] {
      SelectNone(events[..|events| - 1], p);
    }
  }

  /**
   The outcome of any trade with an opening and a close, whatever else its log holds: there is one
   exactly where fill, stop, size and risk are positive; it takes the exit from the first close, and
   the net result is gross minus entry fee and exit fees plus funding.
   */
  lemma OutcomeOfAnyTrade(id: TradeId, events: seq<Event>, i: nat, k: nat)
    requires i < |events| && events[i].body.TradeOpened? && forall j | 0 <= j < i :: !events[j].body.TradeOpened?
    requires k < |events| && events[k].body.TradeClosed? && forall j | 0 <= j < k :: !events[j].body.TradeClosed?
    ensures var o, close := events[i].body.opening, events[k];
            && (Outcome(id, events).Some? <==> o.fill > 0.0 && o.stop > 0.0 && o.size > 0.0 && o.riskCurrency > 0.0)
            && (Outcome(id, events).Some? ==>
                  var row := Outcome(id, events).value;
                  && row.tradeId == id && row.opening == o && row.events == |events|
                  && row.entryTimestamp == events[i].timestamp && row.exitTimestamp == close.timestamp
                  && row.duration == close.timestamp - events[i].timestamp
                  && row.exitPrice == close.body.price && row.reason == close.body.reason
                  && row.gross == Gross(events) && row.fees == o.entryFee + ExitFees(events)
                  && row.funding == FundingSum(events) && row.net == row.gross - row.fees + row.funding
                  && row.resultR * o.riskCurrency == row.net)
  {
    hide Select, Gross, ExitFees, FundingSum;
    OpenedByIsFirst(events, i);
    SelectFirst(events, IsClose, k);
  }

  /** Without an opening or without a close there is no outcome. */
  lemma NoOutcome(id: TradeId, events: seq<Event>)
    requires (forall e | e in events :: !e.body.TradeOpened?) || (forall e | e in events :: !e.body.TradeClosed?)
    ensures Outcome(id, events).None?
  {
    if forall e | e in events :: !e.body.TradeOpened? {
      NeverOpened(events);
    } else {
      NoCloses(events);
    }
  }

  lemma PositiveRisk(o: Opening)
    requires ValidOpening(o)
    ensures o.riskCurrency > 0.0
  {
  }

  /** No outcome row loses more than the initial risk plus its fees; none is a loss before fees once a stop moved. */
  lemma RowLossBound(cfg: Config, id: TradeId, log: seq<Event>)
    requires Legal(cfg, log) && Opened(log) && Sided(log[0].body.opening) && cfg.breakEvenBufferPct >= 0.0
    requires Outcome(id, log).Some?
    ensures var row := Outcome(id, log).value;
            && row.gross >= -row.opening.riskCurrency
            && (StopMoved(log) ==> row.gross >= 0.0)
            && row.resultR * row.opening.riskCurrency == row.net >= -(row.opening.riskCurrency + row.fees)
  {
    hide Legal, ApplyAll, Outcome, HasAction;
    RowOfLegalTrade(cfg, id, log);
    LossBound(cfg, log);
  }

  /**
   Outcome stability: a row, once reported, is reported unchanged after any further run of
   updates, crashes, openings and rejections.
   */
  lemma OutcomeStable(cfg: Config, log: seq<Entry>, moves: seq<Move>, final: seq<Entry>, id: TradeId)
    requires World(cfg, log) && Sane(cfg) && Runs(cfg, log, moves, final)
    requires Outcome(id, ByTrade(log, id)).Some?
    ensures ByTrade(final, id) == ByTrade(log, id)
    ensures Outcome(id, ByTrade(final, id)) == Outcome(id, ByTrade(log, id))
  {
    hide Outcome, Legal, Exposed, OnePlanPerCandidate, Attributed, Runs, Select, ByTrade;
    RunsKeepWorld(cfg, log, moves, final);
    assert final == log + final[|log|..];
    ByTradePrefix(log, final[|log|..], id);
    var events, later := ByTrade(log, id), ByTrade(final, id);
    SelectedHold(events, IsClose);
    var close := Closes(events)[0];
    assert close in Select(events, IsClose);
    var i :| 0 <= i < |events| && events[i] == close;
    assert later[i] == close;
    assert TradeLegal(cfg, id, later);
    ClosedIsLast(cfg, later, i);
    assert later == events;
  }

  /** In a reachable book the reconstruction succeeds and its counters add up. */
  lemma ReportOfReachableBook(cfg: Config, log: seq<Entry>, r: Report)
    requires World(cfg, log) && Partitions(log, r)
    ensures forall id :: |Closes(ByTrade(log, id))| <= 1
    ensures forall row | row in r.outcomes :: row.tradeId.PaperTrade? && Legal(cfg, ByTrade(log, row.tradeId))
    ensures forall id | id in OpenIds(log) :: id in r.incomplete
  {
    hide Outcome, Legal, Exposed, OnePlanPerCandidate, Attributed, Select, ByTrade, TradeIds;
    TradeIdsIff(log);
    forall id
      ensures |Closes(ByTrade(log, id))| <= 1
      ensures Outcome(id, ByTrade(log, id)).Some? ==> id.PaperTrade? && Legal(cfg, ByTrade(log, id))
    {
      ClosesOfReachable(cfg, id, ByTrade(log, id));
      assert TradeLegal(cfg, id, ByTrade(log, id));
    }
    OpenIdsIff(log);
    forall id | id in OpenIds(log) ensures id in r.incomplete {
      assert TradeLegal(cfg, id, ByTrade(log, id));
      RowOfLegalTrade(cfg, id, ByTrade(log, id));
    }
  }

  lemma ClosesOfReachable(cfg: Config, id: TradeId, events: seq<Event>)
    requires TradeLegal(cfg, id, events)
    ensures |Closes(events)| <= 1
    ensures Outcome(id, events).Some? ==> id.PaperTrade? && Legal(cfg, events)
  {
    if id.PaperTrade? && Legal(cfg, events) {
      OneClose(cfg, events);
    } else {
      NoCloses(events);
    }
  }

  lemma {:induction false} NoCloses(events: seq<Event>)
    requires forall e | e in events :: !e.body.TradeClosed?
    ensures Closes(events) == []
    decreases |events|
  {
    if events != [] {
      NoCloses(events[..|events| - 1]);
    }
  }

  // ----- fragments -----

  lemma {:induction false} ExitedIsPartials(cfg: Config, log: seq<Event>)
    requires Legal(cfg, log) && !Replay(log).closed
    ensures PartialSize(log) == Replay(log).exited
  {
    hide Pnl, Fee, FeeBreakEven, HasAction;
    if |log| == 1 {
      ReplayOpening(log);
      assert PartialSize(log[..0]) == 0.0;
    } else {
      var before, e := LegalPop(cfg, log);
      OpenBeforeLast(cfg, log);
      LegalKeyFacts(cfg, before);
      ExitedIsPartials(cfg, before);
    }
  }

  /**
   What the fragment counter sees.  A started transition is a touched target or a persisted
   exit reason; the size test adds nothing but positions no larger than the tolerance.  A
   crash right after a stop touch alone is therefore not counted: `StopTouchNotCounted`.
   */
  lemma FragmentedIff(cfg: Config, log: seq<Event>)
    requires Legal(cfg, log) && Opened(log) && !Replay(log).closed
    ensures Fragmented(log) <==>
      Replay(log).touched != {} || (exists r :: HasAction(log, ExitTo(r))) || log[0].body.opening.size <= EPSILON
  {
    hide Pnl, Fee, FeeBreakEven, Legal, ApplyAll, Select, HasAction;
    var s := Replay(log);
    LegalKeyFacts(cfg, log);
    LegalQuantityFacts(cfg, log);
    OneClose(cfg, log);
    ExitedIsPartials(cfg, log);
    TransitionsIff(cfg, log);
    NothingExited(cfg, log);
    assert OpenedBy(log) == Some(log[0]);
  }

  /** An update that stops out and dies right after its SL_TOUCH. */
  lemma DiesAfterStopTouch(cfg: Config, log: seq<Event>, t: Tick) returns (after: seq<Event>)
    requires Legal(cfg, log) && Started(log) && !Replay(log).closed && Replay(log).pending.None?
    requires Replay(log).opening.fill > 0.0 && StopHit(Replay(log), t)
    ensures after == Advance(cfg, log, Step(t, |Observations(Replay(log), t)| + 1)).log
    ensures Opened(after) && Legal(cfg, after) && !Replay(after).closed && Replay(after).pending.Some?
    ensures Replay(after).touched == Replay(log).touched && forall r :: !HasAction(after, ExitTo(r))
  {
    hide Legal, ApplyAll, Good, Exec, HasAction, Pnl, Fee, ExcursionPct, StopHit, Observations;
    var s := Replay(log);
    var touch := Event(t.timestamp, SlTouch(s.stop, t.mark));
    var l1 := ObservationsPlay(cfg, log, s, t);
    LegalKeyFacts(cfg, l1);
    LegalIntentFacts(cfg, l1);
    after := PlaysOne(cfg, l1, touch);
    PlaysThen(cfg, log, Observations(s, t), l1, [touch], after);
    var es := Observations(s, t) + [touch];
    assert Program(cfg, s, t) == es + ClosePair(cfg, s.opening, t.timestamp, s.stop, StopLoss, s.remaining);
    assert Take(Program(cfg, s, t), |es|) == es;
  }

  /**
   Every update that stops out a trade no target of which was touched has a crash point
   after which a terminal intent is pending and the fragment counter sees nothing.
   */
  lemma StopTouchNotCounted(cfg: Config, log: seq<Event>, t: Tick)
    requires Legal(cfg, log) && Started(log) && !Replay(log).closed && Replay(log).pending.None?
    requires Replay(log).opening.fill > 0.0 && Replay(log).touched == {} && StopHit(Replay(log), t)
    requires log[0].body.opening.size > EPSILON
    ensures var after := Advance(cfg, log, Step(t, |Observations(Replay(log), t)| + 1)).log;
            && Legal(cfg, after) && !Replay(after).closed && Replay(after).pending.Some? && !Fragmented(after)
  {
    hide Legal, ApplyAll, Fragmented, HasAction, Advance, Observations, StopHit;
    var after := DiesAfterStopTouch(cfg, log, t);
    FragmentedIff(cfg, after);
  }

  /** The trade of the examples, stopped out by one candle and dead right after its SL_TOUCH. */
  lemma PendingNotCounted()
    ensures var t := Tick(1, 89.0, Some(Range(99.0, 88.0)));
            var after := Advance(SETTINGS, OpenLog(0, TRADE), Step(t, |Observations(Initial(TRADE), t)| + 1)).log;
            Legal(SETTINGS, after) && Replay(after).pending.Some? && !Fragmented(after)
  {
    hide Legal, ApplyAll, Advance, Fragmented, Observations;
    TradeOpens();
    StopTouchNotCounted(SETTINGS, OpenLog(0, TRADE), Tick(1, 89.0, Some(Range(99.0, 88.0))));
  }

  lemma TransitionsIff(cfg: Config, log: seq<Event>)
    requires Legal(cfg, log) && Opened(log)
    ensures HasPendingTransition(log) <==> Replay(log).touched != {} || exists r :: HasAction(log, ExitTo(r))
  {
    hide Legal, ApplyAll, Admissible, Pnl, Fee, FeeBreakEven;
    LegalKeyFacts(cfg, log);
    if HasPendingTransition(log) {
      var e :| e in log && (e.body.TpTouch? || e.body.ExitReasonTransition?);
      assert HasAction(log, ActionOf(e));
      if e.body.TpTouch? {
        TouchLevels(cfg, log, e);
        assert e.body.level - 1 in Replay(log).touched;
      }
    }
    if i: nat :| i in Replay(log).touched {
      assert HasAction(log, Touch(i + 1));
    }
  }

  lemma {:induction false} TouchLevels(cfg: Config, log: seq<Event>, e: Event)
    requires Legal(cfg, log) && e in log && e.body.TpTouch?
    ensures e.body.level >= 1
  {
    if |log| > 1 {
      var before, last := LegalPop(cfg, log);
      if e in before {
        TouchLevels(cfg, before, e);
      }
    }
  }

  lemma {:induction false} NothingExited(cfg: Config, log: seq<Event>)
    requires Legal(cfg, log) && !Replay(log).closed
    ensures Replay(log).completed == {} <==> Replay(log).exited == 0.0
    ensures Replay(log).exited >= 0.0
  {
    hide Pnl, Fee, FeeBreakEven, HasAction;
    if |log| == 1 {
      ReplayOpening(log);
    } else {
      var before, e := LegalPop(cfg, log);
      OpenBeforeLast(cfg, log);
      LegalKeyFacts(cfg, before);
      NothingExited(cfg, before);
    }
  }
}
