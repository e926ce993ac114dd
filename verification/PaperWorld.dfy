/**
 What holds of the whole book in every reachable log, crashes and restarts included.
 */
module PaperWorld {
  import opened Wrappers
  import opened PaperEvents
  import opened PaperStore
  import opened PaperLifecycle
  import opened PaperProtocol
  import opened PaperCrashes
  import opened PaperGuarantees
  import opened PaperBook

  ghost predicate TradeLegal(cfg: Config, id: TradeId, events: seq<Event>) {
    || events == []
    || (id.PaperTrade? && Legal(cfg, events))
    || (id.RejectedTrade? && forall e | e in events :: e.body.PaperRejected?)
  }

  ghost predicate AllLegal(cfg: Config, log: seq<Entry>) {
    forall id :: TradeLegal(cfg, id, ByTrade(log, id))
  }

  ghost predicate Attributed(log: seq<Entry>) {
    forall e | e in log && e.tradeId.PaperTrade? ::
      e.candidateId == e.tradeId.candidateId && e.planId == e.tradeId.planId && e.candidateId != "" && e.planId != ""
  }

  /** Open trades have pairwise distinct symbols and number at most the cap. */
  ghost predicate Exposed(cfg: Config, log: seq<Entry>) {
    && |OpenIds(log)| <= Cap(cfg)
    && forall a, b | a in OpenIds(log) && b in OpenIds(log) && a != b :: SymbolOf(log, a) != SymbolOf(log, b)
  }

  /** A candidate is opened under at most one plan. */
  ghost predicate OnePlanPerCandidate(log: seq<Entry>) {
    forall a: TradeId, b: TradeId | a.PaperTrade? && b.PaperTrade? && a.candidateId == b.candidateId
      && ByTrade(log, a) != [] && ByTrade(log, b) != [] :: a == b
  }

  ghost predicate World(cfg: Config, log: seq<Entry>) {
    AllLegal(cfg, log) && Attributed(log) && Exposed(cfg, log) && OnePlanPerCandidate(log)
  }

  lemma EmptyWorld(cfg: Config)
    ensures World(cfg, [])
  {
    assert OpenIds([]) == {};
  }

  lemma OpenIdsIff(log: seq<Entry>)
    ensures forall id :: id in OpenIds(log) <==> IsOpen(log, id)
  {
    forall id | IsOpen(log, id) ensures id in OpenIds(log) {
      var e := ByTrade(log, id)[0];
      InByTrade(log, id, e);
      var x :| x in log && x.tradeId == id && x.event == e;
    }
  }

  lemma SubsetSize<T>(a: set<T>, b: set<T>)
    requires a <= b
    ensures |a| <= |b|
  {
    assert b == a + (b - a);
  }

  // ----- updates -----

  lemma UpdatedEvents(cfg: Config, log: seq<Entry>, id: TradeId, step: Step)
    requires IsOpen(log, id)
    ensures forall other :: ByTrade(UpdatedLog(cfg, log, id, step), other)
                            == if other == id then Advance(cfg, ByTrade(log, id), step).log else ByTrade(log, other)
  {
    hide Advance, Replay;
    var events := ByTrade(log, id);
    var next := Advance(cfg, events, step).log;
    forall other ensures ByTrade(UpdatedLog(cfg, log, id, step), other) == if other == id then next
      else ByTrade(log, other) {
      ByTradeLift(log, id, next[|events|..], other);
      assert events + next[|events|..] == next;
    }
  }

  lemma UpdateKeepsLegal(cfg: Config, log: seq<Entry>, id: TradeId, step: Step)
    requires AllLegal(cfg, log) && IsOpen(log, id) && Sane(cfg)
    ensures AllLegal(cfg, UpdatedLog(cfg, log, id, step))
  {
    UpdatedEvents(cfg, log, id, step);
    assert TradeLegal(cfg, id, ByTrade(log, id));
    AdvanceLegal(cfg, ByTrade(log, id), step);
    hide Legal, Advance, Replay, ByTrade, UpdatedLog;
    forall other ensures TradeLegal(cfg, other, ByTrade(UpdatedLog(cfg, log, id, step), other)) {
      assert TradeLegal(cfg, other, ByTrade(log, other));
    }
  }

  lemma UpdateKeepsWorld(cfg: Config, log: seq<Entry>, id: TradeId, step: Step)
    requires World(cfg, log) && IsOpen(log, id) && Sane(cfg)
    ensures World(cfg, UpdatedLog(cfg, log, id, step))
  {
    hide AllLegal, Exposed, Attributed, OnePlanPerCandidate, Advance, ByTrade, Replay;
    var final := UpdatedLog(cfg, log, id, step);
    UpdateKeepsLegal(cfg, log, id, step);
    UpdatedEvents(cfg, log, id, step);
    UpdateKeepsExposure(cfg, log, id, final);
    UpdateKeepsAttribution(cfg, log, id, final);
  }

  lemma OpenIdsShrink(log: seq<Entry>, id: TradeId, final: seq<Entry>)
    requires IsOpen(log, id) && forall other | other != id :: ByTrade(final, other) == ByTrade(log, other)
    ensures OpenIds(final) <= OpenIds(log)
  {
    OpenIdsIff(log);
    OpenIdsIff(final);
    forall x | x in OpenIds(final) ensures x in OpenIds(log) {
      assert IsOpen(final, x);
    }
  }

  lemma UpdateKeepsExposure(cfg: Config, log: seq<Entry>, id: TradeId, final: seq<Entry>)
    requires Exposed(cfg, log) && IsOpen(log, id)
    requires forall other | other != id :: ByTrade(final, other) == ByTrade(log, other)
    requires ByTrade(log, id) <= ByTrade(final, id)
    ensures Exposed(cfg, final)
  {
    OpenIdsShrink(log, id, final);
    OpenIdsIff(log);
    OpenIdsIff(final);
    SubsetSize(OpenIds(final), OpenIds(log));
    hide OpenIds, Replay, ByTrade;
    forall a, b | a in OpenIds(final) && b in OpenIds(final) && a != b
      ensures SymbolOf(final, a) != SymbolOf(final, b)
    {
      assert SymbolOf(final, a) == SymbolOf(log, a) && SymbolOf(final, b) == SymbolOf(log, b);
    }
  }

  lemma UpdateKeepsAttribution(cfg: Config, log: seq<Entry>, id: TradeId, final: seq<Entry>)
    requires Attributed(log) && OnePlanPerCandidate(log) && IsOpen(log, id)
    requires exists es :: final == log + Lift(id, es)
    requires forall other | other != id :: ByTrade(final, other) == ByTrade(log, other)
    ensures Attributed(final) && OnePlanPerCandidate(final)
  {
    var e := ByTrade(log, id)[0];
    InByTrade(log, id, e);
  }

  // ----- openings and rejections -----

  lemma SubmitKeepsEvents(log: seq<Entry>, e: Entry)
    ensures forall id :: ByTrade(SubmitTo(log, e), id)
                         == if Submit(log, e).Written? && e.tradeId == id then ByTrade(log, id) + [e.event]
                           else ByTrade(log, id)
  {
    forall id ensures ByTrade(log + [e], id) == if e.tradeId == id then ByTrade(log, id) + [e.event]
      else ByTrade(log, id) {
      ByTradePush(log, e, id);
    }
  }

  lemma OpeningIsFirst(cfg: Config, log: seq<Entry>, id: TradeId, e: Entry)
    requires World(cfg, log) && id.PaperTrade? && e.tradeId == id && e.event.body.TradeOpened?
    requires e.candidateId == id.candidateId
    requires Submit(log, e).Written?
    ensures ByTrade(log, id) == []
    ensures forall other: TradeId | other.PaperTrade? && other.candidateId == id.candidateId ::
      ByTrade(log, other) == []
  {
    forall other: TradeId | other.PaperTrade? && other.candidateId == id.candidateId
      ensures ByTrade(log, other) == []
    {
      hide World, Submit, ByTrade, CandidateHasOpen;
      WrittenOpening(log, e);
      if ByTrade(log, other) != [] {
        TradeHasOpening(cfg, log, other);
      }
    }
  }

  lemma WrittenOpening(log: seq<Entry>, e: Entry)
    requires Submit(log, e).Written? && e.event.body.TradeOpened?
    ensures !CandidateHasOpen(log, e.candidateId) && e.candidateId != "" && e.planId != ""
  {
  }

  lemma TradeHasOpening(cfg: Config, log: seq<Entry>, id: TradeId)
    requires World(cfg, log) && id.PaperTrade? && ByTrade(log, id) != []
    ensures CandidateHasOpen(log, id.candidateId)
  {
    var events := ByTrade(log, id);
    assert TradeLegal(cfg, id, events);
    InByTrade(log, id, events[0]);
    var x :| x in log && x.tradeId == id && x.event == events[0];
    assert x.event.body.TradeOpened?;
  }

  lemma AdmitKeepsWorld(cfg: Config, log: seq<Entry>, m: Move)
    requires World(cfg, log) && m.Admit? && Allowed(cfg, log, m)
    ensures World(cfg, Next(cfg, log, m))
  {
    hide AllLegal, Legal, ApplyAll, Exposed, OpenIds, Submit, ByTrade, ValidOpening, OnePlanPerCandidate, Attributed;
    var id, o := m.id, m.opening;
    var e := AdmitEntry(id, m.timestamp, o);
    var final := Next(cfg, log, m);
    if Submit(log, e).Written? {
      OpeningIsFirst(cfg, log, id, e);
      SubmitKeepsEvents(log, e);
      assert ByTrade(final, id) == [e.event];
      AdmitKeepsExposure(cfg, log, id, o, final);
      FreshTradeLegal(cfg, e.event);
      AdmitKeepsLegal(cfg, log, id, e, final);
      WrittenOpening(log, e);
      AdmitKeepsAttribution(log, e);
      AdmitKeepsOnePlan(log, id, final);
    }
  }

  lemma AdmitKeepsAttribution(log: seq<Entry>, e: Entry)
    requires Attributed(log) && e.tradeId.PaperTrade? && e.candidateId != "" && e.planId != ""
    requires e.candidateId == e.tradeId.candidateId && e.planId == e.tradeId.planId
    ensures Attributed(log + [e])
  {
  }

  lemma AdmitKeepsOnePlan(log: seq<Entry>, id: TradeId, final: seq<Entry>)
    requires OnePlanPerCandidate(log) && id.PaperTrade?
    requires forall other | other != id :: ByTrade(final, other) == ByTrade(log, other)
    requires forall other: TradeId | other.PaperTrade? && other.candidateId == id.candidateId ::
      ByTrade(log, other) == []
    ensures OnePlanPerCandidate(final)
  {
    hide ByTrade;
  }

  lemma AdmitKeepsLegal(cfg: Config, log: seq<Entry>, id: TradeId, e: Entry, final: seq<Entry>)
    requires AllLegal(cfg, log) && id.PaperTrade? && e.event.body.TradeOpened? && Legal(cfg, [e.event])
    requires forall other :: ByTrade(final, other) == if other == id then [e.event] else ByTrade(log, other)
    ensures AllLegal(cfg, final)
  {
    hide Legal, ByTrade;
    forall other ensures TradeLegal(cfg, other, ByTrade(final, other)) {
      assert TradeLegal(cfg, other, ByTrade(log, other));
    }
  }

  lemma FreshTradeLegal(cfg: Config, e: Event)
    requires e.body.TradeOpened? && ValidOpening(e.body.opening)
    ensures Legal(cfg, [e]) && !Replay([e]).closed
  {
    ReplayOpening([e]);
  }

  lemma AdmitKeepsExposure(cfg: Config, log: seq<Entry>, id: TradeId, o: Opening, final: seq<Entry>)
    requires Exposed(cfg, log) && id.PaperTrade? && |OpenIds(log)| < Cap(cfg)
    requires forall other | other in OpenIds(log) :: SymbolOf(log, other) != o.symbol
    requires ByTrade(log, id) == [] && |ByTrade(final, id)| == 1 && ByTrade(final, id)[0].body == TradeOpened(o)
    requires forall other | other != id :: ByTrade(final, other) == ByTrade(log, other)
    ensures Exposed(cfg, final)
  {
    hide Replay;
    OpenIdsIff(log);
    OpenIdsIff(final);
    assert OpenIds(final) <= OpenIds(log) + {id};
    SubsetSize(OpenIds(final), OpenIds(log) + {id});
  }

  lemma RefuseKeepsLegal(cfg: Config, log: seq<Entry>, e: Entry)
    requires AllLegal(cfg, log) && e.tradeId.RejectedTrade? && e.event.body.PaperRejected?
    ensures AllLegal(cfg, SubmitTo(log, e))
  {
    SubmitKeepsEvents(log, e);
    hide Legal, Submit, ByTrade, SubmitTo;
    forall id ensures TradeLegal(cfg, id, ByTrade(SubmitTo(log, e), id)) {
      assert TradeLegal(cfg, id, ByTrade(log, id));
    }
  }

  lemma RefuseKeepsExposure(cfg: Config, log: seq<Entry>, final: seq<Entry>)
    requires Exposed(cfg, log) && forall id: TradeId | id.PaperTrade? :: ByTrade(final, id) == ByTrade(log, id)
    ensures Exposed(cfg, final)
  {
    OpenIdsIff(log);
    OpenIdsIff(final);
    hide ByTrade, Replay;
    assert OpenIds(final) == OpenIds(log);
  }

  lemma RefuseKeepsWorld(cfg: Config, log: seq<Entry>, m: Move)
    requires World(cfg, log) && m.Refuse? && Allowed(cfg, log, m)
    ensures World(cfg, Next(cfg, log, m))
  {
    var e := RefuseEntry(m.candidateId, m.planId, m.timestamp, m.cause, m.symbol, m.strategy);
    RefuseKeepsLegal(cfg, log, e);
    SubmitKeepsEvents(log, e);
    RefuseKeepsExposure(cfg, log, SubmitTo(log, e));
    hide AllLegal, Exposed, Submit, ByTrade;
  }

  lemma NextKeepsWorld(cfg: Config, log: seq<Entry>, m: Move)
    requires World(cfg, log) && Allowed(cfg, log, m) && Sane(cfg)
    ensures World(cfg, Next(cfg, log, m)) && log <= Next(cfg, log, m)
  {
    hide World, Legal, OpenIds, Advance, Submit;
    match m
    case Update(id, step) => UpdateKeepsWorld(cfg, log, id, step);
    case Admit(_, _, _) => AdmitKeepsWorld(cfg, log, m);
    case Refuse(_, _, _, _, _, _) => RefuseKeepsWorld(cfg, log, m);
  }

  /**
   Every reachable book: trades follow their protocol, are attributed to one candidate and
   plan, and open trades have pairwise distinct symbols and number at most the cap.
   The log only grows.
   */
  lemma {:induction false} RunsKeepWorld(cfg: Config, log: seq<Entry>, moves: seq<Move>, final: seq<Entry>)
    requires World(cfg, log) && Sane(cfg) && Runs(cfg, log, moves, final)
    ensures World(cfg, final) && log <= final
    decreases |moves|
  {
    hide World, Next, Allowed;
    if moves != [] {
      NextKeepsWorld(cfg, log, moves[0]);
      RunsKeepWorld(cfg, Next(cfg, log, moves[0]), moves[1..], final);
    }
  }

  // ----- the exposure bookkeeping of a scan -----

  ghost function OpenSymbols(log: seq<Entry>): set<string> {
    set id | id in OpenIds(log) :: SymbolOf(log, id)
  }

  lemma {:induction false} ImageSize(log: seq<Entry>, ids: set<TradeId>)
    requires forall id | id in ids :: Opened(ByTrade(log, id))
    requires forall a, b | a in ids && b in ids && a != b :: SymbolOf(log, a) != SymbolOf(log, b)
    ensures |set id | id in ids :: SymbolOf(log, id)| == |ids|
    decreases |ids|
  {
    var image := set id | id in ids :: SymbolOf(log, id);
    if ids == {} {
      assert image == {};
    } else {
      var x :| x in ids;
      var rest := ids - {x};
      ImageSize(log, rest);
      assert image == (set id | id in rest :: SymbolOf(log, id)) + {SymbolOf(log, x)};
    }
  }

  lemma OpenSymbolsSize(cfg: Config, log: seq<Entry>)
    requires Exposed(cfg, log)
    ensures |OpenSymbols(log)| == |OpenIds(log)|
  {
    ImageSize(log, OpenIds(log));
  }

  lemma FreshTradeOpens(log: seq<Entry>, id: TradeId, e: Event, final: seq<Entry>)
    requires id.PaperTrade? && e.body.TradeOpened? && ValidOpening(e.body.opening)
    requires ByTrade(log, id) == [] && ByTrade(final, id) == [e]
    requires forall other | other != id :: ByTrade(final, other) == ByTrade(log, other)
    ensures OpenIds(final) == OpenIds(log) + {id} && id !in OpenIds(log)
  {
    ReplayOpening([e]);
    OpenIdsIff(log);
    OpenIdsIff(final);
    hide OpenIds, Replay;
    assert IsOpen(final, id);
    forall other | other != id ensures IsOpen(final, other) <==> IsOpen(log, other) {
    }
  }

  lemma FreshTradeSymbols(log: seq<Entry>, id: TradeId, e: Event, final: seq<Entry>)
    requires e.body.TradeOpened? && ByTrade(final, id) == [e]
    requires OpenIds(final) == OpenIds(log) + {id} && id !in OpenIds(log)
    requires forall other | other != id :: ByTrade(final, other) == ByTrade(log, other)
    ensures OpenSymbols(final) == OpenSymbols(log) + {e.body.opening.symbol}
  {
    OpenIdsIff(log);
    OpenIdsIff(final);
    hide OpenIds, Replay, ByTrade;
    forall symbol | symbol in OpenSymbols(log) ensures symbol in OpenSymbols(final) {
      var x :| x in OpenIds(log) && SymbolOf(log, x) == symbol;
      assert x in OpenIds(final) && SymbolOf(final, x) == symbol;
    }
    assert id in OpenIds(final) && SymbolOf(final, id) == e.body.opening.symbol;
    forall symbol | symbol in OpenSymbols(final) ensures symbol in OpenSymbols(log) + {e.body.opening.symbol} {
      var x :| x in OpenIds(final) && SymbolOf(final, x) == symbol;
      assert x != id ==> x in OpenIds(log) && SymbolOf(log, x) == symbol;
    }
  }

  lemma AdmitEffect(cfg: Config, log: seq<Entry>, m: Move)
    requires World(cfg, log) && m.Admit? && Allowed(cfg, log, m)
    ensures var final := Next(cfg, log, m);
            if Submit(log, AdmitEntry(m.id, m.timestamp, m.opening)).Written?
            then |OpenIds(final)| == |OpenIds(log)| + 1 && OpenSymbols(final) == OpenSymbols(log) + {m.opening.symbol}
            else final == log
  {
    hide Submit, Legal, Replay, OpenIds, OpenSymbols, World, ValidOpening;
    var e := AdmitEntry(m.id, m.timestamp, m.opening);
    var final := Next(cfg, log, m);
    if Submit(log, e).Written? {
      OpeningIsFirst(cfg, log, m.id, e);
      SubmitKeepsEvents(log, e);
      assert ByTrade(final, m.id) == [e.event];
      FreshTradeOpens(log, m.id, e.event, final);
      FreshTradeSymbols(log, m.id, e.event, final);
    }
  }

  lemma RefuseEffect(cfg: Config, log: seq<Entry>, m: Move)
    requires m.Refuse?
    ensures var final := Next(cfg, log, m); OpenIds(final) == OpenIds(log) && OpenSymbols(final) == OpenSymbols(log)
  {
    var e := RefuseEntry(m.candidateId, m.planId, m.timestamp, m.cause, m.symbol, m.strategy);
    SubmitKeepsEvents(log, e);
    OpenIdsIff(log);
    OpenIdsIff(SubmitTo(log, e));
    hide Submit, OpenIds, Replay, ByTrade;
  }
}
