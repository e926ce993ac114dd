/** The reconstruction of all trade states from the log, as the service's loops do it. */
module PaperStates {
  import opened Wrappers
  import opened PaperEvents
  import opened PaperStore
  import opened PaperLifecycle
  import opened PaperProtocol
  import opened PaperGuarantees
  import opened PaperBook
  import opened PaperWorld

  ghost predicate Distinct<T>(s: seq<T>) {
    forall i, j | 0 <= i < j < |s| :: s[i] != s[j]
  }

  /** Groups the log by trade, in order of first appearance. */
  method GroupByTrade(log: seq<Entry>) returns (order: seq<TradeId>, grouped: map<TradeId, seq<Event>>)
    ensures Distinct(order) && forall id :: id in order <==> id in grouped
    ensures forall id :: id in grouped <==> ByTrade(log, id) != []
    ensures forall id | id in grouped :: grouped[id] == ByTrade(log, id)
  {
    order, grouped := [], map[];
    for i := 0 to |log|
      invariant Distinct(order) && forall id :: id in order <==> id in grouped
      invariant forall id :: id in grouped <==> ByTrade(log[..i], id) != []
      invariant forall id | id in grouped :: grouped[id] == ByTrade(log[..i], id)
    {
      var e := log[i];
      assert log[..i + 1] == log[..i] + [e];
      forall id ensures ByTrade(log[..i + 1], id) == if e.tradeId == id then ByTrade(log[..i], id) + [e.event]
        else ByTrade(log[..i], id) {
        ByTradePush(log[..i], e, id);
      }
      if e.tradeId in grouped {
        grouped := grouped[e.tradeId := grouped[e.tradeId] + [e.event]];
      } else {
        order := order + [e.tradeId];
        grouped := grouped[e.tradeId := [e.event]];
      }
    }
    assert log[..|log|] == log;
  }

  /** The first opening event of a trade, if it has one. */
  function OpenedBy(events: seq<Event>): (r: Option<Event>)
    ensures r.Some? ==> r.value.body.TradeOpened?
  {
    if events == [] then None
    else if events[0].body.TradeOpened? then Some(events[0])
    else OpenedBy(events[1..])
  }

  lemma {:induction false} OpenedByIsFirst(events: seq<Event>, i: nat)
    requires i < |events| && events[i].body.TradeOpened? && forall j | 0 <= j < i :: !events[j].body.TradeOpened?
    ensures OpenedBy(events) == Some(events[i])
  {
    if i > 0 {
      OpenedByIsFirst(events[1..], i - 1);
    }
  }

  /** The state of a trade: None when it was never opened. */
  function Rebuilt(events: seq<Event>): Option<State> {
    match OpenedBy(events)
    case None => None
    case Some(e) => Some(ApplyAll(Initial(e.body.opening), events))
  }

  method RebuildState(events: seq<Event>) returns (state: Option<State>)
    ensures state == Rebuilt(events)
  {
    var opened_: Option<Event> := None;
    var i := 0;
    while i < |events| && opened_.None?
      invariant 0 <= i <= |events|
      invariant OpenedBy(events) == if opened_.Some? then opened_ else OpenedBy(events[i..])
    {
      if events[i].body.TradeOpened? {
        opened_ := Some(events[i]);
      }
      i := i + 1;
    }
    if opened_.None? {
      return None;
    }
    var opening := opened_.value.body.opening;
    var s := Initial(opening);
    for k := 0 to |events|
      invariant s == ApplyAll(Initial(opening), events[..k])
    {
      assert events[..k + 1][..k] == events[..k];
      s := Apply(s, events[k]);
    }
    assert events[..|events|] == events;
    return Some(s);
  }

  lemma RebuiltIsReplay(events: seq<Event>)
    requires Opened(events)
    ensures Rebuilt(events) == Some(Replay(events))
  {
  }

  ghost predicate OpenState(log: seq<Entry>, id: TradeId) {
    Rebuilt(ByTrade(log, id)).Some? && !Rebuilt(ByTrade(log, id)).value.closed
  }

  /** All trades that are open, in log order, with their states. */
  method OpenStates(log: seq<Entry>) returns (order: seq<TradeId>, states: map<TradeId, State>)
    ensures Distinct(order) && forall id :: id in order <==> id in states
    ensures forall id :: id in states <==> OpenState(log, id)
    ensures forall id | id in states :: Some(states[id]) == Rebuilt(ByTrade(log, id))
  {
    var all, grouped := GroupByTrade(log);
    order, states := [], map[];
    for i := 0 to |all|
      invariant Distinct(order) && forall id :: id in order <==> id in states
      invariant forall id :: id in states <==> id in all[..i] && OpenState(log, id)
      invariant forall id | id in states :: Some(states[id]) == Rebuilt(ByTrade(log, id))
    {
      var id := all[i];
      assert all[..i + 1] == all[..i] + [id] && id !in all[..i] && id !in order;
      var state := RebuildState(grouped[id]);
      if state.Some? && !state.value.closed {
        order := order + [id];
        states := states[id := state.value];
      }
    }
    assert all[..|all|] == all;
  }

  /** In a reachable book the rebuilt open states are exactly the open trades, each with its replay. */
  lemma OpenStatesAreOpenTrades(cfg: Config, log: seq<Entry>, id: TradeId)
    requires AllLegal(cfg, log)
    ensures OpenState(log, id) <==> IsOpen(log, id)
    ensures IsOpen(log, id) ==> Rebuilt(ByTrade(log, id)) == Some(Replay(ByTrade(log, id)))
  {
    var events := ByTrade(log, id);
    assert TradeLegal(cfg, id, events);
    if events != [] && id.PaperTrade? {
      LegalStarted(cfg, events);
      RebuiltIsReplay(events);
    } else {
      NeverOpened(events);
    }
  }

  lemma {:induction false} NeverOpened(events: seq<Event>)
    requires forall e | e in events :: !e.body.TradeOpened?
    ensures OpenedBy(events).None?
  {
    if events != [] {
      NeverOpened(events[1..]);
    }
  }
}
