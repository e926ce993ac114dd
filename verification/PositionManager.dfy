/**
 The position manager: one pass over all recorded positions against what the exchange
 reports, and what holds over any number of passes.
 */
module PositionManager {
  import opened Wrappers
  import opened PositionRecords
  import opened PositionTriggers
  import opened ExchangeOracle
  import opened PositionLifecycle

  /** A position as the exchange reports it: `quantity` makes it open, `size` is what is read from it. */
  datatype Live = Live(
    symbol: string, quantity: real, size: real, entry: real, mark: real, long: Option<bool>, stop: real,
    tps: seq<real>, tpsl: bool)

  datatype Prices = Prices(close: real, high: real, low: real)

  datatype Market = Market(
    prices: map<string, Prices>, executionLog: map<string, Protection>, closeReasons: map<string, string>,
    pressureFailed: set<(string, bool)>, now: real, useSnapshot: bool)

  function OpenSymbols(live: seq<Live>): set<string> {
    set l | l in live && l.quantity > 0.0 :: l.symbol
  }

  lemma HeldIff(live: seq<Live>, symbol: string)
    ensures symbol in OpenSymbols(live) <==> exists l | l in live :: l.symbol == symbol && l.quantity > 0.0
  {
  }

  function FindLive(live: seq<Live>, symbol: string): Option<Live> {
    if live == [] then None else if live[0].symbol == symbol then Some(live[0]) else FindLive(live[1..], symbol)
  }

  function LiveSize(live: seq<Live>, symbol: string): real {
    var l := FindLive(live, symbol);
    if l.Some? && l.value.size > 0.0 then l.value.size else 0.0
  }

  /** Snapshot prices; without a snapshot context the marks of the exchange, the last one for a symbol, come first. */
  function PricesOf(m: Market, live: seq<Live>, symbol: string): Option<Prices> {
    if m.useSnapshot || live == [] then if symbol in m.prices then Some(m.prices[symbol]) else None
    else
      var last := live[|live| - 1];
      if last.symbol == symbol && symbol != "" && last.mark > 0.0 then Some(Prices(last.mark, last.mark, last.mark))
      else PricesOf(m, live[..|live| - 1], symbol)
  }

  function ViewOf(m: Market, live: seq<Live>, p: Position): View {
    var prices := PricesOf(m, live, p.id.symbol);
    var quote := if prices.Some? then prices.value else Prices(p.lastPrice, p.lastPrice, p.lastPrice);
    var l := FindLive(live, p.id.symbol);
    View(quote.close, quote.high, quote.low, LiveSize(live, p.id.symbol), l.Some? && l.value.tpsl,
         if p.id.symbol in m.executionLog then Some(m.executionLog[p.id.symbol]) else None,
         m.now, (p.id.symbol, p.id.long) in m.pressureFailed, m.useSnapshot)
  }

  lemma {:induction false} FindLiveIsFirst(live: seq<Live>, symbol: string, i: nat)
    requires i <= |live| && forall j | 0 <= j < i :: live[j].symbol != symbol
    requires i < |live| ==> live[i].symbol == symbol
    ensures FindLive(live, symbol) == if i < |live| then Some(live[i]) else None
    decreases |live|
  {
    if i > 0 {
      FindLiveIsFirst(live[1..], symbol, i - 1);
    }
  }

  lemma {:induction false} PricesAreLastMark(m: Market, live: seq<Live>, symbol: string, i: nat)
    requires i <= |live| && forall j | i <= j < |live| ::
               m.useSnapshot || symbol == "" || live[j].symbol != symbol || live[j].mark <= 0.0
    requires i > 0 ==> !m.useSnapshot && symbol != "" && live[i - 1].symbol == symbol && live[i - 1].mark > 0.0
    ensures PricesOf(m, live, symbol) ==
            if i > 0 then Some(Prices(live[i - 1].mark, live[i - 1].mark, live[i - 1].mark))
            else if symbol in m.prices then Some(m.prices[symbol]) else None
    decreases |live|
  {
    if i < |live| && !m.useSnapshot {
      PricesAreLastMark(m, live[..|live| - 1], symbol, i);
    }
  }

  /**
   What a pass sees of a record: the mark of the last exchange position in its symbol that has one,
   the snapshot prices where there is none or where a snapshot is in use, its own last price failing
   both; and the size of the first exchange position in its symbol.
   */
  lemma ViewInNumbers(m: Market, live: seq<Live>, p: Position, last: nat, first: nat)
    requires last <= |live| && forall j | last <= j < |live| ::
               m.useSnapshot || p.id.symbol == "" || live[j].symbol != p.id.symbol || live[j].mark <= 0.0
    requires last > 0 ==>
      !m.useSnapshot && p.id.symbol != "" && live[last - 1].symbol == p.id.symbol && live[last - 1].mark > 0.0
    requires first <= |live| && (first < |live| ==> live[first].symbol == p.id.symbol)
    requires forall j | 0 <= j < first :: live[j].symbol != p.id.symbol
    ensures var v, symbol := ViewOf(m, live, p), p.id.symbol;
            && (last > 0 ==> v.price == v.high == v.low == live[last - 1].mark)
            && (last == 0 && symbol in m.prices ==>
                  v.price == m.prices[symbol].close && v.high == m.prices[symbol].high && v.low == m.prices[symbol].low)
            && (last == 0 && symbol !in m.prices ==> v.price == v.high == v.low == p.lastPrice)
            && v.liveSize == (if first < |live| && live[first].size > 0.0 then live[first].size else 0.0)
            && (v.tpslLive <==> first < |live| && live[first].tpsl)
            && v.fallback == (if symbol in m.executionLog then Some(m.executionLog[symbol]) else None)
            && v.now == m.now && v.useSnapshot == m.useSnapshot
            && (v.pressureFailed <==> (symbol, p.id.long) in m.pressureFailed)
  {
    PricesAreLastMark(m, live, p.id.symbol, last);
    FindLiveIsFirst(live, p.id.symbol, first);
    hide PricesOf, FindLive;
  }

  // ----- positions the exchange has and the records miss -----

  function LocalSymbols(positions: seq<Position>): set<string> {
    set p | p in positions && p.status.Open? :: p.id.symbol
  }

  /** The protection of a recovered position: the exchange's, or the execution log's, or none. */
  function RecoveredProtection(l: Live, m: Market): Protection {
    var own := Protection(l.stop, PositiveOnly(l.tps));
    if own.stop > 0.0 && own.tps != [] then own
    else if l.symbol !in m.executionLog then own
    else
      var logged := Protection(m.executionLog[l.symbol].stop, PositiveOnly(m.executionLog[l.symbol].tps));
      if logged.stop > 0.0 && logged.tps != [] then logged else own
  }

  /** The record of an untracked exchange position; None when size, entry or direction is unusable. */
  function Recovered(l: Live, m: Market, live: seq<Live>): Option<Position> {
    if l.symbol == "" || l.size <= 0.0 || l.entry <= 0.0 || l.long.None? then None
    else
      var prices := PricesOf(m, live, l.symbol);
      var price := if l.mark > 0.0 then l.mark else if prices.Some? then prices.value.close else l.entry;
      var guard := RecoveredProtection(l, m);
      var guarded := guard.stop > 0.0 && guard.tps != [];
      Some(Position(
        Identity(l.symbol, l.long.value, false, false, Some(m.now), l.entry,
          l.size), Open, "", guard.stop, guard.tps, 100.0,
        Hits(false, false, false), Guards(false, false, false, false, false, false, guarded, guarded), Orders("", [],
          ""), 0.0, price))
  }

  /** A record made for an untracked symbol: open, untouched, and on the exchange. */
  ghost predicate FreshRecord(positions: seq<Position>, live: seq<Live>, q: Position) {
    && q.status.Open? && q.remaining == 100.0 && !q.hits.tp1Hit && !q.hits.tp2Hit && !q.hits.tp3Hit
    && q.id.symbol != "" && q.id.symbol in OpenSymbols(live) && q.id.symbol !in LocalSymbols(positions)
    && (q.guards.verified <==> q.stop > 0.0 && q.tps != [])
  }

  /** Whether the exchange reports enough of a symbol to make a record of it. */
  predicate Usable(live: seq<Live>, symbol: string) {
    var l := FindLive(live, symbol);
    l.Some? && l.value.size > 0.0 && l.value.entry > 0.0 && l.value.long.Some?
  }

  predicate HasRecord(positions: seq<Position>, symbol: string) {
    exists k | 0 <= k < |positions| :: positions[k].id.symbol == symbol
  }

  lemma OneMoreRecord(positions: seq<Position>, p: Position)
    ensures HasRecord(positions + [p], p.id.symbol)
    ensures forall symbol | HasRecord(positions, symbol) :: HasRecord(positions + [p], symbol)
  {
    assert (positions + [p])[|positions|] == p;
    forall symbol | HasRecord(positions, symbol) ensures HasRecord(positions + [p], symbol) {
      var k :| 0 <= k < |positions| && positions[k].id.symbol == symbol;
      assert (positions + [p])[k] == positions[k];
    }
  }

  lemma {:induction false} FindLiveSymbol(live: seq<Live>, symbol: string)
    ensures FindLive(live, symbol).Some? ==> FindLive(live, symbol).value.symbol == symbol
  {
    if live != [] {
      FindLiveSymbol(live[1..], symbol);
    }
  }

  lemma RecoveredIsFresh(positions: seq<Position>, l: Live, m: Market, live: seq<Live>, symbol: string)
    requires FindLive(live, symbol) == Some(l)
    requires symbol in OpenSymbols(live) && symbol !in LocalSymbols(positions) && symbol != ""
    ensures Recovered(l, m, live).Some? ==>
      FreshRecord(positions, live, Recovered(l, m, live).value) && Recovered(l, m, live).value.id.symbol == symbol
  {
    hide OpenSymbols, LocalSymbols, PricesOf;
    FindLiveSymbol(live, symbol);
  }

  /**
   What the record of an untracked position says: the position's own numbers, and the protection
   the exchange reports if it is complete, else that of the execution log if it is complete.
   */
  lemma RecoveredInNumbers(l: Live, m: Market, live: seq<Live>)
    ensures Recovered(l, m, live).Some? <==> l.symbol != "" && l.size > 0.0 && l.entry > 0.0 && l.long.Some?
    ensures Recovered(l, m, live).Some? ==>
      var q, log := Recovered(l, m, live).value, m.executionLog;
      && q.id.symbol == l.symbol && q.id.size == l.size && q.id.entry == l.entry && Some(q.id.long) == l.long
      && q.id.openedAt == Some(m.now) && q.mfe == 0.0 && (l.mark > 0.0 ==> q.lastPrice == l.mark)
      && var own := l.stop > 0.0 && exists x | x in l.tps :: x > 0.0;
         var logged := l.symbol in log && log[l.symbol].stop > 0.0 && exists x | x in log[l.symbol].tps :: x > 0.0;
         && (own || !logged ==> q.stop == l.stop && q.tps == PositiveOnly(l.tps))
         && (!own && logged ==> q.stop == log[l.symbol].stop && q.tps == PositiveOnly(log[l.symbol].tps))
         && (q.guards.verified <==> own || logged)
  {
    hide PositiveOnly, PricesOf;
    NoPositiveTarget(l.tps);
    if l.symbol in m.executionLog {
      NoPositiveTarget(m.executionLog[l.symbol].tps);
    }
  }

  lemma UsableIsRecovered(live: seq<Live>, symbol: string, m: Market)
    requires symbol != ""
    ensures Usable(live, symbol) ==>
      FindLive(live, symbol).Some? && Recovered(FindLive(live, symbol).value, m, live).Some?
  {
    hide PricesOf;
    FindLiveSymbol(live, symbol);
  }

  // ----- what one pass does to a record -----

  /** A protected open record, and what a pass made of it with another stop. */
  predicate UnsavedStop(p: Position, q: Position) {
    p.status.Open? && p.stop > 0.0 && HasTargets(p) && q.stop != p.stop
  }

  ghost predicate Synced(cfg: Settings, query: Option<seq<Live>>, p: Position, q: Position, calls: seq<Call>,
      from: nat) {
    && Evolves(cfg, p, q)
    && (UnsavedStop(p, q) ==> Moved(calls, from, p.id.symbol, q.stop))
    && match query
       case None => q == p.(lastPrice := q.lastPrice)
       case Some(live) =>
         && (q.status.Open? ==> q.id.symbol in OpenSymbols(live))
         && (p.status.Open? && !q.status.Open? && q.id.symbol in OpenSymbols(live) ==>
               AskedToClose(calls, from, p.id.symbol) || (!cfg.tp3CloseAll && q.hits.tp3Hit) || LiveSize(live,
                 p.id.symbol) <= 0.0)
         && (p.status.Open? && q.id.symbol !in OpenSymbols(live) ==>
               q == p.(status := ClosedSynced, reason := q.reason))
  }

  lemma SyncedStays(cfg: Settings, query: Option<seq<Live>>, p: Position, q: Position, calls: seq<Call>,
      later: seq<Call>, from: nat)
    requires Synced(cfg, query, p, q, calls, from) && calls <= later
    ensures Synced(cfg, query, p, q, later, from)
  {
    hide Evolves;
    if Moved(calls, from, p.id.symbol, q.stop) {
      var i :| from <= i < |calls| && calls[i] == MoveStop(p.id.symbol, q.stop, true);
      assert later[i] == calls[i];
    }
    if AskedToClose(calls, from, p.id.symbol) {
      var i :| from <= i < |calls| && Answered(calls[i], p.id.symbol);
      assert later[i] == calls[i];
    }
  }

  /** Which targets a pass takes, by their prices or by what is left, and what it says is left while it stays open. */
  ghost predicate TargetsTaken(cfg: Settings, v: View, p: Position, q: Position) {
    var b := Marked(Healed(p, v), v);
    var pct := RemainingPct(b, v);
    && TakenByPrice(cfg, b, v, pct, q.hits)
    && (q.status.Open? ==> q.remaining == AfterTargets(cfg, b, v, pct))
    && (cfg.tp3CloseAll && Tp3Due(b, v, pct) ==> q.status == Closed)
  }

  lemma UnsavedIsGranted(cfg: Settings, query: Option<seq<Live>>, p: Position, q: Position, calls: seq<Call>, from: nat)
    requires Synced(cfg, query, p, q, calls, from) && UnsavedStop(p, q)
    ensures Moved(calls, from, p.id.symbol, q.stop)
  {
  }

  /** No record is lost, and every record evolves. */
  ghost predicate Follows(cfg: Settings, a: seq<Position>, b: seq<Position>) {
    |a| <= |b| && forall k | 0 <= k < |a| :: Evolves(cfg, a[k], b[k])
  }

  class PositionManager {
    const cfg: Settings
    const exchange: Exchange
    /** The persisted records. */
    var saved: seq<Position>

    constructor (cfg: Settings, exchange: Exchange, saved: seq<Position>)
      ensures this.cfg == cfg && this.exchange == exchange && this.saved == saved
    {
      this.cfg, this.exchange, this.saved := cfg, exchange, saved;
    }

    /** One record of the pass; `ok` is false when the exchange raised while closing at TP3. */
    method SyncPosition(p: Position, query: Option<seq<Live>>, m: Market) returns (ok: bool, q: Position)
      modifies exchange
      ensures old(exchange.calls) <= exchange.calls
      ensures Synced(cfg, query, p, q, exchange.calls, |old(exchange.calls)|)
      ensures !p.status.Open? ==> ok && q == p
      ensures query.None? ==> ok
      ensures p.status.Open? && query.Some? ==>
        var held := exists l | l in query.value :: l.symbol == p.id.symbol && l.quantity > 0.0;
        && (held && ok ==> TargetsTaken(cfg, ViewOf(m, query.value, p), p, q))
        && (!held ==>
              && ok && q.status == ClosedSynced
              && q.reason == if p.id.symbol in m.closeReasons then m.closeReasons[p.id.symbol] else "closed_synced")
      ensures p.status.Open? && query.None? ==>
        q.lastPrice == if p.id.symbol in m.prices then m.prices[p.id.symbol].close else p.lastPrice
    {
      hide Synced, ViewOf, PricesOf, Healed, Marked, Sound, TargetsTaken;
      UnchangedIsSynced(cfg, query, p, exchange.calls);
      if !p.status.Open? {
        return true, p;
      }
      if query.None? {
        var prices := PricesOf(m, [], p.id.symbol);
        PricesAreLastMark(m, [], p.id.symbol, 0);
        q := if prices.Some? then p.(lastPrice := prices.value.close) else p;
        PricedIsSynced(cfg, p, q, exchange.calls);
        return true, q;
      }
      if p.id.symbol !in OpenSymbols(query.value) {
        q := p.(status := ClosedSynced,
          reason := if p.id.symbol in m.closeReasons then m.closeReasons[p.id.symbol] else "closed_synced");
        GoneIsSynced(cfg, query.value, p, q, exchange.calls);
        return true, q;
      }
      ok, q := SyncLive(p, query.value, m);
    }

    /** A record whose symbol the exchange holds. */
    method SyncLive(p: Position, live: seq<Live>, m: Market) returns (ok: bool, q: Position)
      requires p.status.Open? && p.id.symbol in OpenSymbols(live)
      modifies exchange
      ensures old(exchange.calls) <= exchange.calls
      ensures Synced(cfg, Some(live), p, q, exchange.calls, |old(exchange.calls)|)
      ensures ok ==> TargetsTaken(cfg, ViewOf(m, live, p), p, q)
    {
      hide Synced, Healed, Marked, Sound, PricesOf, OpenSymbols, LiveSize, FindLive, Tp1Due, Tp2Due, Tp3Due;
      hide AfterTargets, RemainingPct;
      var view := ViewOf(m, live, p);
      HealKeeps(cfg, p, view);
      ghost var before := exchange.calls;
      var position := new LivePosition(cfg, exchange, view, p);
      ghost var began := position.began;
      BeginsSound(cfg, view, began, before);
      ok := position.Synchronise();
      q := position.Record();
      SoundIsSynced(cfg, Some(live), p, view, began, q, exchange.calls, |before|, position.recorded);
    }

    /** Records for the exchange positions nobody tracks. */
    method RecoverMissing(live: seq<Live>, m: Market) returns (recovered: seq<Position>)
      ensures forall k | 0 <= k < |recovered| :: FreshRecord(saved, live, recovered[k])
      ensures forall k | 0 <= k < |recovered| ::
        var l := FindLive(live, recovered[k].id.symbol);
        l.Some? && Recovered(l.value, m, live) == Some(recovered[k])
      ensures forall symbol | symbol in OpenSymbols(live) && symbol != "" && symbol !in LocalSymbols(saved)
        && Usable(live, symbol) :: HasRecord(recovered, symbol)
    {
      hide FreshRecord, Usable, OpenSymbols, LocalSymbols, HasRecord, FindLive, Recovered;
      recovered := [];
      var missing := OpenSymbols(live) - LocalSymbols(saved) - {""};
      ghost var all, seen := missing, {};
      while missing != {}
        invariant missing + seen == all
        invariant forall k | 0 <= k < |recovered| :: FreshRecord(saved, live, recovered[k])
        invariant forall k | 0 <= k < |recovered| ::
          var found := FindLive(live, recovered[k].id.symbol);
          found.Some? && Recovered(found.value, m, live) == Some(recovered[k])
        invariant forall symbol | symbol in seen && Usable(live, symbol) :: HasRecord(recovered, symbol)
        decreases |missing|
      {
        var symbol :| symbol in missing;
        missing := missing - {symbol};
        ghost var before := recovered;
        var l := FindLive(live, symbol);
        if l.Some? {
          RecoveredIsFresh(saved, l.value, m, live, symbol);
          var p := Recovered(l.value, m, live);
          if p.Some? {
            recovered := recovered + [p.value];
            OneMoreRecord(before, p.value);
          }
        }
        UsableIsRecovered(live, symbol, m);
        seen := seen + {symbol};
      }
    }

    /**
     One pass over all records; an abort saves no record but the recovered ones.  `worked` are
     the records as the pass left them.  After an abort these are the ones up to the record
     that raised, and a protected one whose stop differs from the saved one was granted the
     stop of `worked` by the exchange, which the store does not know.
     */
    method Sync(query: Option<seq<Live>>, m: Market) returns (ok: bool, ghost worked: seq<Position>)
      modifies this, exchange
      ensures old(exchange.calls) <= exchange.calls && |old(saved)| <= |saved|
      ensures forall k | |old(saved)| <= k < |saved| :: query.Some? && Tracked(old(saved), query.value, saved[k])
      ensures !ok ==> forall k | 0 <= k < |old(saved)| :: saved[k] == old(saved)[k]
      ensures ok ==> forall k | 0 <= k < |old(saved)| ::
        Synced(cfg, query, old(saved)[k], saved[k], exchange.calls, |old(exchange.calls)|)
      ensures ok && query.Some? ==>
        forall k | 0 <= k < |saved| && saved[k].status.Open? :: saved[k].id.symbol in OpenSymbols(query.value)
      ensures if ok then worked == saved
              else
                && 1 <= |worked| <= |saved|
                && forall k | 0 <= k < |worked| ::
                  && Synced(cfg, query, saved[k], worked[k], exchange.calls, |old(exchange.calls)|)
                  && (UnsavedStop(saved[k], worked[k]) ==>
                        Moved(exchange.calls, |old(exchange.calls)|, saved[k].id.symbol, worked[k].stop))
      ensures query.None? ==> ok && |saved| == |old(saved)|
      ensures Follows(cfg, old(saved), saved)
      ensures ok && query.Some? ==>
        forall k | 0 <= k < |old(saved)| && old(saved)[k].status.Open?
          && old(saved)[k].id.symbol in OpenSymbols(query.value) ::
        TargetsTaken(cfg, ViewOf(m, query.value, old(saved)[k]), old(saved)[k], saved[k])
    {
      hide Synced, OpenSymbols, FreshRecord, Tracked, Usable, LocalSymbols, TargetsTaken, ViewOf, Evolves;
      ghost var start, calls := saved, exchange.calls;
      var positions := saved;
      if query.Some? {
        var recovered := RecoverMissing(query.value, m);
        positions := positions + recovered;
        saved := positions;
        FreshIsTracked(start, query.value, recovered);
      }
      var done: seq<Position> := [];
      for i := 0 to |positions|
        invariant |done| == i && saved == positions && calls <= exchange.calls
        invariant forall k | 0 <= k < i :: Synced(cfg, query, positions[k], done[k], exchange.calls, |calls|)
        invariant query.Some? ==>
          forall k | 0 <= k < i && positions[k].status.Open? && positions[k].id.symbol in OpenSymbols(query.value) ::
          TargetsTaken(cfg, ViewOf(m, query.value, positions[k]), positions[k], done[k])
      {
        ghost var before := exchange.calls;
        var q;
        if query.Some? {
          HeldIff(query.value, positions[i].id.symbol);
        }
        ok, q := SyncPosition(positions[i], query, m);
        if !ok {
          UnchangedFollows(cfg, start, saved);
          worked := done + [q];
          forall k | 0 <= k < |worked|
            ensures Synced(cfg, query, positions[k], worked[k], exchange.calls, |calls|)
            ensures UnsavedStop(positions[k], worked[k]) ==>
              Moved(exchange.calls, |calls|, positions[k].id.symbol, worked[k].stop)
          {
            if k < i {
              SyncedStays(cfg, query, positions[k], done[k], before, exchange.calls, |calls|);
            } else {
              SyncedEarlier(cfg, query, positions[i], q, exchange.calls, |before|, |calls|);
            }
            if UnsavedStop(positions[k], worked[k]) {
              UnsavedIsGranted(cfg, query, positions[k], worked[k], exchange.calls, |calls|);
            }
          }
          return false, worked;
        }
        forall k | 0 <= k < i ensures Synced(cfg, query, positions[k], done[k], exchange.calls, |calls|) {
          SyncedStays(cfg, query, positions[k], done[k], before, exchange.calls, |calls|);
        }
        SyncedEarlier(cfg, query, positions[i], q, exchange.calls, |before|, |calls|);
        done := done + [q];
      }
      saved := done;
      ok, worked := true, done;
      forall k | 0 <= k < |saved|
        ensures query.Some? && saved[k].status.Open? ==> saved[k].id.symbol in OpenSymbols(query.value)
        ensures k >= |start| ==> query.Some? && Tracked(start, query.value, saved[k])
        ensures Evolves(cfg, positions[k], saved[k])
      {
        SyncedOnExchange(cfg, query, positions[k], saved[k], exchange.calls, |calls|);
        if k >= |start| {
          TrackedStays(cfg, query, start, positions[k], saved[k], exchange.calls, |calls|);
        }
      }
    }
  }

  /** A record that is not touched is synchronised if it is closed or the query failed. */
  lemma UnchangedIsSynced(cfg: Settings, query: Option<seq<Live>>, p: Position, calls: seq<Call>)
    ensures !p.status.Open? || query.None? ==> Synced(cfg, query, p, p, calls, |calls|)
  {
  }

  lemma PricedIsSynced(cfg: Settings, p: Position, q: Position, calls: seq<Call>)
    requires q == p.(lastPrice := q.lastPrice)
    ensures Synced(cfg, None, p, q, calls, |calls|)
  {
  }

  lemma GoneIsSynced(cfg: Settings, live: seq<Live>, p: Position, q: Position, calls: seq<Call>)
    requires p.status.Open? && p.id.symbol !in OpenSymbols(live) && q == p.(status := ClosedSynced, reason := q.reason)
    ensures Synced(cfg, Some(live), p, q, calls, |calls|)
  {
  }

  lemma BeginsSound(cfg: Settings, v: View, began: Position, calls: seq<Call>)
    requires began.status.Open?
    ensures Sound(cfg, v, began, began, calls, |calls|, [])
  {
  }

  lemma SoundIsSynced(cfg: Settings, query: Option<seq<Live>>, p: Position, v: View, began: Position, q: Position,
      calls: seq<Call>, from: nat, recorded: seq<real>)
    requires Sound(cfg, v, began, q, calls, from, recorded)
    requires p.status.Open? && Evolves(cfg, p, began) && began.status.Open?
    requires p.stop > 0.0 && HasTargets(p) ==> began.stop == p.stop
    requires query.Some? && p.id.symbol in OpenSymbols(query.value) && v.liveSize == LiveSize(query.value, p.id.symbol)
    ensures Synced(cfg, query, p, q, calls, from)
  {
    hide Moved, AskedToClose, HasTargets;
    if recorded != [] {
      assert Moved(calls, from, q.id.symbol, recorded[|recorded| - 1]);
    }
  }

  lemma SyncedEarlier(cfg: Settings, query: Option<seq<Live>>, p: Position, q: Position, calls: seq<Call>, from: nat,
      earlier: nat)
    requires Synced(cfg, query, p, q, calls, from) && earlier <= from
    ensures Synced(cfg, query, p, q, calls, earlier)
  {
    hide Evolves, OpenSymbols, LiveSize;
  }

  lemma SyncedOnExchange(cfg: Settings, query: Option<seq<Live>>, p: Position, q: Position, calls: seq<Call>, from: nat)
    requires Synced(cfg, query, p, q, calls, from)
    ensures query.Some? && q.status.Open? ==> q.id.symbol in OpenSymbols(query.value)
    ensures Evolves(cfg, p, q)
  {
  }

  lemma UnchangedFollows(cfg: Settings, a: seq<Position>, b: seq<Position>)
    requires |a| <= |b| && forall k | 0 <= k < |a| :: b[k] == a[k]
    ensures Follows(cfg, a, b)
  {
  }

  /**
   Over any run of passes, with any answers of the exchange: closed records stay closed with
   their stop, target flags stay set, and no remaining percentage rises.
   */
  lemma {:induction false} RunsFollow(cfg: Settings, states: seq<seq<Position>>, i: nat, j: nat)
    requires i <= j < |states| && forall k | 0 <= k < |states| - 1 :: Follows(cfg, states[k], states[k + 1])
    ensures Follows(cfg, states[i], states[j])
    decreases j - i
  {
    if i == j {
      UnchangedFollows(cfg, states[i], states[j]);
    } else {
      RunsFollow(cfg, states, i + 1, j);
      FollowsTrans(cfg, states[i], states[i + 1], states[j]);
    }
  }

  lemma FollowsTrans(cfg: Settings, a: seq<Position>, b: seq<Position>, c: seq<Position>)
    requires Follows(cfg, a, b) && Follows(cfg, b, c)
    ensures Follows(cfg, a, c)
  {
    hide Evolves;
    forall k | 0 <= k < |a| ensures Evolves(cfg, a[k], c[k]) {
      EvolvesTrans(cfg, a[k], b[k], c[k]);
    }
  }

  /** A record of a symbol that had no open record before: its percentage and flags start fresh. */
  ghost predicate Tracked(positions: seq<Position>, live: seq<Live>, q: Position) {
    q.id.symbol != "" && q.id.symbol in OpenSymbols(live) && q.id.symbol !in LocalSymbols(positions)
  }

  lemma FreshIsTracked(positions: seq<Position>, live: seq<Live>, recovered: seq<Position>)
    requires forall k | 0 <= k < |recovered| :: FreshRecord(positions, live, recovered[k])
    ensures forall k | 0 <= k < |recovered| :: Tracked(positions, live, recovered[k])
  {
  }

  lemma TrackedStays(cfg: Settings, query: Option<seq<Live>>, positions: seq<Position>, p: Position, q: Position,
      calls: seq<Call>, from: nat)
    requires query.Some? && Tracked(positions, query.value, p) && Synced(cfg, query, p, q, calls, from)
    ensures Tracked(positions, query.value, q)
  {
  }
}
