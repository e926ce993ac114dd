/**
 The whole forward-paper book: many trades in one log.  A run is any sequence of moves:
 an update of one open trade that may die after any append, the opening of a trade that
 the capacity check let through, or a rejection.
 */
module PaperBook {
  import opened Wrappers
  import opened HashChain
  import opened PaperEvents
  import opened PaperStore
  import opened PaperLifecycle
  import opened PaperProtocol
  import opened PaperCrashes
  import opened PaperGuarantees

  datatype Entry = Entry(candidateId: string, tradeId: TradeId, planId: string, event: Event)

  function EntryOf(l: Line): Entry {
    var b := l.link.body;
    Entry(b.candidateId, b.tradeId, b.planId, b.event)
  }

  function Entries(lines: seq<Line>): seq<Entry> {
    seq(|lines|, i requires 0 <= i < |lines| => EntryOf(lines[i]))
  }

  /** The events of one trade, in log order. */
  function ByTrade(log: seq<Entry>, id: TradeId): seq<Event> {
    if log == [] then []
    else
      var rest, last := ByTrade(log[..|log| - 1], id), log[|log| - 1];
      if last.tradeId == id then rest + [last.event] else rest
  }

  lemma ByTradePush(log: seq<Entry>, e: Entry, id: TradeId)
    ensures ByTrade(log + [e], id) == if e.tradeId == id then ByTrade(log, id) + [e.event] else ByTrade(log, id)
  {
    assert (log + [e])[..|log|] == log;
  }

  lemma {:induction false} InByTrade(log: seq<Entry>, id: TradeId, event: Event)
    ensures event in ByTrade(log, id) <==> exists x | x in log :: x.tradeId == id && x.event == event
    decreases |log|
  {
    if log != [] {
      var before, last := log[..|log| - 1], log[|log| - 1];
      assert log == before + [last];
      InByTrade(before, id, event);
      if event in ByTrade(log, id) && event in ByTrade(before, id) {
        var x :| x in before && x.tradeId == id && x.event == event;
        assert x in log;
      }
    }
  }

  /** The events of a trade in a prefix of the log are a prefix of its events. */
  lemma {:induction false} ByTradePrefix(log: seq<Entry>, more: seq<Entry>, id: TradeId)
    ensures ByTrade(log, id) <= ByTrade(log + more, id)
    decreases |more|
  {
    if more == [] {
      assert log + more == log;
    } else {
      var before, last := more[..|more| - 1], more[|more| - 1];
      assert log + more == (log + before) + [last];
      ByTradePush(log + before, last, id);
      ByTradePrefix(log, before, id);
    }
  }

  function Lift(id: TradeId, es: seq<Event>): seq<Entry>
    requires id.PaperTrade?
  {
    seq(|es|, i requires 0 <= i < |es| => Entry(id.candidateId, id, id.planId, es[i]))
  }

  lemma {:induction false} ByTradeLift(log: seq<Entry>, id: TradeId, es: seq<Event>, other: TradeId)
    requires id.PaperTrade?
    ensures ByTrade(log + Lift(id, es), other) == if other == id then ByTrade(log, id) + es else ByTrade(log, other)
    decreases |es|
  {
    hide ByTrade, Lift;
    if es == [] {
      NothingLifted(id);
      assert log + [] == log;
      assert ByTrade(log, id) + [] == ByTrade(log, id);
    } else {
      var before, last := es[..|es| - 1], es[|es| - 1];
      var entry := Entry(id.candidateId, id, id.planId, last);
      assert es == before + [last];
      LiftPush(id, before, last);
      assert log + Lift(id, es) == (log + Lift(id, before)) + [entry];
      ByTradePush(log + Lift(id, before), entry, other);
      ByTradeLift(log, id, before, other);
      assert ByTrade(log, id) + es == (ByTrade(log, id) + before) + [last];
    }
  }

  lemma NothingLifted(id: TradeId)
    requires id.PaperTrade?
    ensures Lift(id, []) == []
  {
  }

  lemma LiftPush(id: TradeId, es: seq<Event>, last: Event)
    requires id.PaperTrade?
    ensures Lift(id, es + [last]) == Lift(id, es) + [Entry(id.candidateId, id, id.planId, last)]
  {
  }

  // ----- the store, seen entry by entry -----

  ghost predicate CandidateHasOpen(log: seq<Entry>, candidateId: string) {
    exists x | x in log :: x.candidateId == candidateId && x.event.body.TradeOpened?
  }

  /** What the store answers to a service append; it only depends on the trade's own events and on earlier openings. */
  ghost function Submit(log: seq<Entry>, e: Entry): Appending {
    if e.candidateId == "" || e.planId == "" then MissingField
    else match Judge(ByTrade(log, e.tradeId), e.event)
      case Duplicate => Ignored
      case Conflict => ConflictingRetry
      case Appended => if e.event.body.TradeOpened? && CandidateHasOpen(log, e.candidateId) then Ignored else Written
  }

  function DraftOf(e: Entry): Draft {
    Draft(DATASET, ContentId(e.tradeId, e.event), SemanticTransitionKey(e.tradeId, e.event), e.candidateId, e.tradeId,
      e.planId, e.event)
  }

  lemma KeyTakenIsHasAction(lines: seq<Line>, id: TradeId, a: Action)
    requires forall l | l in lines :: CanonicalLine(l)
    ensures KeyTaken(lines, Transition(id, a)) <==> HasAction(ByTrade(Entries(lines), id), a)
  {
    var log := Entries(lines);
    if KeyTaken(lines, Transition(id, a)) {
      var i :| 0 <= i < |lines| && lines[i].link.body.key == Transition(id, a);
      assert CanonicalLine(lines[i]);
      assert log[i].tradeId == id;
      InByTrade(log, id, log[i].event);
    }
    if HasAction(ByTrade(log, id), a) {
      var e :| e in ByTrade(log, id) && ActionOf(e) == a;
      InByTrade(log, id, e);
      var i :| 0 <= i < |log| && log[i].tradeId == id && log[i].event == e;
      assert CanonicalLine(lines[i]);
    }
  }

  lemma SameTransitionIsRepeat(lines: seq<Line>, e: Entry)
    requires forall l | l in lines :: CanonicalLine(l)
    ensures SameTransition(lines, DraftOf(e)) <==> Repeats(ByTrade(Entries(lines), e.tradeId), e.event)
  {
    var log := Entries(lines);
    if SameTransition(lines, DraftOf(e)) {
      var i :| 0 <= i < |lines| && lines[i].link.body.key == DraftOf(e).key
        && lines[i].link.body.event.body == e.event.body;
      assert CanonicalLine(lines[i]);
      assert log[i].tradeId == e.tradeId;
      InByTrade(log, e.tradeId, log[i].event);
    }
    if Repeats(ByTrade(log, e.tradeId), e.event) {
      var r :| r in ByTrade(log, e.tradeId) && ActionOf(r) == ActionOf(e.event) && r.body == e.event.body;
      InByTrade(log, e.tradeId, r);
      var i :| 0 <= i < |log| && log[i].tradeId == e.tradeId && log[i].event == r;
      assert CanonicalLine(lines[i]);
    }
  }

  lemma SameIdRepeats(lines: seq<Line>, e: Entry)
    requires (forall l | l in lines :: CanonicalLine(l)) && IdTaken(lines, DraftOf(e).eventId)
    ensures SameTransition(lines, DraftOf(e)) && KeyTaken(lines, DraftOf(e).key)
  {
    var l :| l in lines && l.link.body.eventId == DraftOf(e).eventId;
    assert CanonicalLine(l);
  }

  lemma OpenTakenIsHasOpen(lines: seq<Line>, candidateId: string)
    ensures CandidateOpened(lines, candidateId) <==> CandidateHasOpen(Entries(lines), candidateId)
  {
    var log := Entries(lines);
    if CandidateOpened(lines, candidateId) {
      var i :| 0 <= i < |lines| && lines[i].link.body.candidateId == candidateId
        && lines[i].link.body.event.body.TradeOpened?;
      assert log[i] in log;
    }
    if CandidateHasOpen(log, candidateId) {
      var i :| 0 <= i < |log| && log[i].candidateId == candidateId && log[i].event.body.TradeOpened?;
      assert lines[i] in lines;
    }
  }

  /** On a healthy file the store's answer to a service append is `Submit`. */
  lemma DecideIsSubmit(lines: seq<Line>, e: Entry)
    requires (forall l | l in lines :: CanonicalLine(l)) && !e.tradeId.NamedTrade?
    ensures Decide(lines, DraftOf(e)) == Submit(Entries(lines), e)
  {
    KeyTakenIsHasAction(lines, e.tradeId, ActionOf(e.event));
    SameTransitionIsRepeat(lines, e);
    OpenTakenIsHasOpen(lines, e.candidateId);
    if IdTaken(lines, DraftOf(e).eventId) {
      SameIdRepeats(lines, e);
    }
    hide KeyTaken, SameTransition, IdTaken, CandidateOpened, HasAction, Repeats, CandidateHasOpen;
  }

  // ----- moves -----

  ghost predicate IsOpen(log: seq<Entry>, id: TradeId) {
    id.PaperTrade? && Started(ByTrade(log, id)) && !Replay(ByTrade(log, id)).closed
  }

  ghost function OpenIds(log: seq<Entry>): set<TradeId> {
    set e | e in log && IsOpen(log, e.tradeId) :: e.tradeId
  }

  function SymbolOf(log: seq<Entry>, id: TradeId): string
    requires Opened(ByTrade(log, id))
  {
    ByTrade(log, id)[0].body.opening.symbol
  }

  function Cap(cfg: Config): nat {
    if cfg.maxOpenPositions > 0 then cfg.maxOpenPositions else 0
  }

  datatype Move =
    | Update(id: TradeId, step: Step)
    | Admit(id: TradeId, timestamp: int, opening: Opening)
    | Refuse(candidateId: string, planId: string, timestamp: int, cause: string, symbol: string, strategy: string)

  ghost predicate Allowed(cfg: Config, log: seq<Entry>, m: Move) {
    match m
    case Update(id, _) => IsOpen(log, id)
    case Admit(id, _, o) =>
      && id.PaperTrade? && ValidOpening(o) && |OpenIds(log)| < Cap(cfg)
      && (forall other | other in OpenIds(log) :: SymbolOf(log, other) != o.symbol)
    case Refuse(_, _, _, _, _, _) => true
  }

  ghost function SubmitTo(log: seq<Entry>, e: Entry): seq<Entry> {
    if Submit(log, e).Written? then log + [e] else log
  }

  ghost function UpdatedLog(cfg: Config, log: seq<Entry>, id: TradeId, step: Step): seq<Entry>
    requires IsOpen(log, id)
  {
    var events := ByTrade(log, id);
    log + Lift(id, Advance(cfg, events, step).log[|events|..])
  }

  function AdmitEntry(id: TradeId, timestamp: int, o: Opening): Entry
    requires id.PaperTrade?
  {
    Entry(id.candidateId, id, id.planId, Event(timestamp, TradeOpened(o)))
  }

  function RefuseEntry(candidateId: string, planId: string, timestamp: int, cause: string, symbol: string,
      strategy: string): Entry {
    Entry(candidateId, RejectedTrade(planId), planId, Event(timestamp, PaperRejected(cause, symbol, strategy)))
  }

  ghost function Next(cfg: Config, log: seq<Entry>, m: Move): seq<Entry>
    requires Allowed(cfg, log, m)
  {
    match m
    case Update(id, step) => UpdatedLog(cfg, log, id, step)
    case Admit(id, timestamp, o) => SubmitTo(log, AdmitEntry(id, timestamp, o))
    case Refuse(c, p, timestamp, cause, symbol, strategy) => SubmitTo(log,
      RefuseEntry(c, p, timestamp, cause, symbol, strategy))
  }

  ghost predicate Runs(cfg: Config, log: seq<Entry>, moves: seq<Move>, final: seq<Entry>)
    decreases |moves|
  {
    if moves == [] then final == log
    else Allowed(cfg, log, moves[0]) && Runs(cfg, Next(cfg, log, moves[0]), moves[1..], final)
  }

  lemma {:induction false} RunsPush(cfg: Config, log: seq<Entry>, moves: seq<Move>, mid: seq<Entry>, m: Move)
    requires Runs(cfg, log, moves, mid) && Allowed(cfg, mid, m)
    ensures Runs(cfg, log, moves + [m], Next(cfg, mid, m))
    decreases |moves|
  {
    hide Next, Allowed;
    if moves == [] {
      assert (moves + [m])[1..] == [];
    } else {
      assert (moves + [m])[0] == moves[0] && (moves + [m])[1..] == moves[1..] + [m];
      RunsPush(cfg, Next(cfg, log, moves[0]), moves[1..], mid, m);
    }
  }

  lemma {:induction false} RunsConcat(cfg: Config, log: seq<Entry>, a: seq<Move>, mid: seq<Entry>, b: seq<Move>,
      final: seq<Entry>)
    requires Runs(cfg, log, a, mid) && Runs(cfg, mid, b, final)
    ensures Runs(cfg, log, a + b, final)
    decreases |a|
  {
    hide Next, Allowed;
    if a == [] {
      assert a + b == b;
    } else {
      assert (a + b)[0] == a[0] && (a + b)[1..] == a[1..] + b;
      RunsConcat(cfg, Next(cfg, log, a[0]), a[1..], mid, b, final);
    }
  }
}
