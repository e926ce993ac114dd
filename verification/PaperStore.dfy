/**
 The forward-paper event store: a hash-chained log with a strict reader and an
 idempotent writer.  One line of the file is one signed record; JSON text, locks and
 fsync are not part of this model, and an append is one atomic step.
 */
module PaperStore {
  import opened Wrappers
  import opened HashChain
  import opened PaperEvents

  const DATASET := "forward_paper"
  const SCHEMA_VERSION := 2
  const LEGACY_SCHEMA_VERSION := 1

  /** Trade ids are hashes of what they identify, or names chosen by another caller. */
  datatype TradeId = PaperTrade(candidateId: string,
    planId: string) | RejectedTrade(planId: string) | NamedTrade(name: string)

  datatype EventId = ContentId(tradeId: TradeId, event: Event) | NamedId(name: string)

  datatype SemanticKey = Transition(tradeId: TradeId, action: Action) | NamedKey(name: string)

  /** The key the service gives every event. */
  function SemanticTransitionKey(tradeId: TradeId, e: Event): SemanticKey {
    Transition(tradeId, ActionOf(e))
  }

  /**
   Which events share a key: the same kind of transition of the same trade, at the same target, to
   the same exit reason, for the same stop reason; an observation only with an exact replay.
   */
  lemma SameKeyIff(x: TradeId, a: Event, y: TradeId, b: Event)
    ensures SemanticTransitionKey(x, a) == SemanticTransitionKey(y, b) <==>
      x == y &&
      match (a.body, b.body)
      case (TradeOpened(_), TradeOpened(_)) => true
      case (TradeClosed(_, _, _, _, _), TradeClosed(_, _, _, _, _)) => true
      case (TpTouch(level, _, _), TpTouch(other, _, _)) => level == other
      case (PartialExit(_, _, _, _, _, level), PartialExit(_, _, _, _, _, other)) => level == other
      case (ExitReasonTransition(to, _), ExitReasonTransition(other, _)) => to == other
      case (StopUpdated(_, _, why), StopUpdated(_, _, other)) => why == other
      case (SlTouch(_, _), SlTouch(_, _)) => true
      case (BreakEvenActivated(_, _), BreakEvenActivated(_, _)) => true
      case (ProfitLockActivated(_, _), ProfitLockActivated(_, _)) => true
      case (PaperRejected(_, _, _), PaperRejected(_, _, _)) => true
      case (MarkDecision(_, _, _, _, _), MarkDecision(_, _, _, _, _)) => a == b
      case (MfeUpdate(_, _), MfeUpdate(_, _)) => a == b
      case (MaeUpdate(_, _), MaeUpdate(_, _)) => a == b
      case (Funding(_), Funding(_)) => a == b
      case _ => false
  {
    match a.body
    case MarkDecision(_, _, _, _, _) =>
    case MfeUpdate(_, _) =>
    case MaeUpdate(_, _) =>
    case Funding(_) =>
    case _ =>
  }

  datatype Stored = Stored(
    schemaVersion: int, dataset: string, eventId: EventId, key: SemanticKey,
    candidateId: string, tradeId: TradeId, planId: string, event: Event)

  type Line = Signed<Stored>

  type Hash = Link<Stored> -> string

  // ----- the strict reader -----

  datatype Fault =
    | InvalidDatasetOrSchema | MissingCandidate | MissingKey | NonContiguous
    | BrokenPreviousHash | ChecksumMismatch | DuplicateTransition | MultipleCloses

  ghost predicate KeyTaken(log: seq<Line>, key: SemanticKey) {
    exists l | l in log :: l.link.body.key == key
  }

  ghost predicate CloseTaken(log: seq<Line>, tradeId: TradeId) {
    exists l | l in log :: l.link.body.event.body.TradeClosed? && l.link.body.tradeId == tradeId
  }

  /** Why a line may not follow the lines before it. */
  ghost function FaultOf(h: Hash, log: seq<Line>, line: Line): Option<Fault> {
    var b := line.link.body;
    if b.dataset != DATASET || b.schemaVersion !in {LEGACY_SCHEMA_VERSION,
      SCHEMA_VERSION} then Some(InvalidDatasetOrSchema)
    else if b.schemaVersion == SCHEMA_VERSION && b.candidateId == "" then Some(MissingCandidate)
    else if b.schemaVersion == SCHEMA_VERSION && b.key == NamedKey("") then Some(MissingKey)
    else if line.link.sequence != |log| + 1 then Some(NonContiguous)
    else if line.link.previous != Head(log) then Some(BrokenPreviousHash)
    else if line.hash != h(line.link) then Some(ChecksumMismatch)
    else if b.key != NamedKey("") && KeyTaken(log, b.key) then Some(DuplicateTransition)
    else if b.event.body.TradeClosed? && CloseTaken(log, b.tradeId) then Some(MultipleCloses)
    else None
  }

  ghost predicate Accepted(h: Hash, log: seq<Line>) {
    forall i | 0 <= i < |log| :: FaultOf(h, log[..i], log[i]).None?
  }

  lemma AcceptedPush(h: Hash, log: seq<Line>, line: Line)
    ensures Accepted(h, log + [line]) <==> Accepted(h, log) && FaultOf(h, log, line).None?
  {
    var whole := log + [line];
    assert whole[..|log|] == log && whole[|log|] == line;
    forall i | 0 <= i < |log| ensures whole[..i] == log[..i] && whole[i] == log[i] {
    }
  }

  /** A record that is right in itself, with the fields its schema demands, and continues the one before it. */
  ghost predicate Fits(h: Hash, log: seq<Line>, j: nat)
    requires j < |log|
  {
    var link, b := log[j].link, log[j].link.body;
    && b.dataset == "forward_paper"
    && (b.schemaVersion == 1 || (b.schemaVersion == 2 && b.candidateId != "" && b.key != NamedKey("")))
    && link.sequence == j + 1 && link.previous == (if j == 0 then "GENESIS" else log[j - 1].hash)
    && log[j].hash == h(link)
  }

  /** No record before it has its key, or closes the trade it closes. */
  ghost predicate NoTwin(log: seq<Line>, j: nat)
    requires j < |log|
  {
    && (forall i | 0 <= i < j && log[i].link.body.key == log[j].link.body.key :: log[j].link.body.key == NamedKey(""))
    && (forall i | 0 <= i < j && log[i].link.body.tradeId == log[j].link.body.tradeId ::
          !(log[i].link.body.event.body.TradeClosed? && log[j].link.body.event.body.TradeClosed?))
  }

  /** What the strict reader accepts, record by record: right in itself, chained, and with no twin before it. */
  lemma {:induction false} AcceptedIff(h: Hash, log: seq<Line>)
    ensures Accepted(h, log) <==> forall j: nat | j < |log| :: Fits(h, log, j) && NoTwin(log, j)
  {
    hide FaultOf, Fits, NoTwin;
    forall j: nat | j < |log| ensures FaultOf(h, log[..j], log[j]).None? <==> Fits(h, log, j) && NoTwin(log, j) {
      FitsIff(h, log, j);
    }
  }

  lemma FitsIff(h: Hash, log: seq<Line>, j: nat)
    requires j < |log|
    ensures FaultOf(h, log[..j], log[j]).None? <==> Fits(h, log, j) && NoTwin(log, j)
  {
    var b := log[j].link.body;
    TakenIff(log[..j], b.key, b.tradeId);
    forall i | 0 <= i < j ensures log[..j][i] == log[i] {
    }
    hide KeyTaken, CloseTaken;
  }

  lemma TakenIff(log: seq<Line>, key: SemanticKey, id: TradeId)
    ensures KeyTaken(log, key) <==> exists i | 0 <= i < |log| :: log[i].link.body.key == key
    ensures CloseTaken(log, id) <==>
      exists i | 0 <= i < |log| :: log[i].link.body.event.body.TradeClosed? && log[i].link.body.tradeId == id
  {
    forall i | 0 <= i < |log| ensures log[i] in log {
    }
  }

  /** Whether a line breaks the rule a fault stands for, whatever other rules it breaks. */
  ghost predicate Breaks(h: Hash, log: seq<Line>, line: Line, fault: Fault) {
    var link, b := line.link, line.link.body;
    match fault
    case InvalidDatasetOrSchema => b.dataset != "forward_paper" || (b.schemaVersion != 1 && b.schemaVersion != 2)
    case MissingCandidate => b.schemaVersion == 2 && b.candidateId == ""
    case MissingKey => b.schemaVersion == 2 && b.key == NamedKey("")
    case NonContiguous => link.sequence != |log| + 1
    case BrokenPreviousHash => link.previous != if log == [] then "GENESIS" else log[|log| - 1].hash
    case ChecksumMismatch => line.hash != h(link)
    case DuplicateTransition =>
      b.key != NamedKey("") && exists i | 0 <= i < |log| :: log[i].link.body.key == b.key
    case MultipleCloses =>
      && b.event.body.TradeClosed?
      && exists i | 0 <= i < |log| :: log[i].link.body.event.body.TradeClosed? && log[i].link.body.tradeId == b.tradeId
  }

  /** The place of a rule in the order in which the reader tests a line. */
  function Rank(fault: Fault): nat {
    match fault
    case InvalidDatasetOrSchema => 0
    case MissingCandidate => 1
    case MissingKey => 2
    case NonContiguous => 3
    case BrokenPreviousHash => 4
    case ChecksumMismatch => 5
    case DuplicateTransition => 6
    case MultipleCloses => 7
  }

  /** The fault of a line is the first rule it breaks, in the order of the tests; it has none when it breaks none. */
  lemma FaultIsFirstBroken(h: Hash, log: seq<Line>, line: Line)
    ensures FaultOf(h, log, line).None? <==> forall fault :: !Breaks(h, log, line, fault)
    ensures forall fault ::
      FaultOf(h, log, line) == Some(fault) <==>
      Breaks(h, log, line, fault) && forall other | Rank(other) < Rank(fault) :: !Breaks(h, log, line, other)
  {
    TakenIff(log, line.link.body.key, line.link.body.tradeId);
    hide KeyTaken, CloseTaken;
    var found := FaultOf(h, log, line);
    if found.Some? {
      assert Breaks(h, log, line, found.value);
      assert forall other | Rank(other) < Rank(found.value) :: !Breaks(h, log, line, other);
    }
  }

  lemma {:induction false} AcceptedIsChained(h: Hash, log: seq<Line>)
    requires Accepted(h, log)
    ensures Chained(h, log)
  {
    forall i | 0 <= i < |log| ensures Linked(h, log, i) {
      assert FaultOf(h, log[..i], log[i]).None?;
    }
  }

  lemma {:induction false} AcceptedKeysUnique(h: Hash, log: seq<Line>, i: nat, j: nat)
    requires Accepted(h, log) && i < j < |log| && log[j].link.body.key != NamedKey("")
    ensures log[i].link.body.key != log[j].link.body.key
  {
    assert FaultOf(h, log[..j], log[j]).None?;
    assert log[..j][i] == log[i];
  }

  /**
   Tamper evidence for the store: two non-empty files that the strict reader accepts and
   that end in the same event hash are identical, or they exhibit a hash collision.
   */
  lemma StoreTamperEvident(h: Hash, a: seq<Line>, b: seq<Line>) returns (i: nat, j: nat)
    requires a != [] && b != [] && Accepted(h, a) && Accepted(h, b) && Head(a) == Head(b)
    ensures i < |a| && j < |b|
    ensures a == b || Collision(h, a[i].link, b[j].link)
  {
    AcceptedIsChained(h, a);
    AcceptedIsChained(h, b);
    i, j := SameHeadSameLog(h, a, b);
  }

  ghost predicate FirstFault(h: Hash, log: seq<Line>, n: nat, fault: Fault) {
    1 <= n <= |log| && Accepted(h, log[..n - 1]) && FaultOf(h, log[..n - 1], log[n - 1]) == Some(fault)
  }

  /** The same inspection from what a reader keeps while it scans: a hash and two sets. */
  function Inspect(h: Hash, number: nat, previousHash: string, keys: set<SemanticKey>, closes: set<TradeId>,
      line: Line): Option<Fault> {
    var b := line.link.body;
    if b.dataset != DATASET || b.schemaVersion !in {LEGACY_SCHEMA_VERSION,
      SCHEMA_VERSION} then Some(InvalidDatasetOrSchema)
    else if b.schemaVersion == SCHEMA_VERSION && b.candidateId == "" then Some(MissingCandidate)
    else if b.schemaVersion == SCHEMA_VERSION && b.key == NamedKey("") then Some(MissingKey)
    else if line.link.sequence != number then Some(NonContiguous)
    else if line.link.previous != previousHash then Some(BrokenPreviousHash)
    else if line.hash != h(line.link) then Some(ChecksumMismatch)
    else if b.key != NamedKey("") && b.key in keys then Some(DuplicateTransition)
    else if b.event.body.TradeClosed? && b.tradeId in closes then Some(MultipleCloses)
    else None
  }

  ghost predicate Tracks(log: seq<Line>, previousHash: string, keys: set<SemanticKey>, closes: set<TradeId>) {
    && previousHash == Head(log)
    && (forall key :: key in keys <==> key != NamedKey("") && KeyTaken(log, key))
    && (forall id :: id in closes <==> CloseTaken(log, id))
  }

  lemma InspectIsFault(h: Hash, log: seq<Line>, previousHash: string, keys: set<SemanticKey>, closes: set<TradeId>,
      line: Line)
    requires Tracks(log, previousHash, keys, closes)
    ensures Inspect(h, |log| + 1, previousHash, keys, closes, line) == FaultOf(h, log, line)
  {
    hide KeyTaken, CloseTaken;
  }

  lemma TakenPush(log: seq<Line>, line: Line)
    ensures forall key :: KeyTaken(log + [line], key) <==> KeyTaken(log, key) || line.link.body.key == key
    ensures forall id :: CloseTaken(log + [line], id) <==>
                         CloseTaken(log, id) || (line.link.body.event.body.TradeClosed? && line.link.body.tradeId == id)
  {
    assert (log + [line])[|log|] == line;
    forall key | KeyTaken(log, key) ensures KeyTaken(log + [line], key) {
      var l :| l in log && l.link.body.key == key;
      assert l in log + [line];
    }
    forall id | CloseTaken(log, id) ensures CloseTaken(log + [line], id) {
      var l :| l in log && l.link.body.event.body.TradeClosed? && l.link.body.tradeId == id;
      assert l in log + [line];
    }
  }

  lemma TracksPush(log: seq<Line>, previousHash: string, keys: set<SemanticKey>, closes: set<TradeId>, line: Line)
    requires Tracks(log, previousHash, keys, closes)
    ensures var b := line.link.body;
            Tracks(log + [line], line.hash,
                   if b.key != NamedKey("") then keys + {b.key} else keys,
                   if b.event.body.TradeClosed? then closes + {b.tradeId} else closes)
  {
    TakenPush(log, line);
    hide KeyTaken, CloseTaken;
  }

  // ----- the writer -----

  datatype Draft = Draft(
    dataset: string, eventId: EventId, key: SemanticKey,
    candidateId: string, tradeId: TradeId, planId: string, event: Event)

  predicate Complete(d: Draft) {
    && d.eventId != NamedId("") && d.key != NamedKey("") && d.candidateId != ""
    && d.tradeId != NamedTrade("") && d.planId != ""
  }

  function StoredForm(d: Draft): Stored {
    Stored(SCHEMA_VERSION, DATASET, d.eventId, d.key, d.candidateId, d.tradeId, d.planId, d.event)
  }

  datatype Appending = Written | Ignored | ConflictingRetry | MissingField | WrongDataset | CorruptLog(line: nat,
    fault: Fault)

  ghost predicate IdTaken(log: seq<Line>, id: EventId) {
    exists l | l in log :: l.link.body.eventId == id
  }

  ghost predicate SameTransition(log: seq<Line>, d: Draft) {
    exists l | l in log :: l.link.body.key == d.key && l.link.body.event.body == d.event.body
  }

  ghost predicate CandidateOpened(log: seq<Line>, candidateId: string) {
    exists l | l in log :: l.link.body.candidateId == candidateId && l.link.body.event.body.TradeOpened?
  }

  /** What the writer answers on an accepted log. */
  ghost function Decide(log: seq<Line>, d: Draft): Appending {
    if d.dataset != DATASET then WrongDataset
    else if !Complete(d) then MissingField
    else if IdTaken(log, d.eventId) then Ignored
    else if KeyTaken(log, d.key) then if SameTransition(log, d) then Ignored else ConflictingRetry
    else if d.event.body.TradeOpened? && CandidateOpened(log, d.candidateId) then Ignored
    else Written
  }

  /**
   Every answer of the writer, in terms of the lines it has: nothing is written twice under an id or
   a key, a key with another payload is a conflict, and a candidate is opened once.
   */
  lemma DecideIff(log: seq<Line>, d: Draft)
    ensures var mine := d.dataset == "forward_paper";
            var empty := d.eventId == NamedId("") || d.key == NamedKey("") || d.candidateId == ""
                         || d.tradeId == NamedTrade("") || d.planId == "";
            var sameId := exists i | 0 <= i < |log| :: log[i].link.body.eventId == d.eventId;
            var sameKey := exists i | 0 <= i < |log| :: log[i].link.body.key == d.key;
            var sameBody := exists i | 0 <= i < |log| ::
              log[i].link.body.key == d.key && log[i].link.body.event.body == d.event.body;
            var openedBefore := d.event.body.TradeOpened? && exists i | 0 <= i < |log| ::
              log[i].link.body.event.body.TradeOpened? && log[i].link.body.candidateId == d.candidateId;
            && (Decide(log, d).WrongDataset? <==> !mine)
            && (Decide(log, d).MissingField? <==> mine && empty)
            && (Decide(log, d).ConflictingRetry? <==> mine && !empty && !sameId && sameKey && !sameBody)
            && (Decide(log, d).Ignored? <==>
                mine && !empty && (sameId || sameBody || (!sameKey && openedBefore)))
            && (Decide(log, d).Written? <==> mine && !empty && !sameId && !sameKey && !openedBefore)
  {
    forall i | 0 <= i < |log| ensures log[i] in log {}
    assert IdTaken(log, d.eventId) <==> exists i | 0 <= i < |log| :: log[i].link.body.eventId == d.eventId;
    assert KeyTaken(log, d.key) <==> exists i | 0 <= i < |log| :: log[i].link.body.key == d.key;
    assert SameTransition(log, d) <==> exists i | 0 <= i < |log| ::
      log[i].link.body.key == d.key && log[i].link.body.event.body == d.event.body;
    assert CandidateOpened(log, d.candidateId) <==> exists i | 0 <= i < |log| ::
      log[i].link.body.event.body.TradeOpened? && log[i].link.body.candidateId == d.candidateId;
    hide IdTaken, KeyTaken, SameTransition, CandidateOpened;
  }

  ghost function Write(h: Hash, log: seq<Line>, d: Draft): seq<Line> {
    if Decide(log, d).Written? then log + [Sign(h, log, StoredForm(d))] else log
  }

  class EventStore {
    const hash: Hash
    var lines: seq<Line>

    constructor (hash: Hash)
      ensures this.hash == hash && lines == []
    {
      this.hash := hash;
      lines := [];
    }

    /** Validates the whole file; stops at the first bad line. */
    method ReadUnlocked() returns (r: Result<seq<Line>, (nat, Fault)>)
      ensures r.Ok? <==> Accepted(hash, lines)
      ensures r.Ok? ==> r.value == lines
      ensures r.Err? ==> FirstFault(hash, lines, r.error.0, r.error.1)
    {
      var previousHash := GENESIS;
      var semanticEvents: set<SemanticKey> := {};
      var terminalCloses: set<TradeId> := {};
      var i := 0;
      while i < |lines|
        invariant 0 <= i <= |lines| && Accepted(hash, lines[..i])
        invariant Tracks(lines[..i], previousHash, semanticEvents, terminalCloses)
      {
        hide Accepted, FaultOf, Inspect;
        var line := lines[i];
        var fault := Inspect(hash, i + 1, previousHash, semanticEvents, terminalCloses, line);
        InspectIsFault(hash, lines[..i], previousHash, semanticEvents, terminalCloses, line);
        assert lines[..i + 1] == lines[..i] + [line];
        AcceptedPush(hash, lines[..i], line);
        if fault.Some? {
          RejectedPrefix(hash, lines, i + 1);
          return Err((i + 1, fault.value));
        }
        TracksPush(lines[..i], previousHash, semanticEvents, terminalCloses, line);
        if line.link.body.key != NamedKey("") {
          semanticEvents := semanticEvents + {line.link.body.key};
        }
        if line.link.body.event.body.TradeClosed? {
          terminalCloses := terminalCloses + {line.link.body.tradeId};
        }
        previousHash := line.hash;
        i := i + 1;
      }
      assert lines[..i] == lines;
      return Ok(lines);
    }

    method Append(d: Draft) returns (r: Appending)
      modifies this
      ensures r.CorruptLog? <==> d.dataset == DATASET && Complete(d) && !Accepted(hash, old(lines))
      ensures r.CorruptLog? ==> FirstFault(hash, old(lines), r.line, r.fault)
      ensures !r.CorruptLog? ==> r == Decide(old(lines), d)
      ensures lines == if r.Written? then old(lines) + [Sign(hash, old(lines), StoredForm(d))] else old(lines)
      ensures r.Written? ==>
        var last := lines[|lines| - 1];
        && |lines| == |old(lines)| + 1 && old(lines) <= lines && last.hash == hash(last.link)
        && last.link.sequence == |old(lines)| + 1
        && last.link.previous == (if old(lines) == [] then "GENESIS" else old(lines[|lines| - 1].hash))
        && last.link.body == Stored(2, "forward_paper", d.eventId, d.key, d.candidateId, d.tradeId, d.planId, d.event)
    {
      hide Accepted, IdTaken, KeyTaken, SameTransition, CandidateOpened;
      if d.dataset != DATASET {
        return WrongDataset;
      }
      if !Complete(d) {
        return MissingField;
      }
      var read := ReadUnlocked();
      if read.Err? {
        return CorruptLog(read.error.0, read.error.1);
      }
      var events := read.value;
      var sameId := AnyWithId(events, d.eventId);
      if sameId {
        return Ignored;
      }
      var semanticMatch := FirstWithKey(events, d.key);
      if semanticMatch.Some? {
        MatchDecides(hash, events, d, semanticMatch.value);
        if semanticMatch.value.link.body.event.body == d.event.body {
          return Ignored;
        }
        return ConflictingRetry;
      }
      if d.event.body.TradeOpened? {
        var alreadyOpen := AnyOpenFor(events, d.candidateId);
        if alreadyOpen {
          return Ignored;
        }
      }
      lines := events + [Sign(hash, events, StoredForm(d))];
      return Written;
    }
  }

  method AnyWithId(events: seq<Line>, id: EventId) returns (found: bool)
    ensures found <==> IdTaken(events, id)
  {
    for i := 0 to |events|
      invariant forall j | 0 <= j < i :: events[j].link.body.eventId != id
    {
      if events[i].link.body.eventId == id {
        return true;
      }
    }
    return false;
  }

  method FirstWithKey(events: seq<Line>, key: SemanticKey) returns (found: Option<Line>)
    ensures found.Some? <==> KeyTaken(events, key)
    ensures found.Some? ==> found.value in events && found.value.link.body.key == key
  {
    for i := 0 to |events|
      invariant forall j | 0 <= j < i :: events[j].link.body.key != key
    {
      if events[i].link.body.key == key {
        return Some(events[i]);
      }
    }
    return None;
  }

  method AnyOpenFor(events: seq<Line>, candidateId: string) returns (found: bool)
    ensures found <==> CandidateOpened(events, candidateId)
  {
    for i := 0 to |events|
      invariant forall j | 0 <= j < i ::
        !(events[j].link.body.candidateId == candidateId && events[j].link.body.event.body.TradeOpened?)
    {
      if events[i].link.body.candidateId == candidateId && events[i].link.body.event.body.TradeOpened? {
        return true;
      }
    }
    return false;
  }

  lemma RejectedPrefix(h: Hash, log: seq<Line>, n: nat)
    requires n <= |log| && !Accepted(h, log[..n])
    ensures !Accepted(h, log)
  {
    var i :| 0 <= i < n && !FaultOf(h, log[..n][..i], log[..n][i]).None?;
    assert log[..n][..i] == log[..i] && log[..n][i] == log[i];
  }

  lemma MatchDecides(h: Hash, log: seq<Line>, d: Draft, found: Line)
    requires Accepted(h, log) && found in log && found.link.body.key == d.key && d.key != NamedKey("")
    ensures SameTransition(log, d) <==> found.link.body.event.body == d.event.body
  {
    if SameTransition(log, d) {
      var l :| l in log && l.link.body.key == d.key && l.link.body.event.body == d.event.body;
      var i :| 0 <= i < |log| && log[i] == found;
      var j :| 0 <= j < |log| && log[j] == l;
      if i < j { AcceptedKeysUnique(h, log, i, j); } else if j < i { AcceptedKeysUnique(h, log, j, i); }
    }
  }

  // ----- the writer agrees with the reader -----

  /**
   Exactly when a written record leaves a file the strict reader still accepts: the writer
   does not look for a second terminal close under another key, the reader does.
   */
  lemma WriteAcceptedIff(h: Hash, log: seq<Line>, d: Draft)
    requires Accepted(h, log)
    ensures Accepted(h, Write(h, log, d)) <==>
      !(Decide(log, d).Written? && d.event.body.TradeClosed? && CloseTaken(log, d.tradeId))
  {
    if Decide(log, d).Written? {
      AcceptedPush(h, log, Sign(h, log, StoredForm(d)));
    }
  }

  function CloseDraft(id: EventId, key: SemanticKey): Draft {
    Draft(DATASET, id, key, "c", NamedTrade("t"), "p", Event(0, TradeClosed(1.0, 1.0, 0.0, 0.0, StopLoss)))
  }

  /** A second close of one trade under a key of its own is written, and then the reader rejects the file. */
  lemma SecondCloseIsWritten(h: Hash) returns (log: seq<Line>, d: Draft)
    ensures Accepted(h, log) && Decide(log, d).Written? && !Accepted(h, Write(h, log, d))
  {
    var first := CloseDraft(NamedId("1"), NamedKey("first"));
    log := Write(h, [], first);
    d := CloseDraft(NamedId("2"), NamedKey("again"));
    assert Accepted(h, []);
    WriteAcceptedIff(h, [], first);
    assert log == [Sign(h, [], StoredForm(first))];
    assert log[0].link.body.tradeId == d.tradeId && CloseTaken(log, d.tradeId);
    WriteAcceptedIff(h, log, d);
  }

  /** A draft as the service builds it: content-derived id, semantic transition key. */
  predicate Canonical(d: Draft) {
    d.dataset == DATASET && d.eventId == ContentId(d.tradeId, d.event) && d.key == SemanticTransitionKey(d.tradeId,
      d.event)
  }

  predicate CanonicalLine(l: Line) {
    var b := l.link.body;
    && b.schemaVersion == SCHEMA_VERSION && b.dataset == DATASET && b.candidateId != "" && b.planId != ""
    && b.eventId == ContentId(b.tradeId, b.event) && b.key == SemanticTransitionKey(b.tradeId, b.event)
  }

  ghost predicate Healthy(h: Hash, log: seq<Line>) {
    Accepted(h, log) && forall l | l in log :: CanonicalLine(l)
  }

  lemma CanonicalCloseUnique(log: seq<Line>, d: Draft)
    requires Canonical(d) && d.event.body.TradeClosed? && CloseTaken(log, d.tradeId)
    requires forall l | l in log :: CanonicalLine(l)
    ensures KeyTaken(log, d.key)
  {
    var l :| l in log && l.link.body.event.body.TradeClosed? && l.link.body.tradeId == d.tradeId;
    assert CanonicalLine(l) && l.link.body.key == d.key;
  }

  lemma WriteHealthy(h: Hash, log: seq<Line>, d: Draft)
    requires Healthy(h, log) && Canonical(d)
    ensures Healthy(h, Write(h, log, d))
  {
    hide Accepted, KeyTaken, CloseTaken, SameTransition, IdTaken, CandidateOpened;
    WriteAcceptedIff(h, log, d);
    if d.event.body.TradeClosed? && CloseTaken(log, d.tradeId) {
      CanonicalCloseUnique(log, d);
    }
    if Decide(log, d).Written? {
      assert CanonicalLine(Sign(h, log, StoredForm(d)));
    }
  }

  ghost function WriteAll(h: Hash, log: seq<Line>, drafts: seq<Draft>): seq<Line>
    decreases |drafts|
  {
    if drafts == [] then log else WriteAll(h, Write(h, log, drafts[0]), drafts[1..])
  }

  ghost predicate OneOpenPerCandidate(log: seq<Line>) {
    forall i, j | 0 <= i < j < |log| && log[i].link.body.event.body.TradeOpened?
      && log[j].link.body.event.body.TradeOpened? ::
      log[i].link.body.candidateId != log[j].link.body.candidateId
  }

  lemma WriteOneOpen(h: Hash, log: seq<Line>, d: Draft)
    requires OneOpenPerCandidate(log)
    ensures OneOpenPerCandidate(Write(h, log, d))
  {
    if Decide(log, d).Written? && d.event.body.TradeOpened? {
      forall i | 0 <= i < |log| && log[i].link.body.event.body.TradeOpened?
        ensures log[i].link.body.candidateId != d.candidateId
      {
        assert log[i] in log;
      }
    }
  }

  /**
   Writer and reader agree over any sequence of service appends: the strict reader accepts
   the result, the old file is a prefix of it, and no candidate is opened twice.
   */
  lemma {:induction false} WriterReaderAgreement(h: Hash, log: seq<Line>, drafts: seq<Draft>)
    requires Healthy(h, log) && OneOpenPerCandidate(log) && forall d | d in drafts :: Canonical(d)
    ensures var after := WriteAll(h, log, drafts);
            && Healthy(h, after) && OneOpenPerCandidate(after)
            && log <= after && |after| <= |log| + |drafts|
    decreases |drafts|
  {
    hide Healthy, OneOpenPerCandidate, Decide;
    if drafts != [] {
      WriteHealthy(h, log, drafts[0]);
      WriteOneOpen(h, log, drafts[0]);
      WriterReaderAgreement(h, Write(h, log, drafts[0]), drafts[1..]);
    }
  }

  /** A retry of an event that is already persisted, at any later time, changes nothing. */
  lemma RetryIsIdempotent(h: Hash, log: seq<Line>, d: Draft, retry: Draft, between: seq<Draft>)
    requires Healthy(h, log) && Canonical(d) && Canonical(retry) && Decide(log, d).Written?
    requires retry.tradeId == d.tradeId && ActionOf(retry.event) == ActionOf(d.event)
    requires retry.event.body == d.event.body
    requires Complete(retry) && forall x | x in between :: Canonical(x)
    ensures Decide(WriteAll(h, Write(h, log, d), between), retry) == Ignored
  {
    var first := Write(h, log, d);
    var line := first[|log|];
    WriteHealthy(h, log, d);
    WriteAllExtends(h, first, between);
    var after := WriteAll(h, first, between);
    assert after[|log|] == line && line in after;
    assert SameTransition(after, retry) && KeyTaken(after, retry.key);
  }

  lemma {:induction false} WriteAllExtends(h: Hash, log: seq<Line>, drafts: seq<Draft>)
    ensures log <= WriteAll(h, log, drafts)
    decreases |drafts|
  {
    if drafts != [] {
      WriteAllExtends(h, Write(h, log, drafts[0]), drafts[1..]);
    }
  }
}
