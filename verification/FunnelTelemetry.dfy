/**
 The structured funnel log as its writer keeps it: a hash chain with unique event ids and
 at most one record per candidate and stage, appended through an index that is extended
 incrementally and never rereads the file.
 */
module FunnelTelemetry {
  import opened Wrappers
  import opened HashChain

  const SCHEMA_VERSION := 2
  const LEGACY_SCHEMA_VERSION := 1

  /** Required fields that hold text; the schema version and the secondary reasons are kept apart. */
  const TEXT_FIELDS := {
    "event_id", "lifecycle_key", "scan_id", "candidate_id", "event_type", "event_timestamp_utc", "strategy", "symbol",
    "direction", "timeframe", "candle_open_timestamp", "signal_timestamp", "session", "regime", "pass_fail",
    "primary_reason_code", "config_hash", "git_commit"}

  const EVENT_TYPES := {
    "DETECTOR_ATTEMPT", "DETECTOR_DECISION", "SELECTOR_DECISION", "SCORING_DECISION", "RISK_DECISION",
    "PLANNER_DECISION", "EXECUTABLE_DECISION", "FORWARD_PAPER_LINK", "OUTCOME_LINK"}

  const REASON_CODES := {
    "ATTEMPTED", "DETECTED", "NO_DETECTION", "DETECTOR_ERROR", "SELECTED", "NOT_SELECTED", "NO_CANDIDATES",
    "SELECTOR_ERROR", "SCORE_GO", "SCORE_WATCH", "SCORE_NO_GO", "RISK_ALLOWED", "RISK_BLOCKED", "PLAN_EXECUTABLE",
    "PLAN_BLOCKED", "FORWARD_LINKED", "FORWARD_NOT_ELIGIBLE", "UNKNOWN_DECISION", "FALLBACK_ATTEMPTED",
    "FALLBACK_DETECTED", "FALLBACK_NO_DETECTION", "SIGNAL_COOLDOWN", "RECENT_CLOSE_COOLDOWN", "SYMBOL_COOLDOWN",
    "DUPLICATE_CONTINUATION", "WEEKLY_FREEZE", "DAILY_DEFENSIVE", "CONSECUTIVE_LOSS_LIMIT", "EXPECTANCY_BLOCK",
    "SYMBOL_EXPECTANCY_PAUSE", "HTF_OPPOSITION", "SCORE_THRESHOLD", "ORDERBOOK_RISK", "EXECUTION_COST", "NET_EDGE",
    "RR_GEOMETRY", "MIN_NOTIONAL"}

  datatype Record = Record(schema: Option<int>, texts: map<string, string>, secondary: Option<seq<string>>) {
    function Get(field: string): string { if field in texts then texts[field] else "" }
  }

  type FunnelLine = Signed<Record>

  type FunnelHash = Link<Record> -> string

  /** The key of a record whose event type is one of the known, upper-case ones. */
  function LifecycleKey(r: Record): string {
    r.Get("candidate_id") + ":" + r.Get("event_type")
  }

  /** Whether a current-schema record may be written. */
  predicate ValidRecord(r: Record) {
    && r.schema == Some(SCHEMA_VERSION) && r.secondary.Some? && (forall f | f in TEXT_FIELDS :: r.Get(f) != "")
    && r.Get("event_type") in EVENT_TYPES && r.Get("pass_fail") in {"PASS", "FAIL"}
    && r.Get("primary_reason_code") in REASON_CODES
    && forall i | 0 <= i < |r.secondary.value| :: r.secondary.value[i] in REASON_CODES
  }

  predicate ValidStored(r: Record) {
    if r.schema == Some(LEGACY_SCHEMA_VERSION)
    then r.secondary.Some? && forall f | f in TEXT_FIELDS && f != "lifecycle_key" :: r.Get(f) != ""
    else ValidRecord(r)
  }

  /**
   A record the writer may write: every required text is there and not empty, and stage, verdict and
   all reasons are among the known ones.
   */
  lemma ValidRecordIff(r: Record)
    ensures ValidRecord(r) <==>
      && r.schema == Some(2) && r.secondary.Some?
      && r.Get("event_id") != "" && r.Get("lifecycle_key") != "" && r.Get("scan_id") != ""
      && r.Get("candidate_id") != "" && r.Get("event_timestamp_utc") != "" && r.Get("strategy") != ""
      && r.Get("symbol") != "" && r.Get("direction") != "" && r.Get("timeframe") != ""
      && r.Get("candle_open_timestamp") != "" && r.Get("signal_timestamp") != "" && r.Get("session") != ""
      && r.Get("regime") != "" && r.Get("config_hash") != "" && r.Get("git_commit") != ""
      && (r.Get("pass_fail") == "PASS" || r.Get("pass_fail") == "FAIL")
      && KnownStage(r.Get("event_type")) && r.Get("primary_reason_code") in REASON_CODES
      && forall reason | reason in r.secondary.value :: reason in REASON_CODES
  {
    hide Record.Get;
    StagesNamed();
    if ValidRecord(r) {
      forall reason | reason in r.secondary.value ensures reason in REASON_CODES {
        var i :| 0 <= i < |r.secondary.value| && r.secondary.value[i] == reason;
      }
    }
  }

  /** A record the reader knows: one of schema 1 needs every text but the lifecycle key, any other must be valid. */
  lemma ValidStoredIff(r: Record)
    ensures ValidStored(r) <==>
      if r.schema == Some(1)
      then && r.secondary.Some?
           && r.Get("event_id") != "" && r.Get("scan_id") != "" && r.Get("candidate_id") != ""
           && r.Get("event_type") != "" && r.Get("event_timestamp_utc") != "" && r.Get("strategy") != ""
           && r.Get("symbol") != "" && r.Get("direction") != "" && r.Get("timeframe") != ""
           && r.Get("candle_open_timestamp") != "" && r.Get("signal_timestamp") != "" && r.Get("session") != ""
           && r.Get("regime") != "" && r.Get("pass_fail") != "" && r.Get("primary_reason_code") != ""
           && r.Get("config_hash") != "" && r.Get("git_commit") != ""
      else ValidRecord(r)
  {
    hide Record.Get, ValidRecord;
    assert forall f | f in TEXT_FIELDS :: f == "lifecycle_key" || f in {
        "event_id", "scan_id", "candidate_id", "event_type", "event_timestamp_utc", "strategy", "symbol", "direction",
        "timeframe", "candle_open_timestamp", "signal_timestamp", "session", "regime", "pass_fail",
        "primary_reason_code", "config_hash", "git_commit"};
  }

  predicate KnownStage(stage: string) {
    || stage == "DETECTOR_ATTEMPT" || stage == "DETECTOR_DECISION" || stage == "SELECTOR_DECISION"
    || stage == "SCORING_DECISION" || stage == "RISK_DECISION" || stage == "PLANNER_DECISION"
    || stage == "EXECUTABLE_DECISION" || stage == "FORWARD_PAPER_LINK" || stage == "OUTCOME_LINK"
  }

  lemma StagesNamed()
    ensures forall stage :: stage in EVENT_TYPES <==> KnownStage(stage)
    ensures "" !in EVENT_TYPES && "" !in REASON_CODES
  {
  }

  ghost predicate IdTaken(log: seq<FunnelLine>, id: string) {
    exists l | l in log :: l.link.body.Get("event_id") == id
  }

  /** Only current-schema records occupy a lifecycle stage. */
  ghost predicate KeyTaken(log: seq<FunnelLine>, key: string) {
    exists l | l in log :: l.link.body.schema == Some(SCHEMA_VERSION) && LifecycleKey(l.link.body) == key
  }

  /** Whether `l` may follow `log`. */
  ghost predicate Fits(h: FunnelHash, log: seq<FunnelLine>, l: FunnelLine) {
    var r := l.link.body;
    && ValidStored(r) && l.link.sequence == |log| + 1 && l.link.previous == Head(log) && l.hash == h(l.link)
    && !IdTaken(log, r.Get("event_id"))
    && (r.schema == Some(SCHEMA_VERSION) ==>
          r.Get("lifecycle_key") == LifecycleKey(r) && !KeyTaken(log, LifecycleKey(r)))
  }

  ghost predicate Stored(h: FunnelHash, log: seq<FunnelLine>) {
    forall i | 0 <= i < |log| :: Fits(h, log[..i], log[i])
  }

  lemma StoredPush(h: FunnelHash, log: seq<FunnelLine>, l: FunnelLine)
    ensures Stored(h, log + [l]) <==> Stored(h, log) && Fits(h, log, l)
  {
    hide Fits;
    var whole := log + [l];
    assert whole[..|log|] == log && whole[|log|] == l;
    forall i | 0 <= i < |log| ensures whole[..i] == log[..i] && whole[i] == log[i] {
    }
  }

  /** A record that is right in itself and continues the one before it. */
  ghost predicate RightAt(h: FunnelHash, log: seq<FunnelLine>, j: nat)
    requires j < |log|
  {
    var link, r := log[j].link, log[j].link.body;
    && ValidStored(r) && link.sequence == j + 1 && log[j].hash == h(link)
    && link.previous == (if j == 0 then "GENESIS" else log[j - 1].hash)
    && (r.schema == Some(2) ==> r.Get("lifecycle_key") == r.Get("candidate_id") + ":" + r.Get("event_type"))
  }

  /** No record before it has its id, or its stage in the current schema. */
  ghost predicate NoTwin(log: seq<FunnelLine>, j: nat)
    requires j < |log|
  {
    var r := log[j].link.body;
    forall i | 0 <= i < j ::
      && log[i].link.body.Get("event_id") != r.Get("event_id")
      && !(log[i].link.body.schema == Some(2) && r.schema == Some(2)
           && log[i].link.body.Get("candidate_id") + ":" + log[i].link.body.Get("event_type")
              == r.Get("candidate_id") + ":" + r.Get("event_type"))
  }

  /** What the writer's reader accepts, record by record: valid, chained, and with no twin before it. */
  lemma {:induction false} StoredIff(h: FunnelHash, log: seq<FunnelLine>)
    ensures Stored(h, log) <==> forall j: nat | j < |log| :: RightAt(h, log, j) && NoTwin(log, j)
  {
    hide Fits, RightAt, NoTwin;
    forall j: nat | j < |log| ensures Fits(h, log[..j], log[j]) <==> RightAt(h, log, j) && NoTwin(log, j) {
      FitsIff(h, log, j);
    }
  }

  lemma FitsIff(h: FunnelHash, log: seq<FunnelLine>, j: nat)
    requires j < |log|
    ensures Fits(h, log[..j], log[j]) <==> RightAt(h, log, j) && NoTwin(log, j)
  {
    hide ValidStored, Record.Get;
    var r := log[j].link.body;
    TakenIff(log[..j], r.Get("event_id"), LifecycleKey(r));
    forall i | 0 <= i < j ensures log[..j][i] == log[i] {
    }
    hide IdTaken, KeyTaken;
  }

  lemma StoredIsChained(h: FunnelHash, log: seq<FunnelLine>)
    requires Stored(h, log)
    ensures Chained(h, log)
  {
    forall i | 0 <= i < |log| ensures Linked(h, log, i) {
      assert Fits(h, log[..i], log[i]);
    }
  }

  lemma IdsAndStagesPush(log: seq<FunnelLine>, l: FunnelLine)
    ensures forall id :: IdTaken(log + [l], id) <==> IdTaken(log, id) || l.link.body.Get("event_id") == id
    ensures forall key :: KeyTaken(log + [l], key) <==>
                          KeyTaken(log,
                            key) || (l.link.body.schema == Some(SCHEMA_VERSION) && LifecycleKey(l.link.body) == key)
  {
    hide LifecycleKey;
    var whole := log + [l];
    assert whole[|log|] == l;
    forall id | IdTaken(log, id) ensures IdTaken(whole, id) {
      var x :| x in log && x.link.body.Get("event_id") == id;
      assert x in whole;
    }
    forall key | KeyTaken(log, key) ensures KeyTaken(whole, key) {
      var x :| x in log && x.link.body.schema == Some(SCHEMA_VERSION) && LifecycleKey(x.link.body) == key;
      assert x in whole;
    }
  }

  datatype FunnelFault = InvalidRecord | CorruptLog | InvalidKey

  /** The record as it is written: the schema and the lifecycle key are filled in when they are absent. */
  function Keyed(r: Record): Record {
    var current := if r.schema.None? then r.(schema := Some(SCHEMA_VERSION)) else r;
    if r.Get("candidate_id") != "" && r.Get("event_type") != "" && "lifecycle_key" !in r.texts
    then current.(texts := r.texts["lifecycle_key" := LifecycleKey(r)])
    else current
  }

  /** What the writer answers on a log its reader accepts: true when it writes. */
  ghost function Answer(log: seq<FunnelLine>, r: Record): Result<bool, FunnelFault> {
    if !ValidRecord(Keyed(r)) then Err(InvalidRecord)
    else if IdTaken(log, r.Get("event_id")) || KeyTaken(log, Keyed(r).Get("lifecycle_key")) then Ok(false)
    else if Keyed(r).Get("lifecycle_key") != LifecycleKey(r) then Err(InvalidKey)
    else Ok(true)
  }

  /**
   Every answer of the writer, in terms of the lines it has: an id, or a stage of a candidate in the
   current schema, is written once, and a lifecycle key must be the one of its candidate and stage.
   */
  lemma AnswerIff(log: seq<FunnelLine>, r: Record)
    ensures var e, valid := Keyed(r), ValidRecord(Keyed(r));
            var sameId := exists i | 0 <= i < |log| :: log[i].link.body.Get("event_id") == r.Get("event_id");
            var sameKey := exists i | 0 <= i < |log| ::
              && log[i].link.body.schema == Some(2)
              && log[i].link.body.Get("candidate_id") + ":" + log[i].link.body.Get("event_type")
                 == e.Get("lifecycle_key");
            var rightKey := e.Get("lifecycle_key") == r.Get("candidate_id") + ":" + r.Get("event_type");
            && (Answer(log, r) == Err(InvalidRecord) <==> !valid)
            && (Answer(log, r) == Ok(false) <==> valid && (sameId || sameKey))
            && (Answer(log, r) == Err(InvalidKey) <==> valid && !sameId && !sameKey && !rightKey)
            && (Answer(log, r) == Ok(true) <==> valid && !sameId && !sameKey && rightKey)
  {
    hide ValidRecord, Keyed;
    TakenIff(log, r.Get("event_id"), Keyed(r).Get("lifecycle_key"));
    hide IdTaken, KeyTaken;
  }

  lemma TakenIff(log: seq<FunnelLine>, id: string, key: string)
    ensures IdTaken(log, id) <==> exists i | 0 <= i < |log| :: log[i].link.body.Get("event_id") == id
    ensures KeyTaken(log, key) <==>
      exists i | 0 <= i < |log| ::
        && log[i].link.body.schema == Some(2)
        && log[i].link.body.Get("candidate_id") + ":" + log[i].link.body.Get("event_type") == key
  {
    forall i | 0 <= i < |log| ensures log[i] in log {
    }
  }

  /** An absent schema is the current one, and an absent key is made of candidate and stage; what is there stays. */
  lemma KeyedIff(r: Record)
    ensures var e, key := Keyed(r), r.Get("candidate_id") + ":" + r.Get("event_type");
            && e.schema == (if r.schema == None then Some(2) else r.schema) && e.secondary == r.secondary
            && (forall f | f != "lifecycle_key" :: e.Get(f) == r.Get(f) && (f in e.texts <==> f in r.texts))
            && (e.Get("lifecycle_key") ==
                if "lifecycle_key" !in r.texts && r.Get("candidate_id") != "" && r.Get("event_type") != "" then key
                else r.Get("lifecycle_key"))
  {
  }

  lemma KeyedKeeps(r: Record)
    ensures Keyed(r).Get("event_id") == r.Get("event_id") && LifecycleKey(Keyed(r)) == LifecycleKey(r)
  {
  }

  datatype Index = Index(sequence: int, lastHash: string, eventIds: set<string>, stages: set<string>)

  /** The index describes the log up to `n`. */
  ghost predicate Indexes(h: FunnelHash, log: seq<FunnelLine>, n: nat, x: Index) {
    && n <= |log| && Stored(h, log[..n]) && x.sequence == n && x.lastHash == Head(log[..n])
    && (forall id :: id in x.eventIds <==> IdTaken(log[..n], id))
    && (forall key :: key in x.stages <==> KeyTaken(log[..n], key))
  }

  lemma IndexedAll(h: FunnelHash, log: seq<FunnelLine>, x: Index)
    requires Indexes(h, log, |log|, x)
    ensures Stored(h, log) && x.sequence == |log| && x.lastHash == Head(log)
    ensures forall id :: id in x.eventIds <==> IdTaken(log, id)
    ensures forall key :: key in x.stages <==> KeyTaken(log, key)
  {
    assert log[..|log|] == log;
  }

  lemma IndexesExtended(h: FunnelHash, log: seq<FunnelLine>, l: FunnelLine, x: Index)
    requires Indexes(h, log, |log|, x)
    ensures Indexes(h, log + [l], |log|, x)
  {
    assert (log + [l])[..|log|] == log == log[..|log|];
  }

  /** Whether the index lets a line pass as the next one. */
  predicate Accepts(h: FunnelHash, x: Index, l: FunnelLine) {
    var r := l.link.body;
    && ValidStored(r) && l.link.sequence == x.sequence + 1 && l.link.previous == x.lastHash && l.hash == h(l.link)
    && r.Get("event_id") !in x.eventIds
    && (r.schema == Some(SCHEMA_VERSION) ==> r.Get("lifecycle_key") == LifecycleKey(r) && LifecycleKey(r) !in x.stages)
  }

  function Taken(x: Index, l: FunnelLine): Index {
    var r := l.link.body;
    Index(l.link.sequence, l.hash, x.eventIds + {r.Get("event_id")},
          if r.schema == Some(SCHEMA_VERSION) then x.stages + {LifecycleKey(r)} else x.stages)
  }

  /** An index in step with the log accepts exactly what may follow, and stays in step. */
  lemma InStep(h: FunnelHash, log: seq<FunnelLine>, i: nat, x: Index)
    requires i < |log| && Indexes(h, log, i, x)
    ensures Accepts(h, x, log[i]) <==> Fits(h, log[..i], log[i])
    ensures Accepts(h, x, log[i]) ==> Indexes(h, log, i + 1, Taken(x, log[i]))
  {
    hide ValidStored, LifecycleKey, IdTaken, KeyTaken, Stored, Record.Get;
    assert log[..i + 1] == log[..i] + [log[i]];
    IdsAndStagesPush(log[..i], log[i]);
    StoredPush(h, log[..i], log[i]);
  }

  class FunnelEventStore {
    const hash: FunnelHash
    var lines: seq<FunnelLine>
    var initialized: bool
    var offset: nat
    var sequence: int
    var lastHash: string
    var eventIds: set<string>
    var stages: set<string>

    constructor (hash: FunnelHash)
      ensures this.hash == hash && lines == [] && !initialized && offset == 0
    {
      this.hash, lines := hash, [];
      initialized, offset, sequence, lastHash, eventIds, stages := false, 0, 0, GENESIS, {}, {};
    }

    function Current(): Index
      reads this
    {
      Index(sequence, lastHash, eventIds, stages)
    }

    /** Between calls that succeed: the index is in step with the part of the file it covers. */
    ghost predicate Valid()
      reads this
    {
      initialized && offset <= |lines| ==> Indexes(hash, lines, offset, Current())
    }

    /** After a tail that began well and turned out corrupt: the sequence has moved on, the offset has not. */
    predicate Ahead()
      reads this
    {
      initialized && sequence > offset
    }

    /** The index stopped at a line that may not follow the lines before it. */
    ghost predicate StoppedAt(i: nat)
      reads this
    {
      initialized && offset <= i < |lines| && Indexes(hash, lines, i, Current()) && !Fits(hash, lines[..i], lines[i])
    }

    /** Whether the next synchronisation starts from an index in step with the file, possibly a fresh one. */
    ghost predicate InStepWith()
      reads this
    {
      Valid() || |lines| < offset
    }

    method ResetIndex()
      modifies this`initialized, this`offset, this`sequence, this`lastHash, this`eventIds, this`stages
      ensures initialized && offset == 0 && Indexes(hash, lines, 0, Current())
    {
      initialized, offset, sequence, lastHash, eventIds, stages := true, 0, 0, GENESIS, {}, {};
    }

    /** Takes a line into the index. */
    method TakeIn(l: FunnelLine)
      modifies this`sequence, this`lastHash, this`eventIds, this`stages
      ensures Current() == Taken(old(Current()), l)
    {
      var r := l.link.body;
      if r.schema == Some(SCHEMA_VERSION) {
        stages := stages + {LifecycleKey(r)};
      }
      eventIds := eventIds + {r.Get("event_id")};
      sequence, lastHash := l.link.sequence, l.hash;
    }

    /** Checks one more line against the index and takes it in. */
    method IndexLine(i: nat) returns (ok: bool)
      requires i < |lines|
      modifies this`sequence, this`lastHash, this`eventIds, this`stages
      ensures ok <==> Accepts(hash, old(Current()), lines[i])
      ensures Current() == if ok then Taken(old(Current()), lines[i]) else old(Current())
    {
      hide ValidStored, LifecycleKey;
      var l := lines[i];
      var r := l.link.body;
      var current := r.schema == Some(SCHEMA_VERSION);
      if !ValidStored(r) || l.link.sequence != sequence + 1 || l.link.previous != lastHash || l.hash != hash(l.link) {
        return false;
      }
      if r.Get("event_id") in eventIds {
        return false;
      }
      if current && (r.Get("lifecycle_key") != LifecycleKey(r) || LifecycleKey(r) in stages) {
        return false;
      }
      TakeIn(l);
      return true;
    }

    /**
     Brings the index up to the end of the file, reading only what it has not seen.  In step
     with the file it decides whether the whole file is valid, and where it fails it stops.
     Ahead of its offset it stays ahead: it rejects every valid file that is longer than the
     offset, and takes a file cut back to the offset for one that it has read.
     */
    method SyncIndex() returns (ok: bool)
      requires Valid() || Ahead()
      modifies this`initialized, this`offset, this`sequence, this`lastHash, this`eventIds, this`stages
      ensures old(InStepWith()) ==> (ok <==> Stored(hash, lines))
      ensures old(InStepWith()) ==>
        if ok then initialized && offset == |lines| && Indexes(hash, lines, offset, Current())
        else
          && (exists i: nat :: StoppedAt(i))
          && offset == if old(initialized) && old(offset) <= |lines| then old(offset) else 0
      ensures !old(InStepWith()) ==> Ahead() && offset <= |lines| && (ok ==> offset == |lines|)
      ensures !old(InStepWith()) && Stored(hash, lines) ==>
        (ok <==> |lines| == old(offset)) && offset == old(offset) && Current() == old(Current())
    {
      hide Stored, Indexes, Accepts, Taken, Fits;
      ghost var inStep := InStepWith();
      if !initialized || |lines| < offset {
        ResetIndex();
      }
      InStepIsIndexed(inStep);
      var i := offset;
      while i < |lines|
        invariant initialized && offset <= i <= |lines|
        invariant offset == if old(initialized) && old(offset) <= |lines| then old(offset) else 0
        invariant inStep ==> Indexes(hash, lines, i, Current())
        invariant !inStep ==> offset == old(offset) && sequence - i == old(sequence) - old(offset)
        invariant !inStep && Stored(hash, lines) ==> i == offset && Current() == old(Current())
      {
        ghost var before := Current();
        ok := IndexLine(i);
        AcceptedSequence(hash, before, lines[i]);
        if inStep {
          InStep(hash, lines, i, before);
          if !ok {
            Misfit(hash, lines, i);
            assert StoppedAt(i);
          }
        } else if ok {
          WrongSequence(hash, lines, i);
        }
        if !ok {
          return;
        }
        i := i + 1;
      }
      offset := i;
      ok := true;
      if inStep {
        IndexedAll(hash, lines, Current());
      }
    }

    /** A stop at the first unseen line leaves the index in step, a later one leaves it ahead. */
    lemma StoppedIsUsable()
      ensures forall i: nat | StoppedAt(i) :: if i == offset then Valid() && !Ahead() else Ahead()
    {
    }

    lemma StoppedAtSecond(good: FunnelLine, bad: FunnelLine)
      requires lines == [good, bad] && Fits(hash, [], good)
      ensures forall i: nat | StoppedAt(i) :: i == 1
    {
      hide Fits, Indexes;
      assert lines[..0] == [];
    }

    lemma ValidWhenIndexed()
      requires initialized && Indexes(hash, lines, offset, Current())
      ensures Valid()
    {
    }

    lemma InStepIsIndexed(inStep: bool)
      requires initialized && offset <= |lines|
      requires inStep ==> (offset == 0 && Indexes(hash, lines, 0, Current())) || Valid()
      ensures inStep ==> Indexes(hash, lines, offset, Current())
    {
    }

    /**
     Appends a record unless its id or its lifecycle stage is already in the log.  An index
     that is ahead of its offset never extends a valid log to a valid one: it rejects a log
     that is longer than the offset, and otherwise writes a record that breaks the chain.
     */
    method Append(r: Record) returns (answer: Result<bool, FunnelFault>)
      requires Valid() || Ahead()
      modifies this
      ensures old(InStepWith()) ==>
        && answer == (if ValidRecord(Keyed(r)) && !Stored(hash, old(lines)) then Err(CorruptLog)
          else Answer(old(lines), r))
        && lines == if answer == Ok(true) then old(lines) + [Sign(hash, old(lines), Keyed(r))] else old(lines)
      ensures answer != Ok(true) ==> lines == old(lines)
      ensures !old(InStepWith()) ==> Ahead() && (answer == Ok(true) ==> !Stored(hash, lines))
      ensures !old(InStepWith()) && ValidRecord(Keyed(r)) && Stored(hash, old(lines)) && |old(lines)| > old(offset) ==>
        answer == Err(CorruptLog)
      ensures Valid() || Ahead()
    {
      hide Stored, Indexes, ValidRecord, LifecycleKey, Accepts, Taken, Fits;
      var event := Keyed(r);
      KeyedKeeps(r);
      if !ValidRecord(event) {
        return Err(InvalidRecord);
      }
      ghost var inStep := InStepWith();
      var ok := SyncIndex();
      if !ok {
        StoppedIsUsable();
        return Err(CorruptLog);
      }
      if inStep {
        IndexedAll(hash, lines, Current());
        ValidWhenIndexed();
      }
      if event.Get("event_id") in eventIds || event.Get("lifecycle_key") in stages {
        return Ok(false);
      }
      if event.Get("lifecycle_key") != LifecycleKey(event) {
        return Err(InvalidKey);
      }
      var link := Link(sequence + 1, lastHash, event);
      var line := Signed(link, hash(link));
      ghost var was, index := lines, Current();
      lines := lines + [line];
      assert lines[..offset] == was && lines[offset] == line;
      if inStep {
        SignedFits(hash, was, event);
        IndexesExtended(hash, was, line, index);
        InStep(hash, lines, offset, index);
      } else {
        WrongSequence(hash, lines, offset);
        AcceptedSequence(hash, index, line);
      }
      TakeIn(line);
      offset := offset + 1;
      return Ok(true);
    }
  }

  lemma AcceptedSequence(h: FunnelHash, x: Index, l: FunnelLine)
    ensures Taken(x, l).sequence == l.link.sequence
    ensures Accepts(h, x, l) ==> l.link.sequence == x.sequence + 1
  {
    hide ValidStored;
  }

  lemma WrongSequence(h: FunnelHash, log: seq<FunnelLine>, i: nat)
    requires i < |log| && log[i].link.sequence != i + 1
    ensures !Stored(h, log)
  {
    assert !Fits(h, log[..i], log[i]);
  }

  lemma Misfit(h: FunnelHash, log: seq<FunnelLine>, i: nat)
    requires i < |log| && !Fits(h, log[..i], log[i])
    ensures !Stored(h, log)
  {
  }

  /** A valid record with a fresh id and a fresh stage fits at the end of the log. */
  lemma SignedFits(h: FunnelHash, log: seq<FunnelLine>, r: Record)
    requires ValidRecord(r) && r.Get("lifecycle_key") == LifecycleKey(r)
    requires !IdTaken(log, r.Get("event_id")) && !KeyTaken(log, LifecycleKey(r))
    ensures Fits(h, log, Sign(h, log, r))
  {
    hide LifecycleKey, IdTaken, KeyTaken;
  }

  /**
   One good line and a bad one behind it, read together: once the tail is replaced by any
   valid one, the store still rejects every record.
   */
  method RepairedTailStaysRejected(h: FunnelHash, good: FunnelLine, bad: FunnelLine, repaired: seq<FunnelLine>,
      r: Record) returns (answer: Result<bool, FunnelFault>)
    requires Fits(h, [], good) && !Fits(h, [good], bad)
    requires Stored(h, repaired) && repaired != [] && ValidRecord(Keyed(r))
    ensures answer == Err(CorruptLog)
  {
    hide Fits, Stored, ValidRecord;
    var store := new FunnelEventStore(h);
    store.lines := [good, bad];
    var read := store.SyncIndex();
    assert !read && store.Ahead() by {
      SecondIsBad(h, good, bad);
      store.StoppedIsUsable();
      store.StoppedAtSecond(good, bad);
    }
    store.lines := repaired;
    answer := store.Append(r);
  }

  lemma SecondIsBad(h: FunnelHash, good: FunnelLine, bad: FunnelLine)
    requires Fits(h, [], good) && !Fits(h, [good], bad)
    ensures !Stored(h, [good, bad])
  {
    assert [good, bad][..1] == [good];
    Misfit(h, [good, bad], 1);
  }

  // ----- the writer keeps what the reader checks -----

  ghost function Appended(h: FunnelHash, log: seq<FunnelLine>, r: Record): seq<FunnelLine> {
    if Answer(log, r) == Ok(true) then log + [Sign(h, log, Keyed(r))] else log
  }

  ghost function AppendAll(h: FunnelHash, log: seq<FunnelLine>, records: seq<Record>): seq<FunnelLine>
    decreases |records|
  {
    if records == [] then log else AppendAll(h, Appended(h, log, records[0]), records[1..])
  }

  lemma AppendedStored(h: FunnelHash, log: seq<FunnelLine>, r: Record)
    requires Stored(h, log)
    ensures Stored(h, Appended(h, log, r)) && log <= Appended(h, log, r)
  {
    hide Stored, LifecycleKey;
    KeyedKeeps(r);
    if Answer(log, r) == Ok(true) {
      StoredPush(h, log, Sign(h, log, Keyed(r)));
    }
  }

  /** A log built by appends is one the reader accepts; each append only extends it. */
  lemma {:induction false} AppendAllStored(h: FunnelHash, log: seq<FunnelLine>, records: seq<Record>)
    requires Stored(h, log)
    ensures Stored(h, AppendAll(h, log, records)) && log <= AppendAll(h, log, records)
    decreases |records|
  {
    hide Stored, Appended;
    if records != [] {
      AppendedStored(h, log, records[0]);
      AppendAllStored(h, Appended(h, log, records[0]), records[1..]);
    }
  }

  /**
   Idempotence across scans and restarts: once a stage of a candidate is written, no later
   append writes another record for it, whatever its id, scan or verdict.
   */
  lemma StageWrittenOnce(h: FunnelHash, log: seq<FunnelLine>, first: Record, between: seq<Record>, again: Record)
    requires Stored(h, log) && Answer(log, first) == Ok(true) && ValidRecord(Keyed(again))
    requires LifecycleKey(again) == LifecycleKey(first) && Keyed(again).Get("lifecycle_key") == LifecycleKey(again)
    ensures Answer(AppendAll(h, Appended(h, log, first), between), again) == Ok(false)
  {
    hide Stored, ValidRecord, LifecycleKey;
    KeyedKeeps(first);
    var one := Appended(h, log, first);
    AppendedStored(h, log, first);
    AppendAllStored(h, one, between);
    var after := AppendAll(h, one, between);
    assert after[|log|] == one[|log|] && after[|log|] in after;
    WrittenIsCurrent(first);
    assert KeyTaken(after, LifecycleKey(first));
  }

  lemma WrittenIsCurrent(r: Record)
    requires ValidRecord(Keyed(r))
    ensures Keyed(r).schema == Some(SCHEMA_VERSION)
  {
  }

  /** Tamper evidence for the funnel log, up to hash collisions. */
  lemma FunnelTamperEvident(h: FunnelHash, a: seq<FunnelLine>, b: seq<FunnelLine>) returns (i: nat, j: nat)
    requires a != [] && b != [] && Stored(h, a) && Stored(h, b) && Head(a) == Head(b)
    ensures i < |a| && j < |b|
    ensures a == b || Collision(h, a[i].link, b[j].link)
  {
    StoredIsChained(h, a);
    StoredIsChained(h, b);
    i, j := SameHeadSameLog(h, a, b);
  }
}
