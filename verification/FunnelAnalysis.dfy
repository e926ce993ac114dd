/**
 The reader of the structured funnel log in the strategy-funnel report.  It validates the
 chain before it trusts a single record, and it knows one event type fewer than the writer.
 */
module FunnelAnalysis {
  import opened Wrappers
  import opened HashChain
  import opened FunnelTelemetry

  /** The stages the report ranks; OUTCOME_LINK is not among them. */
  const RANKED_TYPES := {
    "DETECTOR_ATTEMPT", "DETECTOR_DECISION", "SELECTOR_DECISION", "SCORING_DECISION", "RISK_DECISION",
    "PLANNER_DECISION", "EXECUTABLE_DECISION", "FORWARD_PAPER_LINK"}

  /** What the validator looks at in a record, apart from its place in the chain. */
  predicate WellFormed(r: Record) {
    && r.schema == Some(SCHEMA_VERSION) && r.secondary.Some? && (forall f | f in TEXT_FIELDS :: f in r.texts)
    && r.Get("event_type") in RANKED_TYPES && r.Get("pass_fail") in {"PASS", "FAIL"}
    && r.Get("primary_reason_code") in REASON_CODES
    && forall i | 0 <= i < |r.secondary.value| :: r.secondary.value[i] in REASON_CODES
  }

  ghost predicate StageTaken(log: seq<FunnelLine>, key: string) {
    exists l | l in log :: LifecycleKey(l.link.body) == key
  }

  /** Whether the validator lets `l` pass after `log`. */
  ghost predicate Passes(h: FunnelHash, log: seq<FunnelLine>, l: FunnelLine) {
    var r := l.link.body;
    && WellFormed(r) && l.link.sequence == |log| + 1 && l.link.previous == Head(log) && l.hash == h(l.link)
    && !IdTaken(log, r.Get("event_id"))
    && r.Get("lifecycle_key") == LifecycleKey(r) && !StageTaken(log, LifecycleKey(r))
  }

  ghost predicate Trusted(h: FunnelHash, log: seq<FunnelLine>) {
    forall i | 0 <= i < |log| :: Passes(h, log[..i], log[i])
  }

  lemma StagePush(log: seq<FunnelLine>, l: FunnelLine)
    ensures forall key :: StageTaken(log + [l], key) <==> StageTaken(log, key) || LifecycleKey(l.link.body) == key
  {
    hide LifecycleKey;
    var whole := log + [l];
    assert whole[|log|] == l;
    forall key | StageTaken(log, key) ensures StageTaken(whole, key) {
      var x :| x in log && LifecycleKey(x.link.body) == key;
      assert x in whole;
    }
  }

  ghost predicate FirstUntrusted(h: FunnelHash, log: seq<FunnelLine>, n: nat) {
    1 <= n <= |log| && Trusted(h, log[..n - 1]) && !Passes(h, log[..n - 1], log[n - 1])
  }

  lemma NothingTaken()
    ensures forall id :: !IdTaken([], id)
    ensures forall key :: !StageTaken([], key)
  {
  }

  class StrategyFunnelAnalyzer {
    const hash: FunnelHash
    /** The positions at which structured logs were found invalid. */
    var qualityIssues: seq<nat>

    constructor (hash: FunnelHash)
      ensures this.hash == hash && qualityIssues == []
    {
      this.hash, qualityIssues := hash, [];
    }

    method ValidateStructuredChain(events: seq<FunnelLine>) returns (valid: bool)
      modifies this
      ensures valid <==> Trusted(hash, events)
      ensures valid ==> qualityIssues == old(qualityIssues)
      ensures !valid ==>
        |qualityIssues| == |old(qualityIssues)| + 1 && old(qualityIssues) < qualityIssues
        && FirstUntrusted(hash, events, qualityIssues[|qualityIssues| - 1])
    {
      hide WellFormed, LifecycleKey, IdTaken, StageTaken, KeyTaken;
      var previousHash := GENESIS;
      var eventIds: set<string> := {};
      var lifecycleKeys: set<string> := {};
      NothingTaken();
      assert events[..0] == [];
      for i := 0 to |events|
        invariant Trusted(hash, events[..i]) && previousHash == Head(events[..i]) && qualityIssues == old(qualityIssues)
        invariant forall id :: id in eventIds <==> IdTaken(events[..i], id)
        invariant forall key :: key in lifecycleKeys <==> StageTaken(events[..i], key)
      {
        var event := events[i];
        var r := event.link.body;
        var key := LifecycleKey(r);
        assert events[..i + 1] == events[..i] + [event];
        if !(WellFormed(r) && event.link.sequence == i + 1 && event.link.previous == previousHash
             && event.hash == hash(event.link)
             && r.Get("event_id") !in eventIds && r.Get("lifecycle_key") == key && key !in lifecycleKeys) {
          qualityIssues := qualityIssues + [i + 1];
          assert !Passes(hash, events[..i], events[i]);
          return false;
        }
        IdsAndStagesPush(events[..i], event);
        StagePush(events[..i], event);
        TrustedPush(hash, events[..i], event);
        eventIds := eventIds + {r.Get("event_id")};
        previousHash := event.hash;
        lifecycleKeys := lifecycleKeys + {key};
      }
      assert events[..|events|] == events;
      return true;
    }
  }

  lemma TrustedPush(h: FunnelHash, log: seq<FunnelLine>, l: FunnelLine)
    ensures Trusted(h, log + [l]) <==> Trusted(h, log) && Passes(h, log, l)
  {
    hide Passes;
    var whole := log + [l];
    assert whole[..|log|] == log && whole[|log|] == l;
    forall i | 0 <= i < |log| ensures whole[..i] == log[..i] && whole[i] == log[i] {
    }
  }

  /** A record the validator lets pass: every required text is there, even if empty, and the rest is known. */
  lemma WellFormedFields(r: Record)
    ensures WellFormed(r) <==>
      && r.schema == Some(2) && r.secondary.Some? && (forall f | f in TEXT_FIELDS :: f in r.texts)
      && (r.Get("pass_fail") == "PASS" || r.Get("pass_fail") == "FAIL")
      && KnownStage(r.Get("event_type")) && r.Get("event_type") != "OUTCOME_LINK"
      && r.Get("primary_reason_code") in REASON_CODES
      && forall reason | reason in r.secondary.value :: reason in REASON_CODES
  {
    hide Record.Get;
    StagesNamed();
    RankedAreWritten();
    if WellFormed(r) {
      forall reason | reason in r.secondary.value ensures reason in REASON_CODES {
        var i :| 0 <= i < |r.secondary.value| && r.secondary.value[i] == reason;
      }
    }
  }

  /** A record the report trusts: well formed, chained to the one before it, with no id and no stage of those before. */
  ghost predicate TrustedAt(h: FunnelHash, log: seq<FunnelLine>, j: nat)
    requires j < |log|
  {
    var link, r := log[j].link, log[j].link.body;
    && WellFormed(r) && link.sequence == j + 1 && log[j].hash == h(link)
    && link.previous == (if j == 0 then "GENESIS" else log[j - 1].hash)
    && r.Get("lifecycle_key") == r.Get("candidate_id") + ":" + r.Get("event_type")
    && forall i | 0 <= i < j ::
         && log[i].link.body.Get("event_id") != r.Get("event_id")
         && log[i].link.body.Get("candidate_id") + ":" + log[i].link.body.Get("event_type")
            != r.Get("candidate_id") + ":" + r.Get("event_type")
  }

  /** What the validator trusts, record by record. */
  lemma {:induction false} TrustedRecords(h: FunnelHash, log: seq<FunnelLine>)
    ensures Trusted(h, log) <==> forall j: nat | j < |log| :: TrustedAt(h, log, j)
  {
    hide Passes, TrustedAt;
    forall j: nat | j < |log| ensures Passes(h, log[..j], log[j]) <==> TrustedAt(h, log, j) {
      PassesRecord(h, log, j);
    }
  }

  lemma PassesRecord(h: FunnelHash, log: seq<FunnelLine>, j: nat)
    requires j < |log|
    ensures Passes(h, log[..j], log[j]) <==> TrustedAt(h, log, j)
  {
    hide WellFormed, Record.Get;
    var r := log[j].link.body;
    TakenIff(log[..j], r.Get("event_id"), LifecycleKey(r));
    StageTakenIff(log[..j], LifecycleKey(r));
    forall i | 0 <= i < j ensures log[..j][i] == log[i] {
    }
    hide IdTaken, StageTaken;
  }

  lemma StageTakenIff(log: seq<FunnelLine>, key: string)
    ensures StageTaken(log, key) <==>
      exists i | 0 <= i < |log| ::
        log[i].link.body.Get("candidate_id") + ":" + log[i].link.body.Get("event_type") == key
  {
    forall i | 0 <= i < |log| ensures log[i] in log {
    }
  }

  /** The record types the report can read. */
  predicate Readable(r: Record) {
    r.schema == Some(SCHEMA_VERSION) && r.Get("event_type") != "OUTCOME_LINK"
  }

  predicate Filled(r: Record) {
    forall f | f in TEXT_FIELDS :: r.Get(f) != ""
  }

  lemma RankedAreWritten()
    ensures forall t :: t in RANKED_TYPES <==> t in EVENT_TYPES && t != "OUTCOME_LINK"
  {
    assert EVENT_TYPES == RANKED_TYPES + {"OUTCOME_LINK"};
    assert forall t | t in RANKED_TYPES :: |t| > 12;
    assert |"OUTCOME_LINK"| == 12;
  }

  lemma WellFormedIff(r: Record)
    requires Filled(r)
    ensures WellFormed(r) <==> ValidRecord(r) && Readable(r)
  {
    RankedAreWritten();
  }

  /** Everything in the log is of the current schema, so both readers see the same stages. */
  lemma StagesAgree(log: seq<FunnelLine>, key: string)
    requires forall l | l in log :: l.link.body.schema == Some(SCHEMA_VERSION)
    ensures StageTaken(log, key) <==> KeyTaken(log, key)
  {
    hide LifecycleKey;
  }

  lemma PassesIff(h: FunnelHash, log: seq<FunnelLine>, l: FunnelLine)
    requires Filled(l.link.body) && forall x | x in log :: x.link.body.schema == Some(SCHEMA_VERSION)
    ensures Passes(h, log, l) <==> Fits(h, log, l) && Readable(l.link.body)
  {
    hide WellFormed, ValidRecord, LifecycleKey, IdTaken, StageTaken, KeyTaken, Filled, Record.Get;
    var r := l.link.body;
    WellFormedIff(r);
    StagesAgree(log, LifecycleKey(r));
    assert WellFormed(r) ==> r.schema == Some(SCHEMA_VERSION) by { WellFormedIsCurrent(r); }
  }

  lemma WellFormedIsCurrent(r: Record)
    ensures WellFormed(r) ==> r.schema == Some(SCHEMA_VERSION)
    ensures ValidRecord(r) && Readable(r) ==> WellFormed(r) || !Filled(r)
  {
    if Filled(r) {
      WellFormedIff(r);
    }
  }

  /** Over records with all fields filled in, the two readers differ in the record types they know. */
  lemma {:induction false} FilledTrustedIff(h: FunnelHash, log: seq<FunnelLine>)
    requires forall l | l in log :: Filled(l.link.body)
    ensures Trusted(h, log) <==> Stored(h, log) && forall l | l in log :: Readable(l.link.body)
    decreases |log|
  {
    hide Passes, Fits, Filled, Stored, Trusted;
    if log == [] {
      NothingStored(h);
    } else {
      var before, last := log[..|log| - 1], log[|log| - 1];
      assert log == before + [last];
      FilledTrustedIff(h, before);
      TrustedPush(h, before, last);
      StoredPush(h, before, last);
      if forall l | l in before :: Readable(l.link.body) {
        PassesIff(h, before, last);
      } else {
        var l :| l in before && !Readable(l.link.body);
        assert l in log;
      }
    }
  }

  lemma StoredReadableIsFilled(h: FunnelHash, log: seq<FunnelLine>)
    requires Stored(h, log) && forall l | l in log :: Readable(l.link.body)
    ensures forall l | l in log :: Filled(l.link.body)
  {
    forall l | l in log ensures Filled(l.link.body) {
      var i :| 0 <= i < |log| && log[i] == l;
      assert Fits(h, log[..i], log[i]);
    }
  }

  /**
   Where writer and report agree, exactly.  The validator tests that fields are present, the
   writer's reader that they are not empty; the reader knows legacy records and OUTCOME_LINK,
   the validator does not.  So a log is trusted with all fields filled in if and only if the
   writer's reader accepts it and it holds neither; and the reader rejects a trusted log if
   and only if a record of it has an empty field.
   */
  lemma TrustedIff(h: FunnelHash, log: seq<FunnelLine>)
    ensures Trusted(h, log) && (forall l | l in log :: Filled(l.link.body)) <==>
      Stored(h, log) && forall l | l in log :: Readable(l.link.body)
    ensures Trusted(h, log) ==> (!Stored(h, log) <==> exists l | l in log :: !Filled(l.link.body))
  {
    hide Stored, Trusted, Filled, Readable;
    if forall l | l in log :: Filled(l.link.body) {
      FilledTrustedIff(h, log);
    }
    if Stored(h, log) && forall l | l in log :: Readable(l.link.body) {
      StoredReadableIsFilled(h, log);
    }
    if Trusted(h, log) && Stored(h, log) {
      TrustedIsReadable(h, log);
      StoredReadableIsFilled(h, log);
    }
  }

  lemma TrustedIsReadable(h: FunnelHash, log: seq<FunnelLine>)
    requires Trusted(h, log)
    ensures forall l | l in log :: Readable(l.link.body)
  {
    RankedAreWritten();
    forall l | l in log ensures Readable(l.link.body) {
      var i :| 0 <= i < |log| && log[i] == l;
      assert Passes(h, log[..i], log[i]);
    }
  }

  lemma NothingStored(h: FunnelHash)
    ensures Trusted(h, []) && Stored(h, [])
  {
  }

  /** A log kept by the writer alone: every record is current and filled in. */
  ghost predicate OnlyCurrent(log: seq<FunnelLine>) {
    forall l | l in log :: ValidRecord(l.link.body)
  }

  lemma {:induction false} AppendsAreCurrent(h: FunnelHash, log: seq<FunnelLine>, records: seq<Record>)
    requires OnlyCurrent(log)
    ensures OnlyCurrent(AppendAll(h, log, records))
    decreases |records|
  {
    hide ValidRecord, LifecycleKey, IdTaken, KeyTaken;
    if records != [] {
      AppendsAreCurrent(h, Appended(h, log, records[0]), records[1..]);
    }
  }

  lemma CurrentIsFilled(log: seq<FunnelLine>)
    requires OnlyCurrent(log)
    ensures forall l | l in log :: Filled(l.link.body)
    ensures forall l | l in log :: Readable(l.link.body) <==> l.link.body.Get("event_type") != "OUTCOME_LINK"
  {
    forall l | l in log
      ensures Filled(l.link.body) && (Readable(l.link.body) <==> l.link.body.Get("event_type") != "OUTCOME_LINK")
    {
      assert ValidRecord(l.link.body);
    }
  }

  /**
   Over every run of the writer from an empty file: its own reader accepts the log, and the
   report trusts it if and only if no OUTCOME_LINK was written.  Linking one paper outcome
   makes the report reject the whole structured log, from then on.
   */
  lemma ReportReadsWriterIff(h: FunnelHash, records: seq<Record>, more: seq<Record>)
    ensures var log := AppendAll(h, [], records);
            && Stored(h, log)
            && (Trusted(h, log) <==> forall l | l in log :: l.link.body.Get("event_type") != "OUTCOME_LINK")
            && (!Trusted(h, log) ==> !Trusted(h, AppendAll(h, log, more)))
  {
    hide Stored, Trusted, ValidRecord, Record.Get, Appended;
    var log := AppendAll(h, [], records);
    var later := AppendAll(h, log, more);
    NothingStored(h);
    AppendAllStored(h, [], records);
    AppendAllStored(h, log, more);
    AppendsAreCurrent(h, [], records);
    AppendsAreCurrent(h, log, more);
    CurrentIsFilled(log);
    CurrentIsFilled(later);
    FilledTrustedIff(h, log);
    FilledTrustedIff(h, later);
    assert forall l | l in log :: l in later;
  }

  lemma StageKeysDiffer(h: FunnelHash, log: seq<FunnelLine>, i: nat, j: nat)
    requires Trusted(h, log) && i < j < |log|
    ensures LifecycleKey(log[i].link.body) != LifecycleKey(log[j].link.body)
  {
    hide WellFormed, LifecycleKey;
    assert Passes(h, log[..j], log[j]);
    assert log[..j][i] == log[i] && log[i] in log[..j];
  }

  /** In a trusted log a candidate has one record, and so one verdict, per stage. */
  lemma OneVerdictPerStage(h: FunnelHash, log: seq<FunnelLine>, i: nat, j: nat)
    requires Trusted(h, log) && i < |log| && j < |log|
    requires log[i].link.body.Get("candidate_id") == log[j].link.body.Get("candidate_id")
    requires log[i].link.body.Get("event_type") == log[j].link.body.Get("event_type")
    ensures i == j
  {
    hide Trusted;
    if i < j {
      StageKeysDiffer(h, log, i, j);
    } else if j < i {
      StageKeysDiffer(h, log, j, i);
    }
  }

  // ----- a run the report rejects -----

  /** One outcome link with every field filled in. */
  function LinkRecord(): Record {
    Record(Some(SCHEMA_VERSION),
      map f | f in TEXT_FIELDS ::
        if f == "candidate_id" then "c"
        else if f == "event_type" then "OUTCOME_LINK"
        else if f == "lifecycle_key" then "c:OUTCOME_LINK"
        else if f == "pass_fail" then "PASS"
        else if f == "primary_reason_code" then "FORWARD_LINKED"
        else "x",
      Some([]))
  }

  lemma LinkFields()
    ensures var r := LinkRecord();
            && r.schema == Some(SCHEMA_VERSION) && r.secondary == Some([])
            && r.Get("candidate_id") == "c" && r.Get("event_type") == "OUTCOME_LINK"
            && "lifecycle_key" in r.texts && r.Get("lifecycle_key") == "c:OUTCOME_LINK"
            && r.Get("pass_fail") == "PASS" && r.Get("primary_reason_code") == "FORWARD_LINKED"
    ensures forall f | f in TEXT_FIELDS :: LinkRecord().Get(f) != ""
  {
  }

  lemma LinkIsValid()
    ensures ValidRecord(LinkRecord()) && Keyed(LinkRecord()) == LinkRecord() && Answer([], LinkRecord()) == Ok(true)
  {
    hide LinkRecord, Record.Get;
    LinkFields();
    NothingTaken();
  }

  /** The writer appends one outcome link to an empty file; its own reader accepts the file, the report does not. */
  lemma LinkedLogIsRejected(h: FunnelHash)
    ensures var log := AppendAll(h, [], [LinkRecord()]);
            && Answer([], LinkRecord()) == Ok(true) && |log| == 1
            && Stored(h, log) && !Trusted(h, log) && forall more :: !Trusted(h, AppendAll(h, log, more))
  {
    hide Stored, Trusted;
    var r := LinkRecord();
    LinkIsValid();
    assert [r][1..] == [];
    var log := AppendAll(h, [], [r]);
    assert AppendAll(h, Appended(h, [], r), []) == Appended(h, [], r) == [Sign(h, [], r)];
    assert log == [Sign(h, [], r)];
    assert log[0].link.body.Get("event_type") == "OUTCOME_LINK";
    ReportReadsWriterIff(h, [r], []);
    forall more ensures !Trusted(h, AppendAll(h, log, more)) {
      ReportReadsWriterIff(h, [r], more);
    }
  }

  // ----- a log the report trusts and the writer's reader rejects -----

  /** A detector attempt whose session is there but empty. */
  function BlankRecord(): Record {
    Record(Some(SCHEMA_VERSION),
      map f | f in TEXT_FIELDS ::
        if f == "candidate_id" then "c"
        else if f == "event_type" then "DETECTOR_ATTEMPT"
        else if f == "lifecycle_key" then "c:DETECTOR_ATTEMPT"
        else if f == "pass_fail" then "PASS"
        else if f == "primary_reason_code" then "ATTEMPTED"
        else if f == "session" then ""
        else "x",
      Some([]))
  }

  lemma BlankFields()
    ensures var r := BlankRecord();
            && r.schema == Some(SCHEMA_VERSION) && r.secondary == Some([])
            && (forall f | f in TEXT_FIELDS :: f in r.texts)
            && r.Get("candidate_id") == "c" && r.Get("event_type") == "DETECTOR_ATTEMPT"
            && r.Get("lifecycle_key") == "c:DETECTOR_ATTEMPT"
            && r.Get("pass_fail") == "PASS" && r.Get("primary_reason_code") == "ATTEMPTED" && r.Get("session") == ""
  {
  }

  lemma BlankPasses(h: FunnelHash)
    ensures WellFormed(BlankRecord()) && Passes(h, [], Sign(h, [], BlankRecord()))
  {
    hide BlankRecord, Record.Get;
    BlankFields();
    NothingTaken();
  }

  /** A detector attempt with an empty session: the report trusts the log, the writer's reader rejects it. */
  lemma BlankIsTrusted(h: FunnelHash)
    ensures Trusted(h, [Sign(h, [], BlankRecord())]) && !Stored(h, [Sign(h, [], BlankRecord())])
  {
    hide BlankRecord, Record.Get, Passes, WellFormed, Stored, Readable;
    var line := Sign(h, [], BlankRecord());
    BlankFields();
    BlankPasses(h);
    assert [line][..0] == [];
    assert Trusted(h, [line]);
    assert "session" in TEXT_FIELDS && !Filled(line.link.body) && line in [line];
    TrustedIff(h, [line]);
  }

  // ----- tamper evidence -----

  lemma TrustedIsChained(h: FunnelHash, log: seq<FunnelLine>)
    requires Trusted(h, log)
    ensures Chained(h, log)
  {
    forall i | 0 <= i < |log| ensures Linked(h, log, i) {
      assert Passes(h, log[..i], log[i]);
    }
  }

  /** What either validator of the funnel log accepts. */
  ghost predicate Accepted(h: FunnelHash, log: seq<FunnelLine>) {
    Stored(h, log) || Trusted(h, log)
  }

  /** Tamper evidence for both validators, also between them: the head hash determines the log, up to collisions. */
  lemma AcceptedTamperEvident(h: FunnelHash, a: seq<FunnelLine>, b: seq<FunnelLine>) returns (i: nat, j: nat)
    requires a != [] && b != [] && Accepted(h, a) && Accepted(h, b) && Head(a) == Head(b)
    ensures i < |a| && j < |b|
    ensures a == b || Collision(h, a[i].link, b[j].link)
  {
    hide Stored, Trusted;
    forall log | Accepted(h, log) ensures Chained(h, log) {
      if Stored(h, log) {
        StoredIsChained(h, log);
      } else {
        TrustedIsChained(h, log);
      }
    }
    i, j := SameHeadSameLog(h, a, b);
  }
}
