/**
 The life of one recorded position: moving its stop, repairing its protection, taking its
 targets and closing it, against an exchange that may fail at any call.  The calls of the
 exchange tell which requests were made and how they were answered.
 */
module PositionLifecycle {
  import opened Wrappers
  import opened PositionRecords
  import opened PositionTriggers
  import opened ExchangeOracle

  // ----- stop orders and their ids -----

  function Unique(ids: seq<string>): (r: seq<string>)
    ensures forall i, j | 0 <= i < j < |r| :: r[i] != r[j]
    ensures forall id :: id in r <==> id in ids && id != ""
  {
    if ids == [] then []
    else
      var rest, last := Unique(ids[..|ids| - 1]), ids[|ids| - 1];
      if last == "" || last in rest then rest else rest + [last]
  }

  lemma UniquePush(ids: seq<string>, id: string)
    ensures Unique([]) == [] && Unique(ids + [id]) == if id == "" || id in ids then Unique(ids) else Unique(ids) + [id]
  {
    assert (ids + [id])[..|ids|] == ids;
  }

  lemma {:induction false} UniqueExtends(ids: seq<string>, more: seq<string>)
    ensures Unique(ids) <= Unique(ids + more)
    decreases |more|
  {
    hide Unique;
    if more == [] {
      assert ids + more == ids;
    } else {
      var before, last := more[..|more| - 1], more[|more| - 1];
      assert ids + more == (ids + before) + [last];
      UniqueExtends(ids, before);
      UniquePush(ids + before, last);
    }
  }

  lemma UniqueOne(id: string)
    ensures Unique([id]) == if id == "" then [] else [id]
  {
    hide Unique;
    UniquePush([], id);
    assert [] + [id] == [id];
  }

  lemma UniquePair(direct: string, payload: string)
    ensures Unique([direct, payload]) ==
            if payload == "" || payload == direct then Unique([direct]) else Unique([direct]) + [payload]
  {
    hide Unique;
    UniquePush([direct], payload);
    assert [direct] + [payload] == [direct, payload] && (payload in [direct] <==> payload == direct);
  }

  /** The direct id comes first, then the one of the payload, and no other id is missing or made up. */
  lemma IdsInOrder(direct: string, payload: string, active: seq<string>)
    ensures var ids := Unique([direct, payload] + active);
            && (forall id :: id in ids <==> id != "" && (id == direct || id == payload || id in active))
            && (direct != "" ==> |ids| >= 1 && ids[0] == direct)
            && (direct == "" && payload != "" ==> |ids| >= 1 && ids[0] == payload)
            && (direct != "" && payload != "" && payload != direct ==> |ids| >= 2 && ids[1] == payload)
  {
    hide Unique;
    UniqueOne(direct);
    UniquePair(direct, payload);
    UniqueExtends([direct, payload], active);
  }

  /** One cancellation per id, in order. */
  ghost predicate CancelTrace(symbol: string, ids: seq<string>, t: seq<Call>, ok: bool) {
    && |t| == (if symbol == "" then 0 else |ids|)
    && (forall i | 0 <= i < |t| :: t[i].CancelStop? && t[i].symbol == symbol && t[i].id == ids[i])
    && (ok <==> forall i | 0 <= i < |t| :: t[i].ok)
  }

  /** Every id that is known and not empty is cancelled, the direct one first and then the one of the payload. */
  ghost predicate CancelsAll(direct: string, payload: string, active: seq<string>, t: seq<Call>) {
    && (forall i | 0 <= i < |t| ::
          t[i].CancelStop? && t[i].id != "" && (t[i].id == direct || t[i].id == payload || t[i].id in active))
    && (forall id | id != "" && (id == direct || id == payload || id in active) ::
          exists i | 0 <= i < |t| :: t[i].CancelStop? && t[i].id == id)
    && (direct != "" ==> t != [] && t[0].id == direct)
    && (direct == "" && payload != "" ==> t != [] && t[0].id == payload)
    && (direct != "" && payload != "" && payload != direct ==> |t| > 1 && t[1].id == payload)
  }

  lemma CancelsAllIds(direct: string, payload: string, active: seq<string>, t: seq<Call>)
    requires var ids := Unique([direct, payload] + active);
             |t| == |ids| && forall i | 0 <= i < |t| :: t[i].CancelStop? && t[i].id == ids[i]
    ensures CancelsAll(direct, payload, active, t)
  {
    hide Unique;
    IdsInOrder(direct, payload, active);
    var ids := Unique([direct, payload] + active);
    forall i | 0 <= i < |t|
      ensures t[i].id != "" && (t[i].id == direct || t[i].id == payload || t[i].id in active)
    {
      assert ids[i] in ids;
    }
    forall id | id != "" && (id == direct || id == payload || id in active)
      ensures exists i | 0 <= i < |t| :: t[i].CancelStop? && t[i].id == id
    {
      assert id in ids;
      var i :| 0 <= i < |ids| && ids[i] == id;
      assert t[i].id == id;
    }
  }

  /** Attempts to move the stop: all but the last fail, and there are at most three. */
  ghost predicate AttemptTrace(symbol: string, price: real, t: seq<Call>, moved: bool) {
    && 1 <= |t| <= 3 && (!moved ==> |t| == 3)
    && forall i | 0 <= i < |t| :: t[i] == MoveStop(symbol, price, moved && i == |t| - 1)
  }

  /** No new stop is placed before every known one is cancelled. */
  ghost predicate MoveTrace(symbol: string, ids: seq<string>, price: real, t: seq<Call>, moved: bool) {
    exists n: nat, cancelled :: n <= |t| && CancelTrace(symbol, ids, t[..n], cancelled)
      && if cancelled then AttemptTrace(symbol, price, t[n..], moved) else !moved && n == |t|
  }

  lemma MoveTraceOf(symbol: string, ids: seq<string>, price: real, first: seq<Call>, cancelled: bool,
      attempts: seq<Call>, moved: bool)
    requires CancelTrace(symbol, ids, first, cancelled)
    requires if cancelled then AttemptTrace(symbol, price, attempts, moved) else !moved && attempts == []
    ensures MoveTrace(symbol, ids, price, first + attempts, moved)
  {
    var t := first + attempts;
    assert t[..|first|] == first && t[|first|..] == attempts;
  }

  /** A protective move counts only when the exchange confirms the new stop. */
  ghost predicate ProtectTrace(symbol: string, ids: seq<string>, price: real, t: seq<Call>, ok: bool) {
    || (!ok && MoveTrace(symbol, ids, price, t, false))
    || (t != [] && t[|t| - 1] == VerifyStop(symbol, price, ok) && MoveTrace(symbol, ids, price, t[..|t| - 1], true))
  }

  /** A request to close a quantity, repeated once if the first was refused. */
  ghost predicate CloseTrace(symbol: string, size: real, t: seq<Call>, closed: bool) {
    t == [CloseSize(symbol, size, closed)] || t == [CloseSize(symbol, size, false), CloseSize(symbol, size, closed)]
  }

  // ----- where a move leaves the local stop and the stop orders -----

  /** The price of the last stop that was granted, or the given one when none was. */
  function LastGranted(t: seq<Call>, symbol: string, stop: real): real {
    if t == [] then stop
    else
      var c := t[|t| - 1];
      if c.MoveStop? && c.symbol == symbol && c.ok then c.price else LastGranted(t[..|t| - 1], symbol, stop)
  }

  ghost predicate NoneGranted(t: seq<Call>) {
    forall i | 0 <= i < |t| :: !(t[i].MoveStop? && t[i].ok)
  }

  lemma {:induction false} NoneGrantedKeeps(t: seq<Call>, symbol: string, stop: real)
    requires NoneGranted(t)
    ensures LastGranted(t, symbol, stop) == stop
  {
    if t != [] {
      NoneGrantedKeeps(t[..|t| - 1], symbol, stop);
    }
  }

  lemma MoveGrants(symbol: string, ids: seq<string>, price: real, t: seq<Call>, moved: bool)
    requires MoveTrace(symbol, ids, price, t, moved)
    ensures if moved then t != [] && t[|t| - 1] == MoveStop(symbol, price, true) else NoneGranted(t)
  {
    hide MoveTrace;
    var n, cancelled := MoveParts(symbol, ids, price, t, moved);
  }

  /** The exchange granted the move and then did not show the new stop. */
  predicate Unconfirmed(t: seq<Call>, symbol: string, price: real) {
    |t| >= 2 && t[|t| - 2] == MoveStop(symbol, price, true) && t[|t| - 1] == VerifyStop(symbol, price, false)
  }

  /**
   When a protective move leaves a local stop other than the one the exchange granted last:
   exactly when the move to a new price was granted and not recorded.
   */
  lemma UnconfirmedStopIff(symbol: string, ids: seq<string>, price: real, t: seq<Call>, ok: bool, stop: real)
    requires ProtectTrace(symbol, ids, price, t, ok)
    ensures LastGranted(t, symbol, stop) != (if ok then price else stop) <==>
      Unconfirmed(t, symbol, price) && price != stop
  {
    hide MoveTrace;
    if !ok && MoveTrace(symbol, ids, price, t, false) {
      MoveGrants(symbol, ids, price, t, false);
      NoneGrantedKeeps(t, symbol, stop);
    } else {
      var moves := t[..|t| - 1];
      MoveGrants(symbol, ids, price, moves, true);
      assert LastGranted(t, symbol, stop) == LastGranted(moves, symbol, stop) == price;
      assert moves[|moves| - 1] == t[|t| - 2];
    }
  }

  /** Every known stop order was cancelled, and no new stop granted. */
  ghost predicate NoStopLeft(symbol: string, ids: seq<string>, t: seq<Call>) {
    NoneGranted(t) && forall k | 0 <= k < |ids| :: CancelStop(symbol, ids[k], true) in t
  }

  /** All cancellations granted, all attempts refused. */
  function Abandoned(symbol: string, ids: seq<string>, price: real): seq<Call> {
    seq(|ids|, i requires 0 <= i < |ids| => CancelStop(symbol, ids[i], true))
    + seq(3, _ => MoveStop(symbol, price, false))
  }

  predicate Distinct(ids: seq<string>) {
    forall i, j | 0 <= i < j < |ids| :: ids[i] != ids[j]
  }

  /** A granted cancellation of a known id is the one at its place. */
  lemma CancelledAt(symbol: string, ids: seq<string>, t: seq<Call>, n: nat, k: nat)
    requires n <= |t| && n <= |ids| && k < |ids| && Distinct(ids) && CancelStop(symbol, ids[k], true) in t
    requires forall i | 0 <= i < n :: t[i].CancelStop? && t[i].id == ids[i]
    requires forall i | n <= i < |t| :: t[i].MoveStop?
    ensures k < n && t[k].ok
  {
    var i :| 0 <= i < |t| && t[i] == CancelStop(symbol, ids[k], true);
    assert i < n && ids[i] == ids[k];
  }

  /** The calls of a move: what its parts are, one by one. */
  lemma MoveParts(symbol: string, ids: seq<string>, price: real, t: seq<Call>, moved: bool)
    returns (n: nat, cancelled: bool)
    requires MoveTrace(symbol, ids, price, t, moved)
    ensures n <= |t| && n == (if symbol == "" then 0 else |ids|)
    ensures forall i | 0 <= i < n :: t[i].CancelStop? && t[i].symbol == symbol && t[i].id == ids[i]
    ensures forall i | n <= i < |t| :: t[i] == MoveStop(symbol, price, moved && i == |t| - 1)
    ensures cancelled <==> forall i | 0 <= i < n :: t[i].ok
    ensures if cancelled then n < |t| && (!moved ==> |t| == n + 3) else !moved && n == |t|
  {
    n, cancelled :| n <= |t| && CancelTrace(symbol, ids, t[..n], cancelled)
      && if cancelled then AttemptTrace(symbol, price, t[n..], moved) else !moved && n == |t|;
    assert forall i | 0 <= i < n :: t[i] == t[..n][i];
    assert forall i | n <= i < |t| :: t[i] == t[n..][i - n];
  }

  lemma NoStopLeftIsAbandoned(symbol: string, ids: seq<string>, price: real, t: seq<Call>, moved: bool)
    requires MoveTrace(symbol, ids, price, t, moved) && Distinct(ids) && NoStopLeft(symbol, ids, t)
    ensures t == Abandoned(symbol, ids, price)
  {
    hide MoveTrace, Distinct;
    var n, cancelled := MoveParts(symbol, ids, price, t, moved);
    if ids != [] {
      CancelledAt(symbol, ids, t, n, |ids| - 1);
    }
    assert n == |ids|;
    forall k | 0 <= k < n ensures t[k].ok {
      CancelledAt(symbol, ids, t, n, k);
    }
    assert cancelled;
    assert !(t[|t| - 1].MoveStop? && t[|t| - 1].ok);
    assert !moved;
    var abandoned := Abandoned(symbol, ids, price);
    assert |t| == |abandoned|;
    forall i | 0 <= i < |t| ensures t[i] == abandoned[i] {
    }
  }

  lemma AbandonedLeavesNoStop(symbol: string, ids: seq<string>, price: real)
    ensures NoStopLeft(symbol, ids, Abandoned(symbol, ids, price))
  {
    var t := Abandoned(symbol, ids, price);
    forall k | 0 <= k < |ids| ensures CancelStop(symbol, ids[k], true) in t {
      assert t[k] == CancelStop(symbol, ids[k], true);
    }
  }

  /** When a move leaves no stop order: exactly when all cancellations were granted and all three attempts refused. */
  lemma NoStopLeftIff(symbol: string, ids: seq<string>, price: real, t: seq<Call>, moved: bool)
    requires MoveTrace(symbol, ids, price, t, moved) && Distinct(ids)
    ensures NoStopLeft(symbol, ids, t) <==> t == Abandoned(symbol, ids, price)
  {
    hide MoveTrace, Distinct, NoStopLeft, Abandoned;
    AbandonedLeavesNoStop(symbol, ids, price);
    if NoStopLeft(symbol, ids, t) {
      NoStopLeftIsAbandoned(symbol, ids, price, t, moved);
    }
  }

  lemma ProtectLeavesNoStopIff(symbol: string, ids: seq<string>, price: real, t: seq<Call>, ok: bool)
    requires ProtectTrace(symbol, ids, price, t, ok) && Distinct(ids)
    ensures NoStopLeft(symbol, ids, t) <==> t == Abandoned(symbol, ids, price)
  {
    hide MoveTrace;
    if !ok && MoveTrace(symbol, ids, price, t, false) {
      NoStopLeftIff(symbol, ids, price, t, false);
    } else {
      var moves := t[..|t| - 1];
      MoveGrants(symbol, ids, price, moves, true);
      assert t[|t| - 2] == moves[|moves| - 1];
      assert t[|t| - 1] == VerifyStop(symbol, price, ok);
    }
  }

  /** A granted move that is not confirmed: the exchange holds a stop at 101, the record still says 90. */
  lemma UnconfirmedMove() returns (t: seq<Call>)
    ensures ProtectTrace("BTCUSDT", ["a"], 101.0, t, false)
    ensures LastGranted(t, "BTCUSDT", 90.0) == 101.0
  {
    var first, attempts := [CancelStop("BTCUSDT", "a", true)], [MoveStop("BTCUSDT", 101.0, true)];
    MoveTraceOf("BTCUSDT", ["a"], 101.0, first, true, attempts, true);
    t := first + attempts + [VerifyStop("BTCUSDT", 101.0, false)];
    assert t[..|t| - 1] == first + attempts;
  }

  /** A move that fails after its cancellation: the position has no stop order, the record still says 90. */
  lemma AbandonedMove() returns (t: seq<Call>)
    ensures ProtectTrace("BTCUSDT", ["a"], 101.0, t, false) && NoStopLeft("BTCUSDT", ["a"], t)
    ensures LastGranted(t, "BTCUSDT", 90.0) == 90.0
  {
    var first := [CancelStop("BTCUSDT", "a", true)];
    var refusal := MoveStop("BTCUSDT", 101.0, false);
    MoveTraceOf("BTCUSDT", ["a"], 101.0, first, true, [refusal, refusal, refusal], false);
    t := first + [refusal, refusal, refusal];
    assert t == Abandoned("BTCUSDT", ["a"], 101.0);
    NoStopLeftIff("BTCUSDT", ["a"], 101.0, t, false);
    NoneGrantedKeeps(t, "BTCUSDT", 90.0);
  }

  lemma StrandedStays(calls: seq<Call>, later: seq<Call>, from: nat, p: Position)
    requires calls <= later
    ensures Stranded(calls, from, p) ==> Stranded(later, from, p)
  {
    if CloseRefused(calls, from, p) {
      CloseRefusedStays(calls, later, from, p);
    }
  }

  /** A protective request the exchange did not grant. */
  predicate Fails(c: Call, symbol: string) {
    c.symbol == symbol && (c.CancelStop? || c.MoveStop? || c.VerifyStop?) && !c.ok
  }

  ghost predicate Refused(calls: seq<Call>, from: nat, symbol: string) {
    exists i | from <= i < |calls| :: Fails(calls[i], symbol)
  }

  /** Since `from`, the exchange was asked to close the quantity of a position, and refused. */
  ghost predicate CloseRefused(calls: seq<Call>, from: nat, p: Position) {
    exists i | from <= i < |calls| :: calls[i] == CloseSize(p.id.symbol, p.id.size, false)
  }

  lemma CloseRefusedStays(calls: seq<Call>, later: seq<Call>, from: nat, p: Position)
    requires calls <= later && CloseRefused(calls, from, p)
    ensures CloseRefused(later, from, p)
  {
    var i :| from <= i < |calls| && calls[i] == CloseSize(p.id.symbol, p.id.size, false);
    assert later[i] == calls[i];
  }

  /** Whether nothing more can be done for an unprotected record. */
  ghost predicate Stranded(calls: seq<Call>, from: nat, p: Position) {
    p.id.size <= 0.0 || p.id.symbol == "" || CloseRefused(calls, from, p)
  }

  lemma RefusedStays(calls: seq<Call>, later: seq<Call>, from: nat, after: nat, symbol: string)
    requires calls <= later && from <= after && Refused(calls, after, symbol)
    ensures Refused(later, from, symbol)
  {
    var i :| after <= i < |calls| && Fails(calls[i], symbol);
    assert later[i] == calls[i];
  }

  lemma RefusedParts(start: seq<Call>, mid: seq<Call>, after: seq<Call>, final: seq<Call>, symbol: string)
    requires start <= mid <= after <= final
    ensures Refused(mid, |start|, symbol) || Refused(after, |mid|, symbol) || Refused(final, |after|, symbol) ==>
      Refused(final, |start|, symbol)
  {
    if Refused(mid, |start|, symbol) {
      RefusedStays(mid, final, |start|, |start|, symbol);
    } else if Refused(after, |mid|, symbol) {
      RefusedStays(after, final, |start|, |mid|, symbol);
    } else if Refused(final, |after|, symbol) {
      RefusedStays(final, final, |start|, |after|, symbol);
    }
  }

  /** A stop that was not moved was refused somewhere. */
  lemma NotMovedIsRefused(symbol: string, ids: seq<string>, price: real, t: seq<Call>, before: seq<Call>)
    requires MoveTrace(symbol, ids, price, t, false)
    ensures Refused(before + t, |before|, symbol)
  {
    var n: nat, cancelled :| n <= |t| && CancelTrace(symbol, ids, t[..n], cancelled)
      && if cancelled then AttemptTrace(symbol, price, t[n..], false) else n == |t|;
    var i: nat;
    if cancelled {
      assert t[n..][0] == t[n];
      i := n;
    } else {
      var k :| 0 <= k < n && !t[..n][k].ok;
      assert t[k].symbol == symbol;
      i := k;
    }
    assert (before + t)[|before| + i] == t[i] && Fails(t[i], symbol);
  }

  lemma NotProtectedIsRefused(symbol: string, ids: seq<string>, price: real, t: seq<Call>, before: seq<Call>)
    requires ProtectTrace(symbol, ids, price, t, false)
    ensures Refused(before + t, |before|, symbol)
  {
    hide MoveTrace;
    if MoveTrace(symbol, ids, price, t, false) {
      NotMovedIsRefused(symbol, ids, price, t, before);
    } else {
      assert (before + t)[|before| + |t| - 1] == t[|t| - 1] && Fails(t[|t| - 1], symbol);
    }
  }

  // ----- what every step of a synchronisation keeps -----

  ghost predicate Moved(calls: seq<Call>, from: nat, symbol: string, price: real) {
    exists i | from <= i < |calls| :: calls[i] == MoveStop(symbol, price, true)
  }

  /** The exchange was asked to close and did not raise, or said there is nothing to close. */
  ghost predicate Answered(c: Call, symbol: string) {
    || (c.CloseAll? && c.symbol == symbol && !c.answer.Raised?)
    || (c.CloseSize? && c.symbol == symbol && c.ok)
  }

  ghost predicate AskedToClose(calls: seq<Call>, from: nat, symbol: string) {
    exists i | from <= i < |calls| :: Answered(calls[i], symbol)
  }

  /** Why a record may be closed during the synchronisation of a symbol that is open on the exchange. */
  ghost predicate MayBeClosed(cfg: Settings, v: View, q: Position, calls: seq<Call>, from: nat) {
    AskedToClose(calls, from, q.id.symbol) || (!cfg.tp3CloseAll && q.hits.tp3Hit) || v.liveSize <= 0.0
  }

  /** The stop is the last one recorded in this synchronisation, or the one it began with. */
  function RecordedStop(began: Position, recorded: seq<real>): real {
    if recorded == [] then began.stop else recorded[|recorded| - 1]
  }

  ghost predicate Sound(cfg: Settings, v: View, began: Position, q: Position, calls: seq<Call>, from: nat,
      recorded: seq<real>) {
    && from <= |calls| && Keeps(cfg, began, q) && q.tps == began.tps
    && q.stop == RecordedStop(began, recorded)
    && (forall i | 0 <= i < |recorded| :: Moved(calls, from, q.id.symbol, recorded[i]))
    && (!q.status.Open? ==> MayBeClosed(cfg, v, q, calls, from))
  }

  /** A step that leaves status and stop alone keeps a record sound. */
  lemma SoundStep(cfg: Settings, v: View, began: Position, p: Position, q: Position, calls: seq<Call>, more: seq<Call>,
      from: nat, recorded: seq<real>)
    requires Sound(cfg, v, began, p, calls, from, recorded)
    requires Keeps(cfg, p, q) && q.tps == p.tps && q.stop == p.stop && q.status == p.status
    ensures Sound(cfg, v, began, q, calls + more, from, recorded)
  {
    hide Moved, MayBeClosed;
    MovedStays(calls, more, from, q.id.symbol, recorded);
    ClosedStays(cfg, v, p, q, calls, more, from);
  }

  /** A change of flags keeps a record sound. */
  lemma SoundNote(cfg: Settings, v: View, began: Position, p: Position, q: Position, calls: seq<Call>, from: nat,
      recorded: seq<real>)
    requires Sound(cfg, v, began, p, calls, from, recorded)
    requires Keeps(cfg, p, q) && q.tps == p.tps && q.stop == p.stop && q.status == p.status
    ensures Sound(cfg, v, began, q, calls, from, recorded)
  {
    SoundStep(cfg, v, began, p, q, calls, [], from, recorded);
    assert calls + [] == calls;
  }

  /** More calls alone keep a record sound. */
  lemma SoundCalls(cfg: Settings, v: View, began: Position, p: Position, calls: seq<Call>, more: seq<Call>, from: nat,
      recorded: seq<real>)
    requires Sound(cfg, v, began, p, calls, from, recorded)
    ensures Sound(cfg, v, began, p, calls + more, from, recorded)
  {
    SoundStep(cfg, v, began, p, p, calls, more, from, recorded);
  }

  lemma MovedStays(calls: seq<Call>, more: seq<Call>, from: nat, symbol: string, recorded: seq<real>)
    requires forall i | 0 <= i < |recorded| :: Moved(calls, from, symbol, recorded[i])
    ensures forall i | 0 <= i < |recorded| :: Moved(calls + more, from, symbol, recorded[i])
  {
    hide Moved;
    forall i | 0 <= i < |recorded| ensures Moved(calls + more, from, symbol, recorded[i]) {
      MovedOnce(calls, more, from, symbol, recorded[i]);
    }
  }

  lemma ClosedStays(cfg: Settings, v: View, p: Position, q: Position, calls: seq<Call>, more: seq<Call>, from: nat)
    requires q.id.symbol == p.id.symbol && (p.hits.tp3Hit ==> q.hits.tp3Hit)
    requires !p.status.Open? ==> MayBeClosed(cfg, v, p, calls, from)
    ensures !p.status.Open? ==> MayBeClosed(cfg, v, q, calls + more, from)
  {
    if !p.status.Open? && AskedToClose(calls, from, p.id.symbol) {
      var k :| from <= k < |calls| && Answered(calls[k], p.id.symbol);
      assert (calls + more)[k] == calls[k];
    }
  }

  /** Recording a granted move keeps a record sound. */
  lemma SoundMove(cfg: Settings, v: View, began: Position, p: Position, q: Position, calls: seq<Call>, from: nat,
      recorded: seq<real>, price: real)
    requires Sound(cfg, v, began, p, calls, from, recorded) && Moved(calls, from, p.id.symbol, price)
    requires Keeps(cfg, p, q) && q.tps == p.tps && q.stop == price && q.status == p.status
    ensures Sound(cfg, v, began, q, calls, from, recorded + [price])
  {
    hide Moved, MayBeClosed;
    ClosedStays(cfg, v, p, q, calls, [], from);
    assert calls + [] == calls;
  }

  lemma MovedOnce(calls: seq<Call>, more: seq<Call>, from: nat, symbol: string, price: real)
    requires Moved(calls, from, symbol, price)
    ensures Moved(calls + more, from, symbol, price)
  {
    var k :| from <= k < |calls| && calls[k] == MoveStop(symbol, price, true);
    assert (calls + more)[k] == calls[k];
  }

  /** A close with a reason keeps a record sound. */
  lemma SoundClose(cfg: Settings, v: View, began: Position, p: Position, q: Position, calls: seq<Call>,
      more: seq<Call>, from: nat, recorded: seq<real>)
    requires Sound(cfg, v, began, p, calls, from, recorded)
    requires Keeps(cfg, p, q) && q.tps == p.tps && q.stop == p.stop
    requires MayBeClosed(cfg, v, q, calls + more, from)
    ensures Sound(cfg, v, began, q, calls + more, from, recorded)
  {
    hide Moved, MayBeClosed;
    MovedStays(calls, more, from, q.id.symbol, recorded);
  }

  lemma AnsweredNow(calls: seq<Call>, c: Call, from: nat, symbol: string)
    requires from <= |calls| && Answered(c, symbol)
    ensures AskedToClose(calls + [c], from, symbol)
  {
    assert (calls + [c])[|calls|] == c;
  }

  // ----- one record under synchronisation -----

  class LivePosition {
    const cfg: Settings
    const exchange: Exchange
    const view: View
    /** The record after healing and marking, where the synchronisation of it begins. */
    const began: Position
    var status: Status
    var reason: string
    var stop: real
    var tp1Hit: bool
    var tp2Hit: bool
    var tp3Hit: bool
    var remaining: real
    var breakEven: bool
    var locked: bool
    var profitLock: bool
    var nearTp: bool
    var tightened: bool
    var tightenPending: bool
    var verified: bool
    var payload: bool
    var directId: string
    var activeIds: seq<string>
    var payloadId: string
    /** How many calls the exchange had answered at the beginning, and the stops recorded since. */
    ghost const from: nat
    ghost var recorded: seq<real>

    constructor (cfg: Settings, exchange: Exchange, view: View, record: Position)
      ensures this.cfg == cfg && this.exchange == exchange && this.view == view
      ensures began == Marked(Healed(record, view), view) && Record() == began
      ensures from == |exchange.calls| && recorded == []
    {
      var p := Marked(Healed(record, view), view);
      this.cfg, this.exchange, this.view, began := cfg, exchange, view, p;
      status, reason, stop, remaining := p.status, p.reason, p.stop, p.remaining;
      tp1Hit, tp2Hit, tp3Hit := p.hits.tp1Hit, p.hits.tp2Hit, p.hits.tp3Hit;
      breakEven, locked := p.guards.breakEven, p.guards.locked;
      profitLock, nearTp := p.guards.profitLock, p.guards.nearTp;
      tightened, tightenPending := p.guards.tightened, p.guards.tightenPending;
      verified, payload := p.guards.verified, p.guards.payload;
      directId, activeIds, payloadId := p.orders.directId, p.orders.activeIds, p.orders.payloadId;
      from, recorded := |exchange.calls|, [];
    }

    function Record(): Position
      reads this
    {
      began.(status := status, reason := reason, stop := stop, remaining := remaining,
        hits := Hits(tp1Hit, tp2Hit, tp3Hit),
             guards := Guards(breakEven, locked, profitLock, nearTp, tightened, tightenPending, verified, payload),
             orders := Orders(directId, activeIds, payloadId))
    }

    lemma RecordFields()
      ensures var p := Record();
              && p.status == status && p.stop == stop && p.remaining == remaining && p.tps == began.tps
              && p.hits.tp1Hit == tp1Hit && p.hits.tp2Hit == tp2Hit && p.hits.tp3Hit == tp3Hit
              && p.id == began.id
    {
    }

    lemma RecordTightening()
      ensures var p := Record();
              && p.status == status && p.stop == stop && p.guards.tightened == tightened
              && p.hits == Hits(tp1Hit, tp2Hit, tp3Hit) && SameIdentity(began, p)
    {
    }

    ghost predicate SoundNow()
      reads this, exchange
    {
      Sound(cfg, view, began, Record(), exchange.calls, from, recorded)
    }

    /** The exchange did not grant some protective request since the old state. */
    twostate predicate Denied()
      reads exchange
    {
      Refused(exchange.calls, |old(exchange.calls)|, began.id.symbol)
    }

    /** The stop is the new one, and counted as recorded. */
    twostate predicate StopSet(target: real)
      reads this
    {
      stop == target && breakEven && locked && recorded == old(recorded) + [target]
    }

    twostate predicate StopKept()
      reads this
    {
      stop == old(stop) && breakEven == old(breakEven) && locked == old(locked) && recorded == old(recorded)
    }

    twostate predicate StateKept()
      reads this
    {
      status == old(status) && reason == old(reason) && remaining == old(remaining)
    }

    predicate IsEnded(status: Status, reason: string)
      reads this
    {
      this.status == status && this.reason == reason && remaining == 0.0
    }

    /** The ids of the stop orders the record knows: the direct one, the one in the payload, the active ones. */
    function StopIds(): seq<string>
      reads this
    {
      Unique([directId, payloadId] + activeIds)
    }

    lemma IdsAreDistinct()
      ensures Distinct(StopIds())
    {
    }

    // ----- moving the stop -----

    method CancelExistingStops() returns (ok: bool, ghost t: seq<Call>)
      modifies this`directId, this`activeIds, exchange
      ensures exchange.calls == old(exchange.calls) + t
      ensures CancelTrace(began.id.symbol, old(StopIds()), t, ok)
      ensures if ok && t != [] then directId == "" && activeIds == []
              else directId == old(directId) && activeIds == old(activeIds)
      ensures began.id.symbol != "" ==> CancelsAll(old(directId), old(payloadId), old(activeIds), t)
    {
      hide Unique, CancelsAll;
      var ids := StopIds();
      t := [];
      if began.id.symbol == "" || ids == [] {
        if began.id.symbol != "" {
          CancelsAllIds(directId, payloadId, activeIds, t);
        }
        return true, t;
      }
      ok := true;
      for i := 0 to |ids|
        invariant exchange.calls == old(exchange.calls) + t && |t| == i
        invariant directId == old(directId) && activeIds == old(activeIds)
        invariant forall k | 0 <= k < i :: t[k].CancelStop? && t[k].symbol == began.id.symbol && t[k].id == ids[k]
        invariant ok <==> forall k | 0 <= k < i :: t[k].ok
      {
        var cancelled := exchange.Cancel(began.id.symbol, ids[i]);
        t := t + [CancelStop(began.id.symbol, ids[i], cancelled)];
        ok := ok && cancelled;
      }
      CancelsAllIds(directId, payloadId, activeIds, t);
      if ok {
        directId, activeIds := "", [];
      }
    }

    /** Up to three attempts to place the new stop; its order id replaces the known ones. */
    method AttemptMove(price: real) returns (moved: bool, ghost t: seq<Call>)
      modifies this`directId, this`activeIds, exchange
      ensures exchange.calls == old(exchange.calls) + t && AttemptTrace(began.id.symbol, price, t, moved)
      ensures || (directId == old(directId) && activeIds == old(activeIds))
              || (moved && directId != "" && activeIds == [directId])
    {
      t := [];
      for attempt := 0 to MOVE_RETRIES
        invariant exchange.calls == old(exchange.calls) + t && |t| == attempt
        invariant directId == old(directId) && activeIds == old(activeIds)
        invariant forall i | 0 <= i < attempt :: t[i] == MoveStop(began.id.symbol, price, false)
      {
        var order := exchange.Move(began.id.symbol, price);
        t := t + [MoveStop(began.id.symbol, price, order.Some?)];
        if order.Some? {
          if order.value != "" {
            directId, activeIds := order.value, [order.value];
          }
          return true, t;
        }
      }
      moved := false;
    }

    /** No new stop is placed before every known one is cancelled. */
    method MoveStopWithRetries(price: real) returns (moved: bool, ghost t: seq<Call>)
      requires SoundNow()
      modifies this`directId, this`activeIds, exchange
      ensures SoundNow() && exchange.calls == old(exchange.calls) + t
      ensures MoveTrace(began.id.symbol, old(StopIds()), price, t, moved)
      ensures moved ==> Moved(exchange.calls, from, began.id.symbol, price)
    {
      hide MoveTrace, CancelTrace, Sound, Record, Moved;
      RecordFields();
      ghost var ids, before, p := StopIds(), exchange.calls, Record();
      ghost var first, attempts: seq<Call> := [], [];
      var cancelled;
      cancelled, first := CancelExistingStops();
      moved := false;
      if cancelled {
        moved, attempts := AttemptMove(price);
      }
      MoveTraceOf(began.id.symbol, ids, price, first, cancelled, attempts, moved);
      t := first + attempts;
      assert exchange.calls == before + t;
      RecordFields();
      SoundStep(cfg, view, began, p, Record(), before, t, from, recorded);
      if moved {
        SoundFrom(cfg, view, began, p, before, from, recorded);
        LastMoved(before, t, began.id.symbol, price, |t| - 1, from);
      }
    }

    /** Takes over a stop that the exchange granted. */
    method RecordStop(target: real)
      requires SoundNow() && Moved(exchange.calls, from, began.id.symbol, target)
      modifies this`stop, this`breakEven, this`locked, this`recorded
      ensures SoundNow() && StopSet(target)
    {
      hide Sound, Moved, Record;
      RecordFields();
      ghost var p, was := Record(), recorded;
      stop, breakEven, locked, recorded := target, true, true, was + [target];
      RecordFields();
      SoundMove(cfg, view, began, p, Record(), exchange.calls, from, was, target);
    }

    /** Moves the stop and records it at once, as near-target and failed-continuation protection do. */
    method MoveAndRecord(target: real) returns (ok: bool, ghost t: seq<Call>)
      requires SoundNow()
      modifies this`stop, this`breakEven, this`locked, this`directId, this`activeIds, this`recorded, exchange
      ensures SoundNow() && exchange.calls == old(exchange.calls) + t
      ensures MoveTrace(began.id.symbol, old(StopIds()), target, t, ok)
      ensures if ok then StopSet(target)
              else StopKept()
    {
      hide Sound, Moved, MoveTrace, Unique, Record;
      ok, t := MoveStopWithRetries(target);
      if ok {
        RecordStop(target);
      }
    }

    /** Moves the stop and believes it only when the exchange confirms it; otherwise the local stop stays. */
    method ProtectAfterFill(target: real) returns (ok: bool, ghost t: seq<Call>)
      requires SoundNow()
      modifies this`stop, this`breakEven, this`locked, this`directId, this`activeIds, this`recorded, exchange
      ensures SoundNow() && exchange.calls == old(exchange.calls) + t
      ensures ProtectTrace(began.id.symbol, old(StopIds()), target, t, ok)
      ensures if ok then StopSet(target)
              else StopKept()
      ensures stop != LastGranted(t, began.id.symbol, old(stop)) <==>
        Unconfirmed(t, began.id.symbol, target) && target != old(stop)
      ensures NoStopLeft(began.id.symbol, old(StopIds()), t) <==>
        t == Abandoned(began.id.symbol, old(StopIds()), target)
    {
      hide Sound, Moved, MoveTrace, Unique, Record, LastGranted, Unconfirmed, NoStopLeft, Abandoned;
      ghost var ids, was := StopIds(), stop;
      IdsAreDistinct();
      var moved;
      moved, t := MoveStopWithRetries(target);
      if !moved {
        UnconfirmedStopIff(began.id.symbol, ids, target, t, false, was);
        ProtectLeavesNoStopIff(began.id.symbol, ids, target, t, false);
        return false, t;
      }
      ghost var first, before := t, exchange.calls;
      ok := exchange.Verify(began.id.symbol, target);
      ghost var call := VerifyStop(began.id.symbol, target, ok);
      t := first + [call];
      assert t[..|t| - 1] == first;
      UnconfirmedStopIff(began.id.symbol, ids, target, t, ok, was);
      ProtectLeavesNoStopIff(began.id.symbol, ids, target, t, ok);
      SoundCalls(cfg, view, began, Record(), before, [call], from, recorded);
      MovedOnce(before, [call], from, began.id.symbol, target);
      if ok {
        RecordStop(target);
      }
    }

    // ----- protection -----

    /** A trade that came close to TP1 without filling it is protected at break-even plus fees. */
    method ProtectNearTarget() returns (moved: bool, ghost t: seq<Call>)
      requires SoundNow()
      modifies this`stop, this`breakEven, this`locked, this`nearTp, this`directId, this`activeIds, this`recorded
      modifies exchange
      ensures SoundNow() && exchange.calls == old(exchange.calls) + t
      ensures if NearTpDue(old(Record()), view)
              then MoveTrace(began.id.symbol, old(StopIds()), NearStop(began), t, moved) else !moved && t == []
      ensures if moved then StopSet(NearStop(began)) && nearTp
              else StopKept() && nearTp == old(nearTp)
      ensures nearTp || !NearTpDue(old(Record()), view) || Denied()
    {
      hide Sound, MoveTrace, NearTpDue, Unique, NearStop, Refused;
      ghost var ids, before := StopIds(), exchange.calls;
      moved, t := false, [];
      if NearTpDue(Record(), view) {
        moved, t := MoveAndRecord(NearStop(began));
        if !moved {
          NotMovedIsRefused(began.id.symbol, ids, NearStop(began), t, before);
        }
        if moved {
          ghost var p := Record();
          nearTp := true;
          SoundNote(cfg, view, began, p, Record(), exchange.calls, from, recorded);
        }
      }
    }

    /** Asks the exchange to close the whole position. */
    method AskToClose() returns (a: CloseAnswer)
      requires SoundNow()
      modifies exchange
      ensures SoundNow() && exchange.calls == old(exchange.calls) + [CloseAll(began.id.symbol, a)]
      ensures !a.Raised? ==> AskedToClose(exchange.calls, from, began.id.symbol)
    {
      hide Sound, Record, AskedToClose;
      ghost var before := exchange.calls;
      a := exchange.ClosePosition(began.id.symbol);
      SoundCalls(cfg, view, began, Record(), before, [CloseAll(began.id.symbol, a)], from, recorded);
      SoundFrom(cfg, view, began, Record(), before, from, recorded);
      if !a.Raised? {
        AnsweredNow(before, CloseAll(began.id.symbol, a), from, began.id.symbol);
      }
    }

    /** Closes the record for a reason, once the exchange was asked to close it. */
    method EndRecord(status: Status, reason: string)
      requires SoundNow() && AskedToClose(exchange.calls, from, began.id.symbol)
      modifies this`status, this`reason, this`remaining
      ensures SoundNow() && IsEnded(status, reason)
    {
      hide Sound, Record, AskedToClose;
      RecordFields();
      ghost var p := Record();
      this.status, this.reason, remaining := status, reason, 0.0;
      RecordFields();
      ClosedOnRequest(cfg, view, began, p, Record(), exchange.calls, from, recorded);
    }

    /** A position that is marked done but not quite gone is closed. */
    method CleanResidual(pct: real) returns (answer: Option<CloseAnswer>)
      requires SoundNow()
      modifies this`status, this`reason, this`remaining, exchange
      ensures SoundNow()
      ensures answer.Some? <==> old(status).Open? && ResidualDue(old(Record()), view, pct)
      ensures exchange.calls == old(exchange.calls) + if answer.Some? then [CloseAll(began.id.symbol, answer.value)]
        else []
      ensures if answer.None? || answer.value.Raised? then StateKept()
              else if answer.value.NoPosition? then IsEnded(ClosedSynced,
                "residual_position_exchange_no_position_to_close")
              else IsEnded(Closed, "residual_position_cleanup")
    {
      hide Sound, ResidualDue, AskedToClose, Record;
      if !status.Open? || !ResidualDue(Record(), view, pct) {
        return None;
      }
      var a := AskToClose();
      answer := Some(a);
      if a.NoPosition? {
        EndRecord(ClosedSynced, "residual_position_exchange_no_position_to_close");
      } else if !a.Raised? {
        EndRecord(Closed, "residual_position_cleanup");
      }
    }

    /** TP2 was hit before but the stop was never confirmed at TP1: try again. */
    method RecoverLock() returns (tried: bool, ok: bool, ghost t: seq<Call>)
      requires SoundNow()
      modifies this`stop, this`breakEven, this`locked, this`directId, this`activeIds, this`recorded, exchange
      ensures SoundNow() && exchange.calls == old(exchange.calls) + t
      ensures tried <==> old(status).Open? && old(tp2Hit) && !old(locked) && began.tps != []
      ensures if tried then ProtectTrace(began.id.symbol, old(StopIds()), began.tps[0], t, ok) else !ok && t == []
      ensures if ok then tried && StopSet(began.tps[0])
              else StopKept()
      ensures old(status).Open? && tp2Hit && began.tps != [] ==> locked || Denied()
    {
      hide Sound, ProtectTrace, Unique, Refused;
      ghost var ids := StopIds();
      tried, ok, t := LockRecoveryDue(Record()), false, [];
      if tried {
        ghost var before := exchange.calls;
        ok, t := ProtectAfterFill(began.tps[0]);
        if !ok {
          NotProtectedIsRefused(began.id.symbol, ids, began.tps[0], t, before);
        }
      }
    }

    predicate HasLocalPayload()
      reads this
    {
      payload && stop > 0.0 && HasTargets(began)
    }

    predicate Repairable()
      reads this
    {
      began.id.symbol != "" && stop > 0.0 && HasTargets(began) && began.id.size > 0.0
    }

    /** Attempts to place the protection orders: none when they are known, or cannot be built. */
    twostate predicate Repaired(t: seq<Call>, ok: bool)
      reads this
    {
      if old(payload) && old(stop) > 0.0 && HasTargets(began) then ok && t == []
      else if began.id.symbol == "" || old(stop) <= 0.0 || !HasTargets(began) || began.id.size <= 0.0
      then !ok && t == []
      else
        && 1 <= |t| <= 3 && (!ok ==> |t| == 3)
        && forall i | 0 <= i < |t| ::
          t[i] == PlaceProtection(began.id.symbol, old(stop), PositiveOnly(began.tps), ok && i == |t| - 1)
    }

    method EnsureProtection() returns (ok: bool, ghost t: seq<Call>)
      requires SoundNow()
      modifies this`payload, this`payloadId, exchange
      ensures SoundNow() && exchange.calls == old(exchange.calls) + t && Repaired(t, ok)
      ensures if t != [] && ok then payload else payload == old(payload) && payloadId == old(payloadId)
    {
      hide Sound, PositiveOnly, Record;
      t := [];
      for attempt := 0 to REPAIR_RETRIES
        invariant SoundNow() && payload == old(payload) && payloadId == old(payloadId)
        invariant exchange.calls == old(exchange.calls) + t
        invariant if Repairable() && !HasLocalPayload() then |t| == attempt else t == []
        invariant attempt > 0 ==> !HasLocalPayload()
        invariant forall i | 0 <= i < |t| ::
          t[i] == PlaceProtection(began.id.symbol, stop, PositiveOnly(began.tps), false)
      {
        if HasLocalPayload() {
          return true, t;
        }
        if Repairable() {
          RecordFields();
          ghost var p, before := Record(), exchange.calls;
          var order := exchange.Place(began.id.symbol, stop, PositiveOnly(began.tps));
          ghost var call := PlaceProtection(began.id.symbol, stop, PositiveOnly(began.tps), order.Some?);
          t := t + [call];
          SoundCalls(cfg, view, began, p, before, [call], from, recorded);
          if order.Some? {
            payload, payloadId := true, order.value;
            RecordFields();
            SoundNote(cfg, view, began, p, Record(), exchange.calls, from, recorded);
            return true, t;
          }
        }
      }
      ok := false;
    }

    /** Asks for the quantity to be closed, and once more when the client rejected the arguments of the first call. */
    method CloseUnprotected() returns (closed: bool, ghost t: seq<Call>)
      requires SoundNow()
      modifies this`status, this`reason, this`remaining, exchange
      ensures SoundNow() && (closed ==> t != [])
      ensures exchange.calls == old(exchange.calls) + t
      ensures if began.id.size > 0.0 && began.id.symbol != "" then CloseTrace(began.id.symbol, began.id.size, t, closed)
              else t == []
      ensures if closed then IsEnded(Closed, "protection_repair_failed")
              else StateKept()
      ensures closed || Stranded(exchange.calls, from, began)
    {
      hide Sound, AskedToClose, Record;
      t := [];
      if began.id.size <= 0.0 || began.id.symbol == "" {
        return false, t;
      }
      ghost var before := exchange.calls;
      var badCall;
      closed, badCall := exchange.CloseQuantity(began.id.symbol, began.id.size);
      t := [CloseSize(began.id.symbol, began.id.size, closed)];
      if badCall {
        closed, badCall := exchange.CloseQuantity(began.id.symbol, began.id.size);
        t := t + [CloseSize(began.id.symbol, began.id.size, closed)];
      }
      ghost var asked := before + t[..|t| - 1];
      assert exchange.calls == before + t == asked + [t[|t| - 1]];
      SoundCalls(cfg, view, began, Record(), before, t, from, recorded);
      SoundFrom(cfg, view, began, Record(), before, from, recorded);
      if closed {
        AnsweredNow(asked, t[|t| - 1], from, began.id.symbol);
        EndRecord(Closed, "protection_repair_failed");
      } else {
        assert exchange.calls[|asked|] == t[|t| - 1];
      }
    }

    /** An unverified position is repaired, or closed when it cannot be. */
    method VerifyProtection() returns (repaired: bool, closed: bool, ghost t: seq<Call>, ghost closing: seq<Call>)
      requires SoundNow()
      modifies this`verified, this`payload, this`payloadId, this`status, this`reason, this`remaining, exchange
      ensures SoundNow() && (closed ==> !repaired)
      ensures old(verified) || view.tpslLive ==>
        !closed && t == [] && verified == old(verified) && exchange.calls == old(exchange.calls)
      ensures !old(verified) && !view.tpslLive ==>
        && Repaired(t, repaired) && verified == repaired && exchange.calls == old(exchange.calls) + t + closing
        && if !repaired && began.id.size > 0.0 && began.id.symbol != ""
           then CloseTrace(began.id.symbol, began.id.size, closing, closed) else closing == []
      ensures if closed then IsEnded(Closed, "protection_repair_failed")
              else StateKept()
      ensures status.Open? && !view.tpslLive ==> verified || Stranded(exchange.calls, from, began)
    {
      hide Sound, PositiveOnly, Stranded, Record;
      repaired, closed, t, closing := false, false, [], [];
      if !verified && !view.tpslLive {
        repaired, t := EnsureProtection();
        RecordFields();
        ghost var p := Record();
        verified := repaired;
        RecordFields();
        SoundNote(cfg, view, began, p, Record(), exchange.calls, from, recorded);
        if !repaired {
          closed, closing := CloseUnprotected();
        }
      }
    }

    /** Once the best profit covers enough of the way to TP1, the stop goes to break-even. */
    method LockProfit() returns (tried: bool, ok: bool, ghost t: seq<Call>)
      requires SoundNow()
      modifies this`stop, this`breakEven, this`locked, this`profitLock, this`directId, this`activeIds, this`recorded
      modifies exchange
      ensures SoundNow() && exchange.calls == old(exchange.calls) + t
      ensures tried <==> ProfitLockDue(cfg, old(Record()))
      ensures if tried then ProtectTrace(began.id.symbol, old(StopIds()), BreakEven(cfg, began), t, ok)
              else !ok && t == []
      ensures if ok then tried && StopSet(BreakEven(cfg, began)) && profitLock
              else StopKept() && profitLock == old(profitLock)
      ensures profitLock || !ProfitLockDue(cfg, old(Record())) || Denied()
    {
      hide Sound, ProtectTrace, Unique, ProfitLockDue, BreakEven, Record, Refused;
      ghost var ids, before := StopIds(), exchange.calls;
      tried, ok, t := ProfitLockDue(cfg, Record()), false, [];
      if tried {
        ok, t := ProtectAfterFill(BreakEven(cfg, began));
        if !ok {
          NotProtectedIsRefused(began.id.symbol, ids, BreakEven(cfg, began), t, before);
        }
        if ok {
          RecordFields();
          ghost var p := Record();
          profitLock := true;
          RecordFields();
          SoundNote(cfg, view, began, p, Record(), exchange.calls, from, recorded);
        }
      }
    }

    // ----- targets -----

    /** TP1: its share is taken off, and the stop goes to break-even unless it is the only target. */
    method TakeTp1(pct: real) returns (due: bool, ok: bool, ghost t: seq<Call>)
      requires SoundNow()
      modifies this`tp1Hit, this`remaining, this`stop, this`breakEven, this`locked, this`directId, this`activeIds
      modifies this`recorded, exchange
      ensures SoundNow() && exchange.calls == old(exchange.calls) + t
      ensures due <==> Tp1Due(cfg, old(Record()), view, pct)
      ensures due <==>
        && !old(tp1Hit) && |began.tps| >= 1
        && ((if began.id.long then view.high >= began.tps[0] else view.low <= began.tps[0])
            || (pct <= 105.0 - cfg.tp1ClosePct && pct < 99.0))
      ensures tp1Hit == (old(tp1Hit) || due) && remaining == if due then Reduced(old(remaining), cfg.tp1ClosePct)
        else old(remaining)
      ensures if due && cfg.moveStopToBreakEven && |began.tps| != 1
              then ProtectTrace(began.id.symbol, old(StopIds()), BreakEven(cfg, began), t, ok) else !ok && t == []
      ensures if ok then StopSet(BreakEven(cfg, began))
              else StopKept()
    {
      hide Sound, ProtectTrace, Unique, BreakEven, Tp1Due, Record;
      RecordFields();
      TargetsDueIff(cfg, Record(), view, pct);
      due, ok, t := Tp1Due(cfg, Record(), view, pct), false, [];
      if due {
        RecordFields();
        ghost var p := Record();
        tp1Hit, remaining := true, Reduced(remaining, cfg.tp1ClosePct);
        RecordFields();
        SoundNote(cfg, view, began, p, Record(), exchange.calls, from, recorded);
        if cfg.moveStopToBreakEven && |began.tps| != 1 {
          ok, t := ProtectAfterFill(BreakEven(cfg, began));
        }
      }
    }

    /** TP2: its share is taken off, and the stop goes to TP1, also where that loosens it. */
    method TakeTp2(pct: real) returns (due: bool, ok: bool, ghost t: seq<Call>)
      requires SoundNow()
      modifies this`tp2Hit, this`remaining, this`stop, this`breakEven, this`locked, this`directId, this`activeIds
      modifies this`recorded, exchange
      ensures SoundNow() && exchange.calls == old(exchange.calls) + t
      ensures due <==> Tp2Due(cfg, old(Record()), view, pct)
      ensures due <==>
        && !old(tp2Hit) && |began.tps| >= 2
        && ((if began.id.long then view.high >= began.tps[1] else view.low <= began.tps[1])
            || pct <= 105.0 - cfg.tp1ClosePct - cfg.tp2ClosePct)
      ensures tp2Hit == (old(tp2Hit) || due) && remaining == if due then Reduced(old(remaining), cfg.tp2ClosePct)
        else old(remaining)
      ensures if due then ProtectTrace(began.id.symbol, old(StopIds()), began.tps[0], t, ok) else !ok && t == []
      ensures if ok then due && StopSet(began.tps[0])
              else StopKept()
    {
      hide Sound, ProtectTrace, Unique;
      due, ok, t := Tp2Due(cfg, Record(), view, pct), false, [];
      if due {
        ghost var p := Record();
        tp2Hit, remaining := true, Reduced(remaining, cfg.tp2ClosePct);
        SoundNote(cfg, view, began, p, Record(), exchange.calls, from, recorded);
        ok, t := ProtectAfterFill(began.tps[0]);
      }
    }

    /** Asks the exchange to close everything; an exception leaves the record as it is. */
    method CloseRemainder() returns (ok: bool, ghost a: CloseAnswer)
      requires SoundNow()
      modifies this`remaining, this`breakEven, this`locked, this`status, this`reason, exchange
      ensures SoundNow() && exchange.calls == old(exchange.calls) + [CloseAll(began.id.symbol, a)]
      ensures (ok <==> a.Accepted? || a.ReportedFailed?)
      ensures if ok then IsEnded(Closed, "tp3") && breakEven && locked
              else StateKept() && breakEven == old(breakEven) && locked == old(locked)
    {
      hide Sound, AskedToClose, Record;
      var answer := AskToClose();
      a, ok := answer, answer.Accepted? || answer.ReportedFailed?;
      if ok {
        EndRecord(Closed, "tp3");
        RecordFields();
        ghost var p := Record();
        breakEven, locked := true, true;
        RecordFields();
        SoundNote(cfg, view, began, p, Record(), exchange.calls, from, recorded);
      }
    }

    /** Takes the configured share off; nothing left means closed. */
    method TakeLastShare()
      requires SoundNow() && tp3Hit && !cfg.tp3CloseAll
      modifies this`remaining, this`breakEven, this`locked, this`status, this`reason
      ensures SoundNow() && remaining == Reduced(old(remaining), cfg.tp3ClosePct) && breakEven && locked
      ensures if remaining <= 0.0 then status == Closed && reason == "tp3"
              else status == old(status) && reason == old(reason)
    {
      hide Sound, Record;
      RecordFields();
      ghost var p := Record();
      remaining, breakEven, locked := Reduced(remaining, cfg.tp3ClosePct), true, true;
      if remaining <= 0.0 {
        status, reason := Closed, "tp3";
      }
      RecordFields();
      ClosedByShare(cfg, view, began, p, Record(), exchange.calls, from, recorded);
    }

    /** TP3: the rest is closed on the exchange, which may raise, or the configured share is taken off. */
    method TakeTp3(pct: real) returns (due: bool, ok: bool, ghost answer: Option<CloseAnswer>)
      requires SoundNow()
      modifies this`tp3Hit, this`remaining, this`breakEven, this`locked, this`status, this`reason, exchange
      ensures SoundNow() && (due <==> Tp3Due(old(Record()), view, pct)) && tp3Hit == (old(tp3Hit) || due)
      ensures due <==>
        && !old(tp3Hit) && |began.tps| >= 3
        && ((if began.id.long then view.high >= began.tps[2] else view.low <= began.tps[2]) || 0.0 < pct <= 5.0)
      ensures answer.Some? <==> due && cfg.tp3CloseAll
      ensures exchange.calls == old(exchange.calls) + if answer.Some? then [CloseAll(began.id.symbol, answer.value)]
        else []
      ensures ok <==> answer.None? || answer.value.Accepted? || answer.value.ReportedFailed?
      ensures if answer.Some? && ok then IsEnded(Closed, "tp3") && breakEven && locked
              else if due && !cfg.tp3CloseAll then
                && remaining == Reduced(old(remaining), cfg.tp3ClosePct) && breakEven && locked
                && if remaining <= 0.0 then status == Closed && reason == "tp3"
                  else status == old(status) && reason == old(reason)
              else StateKept() && breakEven == old(breakEven) && locked == old(locked)
    {
      hide Sound, Record, Tp3Due;
      RecordFields();
      TargetsDueIff(cfg, Record(), view, pct);
      due, ok, answer := Tp3Due(Record(), view, pct), true, None;
      if due {
        RecordFields();
        ghost var p := Record();
        tp3Hit := true;
        RecordFields();
        SoundNote(cfg, view, began, p, Record(), exchange.calls, from, recorded);
        if cfg.tp3CloseAll {
          ghost var a;
          ok, a := CloseRemainder();
          answer := Some(a);
        } else {
          TakeLastShare();
        }
      }
    }

    // ----- late protection and closing -----

    /** A tightening that failed before is retried as long as it would still tighten. */
    method RetryTighten() returns (tried: bool, ok: bool, ghost t: seq<Call>)
      requires SoundNow()
      modifies this`stop, this`breakEven, this`locked, this`tightened, this`tightenPending, this`directId
      modifies this`activeIds, this`recorded, exchange
      ensures SoundNow() && exchange.calls == old(exchange.calls) + t
      ensures tried <==>
        && old(tightenPending) && !old(tightened)
        && if began.id.long then TightenStop(cfg, began, view) > old(stop)
           else old(stop) <= 0.0 || TightenStop(cfg, began, view) < old(stop)
      ensures if tried then MoveTrace(began.id.symbol, old(StopIds()), TightenStop(cfg, began, view), t, ok)
              else !ok && t == []
      ensures if ok then StopSet(TightenStop(cfg, began, view)) && tightened && !tightenPending
              else StopKept() && tightened == old(tightened) && tightenPending == old(tightenPending)
    {
      hide Sound, MoveTrace, Unique, TightenStop, Record;
      tried, ok, t := tightenPending && !tightened && Tighter(began.id.long, TightenStop(cfg, began, view),
        stop), false, [];
      if tried {
        ok, t := MoveAndRecord(TightenStop(cfg, began, view));
        if ok {
          RecordFields();
          ghost var p := Record();
          tightened, tightenPending := true, false;
          RecordFields();
          SoundNote(cfg, view, began, p, Record(), exchange.calls, from, recorded);
        }
      }
    }

    /** A continuation that failed near its target is tightened; a failure is kept as pending. */
    method TightenFailedContinuation() returns (due: bool, ok: bool, ghost t: seq<Call>)
      requires SoundNow()
      modifies this`stop, this`breakEven, this`locked, this`tightened, this`tightenPending, this`directId
      modifies this`activeIds, this`recorded, exchange
      ensures SoundNow() && exchange.calls == old(exchange.calls) + t
      ensures due <==> TightenDue(cfg, old(Record()), view)
      ensures if due then MoveTrace(began.id.symbol, old(StopIds()), TightenStop(cfg, began, view), t, ok)
              else !ok && t == []
      ensures if ok then StopSet(TightenStop(cfg, began, view)) && tightened && !tightenPending
              else StopKept() && tightened == old(tightened) && tightenPending == (old(tightenPending) || due)
      ensures tightened || !TightenDue(cfg, old(Record()), view) || Denied()
    {
      hide Sound, MoveTrace, Unique, TightenStop, TightenDue, Record, Refused;
      ghost var ids, before := StopIds(), exchange.calls;
      due, ok, t := TightenDue(cfg, Record(), view), false, [];
      if due {
        ok, t := MoveAndRecord(TightenStop(cfg, began, view));
        RecordFields();
        ghost var p := Record();
        if ok {
          tightened, tightenPending := true, false;
        } else {
          NotMovedIsRefused(began.id.symbol, ids, TightenStop(cfg, began, view), t, before);
          tightenPending := true;
        }
        RecordFields();
        SoundNote(cfg, view, began, p, Record(), exchange.calls, from, recorded);
      }
    }

    /** A flat trade past its time is closed, if the exchange accepts. */
    method CloseDeadTrade() returns (answer: Option<CloseAnswer>)
      requires SoundNow()
      modifies this`status, this`reason, this`remaining, exchange
      ensures SoundNow() && (answer.Some? <==> DeadTradeDue(cfg, old(Record()), view))
      ensures exchange.calls == old(exchange.calls) + if answer.Some? then [CloseAll(began.id.symbol, answer.value)]
        else []
      ensures if answer == Some(Accepted) then IsEnded(Closed, "dead_trade_timeout")
              else StateKept()
    {
      hide Sound, DeadTradeDue, AskedToClose, Record;
      if !DeadTradeDue(cfg, Record(), view) {
        return None;
      }
      var a := AskToClose();
      if a.Accepted? {
        EndRecord(Closed, "dead_trade_timeout");
      }
      return Some(a);
    }

    /** A touched local stop closes the record only when the exchange no longer holds a quantity. */
    method CloseOnLocalStop() returns (closed: bool)
      requires SoundNow()
      modifies this`status, this`reason, this`remaining
      ensures SoundNow()
      ensures closed <==>
        && old(status).Open? && view.liveSize <= 0.0
        && if began.id.long then view.low <= stop else view.high >= stop
      ensures if closed then IsEnded(Closed, if breakEven then "break_even_stop" else "stop_loss")
              else StateKept()
    {
      hide Sound;
      closed := status.Open? && StopHit(began.id.long, view, stop) && view.liveSize <= 0.0;
      if closed {
        ghost var p := Record();
        status, remaining := Closed, 0.0;
        reason := if breakEven then "break_even_stop" else "stop_loss";
        ClosedByShare(cfg, view, began, p, Record(), exchange.calls, from, recorded);
      }
    }

    // ----- one synchronisation -----

    /** A stop and target seen on the exchange count as verified. */
    method MarkVerified()
      requires SoundNow()
      modifies this`verified
      ensures SoundNow() && verified == (old(verified) || view.tpslLive)
    {
      hide Sound, Record;
      if view.tpslLive {
        RecordFields();
        ghost var p := Record();
        verified := true;
        RecordFields();
        SoundNote(cfg, view, began, p, Record(), exchange.calls, from, recorded);
      }
    }

    /**
     The protective steps that come before the targets are looked at.  An open record ends up
     verified, unless it cannot be closed either; and its stop at TP1 after TP2, unless refused.
     */
    method Protect(pct: real)
      requires SoundNow() && status.Open?
      modifies this`status, this`reason, this`remaining, this`stop, this`breakEven, this`locked, this`profitLock
      modifies this`nearTp
      modifies this`verified, this`payload, this`payloadId, this`directId, this`activeIds, this`recorded, exchange
      ensures SoundNow() && (status.Open? ==> remaining == old(remaining))
      ensures old(exchange.calls) <= exchange.calls
      ensures nearTp || !NearTpDue(old(Record()), view) || Denied()
      ensures status.Open? ==> verified || Stranded(exchange.calls, from, began)
      ensures status.Open? && tp2Hit && began.tps != [] ==> locked || Denied()
    {
      hide Sound, Record, Refused, Stranded, NearTpDue;
      ghost var start := exchange.calls;
      PrepareProtection(pct);
      ghost var mid := exchange.calls;
      SecureStops();
      if Refused(mid, |start|, began.id.symbol) {
        RefusedStays(mid, exchange.calls, |start|, |start|, began.id.symbol);
      }
      if Refused(exchange.calls, |mid|, began.id.symbol) {
        RefusedStays(exchange.calls, exchange.calls, |start|, |mid|, began.id.symbol);
      }
    }

    method PrepareProtection(pct: real)
      requires SoundNow() && status.Open?
      modifies this`status, this`reason, this`remaining, this`stop, this`breakEven, this`locked, this`nearTp
      modifies this`verified, this`directId, this`activeIds, this`recorded, exchange
      ensures SoundNow() && (status.Open? ==> remaining == old(remaining)) && (view.tpslLive ==> verified)
      ensures old(exchange.calls) <= exchange.calls
      ensures nearTp || !NearTpDue(old(Record()), view) || Denied()
    {
      hide Sound, Record, MoveTrace, NearStop, Unique, ResidualDue, NearTpDue, Refused;
      ghost var start := exchange.calls;
      var near, nearCalls := ProtectNearTarget();
      ghost var after := exchange.calls;
      MarkVerified();
      var residual := CleanResidual(pct);
      if Refused(after, |start|, began.id.symbol) {
        RefusedStays(after, exchange.calls, |start|, |start|, began.id.symbol);
      }
    }

    method SecureStops()
      requires SoundNow() && (view.tpslLive ==> verified)
      modifies this`status, this`reason, this`remaining, this`stop, this`breakEven, this`locked, this`profitLock
      modifies this`verified, this`payload, this`payloadId, this`directId, this`activeIds, this`recorded, exchange
      ensures SoundNow() && (status.Open? ==> old(status).Open? && remaining == old(remaining))
      ensures old(exchange.calls) <= exchange.calls
      ensures status.Open? ==> verified || Stranded(exchange.calls, from, began)
      ensures status.Open? && tp2Hit && began.tps != [] ==> locked || Denied()
    {
      hide Sound, Record, ProtectTrace, Repaired, BreakEven, Unique, Refused, Fails, Stranded, LockRecoveryDue;
      hide ProfitLockDue;
      ghost var start := exchange.calls;
      var tried, relocked, lockCalls := RecoverLock();
      ghost var after := exchange.calls;
      var repaired, closed, repairCalls, closeCalls := VerifyProtection();
      ghost var checked := exchange.calls;
      var profit, profitOk, profitCalls := LockProfit();
      StrandedStays(checked, exchange.calls, from, began);
      if Refused(after, |start|, began.id.symbol) {
        RefusedStays(after, exchange.calls, |start|, |start|, began.id.symbol);
      }
    }

    /** TP1 and TP2, in order. */
    method TakePartials(pct: real)
      requires SoundNow()
      modifies this`tp1Hit, this`tp2Hit, this`remaining, this`stop, this`breakEven, this`locked
      modifies this`directId, this`activeIds, this`recorded, exchange
      ensures SoundNow() && old(exchange.calls) <= exchange.calls
      ensures tp1Hit == (old(tp1Hit) || Tp1Due(cfg, old(Record()), view, pct))
      ensures tp2Hit == (old(tp2Hit) || Tp2Due(cfg, old(Record()), view, pct))
      ensures remaining == AfterPartials(cfg, old(Record()), view, pct)
      ensures stop == TargetStop(cfg, old(Record()), view, pct) || Denied()
    {
      hide Sound, ProtectTrace, Unique, Record, Refused, Tp1Due, TargetHit;
      ghost var p0, start := Record(), exchange.calls;
      RecordFields();
      ghost var ids := StopIds();
      var due1, ok1, calls1 := TakeTp1(pct);
      ghost var mid := exchange.calls;
      RecordFields();
      NextTargets(cfg, p0, Record(), view, pct);
      ghost var nextIds := StopIds();
      var due2, ok2, calls2 := TakeTp2(pct);
      if due1 && cfg.moveStopToBreakEven && |began.tps| != 1 && !ok1 {
        NotProtectedIsRefused(began.id.symbol, ids, BreakEven(cfg, began), calls1, start);
        RefusedStays(mid, exchange.calls, |start|, |start|, began.id.symbol);
      }
      if due2 && !ok2 {
        NotProtectedIsRefused(began.id.symbol, nextIds, began.tps[0], calls2, mid);
        RefusedStays(exchange.calls, exchange.calls, |start|, |mid|, began.id.symbol);
      }
    }

    /** The three targets, in order. */
    method TakeTargets(pct: real) returns (ok: bool)
      requires SoundNow()
      modifies this`tp1Hit, this`tp2Hit, this`tp3Hit, this`remaining, this`stop, this`breakEven, this`locked
      modifies this`status, this`reason, this`directId, this`activeIds, this`recorded, exchange
      ensures SoundNow() && old(exchange.calls) <= exchange.calls && (status.Open? ==> old(status).Open?)
      ensures tp1Hit == (old(tp1Hit) || Tp1Due(cfg, old(Record()), view, pct))
      ensures tp2Hit == (old(tp2Hit) || Tp2Due(cfg, old(Record()), view, pct))
      ensures tp3Hit == (old(tp3Hit) || Tp3Due(old(Record()), view, pct))
      ensures status.Open? && ok ==> remaining == AfterTargets(cfg, old(Record()), view, pct)
      ensures ok && cfg.tp3CloseAll && Tp3Due(old(Record()), view, pct) ==> status == Closed && remaining == 0.0
      ensures !ok ==> cfg.tp3CloseAll && Tp3Due(old(Record()), view, pct)
      ensures !Denied() ==> stop == TargetStop(cfg, old(Record()), view, pct)
    {
      hide Sound, Record, Refused, Tp1Due, Tp2Due, Tp3Due, TargetStop, AfterPartials;
      ghost var p0, start := Record(), exchange.calls;
      RecordFields();
      TakePartials(pct);
      ghost var mid := exchange.calls;
      RecordFields();
      NextTargets(cfg, p0, Record(), view, pct);
      var due3;
      ghost var answer;
      due3, ok, answer := TakeTp3(pct);
      if Refused(mid, |start|, began.id.symbol) {
        RefusedStays(mid, exchange.calls, |start|, |start|, began.id.symbol);
      }
    }

    /** The steps that come after the targets. */
    method Finish()
      requires SoundNow()
      modifies this`stop, this`breakEven, this`locked, this`tightened, this`tightenPending, this`directId
      modifies this`activeIds
      modifies this`status, this`reason, this`remaining, this`recorded, exchange
      ensures SoundNow() && old(exchange.calls) <= exchange.calls
      ensures status.Open? ==> old(status).Open? && remaining == old(remaining)
      ensures !old(status).Open? ==> status == old(status)
      ensures old(status).Open? && StopHit(began.id.long, view, stop) && view.liveSize <= 0.0 ==> !status.Open?
      ensures stop == old(stop) || (tightened && stop == TightenStop(cfg, began, view))
      ensures !TightenDue(cfg, Record(), view) || Denied()
    {
      hide Sound, MoveTrace, TightenStop, Unique, Record, TightenDue, Refused;
      ghost var start := exchange.calls;
      var retried, retryOk, retryCalls := RetryTighten();
      ghost var mid := exchange.calls;
      RecordTightening();
      ghost var p := Record();
      var due, tightenOk, tightenCalls := TightenFailedContinuation();
      ghost var q := Record();
      ghost var after := exchange.calls;
      RecordTightening();
      RecordFields();
      var dead := CloseDeadTrade();
      var stopped := CloseOnLocalStop();
      RecordTightening();
      TightenSettled(cfg, p, q, Record(), view);
      if Refused(after, |mid|, began.id.symbol) {
        RefusedStays(after, exchange.calls, |start|, |mid|, began.id.symbol);
      }
    }

    /** The targets, and the steps that come after them. */
    method TakeAndFinish(pct: real) returns (ok: bool)
      requires SoundNow()
      modifies this`tp1Hit, this`tp2Hit, this`tp3Hit, this`remaining, this`stop, this`breakEven, this`locked
      modifies this`tightened, this`tightenPending, this`status, this`reason, this`directId, this`activeIds
      modifies this`recorded, exchange
      ensures SoundNow() && old(exchange.calls) <= exchange.calls && (status.Open? ==> old(status).Open?)
      ensures tp1Hit == (old(tp1Hit) || Tp1Due(cfg, old(Record()), view, pct))
      ensures tp2Hit == (old(tp2Hit) || Tp2Due(cfg, old(Record()), view, pct))
      ensures tp3Hit == (old(tp3Hit) || Tp3Due(old(Record()), view, pct))
      ensures ok && status.Open? ==> remaining == AfterTargets(cfg, old(Record()), view, pct)
      ensures ok && cfg.tp3CloseAll && Tp3Due(old(Record()), view, pct) ==> status == Closed
      ensures !ok ==> cfg.tp3CloseAll && Tp3Due(old(Record()), view, pct)
      ensures ok && view.liveSize <= 0.0 && StopHit(began.id.long, view, stop) ==> !status.Open?
      ensures ok ==> !TightenDue(cfg, Record(), view) || Denied()
      ensures ok && !Denied() ==>
        stop == TargetStop(cfg, old(Record()), view, pct) || (tightened && stop == TightenStop(cfg, began, view))
    {
      hide Sound, Record, Tp1Due, Tp2Due, Tp3Due, AfterTargets, TargetStop, TightenStop, Refused, TightenDue, StopHit;
      ghost var start := exchange.calls;
      ok := TakeTargets(pct);
      ghost var mid := exchange.calls;
      if ok {
        Finish();
      }
      RefusedParts(start, start, mid, exchange.calls, began.id.symbol);
    }

    /** Synchronises an open record with the exchange, which holds a position in its symbol. */
    method Synchronise() returns (ok: bool)
      requires SoundNow() && Record() == began && began.status.Open?
      modifies this, exchange
      ensures SoundNow() && old(exchange.calls) <= exchange.calls
      ensures var pct := RemainingPct(began, view);
              && (ok && status.Open? ==> remaining == AfterTargets(cfg, began, view, pct))
              && (ok && cfg.tp3CloseAll && Tp3Due(began, view, pct) ==> status == Closed)
              && (!ok ==> cfg.tp3CloseAll && Tp3Due(began, view, pct))
      ensures TakenByPrice(cfg, began, view, RemainingPct(began, view), Hits(tp1Hit, tp2Hit, tp3Hit))
      ensures ok && status.Open? && NonNegative(cfg) && began.remaining >= 0.0 ==>
        SharesTaken(cfg, began, Hits(tp1Hit, tp2Hit, tp3Hit), remaining)
      ensures ok && view.liveSize <= 0.0 && (if began.id.long then view.low <= stop else view.high >= stop) ==>
        !status.Open?
      ensures status.Open? ==> verified || Stranded(exchange.calls, from, began)
      ensures nearTp || !NearTpDue(began, view) || Denied()
      ensures ok ==> !TightenDue(cfg, Record(), view) || Denied()
      ensures var pct := RemainingPct(began, view);
              ok && !Denied() && (Tp2Due(cfg, began, view, pct) || MovesToBreakEven(cfg, began, view, pct))
              ==> stop == TargetStop(cfg, began, view, pct) || (tightened && stop == TightenStop(cfg, began, view))
    {
      hide Sound, Record, RemainingPct, Tp1Due, Tp2Due, Tp3Due, AfterTargets, TargetStop, TightenStop, Refused;
      hide MovesToBreakEven, Stranded, NearTpDue, TightenDue, TakenByPrice, SharesTaken;
      ghost var start := exchange.calls;
      RecordFields();
      var pct := RemainingPct(began, view);
      Protect(pct);
      ghost var mid := exchange.calls;
      RecordFields();
      SameTargets(cfg, began, Record(), view, pct);
      ok := TakeAndFinish(pct);
      RefusedParts(start, mid, exchange.calls, exchange.calls, began.id.symbol);
      StrandedStays(mid, exchange.calls, from, began);
      DueIsByPrice(cfg, began, view, pct, Hits(tp1Hit, tp2Hit, tp3Hit));
    }
  }

  /** What is settled about tightening stays settled while only the status changes. */
  lemma TightenSettled(cfg: Settings, p: Position, q: Position, r: Position, v: View)
    requires SameIdentity(q, r) && SameIdentity(p, q) && r.guards.tightened == q.guards.tightened
    requires (r.status.Open? ==> q.status.Open?)
    requires r.hits.tp1Hit == q.hits.tp1Hit && r.hits.tp2Hit == q.hits.tp2Hit && r.hits.tp3Hit == q.hits.tp3Hit
    requires r.stop == q.stop
    requires q.hits.tp1Hit == p.hits.tp1Hit && q.hits.tp2Hit == p.hits.tp2Hit && q.hits.tp3Hit == p.hits.tp3Hit
    requires q.status == p.status
    ensures r.guards.tightened ==> !TightenDue(cfg, r, v)
    ensures !TightenDue(cfg, p, v) && q.stop == p.stop && q.guards.tightened == p.guards.tightened ==>
      !TightenDue(cfg, r, v)
  {
  }

  /** Later targets do not depend on whether earlier ones were just taken. */
  lemma NextTargets(cfg: Settings, p: Position, q: Position, v: View, pct: real)
    requires q.tps == p.tps && q.id.long == p.id.long
    ensures q.hits.tp2Hit == p.hits.tp2Hit ==> (Tp2Due(cfg, q, v, pct) <==> Tp2Due(cfg, p, v, pct))
    ensures q.hits.tp3Hit == p.hits.tp3Hit ==> (Tp3Due(q, v, pct) <==> Tp3Due(p, v, pct))
  {
  }

  /** What is due at the targets depends on targets and flags alone; what is left, also on what was left. */
  lemma SameTargets(cfg: Settings, p: Position, q: Position, v: View, pct: real)
    requires q.tps == p.tps && q.id.long == p.id.long && q.hits.tp1Hit == p.hits.tp1Hit
    requires q.hits.tp2Hit == p.hits.tp2Hit && q.hits.tp3Hit == p.hits.tp3Hit
    ensures Tp1Due(cfg, q, v, pct) <==> Tp1Due(cfg, p, v, pct)
    ensures Tp2Due(cfg, q, v, pct) <==> Tp2Due(cfg, p, v, pct)
    ensures Tp3Due(q, v, pct) <==> Tp3Due(p, v, pct)
    ensures q.remaining == p.remaining ==> AfterTargets(cfg, q, v, pct) == AfterTargets(cfg, p, v, pct)
    ensures q.id.entry == p.id.entry && q.stop == p.stop ==> TargetStop(cfg, q, v, pct) == TargetStop(cfg, p, v, pct)
    ensures q.id.entry == p.id.entry && (Tp2Due(cfg, p, v, pct) || MovesToBreakEven(cfg, p, v, pct)) ==>
      TargetStop(cfg, q, v, pct) == TargetStop(cfg, p, v, pct)
  {
  }

  lemma SoundFrom(cfg: Settings, v: View, began: Position, q: Position, calls: seq<Call>, from: nat,
      recorded: seq<real>)
    requires Sound(cfg, v, began, q, calls, from, recorded)
    ensures from <= |calls|
  {
  }

  lemma ClosedOnRequest(cfg: Settings, v: View, began: Position, p: Position, q: Position, calls: seq<Call>, from: nat,
      recorded: seq<real>)
    requires Sound(cfg, v, began, p, calls, from, recorded) && AskedToClose(calls, from, q.id.symbol)
    requires Keeps(cfg, p, q) && q.tps == p.tps && q.stop == p.stop
    ensures Sound(cfg, v, began, q, calls, from, recorded)
  {
    assert calls + [] == calls;
    SoundClose(cfg, v, began, p, q, calls, [], from, recorded);
  }

  /** A close without a request needs a reason of its own. */
  lemma ClosedByShare(cfg: Settings, v: View, began: Position, p: Position, q: Position, calls: seq<Call>, from: nat,
      recorded: seq<real>)
    requires Sound(cfg, v, began, p, calls, from, recorded)
    requires Keeps(cfg, p, q) && q.tps == p.tps && q.stop == p.stop
    requires (!cfg.tp3CloseAll && q.hits.tp3Hit) || v.liveSize <= 0.0
    ensures Sound(cfg, v, began, q, calls, from, recorded)
  {
    SoundClose(cfg, v, began, p, q, calls, [], from, recorded);
    assert calls + [] == calls;
  }

  lemma LastMoved(calls: seq<Call>, t: seq<Call>, symbol: string, price: real, k: int, from: nat)
    requires 0 <= k < |t| && t[k] == MoveStop(symbol, price, true) && from <= |calls|
    ensures Moved(calls + t, from, symbol, price)
  {
    assert (calls + t)[|calls| + k] == t[k];
  }
}
