/**
 The bracket-trade simulator of the backtest: one stop, two targets in multiples of the
 initial risk, and a time exit after six candles.  Results are in R, before rounding.
 */
module TradeSimulation {
  import opened Wrappers
  import opened CandleEngine

  const TP1_RR := 0.8
  const TP2_RR := 1.5
  const MAX_HOLD_CANDLES: nat := 6

  /** What a detector hands over; a direction other than long is simulated as a short. */
  datatype Candidate = Candidate(
    long: bool, entryHint: Option<real>, close: Option<real>, reclaimLevel: Option<real>,
    invalidation: Option<real>, breakoutLevel: Option<real>)

  datatype Label = Sl | Tp | TimeExit

  datatype Trade = Trade(
    long: bool, entry: real, stopLoss: real, takeProfit: real, result: Label, pnlR: real, held: nat,
    tp1Hit: bool, timed: bool)

  function Entry(c: Candidate): Option<real> {
    if c.entryHint.Some? then c.entryHint else if c.close.Some? then c.close else c.reclaimLevel
  }

  function InitialStop(c: Candidate): Option<real> {
    if c.invalidation.Some? then c.invalidation else c.breakoutLevel
  }

  /** The bracket a candidate sets up: entry, stop and a non-zero risk. */
  datatype Bracket = Bracket(long: bool, entry: real, stop: real) {
    function Risk(): real { if entry >= stop then entry - stop else stop - entry }

    function Target(multiple: real): real {
      if long then entry + Risk() * multiple else entry - Risk() * multiple
    }

    /** Whether a candle trades at a target or at a stop. */
    predicate Reaches(c: Candle, multiple: real) {
      if long then c.high >= Target(multiple) else c.low <= Target(multiple)
    }

    predicate Loses(c: Candle, level: real) {
      if long then c.low <= level else c.high >= level
    }

    function PnlR(price: real): real
      requires Risk() != 0.0
    {
      if long then (price - entry) / Risk() else (entry - price) / Risk()
    }
  }

  function BracketOf(c: Candidate): Option<Bracket> {
    if Entry(c).None? || InitialStop(c).None? || Entry(c).value == InitialStop(c).value then None
    else Some(Bracket(c.long, Entry(c).value, InitialStop(c).value))
  }

  // ----- what the simulation means -----

  /** TP1 was reached on one of the first n candles. */
  ghost predicate Tp1By(b: Bracket, cs: seq<Candle>, n: nat)
    requires n <= |cs|
  {
    exists i | 0 <= i < n :: b.Reaches(cs[i], TP1_RR)
  }

  /** The stop in force on candle n: the initial one until TP1 was reached before it, then the entry. */
  ghost function StopAt(b: Bracket, cs: seq<Candle>, n: nat): real
    requires n <= |cs|
  {
    if Tp1By(b, cs, n) then b.entry else b.stop
  }

  ghost predicate Stopped(b: Bracket, cs: seq<Candle>, n: nat)
    requires n < |cs|
  {
    b.Loses(cs[n], StopAt(b, cs, n))
  }

  ghost predicate Exits(b: Bracket, cs: seq<Candle>, n: nat)
    requires n < |cs|
  {
    Stopped(b, cs, n) || b.Reaches(cs[n], TP2_RR) || n + 1 >= MAX_HOLD_CANDLES
  }

  /** The trade that ends on candle n: a stop counts before a target, a target before the time exit. */
  ghost function Ending(b: Bracket, cs: seq<Candle>, n: nat): Trade
    requires n < |cs| && b.Risk() != 0.0
  {
    var tp2 := b.Target(TP2_RR);
    if Stopped(b, cs, n) then Trade(b.long, b.entry, StopAt(b, cs, n), tp2, Sl, -1.0, n + 1, Tp1By(b, cs, n), false)
    else if b.Reaches(cs[n], TP2_RR) then Trade(b.long, b.entry, StopAt(b, cs, n + 1), tp2, Tp, TP2_RR, n + 1,
      Tp1By(b, cs, n + 1), false)
    else Trade(b.long, b.entry, StopAt(b, cs, n + 1), tp2, TimeExit, b.PnlR(cs[n].close), n + 1, Tp1By(b, cs, n + 1),
      true)
  }

  ghost predicate EndsAt(b: Bracket, cs: seq<Candle>, n: nat) {
    n < |cs| && Exits(b, cs, n) && forall i: nat | i < n :: !Exits(b, cs, i)
  }

  /** The result of a candidate on the candles that follow it. */
  ghost predicate Simulates(c: Candidate, cs: seq<Candle>, r: Option<Trade>) {
    match BracketOf(c)
    case None => r.None?
    case Some(b) =>
      match r
      case None => forall i: nat | i < |cs| :: !Exits(b, cs, i)
      case Some(t) => t.held >= 1 && EndsAt(b, cs, t.held - 1) && t == Ending(b, cs, t.held - 1)
  }

  lemma Tp1ByNext(b: Bracket, cs: seq<Candle>, n: nat)
    requires n < |cs|
    ensures Tp1By(b, cs, n + 1) <==> Tp1By(b, cs, n) || b.Reaches(cs[n], TP1_RR)
  {
    hide Bracket.Reaches;
    if b.Reaches(cs[n], TP1_RR) {
      assert 0 <= n < n + 1;
    }
  }

  method SimulateTrade(c: Candidate, cs: seq<Candle>) returns (r: Option<Trade>)
    ensures Simulates(c, cs, r)
  {
    hide Bracket.Reaches, Bracket.Loses, Bracket.Risk, Bracket.Target, Tp1By;
    var entry := Entry(c);
    var initial := InitialStop(c);
    if entry.None? || initial.None? {
      return None;
    }
    var b := Bracket(c.long, entry.value, initial.value);
    assert b.Risk() == 0.0 <==> b.entry == b.stop by { ZeroRisk(b); }
    if b.Risk() == 0.0 {
      return None;
    }
    var tp2 := b.Target(TP2_RR);
    var sl := b.stop;
    var tp1Hit := false;
    assert !Tp1By(b, cs, 0) by { NoneYet(b, cs); }
    for i := 0 to |cs|
      invariant tp1Hit <==> Tp1By(b, cs, i)
      invariant sl == StopAt(b, cs, i)
      invariant forall k: nat | k < i :: !Exits(b, cs, k)
    {
      var candle := cs[i];
      if b.Loses(candle, sl) {
        return Some(Trade(c.long, b.entry, sl, tp2, Sl, -1.0, i + 1, tp1Hit, false));
      }
      Tp1ByNext(b, cs, i);
      if !tp1Hit && b.Reaches(candle, TP1_RR) {
        tp1Hit := true;
        sl := b.entry;
      }
      if b.Reaches(candle, TP2_RR) {
        return Some(Trade(c.long, b.entry, sl, tp2, Tp, 1.5, i + 1, tp1Hit, false));
      }
      if i + 1 >= MAX_HOLD_CANDLES {
        var pnlR := if c.long then (candle.close - b.entry) / b.Risk() else (b.entry - candle.close) / b.Risk();
        return Some(Trade(c.long, b.entry, sl, tp2, TimeExit, pnlR, i + 1, tp1Hit, true));
      }
    }
    return None;
  }

  lemma ZeroRisk(b: Bracket)
    ensures b.Risk() == 0.0 <==> b.entry == b.stop
    ensures b.Risk() >= 0.0 && b.entry - b.Risk() <= b.stop <= b.entry + b.Risk()
  {
  }

  lemma NoneYet(b: Bracket, cs: seq<Candle>)
    ensures !Tp1By(b, cs, 0)
  {
  }

  // ----- the result, in the prices of the candles -----

  /** The levels a candidate names: entry hint before close before reclaim level, invalidation before breakout level. */
  predicate NamesLevels(c: Candidate, entry: real, stop: real) {
    && (c.entryHint == Some(entry)
        || (c.entryHint == None && c.close == Some(entry))
        || (c.entryHint == None && c.close == None && c.reclaimLevel == Some(entry)))
    && (c.invalidation == Some(stop) || (c.invalidation == None && c.breakoutLevel == Some(stop)))
    && entry != stop
  }

  /** The candle trades at `multiple` times the risk from the entry, on the winning side. */
  predicate TradesAt(long: bool, entry: real, stop: real, c: Candle, multiple: real) {
    var risk := if entry > stop then entry - stop else stop - entry;
    if long then c.high >= entry + multiple * risk else c.low <= entry - multiple * risk
  }

  predicate TradesAtStop(long: bool, c: Candle, level: real) {
    if long then c.low <= level else c.high >= level
  }

  /** The stop in force on candle n: the entry once an earlier candle traded at 0.8 times the risk. */
  ghost predicate InForce(long: bool, entry: real, stop: real, cs: seq<Candle>, n: nat, level: real)
    requires n <= |cs|
  {
    if exists k | 0 <= k < n :: TradesAt(long, entry, stop, cs[k], 0.8) then level == entry else level == stop
  }

  lemma BracketInNumbers(c: Candidate, cs: seq<Candle>, entry: real, stop: real) returns (b: Bracket)
    requires NamesLevels(c, entry, stop)
    ensures BracketOf(c) == Some(b) && b == Bracket(c.long, entry, stop) && b.Risk() > 0.0
    ensures forall k, multiple | 0 <= k < |cs| ::
      b.Reaches(cs[k], multiple) <==> TradesAt(c.long, entry, stop, cs[k], multiple)
    ensures forall k, level | 0 <= k < |cs| :: b.Loses(cs[k], level) <==> TradesAtStop(c.long, cs[k], level)
    ensures forall n, level | 0 <= n <= |cs| ::
      InForce(c.long, entry, stop, cs, n, level) <==> level == StopAt(b, cs, n)
    ensures forall n | 0 <= n <= |cs| ::
      Tp1By(b, cs, n) <==> exists k | 0 <= k < n :: TradesAt(c.long, entry, stop, cs[k], 0.8)
  {
    b := Bracket(c.long, entry, stop);
    forall k, multiple | 0 <= k < |cs|
      ensures b.Reaches(cs[k], multiple) <==> TradesAt(c.long, entry, stop, cs[k], multiple)
    {
      SameProduct(b.Risk(), if entry > stop then entry - stop else stop - entry, multiple);
    }
    forall n | 0 <= n <= |cs|
      ensures Tp1By(b, cs, n) <==> exists k | 0 <= k < n :: TradesAt(c.long, entry, stop, cs[k], 0.8)
    {
      assert forall k | 0 <= k < n :: b.Reaches(cs[k], TP1_RR) <==> TradesAt(c.long, entry, stop, cs[k], 0.8);
    }
  }

  /**
   The result of a candidate, in the prices of the candles.  A trade ends on the first candle that
   trades at the stop in force or at 1.5 times the risk, or on the sixth; where a candle does both,
   the stop counts.  A stop is booked as -1, a target as 1.5, a time exit as the signed distance of
   the close from the entry over the risk.  There is no result where no candle ends the trade.
   */
  lemma SimulationInNumbers(c: Candidate, cs: seq<Candle>, r: Option<Trade>, entry: real, stop: real, n: nat)
    requires Simulates(c, cs, r) && NamesLevels(c, entry, stop)
    requires r.Some? ==> n + 1 == r.value.held
    ensures r.None? <==>
      && |cs| < 6
      && forall k, level | 0 <= k < |cs| && InForce(c.long, entry, stop, cs, k, level) ::
           !TradesAtStop(c.long, cs[k], level) && !TradesAt(c.long, entry, stop, cs[k], 1.5)
    ensures r.Some? ==>
      && n < |cs| && n < 6
      && forall k, level | 0 <= k < n && InForce(c.long, entry, stop, cs, k, level) ::
           !TradesAtStop(c.long, cs[k], level) && !TradesAt(c.long, entry, stop, cs[k], 1.5)
    ensures r.Some? ==>
      forall level | InForce(c.long, entry, stop, cs, n, level) ::
        && (r.value.result == Sl <==> TradesAtStop(c.long, cs[n], level))
        && (r.value.result == Tp <==>
            !TradesAtStop(c.long, cs[n], level) && TradesAt(c.long, entry, stop, cs[n], 1.5))
        && (r.value.result == Sl ==> r.value.stopLoss == level)
    ensures r.Some? ==>
      var t, risk := r.value, if entry > stop then entry - stop else stop - entry;
      && t.long == c.long && t.entry == entry
      && t.takeProfit == (if c.long then entry + 1.5 * risk else entry - 1.5 * risk)
      && (t.tp1Hit <==> exists k | 0 <= k < (if t.result == Sl then n else n + 1) ::
            TradesAt(c.long, entry, stop, cs[k], 0.8))
      && (t.result != Sl ==> InForce(c.long, entry, stop, cs, n + 1, t.stopLoss))
      && (t.result == TimeExit ==> n == 5) && (t.timed <==> t.result == TimeExit)
      && match t.result
         case Sl => t.pnlR == -1.0
         case Tp => t.pnlR == 1.5
         case TimeExit => t.pnlR * risk == if c.long then cs[n].close - entry else entry - cs[n].close
  {
    hide Bracket.Reaches, Bracket.Loses, TradesAt, TradesAtStop, NamesLevels, Bracket.Target, Bracket.PnlR, Tp1By;
    var b := BracketInNumbers(c, cs, entry, stop);
    LevelsInNumbers(b);
    forall k: nat | k < |cs|
      ensures Exits(b, cs, k) <==>
        || b.Loses(cs[k], StopAt(b, cs, k)) || TradesAt(c.long, entry, stop, cs[k], 1.5) || k >= 5
    {
    }
    assert |cs| >= 6 ==> Exits(b, cs, 5);
    if r.Some? {
      ClosedAtDistance(b, cs[n].close);
    }
  }

  lemma LevelsInNumbers(b: Bracket)
    ensures b.Risk() == if b.entry > b.stop then b.entry - b.stop else b.stop - b.entry
    ensures b.Target(TP2_RR) == if b.long then b.entry + 1.5 * b.Risk() else b.entry - 1.5 * b.Risk()
  {
  }

  lemma ClosedAtDistance(b: Bracket, close: real)
    requires b.Risk() != 0.0
    ensures b.PnlR(close) * b.Risk() == if b.long then close - b.entry else b.entry - close
  {
  }

  /** A candidate without an entry or a stop, or with both at the same price, has no result. */
  lemma NoLevelsNoResult(c: Candidate, cs: seq<Candle>, r: Option<Trade>)
    requires Simulates(c, cs, r) && forall entry, stop :: !NamesLevels(c, entry, stop)
    ensures r.None?
  {
    if BracketOf(c).Some? {
      assert NamesLevels(c, BracketOf(c).value.entry, BracketOf(c).value.stop);
    }
  }

  // ----- bounds -----

  /** A result in R is within the bracket when the exit price is. */
  lemma ScaledPnl(x: real, risk: real, low: real, high: real)
    requires risk > 0.0 && low * risk <= x <= high * risk
    ensures low <= x / risk <= high
  {
    var q := x / risk;
    assert q * risk == x;
    if q < low {
      Shrinks(low - q, risk);
    }
    if q > high {
      Shrinks(q - high, risk);
    }
  }

  lemma Shrinks(a: real, b: real)
    requires a > 0.0 && b > 0.0
    ensures a * b > 0.0
  {
  }

  /**
   Every simulated trade exits within six candles with a result between -1 R and 1.5 R,
   whichever side the stop is on, as long as the candles are sound.  None is returned
   exactly when the levels are missing or equal, or the candles end before any exit.
   */
  lemma SimulationBounds(c: Candidate, cs: seq<Candle>, r: Option<Trade>)
    requires Simulates(c, cs, r) && forall i | 0 <= i < |cs| :: Sound(cs[i])
    ensures r.Some? ==> 1 <= r.value.held <= MAX_HOLD_CANDLES && r.value.held <= |cs| && -1.0 <= r.value.pnlR <= 1.5
    ensures r.Some? ==> (r.value.timed <==> r.value.result == TimeExit)
    ensures r.Some? && r.value.timed ==> r.value.held == MAX_HOLD_CANDLES
    ensures r.None? ==> BracketOf(c).None? || |cs| < MAX_HOLD_CANDLES
  {
    hide Bracket.Reaches, Bracket.Loses, Bracket.Risk, Bracket.Target, Bracket.PnlR, Tp1By, Sound;
    if BracketOf(c).Some? {
      var b := BracketOf(c).value;
      if r.None? {
        assert |cs| >= MAX_HOLD_CANDLES ==> Exits(b, cs, 5);
      } else {
        var n: nat := r.value.held - 1;
        assert n >= MAX_HOLD_CANDLES ==> Exits(b, cs, 5);
        if r.value.result == TimeExit {
          TimeExitBounds(b, cs[n], StopAt(b, cs, n));
        }
      }
    }
  }

  lemma TimeExitBounds(b: Bracket, c: Candle, stop: real)
    requires Sound(c) && b.entry != b.stop && stop in {b.stop, b.entry} && !b.Loses(c, stop) && !b.Reaches(c, TP2_RR)
    ensures b.Risk() != 0.0 && -1.0 <= b.PnlR(c.close) <= 1.5
  {
    ZeroRisk(b);
    ScaledPnl(if b.long then c.close - b.entry else b.entry - c.close, b.Risk(), -1.0, 1.5);
  }

  predicate LosingSide(b: Bracket) {
    if b.long then b.stop < b.entry else b.stop > b.entry
  }

  lemma StopPnl(b: Bracket)
    requires b.Risk() != 0.0
    ensures b.PnlR(b.entry) == 0.0 && b.PnlR(b.stop) == if LosingSide(b) then -1.0 else 1.0
  {
    var risk := b.Risk();
    assert b.stop - b.entry == risk || b.stop - b.entry == -risk;
    assert risk / risk == 1.0 && -risk / risk == -1.0;
  }

  /**
   What a stop books is what its price is worth if and only if no earlier candle reached
   TP1 and the stop is on the losing side.  A stop moved to the entry is worth nothing and
   a stop on the winning side is worth 1 R; both are booked as -1 R.
   */
  lemma StopBooksItsPriceIff(c: Candidate, cs: seq<Candle>, r: Option<Trade>)
    requires Simulates(c, cs, r) && r.Some? && r.value.result == Sl
    ensures var b, t := BracketOf(c).value, r.value;
            && b.Risk() != 0.0
            && (t.pnlR == b.PnlR(t.stopLoss) <==>
                  LosingSide(b) && forall i | 0 <= i < t.held - 1 :: !b.Reaches(cs[i], TP1_RR))
            && (!(t.pnlR == b.PnlR(t.stopLoss)) ==> t.pnlR < b.PnlR(t.stopLoss))
  {
    hide Bracket.Reaches, Bracket.Loses, Bracket.PnlR, Bracket.Target, LosingSide;
    StopPnl(BracketOf(c).value);
  }

  /** TP1 at 108 on the first candle moves the stop to 100; the second candle trades there: -1 R for an even trade. */
  lemma MovedStopBooksFullLoss() returns (c: Candidate, cs: seq<Candle>, t: Trade)
    ensures forall i | 0 <= i < |cs| :: Sound(cs[i])
    ensures Simulates(c, cs, Some(t)) && t.result == Sl && t.pnlR == -1.0
    ensures t.stopLoss == t.entry && BracketOf(c).value.PnlR(t.stopLoss) == 0.0
  {
    c := Candidate(true, Some(100.0), None, None, Some(90.0), None);
    cs := [Candle(0, 101.0, 109.0, 100.5, 108.0, 1.0, None), Candle(1, 108.0, 108.0, 99.0, 99.0, 1.0, None)];
    var b := Bracket(true, 100.0, 90.0);
    t := Trade(true, 100.0, 100.0, 115.0, Sl, -1.0, 2, true, false);
    assert b.Reaches(cs[0], TP1_RR);
    assert !Exits(b, cs, 0);
    assert Stopped(b, cs, 1);
  }

  /** A long with its stop above the entry is stopped on the first candle: -1 R where the price gives 1 R. */
  lemma WinningStopBooksLoss() returns (c: Candidate, cs: seq<Candle>, t: Trade)
    ensures forall i | 0 <= i < |cs| :: Sound(cs[i])
    ensures Simulates(c, cs, Some(t)) && t.result == Sl && t.pnlR == -1.0 && BracketOf(c).value.PnlR(t.stopLoss) == 1.0
  {
    c := Candidate(true, Some(100.0), None, None, Some(110.0), None);
    cs := [Candle(0, 101.0, 106.0, 100.5, 105.0, 1.0, None)];
    var b := Bracket(true, 100.0, 110.0);
    t := Trade(true, 100.0, 110.0, 115.0, Sl, -1.0, 1, false, false);
    assert Stopped(b, cs, 0);
  }

  // ----- long and short are mirror images -----

  function MirrorPrice(entry: real, price: real): real { 2.0 * entry - price }

  function MirrorCandle(entry: real, c: Candle): Candle {
    Candle(c.ts, MirrorPrice(entry, c.open), MirrorPrice(entry, c.low), MirrorPrice(entry, c.high),
      MirrorPrice(entry, c.close), c.volume, c.quote)
  }

  function MirrorCandles(entry: real, cs: seq<Candle>): seq<Candle> {
    seq(|cs|, i requires 0 <= i < |cs| => MirrorCandle(entry, cs[i]))
  }

  function MirrorBracket(b: Bracket): Bracket {
    Bracket(!b.long, b.entry, MirrorPrice(b.entry, b.stop))
  }

  function MirrorCandidate(c: Candidate): Candidate {
    if Entry(c).None? || InitialStop(c).None? then c.(long := !c.long)
    else Candidate(!c.long, Entry(c), None, None, Some(MirrorPrice(Entry(c).value, InitialStop(c).value)), None)
  }

  lemma MirrorTarget(b: Bracket, multiple: real)
    ensures MirrorBracket(b).Risk() == b.Risk()
    ensures MirrorBracket(b).Target(multiple) == MirrorPrice(b.entry, b.Target(multiple))
  {
    var m := MirrorBracket(b);
    assert m.Risk() == b.Risk();
    hide Bracket.Risk;
    SameProduct(m.Risk(), b.Risk(), multiple);
  }

  lemma SameProduct(x: real, y: real, multiple: real)
    requires x == y
    ensures x * multiple == y * multiple
  {
  }

  lemma MirrorOneCandle(b: Bracket, c: Candle, multiple: real, level: real)
    ensures var m, d := MirrorBracket(b), MirrorCandle(b.entry, c);
            && m.Risk() == b.Risk()
            && (m.Reaches(d, multiple) <==> b.Reaches(c, multiple))
            && (m.Loses(d, MirrorPrice(b.entry, level)) <==> b.Loses(c, level))
            && (b.Risk() != 0.0 ==> m.PnlR(d.close) == b.PnlR(c.close))
  {
    hide Bracket.Risk, Bracket.Target;
    MirrorTarget(b, multiple);
    var m, d := MirrorBracket(b), MirrorCandle(b.entry, c);
    assert b.long ==> m.entry - d.close == c.close - b.entry;
    assert !b.long ==> d.close - m.entry == b.entry - c.close;
  }

  lemma MirrorStop(b: Bracket, cs: seq<Candle>, n: nat)
    requires n <= |cs|
    ensures Tp1By(MirrorBracket(b), MirrorCandles(b.entry, cs), n) <==> Tp1By(b, cs, n)
    ensures StopAt(MirrorBracket(b), MirrorCandles(b.entry, cs), n) == MirrorPrice(b.entry, StopAt(b, cs, n))
  {
    hide Bracket.Reaches;
    forall i | 0 <= i < n
      ensures MirrorBracket(b).Reaches(MirrorCandles(b.entry, cs)[i], TP1_RR) <==> b.Reaches(cs[i], TP1_RR)
    {
      MirrorOneCandle(b, cs[i], TP1_RR, 0.0);
    }
  }

  lemma MirrorExits(b: Bracket, cs: seq<Candle>, n: nat)
    requires n < |cs|
    ensures Stopped(MirrorBracket(b), MirrorCandles(b.entry, cs), n) <==> Stopped(b, cs, n)
    ensures Exits(MirrorBracket(b), MirrorCandles(b.entry, cs), n) <==> Exits(b, cs, n)
  {
    hide Bracket.Reaches, Bracket.Loses, Bracket.Risk, Tp1By, StopAt;
    MirrorStop(b, cs, n);
    MirrorOneCandle(b, cs[n], TP2_RR, StopAt(b, cs, n));
  }

  /**
   Symmetry: a candidate on any candles and its mirror image about the entry, on the
   mirrored candles, end with the same label, result, holding time and flags.
   */
  lemma MirroredSimulation(c: Candidate, cs: seq<Candle>, r: Option<Trade>, mirrored: Option<Trade>)
    requires Simulates(c, cs, r)
    requires Simulates(MirrorCandidate(c), MirrorCandles(if Entry(c).Some? then Entry(c).value else 0.0, cs), mirrored)
    ensures r.Some? <==> mirrored.Some?
    ensures r.Some? ==>
      && mirrored.value.long == !r.value.long && mirrored.value.entry == r.value.entry
      && mirrored.value.result == r.value.result && mirrored.value.pnlR == r.value.pnlR
      && mirrored.value.held == r.value.held
      && mirrored.value.tp1Hit == r.value.tp1Hit && mirrored.value.timed == r.value.timed
  {
    hide Bracket.Reaches, Bracket.Loses, Bracket.Risk, Bracket.Target, Bracket.PnlR, Tp1By, StopAt, Stopped, Exits;
    if BracketOf(c).Some? {
      var b := BracketOf(c).value;
      var m, mcs := MirrorBracket(b), MirrorCandles(b.entry, cs);
      assert BracketOf(MirrorCandidate(c)) == Some(m);
      forall n: nat | n < |cs| ensures (Exits(m, mcs, n) <==> Exits(b, cs, n))
        && (Stopped(m, mcs, n) <==> Stopped(b, cs, n)) {
        MirrorExits(b, cs, n);
      }
      SameEnding(b, cs, m, mcs, r, mirrored);
      if r.Some? {
        var n: nat := r.value.held - 1;
        ZeroRisk(b);
        MirrorOneCandle(b, cs[n], TP2_RR, 0.0);
        MirrorStop(b, cs, n);
        MirrorStop(b, cs, n + 1);
      }
    }
  }

  ghost predicate ExitsAs(b: Bracket, cs: seq<Candle>, r: Option<Trade>) {
    match r
    case None => forall i: nat | i < |cs| :: !Exits(b, cs, i)
    case Some(t) => t.held >= 1 && EndsAt(b, cs, t.held - 1)
  }

  /** Two simulations that exit on the same candles end on the same candle, or not at all. */
  lemma SameEnding(b: Bracket, cs: seq<Candle>, m: Bracket, mcs: seq<Candle>, r: Option<Trade>, other: Option<Trade>)
    requires |cs| == |mcs| && forall n: nat | n < |cs| :: Exits(m, mcs, n) <==> Exits(b, cs, n)
    requires ExitsAs(b, cs, r) && ExitsAs(m, mcs, other)
    ensures r.Some? <==> other.Some?
    ensures r.Some? ==> other.value.held == r.value.held
  {
    hide Exits;
    if r.Some? {
      assert Exits(m, mcs, r.value.held - 1);
    }
    if other.Some? {
      assert Exits(b, cs, other.value.held - 1);
    }
  }

  // ----- a result never depends on later candles -----

  lemma PrefixExits(b: Bracket, cs: seq<Candle>, more: seq<Candle>, n: nat)
    requires n < |cs|
    ensures (Exits(b, cs + more, n) <==> Exits(b, cs, n)) && (Stopped(b, cs + more, n) <==> Stopped(b, cs, n))
    ensures Tp1By(b, cs + more, n) == Tp1By(b, cs, n) && Tp1By(b, cs + more, n + 1) == Tp1By(b, cs, n + 1)
  {
    hide Bracket.Reaches, Bracket.Loses;
    assert forall i | 0 <= i <= n :: (cs + more)[i] == cs[i];
  }

  /** A trade that exits on the candles seen so far keeps its result when more candles arrive. */
  lemma LaterCandlesChangeNothing(c: Candidate, cs: seq<Candle>, more: seq<Candle>, r: Option<Trade>,
      later: Option<Trade>)
    requires Simulates(c, cs, r) && Simulates(c, cs + more, later) && r.Some?
    ensures later == r
  {
    hide Bracket.Reaches, Bracket.Loses, Bracket.Risk, Bracket.Target, Bracket.PnlR, Tp1By, Stopped, Exits;
    var b := BracketOf(c).value;
    var n: nat := r.value.held - 1;
    forall k: nat | k <= n ensures Exits(b, cs + more, k) <==> Exits(b, cs, k) {
      PrefixExits(b, cs, more, k);
    }
    PrefixExits(b, cs, more, n);
    assert Exits(b, cs + more, n);
    var k: nat := later.value.held - 1;
    assert k <= n && n <= k;
  }
}
