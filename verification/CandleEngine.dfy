/**
 Candle series and their aggregation.  Candles are exact reals over integer
 millisecond timestamps; a series is validated, gap free, and re-bucketed by
 modular arithmetic on the timestamps.
 */
module CandleEngine {
  import opened Wrappers
  import opened Reals

  datatype Candle = Candle(ts: int, open: real, high: real, low: real, close: real, volume: real, quote: Option<real>)

  datatype CandleFault =
    | UnknownTimeframe | NonIntegral | InvalidAsOf | EmptySeries | DuplicateTimestamp | OutOfOrderOrGap
    | InvalidOhlcv | InvalidOhlc | NoClosedCandle | AmbiguousClosureOrder
    | NoClosedMarker | LastNotClosed | NegativeOffset | InsufficientHistory | EmptyEma | BadEmaPeriod

  function Lower(text: string): string {
    seq(|text|, i requires 0 <= i < |text| => if 'A' <= text[i] <= 'Z' then text[i] - 'A' + 'a' else text[i])
  }

  function IntervalMs(granularity: string): (r: Option<int>)
    ensures r.Some? ==> r.value > 0
  {
    var name := Lower(granularity);
    if name == "1m" then Some(60_000) else if name == "3m" then Some(180_000) else if name == "5m" then Some(300_000)
    else if name == "15m" then Some(900_000) else if name == "30m" then Some(1_800_000)
      else if name == "1h" then Some(3_600_000)
    else if name == "4h" then Some(14_400_000) else if name == "1d" then Some(86_400_000) else None
  }

  // ----- valid series -----

  predicate PositiveOhlcv(c: Candle) {
    c.open > 0.0 && c.high > 0.0 && c.low > 0.0 && c.close > 0.0 && c.volume >= 0.0
  }

  predicate Sound(c: Candle) {
    PositiveOhlcv(c) && c.low <= Min(c.open, c.close) && Max(c.open, c.close) <= c.high
  }

  ghost predicate Spaced(cs: seq<Candle>, step: int) {
    forall i, j | 0 <= i && j == i + 1 < |cs| :: cs[j].ts == cs[i].ts + step
  }

  /** What the engine accepts as a series. */
  ghost predicate Series(cs: seq<Candle>, step: int) {
    cs != [] && Spaced(cs, step) && forall i | 0 <= i < |cs| :: Sound(cs[i])
  }

  lemma SpacedPop(cs: seq<Candle>, step: int) returns (before: seq<Candle>, last: Candle)
    requires cs != [] && Spaced(cs, step)
    ensures before == cs[..|cs| - 1] && cs == before + [last] && Spaced(before, step)
    ensures before != [] ==> last.ts == before[|before| - 1].ts + step
  {
    before, last := cs[..|cs| - 1], cs[|cs| - 1];
    if before != [] {
      assert cs[|cs| - 1].ts == cs[|cs| - 2].ts + step;
    }
  }

  lemma {:induction false} SpacedBounds(cs: seq<Candle>, step: int, i: nat)
    requires step > 0 && Spaced(cs, step) && i < |cs|
    ensures cs[0].ts <= cs[i].ts <= cs[|cs| - 1].ts
    ensures i > 0 ==> cs[0].ts < cs[i].ts
    ensures i < |cs| - 1 ==> cs[i].ts <= cs[|cs| - 1].ts - step
    decreases |cs|
  {
    hide Spaced;
    if |cs| > 1 {
      var before, last := SpacedPop(cs, step);
      SpacedBounds(before, step, if i < |before| then i else i - 1);
    }
  }

  predicate ClosedAt(c: Candle, step: int, asOf: int) {
    c.ts + step <= asOf
  }

  /** The candles that are closed at `asOf`. */
  function Closed(cs: seq<Candle>, step: int, asOf: int): seq<Candle> {
    if cs == [] then []
    else
      var rest, last := Closed(cs[..|cs| - 1], step, asOf), cs[|cs| - 1];
      if ClosedAt(last, step, asOf) then rest + [last] else rest
  }

  lemma {:induction false} ClosedHold(cs: seq<Candle>, step: int, asOf: int)
    ensures forall c :: c in Closed(cs, step, asOf) <==> c in cs && ClosedAt(c, step, asOf)
    ensures |Closed(cs, step, asOf)| <= |cs|
  {
    if cs != [] {
      var before, last := cs[..|cs| - 1], cs[|cs| - 1];
      ClosedHold(before, step, asOf);
      assert cs == before + [last];
    }
  }

  /** In a spaced series the closed candles are a prefix: the closure order is never ambiguous. */
  lemma {:induction false} ClosedIsPrefix(cs: seq<Candle>, step: int, asOf: int)
    requires step > 0 && Spaced(cs, step)
    ensures Closed(cs, step, asOf) <= cs
    ensures Closed(cs, step, asOf) != [] <==> cs != [] && ClosedAt(cs[0], step, asOf)
    decreases |cs|
  {
    hide Spaced;
    if cs != [] {
      var before, last := SpacedPop(cs, step);
      ClosedIsPrefix(before, step, asOf);
      SpacedBounds(cs, step, 0);
      if ClosedAt(last, step, asOf) {
        AllClosed(before, step, asOf);
      }
    }
  }

  lemma {:induction false} AllClosed(cs: seq<Candle>, step: int, asOf: int)
    requires step > 0 && Spaced(cs, step) && (cs != [] ==> ClosedAt(cs[|cs| - 1], step, asOf))
    ensures Closed(cs, step, asOf) == cs
    decreases |cs|
  {
    hide Spaced;
    if cs != [] {
      var before, last := SpacedPop(cs, step);
      AllClosed(before, step, asOf);
    }
  }

  /** The fault the scan reports at candle i, when the candles before it passed. */
  ghost function FaultAt(cs: seq<Candle>, step: int, i: nat): Option<CandleFault>
    requires i < |cs|
  {
    var c := cs[i];
    if exists j | 0 <= j < i :: cs[j].ts == c.ts then Some(DuplicateTimestamp)
    else if i > 0 && c.ts - cs[i - 1].ts != step then Some(OutOfOrderOrGap)
    else if !PositiveOhlcv(c) then Some(InvalidOhlcv)
    else if !Sound(c) then Some(InvalidOhlc)
    else None
  }

  ghost predicate PassesUpTo(cs: seq<Candle>, step: int, n: nat) {
    n <= |cs| && forall i: nat | i < n :: FaultAt(cs, step, i).None?
  }

  /** A scan without faults is exactly a valid series. */
  lemma PassingIsSeries(cs: seq<Candle>, step: int)
    requires step > 0 && cs != []
    ensures PassesUpTo(cs, step, |cs|) <==> Series(cs, step)
  {
    if PassesUpTo(cs, step, |cs|) {
      forall i | 0 <= i < |cs| ensures Sound(cs[i]) {
        assert FaultAt(cs, step, i).None?;
      }
      forall i, j | 0 <= i && j == i + 1 < |cs| ensures cs[j].ts == cs[i].ts + step {
        assert FaultAt(cs, step, j).None?;
      }
    }
    if Series(cs, step) {
      forall i: nat | i < |cs| ensures FaultAt(cs, step, i).None? {
        forall j | 0 <= j < i ensures cs[j].ts != cs[i].ts {
          var head := cs[..i + 1];
          assert Spaced(head, step);
          SpacedBounds(head, step, j);
        }
      }
    }
  }

  ghost predicate ScanFails(cs: seq<Candle>, step: int, fault: CandleFault) {
    exists i: nat :: i < |cs| && PassesUpTo(cs, step, i) && FaultAt(cs, step, i) == Some(fault)
  }

  method SelectClosedCandles(cs: seq<Candle>, granularity: string, asOf: int)
    returns (r: Result<seq<Candle>, CandleFault>)
    ensures r.Ok? <==>
      IntervalMs(granularity).Some? && asOf > 0 && Series(cs, IntervalMs(granularity).value)
      && ClosedAt(cs[0], IntervalMs(granularity).value, asOf)
    ensures r.Ok? ==> r.value == Closed(cs, IntervalMs(granularity).value, asOf) <= cs && r.value != []
    ensures r.Err? ==>
      match r.error
      case UnknownTimeframe => IntervalMs(granularity).None?
      case InvalidAsOf => IntervalMs(granularity).Some? && asOf <= 0
      case EmptySeries => IntervalMs(granularity).Some? && asOf > 0 && cs == []
      case NoClosedCandle =>
        && IntervalMs(granularity).Some? && asOf > 0 && Series(cs, IntervalMs(granularity).value)
        && cs[0].ts + IntervalMs(granularity).value > asOf
      case fault => IntervalMs(granularity).Some? && asOf > 0 && ScanFails(cs, IntervalMs(granularity).value, fault)
  {
    var interval := IntervalMs(granularity);
    if interval.None? {
      return Err(UnknownTimeframe);
    }
    var step := interval.value;
    if asOf <= 0 {
      return Err(InvalidAsOf);
    }
    if cs == [] {
      return Err(EmptySeries);
    }
    PassingIsSeries(cs, step);
    var seen: set<int> := {};
    var previous: Option<int> := None;
    for i := 0 to |cs|
      invariant forall ts :: ts in seen <==> exists j | 0 <= j < i :: cs[j].ts == ts
      invariant previous == if i == 0 then None else Some(cs[i - 1].ts)
      invariant PassesUpTo(cs, step, i)
    {
      var c := cs[i];
      ghost var fault := FaultAt(cs, step, i);
      if c.ts in seen {
        return Err(DuplicateTimestamp);
      }
      seen := seen + {c.ts};
      if previous.Some? && c.ts - previous.value != step {
        return Err(OutOfOrderOrGap);
      }
      previous := Some(c.ts);
      if !PositiveOhlcv(c) {
        return Err(InvalidOhlcv);
      }
      if c.high < Max(c.open, c.close) || c.low > Min(c.open, c.close) {
        return Err(InvalidOhlc);
      }
      assert FaultAt(cs, step, i).None?;
    }
    var closed := TakeClosed(cs, step, asOf);
    ClosedIsPrefix(cs, step, asOf);
    if closed == [] {
      return Err(NoClosedCandle);
    }
    if closed != cs[..|closed|] {
      return Err(AmbiguousClosureOrder);
    }
    return Ok(closed);
  }

  method TakeClosed(cs: seq<Candle>, step: int, asOf: int) returns (closed: seq<Candle>)
    ensures closed == Closed(cs, step, asOf) && |closed| <= |cs|
  {
    closed := [];
    for i := 0 to |cs|
      invariant closed == Closed(cs[..i], step, asOf)
    {
      assert cs[..i + 1][..i] == cs[..i];
      if ClosedAt(cs[i], step, asOf) {
        closed := closed + [cs[i]];
      }
    }
    assert cs[..|cs|] == cs;
    ClosedHold(cs, step, asOf);
  }

  // ----- buckets -----

  function Bucket(c: Candle, width: int): int
    requires width > 0
  {
    c.ts - c.ts % width
  }

  /** The candles of one bucket, in order. */
  function Group(cs: seq<Candle>, width: int, b: int): seq<Candle>
    requires width > 0
  {
    if cs == [] then []
    else
      var rest, last := Group(cs[..|cs| - 1], width, b), cs[|cs| - 1];
      if Bucket(last, width) == b then rest + [last] else rest
  }

  function High(cs: seq<Candle>): real
    requires cs != []
  {
    if |cs| == 1 then cs[0].high else Max(High(cs[..|cs| - 1]), cs[|cs| - 1].high)
  }

  function Low(cs: seq<Candle>): real
    requires cs != []
  {
    if |cs| == 1 then cs[0].low else Min(Low(cs[..|cs| - 1]), cs[|cs| - 1].low)
  }

  function Volume(cs: seq<Candle>): real {
    if cs == [] then 0.0 else Volume(cs[..|cs| - 1]) + cs[|cs| - 1].volume
  }

  function Quote(cs: seq<Candle>): real {
    if cs == [] then 0.0
    else Quote(cs[..|cs| - 1]) + if cs[|cs| - 1].quote.Some? then cs[|cs| - 1].quote.value else 0.0
  }

  function Merge(ts: int, cs: seq<Candle>): Candle
    requires cs != []
  {
    Candle(ts, cs[0].open, High(cs), Low(cs), cs[|cs| - 1].close, Volume(cs), Some(Quote(cs)))
  }

  /** A bucket is published when all its candles are there and it has ended. */
  ghost predicate Complete(cs: seq<Candle>, source: int, target: int, asOf: int, b: int)
    requires source > 0 && target > 0
  {
    |Group(cs, target, b)| == target / source && b + target <= asOf
  }

  ghost predicate Increasing(cs: seq<Candle>) {
    forall i, j | 0 <= i < j < |cs| :: cs[i].ts < cs[j].ts
  }

  ghost predicate Has(cs: seq<Candle>, ts: int) {
    exists i | 0 <= i < |cs| :: cs[i].ts == ts
  }

  /** What aggregation is: in time order, exactly the complete buckets, each merged. */
  ghost predicate IsAggregate(cs: seq<Candle>, source: int, target: int, asOf: int, out: seq<Candle>)
    requires 0 < source <= target
  {
    && Increasing(out)
    && (forall b :: Has(out, b) <==> Complete(cs, source, target, asOf, b))
    && (forall i | 0 <= i < |out| :: IsMerged(cs, target, out[i]))
  }

  ghost predicate IsMerged(cs: seq<Candle>, target: int, c: Candle)
    requires target > 0
  {
    Group(cs, target, c.ts) != [] && c == Merge(c.ts, Group(cs, target, c.ts))
  }

  method AggregateCandles(cs: seq<Candle>, source: string, target: string, asOf: int)
    returns (r: Result<seq<Candle>, CandleFault>)
    ensures r.Ok? ==>
      && IntervalMs(source).Some? && IntervalMs(target).Some?
      && IntervalMs(target).value % IntervalMs(source).value == 0
      && IntervalMs(target).value >= IntervalMs(source).value
      && Series(cs, IntervalMs(source).value)
      && IsAggregate(Closed(cs, IntervalMs(source).value, asOf), IntervalMs(source).value,
        IntervalMs(target).value, asOf, r.value)
    ensures r.Err? <==>
      || IntervalMs(source).None? || IntervalMs(target).None?
      || IntervalMs(target).value % IntervalMs(source).value != 0
      || asOf <= 0 || !Series(cs, IntervalMs(source).value) || !ClosedAt(cs[0], IntervalMs(source).value, asOf)
    ensures r.Err? ==>
      match r.error
      case UnknownTimeframe => IntervalMs(source).None? || IntervalMs(target).None?
      case NonIntegral =>
        && IntervalMs(source).Some? && IntervalMs(target).Some?
        && IntervalMs(target).value % IntervalMs(source).value != 0
      case fault =>
        && IntervalMs(source).Some? && IntervalMs(target).Some?
        && IntervalMs(target).value % IntervalMs(source).value == 0
        && match fault
           case InvalidAsOf => asOf <= 0
           case EmptySeries => asOf > 0 && cs == []
           case NoClosedCandle =>
             && asOf > 0 && Series(cs, IntervalMs(source).value)
             && cs[0].ts + IntervalMs(source).value > asOf
           case _ => asOf > 0 && ScanFails(cs, IntervalMs(source).value, fault)
  {
    hide Series, Group, Merge, Closed, Lower, Increasing;
    var sourceMs, targetMs := IntervalMs(source), IntervalMs(target);
    if sourceMs.None? || targetMs.None? {
      return Err(UnknownTimeframe);
    }
    if targetMs.value % sourceMs.value != 0 {
      return Err(NonIntegral);
    }
    MultipleIsLarger(sourceMs.value, targetMs.value);
    var selected := SelectClosedCandles(cs, source, asOf);
    if selected.Err? {
      return Err(selected.error);
    }
    var order, groups := GroupCandles(selected.value, targetMs.value);
    var out := Publish(selected.value, order, groups, sourceMs.value, targetMs.value, asOf);
    return Ok(out);
  }

  lemma MultipleIsLarger(s: int, t: int)
    requires s > 0 && t > 0 && t % s == 0
    ensures s <= t && t / s >= 1 && t == (t / s) * s
  {
  }

  ghost predicate Distinct(keys: seq<int>) {
    forall i, j | 0 <= i < j < |keys| :: keys[i] != keys[j]
  }

  ghost predicate Ascending(keys: seq<int>) {
    forall i, j | 0 <= i < j < |keys| :: keys[i] < keys[j]
  }

  /** Groups the candles by bucket; `order` has the buckets as they first appear. */
  method GroupCandles(cs: seq<Candle>, width: int) returns (order: seq<int>, groups: map<int, seq<Candle>>)
    requires width > 0
    ensures Distinct(order) && forall b :: b in order <==> b in groups
    ensures forall b :: b in groups <==> Group(cs, width, b) != []
    ensures forall b | b in groups :: groups[b] == Group(cs, width, b)
  {
    order, groups := [], map[];
    for i := 0 to |cs|
      invariant Distinct(order) && forall b :: b in order <==> b in groups
      invariant forall b :: b in groups <==> Group(cs[..i], width, b) != []
      invariant forall b | b in groups :: groups[b] == Group(cs[..i], width, b)
    {
      assert cs[..i + 1][..i] == cs[..i];
      var bucket := cs[i].ts - cs[i].ts % width;
      if bucket !in groups {
        order := order + [bucket];
      }
      groups := groups[bucket := (if bucket in groups then groups[bucket] else []) + [cs[i]]];
    }
    assert cs[..|cs|] == cs;
  }

  method SortKeys(keys: seq<int>) returns (sorted: seq<int>)
    requires Distinct(keys)
    ensures Ascending(sorted) && forall b :: b in sorted <==> b in keys
  {
    sorted := [];
    for i := 0 to |keys|
      invariant Ascending(sorted) && forall b :: b in sorted <==> b in keys[..i]
    {
      assert keys[..i + 1] == keys[..i] + [keys[i]];
      var k := 0;
      while k < |sorted| && sorted[k] < keys[i]
        invariant k <= |sorted| && forall m | 0 <= m < k :: sorted[m] < keys[i]
      {
        k := k + 1;
      }
      AscendingInsert(sorted, k, keys[i]);
      sorted := sorted[..k] + [keys[i]] + sorted[k..];
    }
    assert keys[..|keys|] == keys;
  }

  lemma AscendingInsert(sorted: seq<int>, k: nat, key: int)
    requires Ascending(sorted) && k <= |sorted| && key !in sorted
    requires (forall m | 0 <= m < k :: sorted[m] < key) && (k < |sorted| ==> key <= sorted[k])
    ensures var r := sorted[..k] + [key] + sorted[k..]; Ascending(r) && forall b :: b in r <==> b in sorted || b == key
  {
    var r := sorted[..k] + [key] + sorted[k..];
    assert sorted == sorted[..k] + sorted[k..];
    assert k < |sorted| ==> sorted[k] in sorted;
    forall i, j | 0 <= i < j < |r| ensures r[i] < r[j] {
      assert r[i] == if i < k then sorted[i] else if i == k then key else sorted[i - 1];
      assert r[j] == if j < k then sorted[j] else if j == k then key else sorted[j - 1];
      if i <= k < j && k < |sorted| {
        assert key < sorted[k] && (k == j - 1 || sorted[k] < sorted[j - 1]);
      }
    }
  }

  /** The complete buckets among the first n keys are out, each merged. */
  ghost predicate Published(cs: seq<Candle>, source: int, target: int, asOf: int, keys: seq<int>, out: seq<Candle>)
    requires 0 < source <= target
  {
    && Increasing(out)
    && (forall b :: Has(out, b) <==> b in keys && Complete(cs, source, target, asOf, b))
    && (forall i | 0 <= i < |out| :: IsMerged(cs, target, out[i]))
  }

  lemma PublishOne(cs: seq<Candle>, source: int, target: int, asOf: int, keys: seq<int>, out: seq<Candle>, c: Candle)
    requires 0 < source <= target && Published(cs, source, target, asOf, keys, out)
    requires IsMerged(cs, target, c) && forall b | b in keys :: b < c.ts
    ensures Published(cs, source, target, asOf, keys + [c.ts],
                      if Complete(cs, source, target, asOf, c.ts) then out + [c] else out)
  {
    hide IsMerged, Complete, Has;
    HasPush(out, c);
    if Complete(cs, source, target, asOf, c.ts) {
      forall i | 0 <= i < |out| ensures out[i].ts < c.ts {
        HasAt(out, i);
      }
    }
  }

  lemma HasAt(out: seq<Candle>, i: nat)
    requires i < |out|
    ensures Has(out, out[i].ts)
  {
  }

  lemma HasPush(out: seq<Candle>, c: Candle)
    ensures forall b :: Has(out + [c], b) <==> Has(out, b) || c.ts == b
  {
    assert (out + [c])[|out|] == c;
    forall b | Has(out, b) ensures Has(out + [c], b) {
      var i :| 0 <= i < |out| && out[i].ts == b;
      assert (out + [c])[i].ts == b;
    }
  }

  /** The buckets in time order; the complete ones are merged. */
  method Publish(cs: seq<Candle>, order: seq<int>, groups: map<int, seq<Candle>>, source: int, target: int, asOf: int)
    returns (out: seq<Candle>)
    requires 0 < source <= target && target % source == 0 && Distinct(order)
    requires forall b :: b in order <==> b in groups
    requires forall b :: b in groups <==> Group(cs, target, b) != []
    requires forall b | b in groups :: groups[b] == Group(cs, target, b)
    ensures IsAggregate(cs, source, target, asOf, out)
  {
    hide Group, Published, IsAggregate, High, Low, Volume, Quote;
    MultipleIsLarger(source, target);
    var expected := target / source;
    var sorted := SortKeys(order);
    out := [];
    NothingPublished(cs, source, target, asOf);
    for i := 0 to |sorted|
      invariant Published(cs, source, target, asOf, sorted[..i], out)
    {
      var timestamp := sorted[i];
      assert timestamp in sorted;
      assert sorted[..i + 1] == sorted[..i] + [timestamp];
      var group := groups[timestamp];
      PublishOne(cs, source, target, asOf, sorted[..i], out, Merge(timestamp, group));
      if |group| == expected && timestamp + target <= asOf {
        var merged := Merged(timestamp, group);
        out := out + [merged];
      }
    }
    assert sorted[..|sorted|] == sorted;
    PublishedAll(cs, source, target, asOf, sorted, out);
  }

  lemma NothingPublished(cs: seq<Candle>, source: int, target: int, asOf: int)
    requires 0 < source <= target
    ensures forall keys: seq<int> | keys == [] :: Published(cs, source, target, asOf, keys, [])
  {
  }

  lemma PublishedAll(cs: seq<Candle>, source: int, target: int, asOf: int, keys: seq<int>, out: seq<Candle>)
    requires 0 < source <= target && target % source == 0 && Published(cs, source, target, asOf, keys, out)
    requires forall b :: b in keys <==> Group(cs, target, b) != []
    ensures IsAggregate(cs, source, target, asOf, out)
  {
    hide Group, Merge;
    MultipleIsLarger(source, target);
  }

  /** The merge, with its maxima, minima and sums computed by loops. */
  method Merged(timestamp: int, group: seq<Candle>) returns (c: Candle)
    requires group != []
    ensures c == Merge(timestamp, group)
    ensures c.ts == timestamp && c.open == group[0].open && c.close == group[|group| - 1].close
  {
    var high, low, volume, quote := group[0].high, group[0].low, 0.0, 0.0;
    for i := 0 to |group|
      invariant i > 0 ==> high == High(group[..i]) && low == Low(group[..i])
      invariant i == 0 ==> high == group[0].high && low == group[0].low
      invariant volume == Volume(group[..i]) && quote == Quote(group[..i])
    {
      assert group[..i + 1][..i] == group[..i];
      high, low := Max(high, group[i].high), Min(low, group[i].low);
      volume := volume + group[i].volume;
      quote := quote + if group[i].quote.Some? then group[i].quote.value else 0.0;
    }
    assert group[..|group|] == group;
    c := Candle(timestamp, group[0].open, high, low, group[|group| - 1].close, volume, Some(quote));
  }

  // ----- windows over a certified timeframe -----

  datatype Timeframe = Timeframe(granularity: string, candles: seq<Candle>, closedTs: int, asOf: int)

  /** The slice `candles[-size:]`, which for size 0 is everything. */
  function Tail(cs: seq<Candle>, size: int): seq<Candle> {
    if size > 0 then if size >= |cs| then cs else cs[|cs| - size..]
    else if -size >= |cs| then [] else cs[-size..]
  }

  function ClosedWindow(tf: Timeframe, size: Option<int>): Result<seq<Candle>, CandleFault> {
    if tf.candles == [] || tf.closedTs != tf.candles[|tf.candles| - 1].ts then Err(NoClosedMarker)
    else if IntervalMs(tf.granularity).None? then Err(UnknownTimeframe)
    else if tf.asOf < tf.candles[|tf.candles| - 1].ts + IntervalMs(tf.granularity).value then Err(LastNotClosed)
    else Ok(if size.Some? then Tail(tf.candles, size.value) else tf.candles)
  }

  function ClosedCandleAtOffset(tf: Timeframe, offset: int): Result<Candle, CandleFault> {
    if offset < 0 then Err(NegativeOffset)
    else match ClosedWindow(tf, None)
      case Err(fault) => Err(fault)
      case Ok(cs) => if |cs| <= offset then Err(InsufficientHistory) else Ok(cs[|cs| - 1 - offset])
  }

  // ----- the exponential moving average -----

  function Smoothed(values: seq<real>, alpha: real): real
    requires values != []
  {
    if |values| == 1 then values[0]
    else values[|values| - 1] * alpha + Smoothed(values[..|values| - 1], alpha) * (1.0 - alpha)
  }

  method Ema(values: seq<real>, period: int) returns (r: Result<real, CandleFault>)
    ensures r.Ok? <==> values != [] && period > 0
    ensures r.Ok? ==> r.value == Smoothed(values, 2.0 / (period as real + 1.0))
    ensures r.Err? ==> r.error == if values == [] then EmptyEma else BadEmaPeriod
  {
    if values == [] {
      return Err(EmptyEma);
    }
    if period <= 0 {
      return Err(BadEmaPeriod);
    }
    var alpha := 2.0 / (period as real + 1.0);
    var result := values[0];
    for i := 1 to |values|
      invariant result == Smoothed(values[..i], alpha)
    {
      assert values[..i + 1][..i] == values[..i];
      result := values[i] * alpha + result * (1.0 - alpha);
    }
    assert values[..|values|] == values;
    return Ok(result);
  }
}
