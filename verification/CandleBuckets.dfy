/**
 What the candle engine computes, in the timestamps and prices of the series it is given:
 the candles of an aggregate over index ranges of the series, the intervals behind their
 names, the faults of a series, windows, and one step of the moving average.
 */
module CandleBuckets {
  import opened Wrappers
  import opened Reals
  import opened CandleEngine
  import opened CandleLaws

  // ----- a candle of the aggregate, over the series -----

  /** The candles that open in [lo, hi) are those from a up to z. */
  ghost predicate IsRange(cs: seq<Candle>, lo: int, hi: int, a: nat, z: nat) {
    && a <= z <= |cs|
    && forall k | 0 <= k < |cs| :: lo <= cs[k].ts < hi <==> a <= k < z
  }

  /** The candles of [lo, hi) are those of an index range. */
  lemma {:induction false} SliceIsRange(cs: seq<Candle>, step: int, lo: int, hi: int) returns (a: nat, z: nat)
    requires step > 0 && Spaced(cs, step)
    ensures IsRange(cs, lo, hi, a, z) && Slice(cs, lo, hi) == cs[a..z]
    decreases |cs|
  {
    hide Spaced, IsRange;
    if cs == [] {
      a, z := 0, 0;
      NoRange(lo, hi);
    } else {
      var before, last := SpacedPop(cs, step);
      a, z := SliceIsRange(before, step, lo, hi);
      a, z := RangePush(before, last, step, lo, hi, a, z);
    }
  }

  lemma NoRange(lo: int, hi: int)
    ensures IsRange([], lo, hi, 0, 0)
  {
  }

  lemma RangePush(before: seq<Candle>, last: Candle, step: int, lo: int, hi: int, a: nat, z: nat)
    returns (first: nat, end: nat)
    requires step > 0 && Spaced(before, step) && IsRange(before, lo, hi, a, z)
    requires before != [] ==> last.ts == before[|before| - 1].ts + step
    ensures IsRange(before + [last], lo, hi, first, end)
    ensures (before + [last])[first..end] == if lo <= last.ts < hi then before[a..z] + [last] else before[a..z]
  {
    first, end := a, z;
    if lo <= last.ts < hi {
      if a < z {
        RangeReachesLast(before, last, step, lo, hi, a, z);
      } else {
        first := |before|;
      }
      end := |before| + 1;
    }
  }

  /** A range that is not empty and goes on with the last candle reaches up to it. */
  lemma RangeReachesLast(before: seq<Candle>, last: Candle, step: int, lo: int, hi: int, a: nat, z: nat)
    requires step > 0 && Spaced(before, step) && IsRange(before, lo, hi, a, z) && a < z
    requires before != [] ==> last.ts == before[|before| - 1].ts + step
    requires lo <= last.ts < hi
    ensures z == |before|
  {
    SpacedBounds(before, step, |before| - 1);
    EarlierOrSame(before, step, a, |before| - 1);
    assert lo <= before[|before| - 1].ts < hi;
  }

  lemma EarlierOrSame(cs: seq<Candle>, step: int, i: nat, j: nat)
    requires step > 0 && Spaced(cs, step) && i <= j < |cs|
    ensures cs[i].ts <= cs[j].ts
  {
    if i < j {
      EarlierIsSmaller(cs, step, i, j);
    }
  }

  /** What is traded in an index range of a series. */
  function Traded(cs: seq<Candle>, a: nat, z: nat): real
    requires a <= z <= |cs|
    decreases z - a
  {
    if a == z then 0.0 else cs[a].volume + Traded(cs, a + 1, z)
  }

  function QuoteTraded(cs: seq<Candle>, a: nat, z: nat): real
    requires a <= z <= |cs|
    decreases z - a
  {
    if a == z then 0.0
    else (match cs[a].quote case Some(value) => value case None => 0.0) + QuoteTraded(cs, a + 1, z)
  }

  lemma {:induction false} TradedLast(cs: seq<Candle>, a: nat, z: nat)
    requires a < z <= |cs|
    ensures Traded(cs, a, z) == Traded(cs, a, z - 1) + cs[z - 1].volume
    ensures QuoteTraded(cs, a, z) ==
            QuoteTraded(cs, a, z - 1) + if cs[z - 1].quote.Some? then cs[z - 1].quote.value else 0.0
    decreases z - a
  {
    if a + 1 < z {
      TradedLast(cs, a + 1, z);
    }
  }

  lemma {:induction false} SumsOfRange(cs: seq<Candle>, a: nat, z: nat)
    requires a <= z <= |cs|
    ensures Volume(cs[a..z]) == Traded(cs, a, z) && Quote(cs[a..z]) == QuoteTraded(cs, a, z)
    decreases z - a
  {
    if a < z {
      assert cs[a..z][..z - a - 1] == cs[a..z - 1];
      SumsOfRange(cs, a, z - 1);
      TradedLast(cs, a, z);
    }
  }

  lemma {:induction false} HighestAndLowest(group: seq<Candle>)
    requires group != []
    ensures forall i | 0 <= i < |group| :: Low(group) <= group[i].low && group[i].high <= High(group)
    ensures exists i | 0 <= i < |group| :: group[i].high == High(group)
    ensures exists i | 0 <= i < |group| :: group[i].low == Low(group)
    decreases |group|
  {
    if |group| > 1 {
      var before, last := group[..|group| - 1], group[|group| - 1];
      HighestAndLowest(before);
      var h :| 0 <= h < |before| && before[h].high == High(before);
      var l :| 0 <= l < |before| && before[l].low == Low(before);
      assert group[h] == before[h] && group[l] == before[l];
      assert group[|group| - 1] == last;
      assert group[h].high == High(group) || group[|group| - 1].high == High(group);
      assert group[l].low == Low(group) || group[|group| - 1].low == Low(group);
      forall i | 0 <= i < |group| ensures Low(group) <= group[i].low && group[i].high <= High(group) {
        assert i < |before| ==> group[i] == before[i];
      }
    } else {
      assert group[0].high == High(group) && group[0].low == Low(group);
    }
  }

  /** The candle of an index range: first open, last close, extreme prices, summed volumes. */
  ghost predicate Spans(cs: seq<Candle>, a: nat, z: nat, c: Candle)
    requires a < z <= |cs|
  {
    && c.open == cs[a].open && c.close == cs[z - 1].close
    && (forall k | a <= k < z :: cs[k].high <= c.high && c.low <= cs[k].low)
    && (exists k | a <= k < z :: cs[k].high == c.high)
    && (exists k | a <= k < z :: cs[k].low == c.low)
    && c.volume == Traded(cs, a, z) && c.quote == Some(QuoteTraded(cs, a, z))
  }

  lemma MergeSpans(cs: seq<Candle>, a: nat, z: nat, ts: int)
    requires a < z <= |cs|
    ensures Spans(cs, a, z, Merge(ts, cs[a..z])) && Merge(ts, cs[a..z]).ts == ts
  {
    hide High, Low, Volume, Quote;
    var group, c := cs[a..z], Merge(ts, cs[a..z]);
    HighestAndLowest(group);
    SumsOfRange(cs, a, z);
    var h :| 0 <= h < |group| && group[h].high == High(group);
    var l :| 0 <= l < |group| && group[l].low == Low(group);
    assert cs[a + h].high == c.high && cs[a + l].low == c.low;
    forall k | a <= k < z ensures cs[k].high <= c.high && c.low <= cs[k].low {
      assert group[k - a] == cs[k];
    }
  }

  /** A bucket that is complete among the closed candles has no candle outside them. */
  lemma CompleteHoldsAll(cs: seq<Candle>, source: int, target: int, asOf: int, b: int)
    requires 0 < source <= target && Aligned(target, source) && Series(cs, source)
    requires Closed(cs, source, asOf) != [] && Complete(Closed(cs, source, asOf), source, target, asOf, b)
    ensures Aligned(b, target) && Slice(Closed(cs, source, asOf), b, b + target) == Slice(cs, b, b + target)
    ensures |Slice(cs, b, b + target)| == target / source > 0
  {
    hide Slice, Closed, Spaced, Sound;
    var closed := Closed(cs, source, asOf);
    MultipleIsLarger(source, target);
    ClosedIsPrefix(cs, source, asOf);
    GroupIsSlice(closed, target, b);
    SliceExtend(closed, cs[|closed|..], b, b + target);
    assert closed + cs[|closed|..] == cs;
    SlotCount(cs, source, b, b + target, target / source);
  }

  /**
   Every candle of an aggregate, over the series: its bucket is aligned and closed, the candles
   that open in the bucket are an index range of as many as fit, and the candle opens as the first
   and closes as the last of them, spans their prices and sums their volumes.
   */
  lemma AggregateInNumbers(cs: seq<Candle>, source: int, target: int, asOf: int, out: seq<Candle>, i: nat)
    returns (a: nat, z: nat)
    requires 0 < source <= target && target % source == 0 && Series(cs, source) && Closed(cs, source, asOf) != []
    requires IsAggregate(Closed(cs, source, asOf), source, target, asOf, out) && i < |out|
    ensures out[i].ts % target == 0 && out[i].ts + target <= asOf
    ensures a < z <= |cs| && z - a == target / source
    ensures forall k | 0 <= k < |cs| :: out[i].ts <= cs[k].ts < out[i].ts + target <==> a <= k < z
    ensures Spans(cs, a, z, out[i])
  {
    hide Slice, Closed, Spaced, Sound, Merge, Spans, Increasing, Group, IsMerged;
    var closed, b := Closed(cs, source, asOf), out[i].ts;
    HasAt(out, i);
    assert Complete(closed, source, target, asOf, b);
    CompleteHoldsAll(cs, source, target, asOf, b);
    GroupIsSlice(closed, target, b);
    a, z := SliceIsRange(cs, source, b, b + target);
    assert a < z && Group(closed, target, b) == cs[a..z];
    MergedHere(closed, target, out[i]);
    MergeSpans(cs, a, z, b);
  }

  lemma MergedHere(cs: seq<Candle>, target: int, c: Candle)
    requires target > 0 && IsMerged(cs, target, c)
    ensures Group(cs, target, c.ts) != [] && c == Merge(c.ts, Group(cs, target, c.ts))
  {
  }

  /** And every aligned bucket that the series covers and that has ended is a candle of the aggregate. */
  lemma AggregateHasIff(cs: seq<Candle>, source: int, target: int, asOf: int, out: seq<Candle>, b: int)
    requires 0 < source <= target && target % source == 0 && Series(cs, source) && Closed(cs, source, asOf) != []
    requires IsAggregate(Closed(cs, source, asOf), source, target, asOf, out)
    ensures (exists i | 0 <= i < |out| :: out[i].ts == b) <==>
      && b % target == 0 && b + target <= asOf
      && exists n | 0 <= n < |cs| ::
           cs[n].ts + source <= asOf && cs[0].ts - source < b && b + target <= cs[n].ts + source
  {
    hide Slice, Closed, Spaced, Sound, Merge, Increasing, Group, Complete;
    var closed := Closed(cs, source, asOf);
    ClosedIsPrefix(cs, source, asOf);
    ClosedHold(cs, source, asOf);
    SpacedPrefix(cs, source, |closed|);
    assert cs[..|closed|] == closed;
    CompleteIff(closed, source, target, asOf, b);
    assert Has(out, b) <==> Complete(closed, source, target, asOf, b);
    var last := |closed| - 1;
    assert closed[last] in closed && cs[last] == closed[last];
    forall n | 0 <= n < |cs| && cs[n].ts + source <= asOf ensures cs[n].ts <= closed[last].ts {
      assert cs[n] in closed;
      var m :| 0 <= m < |closed| && closed[m] == cs[n];
      SpacedBounds(closed, source, m);
    }
  }

  // ----- intervals -----

  /** The names of the timeframes and their lengths in milliseconds. */
  predicate Names(name: string, ms: int) {
    || (name == "1m" && ms == 60000) || (name == "3m" && ms == 180000) || (name == "5m" && ms == 300000)
    || (name == "15m" && ms == 900000) || (name == "30m" && ms == 1800000) || (name == "1h" && ms == 3600000)
    || (name == "4h" && ms == 14400000) || (name == "1d" && ms == 86400000)
  }

  /** The same letters, whatever their case in `text`. */
  predicate Spells(text: string, name: string) {
    && |text| == |name|
    && forall i | 0 <= i < |text| ::
         name[i] == if 'A' <= text[i] <= 'Z' then text[i] - 'A' + 'a' else text[i]
  }

  /** A timeframe has a length if and only if it spells one of the names, in upper or lower case. */
  lemma IntervalIff(granularity: string, ms: int)
    ensures IntervalMs(granularity) == Some(ms) <==> exists name :: Names(name, ms) && Spells(granularity, name)
  {
    SpellsIff(granularity, "1m");
    SpellsIff(granularity, "3m");
    SpellsIff(granularity, "5m");
    SpellsIff(granularity, "15m");
    SpellsIff(granularity, "30m");
    SpellsIff(granularity, "1h");
    SpellsIff(granularity, "4h");
    SpellsIff(granularity, "1d");
    assert Names("1m", 60000) && Names("3m", 180000) && Names("5m", 300000) && Names("15m", 900000);
    assert Names("30m", 1800000) && Names("1h", 3600000) && Names("4h", 14400000) && Names("1d", 86400000);
    hide Lower, Spells;
  }

  lemma SpellsIff(text: string, name: string)
    ensures Spells(text, name) <==> Lower(text) == name
  {
    var lower := Lower(text);
    if lower == name {
      forall i | 0 <= i < |text| ensures name[i] == if 'A' <= text[i] <= 'Z' then text[i] - 'A' + 'a' else text[i] {
        assert lower[i] == name[i];
      }
    }
    if Spells(text, name) {
      assert lower == name;
    }
  }

  // ----- series and their faults -----

  /** A valid series, in numbers: positive prices within their extremes, one interval apart. */
  lemma SeriesIff(cs: seq<Candle>, step: int)
    ensures Series(cs, step) <==>
      && cs != []
      && (forall i | 0 <= i < |cs| ::
            && 0.0 < cs[i].low <= cs[i].open <= cs[i].high && cs[i].low <= cs[i].close <= cs[i].high
            && cs[i].volume >= 0.0)
      && (forall i, j | 0 <= i && j == i + 1 < |cs| :: cs[j].ts - cs[i].ts == step)
  {
    assert forall i | 0 <= i < |cs| :: Sound(cs[i]) <==>
        && 0.0 < cs[i].low <= cs[i].open <= cs[i].high && cs[i].low <= cs[i].close <= cs[i].high
        && cs[i].volume >= 0.0;
    hide Sound;
  }

  /** The fault of a candle: a timestamp seen before, a wrong distance, a bad number or crossed prices, in order. */
  lemma FaultIff(cs: seq<Candle>, step: int, i: nat)
    requires i < |cs|
    ensures var c, fault := cs[i], FaultAt(cs, step, i);
            var seen := exists j | 0 <= j < i :: cs[j].ts == c.ts;
            var apart := i > 0 && c.ts != cs[i - 1].ts + step;
            var bad := c.open <= 0.0 || c.high <= 0.0 || c.low <= 0.0 || c.close <= 0.0 || c.volume < 0.0;
            var crossed := c.high < c.open || c.high < c.close || c.low > c.open || c.low > c.close;
            && (fault == Some(DuplicateTimestamp) <==> seen)
            && (fault == Some(OutOfOrderOrGap) <==> !seen && apart)
            && (fault == Some(InvalidOhlcv) <==> !seen && !apart && bad)
            && (fault == Some(InvalidOhlc) <==> !seen && !apart && !bad && crossed)
            && (fault == None <==> !seen && !apart && !bad && !crossed)
  {
  }

  /** The candles a selection returns are those that have ended at the as-of time. */
  lemma SelectedIff(cs: seq<Candle>, step: int, asOf: int, k: nat)
    requires step > 0 && Series(cs, step) && k < |cs|
    ensures k < |Closed(cs, step, asOf)| <==> cs[k].ts + step <= asOf
    ensures k < |Closed(cs, step, asOf)| ==> Closed(cs, step, asOf)[k] == cs[k]
  {
    hide Closed, Spaced, Sound;
    var closed := Closed(cs, step, asOf);
    ClosedIsPrefix(cs, step, asOf);
    ClosedHold(cs, step, asOf);
    if k < |closed| {
      assert closed[k] in closed && closed[k] == cs[k];
    } else {
      NotInHead(cs, step, closed, k);
    }
  }

  lemma NotInHead(cs: seq<Candle>, step: int, head: seq<Candle>, k: nat)
    requires step > 0 && Spaced(cs, step) && head <= cs && |head| <= k < |cs|
    ensures cs[k] !in head
  {
    forall i | 0 <= i < |head| ensures head[i] != cs[k] {
      EarlierIsSmaller(cs, step, i, k);
    }
  }

  // ----- windows -----

  /** A window is the end of a series: the last `size` candles, all for 0, all but as many for a negative size. */
  lemma TailIsEnd(cs: seq<Candle>, size: int)
    ensures var tail := Tail(cs, size);
            && |tail| == (if size > 0 then if size < |cs| then size else |cs|
                          else if -size < |cs| then |cs| + size else 0)
            && tail == cs[|cs| - |tail|..]
  {
  }

  /** When a certified timeframe gives a window, and what it answers otherwise. */
  lemma ClosedWindowIff(tf: Timeframe, size: Option<int>)
    ensures var window, interval := ClosedWindow(tf, size), IntervalMs(tf.granularity);
            var marked := tf.candles != [] && tf.candles[|tf.candles| - 1].ts == tf.closedTs;
            && (window == Err(NoClosedMarker) <==> !marked)
            && (window == Err(UnknownTimeframe) <==> marked && interval.None?)
            && (window == Err(LastNotClosed) <==> marked && interval.Some? && tf.closedTs + interval.value > tf.asOf)
            && (window.Ok? <==> marked && interval.Some? && tf.closedTs + interval.value <= tf.asOf)
            && (window.Ok? ==> window.value == if size.None? then tf.candles else Tail(tf.candles, size.value))
  {
    hide IntervalMs, Tail;
  }

  // ----- the moving average -----

  /** One more value moves the average by two (period + 1)-ths of its distance; a single value is its own average. */
  lemma EmaStep(values: seq<real>, x: real, period: int)
    requires period > 0
    ensures var alpha := 2.0 / (period as real + 1.0);
            && Smoothed([x], alpha) == x
            && (values != [] ==>
                  (Smoothed(values + [x], alpha) - Smoothed(values, alpha)) * (period as real + 1.0) ==
                  2.0 * (x - Smoothed(values, alpha)))
  {
    if values != [] {
      var n := period as real + 1.0;
      var alpha := 2.0 / n;
      var was := Smoothed(values, alpha);
      assert (values + [x])[..|values|] == values;
      assert Smoothed(values + [x], alpha) - was == alpha * (x - was);
      assert alpha * (x - was) * n == alpha * n * (x - was);
    }
  }
}
