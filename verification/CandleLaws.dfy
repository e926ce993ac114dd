/**
 The laws of candle aggregation: which buckets are complete, that the result is itself a
 valid closed series, that aggregation composes, and that it is causal.
 */
module CandleLaws {
  import opened Wrappers
  import opened Reals
  import opened CandleEngine

  /** The candles that open in [lo, hi). */
  function Slice(cs: seq<Candle>, lo: int, hi: int): seq<Candle> {
    if cs == [] then []
    else
      var rest, last := Slice(cs[..|cs| - 1], lo, hi), cs[|cs| - 1];
      if lo <= last.ts < hi then rest + [last] else rest
  }

  predicate Aligned(ts: int, width: int)
    requires width > 0
  {
    ts % width == 0
  }

  lemma Scale(p: int, q: int, width: int)
    requires width > 0 && p < q
    ensures p * width + width <= q * width
  {
    var d := q - p - 1;
    assert d * width >= 0;
    assert q * width == p * width + width + d * width;
  }

  lemma DivMod(x: int, q: int, r: int, width: int)
    requires x == q * width + r && 0 <= r < width
    ensures x / width == q && x % width == r
  {
    var p := x / width;
    assert x == p * width + x % width;
    if p < q {
      Scale(p, q, width);
    } else if q < p {
      Scale(q, p, width);
    }
  }

  lemma BucketIff(ts: int, width: int, b: int)
    requires width > 0
    ensures ts - ts % width == b <==> b % width == 0 && b <= ts < b + width
  {
    assert ts == (ts / width) * width + ts % width;
    MultipleMod(ts / width, width);
    if b % width == 0 && b <= ts < b + width {
      assert b == (b / width) * width;
      DivMod(ts, b / width, ts - b, width);
    }
  }

  lemma MultipleMod(q: int, width: int)
    requires width > 0
    ensures (q * width) % width == 0
  {
    DivMod(q * width, q, 0, width);
  }

  lemma {:induction false} GroupIsSlice(cs: seq<Candle>, width: int, b: int)
    requires width > 0
    ensures Group(cs, width, b) == if b % width == 0 then Slice(cs, b, b + width) else []
    decreases |cs|
  {
    if cs != [] {
      GroupIsSlice(cs[..|cs| - 1], width, b);
      BucketIff(cs[|cs| - 1].ts, width, b);
    }
  }

  lemma AlignedGroup(cs: seq<Candle>, width: int, b: int)
    requires width > 0 && Aligned(b, width)
    ensures Group(cs, width, b) == Slice(cs, b, b + width)
  {
    GroupIsSlice(cs, width, b);
  }

  lemma {:induction false} SliceNone(cs: seq<Candle>, lo: int, hi: int)
    requires forall i | 0 <= i < |cs| :: !(lo <= cs[i].ts < hi)
    ensures Slice(cs, lo, hi) == []
    decreases |cs|
  {
    if cs != [] {
      assert forall i | 0 <= i < |cs| - 1 :: cs[..|cs| - 1][i] == cs[i];
      SliceNone(cs[..|cs| - 1], lo, hi);
    }
  }

  lemma SliceNoneAbove(cs: seq<Candle>, step: int, lo: int, hi: int)
    requires step > 0 && Spaced(cs, step) && (cs != [] ==> cs[|cs| - 1].ts < lo)
    ensures Slice(cs, lo, hi) == []
  {
    forall i | 0 <= i < |cs| ensures cs[i].ts < lo {
      SpacedBounds(cs, step, i);
    }
    SliceNone(cs, lo, hi);
  }

  lemma {:induction false} SliceSplit(cs: seq<Candle>, step: int, lo: int, mid: int, hi: int)
    requires step > 0 && Spaced(cs, step) && lo <= mid <= hi
    ensures Slice(cs, lo, hi) == Slice(cs, lo, mid) + Slice(cs, mid, hi)
    decreases |cs|
  {
    hide Spaced;
    if cs != [] {
      var before, last := SpacedPop(cs, step);
      SliceSplit(before, step, lo, mid, hi);
      if lo <= last.ts < mid {
        SliceNoneAbove(before, step, mid, hi);
      }
    }
  }

  lemma {:induction false} SliceExtend(cs: seq<Candle>, more: seq<Candle>, lo: int, hi: int)
    ensures Slice(cs + more, lo, hi) == Slice(cs, lo, hi) + Slice(more, lo, hi)
    decreases |more|
  {
    if more == [] {
      assert cs + more == cs;
    } else {
      var before := more[..|more| - 1];
      assert (cs + more)[..|cs + more| - 1] == cs + before;
      SliceExtend(cs, before, lo, hi);
    }
  }

  lemma {:induction false} SliceHold(cs: seq<Candle>, lo: int, hi: int)
    ensures forall c :: c in Slice(cs, lo, hi) <==> c in cs && lo <= c.ts < hi
  {
    if cs != [] {
      var before, last := cs[..|cs| - 1], cs[|cs| - 1];
      SliceHold(before, lo, hi);
      assert cs == before + [last];
    }
  }

  // ----- which buckets are complete -----

  /** One slot of a spaced series is filled exactly when it lies between the ends. */
  lemma {:induction false} OneSlot(cs: seq<Candle>, step: int, lo: int)
    requires step > 0 && cs != [] && Spaced(cs, step)
    ensures |Slice(cs, lo, lo + step)| == if cs[0].ts - step < lo <= cs[|cs| - 1].ts then 1 else 0
    decreases |cs|
  {
    hide Spaced;
    var before, last := SpacedPop(cs, step);
    SpacedBounds(cs, step, 0);
    if before != [] {
      OneSlot(before, step, lo);
    } else {
      assert Slice(before, lo, lo + step) == [];
    }
  }

  lemma {:induction false} SlotCount(cs: seq<Candle>, step: int, lo: int, hi: int, n: nat)
    requires step > 0 && cs != [] && Spaced(cs, step) && hi == lo + n * step
    ensures |Slice(cs, lo, hi)| <= n
    ensures n > 0 ==> (|Slice(cs, lo, hi)| == n <==> cs[0].ts - step < lo && hi <= cs[|cs| - 1].ts + step)
    decreases n
  {
    hide Spaced, Slice;
    if n == 0 {
      SliceNone(cs, lo, hi);
    } else {
      assert hi - step == lo + (n - 1) * step;
      assert (n - 1) * step >= 0;
      SliceSplit(cs, step, lo, hi - step, hi);
      SlotCount(cs, step, lo, hi - step, n - 1);
      OneSlot(cs, step, hi - step);
    }
  }

  /** A bucket is complete exactly when it is aligned and the series covers it up to `asOf`. */
  lemma CompleteIff(cs: seq<Candle>, source: int, target: int, asOf: int, b: int)
    requires 0 < source <= target && Aligned(target, source) && cs != [] && Spaced(cs, source)
    ensures Complete(cs, source, target, asOf, b) <==>
      Aligned(b, target) && cs[0].ts - source < b && b + target <= cs[|cs| - 1].ts + source && b + target <= asOf
  {
    hide Spaced, Slice, Group;
    MultipleIsLarger(source, target);
    GroupIsSlice(cs, target, b);
    SlotCount(cs, source, b, b + target, target / source);
  }

  lemma MultiplesApart(p: int, q: int, width: int)
    requires width > 0
    ensures p * width < q * width ==> p * width + width <= q * width
  {
    if p < q {
      Scale(p, q, width);
    } else if q < p {
      Scale(q, p, width);
    }
  }

  lemma NextAligned(b: int, width: int)
    requires width > 0 && Aligned(b, width)
    ensures Aligned(b + width, width)
  {
    var q := b / width + 1;
    AlignedQuotient(b, width);
    assert b + width == q * width;
    MultipleMod(q, width);
  }

  lemma PreviousAligned(b: int, width: int)
    requires width > 0 && Aligned(b, width)
    ensures Aligned(b - width, width)
  {
    var q := b / width - 1;
    AlignedQuotient(b, width);
    assert b - width == q * width;
    MultipleMod(q, width);
  }

  lemma NextMultiple(b: int, c: int, width: int)
    requires width > 0 && Aligned(b, width) && Aligned(c, width)
    ensures b < c ==> b + width <= c
    ensures Aligned(b + width, width) && Aligned(b - width, width)
  {
    hide Aligned;
    NextAligned(b, width);
    PreviousAligned(b, width);
    AlignedQuotient(b, width);
    AlignedQuotient(c, width);
    MultiplesApart(b / width, c / width, width);
  }

  lemma AlignedQuotient(b: int, width: int)
    requires width > 0 && Aligned(b, width)
    ensures b == (b / width) * width
  {
  }

  // ----- the output is a valid closed series -----

  lemma {:induction false} MergeSound(ts: int, group: seq<Candle>)
    requires group != [] && forall i | 0 <= i < |group| :: Sound(group[i])
    ensures Sound(Merge(ts, group))
    ensures forall i | 0 <= i < |group| :: Low(group) <= group[i].low && group[i].high <= High(group)
    decreases |group|
  {
    if |group| == 1 {
      assert Volume(group) == Volume(group[..0]) + group[0].volume;
    } else {
      var before := group[..|group| - 1];
      assert forall i | 0 <= i < |before| :: before[i] == group[i];
      MergeSound(ts, before);
    }
  }

  lemma AggregateSpaced(cs: seq<Candle>, source: int, target: int, asOf: int, out: seq<Candle>, i: nat)
    requires 0 < source <= target && Aligned(target, source) && Series(cs, source)
    requires IsAggregate(cs, source, target, asOf, out) && i + 1 < |out|
    ensures out[i + 1].ts == out[i].ts + target
  {
    hide Aligned, Spaced, Group, Merge, Complete;
    var b, c := out[i].ts, out[i + 1].ts;
    assert Has(out, b) && Has(out, c);
    CompleteIff(cs, source, target, asOf, b);
    CompleteIff(cs, source, target, asOf, c);
    NextMultiple(b, c, target);
    CompleteIff(cs, source, target, asOf, b + target);
    assert Has(out, b + target);
    var k :| 0 <= k < |out| && out[k].ts == b + target;
    NothingBetween(out, i, k);
  }

  lemma NothingBetween(out: seq<Candle>, i: nat, k: nat)
    requires Increasing(out) && i + 1 < |out| && k < |out| && out[i].ts < out[k].ts <= out[i + 1].ts
    ensures k == i + 1
  {
  }

  /**
   Closure: a non-empty aggregate is a gap-free series of sound candles, aligned to the
   target interval and closed at the same instant, so the engine accepts it as input.
   */
  lemma AggregateIsClosedSeries(cs: seq<Candle>, source: int, target: int, asOf: int, out: seq<Candle>)
    requires 0 < source <= target && Aligned(target, source) && Series(cs, source)
    requires IsAggregate(cs, source, target, asOf, out) && out != []
    ensures Series(out, target) && Closed(out, target, asOf) == out
    ensures forall c | c in out :: Aligned(c.ts, target) && ClosedAt(c, target, asOf)
  {
    forall i | 0 <= i < |out| ensures Sound(out[i]) && Aligned(out[i].ts, target) && ClosedAt(out[i], target, asOf) {
      assert Has(out, out[i].ts);
      CompleteIff(cs, source, target, asOf, out[i].ts);
      GroupSound(cs, target, out[i].ts);
      MergeSound(out[i].ts, Group(cs, target, out[i].ts));
    }
    forall i, j | 0 <= i && j == i + 1 < |out| ensures out[j].ts == out[i].ts + target {
      AggregateSpaced(cs, source, target, asOf, out, i);
    }
    AllClosed(out, target, asOf);
  }

  lemma GroupSound(cs: seq<Candle>, width: int, b: int)
    requires width > 0 && forall i | 0 <= i < |cs| :: Sound(cs[i])
    ensures forall i | 0 <= i < |Group(cs, width, b)| :: Sound(Group(cs, width, b)[i])
  {
    GroupIsSlice(cs, width, b);
    SliceHold(cs, b, b + width);
    forall i | 0 <= i < |Group(cs, width, b)| ensures Sound(Group(cs, width, b)[i]) {
      assert Group(cs, width, b)[i] in Slice(cs, b, b + width);
    }
  }

  // ----- composition -----

  lemma {:induction false} MergeConcat(ts: int, a: seq<Candle>, b: seq<Candle>)
    requires a != [] && b != []
    ensures High(a + b) == Max(High(a), High(b)) && Low(a + b) == Min(Low(a), Low(b))
    ensures Volume(a + b) == Volume(a) + Volume(b) && Quote(a + b) == Quote(a) + Quote(b)
    decreases |b|
  {
    var whole, before := a + b, b[..|b| - 1];
    assert whole[..|whole| - 1] == a + before;
    if before == [] {
      assert a + before == a;
      assert Volume(before) == 0.0 && Quote(before) == 0.0;
    } else {
      MergeConcat(ts, a, before);
    }
  }

  /** Summarising a stretch in parts and then together is summarising it at once. */
  lemma MergeOfMerges(ts: int, a: seq<Candle>, b: seq<Candle>, partsA: seq<Candle>, other: int)
    requires a != [] && b != [] && partsA != [] && Merge(ts, partsA) == Merge(ts, a)
    ensures Merge(ts, partsA + [Merge(other, b)]) == Merge(ts, a + b)
  {
    var last := [Merge(other, b)];
    MergeConcat(ts, a, b);
    MergeConcat(ts, partsA, last);
    assert last[..0] == [];
    assert Volume(last) == Volume(b) && Quote(last) == Quote(b);
  }

  lemma SingleMerge(ts: int, group: seq<Candle>)
    requires group != []
    ensures Merge(ts, [Merge(ts, group)]) == Merge(ts, group)
  {
    var one := [Merge(ts, group)];
    assert one[..|one| - 1] == [];
    assert Volume([]) == Quote([]) == 0.0;
  }

  /** The middle candle at an aligned instant is alone in its slot. */
  lemma SliceAtMiddle(mid: seq<Candle>, middle: int, b: int, i: nat)
    requires middle > 0 && Spaced(mid, middle) && i < |mid| && mid[i].ts == b
    ensures Slice(mid, b, b + middle) == [mid[i]]
  {
    SpacedBounds(mid, middle, i);
    SpacedBounds(mid, middle, 0);
    OneSlot(mid, middle, b);
    SliceHold(mid, b, b + middle);
    assert mid[i] in Slice(mid, b, b + middle);
  }

  /** Over aligned stretches of complete middle buckets, both levels have the same summary. */
  lemma {:induction false} StretchesAgree(cs: seq<Candle>, source: int, middle: int, asOf: int, mid: seq<Candle>,
      lo: int, hi: int)
    requires 0 < source <= middle && Aligned(middle, source) && Series(cs, source)
    requires IsAggregate(cs, source, middle, asOf, mid) && mid != []
    requires Aligned(lo, middle) && Aligned(hi, middle) && lo < hi
    requires cs[0].ts - source < lo && hi <= cs[|cs| - 1].ts + source && hi <= asOf
    ensures Slice(cs, lo, hi) != [] && Slice(mid, lo, hi) != []
    ensures Merge(lo, Slice(mid, lo, hi)) == Merge(lo, Slice(cs, lo, hi))
    decreases hi - lo
  {
    hide Aligned, Spaced, Slice, Merge, Complete, Group;
    var b := hi - middle;
    NextMultiple(lo, hi, middle);
    NextMultiple(hi, hi, middle);
    CompleteIff(cs, source, middle, asOf, b);
    assert Has(mid, b);
    var i :| 0 <= i < |mid| && mid[i].ts == b;
    AggregateIsClosedSeries(cs, source, middle, asOf, mid);
    assert Spaced(mid, middle) && Spaced(cs, source);
    SliceAtMiddle(mid, middle, b, i);
    AlignedGroup(cs, middle, b);
    if b == lo {
      SingleMerge(lo, Slice(cs, b, hi));
    } else {
      StretchesAgree(cs, source, middle, asOf, mid, lo, b);
      SliceSplit(cs, source, lo, b, hi);
      SliceSplit(mid, middle, lo, b, hi);
      MergeOfMerges(lo, Slice(cs, lo, b), Slice(cs, b, hi), Slice(mid, lo, b), b);
    }
  }

  /** A target bucket is complete over the middle level exactly when it is over the source. */
  lemma CompleteAgrees(cs: seq<Candle>, source: int, middle: int, target: int, asOf: int, mid: seq<Candle>, b: int)
    requires 0 < source <= middle <= target && Aligned(middle, source) && Aligned(target, middle)
    requires Aligned(target, source)
    requires Series(cs, source) && IsAggregate(cs, source, middle, asOf, mid) && mid != []
    ensures Complete(mid, middle, target, asOf, b) <==> Complete(cs, source, target, asOf, b)
  {
    hide Aligned, Spaced, Slice, Merge, Complete, Group;
    AggregateIsClosedSeries(cs, source, middle, asOf, mid);
    assert Spaced(mid, middle) && Spaced(cs, source);
    CompleteIff(mid, middle, target, asOf, b);
    CompleteIff(cs, source, target, asOf, b);
    if Aligned(b, target) && b + target <= asOf {
      AlignedStretch(b, target, middle);
      EndsOfMiddle(cs, source, middle, asOf, mid, b, b + target);
    }
  }

  /** A target bucket starts and ends at multiples of the middle interval. */
  lemma AlignedStretch(b: int, target: int, middle: int)
    requires 0 < middle <= target && Aligned(target, middle) && Aligned(b, target)
    ensures Aligned(b, middle) && Aligned(b + target, middle)
  {
    MultipleOfMultiple(b, target, middle);
    SumOfMultiples(b, target, middle);
  }

  lemma MultipleOfMultiple(b: int, target: int, middle: int)
    requires middle > 0 && target > 0 && Aligned(target, middle) && Aligned(b, target)
    ensures Aligned(b, middle)
  {
    var p, q := b / target, target / middle;
    assert b == p * (q * middle) == (p * q) * middle;
    MultipleMod(p * q, middle);
  }

  lemma SumOfMultiples(a: int, b: int, width: int)
    requires width > 0 && Aligned(a, width) && Aligned(b, width)
    ensures Aligned(a + b, width)
  {
    var p, q := a / width, b / width;
    assert a + b == (p + q) * width;
    MultipleMod(p + q, width);
  }

  /** Which instants the middle level has, and where it begins and ends. */
  lemma MiddleHas(cs: seq<Candle>, source: int, middle: int, asOf: int, mid: seq<Candle>, x: int)
    requires 0 < source <= middle && Aligned(middle, source) && Series(cs, source)
    requires IsAggregate(cs, source, middle, asOf, mid) && mid != [] && Aligned(x, middle)
    ensures Has(mid, x) <==> cs[0].ts - source < x && x + middle <= cs[|cs| - 1].ts + source && x + middle <= asOf
    ensures Has(mid, x) ==> mid[0].ts <= x <= mid[|mid| - 1].ts
    ensures Aligned(mid[0].ts, middle) && Has(mid, mid[0].ts)
    ensures Aligned(mid[|mid| - 1].ts, middle) && Has(mid, mid[|mid| - 1].ts)
  {
    hide Aligned, Spaced, Complete, Group, Merge;
    AggregateIsClosedSeries(cs, source, middle, asOf, mid);
    CompleteIff(cs, source, middle, asOf, x);
    if Has(mid, x) {
      var i :| 0 <= i < |mid| && mid[i].ts == x;
      SpacedBounds(mid, middle, i);
    }
  }

  /** The ends of the middle level are the outermost aligned instants the source covers. */
  lemma EndsOfMiddle(cs: seq<Candle>, source: int, middle: int, asOf: int, mid: seq<Candle>, lo: int, hi: int)
    requires 0 < source <= middle && Aligned(middle, source) && Series(cs, source)
    requires IsAggregate(cs, source, middle, asOf, mid) && mid != [] && hi <= asOf
    requires Aligned(lo, middle) && Aligned(hi, middle) && lo + middle <= hi
    ensures mid[0].ts - middle < lo && hi <= mid[|mid| - 1].ts + middle
      <==> cs[0].ts - source < lo && hi <= cs[|cs| - 1].ts + source
  {
    hide Aligned, Series, IsAggregate, Has;
    var first, last := mid[0].ts, mid[|mid| - 1].ts;
    NextMultiple(hi, hi, middle);
    MiddleHas(cs, source, middle, asOf, mid, lo);
    MiddleHas(cs, source, middle, asOf, mid, hi - middle);
    MiddleHas(cs, source, middle, asOf, mid, first);
    MiddleHas(cs, source, middle, asOf, mid, last);
    NextMultiple(lo, first, middle);
    NextMultiple(last + middle, hi, middle) by { NextMultiple(last, last, middle); }
  }

  /**
   Composition: aggregating source to middle and the result to target is aggregating
   source to target directly, candle for candle.
   */
  lemma AggregationComposes(cs: seq<Candle>, source: int, middle: int, target: int, asOf: int, mid: seq<Candle>,
      out: seq<Candle>)
    requires 0 < source <= middle <= target && Aligned(middle, source) && Aligned(target, middle)
    requires Series(cs, source) && IsAggregate(cs, source, middle, asOf, mid) && mid != []
    ensures Aligned(target, source) && Series(mid, middle) && Closed(mid, middle, asOf) == mid
    ensures IsAggregate(mid, middle, target, asOf, out) <==> IsAggregate(cs, source, target, asOf, out)
  {
    hide Aligned, Spaced, Slice, Merge, Complete, Group;
    MultipleOfMultiple(target, middle, source);
    AggregateIsClosedSeries(cs, source, middle, asOf, mid);
    forall b ensures Complete(mid, middle, target, asOf, b) <==> Complete(cs, source, target, asOf, b) {
      CompleteAgrees(cs, source, middle, target, asOf, mid, b);
    }
    forall b | Complete(cs, source, target, asOf, b)
      ensures Group(cs, target, b) != [] && Group(mid, target, b) != []
      ensures Merge(b, Group(mid, target, b)) == Merge(b, Group(cs, target, b))
    {
      GroupsAgree(cs, source, middle, target, asOf, mid, b);
    }
    assert forall i | 0 <= i < |out| :: Has(out, out[i].ts);
  }

  lemma GroupsAgree(cs: seq<Candle>, source: int, middle: int, target: int, asOf: int, mid: seq<Candle>, b: int)
    requires 0 < source <= middle <= target && Aligned(middle, source) && Aligned(target, middle)
    requires Aligned(target, source)
    requires Series(cs, source) && IsAggregate(cs, source, middle, asOf, mid) && mid != []
    requires Complete(cs, source, target, asOf, b)
    ensures Group(cs, target, b) != [] && Group(mid, target, b) != []
    ensures Merge(b, Group(mid, target, b)) == Merge(b, Group(cs, target, b))
  {
    hide Aligned, Spaced, Slice, Merge, Complete, Group;
    assert Spaced(cs, source);
    CompleteIff(cs, source, target, asOf, b);
    AlignedGroup(cs, target, b);
    AlignedGroup(mid, target, b);
    AlignedStretch(b, target, middle);
    StretchesAgree(cs, source, middle, asOf, mid, b, b + target);
  }

  // ----- uniqueness and causality -----

  lemma {:induction false} SortedPrefix(a: seq<Candle>, b: seq<Candle>)
    requires Increasing(a) && Increasing(b)
    requires forall c | c in a :: c in b
    requires forall c | c in b && a != [] && c.ts <= a[|a| - 1].ts :: c in a
    ensures a <= b
    decreases |a|
  {
    hide Increasing;
    if a != [] {
      var before, last := a[..|a| - 1], a[|a| - 1];
      assert a == before + [last];
      SortedPop(a, before, last);
      forall c | c in b && before != [] && c.ts <= before[|before| - 1].ts ensures c in before {
        assert before[|before| - 1] in before;
        assert c in a && c != last;
      }
      SortedPrefix(before, b);
      forall c | c in b && c.ts <= last.ts ensures c == last || c in before {
        assert c in a;
      }
      SortedNext(before, last, b);
    }
  }

  lemma SortedPop(a: seq<Candle>, before: seq<Candle>, last: Candle)
    requires Increasing(a) && a == before + [last]
    ensures Increasing(before) && last in a
    ensures forall c | c in before :: c in a && c.ts < last.ts
  {
    assert a[|before|] == last;
    forall c | c in before ensures c in a && c.ts < last.ts {
      var i :| 0 <= i < |before| && before[i] == c;
      assert a[i] == c;
    }
    assert forall i | 0 <= i < |before| :: a[i] == before[i];
  }

  lemma SortedNext(before: seq<Candle>, last: Candle, b: seq<Candle>)
    requires Increasing(b) && before <= b && last in b && (forall c | c in before :: c.ts < last.ts)
    requires forall c | c in b && c.ts <= last.ts :: c == last || c in before
    ensures before + [last] <= b
  {
    var n := |before|;
    forall m | 0 <= m < n ensures b[m] == before[m] && b[m].ts < last.ts {
      assert before[m] in before;
    }
    var k :| 0 <= k < |b| && b[k] == last;
    assert k >= n;
    forall m | 0 <= m < n ensures before[m] != b[n] {
      assert b[m].ts < b[n].ts;
    }
    assert b[n] in b && b[n].ts <= b[k].ts;
  }

  lemma AggregateMember(cs: seq<Candle>, source: int, target: int, asOf: int, out: seq<Candle>, c: Candle)
    requires 0 < source <= target && IsAggregate(cs, source, target, asOf, out)
    ensures c in out <==>
      Complete(cs, source, target, asOf, c.ts) && Group(cs, target, c.ts) != [] && c == Merge(c.ts,
        Group(cs, target, c.ts))
  {
    hide Complete, Group, Merge;
    if c in out {
      assert Has(out, c.ts);
    }
    if Complete(cs, source, target, asOf, c.ts) {
      assert Has(out, c.ts);
    }
  }

  /** The specification of aggregation determines its result. */
  lemma AggregateUnique(cs: seq<Candle>, source: int, target: int, asOf: int, a: seq<Candle>, b: seq<Candle>)
    requires 0 < source <= target
    requires IsAggregate(cs, source, target, asOf, a) && IsAggregate(cs, source, target, asOf, b)
    ensures a == b
  {
    hide Complete, Group, Merge;
    forall c ensures c in a <==> c in b {
      AggregateMember(cs, source, target, asOf, a, c);
      AggregateMember(cs, source, target, asOf, b, c);
    }
    SortedPrefix(a, b);
    SortedPrefix(b, a);
  }

  lemma SpacedPrefix(cs: seq<Candle>, step: int, n: nat)
    requires Spaced(cs, step) && n <= |cs|
    ensures Spaced(cs[..n], step)
  {
  }

  /** More history does not change a bucket that was complete. */
  lemma CompleteStays(early: seq<Candle>, late: seq<Candle>, source: int, target: int, asOf: int, later: int, b: int)
    requires 0 < source <= target && Aligned(target, source) && early != [] && Spaced(late, source)
    requires early <= late && asOf <= later && Complete(early, source, target, asOf, b)
    ensures Complete(late, source, target, later, b) && Group(late, target, b) == Group(early, target, b)
  {
    hide Complete, Group, Slice, Aligned, Spaced;
    SpacedPrefix(late, source, |early|);
    assert late[..|early|] == early;
    CompleteIff(early, source, target, asOf, b);
    CompleteIff(late, source, target, later, b);
    SpacedBounds(late, source, |early| - 1);
    AlignedGroup(early, target, b);
    AlignedGroup(late, target, b);
    var rest := late[|early|..];
    forall i | 0 <= i < |rest| ensures rest[i].ts >= b + target {
      SpacedPrefix(late, source, |early| + i + 1);
      SpacedBounds(late[..|early| + i + 1], source, |early| - 1);
    }
    SliceNone(rest, b, b + target);
    assert late == early + rest;
    SliceExtend(early, rest, b, b + target);
  }

  /** Whatever was complete before the last old bucket ended is still all there is up to it. */
  lemma NothingInserted(early: seq<Candle>, late: seq<Candle>, source: int, target: int, asOf: int, later: int,
      last: int, b: int)
    requires 0 < source <= target && Aligned(target, source) && early != [] && Spaced(late, source)
    requires early <= late && asOf <= later && b <= last
    requires Complete(early, source, target, asOf, last) && Complete(late, source, target, later, b)
    ensures Complete(early, source, target, asOf, b)
  {
    hide Complete, Aligned, Spaced;
    SpacedPrefix(late, source, |early|);
    assert late[..|early|] == early;
    CompleteIff(early, source, target, asOf, last);
    CompleteIff(early, source, target, asOf, b);
    CompleteIff(late, source, target, later, b);
  }

  lemma ClosedGrows(cs: seq<Candle>, more: seq<Candle>, step: int, asOf: int, later: int)
    requires step > 0 && Spaced(cs + more, step) && asOf <= later
    ensures Closed(cs, step, asOf) <= Closed(cs + more, step, later)
    ensures asOf == later && (forall c | c in more :: !ClosedAt(c, step, asOf)) ==>
      Closed(cs, step, asOf) == Closed(cs + more, step, later)
  {
    hide Spaced, Closed;
    var all, was, now := cs + more, Closed(cs, step, asOf), Closed(cs + more, step, later);
    SpacedPrefix(all, step, |cs|);
    assert all[..|cs|] == cs;
    ClosedIsPrefix(cs, step, asOf);
    ClosedIsPrefix(all, step, later);
    ClosedHold(cs, step, asOf);
    ClosedHold(all, step, later);
    if |now| < |was| {
      var c := was[|now|];
      assert c in was && c in all;
      NotInPrefix(all, step, now);
    }
    if |was| < |now| {
      var c := now[|was|];
      assert c in now;
      NotInPrefix(all, step, was);
      assert c !in was;
      assert c in all && (c in cs || c in more);
    }
  }

  lemma NotInPrefix(cs: seq<Candle>, step: int, head: seq<Candle>)
    requires step > 0 && Spaced(cs, step) && head <= cs && |head| < |cs|
    ensures cs[|head|] !in head
  {
    if cs[|head|] in head {
      var k :| 0 <= k < |head| && head[k] == cs[|head|];
      EarlierIsSmaller(cs, step, k, |head|);
    }
  }

  lemma EarlierIsSmaller(cs: seq<Candle>, step: int, i: nat, j: nat)
    requires step > 0 && Spaced(cs, step) && i < j < |cs|
    ensures cs[i].ts < cs[j].ts
  {
    SpacedPrefix(cs, step, j + 1);
    SpacedBounds(cs[..j + 1], step, i);
  }

  /**
   Causality: more candles and a later as-of only append aggregated candles; candles that
   are not closed yet change nothing.
   */
  lemma LaterOnlyAppends(cs: seq<Candle>, more: seq<Candle>, source: int, target: int, asOf: int, later: int,
      out: seq<Candle>, next: seq<Candle>)
    requires 0 < source <= target && Aligned(target, source) && asOf <= later
    requires Series(cs + more, source) && Closed(cs, source, asOf) != []
    requires IsAggregate(Closed(cs, source, asOf), source, target, asOf, out)
    requires IsAggregate(Closed(cs + more, source, later), source, target, later, next)
    ensures out <= next
    ensures asOf == later && (forall c | c in more :: !ClosedAt(c, source, asOf)) ==> out == next
  {
    hide Complete, Group, Merge, Closed, IsAggregate;
    var early, late := Closed(cs, source, asOf), Closed(cs + more, source, later);
    ClosedGrows(cs, more, source, asOf, later);
    ClosedIsPrefix(cs + more, source, later);
    SpacedPrefix(cs + more, source, |late|);
    assert (cs + more)[..|late|] == late;
    if asOf == later && forall c | c in more :: !ClosedAt(c, source, asOf) {
      AggregateUnique(early, source, target, asOf, out, next);
    }
    forall c | c in out ensures c in next {
      AggregateMember(early, source, target, asOf, out, c);
      CompleteStays(early, late, source, target, asOf, later, c.ts);
      AggregateMember(late, source, target, later, next, c);
    }
    forall c | c in next && out != [] && c.ts <= out[|out| - 1].ts ensures c in out {
      var last := out[|out| - 1];
      AggregateMember(early, source, target, asOf, out, last);
      AggregateMember(late, source, target, later, next, c);
      NothingInserted(early, late, source, target, asOf, later, last.ts, c.ts);
      CompleteStays(early, late, source, target, asOf, later, c.ts);
      AggregateMember(early, source, target, asOf, out, c);
    }
    AggregateIncreasing(early, source, target, asOf, out);
    AggregateIncreasing(late, source, target, later, next);
    SortedPrefix(out, next);
  }

  lemma AggregateIncreasing(cs: seq<Candle>, source: int, target: int, asOf: int, out: seq<Candle>)
    requires 0 < source <= target && IsAggregate(cs, source, target, asOf, out)
    ensures Increasing(out)
  {
  }

  // ----- look-ahead -----

  lemma {:induction false} SamePhase(cs: seq<Candle>, step: int, i: nat)
    requires step > 0 && Spaced(cs, step) && i < |cs|
    ensures cs[i].ts % step == cs[0].ts % step
  {
    if i > 0 {
      SamePhase(cs, step, i - 1);
      var x := cs[i - 1].ts;
      assert cs[i].ts == x + step;
      assert x == (x / step) * step + x % step;
      assert x + step == (x / step + 1) * step + x % step;
      DivMod(x + step, x / step + 1, x % step, step);
    }
  }

  /**
   Look-ahead, exactly: an aggregated candle is built from source candles that all close by
   the end of its own bucket if and only if the source series is aligned to its interval.
   */
  lemma NoLookAheadIff(cs: seq<Candle>, source: int, target: int, asOf: int, b: int)
    requires 0 < source <= target && Aligned(target, source) && Series(cs, source)
    requires Complete(cs, source, target, asOf, b)
    ensures (forall c | c in Group(cs, target, b) :: ClosedAt(c, source, b + target)) <==> Aligned(cs[0].ts, source)
  {
    hide Complete, Group, Slice, Spaced;
    CompleteIff(cs, source, target, asOf, b);
    AlignedStretch(b, target, source);
    AlignedGroup(cs, target, b);
    SliceHold(cs, b, b + target);
    var end := b + target;
    NextMultiple(end, end, source);
    SliceHold(cs, end - source, end);
    OneSlot(cs, source, end - source);
    var last := Slice(cs, end - source, end)[0];
    assert last in Slice(cs, end - source, end) && last in Slice(cs, b, end);
    Phase(cs, source, last);
    DivMod(last.ts, (end - source) / source, last.ts - (end - source), source);
    if Aligned(cs[0].ts, source) {
      forall c | c in Slice(cs, b, end) ensures ClosedAt(c, source, end) {
        Phase(cs, source, c);
        NextMultiple(c.ts, end, source);
      }
    }
  }

  lemma Phase(cs: seq<Candle>, step: int, c: Candle)
    requires step > 0 && Spaced(cs, step) && c in cs
    ensures c.ts % step == cs[0].ts % step
  {
    var i :| 0 <= i < |cs| && cs[i] == c;
    SamePhase(cs, step, i);
  }

  function MinuteCandle(ts: int): Candle {
    Candle(ts, 100.0, 101.0, 99.0, 100.0, 1.0, None)
  }

  /** Minute candles half a minute off: the complete bucket [120000, 240000) holds one that closes at 270000. */
  lemma LookAhead() returns (cs: seq<Candle>, late: Candle)
    ensures Series(cs, 60000) && Complete(cs, 60000, 120000, 300000, 120000)
    ensures late in Group(cs, 120000, 120000) && !ClosedAt(late, 60000, 120000 + 120000)
  {
    hide Group, Complete;
    late := MinuteCandle(210000);
    cs := [MinuteCandle(90000), MinuteCandle(150000), late];
    CompleteIff(cs, 60000, 120000, 300000, 120000);
    AlignedGroup(cs, 120000, 120000);
    SliceHold(cs, 120000, 240000);
    assert cs[2] == late;
  }

  // ----- windows and averages -----

  /** The timeframe a selection certifies: offset k is the candle k intervals before the latest closed one. */
  lemma OffsetCountsBack(cs: seq<Candle>, granularity: string, asOf: int, k: int)
    requires IntervalMs(granularity).Some? && Series(cs, IntervalMs(granularity).value)
    requires Closed(cs, IntervalMs(granularity).value, asOf) != []
    ensures var step, closed := IntervalMs(granularity).value, Closed(cs, IntervalMs(granularity).value, asOf);
            var latest := closed[|closed| - 1].ts;
            var at := ClosedCandleAtOffset(Timeframe(granularity, closed, latest, asOf), k);
            && (at.Ok? <==> 0 <= k < |closed|)
            && (at.Ok? ==> at.value in cs && ClosedAt(at.value, step, asOf) && at.value.ts == latest - k * step)
  {
    hide Lower, Closed, Spaced, IntervalMs, Sound, Tail, ClosedAt;
    var step, closed := IntervalMs(granularity).value, Closed(cs, IntervalMs(granularity).value, asOf);
    SelectionFacts(cs, step, asOf);
    OffsetOfMarked(granularity, closed, asOf, k);
    if 0 <= k < |closed| {
      BackFrom(closed, step, k);
      assert closed[|closed| - 1 - k] in closed;
    }
  }

  lemma SelectionFacts(cs: seq<Candle>, step: int, asOf: int)
    requires step > 0 && Series(cs, step) && Closed(cs, step, asOf) != []
    ensures Spaced(Closed(cs, step, asOf), step)
    ensures forall c | c in Closed(cs, step, asOf) :: c in cs && ClosedAt(c, step, asOf)
    ensures var closed := Closed(cs, step, asOf); ClosedAt(closed[|closed| - 1], step, asOf)
  {
    hide Closed, Spaced, ClosedAt;
    var closed := Closed(cs, step, asOf);
    ClosedIsPrefix(cs, step, asOf);
    ClosedHold(cs, step, asOf);
    SpacedPrefix(cs, step, |closed|);
    assert cs[..|closed|] == closed;
    assert closed[|closed| - 1] in closed;
  }

  lemma OffsetOfMarked(granularity: string, closed: seq<Candle>, asOf: int, k: int)
    requires IntervalMs(granularity).Some? && closed != []
    requires ClosedAt(closed[|closed| - 1], IntervalMs(granularity).value, asOf)
    ensures ClosedCandleAtOffset(Timeframe(granularity, closed, closed[|closed| - 1].ts, asOf), k)
      == if k < 0 then Err(NegativeOffset) else if k >= |closed| then Err(InsufficientHistory)
        else Ok(closed[|closed| - 1 - k])
  {
    hide IntervalMs;
  }

  lemma {:induction false} BackFrom(cs: seq<Candle>, step: int, k: nat)
    requires Spaced(cs, step) && k < |cs|
    ensures cs[|cs| - 1 - k].ts == cs[|cs| - 1].ts - k * step
  {
    if k > 0 {
      BackFrom(cs, step, k - 1);
      assert cs[|cs| - k].ts == cs[|cs| - 1 - k].ts + step;
      assert k * step == (k - 1) * step + step;
    }
  }

  /** The average stays within the range of its inputs, for every positive period. */
  lemma {:induction false} EmaBetween(values: seq<real>, period: int, low: real, high: real)
    requires values != [] && period > 0 && forall i | 0 <= i < |values| :: low <= values[i] <= high
    ensures low <= Smoothed(values, 2.0 / (period as real + 1.0)) <= high
    decreases |values|
  {
    var alpha := 2.0 / (period as real + 1.0);
    if |values| > 1 {
      var before, last := values[..|values| - 1], values[|values| - 1];
      assert forall i | 0 <= i < |before| :: before[i] == values[i];
      EmaBetween(before, period, low, high);
      Alpha(period);
      Mix(alpha, last, Smoothed(before, alpha), low, high);
    }
  }

  lemma Alpha(period: int)
    requires period > 0
    ensures 0.0 < 2.0 / (period as real + 1.0) <= 1.0
  {
  }

  lemma Mix(alpha: real, x: real, y: real, low: real, high: real)
    requires 0.0 < alpha <= 1.0 && low <= x <= high && low <= y <= high
    ensures low <= x * alpha + y * (1.0 - alpha) <= high
  {
    Product(x - low, alpha);
    Product(y - low, 1.0 - alpha);
    Product(high - x, alpha);
    Product(high - y, 1.0 - alpha);
    assert x * alpha + y * (1.0 - alpha) - low == (x - low) * alpha + (y - low) * (1.0 - alpha);
    assert high - (x * alpha + y * (1.0 - alpha)) == (high - x) * alpha + (high - y) * (1.0 - alpha);
  }

  lemma Product(a: real, b: real)
    requires a >= 0.0 && b >= 0.0
    ensures a * b >= 0.0
  {
  }
}
