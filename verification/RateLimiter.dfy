/**
 The sliding-window rate limiter.  Each pass through its locked section reads a monotone
 clock; a run of any number of callers is the sequence of those passes.  Times are in
 seconds.
 */
module RateLimiter {
  import opened Wrappers

  const WINDOW := 1.0

  datatype Attempt = Granted | Wait(delay: real) | NoCallToWaitFor

  /** The grants of the window that ends at `now`, from the whole history. */
  function Recent(grants: seq<real>, now: real): seq<real> {
    if grants == [] then []
    else
      var rest, last := Recent(grants[..|grants| - 1], now), grants[|grants| - 1];
      if now - last < WINDOW then rest + [last] else rest
  }

  ghost predicate Sorted(times: seq<real>) {
    forall i, j | 0 <= i < j < |times| :: times[i] <= times[j]
  }

  /** What a limiter that remembers every grant would answer. */
  function Answer(rate: int, grants: seq<real>, now: real): Attempt {
    var recent := Recent(grants, now);
    if |recent| < rate then Granted
    else if recent == [] then NoCallToWaitFor
    else Wait(WINDOW - (now - recent[0]))
  }

  function GrantedBy(rate: int, grants: seq<real>, now: real): seq<real> {
    if Answer(rate, grants, now).Granted? then grants + [now] else grants
  }

  /** Grant i + rate comes at least a window after grant i. */
  ghost predicate Spaced(rate: int, grants: seq<real>) {
    forall i, j | 0 <= i < j < |grants| && rate > 0 && j == i + rate :: grants[j] - grants[i] >= WINDOW
  }

  ghost predicate UpTo(grants: seq<real>, now: real) {
    Sorted(grants) && forall i | 0 <= i < |grants| :: grants[i] <= now
  }

  /** The deque is a tail of the grants, and everything evicted is a window old. */
  ghost predicate Tracks(rate: int, grants: seq<real>, now: real, calls: seq<real>) {
    && UpTo(grants, now) && Spaced(rate, grants)
    && |calls| <= |grants| && grants[|grants| - |calls|..] == calls
    && forall i | 0 <= i < |grants| - |calls| :: now - grants[i] >= WINDOW
  }

  predicate Settled(now: real, calls: seq<real>) {
    calls == [] || now - calls[0] < WINDOW
  }

  lemma TracksLater(rate: int, grants: seq<real>, now: real, later: real, calls: seq<real>)
    requires Tracks(rate, grants, now, calls) && now <= later
    ensures Tracks(rate, grants, later, calls)
  {
  }

  lemma TracksEvicted(rate: int, grants: seq<real>, now: real, calls: seq<real>)
    requires Tracks(rate, grants, now, calls) && !Settled(now, calls)
    ensures Tracks(rate, grants, now, calls[1..])
  {
    var n := |grants| - |calls|;
    assert grants[n] == calls[0];
    assert grants[n + 1..] == calls[1..];
  }

  lemma TracksGranted(rate: int, grants: seq<real>, now: real, calls: seq<real>)
    requires Tracks(rate, grants, now, calls) && |calls| < rate
    ensures Tracks(rate, grants + [now], now, calls + [now])
  {
    var next := grants + [now];
    assert next[|next| - |calls + [now]|..] == calls + [now];
    Spacing(grants, rate, |calls|, now);
  }

  lemma TracksRecent(rate: int, grants: seq<real>, now: real, calls: seq<real>)
    requires Tracks(rate, grants, now, calls) && Settled(now, calls)
    ensures calls == Recent(grants, now)
  {
    var n := |grants| - |calls|;
    forall i | n <= i < |grants| ensures now - grants[i] < WINDOW {
      assert grants[n] == calls[0] && grants[n] <= grants[i];
    }
    TailIsRecent(grants, n, now);
  }

  /** Fewer than `rate` recent grants means the grant `rate` places back is a window away. */
  lemma Spacing(grants: seq<real>, rate: int, recent: nat, now: real)
    requires recent < rate && recent <= |grants| && Spaced(rate, grants)
    requires forall i | 0 <= i < |grants| - recent :: now - grants[i] >= WINDOW
    ensures Spaced(rate, grants + [now])
  {
  }

  class RateLimiter {
    const rate: int
    var calls: seq<real>
    /** Every time a call was granted. */
    ghost var grants: seq<real>
    /** The latest clock reading. */
    ghost var clock: real

    constructor (rate: int, clock: real)
      ensures this.rate == rate && Valid() && grants == [] && this.clock == clock
    {
      this.rate, calls, grants, this.clock := rate, [], [], clock;
    }

    ghost predicate Valid()
      reads this
    {
      Tracks(rate, grants, clock, calls)
    }

    /** One pass through the locked section. */
    method Pass(now: real) returns (r: Attempt)
      requires Valid() && clock <= now
      modifies this
      ensures Valid() && clock == now
      ensures r == Answer(rate, old(grants), now)
      ensures grants == GrantedBy(rate, old(grants), now)
      ensures calls == Recent(grants, now)
    {
      hide Tracks, Recent;
      TracksLater(rate, grants, clock, now, calls);
      clock := now;
      while calls != [] && now - calls[0] >= WINDOW
        invariant Tracks(rate, grants, now, calls) && grants == old(grants) && clock == now
        decreases |calls|
      {
        TracksEvicted(rate, grants, now, calls);
        calls := calls[1..];
      }
      TracksRecent(rate, grants, now, calls);
      if |calls| < rate {
        TracksGranted(rate, grants, now, calls);
        RecentNow(grants, now);
        calls, grants := calls + [now], grants + [now];
        return Granted;
      }
      if calls == [] {
        return NoCallToWaitFor;
      }
      return Wait(WINDOW - (now - calls[0]));
    }

    /**
     The loop of one caller, over the clock readings it gets: the index of the pass that let
     it through, or a failure when there is no call whose age could be waited for.
     */
    method WaitFor(readings: seq<real>) returns (through: Option<nat>, failed: bool)
      requires Valid() && Sorted(readings) && (readings != [] ==> clock <= readings[0])
      modifies this
      ensures Valid() && (failed ==> rate <= 0 && through.None?)
      ensures through.Some? ==>
        && through.value < |readings| && Answer(rate, old(grants), readings[through.value]).Granted?
        && grants == old(grants) + [readings[through.value]]
      ensures through.Some? ==> forall i | 0 <= i < through.value :: !Answer(rate, old(grants), readings[i]).Granted?
      ensures through.None? ==> grants == old(grants)
      ensures through.None? && !failed ==>
        forall i | 0 <= i < |readings| :: !Answer(rate, old(grants), readings[i]).Granted?
    {
      hide Valid, Recent;
      for k := 0 to |readings|
        invariant Valid() && grants == old(grants) && forall i | 0 <= i < k ::
          !Answer(rate, old(grants), readings[i]).Granted?
        invariant k < |readings| ==> clock <= readings[k]
      {
        var r := Pass(readings[k]);
        if r.Granted? {
          return Some(k), false;
        }
        if r.NoCallToWaitFor? {
          return None, true;
        }
      }
      return None, false;
    }
  }

  lemma {:induction false} TailIsRecent(grants: seq<real>, n: nat, now: real)
    requires n <= |grants|
    requires forall i | 0 <= i < n :: now - grants[i] >= WINDOW
    requires forall i | n <= i < |grants| :: now - grants[i] < WINDOW
    ensures Recent(grants, now) == grants[n..]
    decreases |grants|
  {
    if grants != [] {
      var before, last := grants[..|grants| - 1], grants[|grants| - 1];
      if n < |grants| {
        TailIsRecent(before, n, now);
        assert grants[n..] == before[n..] + [last];
      } else {
        TailIsRecent(before, n - 1, now);
      }
    }
  }

  lemma RecentNow(grants: seq<real>, now: real)
    ensures Recent(grants + [now], now) == Recent(grants, now) + [now]
  {
    assert (grants + [now])[..|grants|] == grants;
  }

  // ----- runs of any number of callers -----

  function Run(rate: int, grants: seq<real>, readings: seq<real>): seq<real>
    decreases |readings|
  {
    if readings == [] then grants else Run(rate, GrantedBy(rate, grants, readings[0]), readings[1..])
  }

  /** The place from which on the grants of a sorted history are recent. */
  ghost function FirstRecent(grants: seq<real>, now: real): (n: nat)
    ensures n <= |grants|
  {
    if grants == [] || now - grants[0] < WINDOW then 0 else 1 + FirstRecent(grants[1..], now)
  }

  lemma {:induction false} FirstRecentSplits(grants: seq<real>, now: real)
    requires Sorted(grants)
    ensures forall i | 0 <= i < FirstRecent(grants, now) :: now - grants[i] >= WINDOW
    ensures forall i | FirstRecent(grants, now) <= i < |grants| :: now - grants[i] < WINDOW
  {
    if grants != [] && now - grants[0] >= WINDOW {
      var rest := grants[1..];
      FirstRecentSplits(rest, now);
      assert forall i | 1 <= i < |grants| :: grants[i] == rest[i - 1];
    }
  }

  /** In a sorted history the recent grants are a tail of it. */
  lemma RecentIsTail(grants: seq<real>, now: real)
    requires Sorted(grants)
    ensures |Recent(grants, now)| <= |grants| && Recent(grants, now) == grants[|grants| - |Recent(grants, now)|..]
    ensures forall i | 0 <= i < |grants| - |Recent(grants, now)| :: now - grants[i] >= WINDOW
    ensures forall i | |grants| - |Recent(grants, now)| <= i < |grants| :: now - grants[i] < WINDOW
  {
    FirstRecentSplits(grants, now);
    TailIsRecent(grants, FirstRecent(grants, now), now);
  }

  lemma PassKeepsSpacing(rate: int, grants: seq<real>, now: real)
    requires rate > 0 && UpTo(grants, now) && Spaced(rate, grants)
    ensures UpTo(GrantedBy(rate, grants, now), now) && Spaced(rate, GrantedBy(rate, grants, now))
  {
    RecentIsTail(grants, now);
    if Answer(rate, grants, now).Granted? {
      Spacing(grants, rate, |Recent(grants, now)|, now);
    }
  }

  /**
   The sliding window.  Over every run of passes under a monotone clock, by any number of
   callers, grant i + rate comes at least one second after grant i: no window of a second
   holds more than `rate` grants.
   */
  lemma {:induction false} GrantsAreSpaced(rate: int, grants: seq<real>, readings: seq<real>)
    requires rate > 0 && Spaced(rate, grants) && Sorted(readings) && Sorted(grants)
    requires readings != [] ==> UpTo(grants, readings[0])
    ensures Spaced(rate, Run(rate, grants, readings))
    ensures forall i, j | 0 <= i && j == i + rate < |Run(rate, grants, readings)| ::
      Run(rate, grants, readings)[j] - Run(rate, grants, readings)[i] >= 1.0
    decreases |readings|
  {
    SpacedInSeconds(rate, Run(rate, grants, readings));
    hide Spaced, Answer;
    if readings != [] {
      PassKeepsSpacing(rate, grants, readings[0]);
      GrantsAreSpaced(rate, GrantedBy(rate, grants, readings[0]), readings[1..]);
    }
  }

  lemma SpacedInSeconds(rate: int, grants: seq<real>)
    ensures rate > 0 && Spaced(rate, grants) ==>
      forall i, j | 0 <= i && j == i + rate < |grants| :: grants[j] - grants[i] >= 1.0
  {
  }

  /**
   What a pass answers, in the times of the grants: it lets a caller through if and only if there
   are fewer grants than the rate, or the one that many places back is a second old.  Without a
   positive rate nobody gets through, and there is nothing to wait for once all grants are that old.
   */
  lemma AnswerInSeconds(rate: int, grants: seq<real>, now: real)
    requires UpTo(grants, now)
    ensures rate > 0 ==>
      (Answer(rate, grants, now).Granted? <==> |grants| < rate || now - grants[|grants| - rate] >= 1.0)
    ensures rate <= 0 ==>
      && !Answer(rate, grants, now).Granted?
      && (Answer(rate, grants, now).NoCallToWaitFor? <==> grants == [] || now - grants[|grants| - 1] >= 1.0)
    ensures rate > 0 ==> !Answer(rate, grants, now).NoCallToWaitFor?
  {
    RecentIsTail(grants, now);
  }

  /** The delay is what the oldest grant of the last second is short of a second, and grant i is that grant. */
  lemma DelayInSeconds(rate: int, grants: seq<real>, now: real) returns (i: nat)
    requires UpTo(grants, now) && Answer(rate, grants, now).Wait?
    ensures i < |grants| && now - grants[i] < 1.0 && (i > 0 ==> now - grants[i - 1] >= 1.0)
    ensures now + Answer(rate, grants, now).delay == grants[i] + 1.0
  {
    RecentIsTail(grants, now);
    i := |grants| - |Recent(grants, now)|;
    assert Recent(grants, now)[0] == grants[i];
  }

  /**
   The delay is exact: with no grant in between, a caller that was told to wait is let
   through at a later reading if and only if the delay has passed.
   */
  lemma DelayIsExact(rate: int, grants: seq<real>, now: real, later: real)
    requires rate > 0 && UpTo(grants, now) && Spaced(rate, grants) && now <= later && Answer(rate, grants, now).Wait?
    ensures Answer(rate, grants, now).delay > 0.0
    ensures Answer(rate, grants, later).Granted? <==> later >= now + Answer(rate, grants, now).delay
  {
    RecentIsTail(grants, now);
    RecentIsTail(grants, later);
    var n := |grants| - |Recent(grants, now)|;
    assert |Recent(grants, now)| >= rate;
    assert Recent(grants, now)[0] == grants[n];
    AtMostRate(rate, grants, now);
  }

  /** Never more than `rate` grants are recent. */
  lemma AtMostRate(rate: int, grants: seq<real>, now: real)
    requires rate > 0 && UpTo(grants, now) && Spaced(rate, grants)
    ensures |Recent(grants, now)| <= rate
  {
    RecentIsTail(grants, now);
    var n := |grants| - |Recent(grants, now)|;
    hide Spaced;
    if n + rate < |grants| {
      WindowApart(rate, grants, n);
    }
  }

  lemma WindowApart(rate: int, grants: seq<real>, i: nat)
    requires rate > 0 && Spaced(rate, grants) && i + rate < |grants|
    ensures grants[i + rate] - grants[i] >= WINDOW
  {
  }
}
