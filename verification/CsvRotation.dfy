/**
 Numbered archives of an append-only file.  File 0 is the live one, file k the archive
 with suffix k, where 1 is the most recent; contents are sequences of characters.
 */
module CsvRotation {
  type Files = map<nat, string>

  function Content(files: Files, k: nat): string {
    if k in files then files[k] else []
  }

  /** The archives n, n - 1, .., 1, joined. */
  function Archives(files: Files, n: nat): string {
    if n == 0 then [] else Content(files, n) + Archives(files, n - 1)
  }

  /** What a full-history read of n archives and the live file yields. */
  function History(files: Files, n: nat): string {
    Archives(files, n) + Content(files, 0)
  }

  function Joined(files: Files, segments: seq<nat>): string {
    if segments == [] then [] else Joined(files, segments[..|segments| - 1]) + Content(files, segments[|segments| - 1])
  }

  predicate IsSuffix(a: string, b: string) {
    |a| <= |b| && b[|b| - |a|..] == a
  }

  /** Removes the destination if it is there, and moves the source onto it. */
  function Renamed(files: Files, source: nat, destination: nat): Files
    requires source in files && source != destination
  {
    files[destination := files[source]] - {source}
  }

  /** How many archives a rotation keeps: never fewer than one. */
  function Kept(backupCount: int): nat {
    if backupCount < 1 then 1 else backupCount
  }

  /** The files after a rotation: every archive below the last moves up by one, and the live file becomes the first. */
  ghost predicate IsRotated(was: Files, now: Files, backupCount: int) {
    var last := Kept(backupCount);
    && 0 !in now && 1 in now && now[1] == Content(was, 0)
    && (forall k | 2 <= k <= last ::
          if k - 1 in was then k in now && now[k] == was[k - 1]
          else if k == last && k in was then k in now && now[k] == was[k] else k !in now)
    && (forall k: nat | k > last :: (k in now <==> k in was) && (k in was ==> now[k] == was[k]))
  }

  /** The shift has reached `index`: archives above it have moved up by one, the others are as before. */
  ghost predicate Shifting(was: Files, now: Files, last: nat, index: nat) {
    && index < last
    && (forall k: nat | k <= index || k > last :: (k in now <==> k in was) && (k in was ==> now[k] == was[k]))
    && (if index == last - 1 then (last in now <==> last in was) && (last in was ==> now[last] == was[last])
        else index + 1 !in now)
    && (forall k: nat | index + 2 <= k <= last ::
          if k - 1 in was then k in now && now[k] == was[k - 1]
          else if k == last && k in was then k in now && now[k] == was[k] else k !in now)
  }

  lemma ShiftStart(was: Files, last: nat)
    requires last >= 1
    ensures Shifting(was, was, last, last - 1)
  {
  }

  lemma ShiftStep(was: Files, now: Files, last: nat, index: nat)
    requires Shifting(was, now, last, index) && index > 0
    ensures 0 in was <==> 0 in now
    ensures Shifting(was, if index in now then Renamed(now, index, index + 1) else now, last, index - 1)
  {
  }

  lemma ShiftEnd(was: Files, now: Files, backupCount: int)
    requires Shifting(was, now, Kept(backupCount), 0) && 0 in was
    ensures 0 in now && IsRotated(was, Renamed(now, 0, 1), backupCount)
  {
  }

  /** Where the content of file k after a rotation comes from, if there is such a file. */
  predicate ComesFrom(was: Files, now: Files, backupCount: int, k: nat)
    requires 0 in was
  {
    var last := if backupCount < 1 then 1 else backupCount;
    if k == 0 then k !in now
    else if k == 1 then k in now && now[k] == was[0]
    else if k <= last && k - 1 in was then k in now && now[k] == was[k - 1]
    else if k >= last && k in was then k in now && now[k] == was[k]
    else k !in now
  }

  lemma RotatedFrom(was: Files, now: Files, backupCount: int)
    requires IsRotated(was, now, backupCount) && 0 in was
    ensures forall k: nat :: ComesFrom(was, now, backupCount, k)
  {
    hide IsRotated, ComesFrom;
    forall k: nat ensures ComesFrom(was, now, backupCount, k) {
      FileComesFrom(was, now, backupCount, k);
    }
  }

  lemma FileComesFrom(was: Files, now: Files, backupCount: int, k: nat)
    requires IsRotated(was, now, backupCount) && 0 in was
    ensures ComesFrom(was, now, backupCount, k)
  {
  }

  class RotatedFile {
    var files: Files

    /** Starts from a single live file. */
    constructor (live: string)
      ensures files == map[0 := live]
    {
      files := map[0 := live];
    }

    method Append(data: string)
      modifies this
      ensures files == old(files)[0 := Content(old(files), 0) + data]
    {
      files := files[0 := Content(files, 0) + data];
    }

    method RotateIfNeeded(maxBytes: int, backupCount: int) returns (rotated: bool)
      modifies this
      ensures rotated <==> 0 in old(files) && |old(files)[0]| >= maxBytes
      ensures !rotated ==> files == old(files)
      ensures rotated ==> IsRotated(old(files), files, backupCount)
      ensures rotated ==> forall k: nat :: ComesFrom(old(files), files, backupCount, k)
    {
      if 0 !in files || |files[0]| < maxBytes {
        return false;
      }
      hide Shifting, IsRotated, ComesFrom;
      ghost var was, last := files, Kept(backupCount);
      ShiftStart(was, last);
      var index: nat := Kept(backupCount) - 1;
      while index > 0
        invariant Shifting(was, files, last, index)
      {
        ShiftStep(was, files, last, index);
        if index in files {
          files := Renamed(files, index, index + 1);
        }
        index := index - 1;
      }
      ShiftEnd(was, files, backupCount);
      files := Renamed(files, 0, 1);
      RotatedFrom(was, files, backupCount);
      return true;
    }

    /** The existing archives, oldest first, followed by the live file. */
    method RotatedSegments(backupCount: int) returns (segments: seq<nat>)
      ensures forall i, j | 0 <= i < j < |segments| :: segments[i] > segments[j]
      ensures forall k: nat :: k in segments <==> k in files && (k == 0 || k <= backupCount)
      ensures Joined(files, segments) == History(files, if backupCount < 0 then 0 else backupCount)
    {
      hide Archives, Joined;
      var top: nat := if backupCount < 0 then 0 else backupCount;
      segments := [];
      JoinedNothing(files, top);
      for index := top downto 0
        invariant forall i, j | 0 <= i < j < |segments| :: segments[i] > segments[j]
        invariant forall i | 0 <= i < |segments| :: segments[i] > index
        invariant forall k: nat :: k in segments <==> k in files && index < k <= top
        invariant Joined(files, segments) + Archives(files, index) == Archives(files, top)
      {
        JoinedPush(files, segments, index + 1);
        if index + 1 in files {
          segments := segments + [index + 1];
        }
      }
      JoinedPush(files, segments, 0);
      if 0 in files {
        segments := segments + [0];
      }
    }
  }

  lemma JoinedNothing(files: Files, n: nat)
    ensures Joined(files, []) + Archives(files, n) == Archives(files, n) && Archives(files, 0) == []
  {
  }

  lemma JoinedPush(files: Files, segments: seq<nat>, k: nat)
    ensures Joined(files, segments + [k]) == Joined(files, segments) + Content(files, k)
    ensures k > 0 ==>
      Joined(files, segments) + Archives(files, k)
        == (Joined(files, segments) + Content(files, k)) + Archives(files, k - 1)
    ensures Archives(files, 0) == []
  {
    hide Joined, Content;
    JoinedOne(files, segments, k);
    if k > 0 {
      Regroup(Joined(files, segments), Content(files, k), Archives(files, k - 1));
    }
  }

  lemma JoinedOne(files: Files, segments: seq<nat>, k: nat)
    ensures Joined(files, segments + [k]) == Joined(files, segments) + Content(files, k)
  {
    hide Content;
    assert (segments + [k])[..|segments|] == segments;
  }

  lemma Regroup(a: string, b: string, c: string)
    ensures a + (b + c) == (a + b) + c
  {
  }

  // ----- histories over runs -----

  datatype Step = Written(data: string) | Rotated(now: Files)

  /** A step the file can make: an append, or a rotation when there is a live file. */
  ghost predicate Possible(files: Files, s: Step, backupCount: int) {
    s.Rotated? ==> 0 in files && IsRotated(files, s.now, backupCount)
  }

  function After(files: Files, s: Step): Files {
    match s
    case Written(data) => files[0 := Content(files, 0) + data]
    case Rotated(now) => now
  }

  ghost predicate Runs(files: Files, steps: seq<Step>, backupCount: int, final: Files)
    decreases |steps|
  {
    if steps == [] then final == files
    else Possible(files, steps[0], backupCount) && Runs(After(files, steps[0]), steps[1..], backupCount, final)
  }

  function Appended(steps: seq<Step>): string {
    if steps == [] then [] else (if steps[0].Written? then steps[0].data else []) + Appended(steps[1..])
  }

  function Rotations(steps: seq<Step>): nat {
    if steps == [] then 0 else (if steps[0].Rotated? then 1 else 0) + Rotations(steps[1..])
  }

  /** The archives are exactly 1 .. count. */
  ghost predicate Contiguous(files: Files, count: nat) {
    forall k: nat | k >= 1 :: k in files <==> k <= count
  }

  lemma ContentShift(was: Files, now: Files, backupCount: int, n: nat, count: nat)
    requires IsRotated(was, now, backupCount) && Contiguous(was, count) && count <= Kept(backupCount)
    requires n + 1 <= Kept(backupCount)
    ensures Content(now, n + 1) == Content(was, n)
  {
    if n > 0 {
      assert n in was <==> n <= count;
      assert n + 1 in was ==> n in was;
    }
  }

  /** Moving every archive up by one and the live file into the first keeps their joined contents. */
  lemma {:induction false} ShiftedArchives(was: Files, now: Files, backupCount: int, n: nat, count: nat)
    requires IsRotated(was, now, backupCount) && Contiguous(was, count) && count <= Kept(backupCount)
    requires n + 1 <= Kept(backupCount)
    ensures Archives(now, n + 1) == Archives(was, n) + Content(was, 0)
    decreases n
  {
    hide IsRotated, Contiguous, Archives, Content;
    ArchivesPop(now, n + 1);
    ContentShift(was, now, backupCount, n, count);
    if n == 0 {
      NoneRead(now);
      NoneRead(was);
    } else {
      ShiftedArchives(was, now, backupCount, n - 1, count);
      ArchivesPop(was, n);
      Regroup(Content(was, n), Archives(was, n - 1), Content(was, 0));
    }
  }

  lemma RotationKeepsContiguous(was: Files, now: Files, backupCount: int, count: nat)
    requires IsRotated(was, now, backupCount) && Contiguous(was, count) && count <= Kept(backupCount)
    ensures Contiguous(now, if count < Kept(backupCount) then count + 1 else count) && 0 !in now
  {
    forall k: nat | k >= 1 ensures k in now <==> k <= if count < Kept(backupCount) then count + 1 else count {
      assert 2 <= k <= Kept(backupCount) ==> (k - 1 in was <==> k - 1 <= count);
    }
  }

  lemma RotationKeepsHistory(was: Files, now: Files, backupCount: nat, count: nat)
    requires IsRotated(was, now, backupCount) && Contiguous(was, count) && count <= Kept(backupCount)
    ensures IsSuffix(History(now, backupCount), History(was, backupCount))
    ensures count < backupCount ==> History(now, backupCount) == History(was, backupCount)
  {
    hide IsRotated, Archives;
    RotationKeepsContiguous(was, now, backupCount, count);
    if backupCount > 0 {
      ShiftedArchives(was, now, backupCount, backupCount - 1, count);
      ArchivesPop(was, backupCount);
      Regroup(Content(was, backupCount), Archives(was, backupCount - 1), Content(was, 0));
    } else {
      NoneRead(now);
    }
  }

  lemma ArchivesPop(files: Files, n: nat)
    requires n > 0
    ensures Archives(files, n) == Content(files, n) + Archives(files, n - 1)
  {
  }

  lemma NoneRead(files: Files)
    ensures Archives(files, 0) == []
  {
  }

  lemma AppendKeepsHistory(files: Files, data: string, n: nat)
    ensures History(After(files, Written(data)), n) == History(files, n) + data
  {
    SameArchives(files, After(files, Written(data)), n);
  }

  lemma {:induction false} SameArchives(a: Files, b: Files, n: nat)
    requires forall k: nat | k >= 1 :: Content(a, k) == Content(b, k)
    ensures Archives(a, n) == Archives(b, n)
  {
    if n > 0 {
      SameArchives(a, b, n - 1);
    }
  }

  lemma SuffixTrans(a: string, b: string, c: string, tail: string)
    requires IsSuffix(a, b + tail) && IsSuffix(b, c)
    ensures IsSuffix(a, c + tail)
  {
    assert (c + tail)[|c| - |b|..] == b + tail;
  }

  lemma {:induction false} HistoryFrom(files: Files, steps: seq<Step>, backupCount: nat, final: Files, count: nat)
    requires Runs(files, steps, backupCount, final) && Contiguous(files, count) && count <= Kept(backupCount)
    ensures IsSuffix(History(final, backupCount), History(files, backupCount) + Appended(steps))
    ensures count + Rotations(steps) <= backupCount ==>
      History(final, backupCount) == History(files, backupCount) + Appended(steps)
    decreases |steps|
  {
    hide IsRotated, History;
    if steps != [] {
      var s, next := steps[0], After(files, steps[0]);
      if s.Written? {
        AppendKeepsHistory(files, s.data, backupCount);
        HistoryFrom(next, steps[1..], backupCount, final, count);
        Regroup(History(files, backupCount), s.data, Appended(steps[1..]));
      } else {
        RotationKeepsHistory(files, next, backupCount, count);
        RotationKeepsContiguous(files, next, backupCount, count);
        HistoryFrom(next, steps[1..], backupCount, final, if count < Kept(backupCount) then count + 1 else count);
        SuffixTrans(History(final, backupCount), History(next, backupCount), History(files, backupCount),
          Appended(steps[1..]));
        assert [] + Appended(steps[1..]) == Appended(steps[1..]);
      }
    }
  }

  /**
   Rotation keeps history.  From a single live file, after any run of appends and rotations
   with the same backup count, what a full-history read yields is a suffix of everything
   ever appended, in order; it is all of it until more rotations than backups have happened.
   */
  lemma RotationKeepsSuffix(live: string, steps: seq<Step>, backupCount: nat, final: Files)
    requires Runs(map[0 := live], steps, backupCount, final)
    ensures IsSuffix(History(final, backupCount), live + Appended(steps))
    ensures Rotations(steps) <= backupCount ==> History(final, backupCount) == live + Appended(steps)
  {
    var files: Files := map[0 := live];
    HistoryFrom(files, steps, backupCount, final, 0);
    NoArchives(files, backupCount);
  }

  lemma {:induction false} NoArchives(files: Files, n: nat)
    requires forall k: nat | k >= 1 :: k !in files
    ensures Archives(files, n) == [] && History(files, n) == Content(files, 0)
  {
    if n > 0 {
      NoArchives(files, n - 1);
    }
  }
}
