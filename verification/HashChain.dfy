/**
 Hash-chained append-only logs, as both the forward-paper event store and the
 structured funnel log keep them.  A link carries its sequence number, the hash of
 its predecessor and a body; the signed form adds the hash of the link.  Nothing is
 assumed about the hash function: where a property needs "no collisions", the
 lemma hands back the collision instead.
 */
module HashChain {
  const GENESIS := "GENESIS"

  datatype Link<T> = Link(sequence: int, previous: string, body: T)

  datatype Signed<T> = Signed(link: Link<T>, hash: string)

  /** What the head of a log hashes to; the next record must name it. */
  function Head<T>(log: seq<Signed<T>>): string {
    if log == [] then GENESIS else log[|log| - 1].hash
  }

  ghost predicate Linked<T>(h: Link<T> -> string, log: seq<Signed<T>>, i: nat)
    requires i < |log|
  {
    && log[i].link.sequence == i + 1
    && log[i].link.previous == Head(log[..i])
    && log[i].hash == h(log[i].link)
  }

  ghost predicate Chained<T>(h: Link<T> -> string, log: seq<Signed<T>>) {
    forall i | 0 <= i < |log| :: Linked(h, log, i)
  }

  /** The record that continues a log with the given body. */
  function Sign<T>(h: Link<T> -> string, log: seq<Signed<T>>, body: T): Signed<T> {
    var link := Link(|log| + 1, Head(log), body);
    Signed(link, h(link))
  }

  lemma ChainedPrefix<T>(h: Link<T> -> string, log: seq<Signed<T>>, n: nat)
    requires n <= |log| && Chained(h, log)
    ensures Chained(h, log[..n])
  {
    forall i | 0 <= i < n ensures Linked(h, log[..n], i) {
      assert Linked(h, log, i);
      assert log[..n][..i] == log[..i];
    }
  }

  lemma ChainedAppend<T>(h: Link<T> -> string, log: seq<Signed<T>>, last: Signed<T>)
    ensures Chained(h, log + [last]) <==>
      Chained(h, log) && last.link.sequence == |log| + 1 && last.link.previous == Head(log) && last.hash == h(last.link)
  {
    var whole := log + [last];
    if Chained(h, whole) {
      ChainedPrefix(h, whole, |log|);
      assert whole[..|log|] == log;
      assert Linked(h, whole, |log|);
    }
    if Chained(h,
      log) && last.link.sequence == |log| + 1 && last.link.previous == Head(log) && last.hash == h(last.link) {
      forall i | 0 <= i < |whole| ensures Linked(h, whole, i) {
        assert whole[..i] == if i < |log| then log[..i] else log;
        assert i < |log| ==> Linked(h, log, i);
      }
    }
  }

  ghost predicate Collision<T>(h: Link<T> -> string, x: Link<T>, y: Link<T>) {
    x != y && h(x) == h(y)
  }

  /**
   Tamper evidence.  Two accepted non-empty logs that end in the same hash are the
   same log, or they contain two different links with equal hashes.  An edit, a
   deletion, an insertion or a reordering therefore changes the head hash unless
   it exhibits a collision.
   */
  lemma {:induction false} SameHeadSameLog<T>(h: Link<T> -> string, a: seq<Signed<T>>, b: seq<Signed<T>>)
    returns (i: nat, j: nat)
    requires a != [] && b != [] && Chained(h, a) && Chained(h, b)
    requires Head(a) == Head(b)
    ensures i < |a| && j < |b|
    ensures a == b || Collision(h, a[i].link, b[j].link)
    decreases |a|
  {
    i, j := |a| - 1, |b| - 1;
    assert Linked(h, a, i) && Linked(h, b, j);
    if a[i].link == b[j].link {
      assert |a| == |b|;
      ChainedPrefix(h, a, i);
      ChainedPrefix(h, b, j);
      if i > 0 {
        i, j := SameHeadSameLog(h, a[..i], b[..j]);
      }
      assert a == a[..|a| - 1] + [a[|a| - 1]];
      assert b == b[..|b| - 1] + [b[|b| - 1]];
    }
  }

  /** The same claim under the assumption that the hash is injective on the links that occur. */
  lemma InjectiveHashSameLog<T>(h: Link<T> -> string, a: seq<Signed<T>>, b: seq<Signed<T>>)
    requires Chained(h, a) && Chained(h, b) && (a == [] <==> b == [])
    requires forall i, j | 0 <= i < |a| && 0 <= j < |b| :: !Collision(h, a[i].link, b[j].link)
    ensures Head(a) == Head(b) <==> a == b
  {
    if a != [] && Head(a) == Head(b) {
      var i, j := SameHeadSameLog(h, a, b);
    }
  }
}
