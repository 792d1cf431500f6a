/** Sorting pings by timestamp, and how far the sorted result is determined.
  *
  * A drain returns some sorted permutation of the queue. The library sort promises no stability,
  * so pings with equal timestamps may come out in either order.
  */
module PingOrder {
  import opened PingRuns

  // ---------- A drain exists ----------

  function SortedInsert(sorted: seq<Ping>, p: Ping): seq<Ping> {
    if sorted == [] then [p]
    else if p.timestamp < sorted[0].timestamp then [p] + sorted
    else [sorted[0]] + SortedInsert(sorted[1..], p)
  }

  lemma {:induction false} InsertAddsOne(sorted: seq<Ping>, p: Ping, r: seq<Ping>)
    requires r == SortedInsert(sorted, p)
    ensures multiset(r) == multiset(sorted) + multiset{p}
  {
    if sorted != [] {
      assert sorted == [sorted[0]] + sorted[1..];
      if p.timestamp >= sorted[0].timestamp {
        InsertAddsOne(sorted[1..], p, r[1..]);
        assert r == [sorted[0]] + r[1..];
      }
    }
  }

  ghost predicate NotBefore(ps: seq<Ping>, low: int) {
    forall i :: 0 <= i < |ps| ==> low <= ps[i].timestamp
  }

  lemma {:induction false} InsertStaysAbove(sorted: seq<Ping>, p: Ping, r: seq<Ping>, low: int)
    requires r == SortedInsert(sorted, p) && NotBefore(sorted, low) && low <= p.timestamp
    ensures NotBefore(r, low)
  {
    if sorted != [] && p.timestamp >= sorted[0].timestamp {
      InsertStaysAbove(sorted[1..], p, r[1..], low);
      assert forall i :: 1 <= i < |r| ==> r[i] == r[1..][i - 1];
    }
  }

  lemma {:induction false} InsertKeepsOrder(sorted: seq<Ping>, p: Ping, r: seq<Ping>)
    requires r == SortedInsert(sorted, p) && InOrder(sorted)
    ensures InOrder(r)
  {
    if sorted != [] && p.timestamp >= sorted[0].timestamp {
      var low := sorted[0].timestamp;
      InsertKeepsOrder(sorted[1..], p, r[1..]);
      assert NotBefore(sorted[1..], low);
      InsertStaysAbove(sorted[1..], p, r[1..], low);
      OrderFromTail(r);
    }
  }

  lemma OrderFromTail(ps: seq<Ping>)
    requires ps != [] && InOrder(ps[1..]) && NotBefore(ps[1..], ps[0].timestamp)
    ensures InOrder(ps)
  {
    forall i, j | 0 <= i < j < |ps| ensures ps[i].timestamp <= ps[j].timestamp {
      assert ps[j] == ps[1..][j - 1];
      if i > 0 {
        assert ps[i] == ps[1..][i - 1];
      }
    }
  }

  function Sorted(ps: seq<Ping>): seq<Ping> {
    if ps == [] then [] else SortedInsert(Sorted(ps[..|ps| - 1]), ps[|ps| - 1])
  }

  lemma {:induction false} SortedIsDrain(ps: seq<Ping>)
    ensures IsDrain(Sorted(ps), ps)
  {
    if ps != [] {
      var init, last := ps[..|ps| - 1], ps[|ps| - 1];
      SortedIsDrain(init);
      InsertKeepsOrder(Sorted(init), last, Sorted(ps));
      InsertAddsOne(Sorted(init), last, Sorted(ps));
      assert ps == init + [last];
    }
  }

  // ---------- When it is the only one ----------

  /** Pings with equal timestamps come out in either order. */
  lemma EqualTimestampsAreUnordered(p: Ping, q: Ping)
    requires p.timestamp == q.timestamp
    ensures IsDrain([p, q], [p, q]) && IsDrain([q, p], [p, q])
  {
    assert multiset([q, p]) == multiset{p, q} == multiset([p, q]);
  }

  /** No two different pings of the queue share a timestamp. */
  ghost predicate TimestampsTell(queue: seq<Ping>) {
    forall i, j :: 0 <= i < j < |queue| && queue[i].timestamp == queue[j].timestamp ==> queue[i] == queue[j]
  }

  ghost predicate OneDrain(queue: seq<Ping>) {
    forall a, b :: IsDrain(a, queue) && IsDrain(b, queue) ==> a == b
  }

  lemma TellElements(queue: seq<Ping>, p: Ping, q: Ping)
    requires TimestampsTell(queue) && p in queue && q in queue && p.timestamp == q.timestamp
    ensures p == q
  {
    var i :| 0 <= i < |queue| && queue[i] == p;
    var j :| 0 <= j < |queue| && queue[j] == q;
  }

  lemma SameElement(a: seq<Ping>, b: seq<Ping>, p: Ping)
    requires multiset(a) == multiset(b)
    ensures p in a <==> p in b
  {
    assert p in a <==> p in multiset(a);
    assert p in b <==> p in multiset(b);
  }

  lemma FirstIsEarliest(a: seq<Ping>, p: Ping)
    requires InOrder(a) && p in a
    ensures a[0].timestamp <= p.timestamp
  {
    var i :| 0 <= i < |a| && a[i] == p;
  }

  lemma SameHead(queue: seq<Ping>, a: seq<Ping>, b: seq<Ping>)
    requires InOrder(a) && InOrder(b) && multiset(a) == multiset(b) && a != [] && b != []
    requires TimestampsTell(queue) && forall p :: p in a ==> p in queue
    ensures a[0] == b[0]
  {
    SameElement(a, b, a[0]);
    SameElement(a, b, b[0]);
    FirstIsEarliest(a, b[0]);
    FirstIsEarliest(b, a[0]);
    TellElements(queue, a[0], b[0]);
  }

  lemma SameTails(a: seq<Ping>, b: seq<Ping>)
    requires a != [] && b != [] && a[0] == b[0] && multiset(a) == multiset(b)
    ensures multiset(a[1..]) == multiset(b[1..])
  {
    assert a == [a[0]] + a[1..] && b == [b[0]] + b[1..];
    assert multiset(a[1..]) == multiset(a) - multiset{a[0]};
    assert multiset(b[1..]) == multiset(b) - multiset{b[0]};
  }

  lemma {:induction false} SortedListsAgree(queue: seq<Ping>, a: seq<Ping>, b: seq<Ping>)
    requires InOrder(a) && InOrder(b) && multiset(a) == multiset(b)
    requires TimestampsTell(queue) && forall p :: p in a ==> p in queue
    ensures a == b
  {
    assert |multiset(a)| == |a| && |multiset(b)| == |b|;
    if a != [] {
      SameHead(queue, a, b);
      SameTails(a, b);
      SortedListsAgree(queue, a[1..], b[1..]);
      assert a == [a[0]] + a[1..] && b == [b[0]] + b[1..];
    }
  }

  /** Two entries of a drain with equal timestamps can be exchanged. */
  lemma ExchangedIsDrain(d: seq<Ping>, queue: seq<Ping>, i: nat, j: nat)
    requires IsDrain(d, queue) && i < j < |d| && d[i].timestamp == d[j].timestamp
    ensures IsDrain(d[i := d[j]][j := d[i]], queue)
  {
    var e := d[i := d[j]][j := d[i]];
    assert forall k :: 0 <= k < |d| ==> e[k].timestamp == d[k].timestamp;
    assert multiset(e) == multiset(d);
  }

  lemma TwoPlaces(d: seq<Ping>, p: Ping, q: Ping) returns (i: nat, j: nat)
    requires p in d && q in d && p != q
    ensures i < j < |d| && d[i] != d[j] && (d[i] == p || d[i] == q) && (d[j] == p || d[j] == q)
  {
    var k: nat :| k < |d| && d[k] == p;
    var l: nat :| l < |d| && d[l] == q;
    i, j := if k < l then k else l, if k < l then l else k;
  }

  lemma TellDetermines(queue: seq<Ping>, a: seq<Ping>, b: seq<Ping>)
    requires TimestampsTell(queue) && IsDrain(a, queue) && IsDrain(b, queue)
    ensures a == b
  {
    forall p | p in a ensures p in queue {
      SameElement(a, queue, p);
    }
    SortedListsAgree(queue, a, b);
  }

  /** Two different pings with one timestamp give two drains. */
  lemma TwoDrains(queue: seq<Ping>, p: Ping, q: Ping) returns (d: seq<Ping>, e: seq<Ping>)
    requires p in queue && q in queue && p != q && p.timestamp == q.timestamp
    ensures IsDrain(d, queue) && IsDrain(e, queue) && d != e
  {
    d := Sorted(queue);
    SortedIsDrain(queue);
    SameElement(d, queue, p);
    SameElement(d, queue, q);
    var i, j := TwoPlaces(d, p, q);
    ExchangedIsDrain(d, queue, i, j);
    e := d[i := d[j]][j := d[i]];
    assert e[i] == d[j];
  }

  /** The drain of a queue is determined exactly when no two different pings share a timestamp. */
  lemma DrainIsDeterminedIff(queue: seq<Ping>)
    ensures OneDrain(queue) <==> TimestampsTell(queue)
  {
    if TimestampsTell(queue) {
      forall a, b | IsDrain(a, queue) && IsDrain(b, queue) ensures a == b {
        TellDetermines(queue, a, b);
      }
    } else {
      var k, l :| 0 <= k < l < |queue| && queue[k].timestamp == queue[l].timestamp && queue[k] != queue[l];
      var d, e := TwoDrains(queue, queue[k], queue[l]);
    }
  }
}
