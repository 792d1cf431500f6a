/** Cyclic sequences: a test on consecutive elements, taken "for some edge" or as a parity.
  *
  * Both polygon modules index edges of a ring modulo its length. The lemmas here say how the
  * two ways of folding an edge test over a ring behave under rotation, reversal and cutting.
  */
module Cycles {

  /** Index after i on a cycle of length n. */
  function Next(i: nat, n: nat): nat { if i + 1 < n then i + 1 else 0 }

  lemma NextIsMod(i: nat, n: nat)
    requires i < n
    ensures (i + 1) % n == Next(i, n)
  {
  }

  function Reverse<T>(v: seq<T>): seq<T> {
    seq(|v|, i requires 0 <= i < |v| => v[|v| - 1 - i])
  }

  function Rotate<T>(v: seq<T>): seq<T>
    requires |v| >= 1
  {
    v[1..] + [v[0]]
  }

  ghost predicate Symmetric<T(!new)>(test: (T, T) -> bool) {
    forall a, b :: test(a, b) == test(b, a)
  }

  /** Parity of the edges of the open path w that pass the test. */
  ghost predicate PathParity<T>(w: seq<T>, test: (T, T) -> bool) {
    if |w| < 2 then false else test(w[0], w[1]) != PathParity(w[1..], test)
  }

  /** Parity over all edges of the ring v, beginning with the closing edge. */
  ghost predicate RingParity<T>(v: seq<T>, test: (T, T) -> bool) {
    if v == [] then false else PathParity([v[|v| - 1]] + v, test)
  }

  /** Some edge of the ring passes the test. */
  ghost predicate SomeEdge<T>(v: seq<T>, test: (T, T) -> bool) {
    exists i: nat :: i < |v| && test(v[i], v[Next(i, |v|)])
  }

  // ---------- Paths ----------

  lemma {:induction false} PathAppend<T>(a: seq<T>, x: T, b: seq<T>, test: (T, T) -> bool)
    ensures PathParity(a + [x] + b, test) == (PathParity(a + [x], test) != PathParity([x] + b, test))
  {
    if a == [] {
      assert a + [x] + b == [x] + b && a + [x] == [x];
    } else {
      PathAppend(a[1..], x, b, test);
      assert (a + [x] + b)[1..] == a[1..] + [x] + b;
      assert (a + [x])[1..] == a[1..] + [x];
    }
  }

  lemma PairPath<T>(a: T, b: T, test: (T, T) -> bool)
    ensures PathParity([a, b], test) == test(a, b)
  {
    assert [a, b][1..] == [b];
  }

  lemma PathCons<T>(x: T, w: seq<T>, test: (T, T) -> bool)
    requires |w| >= 1
    ensures PathParity([x] + w, test) == (test(x, w[0]) != PathParity(w, test))
  {
    assert ([x] + w)[1..] == w;
  }

  lemma PathExtend<T>(w: seq<T>, i: nat, test: (T, T) -> bool)
    requires i + 1 < |w|
    ensures PathParity(w[..i + 2], test) == (PathParity(w[..i + 1], test) != test(w[i], w[i + 1]))
  {
    assert w[..i + 2] == w[..i] + [w[i]] + [w[i + 1]] && w[..i + 1] == w[..i] + [w[i]];
    PathAppend(w[..i], w[i], [w[i + 1]], test);
    PairPath(w[i], w[i + 1], test);
    assert [w[i]] + [w[i + 1]] == [w[i], w[i + 1]];
  }

  lemma {:induction false} PathReverse<T(!new)>(w: seq<T>, test: (T, T) -> bool)
    requires Symmetric(test)
    ensures PathParity(Reverse(w), test) == PathParity(w, test)
  {
    if |w| >= 2 {
      PathReverse(w[1..], test);
      var r := Reverse(w[2..]);
      assert Reverse(w) == r + [w[1]] + [w[0]] && Reverse(w[1..]) == r + [w[1]];
      PathAppend(r, w[1], [w[0]], test);
      PairPath(w[1], w[0], test);
      assert [w[1]] + [w[0]] == [w[1], w[0]];
    }
  }

  // ---------- Rings ----------

  /** Splitting along any chord between two vertices gives the xor of the parts. */
  lemma ChordSplit<T(!new)>(v: seq<T>, i: nat, j: nat, test: (T, T) -> bool)
    requires i < j < |v| && Symmetric(test)
    ensures RingParity(v, test) == (RingParity(v[i..j + 1], test) != RingParity(v[..i + 1] + v[j..], test))
  {
    var mid := v[i + 1..j];
    assert v == v[..i] + ([v[i]] + mid + [v[j]] + v[j + 1..]);
    assert v[i..j + 1] == [v[i]] + mid + [v[j]];
    assert v[..i + 1] + v[j..] == v[..i] + ([v[i]] + [] + [v[j]] + v[j + 1..]);
    SplitParts(v[..i], v[i], mid, v[j], v[j + 1..], test);
  }

  lemma SplitParts<T(!new)>(a: seq<T>, x: T, mid: seq<T>, y: T, b: seq<T>, test: (T, T) -> bool)
    requires Symmetric(test)
    ensures RingParity(a + ([x] + mid + [y] + b), test)
      == (RingParity([x] + mid + [y], test) != RingParity(a + ([x] + [] + [y] + b), test))
  {
    var last := if b == [] then y else b[|b| - 1];
    ClosedRing(a, [x] + mid + [y] + b, last, test);
    ClosedRing(a, [x] + [] + [y] + b, last, test);
    WholeRing([last] + a, x, mid, y, b, test);
    WholeRing([last] + a, x, [], y, b, test);
    CutRing(x, mid, y, test);
    PairPath(x, y, test);
    assert [x] + [] + [y] == [x, y];
  }

  lemma ClosedRing<T>(a: seq<T>, r: seq<T>, last: T, test: (T, T) -> bool)
    requires r != [] && last == r[|r| - 1]
    ensures RingParity(a + r, test) == PathParity([last] + a + r, test)
  {
    assert (a + r)[|a + r| - 1] == last;
    assert [last] + (a + r) == [last] + a + r;
  }

  lemma WholeRing<T>(front: seq<T>, x: T, mid: seq<T>, y: T, back: seq<T>, test: (T, T) -> bool)
    ensures PathParity(front + ([x] + mid + [y] + back), test)
      == (PathParity(front + [x], test) != (PathParity([x] + mid + [y], test) != PathParity([y] + back, test)))
  {
    var tail := mid + [y] + back;
    assert [x] + tail == [x] + mid + [y] + back;
    assert front + ([x] + tail) == front + [x] + tail;
    PathAppend(front, x, tail, test);
    PathAppend([x] + mid, y, back, test);
  }

  lemma CutRing<T>(x: T, mid: seq<T>, y: T, test: (T, T) -> bool)
    ensures RingParity([x] + mid + [y], test) == (test(y, x) != PathParity([x] + mid + [y], test))
  {
    var v := [x] + mid + [y];
    assert [v[|v| - 1]] + v == [y] + v;
    assert ([y] + v)[1..] == v;
  }

  lemma RotateParity<T>(v: seq<T>, test: (T, T) -> bool)
    requires |v| >= 1
    ensures RingParity(Rotate(v), test) == RingParity(v, test)
  {
    var n, w := |v|, [v[|v| - 1]] + v;
    assert w[1..] == v;
    var u := v + [v[0]];
    assert [Rotate(v)[n - 1]] + Rotate(v) == u;
    PathExtend(u, n - 1, test);
    assert u[..n + 1] == u && u[..n] == v;
  }

  lemma ReverseParity<T(!new)>(v: seq<T>, test: (T, T) -> bool)
    requires |v| >= 1 && Symmetric(test)
    ensures RingParity(Reverse(v), test) == RingParity(v, test)
  {
    // Reverse(v) with its closing edge is the reverse of v[0], v[1], .., v[0].
    var w := Rotate(v);
    var closed := [w[|w| - 1]] + w;
    assert [Reverse(v)[|v| - 1]] + Reverse(v) == Reverse(closed);
    PathReverse(closed, test);
    RotateParity(v, test);
  }

  lemma RotateSomeEdge<T>(v: seq<T>, test: (T, T) -> bool)
    requires |v| >= 1
    ensures SomeEdge(Rotate(v), test) == SomeEdge(v, test)
  {
    var n, w := |v|, Rotate(v);
    if i: nat :| i < n && test(w[i], w[Next(i, n)]) {
      var k := Next(i, n);
      assert test(v[k], v[Next(k, n)]);
    }
    if i: nat :| i < n && test(v[i], v[Next(i, n)]) {
      var k := if i == 0 then n - 1 else i - 1;
      assert test(w[k], w[Next(k, n)]);
    }
  }

  lemma ReverseSomeEdgeOneWay<T(!new)>(v: seq<T>, test: (T, T) -> bool)
    requires Symmetric(test) && SomeEdge(v, test)
    ensures SomeEdge(Reverse(v), test)
  {
    var n, w := |v|, Reverse(v);
    var i: nat :| i < n && test(v[i], v[Next(i, n)]);
    var k := if i == n - 1 then n - 1 else n - 2 - i;
    assert test(w[k], w[Next(k, n)]);
  }

  lemma ReverseSomeEdge<T(!new)>(v: seq<T>, test: (T, T) -> bool)
    requires Symmetric(test)
    ensures SomeEdge(Reverse(v), test) == SomeEdge(v, test)
  {
    if SomeEdge(v, test) {
      ReverseSomeEdgeOneWay(v, test);
    }
    if SomeEdge(Reverse(v), test) {
      ReverseSomeEdgeOneWay(Reverse(v), test);
      assert Reverse(Reverse(v)) == v;
    }
  }

  /** A property of cycles kept by one rotation step is kept by all of them. */
  lemma {:induction false} RotateMany<T>(v: seq<T>, k: nat, test: (T, T) -> bool)
    requires k <= |v|
    ensures RingParity(v[k..] + v[..k], test) == RingParity(v, test)
    ensures SomeEdge(v[k..] + v[..k], test) == SomeEdge(v, test)
  {
    if k == 0 {
      assert v[0..] + v[..0] == v;
    } else {
      RotateMany(v, k - 1, test);
      var w := v[k - 1..] + v[..k - 1];
      RotateParity(w, test);
      RotateSomeEdge(w, test);
      assert Rotate(w) == v[k..] + v[..k];
    }
  }

  // ---------- Fans ----------

  /** Parity of the fan triangles from v[0] that pass an edge test an odd number of times. */
  ghost predicate FanParity<T>(v: seq<T>, test: (T, T) -> bool) {
    if |v| < 3 then false
    else FanParity(v[..|v| - 1], test) != RingParity([v[0], v[|v| - 2], v[|v| - 1]], test)
  }

  /** The parity of a ring is the xor over the triangles of any fan of it. */
  lemma {:induction false} RingIsFan<T(!new)>(v: seq<T>, test: (T, T) -> bool)
    requires |v| >= 2 && Symmetric(test)
    ensures RingParity(v, test) == FanParity(v, test)
  {
    var n := |v|;
    if n == 2 {
      assert [v[1]] + v == [v[1], v[0], v[1]] && [v[1], v[0], v[1]][1..] == [v[0], v[1]];
      PairPath(v[0], v[1], test);
    } else {
      RingIsFan(v[..n - 1], test);
      ChordSplit(v, 0, n - 2, test);
      assert v[0..n - 2 + 1] == v[..n - 1];
      assert v[..0 + 1] + v[n - 2..] == [v[0], v[n - 2], v[n - 1]];
    }
  }
}
