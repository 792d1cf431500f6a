/** Grouping delivery stops within walking distance, and ordering the groups.
  *
  * The distance test is an arbitrary predicate on two stops, asked once per pair in input
  * order. The travelling-salesman solver is an arbitrary function returning some order of
  * the group indices.
  */
module Clustering {
  import opened Grouping
  import opened DisjointSets

  const MIN_STOPS := 2
  const MAX_STOPS := 50

  datatype Stop = Stop(deliveryId: string, lat: real, lng: real)

  type NearTest = (Stop, Stop) -> bool

  // ---------- Chains of near pairs ----------

  /** The index pairs, smaller index first, whose stops the distance test calls near. */
  ghost function NearPairs(stops: seq<Stop>, near: NearTest): set<(nat, nat)> {
    PairsBefore(stops, near, |stops|, 0)
  }

  /** Near pairs (i, j) that come before (row, column) in the double loop. */
  ghost function PairsBefore(stops: seq<Stop>, near: NearTest, row: nat, column: nat): set<(nat, nat)> {
    set i: nat, j: nat | i < j < |stops| && (i < row || (i == row && j < column)) && near(stops[i], stops[j]) :: (i, j)
  }

  ghost predicate Linked(edges: set<(nat, nat)>, x: nat, y: nat) {
    (x, y) in edges || (y, x) in edges
  }

  ghost predicate IsChain(edges: set<(nat, nat)>, c: seq<nat>) {
    c != [] && forall k :: 0 <= k < |c| - 1 ==> Linked(edges, c[k], c[k + 1])
  }

  /** Some chain of linked pairs leads from x to y. */
  ghost predicate Connected(edges: set<(nat, nat)>, x: nat, y: nat) {
    exists c :: IsChain(edges, c) && c[0] == x && c[|c| - 1] == y
  }

  lemma ConnectedSelf(edges: set<(nat, nat)>, x: nat)
    ensures Connected(edges, x, x)
  {
    assert IsChain(edges, [x]);
  }

  lemma ConnectedMore(edges: set<(nat, nat)>, more: set<(nat, nat)>, x: nat, y: nat)
    requires edges <= more && Connected(edges, x, y)
    ensures Connected(more, x, y)
  {
    var c :| IsChain(edges, c) && c[0] == x && c[|c| - 1] == y;
    assert IsChain(more, c);
  }

  lemma ConnectedJoin(edges: set<(nat, nat)>, x: nat, a: nat, b: nat, y: nat)
    requires Connected(edges, x, a) && Linked(edges, a, b) && Connected(edges, b, y)
    ensures Connected(edges, x, y)
  {
    var c :| IsChain(edges, c) && c[0] == x && c[|c| - 1] == a;
    var d :| IsChain(edges, d) && d[0] == b && d[|d| - 1] == y;
    var e := c + d;
    forall k | 0 <= k < |e| - 1 ensures Linked(edges, e[k], e[k + 1]) {
      if k < |c| - 1 {
        assert Linked(edges, c[k], c[k + 1]);
      } else if k >= |c| {
        assert Linked(edges, d[k - |c|], d[k - |c| + 1]);
      }
    }
    assert IsChain(edges, e);
  }

  // ---------- Union-find computes the components ----------

  /** The classes of the parent list are the components of the edge set. */
  ghost predicate Components(p: seq<nat>, edges: set<(nat, nat)>)
    requires Descending(p)
  {
    forall x: nat, y: nat :: x < |p| && y < |p| ==> (Root(p, x) == Root(p, y) <==> Connected(edges, x, y))
  }

  lemma {:induction false} ChainStaysInClass(p: seq<nat>, edges: set<(nat, nat)>, c: seq<nat>)
    requires Descending(p) && IsChain(edges, c) && c[0] < |p|
    requires forall i: nat, j: nat :: (i, j) in edges ==> i < |p| && j < |p| && Root(p, i) == Root(p, j)
    ensures c[|c| - 1] < |p| && Root(p, c[0]) == Root(p, c[|c| - 1])
  {
    if |c| > 1 {
      assert Linked(edges, c[0], c[1]);
      var d := c[1..];
      forall k | 0 <= k < |d| - 1 ensures Linked(edges, d[k], d[k + 1]) {
        assert Linked(edges, c[k + 1], c[k + 1 + 1]);
      }
      ChainStaysInClass(p, edges, d);
    }
  }

  lemma NoEdgesNoChains(p: seq<nat>)
    requires Descending(p) && forall x: nat :: x < |p| ==> Root(p, x) == x
    ensures Components(p, {})
  {
    forall x: nat, y: nat | x < |p| && y < |p|
      ensures Root(p, x) == Root(p, y) <==> Connected({}, x, y)
    {
      if x == y {
        ConnectedSelf({}, x);
      }
      if Connected({}, x, y) {
        var c :| IsChain({}, c) && c[0] == x && c[|c| - 1] == y;
        ChainStaysInClass(p, {}, c);
      }
    }
  }

  /** Merging the classes of a and b accounts for exactly one more edge. */
  lemma UnionAddsEdge(p: seq<nat>, q: seq<nat>, edges: set<(nat, nat)>, a: nat, b: nat)
    requires Descending(p) && Descending(q) && |p| == |q| && a < |p| && b < |p|
    requires Components(p, edges)
    requires forall i: nat, j: nat :: (i, j) in edges ==> i < |p| && j < |p|
    requires forall y: nat :: y < |p| ==> Root(q, y) == MergedRoot(p, Root(p, a), Root(p, b), y)
    ensures Components(q, edges + {(a, b)})
  {
    var more := edges + {(a, b)};
    forall i: nat, j: nat | (i, j) in more ensures i < |q| && j < |q| && Root(q, i) == Root(q, j) {
      if (i, j) in edges {
        assert IsChain(edges, [i, j]);
        assert Connected(edges, i, j);
      }
    }
    forall x: nat, y: nat | x < |q| && y < |q|
      ensures Root(q, x) == Root(q, y) <==> Connected(more, x, y)
    {
      if Connected(more, x, y) {
        var c :| IsChain(more, c) && c[0] == x && c[|c| - 1] == y;
        ChainStaysInClass(q, more, c);
      }
      if Root(q, x) == Root(q, y) {
        MergedAreConnected(p, edges, a, b, x, y);
      }
    }
  }

  lemma MergedAreConnected(p: seq<nat>, edges: set<(nat, nat)>, a: nat, b: nat, x: nat, y: nat)
    requires Descending(p) && a < |p| && b < |p| && x < |p| && y < |p|
    requires Components(p, edges)
    requires MergedRoot(p, Root(p, a), Root(p, b), x) == MergedRoot(p, Root(p, a), Root(p, b), y)
    ensures Connected(edges + {(a, b)}, x, y)
  {
    var more := edges + {(a, b)};
    if Root(p, x) == Root(p, y) {
      ConnectedMore(edges, more, x, y);
    } else if Root(p, x) == Root(p, a) && Root(p, y) == Root(p, b) {
      ConnectedMore(edges, more, x, a);
      ConnectedMore(edges, more, b, y);
      ConnectedJoin(more, x, a, b, y);
    } else {
      ConnectedMore(edges, more, x, b);
      ConnectedMore(edges, more, a, y);
      ConnectedJoin(more, x, b, a, y);
    }
  }

  // ---------- Clustering ----------

  /** The relation clustering is meant to realise on input positions. */
  ghost function SameCluster(stops: seq<Stop>, near: NearTest): (nat, nat) -> bool {
    (x: nat, y: nat) => Connected(NearPairs(stops, near), x, y)
  }

  /** positions is the clustering of the stops: the connected components of the near pairs,
    * clusters ordered by smallest input position and each in input order. */
  ghost predicate IsClustering(positions: seq<seq<nat>>, stops: seq<Stop>, near: NearTest) {
    IsGrouping(positions, |stops|, SameCluster(stops, near))
  }

  lemma PairOrder(stops: seq<Stop>, near: NearTest, i: nat, j: nat)
    ensures PairsBefore(stops, near, 0, 1) == {}
    ensures i < |stops| ==> PairsBefore(stops, near, i, |stops|) == PairsBefore(stops, near, i + 1, i + 2)
    ensures PairsBefore(stops, near, |stops|, |stops| + 1) == NearPairs(stops, near)
    ensures i < j < |stops| ==>
      PairsBefore(stops, near, i, j + 1) == PairsBefore(stops, near, i, j) + if near(stops[i], stops[j])
        then {(i, j)} else {}
  {
  }

  lemma NextPair(p: seq<nat>, q: seq<nat>, stops: seq<Stop>, near: NearTest, i: nat, j: nat)
    requires Descending(p) && Descending(q) && |p| == |q| == |stops| && i < j < |stops|
    requires Components(p, PairsBefore(stops, near, i, j))
    requires if near(stops[i], stops[j])
      then forall y: nat :: y < |q| ==> Root(q, y) == MergedRoot(p, Root(p, i), Root(p, j), y)
      else p == q
    ensures Components(q, PairsBefore(stops, near, i, j + 1))
  {
    PairOrder(stops, near, i, j);
    if near(stops[i], stops[j]) {
      UnionAddsEdge(p, q, PairsBefore(stops, near, i, j), i, j);
    } else {
      assert PairsBefore(stops, near, i, j + 1) == PairsBefore(stops, near, i, j);
    }
  }

  method UnitePair(stops: seq<Stop>, near: NearTest, uf: UnionFind, i: nat, j: nat)
    requires uf.Valid() && uf.parent.Length == |stops| && i < j < |stops|
    requires Components(uf.parent[..], PairsBefore(stops, near, i, j))
    modifies uf.parent
    ensures uf.Valid() && Components(uf.parent[..], PairsBefore(stops, near, i, j + 1))
  {
    ghost var before := uf.parent[..];
    if near(stops[i], stops[j]) {
      uf.Union(i, j);
      ghost var after := uf.parent[..];
      assert forall y: nat :: y < |stops| ==> uf.RootOf(y) == Root(after, y);
      NextPair(before, after, stops, near, i, j);
    } else {
      NextPair(before, before, stops, near, i, j);
    }
  }

  method UniteRow(stops: seq<Stop>, near: NearTest, uf: UnionFind, i: nat)
    requires uf.Valid() && uf.parent.Length == |stops| && i < |stops|
    requires Components(uf.parent[..], PairsBefore(stops, near, i, i + 1))
    modifies uf.parent
    ensures uf.Valid() && Components(uf.parent[..], PairsBefore(stops, near, i, |stops|))
  {
    for j := i + 1 to |stops|
      invariant uf.Valid() && Components(uf.parent[..], PairsBefore(stops, near, i, j))
    {
      UnitePair(stops, near, uf, i, j);
    }
  }

  method UniteNearPairs(stops: seq<Stop>, near: NearTest) returns (uf: UnionFind)
    ensures fresh(uf) && fresh(uf.parent) && uf.Valid() && uf.parent.Length == |stops|
    ensures Components(uf.parent[..], NearPairs(stops, near))
  {
    uf := new UnionFind(|stops|);
    assert forall x: nat :: x < |stops| ==> uf.RootOf(x) == Root(uf.parent[..], x);
    NoEdgesNoChains(uf.parent[..]);
    PairOrder(stops, near, 0, 0);
    for i := 0 to |stops|
      invariant uf.Valid() && fresh(uf.parent) && Components(uf.parent[..], PairsBefore(stops, near, i, i + 1))
    {
      UniteRow(stops, near, uf, i);
      PairOrder(stops, near, i, 0);
    }
  }

  /** The keys by which stops are grouped: each position's root. */
  ghost function Roots(p: seq<nat>): (r: seq<nat>)
    requires Descending(p)
    ensures |r| == |p|
  {
    seq(|p|, x requires 0 <= x < |p| => Root(p, x))
  }

  lemma RootGroupsAreClustering(p: seq<nat>, stops: seq<Stop>, near: NearTest)
    requires Descending(p) && |p| == |stops| && Components(p, NearPairs(stops, near))
    ensures IsClustering(Groups(Roots(p)), stops, near)
  {
    forall x: nat, y: nat | x < |p| && y < |p|
      ensures SameCluster(stops, near)(x, y) <==> Roots(p)[x] == Roots(p)[y]
    {
      assert Root(p, x) == Root(p, y) <==> Connected(NearPairs(stops, near), x, y);
    }
    GroupsFormGrouping(Roots(p), SameCluster(stops, near));
  }

  /** The dictionary pass: stops collected by root, in order of first appearance. */
  method GroupByRoot(stops: seq<Stop>, uf: UnionFind) returns (result: seq<seq<Stop>>)
    requires uf.Valid() && uf.parent.Length == |stops|
    modifies uf.parent
    ensures result == ItemsAt(stops, Groups(Roots(old(uf.parent[..]))))
  {
    var n := |stops|;
    ghost var p := uf.parent[..];
    ghost var keys := Roots(p);
    var clusters: map<nat, seq<Stop>> := map[];
    var order: seq<nat> := [];
    for idx := 0 to n
      invariant uf.Valid() && SameRoots(p, uf.parent[..])
      invariant Collected(clusters, order, keys[..idx], stops)
    {
      var root := uf.Find(idx);
      assert keys[..idx + 1] == keys[..idx] + [root];
      CollectNext(clusters, order, keys[..idx], stops, root);
      if root !in clusters {
        clusters := clusters[root := []];
        order := order + [root];
      }
      clusters := clusters[root := clusters[root] + [stops[idx]]];
    }
    assert keys[..n] == keys;
    CollectedInOrder(clusters, order, keys, stops);
    result := InOrder(clusters, order);
  }

  /** clusters are the stops at the given positions, and those are the clustering of the stops. */
  ghost predicate ListsClusters(clusters: seq<seq<Stop>>, positions: seq<seq<nat>>, stops: seq<Stop>, near: NearTest) {
    && IsClustering(positions, stops, near)
    && (forall g, k :: 0 <= g < |positions| && 0 <= k < |positions[g]| ==> positions[g][k] < |stops|)
    && clusters == ItemsAt(stops, positions)
  }

  ghost predicate AreClusters(clusters: seq<seq<Stop>>, stops: seq<Stop>, near: NearTest) {
    exists positions :: ListsClusters(clusters, positions, stops, near)
  }

  /** Two stops share a cluster iff a chain of near pairs joins them. */
  method ClusterStops(stops: seq<Stop>, near: NearTest) returns (result: seq<seq<Stop>>)
    ensures AreClusters(result, stops, near)
  {
    var uf := UniteNearPairs(stops, near);
    ghost var positions := Groups(Roots(uf.parent[..]));
    RootGroupsAreClustering(uf.parent[..], stops, near);
    result := GroupByRoot(stops, uf);
    assert ListsClusters(result, positions, stops, near);
  }
}
