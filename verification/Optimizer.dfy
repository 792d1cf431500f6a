/** Cluster co-located stops, then visit the clusters in the order a tour oracle returns. */
module Optimizer {
  import opened Sequences
  import opened Grouping
  import opened Clustering

  datatype Plan = Plan(sequence: seq<string>, groups: seq<seq<string>>)

  datatype Outcome = Optimized(plan: Plan) | StopCountError(count: nat)

  type Coordinate = (real, real)

  /** The tour solver: origin and nodes to visiting order. */
  type Tour = (Coordinate, seq<Coordinate>) -> seq<nat>

  ghost predicate ReturnsOrders(tour: Tour) {
    forall origin, nodes :: IsPermutation(tour(origin, nodes), |nodes|)
  }

  function DeliveryIds(stops: seq<Stop>): (r: seq<string>)
    ensures |r| == |stops|
  {
    seq(|stops|, i requires 0 <= i < |stops| => stops[i].deliveryId)
  }

  function SumOf(stops: seq<Stop>): Coordinate {
    if stops == [] then (0.0, 0.0)
    else var s := SumOf(stops[..|stops| - 1]); (s.0 + stops[|stops| - 1].lat, s.1 + stops[|stops| - 1].lng)
  }

  function Centroid(cluster: seq<Stop>): Coordinate
    requires cluster != []
  {
    var s := SumOf(cluster);
    (s.0 / |cluster| as real, s.1 / |cluster| as real)
  }

  function Centroids(clusters: seq<seq<Stop>>): seq<Coordinate>
    requires forall i :: 0 <= i < |clusters| ==> clusters[i] != []
  {
    seq(|clusters|, i requires 0 <= i < |clusters| => Centroid(clusters[i]))
  }

  // ---------- Representative nodes ----------

  /** The sum of the members' signed distances from c, north and east. */
  function Imbalance(cluster: seq<Stop>, c: Coordinate): Coordinate {
    if cluster == [] then (0.0, 0.0)
    else
      var before, s := Imbalance(cluster[..|cluster| - 1], c), cluster[|cluster| - 1];
      (before.0 + (s.lat - c.0), before.1 + (s.lng - c.1))
  }

  /** c is the balance point of the cluster: its members' deviations cancel in both coordinates. */
  ghost predicate Balances(c: Coordinate, cluster: seq<Stop>) {
    Imbalance(cluster, c) == (0.0, 0.0)
  }

  lemma {:induction false} ImbalanceIsSum(cluster: seq<Stop>, c: Coordinate)
    ensures Imbalance(cluster, c).0 == SumOf(cluster).0 - |cluster| as real * c.0
    ensures Imbalance(cluster, c).1 == SumOf(cluster).1 - |cluster| as real * c.1
  {
    if cluster != [] {
      ImbalanceIsSum(cluster[..|cluster| - 1], c);
    }
  }

  lemma CentroidBalances(cluster: seq<Stop>)
    requires cluster != []
    ensures Balances(Centroid(cluster), cluster)
  {
    var c := Centroid(cluster);
    ImbalanceIsSum(cluster, c);
    assert |cluster| as real * c.0 == SumOf(cluster).0 && |cluster| as real * c.1 == SumOf(cluster).1;
  }

  lemma {:induction false} ImbalanceShifts(cluster: seq<Stop>, c: Coordinate, d: Coordinate)
    ensures Imbalance(cluster, c).0 - Imbalance(cluster, d).0 == |cluster| as real * (d.0 - c.0)
    ensures Imbalance(cluster, c).1 - Imbalance(cluster, d).1 == |cluster| as real * (d.1 - c.1)
  {
    if cluster != [] {
      ImbalanceShifts(cluster[..|cluster| - 1], c, d);
    }
  }

  /** A cluster has only one balance point. */
  lemma BalanceIsUnique(cluster: seq<Stop>, c: Coordinate, d: Coordinate)
    requires cluster != [] && Balances(c, cluster) && Balances(d, cluster)
    ensures c == d
  {
    ImbalanceShifts(cluster, c, d);
    Cancel(|cluster| as real, d.0 - c.0);
    Cancel(|cluster| as real, d.1 - c.1);
  }

  lemma Cancel(n: real, x: real)
    requires n > 0.0 && n * x == 0.0
    ensures x == 0.0
  {
  }

  /** What a member adds to the imbalance can be taken out anywhere. */
  lemma {:induction false} ImbalanceWithout(cluster: seq<Stop>, c: Coordinate, i: nat)
    requires i < |cluster|
    ensures var rest := Imbalance(cluster[..i] + cluster[i + 1..], c);
      Imbalance(cluster, c) == (rest.0 + (cluster[i].lat - c.0), rest.1 + (cluster[i].lng - c.1))
  {
    var n := |cluster| - 1;
    if i == n {
      assert cluster[..i] + cluster[i + 1..] == cluster[..n];
    } else {
      ImbalanceWithout(cluster[..n], c, i);
      var rest := cluster[..i] + cluster[i + 1..];
      assert rest[..n - 1] == cluster[..n][..i] + cluster[..n][i + 1..];
      assert rest[n - 1] == cluster[n];
    }
  }

  lemma TakeOut<T>(s: seq<T>, i: nat)
    requires i < |s|
    ensures multiset(s[..i] + s[i + 1..]) == multiset(s) - multiset{s[i]}
  {
    assert s == s[..i] + [s[i]] + s[i + 1..];
  }

  /** The balance point does not depend on the order in which members are listed. */
  lemma {:induction false} BalanceIgnoresOrder(s: seq<Stop>, t: seq<Stop>, c: Coordinate)
    requires multiset(s) == multiset(t)
    ensures Imbalance(s, c) == Imbalance(t, c) && (Balances(c, s) <==> Balances(c, t))
    decreases |s|
  {
    if s == [] {
      assert |multiset(t)| == 0;
    } else {
      var n := |s| - 1;
      assert s[n] in multiset(s) && s[n] in multiset(t);
      var i :| 0 <= i < |t| && t[i] == s[n];
      var rest := t[..i] + t[i + 1..];
      TakeOut(t, i);
      TakeOut(s, n);
      assert s[..n] + s[n + 1..] == s[..n];
      BalanceIgnoresOrder(s[..n], rest, c);
      ImbalanceWithout(t, c, i);
    }
  }

  lemma {:induction false} ImbalanceSign(cluster: seq<Stop>, c: Coordinate)
    requires cluster != []
    ensures (forall i :: 0 <= i < |cluster| ==> cluster[i].lat > c.0) ==> Imbalance(cluster, c).0 > 0.0
    ensures (forall i :: 0 <= i < |cluster| ==> cluster[i].lat < c.0) ==> Imbalance(cluster, c).0 < 0.0
    ensures (forall i :: 0 <= i < |cluster| ==> cluster[i].lng > c.1) ==> Imbalance(cluster, c).1 > 0.0
    ensures (forall i :: 0 <= i < |cluster| ==> cluster[i].lng < c.1) ==> Imbalance(cluster, c).1 < 0.0
  {
    if |cluster| > 1 {
      ImbalanceSign(cluster[..|cluster| - 1], c);
    }
  }

  /** The balance point lies in the box its members span. */
  lemma BalanceIsInBox(cluster: seq<Stop>, c: Coordinate)
    requires cluster != [] && Balances(c, cluster)
    ensures exists i, j :: 0 <= i < |cluster| && 0 <= j < |cluster| && cluster[i].lat <= c.0 <= cluster[j].lat
    ensures exists i, j :: 0 <= i < |cluster| && 0 <= j < |cluster| && cluster[i].lng <= c.1 <= cluster[j].lng
  {
    ImbalanceSign(cluster, c);
  }

  /** The order is the one the solver returns for the clusters' balance points, one per cluster. */
  ghost predicate IsTour(order: seq<nat>, tour: Tour, origin: Coordinate, stops: seq<Stop>, positions: seq<seq<nat>>)
    requires forall g, k :: 0 <= g < |positions| && 0 <= k < |positions[g]| ==> positions[g][k] < |stops|
  {
    var clusters := ItemsAt(stops, positions);
    (forall i :: 0 <= i < |clusters| ==> clusters[i] != []) &&
    exists nodes: seq<Coordinate> :: BalanceEach(nodes, clusters) && order == tour(origin, nodes)
  }

  ghost predicate BalanceEach(nodes: seq<Coordinate>, clusters: seq<seq<Stop>>) {
    |nodes| == |clusters| && forall i :: 0 <= i < |clusters| ==> Balances(nodes[i], clusters[i])
  }

  lemma CentroidsBalance(clusters: seq<seq<Stop>>)
    requires forall i :: 0 <= i < |clusters| ==> clusters[i] != []
    ensures BalanceEach(Centroids(clusters), clusters)
  {
    forall i | 0 <= i < |clusters| ensures Balances(Centroids(clusters)[i], clusters[i]) {
      CentroidBalances(clusters[i]);
    }
  }

  /** The nodes are determined, so the order is what the solver makes of the clusters. */
  lemma TourIsDetermined(order: seq<nat>, other: seq<nat>, tour: Tour, origin: Coordinate, stops: seq<Stop>,
      positions: seq<seq<nat>>)
    requires forall g, k :: 0 <= g < |positions| && 0 <= k < |positions[g]| ==> positions[g][k] < |stops|
    requires IsTour(order, tour, origin, stops, positions) && IsTour(other, tour, origin, stops, positions)
    ensures order == other
  {
    var clusters := ItemsAt(stops, positions);
    var a :| BalanceEach(a, clusters) && order == tour(origin, a);
    var b :| BalanceEach(b, clusters) && other == tour(origin, b);
    forall i | 0 <= i < |clusters| ensures a[i] == b[i] {
      BalanceIsUnique(clusters[i], a[i], b[i]);
    }
    assert a == b;
  }

  // ---------- The plan ----------

  /** The ids of the clusters in visiting order. */
  ghost function VisitedIds(stops: seq<Stop>, positions: seq<seq<nat>>, order: seq<nat>): (r: seq<seq<string>>)
    requires forall g, k :: 0 <= g < |positions| && 0 <= k < |positions[g]| ==> positions[g][k] < |stops|
    requires forall i :: 0 <= i < |order| ==> order[i] < |positions|
    ensures |r| == |order|
  {
    seq(|order|, i requires 0 <= i < |order| => Pick(DeliveryIds(stops), positions[order[i]]))
  }

  /** plan lists the clusters of the stops in some order, and their concatenation. */
  ghost predicate PlanOf(plan: Plan, stops: seq<Stop>, near: NearTest, positions: seq<seq<nat>>, order: seq<nat>) {
    && IsClustering(positions, stops, near)
    && (forall g, k :: 0 <= g < |positions| && 0 <= k < |positions[g]| ==> positions[g][k] < |stops|)
    && IsPermutation(order, |positions|)
    && plan.groups == VisitedIds(stops, positions, order)
    && plan.sequence == Flatten(plan.groups)
  }

  /** The plan lists the clusters in the order the solver returned for their balance points. */
  ghost predicate IsOptimized(plan: Plan, origin: Coordinate, stops: seq<Stop>, near: NearTest, tour: Tour) {
    exists positions, order ::
      PlanOf(plan, stops, near, positions, order) && IsTour(order, tour, origin, stops, positions)
  }

  method Optimize(origin: Coordinate, stops: seq<Stop>, near: NearTest, tour: Tour) returns (outcome: Outcome)
    requires ReturnsOrders(tour)
    ensures if 2 <= |stops| <= 50
      then outcome.Optimized? && IsOptimized(outcome.plan, origin, stops, near, tour)
      else outcome == StopCountError(|stops|)
  {
    if !(MIN_STOPS <= |stops| <= MAX_STOPS) {
      return StopCountError(|stops|);
    }
    var clusters := ClusterStops(stops, near);
    ghost var positions :| ListsClusters(clusters, positions, stops, near);
    var order := tour(origin, Centroids(clusters));
    var orderedGroups := seq(|order|, i requires 0 <= i < |order| && order[i] < |clusters| =>
      DeliveryIds(clusters[order[i]]));
    forall i | 0 <= i < |order| ensures orderedGroups[i] == VisitedIds(stops, positions, order)[i] {
      assert clusters[order[i]] == Pick(stops, positions[order[i]]);
    }
    var plan := Plan(Flatten(orderedGroups), orderedGroups);
    assert PlanOf(plan, stops, near, positions, order);
    CentroidsBalance(clusters);
    return Optimized(plan);
  }

  // ---------- What a plan contains ----------

  /** The i-th group of a plan lists exactly the deliveries of one cluster. */
  lemma GroupHolds(plan: Plan, stops: seq<Stop>, near: NearTest, positions: seq<seq<nat>>, order: seq<nat>, i: nat,
      x: nat)
    requires PlanOf(plan, stops, near, positions, order) && NoDuplicates(DeliveryIds(stops))
    requires i < |plan.groups| && x < |stops|
    ensures stops[x].deliveryId in plan.groups[i] <==> x in positions[order[i]]
  {
    var ids, at := DeliveryIds(stops), positions[order[i]];
    if x in at {
      PickElement(ids, at, x);
    }
    if ids[x] in Pick(ids, at) {
      var j :| 0 <= j < |at| && Pick(ids, at)[j] == ids[x];
      assert ids[at[j]] == ids[x];
    }
  }

  /** Every stop's id is in the group of its cluster. */
  lemma GroupOfStop(plan: Plan, stops: seq<Stop>, near: NearTest, positions: seq<seq<nat>>, order: seq<nat>, x: nat)
      returns (i: nat)
    requires PlanOf(plan, stops, near, positions, order) && NoDuplicates(DeliveryIds(stops)) && x < |stops|
    ensures i < |plan.groups| && stops[x].deliveryId in plan.groups[i]
  {
    assert Covered(positions, x);
    var g: nat :| g < |positions| && x in positions[g];
    PermutationHits(order, |positions|, g);
    i :| 0 <= i < |order| && order[i] == g;
    GroupHolds(plan, stops, near, positions, order, i, x);
  }

  lemma PermutationHits(order: seq<nat>, n: nat, g: nat)
    requires IsPermutation(order, n) && g < n
    ensures g in order
  {
    var all := Below(n);
    DistinctCount(order);
    assert Elements(order) <= all;
    if g !in order {
      assert Elements(order) <= all - {g};
      SubsetSize(Elements(order), all - {g});
    }
  }

  function Below(n: nat): (r: set<nat>)
    ensures |r| == n && forall i: nat :: i in r <==> i < n
  {
    if n == 0 then {} else Below(n - 1) + {n - 1}
  }

  lemma SubsetSize<T>(a: set<T>, b: set<T>)
    requires a <= b
    ensures |a| <= |b|
  {
    assert |b - a| == |b| - |a|;
  }

  /** The groups are non-empty, free of duplicates and pairwise disjoint. */
  lemma GroupsAreDisjoint(plan: Plan, stops: seq<Stop>, near: NearTest, positions: seq<seq<nat>>, order: seq<nat>)
    requires PlanOf(plan, stops, near, positions, order) && NoDuplicates(DeliveryIds(stops))
    ensures forall i :: 0 <= i < |plan.groups| ==> plan.groups[i] != [] && NoDuplicates(plan.groups[i])
    ensures PairwiseDisjoint(plan.groups)
  {
    var ids := DeliveryIds(stops);
    forall i | 0 <= i < |plan.groups| ensures plan.groups[i] != [] && NoDuplicates(plan.groups[i]) {
      var at := positions[order[i]];
      assert NoDuplicates(at) by {
        forall j, k | 0 <= j < k < |at| ensures at[j] != at[k] { assert Before(at[j], at[k]); }
      }
      PickNoDuplicates(ids, at);
    }
    forall i, j, id | 0 <= i < j < |plan.groups| && id in plan.groups[i] ensures id !in plan.groups[j] {
      var k :| 0 <= k < |plan.groups[i]| && plan.groups[i][k] == id;
      var x := positions[order[i]][k];
      GroupHolds(plan, stops, near, positions, order, i, x);
      GroupHolds(plan, stops, near, positions, order, j, x);
      assert order[i] != order[j];
      assert SameCluster(stops, near)(x, x);
    }
  }

  /** The sequence is a permutation of the input's delivery ids. */
  lemma SequenceCoversInput(plan: Plan, stops: seq<Stop>, near: NearTest, positions: seq<seq<nat>>, order: seq<nat>)
    requires PlanOf(plan, stops, near, positions, order) && NoDuplicates(DeliveryIds(stops))
    ensures NoDuplicates(plan.sequence) && multiset(plan.sequence) == multiset(DeliveryIds(stops))
  {
    var ids := DeliveryIds(stops);
    GroupsAreDisjoint(plan, stops, near, positions, order);
    FlattenNoDuplicates(plan.groups);
    forall id ensures id in plan.sequence <==> id in ids {
      FlattenElements(plan.groups, id);
      if InSome(plan.groups, id) {
        var i :| 0 <= i < |plan.groups| && id in plan.groups[i];
        var k :| 0 <= k < |plan.groups[i]| && plan.groups[i][k] == id;
        assert ids[positions[order[i]][k]] == id;
      }
      if id in ids {
        var x: nat :| x < |ids| && ids[x] == id;
        var i := GroupOfStop(plan, stops, near, positions, order, x);
        assert id in plan.groups[i];
      }
    }
    SameMultiset(plan.sequence, ids);
  }

  /** Two deliveries are in one group iff a chain of near pairs joins their stops. */
  lemma SameGroupIffConnected(plan: Plan, stops: seq<Stop>, near: NearTest, positions: seq<seq<nat>>,
      order: seq<nat>, x: nat, y: nat, i: nat, j: nat)
    requires PlanOf(plan, stops, near, positions, order) && NoDuplicates(DeliveryIds(stops))
    requires x < |stops| && y < |stops| && i < |plan.groups| && j < |plan.groups|
    requires stops[x].deliveryId in plan.groups[i] && stops[y].deliveryId in plan.groups[j]
    ensures i == j <==> Connected(NearPairs(stops, near), x, y)
  {
    GroupHolds(plan, stops, near, positions, order, i, x);
    GroupHolds(plan, stops, near, positions, order, j, y);
    assert order[i] == order[j] <==> SameCluster(stops, near)(x, y);
    if i < j { assert order[i] != order[j]; }
    if j < i { assert order[j] != order[i]; }
  }
}
