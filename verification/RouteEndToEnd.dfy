/** The optimizer service and the route builder together: the stops a driver sees are exactly
  * the optimizer's groups, and two deliveries share a stop iff near pairs connect them. */
module RouteEndToEnd {
  import opened Sequences
  import opened Grouping
  import opened Clustering
  import opened Optimizer
  import opened RouteBuilder

  /** The stops sent to the optimizer for an assignment's deliveries. */
  function Request(deliveries: seq<RoutableDelivery>): (r: seq<Stop>)
    ensures |r| == |deliveries| && DeliveryIds(r) == Ids(deliveries)
  {
    var r := seq(|deliveries|, i requires 0 <= i < |deliveries| =>
      Stop(deliveries[i].id, deliveries[i].lat, deliveries[i].lng));
    assert DeliveryIds(r) == Ids(deliveries);
    r
  }

  // ---------- Group keys of disjoint groups ----------

  /** Groups as the optimizer sends them: non-empty, disjoint, known ids only. */
  ghost predicate Tidy(groups: seq<seq<string>>, known: set<string>) {
    && PairwiseDisjoint(groups)
    && (forall g :: 0 <= g < |groups| ==> groups[g] != [])
    && (forall g, id :: 0 <= g < |groups| && id in groups[g] ==> id in known)
  }

  lemma TidyPrefix(groups: seq<seq<string>>, known: set<string>, m: nat)
    requires Tidy(groups, known) && m <= |groups|
    ensures Tidy(groups[..m], known)
  {
    var p := groups[..m];
    forall g, h, x | 0 <= g < h < |p| && x in p[g] ensures x !in p[h] {
      assert x in groups[g];
    }
    forall g, id | 0 <= g < |p| && id in p[g] ensures id in known {
      assert id in groups[g];
    }
  }

  /** With disjoint groups the key of an id is the first member of its group. */
  lemma {:induction false} KeyIsGroupHead(groups: seq<seq<string>>, known: set<string>, g: nat, id: string)
    requires Tidy(groups, known) && g < |groups| && id in groups[g]
    ensures id in GroupKeys(groups, known) && GroupKeys(groups, known)[id] == groups[g][0]
  {
    var n := |groups| - 1;
    var last, before := groups[n], GroupKeys(groups[..n], known);
    AllKnown(last, known);
    assert GroupKeys(groups, known) == SetAll(before, last, last[0]);
    if g < n {
      TidyPrefix(groups, known, n);
      KeyIsGroupHead(groups[..n], known, g, id);
      assert id !in last;
    }
  }

  // ---------- A block of ids with one fresh key becomes one stop ----------

  lemma GrowLastStop(ids: seq<string>, keys: map<string, string>, byId: map<string, RoutableDelivery>, id: string,
      lists: seq<seq<string>>, last: seq<string>)
    requires (forall i :: i in ids ==> i in byId) && id in byId
    requires IdLists(StopsFor(ids, keys, byId)) == lists + [last]
    requires FirstKeys(KeysFor(keys, ids))[|lists|] == KeyOf(keys, id)
    ensures FirstKeys(KeysFor(keys, ids + [id])) == FirstKeys(KeysFor(keys, ids))
    ensures IdLists(StopsFor(ids + [id], keys, byId)) == lists + [last + [id]]
  {
    StopsForKnown(ids, keys, byId, id, |lists|);
    var before, after := IdLists(StopsFor(ids, keys, byId)), IdLists(StopsFor(ids + [id], keys, byId));
    assert before[|lists|] == last;
    forall h | 0 <= h < |lists| ensures after[h] == lists[h] {
      assert before[h] == lists[h];
    }
  }

  lemma NewLastStop(ids: seq<string>, keys: map<string, string>, byId: map<string, RoutableDelivery>, id: string)
    requires (forall i :: i in ids ==> i in byId) && id in byId
    requires KeyOf(keys, id) !in FirstKeys(KeysFor(keys, ids))
    ensures FirstKeys(KeysFor(keys, ids + [id])) == FirstKeys(KeysFor(keys, ids)) + [KeyOf(keys, id)]
    ensures IdLists(StopsFor(ids + [id], keys, byId)) == IdLists(StopsFor(ids, keys, byId)) + [[id]]
  {
    StopsForNew(ids, keys, byId, id);
  }

  lemma {:induction false} BlockBecomesStop(ids: seq<string>, block: seq<string>, keys: map<string, string>,
      byId: map<string, RoutableDelivery>, k: string)
    requires block != [] && forall id :: id in ids ==> id in byId
    requires forall id :: id in block ==> id in byId && KeyOf(keys, id) == k
    requires k !in FirstKeys(KeysFor(keys, ids))
    ensures forall id :: id in ids + block ==> id in byId
    ensures FirstKeys(KeysFor(keys, ids + block)) == FirstKeys(KeysFor(keys, ids)) + [k]
    ensures IdLists(StopsFor(ids + block, keys, byId)) == IdLists(StopsFor(ids, keys, byId)) + [block]
  {
    var n := |block| - 1;
    var id := block[n];
    assert id in block;
    if n == 0 {
      assert block == [id];
      NewLastStop(ids, keys, byId, id);
    } else {
      BlockBecomesStop(ids, block[..n], keys, byId, k);
      assert block == block[..n] + [id];
      assert ids + block == ids + block[..n] + [id];
      GrowLastStop(ids + block[..n], keys, byId, id, IdLists(StopsFor(ids, keys, byId)), block[..n]);
    }
  }

  /** The stops built from ids are the given groups, keyed by their heads. */
  ghost predicate StopsMatch(ids: seq<string>, groups: seq<seq<string>>, keys: map<string, string>,
      byId: map<string, RoutableDelivery>)
  {
    && (forall id :: id in ids ==> id in byId)
    && IdLists(StopsFor(ids, keys, byId)) == groups
    && |FirstKeys(KeysFor(keys, ids))| == |groups|
    && forall g :: 0 <= g < |groups| ==> groups[g] != [] && FirstKeys(KeysFor(keys, ids))[g] == groups[g][0]
  }

  lemma NextGroupMatches(ids: seq<string>, groups: seq<seq<string>>, block: seq<string>, keys: map<string, string>,
      byId: map<string, RoutableDelivery>)
    requires StopsMatch(ids, groups, keys, byId) && block != []
    requires PairwiseDisjoint(groups + [block])
    requires forall id :: id in block ==> id in byId && KeyOf(keys, id) == block[0]
    ensures StopsMatch(ids + block, groups + [block], keys, byId)
  {
    FreshHead(groups + [block], |groups| + 1, FirstKeys(KeysFor(keys, ids)));
    BlockBecomesStop(ids, block, keys, byId, block[0]);
  }

  lemma BlockKeys(groups: seq<seq<string>>, g: nat, byId: map<string, RoutableDelivery>, keys: map<string, string>)
    requires Tidy(groups, byId.Keys) && g < |groups| && keys == GroupKeys(groups, byId.Keys)
    ensures forall id :: id in groups[g] ==> id in byId && KeyOf(keys, id) == groups[g][0]
  {
    forall id | id in groups[g] ensures id in byId && KeyOf(keys, id) == groups[g][0] {
      KeyIsGroupHead(groups, byId.Keys, g, id);
    }
  }

  /** What the first m groups contribute, one more group at a time. */
  lemma FrontGrows(groups: seq<seq<string>>, m: nat, known: set<string>, before: seq<seq<string>>,
      front: seq<seq<string>>)
    requires Tidy(groups, known) && 0 < m <= |groups| && before == groups[..m - 1] && front == groups[..m]
    ensures front == before + [groups[m - 1]] && PairwiseDisjoint(front) && groups[m - 1] != []
    ensures Flatten(front) == Flatten(before) + groups[m - 1]
  {
    assert front == before + [groups[m - 1]];
    FlattenAppend(before, groups[m - 1]);
    TidyPrefix(groups, known, m);
  }

  lemma {:induction false} GroupsBecomeStops(groups: seq<seq<string>>, m: nat, keys: map<string, string>,
      byId: map<string, RoutableDelivery>, front: seq<seq<string>>, flat: seq<string>)
    requires Tidy(groups, byId.Keys) && keys == GroupKeys(groups, byId.Keys)
    requires m <= |groups| && front == groups[..m] && flat == Flatten(front)
    ensures StopsMatch(flat, front, keys, byId)
  {
    if m > 0 {
      var before := groups[..m - 1];
      var flatBefore := Flatten(before);
      GroupsBecomeStops(groups, m - 1, keys, byId, before, flatBefore);
      FrontGrows(groups, m, byId.Keys, before, front);
      BlockKeys(groups, m - 1, byId, keys);
      NextGroupMatches(flatBefore, before, groups[m - 1], keys, byId);
    } else {
      NoGroupsMatch(keys, byId);
    }
  }

  lemma NoGroupsMatch(keys: map<string, string>, byId: map<string, RoutableDelivery>)
    ensures StopsMatch([], [], keys, byId)
  {
    assert KeysFor(keys, []) == [];
  }

  lemma FreshHead(groups: seq<seq<string>>, m: nat, heads: seq<string>)
    requires 0 < m <= |groups| && PairwiseDisjoint(groups) && |heads| == m - 1
    requires forall g :: 0 <= g < m ==> groups[g] != []
    requires forall g :: 0 <= g < m - 1 ==> heads[g] == groups[g][0]
    ensures groups[m - 1][0] !in heads
  {
    forall g | 0 <= g < m - 1 ensures heads[g] != groups[m - 1][0] {
      assert groups[g][0] in groups[g] && groups[m - 1][0] in groups[m - 1];
    }
  }

  // ---------- The whole path ----------

  /** The groups of a plan are as the route builder's keys need them. */
  lemma PlanIsTidy(deliveries: seq<RoutableDelivery>, plan: Plan, near: NearTest, positions: seq<seq<nat>>,
      order: seq<nat>, known: set<string>)
    requires NoDuplicates(Ids(deliveries)) && PlanOf(plan, Request(deliveries), near, positions, order)
    requires known == ById(deliveries).Keys && multiset(plan.sequence) == multiset(Ids(deliveries))
    ensures Tidy(plan.groups, known)
  {
    GroupsAreDisjoint(plan, Request(deliveries), near, positions, order);
    forall g, id | 0 <= g < |plan.groups| && id in plan.groups[g] ensures id in known {
      FlattenElements(plan.groups, id);
      assert id in multiset(plan.sequence);
      assert id in multiset(Ids(deliveries));
    }
  }

  /** For distinct ids the optimizer's reply is accepted and its groups are the stops. */
  lemma StopsAreGroups(deliveries: seq<RoutableDelivery>, plan: Plan, near: NearTest, positions: seq<seq<nat>>,
      order: seq<nat>)
    requires NoDuplicates(Ids(deliveries))
    requires PlanOf(plan, Request(deliveries), near, positions, order)
    ensures ExactCover(plan.sequence, Ids(deliveries))
    ensures IdLists(StopsOf(plan.sequence, plan.groups, deliveries)) == plan.groups
  {
    var byId := ById(deliveries);
    SequenceCoversInput(plan, Request(deliveries), near, positions, order);
    PlanIsTidy(deliveries, plan, near, positions, order, byId.Keys);
    ExactCoverIsGroupedWhole(plan.sequence, plan.groups, deliveries);
    var keys := GroupKeys(plan.groups, byId.Keys);
    GroupsBecomeStops(plan.groups, |plan.groups|, keys, byId, plan.groups, plan.sequence);
  }

  lemma ShareStopIffConnected(deliveries: seq<RoutableDelivery>, stops: seq<RouteStop>, plan: Plan, near: NearTest,
      positions: seq<seq<nat>>, order: seq<nat>, x: nat, y: nat)
    requires NoDuplicates(Ids(deliveries)) && x < |deliveries| && y < |deliveries|
    requires PlanOf(plan, Request(deliveries), near, positions, order) && IdLists(stops) == plan.groups
    ensures ShareStop(stops, deliveries[x].id, deliveries[y].id) <==>
      Connected(NearPairs(Request(deliveries), near), x, y)
  {
    var request := Request(deliveries);
    assert forall g :: 0 <= g < |stops| ==> stops[g].deliveryIds == plan.groups[g];
    var i := GroupOfStop(plan, request, near, positions, order, x);
    var j := GroupOfStop(plan, request, near, positions, order, y);
    SameGroupIffConnected(plan, request, near, positions, order, x, y, i, j);
    if ShareStop(stops, deliveries[x].id, deliveries[y].id) {
      var g :| 0 <= g < |stops| && deliveries[x].id in stops[g].deliveryIds && deliveries[y].id in stops[g].deliveryIds;
      SameGroupIffConnected(plan, request, near, positions, order, x, y, g, g);
    }
  }

  /** Optimize and build in one go: for 2..50 deliveries with distinct ids the reply is used and
    * sharing a stop means being connected by near pairs. */
  method PlanRoute(deliveries: seq<RoutableDelivery>, origin: Coordinate, near: NearTest, tour: Tour)
      returns (built: BuiltRoute)
    requires ReturnsOrders(tour) && NoDuplicates(Ids(deliveries))
    requires 2 <= |deliveries| <= 50
    ensures built.optimized && !built.overLimit
    ensures WellFormed(built.stops, deliveries) && Covers(built.stops, deliveries)
    ensures forall x: nat, y: nat :: x < |deliveries| && y < |deliveries| ==>
      (ShareStop(built.stops, deliveries[x].id, deliveries[y].id) <==>
        Connected(NearPairs(Request(deliveries), near), x, y))
  {
    var outcome := Optimize(origin, Request(deliveries), near, tour);
    var plan := outcome.plan;
    ghost var positions, order :| PlanOf(plan, Request(deliveries), near, positions, order);
    StopsAreGroups(deliveries, plan, near, positions, order);
    built := BuildStops(deliveries, Reply(plan.sequence, Some(plan.groups)));
    forall x: nat, y: nat | x < |deliveries| && y < |deliveries|
      ensures ShareStop(built.stops, deliveries[x].id, deliveries[y].id) <==>
        Connected(NearPairs(Request(deliveries), near), x, y)
    {
      ShareStopIffConnected(deliveries, built.stops, plan, near, positions, order, x, y);
    }
  }
}
