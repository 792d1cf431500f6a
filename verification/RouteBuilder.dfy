/** Turning an optimizer reply into route stops.
  *
  * `IsExactCover` guards the reply, `OptimizedStops` groups its sequence into stops, and
  * `BuildStops` chooses between it and the assigned order. `StopsOf` says what the grouping
  * loop computes; the lemmas say what that means for the assignment's deliveries.
  */
module RouteBuilder {
  import opened Sequences
  import opened Grouping

  const OPTIMIZE_MIN_STOPS := 2
  const OPTIMIZE_MAX_STOPS := 50

  datatype RoutableDelivery = RoutableDelivery(id: string, lat: real, lng: real)

  datatype RouteStop = RouteStop(stopIndex: nat, deliveryIds: seq<string>, lat: real, lng: real)

  /** What came back from the optimizer; a missing origin, an error and a timeout all fail. */
  datatype Reply = Failed | Reply(sequence: seq<string>, groups: Option<seq<seq<string>>>)

  datatype BuiltRoute = BuiltRoute(stops: seq<RouteStop>, optimized: bool, overLimit: bool)

  function Ids(deliveries: seq<RoutableDelivery>): (r: seq<string>)
    ensures |r| == |deliveries|
  {
    seq(|deliveries|, i requires 0 <= i < |deliveries| => deliveries[i].id)
  }

  function IdLists(stops: seq<RouteStop>): (r: seq<seq<string>>)
    ensures |r| == |stops|
  {
    seq(|stops|, i requires 0 <= i < |stops| => stops[i].deliveryIds)
  }

  // ---------- Exact cover ----------

  /** Both lists are free of duplicates and each is a permutation of the other. */
  ghost predicate ExactCover(sequence: seq<string>, expected: seq<string>) {
    NoDuplicates(sequence) && NoDuplicates(expected) && multiset(sequence) == multiset(expected)
  }

  method IsExactCover(sequence: seq<string>, expectedIds: seq<string>) returns (ok: bool)
    ensures ok <==> ExactCover(sequence, expectedIds)
  {
    if |sequence| != |expectedIds| {
      assert |multiset(sequence)| == |sequence| && |multiset(expectedIds)| == |expectedIds|;
      return false;
    }
    var expected := Elements(expectedIds);
    var seen: set<string> := {};
    for i := 0 to |sequence|
      invariant seen == Elements(sequence[..i]) && seen <= expected && NoDuplicates(sequence[..i])
    {
      var id := sequence[i];
      if id !in expected {
        assert id in multiset(sequence) && id !in multiset(expectedIds);
        return false;
      }
      if id in seen {
        var k :| 0 <= k < i && sequence[..i][k] == id;
        assert sequence[k] == sequence[i];
        return false;
      }
      seen := seen + {id};
      assert sequence[..i + 1] == sequence[..i] + [id];
      AppendNoDuplicates(sequence[..i], [id]);
    }
    assert sequence[..|sequence|] == sequence;
    CoverByCounting(sequence, expectedIds);
    return |seen| == |expected|;
  }

  lemma CoverByCounting(sequence: seq<string>, expected: seq<string>)
    requires |sequence| == |expected| && NoDuplicates(sequence) && Elements(sequence) <= Elements(expected)
    ensures |Elements(sequence)| == |Elements(expected)| <==> ExactCover(sequence, expected)
  {
    DistinctCount(sequence);
    DistinctCount(expected);
    if |Elements(sequence)| == |Elements(expected)| {
      EqualBySize(Elements(sequence), Elements(expected));
      assert forall x :: x in sequence <==> x in Elements(sequence);
      assert forall x :: x in expected <==> x in Elements(expected);
      SameMultiset(sequence, expected);
    }
  }

  lemma EqualBySize<T>(a: set<T>, b: set<T>)
    requires a <= b && |a| == |b|
    ensures a == b
  {
    assert |b - a| == |b| - |a|;
  }

  // ---------- Assigned order ----------

  function AssignedOrderStops(deliveries: seq<RoutableDelivery>): (r: seq<RouteStop>)
    ensures |r| == |deliveries|
  {
    seq(|deliveries|, i requires 0 <= i < |deliveries| =>
      RouteStop(i, [deliveries[i].id], deliveries[i].lat, deliveries[i].lng))
  }

  // ---------- The dictionaries of the grouping loop ----------

  /** Deliveries by id; a later delivery replaces an earlier one with the same id. */
  function ById(deliveries: seq<RoutableDelivery>): (m: map<string, RoutableDelivery>)
    ensures forall id :: id in m <==> id in Ids(deliveries)
    ensures forall id :: id in m ==> m[id] in deliveries && m[id].id == id
  {
    if deliveries == [] then map[]
    else
      var n := |deliveries| - 1;
      assert Ids(deliveries) == Ids(deliveries[..n]) + [deliveries[n].id];
      ById(deliveries[..n])[deliveries[n].id := deliveries[n]]
  }

  /** The delivery found under an id is the last one with it. */
  lemma {:induction false} ByIdIsLast(deliveries: seq<RoutableDelivery>, i: nat)
    requires i < |deliveries| && forall j :: i < j < |deliveries| ==> deliveries[j].id != deliveries[i].id
    ensures deliveries[i].id in ById(deliveries) && ById(deliveries)[deliveries[i].id] == deliveries[i]
  {
    if i < |deliveries| - 1 {
      ByIdIsLast(deliveries[..|deliveries| - 1], i);
    }
  }

  function Known(ids: seq<string>, known: set<string>): seq<string> {
    if ids == [] then []
    else Known(ids[..|ids| - 1], known) + if ids[|ids| - 1] in known then [ids[|ids| - 1]] else []
  }

  function SetAll(m: map<string, string>, ids: seq<string>, key: string): map<string, string> {
    m + map id | id in ids :: key
  }

  /** Group key of every grouped id: the first known member of the last group naming it. */
  function GroupKeys(groups: seq<seq<string>>, known: set<string>): map<string, string> {
    if groups == [] then map[]
    else
      var before := GroupKeys(groups[..|groups| - 1], known);
      var members := Known(groups[|groups| - 1], known);
      if members == [] then before else SetAll(before, members, members[0])
  }

  function KeyOf(keys: map<string, string>, id: string): string {
    if id in keys then keys[id] else id
  }

  function KeysFor(keys: map<string, string>, ids: seq<string>): (r: seq<string>)
    ensures |r| == |ids|
  {
    seq(|ids|, i requires 0 <= i < |ids| => KeyOf(keys, ids[i]))
  }

  /** k is the first known member of the group. */
  ghost predicate IsFirstKnown(group: seq<string>, known: set<string>, k: string) {
    exists i :: 0 <= i < |group| && group[i] == k && k in known && forall j :: 0 <= j < i ==> group[j] !in known
  }

  lemma {:induction false} KnownHead(group: seq<string>, known: set<string>, members: seq<string>)
    requires members == Known(group, known) && members != []
    ensures IsFirstKnown(group, known, members[0])
  {
    var n := |group| - 1;
    var init := group[..n];
    var before := Known(init, known);
    if before != [] {
      KnownHead(init, known, before);
      var i :| 0 <= i < n && init[i] == before[0] && before[0] in known && forall j :: 0 <= j < i ==> init[j] !in known;
      assert group[i] == before[0] && forall j :: 0 <= j < i ==> group[j] !in known;
    } else {
      KnownElements(init, known, before);
      assert group[n] == members[0];
      forall j | 0 <= j < n ensures group[j] !in known {
        assert group[j] in init;
      }
    }
  }

  /** Overlapping groups included: a grouped known id's key is the first known member of the last
    * group naming it. */
  lemma {:induction false} KeyIsOfLastGroup(groups: seq<seq<string>>, known: set<string>, g: nat, id: string)
    requires g < |groups| && id in known && id in groups[g]
    requires forall h :: g < h < |groups| ==> id !in groups[h]
    ensures id in GroupKeys(groups, known) && IsFirstKnown(groups[g], known, GroupKeys(groups, known)[id])
  {
    var n := |groups| - 1;
    var last := groups[n];
    var members := Known(last, known);
    KnownElements(last, known, members);
    if g == n {
      KnownHead(last, known, members);
    } else {
      assert id !in last;
      KeyIsOfLastGroup(groups[..n], known, g, id);
    }
  }

  /** No other id has a key. */
  lemma {:induction false} UngroupedHasNoKey(groups: seq<seq<string>>, known: set<string>, id: string)
    requires id !in known || forall g :: 0 <= g < |groups| ==> id !in groups[g]
    ensures id !in GroupKeys(groups, known)
  {
    if groups != [] {
      var n := |groups| - 1;
      KnownElements(groups[n], known, Known(groups[n], known));
      UngroupedHasNoKey(groups[..n], known, id);
    }
  }

  // ---------- What the grouping loop computes ----------

  /** Known ids in order of first appearance, grouped by key; one stop per key, placed at the
    * destination of its first delivery. */
  ghost function StopsFor(ids: seq<string>, keys: map<string, string>,
      byId: map<string, RoutableDelivery>): (r: seq<RouteStop>)
    requires forall id :: id in ids ==> id in byId
    ensures |r| == |FirstKeys(KeysFor(keys, ids))|
  {
    StopsAtEach(ids, Groups(KeysFor(keys, ids)), byId)
  }

  ghost function StopsAtEach(ids: seq<string>, groups: seq<seq<nat>>,
      byId: map<string, RoutableDelivery>): (r: seq<RouteStop>)
    requires forall g, k :: 0 <= g < |groups| && 0 <= k < |groups[g]| ==> groups[g][k] < |ids|
    ensures |r| == |groups|
  {
    seq(|groups|, g requires 0 <= g < |groups| => StopAt(g, Pick(ids, groups[g]), byId))
  }

  ghost function StopAt(index: nat, ids: seq<string>, byId: map<string, RoutableDelivery>): RouteStop {
    if ids != [] && ids[0] in byId then RouteStop(index, ids, byId[ids[0]].lat, byId[ids[0]].lng)
    else RouteStop(index, ids, 0.0, 0.0)
  }

  ghost function StopsOf(sequence: seq<string>, groups: seq<seq<string>>,
      deliveries: seq<RoutableDelivery>): seq<RouteStop> {
    var byId := ById(deliveries);
    var ids := FirstKeys(Known(sequence, byId.Keys));
    KnownFirst(sequence, byId.Keys, ids);
    StopsFor(ids, GroupKeys(groups, byId.Keys), byId)
  }

  lemma {:induction false} KnownElements(ids: seq<string>, known: set<string>, r: seq<string>)
    requires r == Known(ids, known)
    ensures forall id :: id in r <==> id in ids && id in known
  {
    if ids != [] {
      var init := ids[..|ids| - 1];
      KnownElements(init, known, Known(init, known));
      assert ids == init + [ids[|ids| - 1]];
    }
  }

  lemma KnownFirst(sequence: seq<string>, known: set<string>, ids: seq<string>)
    requires ids == FirstKeys(Known(sequence, known))
    ensures NoDuplicates(ids) && forall id :: id in ids <==> id in sequence && id in known
  {
    KnownElements(sequence, known, Known(sequence, known));
    FirstKeysAreTheKeys(Known(sequence, known), ids);
  }

  // ---------- The loop computes it ----------

  /** The loop's stop list and its dictionary from key to stop. */
  ghost predicate Built(stops: seq<RouteStop>, stopByKey: map<string, nat>, ids: seq<string>,
      keys: map<string, string>, byId: map<string, RoutableDelivery>)
  {
    && (forall id :: id in ids ==> id in byId)
    && stops == StopsFor(ids, keys, byId)
    && (forall k :: k in stopByKey <==> k in FirstKeys(KeysFor(keys, ids)))
    && (forall k :: k in stopByKey ==> stopByKey[k] < |stops| && FirstKeys(KeysFor(keys, ids))[stopByKey[k]] == k)
  }

  /** An id is already placed iff the stop of its key lists it. */
  lemma PlacedIffListed(stops: seq<RouteStop>, stopByKey: map<string, nat>, ids: seq<string>,
      keys: map<string, string>, byId: map<string, RoutableDelivery>, id: string)
    requires Built(stops, stopByKey, ids, keys, byId)
    ensures id in ids <==> KeyOf(keys, id) in stopByKey && id in stops[stopByKey[KeyOf(keys, id)]].deliveryIds
  {
    var ks, k := KeysFor(keys, ids), KeyOf(keys, id);
    var m := Members(ks, k);
    MembersAreThePositions(ks, k, m);
    FirstKeysAreTheKeys(ks, FirstKeys(ks));
    if id in ids {
      var i :| 0 <= i < |ids| && ids[i] == id;
      assert ks[i] == k && i in m;
      assert k in ks;
      PickElement(ids, m, i);
    }
    if k in stopByKey && id in stops[stopByKey[k]].deliveryIds {
      var j :| 0 <= j < |m| && Pick(ids, m)[j] == id;
      assert ids[m[j]] == id;
    }
  }

  /** An id whose key already has stop g is added to that stop's list. */
  lemma StopsForKnown(ids: seq<string>, keys: map<string, string>, byId: map<string, RoutableDelivery>, id: string,
      g: nat)
    requires (forall i :: i in ids ==> i in byId) && id in byId
    requires g < |FirstKeys(KeysFor(keys, ids))| && FirstKeys(KeysFor(keys, ids))[g] == KeyOf(keys, id)
    ensures FirstKeys(KeysFor(keys, ids + [id])) == FirstKeys(KeysFor(keys, ids))
    ensures var before := StopsFor(ids, keys, byId);
      StopsFor(ids + [id], keys, byId) == before[g := before[g].(deliveryIds := before[g].deliveryIds + [id])]
  {
    var ks, k := KeysFor(keys, ids), KeyOf(keys, id);
    assert KeysFor(keys, ids + [id]) == ks + [k];
    GroupsKnown(ks, k, g);
    GroupIsKeyClass(ks, g);
    EachStopKnown(ids, id, Groups(ks), g, byId);
  }

  lemma EachStopKnown(ids: seq<string>, id: string, groups: seq<seq<nat>>, g: nat, byId: map<string, RoutableDelivery>)
    requires forall h, k :: 0 <= h < |groups| && 0 <= k < |groups[h]| ==> groups[h][k] < |ids|
    requires g < |groups| && groups[g] != []
    ensures var before := StopsAtEach(ids, groups, byId);
      StopsAtEach(ids + [id], groups[g := groups[g] + [|ids|]], byId)
        == before[g := before[g].(deliveryIds := before[g].deliveryIds + [id])]
  {
    var before := StopsAtEach(ids, groups, byId);
    var a := StopsAtEach(ids + [id], groups[g := groups[g] + [|ids|]], byId);
    forall h: nat | h < |groups|
      ensures a[h] == if h == g then before[g].(deliveryIds := before[g].deliveryIds + [id]) else before[h]
    {
      PickPrefix(ids, id, groups[h]);
      if h == g {
        PickAppend(ids + [id], groups[g], |ids|);
      }
    }
  }

  lemma PlaceKnown(stops: seq<RouteStop>, stopByKey: map<string, nat>, ids: seq<string>, keys: map<string, string>,
      byId: map<string, RoutableDelivery>, id: string)
    requires Built(stops, stopByKey, ids, keys, byId) && id in byId && KeyOf(keys, id) in stopByKey
    ensures var g := stopByKey[KeyOf(keys, id)];
      Built(stops[g := stops[g].(deliveryIds := stops[g].deliveryIds + [id])], stopByKey, ids + [id], keys, byId)
  {
    StopsForKnown(ids, keys, byId, id, stopByKey[KeyOf(keys, id)]);
  }

  lemma StopsForNew(ids: seq<string>, keys: map<string, string>, byId: map<string, RoutableDelivery>, id: string)
    requires (forall i :: i in ids ==> i in byId) && id in byId && KeyOf(keys, id) !in FirstKeys(KeysFor(keys, ids))
    ensures FirstKeys(KeysFor(keys, ids + [id])) == FirstKeys(KeysFor(keys, ids)) + [KeyOf(keys, id)]
    ensures StopsFor(ids + [id], keys, byId)
      == StopsFor(ids, keys, byId) + [RouteStop(|StopsFor(ids, keys, byId)|, [id], byId[id].lat, byId[id].lng)]
  {
    var ks, k := KeysFor(keys, ids), KeyOf(keys, id);
    assert KeysFor(keys, ids + [id]) == ks + [k];
    GroupsNew(ks, k);
    EachStopNew(ids, id, Groups(ks), byId);
  }

  lemma EachStopNew(ids: seq<string>, id: string, groups: seq<seq<nat>>, byId: map<string, RoutableDelivery>)
    requires forall h, k :: 0 <= h < |groups| && 0 <= k < |groups[h]| ==> groups[h][k] < |ids|
    requires id in byId
    ensures StopsAtEach(ids + [id], groups + [[|ids|]], byId)
      == StopsAtEach(ids, groups, byId) + [RouteStop(|groups|, [id], byId[id].lat, byId[id].lng)]
  {
    var a := StopsAtEach(ids + [id], groups + [[|ids|]], byId);
    var b := StopsAtEach(ids, groups, byId) + [RouteStop(|groups|, [id], byId[id].lat, byId[id].lng)];
    forall h: nat | h < |a| ensures a[h] == b[h] {
      if h < |groups| {
        PickPrefix(ids, id, groups[h]);
      } else {
        assert Pick(ids + [id], [|ids|]) == [id];
      }
    }
  }

  lemma PlaceNew(stops: seq<RouteStop>, stopByKey: map<string, nat>, ids: seq<string>, keys: map<string, string>,
      byId: map<string, RoutableDelivery>, id: string)
    requires Built(stops, stopByKey, ids, keys, byId) && id in byId && KeyOf(keys, id) !in stopByKey
    ensures Built(stops + [RouteStop(|stops|, [id], byId[id].lat, byId[id].lng)],
      stopByKey[KeyOf(keys, id) := |stops|], ids + [id], keys, byId)
  {
    StopsForNew(ids, keys, byId, id);
  }

  lemma PickPrefix(ids: seq<string>, id: string, at: seq<nat>)
    requires forall k :: 0 <= k < |at| ==> at[k] < |ids|
    ensures Pick(ids + [id], at) == Pick(ids, at)
  {
  }

  lemma NextKnown(sequence: seq<string>, i: nat, known: set<string>)
    requires i < |sequence|
    ensures var before, after := FirstKeys(Known(sequence[..i], known)), FirstKeys(Known(sequence[..i + 1], known));
      after == if sequence[i] in known && sequence[i] !in before then before + [sequence[i]] else before
  {
    assert sequence[..i + 1][..i] == sequence[..i];
    var k := Known(sequence[..i], known);
    if sequence[i] in known {
      AppendKey(k, sequence[i], sequence[i]);
    } else {
      assert k + [] == k;
    }
  }

  lemma SetOneMore(m: map<string, string>, ids: seq<string>, id: string, key: string)
    ensures SetAll(m, ids + [id], key) == SetAll(m, ids, key)[id := key]
  {
  }

  method SetKeys(m: map<string, string>, ids: seq<string>, key: string) returns (r: map<string, string>)
    ensures r == SetAll(m, ids, key)
  {
    r := m;
    for j := 0 to |ids|
      invariant r == SetAll(m, ids[..j], key)
    {
      SetOneMore(m, ids[..j], ids[j], key);
      assert ids[..j + 1] == ids[..j] + [ids[j]];
      r := r[ids[j] := key];
    }
    assert ids[..|ids|] == ids;
  }

  method GroupKeyMap(groups: seq<seq<string>>, known: set<string>) returns (groupKeyOf: map<string, string>)
    ensures groupKeyOf == GroupKeys(groups, known)
  {
    groupKeyOf := map[];
    for g := 0 to |groups|
      invariant groupKeyOf == GroupKeys(groups[..g], known)
    {
      assert groups[..g + 1][..g] == groups[..g];
      var members := Known(groups[g], known);
      if |members| == 0 {
        continue;
      }
      groupKeyOf := SetKeys(groupKeyOf, members, members[0]);
    }
    assert groups[..|groups|] == groups;
  }

  method OptimizedStops(sequence: seq<string>, groups: seq<seq<string>>, deliveries: seq<RoutableDelivery>)
      returns (stops: seq<RouteStop>)
    ensures stops == StopsOf(sequence, groups, deliveries)
  {
    var byId := ById(deliveries);
    var groupKeyOf := GroupKeyMap(groups, byId.Keys);
    var stopByKey: map<string, nat> := map[];
    stops := [];
    ghost var ids := [];
    for i := 0 to |sequence|
      invariant ids == FirstKeys(Known(sequence[..i], byId.Keys))
      invariant Built(stops, stopByKey, ids, groupKeyOf, byId)
    {
      NextKnown(sequence, i, byId.Keys);
      var id := sequence[i];
      if id !in byId {
        continue;
      }
      var delivery := byId[id];
      var key := KeyOf(groupKeyOf, id);
      PlacedIffListed(stops, stopByKey, ids, groupKeyOf, byId, id);
      if key in stopByKey {
        var existing := stopByKey[key];
        if id !in stops[existing].deliveryIds {
          PlaceKnown(stops, stopByKey, ids, groupKeyOf, byId, id);
          stops := stops[existing := stops[existing].(deliveryIds := stops[existing].deliveryIds + [id])];
          ids := ids + [id];
        }
        continue;
      }
      PlaceNew(stops, stopByKey, ids, groupKeyOf, byId, id);
      var stop := RouteStop(|stops|, [id], delivery.lat, delivery.lng);
      stopByKey := stopByKey[key := |stops|];
      stops := stops + [stop];
      ids := ids + [id];
    }
    assert sequence[..|sequence|] == sequence;
  }

  // ---------- What the stops mean for the deliveries ----------

  /** Every stop serves somebody, carries its position as index, and stands at the destination
    * of its first delivery. */
  ghost predicate WellFormed(stops: seq<RouteStop>, deliveries: seq<RoutableDelivery>) {
    forall g: nat :: g < |stops| ==>
      stops[g].stopIndex == g && stops[g].deliveryIds != [] && Placed(stops[g], deliveries)
  }

  ghost predicate Placed(stop: RouteStop, deliveries: seq<RoutableDelivery>) {
    && stop.deliveryIds != []
    && exists d :: d in deliveries && d.id == stop.deliveryIds[0] && d.lat == stop.lat && d.lng == stop.lng
  }

  /** The route visits each delivery of the assignment exactly as often as it is listed. */
  ghost predicate Covers(stops: seq<RouteStop>, deliveries: seq<RoutableDelivery>) {
    multiset(Flatten(IdLists(stops))) == multiset(Ids(deliveries))
  }

  /** Deliveries a and b are served at one stop. */
  ghost predicate ShareStop(stops: seq<RouteStop>, a: string, b: string) {
    exists g :: 0 <= g < |stops| && a in stops[g].deliveryIds && b in stops[g].deliveryIds
  }

  /** Each stop of the grouping lists exactly the ids with its key, in sequence order. */
  lemma StopListsItsKey(ids: seq<string>, keys: map<string, string>, byId: map<string, RoutableDelivery>, g: nat,
      id: string)
    requires forall i :: i in ids ==> i in byId
    requires g < |StopsFor(ids, keys, byId)|
    ensures id in StopsFor(ids, keys, byId)[g].deliveryIds <==>
      id in ids && KeyOf(keys, id) == FirstKeys(KeysFor(keys, ids))[g]
  {
    var ks := KeysFor(keys, ids);
    GroupIsKeyClass(ks, g);
    var group := Groups(ks)[g];
    assert StopsFor(ids, keys, byId)[g].deliveryIds == Pick(ids, group);
    if id in Pick(ids, group) {
      var j :| 0 <= j < |group| && Pick(ids, group)[j] == id;
      assert group[j] in group;
    }
    if id in ids && KeyOf(keys, id) == FirstKeys(ks)[g] {
      var i: nat :| i < |ids| && ids[i] == id;
      assert ks[i] == KeyOf(keys, id);
      PickElement(ids, group, i);
    }
  }

  /** Two ids of the sequence share a stop iff they have the same group key. */
  lemma ShareStopIffSameKey(ids: seq<string>, keys: map<string, string>, byId: map<string, RoutableDelivery>,
      a: string, b: string)
    requires (forall i :: i in ids ==> i in byId) && a in ids && b in ids
    ensures ShareStop(StopsFor(ids, keys, byId), a, b) <==> KeyOf(keys, a) == KeyOf(keys, b)
  {
    var stops := StopsFor(ids, keys, byId);
    forall g: nat, id | g < |stops|
      ensures id in stops[g].deliveryIds <==> id in ids && KeyOf(keys, id) == FirstKeys(KeysFor(keys, ids))[g]
    {
      StopListsItsKey(ids, keys, byId, g, id);
    }
    if KeyOf(keys, a) == KeyOf(keys, b) {
      var g := StopOfId(ids, keys, byId, a);
      assert b in stops[g].deliveryIds;
    }
  }

  lemma StopOfId(ids: seq<string>, keys: map<string, string>, byId: map<string, RoutableDelivery>, id: string)
      returns (g: nat)
    requires (forall i :: i in ids ==> i in byId) && id in ids
    ensures g < |StopsFor(ids, keys, byId)| && id in StopsFor(ids, keys, byId)[g].deliveryIds
  {
    var ks := KeysFor(keys, ids);
    var f := FirstKeys(ks);
    FirstKeysAreTheKeys(ks, f);
    var i: nat :| i < |ids| && ids[i] == id;
    assert ks[i] in ks && ks[i] in f;
    g :| 0 <= g < |f| && f[g] == ks[i];
    StopListsItsKey(ids, keys, byId, g, id);
  }

  /** The stops' lists, concatenated, are a permutation of the ids. */
  lemma StopsPartitionIds(ids: seq<string>, keys: map<string, string>, byId: map<string, RoutableDelivery>)
    requires (forall i :: i in ids ==> i in byId) && NoDuplicates(ids)
    ensures multiset(Flatten(IdLists(StopsFor(ids, keys, byId)))) == multiset(ids)
  {
    var stops := StopsFor(ids, keys, byId);
    var lists := IdLists(stops);
    var f := FirstKeys(KeysFor(keys, ids));
    FirstKeysAreTheKeys(KeysFor(keys, ids), f);
    forall g: nat, h: nat, id | g < h < |lists| && id in lists[g] ensures id !in lists[h] {
      StopListsItsKey(ids, keys, byId, g, id);
      StopListsItsKey(ids, keys, byId, h, id);
      assert f[g] != f[h];
    }
    forall g: nat | g < |lists| ensures NoDuplicates(lists[g]) {
      GroupIsKeyClass(KeysFor(keys, ids), g);
      PickNoDuplicates(ids, Groups(KeysFor(keys, ids))[g]);
    }
    FlattenNoDuplicates(lists);
    forall id ensures id in Flatten(lists) <==> id in ids {
      FlattenElements(lists, id);
      if InSome(lists, id) {
        var g: nat :| g < |lists| && id in lists[g];
        StopListsItsKey(ids, keys, byId, g, id);
      }
      if id in ids {
        var g := StopOfId(ids, keys, byId, id);
        assert id in lists[g];
      }
    }
    SameMultiset(Flatten(lists), ids);
  }

  lemma {:induction false} DistinctAreFirst<K(!new)>(s: seq<K>)
    requires NoDuplicates(s)
    ensures FirstKeys(s) == s
  {
    if s != [] {
      var init, k := s[..|s| - 1], s[|s| - 1];
      assert s == init + [k];
      assert forall i, j :: 0 <= i < j < |init| ==> s[i] != s[j];
      DistinctAreFirst(init);
      assert k !in init;
    }
  }

  lemma {:induction false} AllKnown(ids: seq<string>, known: set<string>)
    requires forall id :: id in ids ==> id in known
    ensures Known(ids, known) == ids
  {
    if ids != [] {
      AllKnown(ids[..|ids| - 1], known);
    }
  }

  /** For an exact cover the loop groups the sequence itself: nothing is skipped. */
  lemma ExactCoverIsGroupedWhole(sequence: seq<string>, groups: seq<seq<string>>, deliveries: seq<RoutableDelivery>)
    requires ExactCover(sequence, Ids(deliveries))
    ensures forall id :: id in sequence ==> id in ById(deliveries)
    ensures StopsOf(sequence, groups, deliveries)
      == StopsFor(sequence, GroupKeys(groups, ById(deliveries).Keys), ById(deliveries))
  {
    forall id | id in sequence ensures id in Ids(deliveries) {
      assert id in multiset(sequence);
      assert id in multiset(Ids(deliveries));
    }
    AllKnown(sequence, ById(deliveries).Keys);
    DistinctAreFirst(sequence);
  }

  /** Whatever the groups say, an exact-cover sequence yields a well-formed covering route. */
  lemma OptimizedRouteIsGood(sequence: seq<string>, groups: seq<seq<string>>, deliveries: seq<RoutableDelivery>)
    requires ExactCover(sequence, Ids(deliveries))
    ensures var stops := StopsOf(sequence, groups, deliveries);
      WellFormed(stops, deliveries) && Covers(stops, deliveries)
  {
    var byId := ById(deliveries);
    var keys := GroupKeys(groups, byId.Keys);
    ExactCoverIsGroupedWhole(sequence, groups, deliveries);
    StopsPartitionIds(sequence, keys, byId);
    var stops := StopsFor(sequence, keys, byId);
    forall g: nat | g < |stops|
      ensures stops[g].stopIndex == g && stops[g].deliveryIds != [] && Placed(stops[g], deliveries)
    {
      GroupIsKeyClass(KeysFor(keys, sequence), g);
      var first := stops[g].deliveryIds[0];
      StopListsItsKey(sequence, keys, byId, g, first);
      assert byId[first] in deliveries;
    }
  }

  lemma {:induction false} AssignedOrderCovers(deliveries: seq<RoutableDelivery>)
    ensures Flatten(IdLists(AssignedOrderStops(deliveries))) == Ids(deliveries)
  {
    if deliveries != [] {
      var n := |deliveries| - 1;
      var init := deliveries[..n];
      AssignedOrderCovers(init);
      assert IdLists(AssignedOrderStops(deliveries)) == IdLists(AssignedOrderStops(init)) + [[deliveries[n].id]];
      FlattenAppend(IdLists(AssignedOrderStops(init)), [deliveries[n].id]);
      assert Ids(deliveries) == Ids(init) + [deliveries[n].id];
    }
  }

  lemma AssignedRouteIsGood(deliveries: seq<RoutableDelivery>)
    ensures WellFormed(AssignedOrderStops(deliveries), deliveries) && Covers(AssignedOrderStops(deliveries), deliveries)
  {
    AssignedOrderCovers(deliveries);
    forall g: nat | g < |deliveries| ensures Placed(AssignedOrderStops(deliveries)[g], deliveries) {
      assert deliveries[g] in deliveries;
    }
  }

  /** The reply is used: count in range and its sequence is an exact cover. */
  ghost predicate ReplyUsed(deliveries: seq<RoutableDelivery>, reply: Reply) {
    && 2 <= |deliveries| <= 50
    && reply.Reply? && ExactCover(reply.sequence, Ids(deliveries))
  }

  /** For any reply or failure the route covers exactly the assignment's deliveries. */
  method BuildStops(routable: seq<RoutableDelivery>, reply: Reply) returns (built: BuiltRoute)
    ensures WellFormed(built.stops, routable) && Covers(built.stops, routable)
    ensures built.overLimit <==> |routable| > 50
    ensures built.optimized <==> |routable| < 2 || ReplyUsed(routable, reply)
    ensures ReplyUsed(routable, reply) ==> built.stops == StopsOf(reply.sequence, GroupsOf(reply), routable)
    ensures !ReplyUsed(routable, reply) ==> built.stops == AssignedOrderStops(routable)
  {
    AssignedRouteIsGood(routable);
    var count := |routable|;
    if count > OPTIMIZE_MAX_STOPS {
      return BuiltRoute(AssignedOrderStops(routable), false, true);
    }
    if count < OPTIMIZE_MIN_STOPS {
      return BuiltRoute(AssignedOrderStops(routable), true, false);
    }
    var expectedIds := Ids(routable);
    if reply.Reply? {
      var exact := IsExactCover(reply.sequence, expectedIds);
      if exact {
        OptimizedRouteIsGood(reply.sequence, GroupsOf(reply), routable);
        var stops := OptimizedStops(reply.sequence, GroupsOf(reply), routable);
        return BuiltRoute(stops, true, false);
      }
    }
    return BuiltRoute(AssignedOrderStops(routable), false, false);
  }

  /** Omitted groups count as none. */
  function GroupsOf(reply: Reply): seq<seq<string>>
    requires reply.Reply?
  {
    match reply.groups case None => [] case Some(groups) => groups
  }
}
