# Fleet platform: verified models of its algorithms and state machines

This project models the parts of the fleet platform whose correctness takes more than one function to
argue, and proves what they promise over every input, every run or every interleaving. Coordinates,
distances and timestamps are reals or integers; every library call that is not the point (trigonometry, the
tour solver, senders, clocks, generated ids) is an arbitrary function or a parameter.

Code that computes a value is a function with lemmas about it. Code that updates state is a class or a
method with loops, proved to do what a specification over values says; the theorems over runs are about that
specification, so they apply to the objects.

| part | files |
|---|---|
| Polygon geometry | `Segments.dfy`, `Cycles.dfy`, `SimplePolygon.dfy`, `PointInPolygon.dfy`, `RepeatedVertices.dfy`, `FanTriangles.dfy` |
| Clustering and routes | `Sequences.dfy`, `Grouping.dfy`, `UnionFind.dfy`, `Clustering.dfy`, `Optimizer.dfy`, `RouteBuilder.dfy`, `RouteEndToEnd.dfy` |
| Streaming hub, redelivery | `HubRuns.dfy`, `HubSessions.dfy`, `Hub.dfy`, `RetryRuns.dfy`, `Retry.dfy` |
| Geofence engine, ingestion | `GeofenceRuns.dfy`, `GeofenceEngine.dfy`, `IngestRuns.dfy`, `Ingest.dfy` |
| Fleet lifecycle | `Lifecycle.dfy`, `LifecycleHistory.dfy`, `LifecycleServices.dfy` |
| Socket client, offline pings | `SocketRuns.dfy`, `SocketListeners.dfy`, `SocketSubscriptions.dfy`, `SocketClient.dfy`, `PingRuns.dfy`, `PingOrder.dfy`, `PingTransmitter.dfy` |
| Fleet simulation | `LoopWalk.dfy`, `FleetRuns.dfy`, `FleetSimulation.dfy` |

Files ending in `Runs` hold the specification over values and the theorems over runs; their partner holds
the object. `dafny verify dfyconfig.toml` checks everything.

## What the code does not guarantee

Each of these comes with the exact condition under which the property does hold, proved for all inputs, and
most with a concrete input or run on which it fails.

- The adjacent-edge overlap check misses one of two folds (`OverlapMissesTheOtherFold`); another pair of the
  loop always catches it, so the verdict is right (`ForwardFoldIsCaught`, `AcceptIffSimple`).
- A repeated vertex can make point containment depend on the start vertex, also at the engine's tolerance
  (`RepeatMattersAtTheEngineTolerance`); exactly when is `StartMattersIff`, and a repeat beside an edge of at
  most one unit is harmless (`ShortEdgesMakeStartIrrelevant`).
- Reusing a connection id can leave a stale room entry (`ConnectKeepsIndexIff`, over runs `AlwaysIndexedIff`).
- Two connections on one session diverge (`TwoConnectionsDiverge`): in their rooms exactly as
  `ForeignKeepsMatchIff`, `MatchedSinceIff` and `AgreeIffSettled` say, in the status exactly as
  `DisconnectStatusIff`, `AlwaysRightIff` and `StatusRightIff` say.
- Concurrent ingestion can accept an older ping after a newer one (`AcceptanceNeedNotBeMonotone`,
  `AcceptedInOrderIff`).
- A completed assignment can be accepted again or completed again (`DoneUntilAccepted`, `StepKeepsDriversIff`, over
  runs `RunKeepsDrivers`).
- Connecting while a backoff timer is pending leaves two timers (`ImpatientConnectLeavesTimer`,
  `RequestKeepsSoundIff`); a state listener that connects or disconnects when told of
  connecting or of a lost connection is overruled (`ListenerDisconnectIsUndone`,
  `DisconnectWhileConnectingIsUndone`, `ConnectWhileConnectingStrays`, `TimersSoundIff`).
- A listener that reconnects when told of connected has subscriptions announced too early
  (`ReconnectWhileConnectedIsEarly`, `FramesMatchIff`).
- The ping queue's comment says that draining keeps equal timestamps in insertion order; the library sort
  promises no stability (`EqualTimestampsAreUnordered`, `DrainIsDeterminedIff`).

## Model

| member | source | states |
|---|---|---|
| `Segments.OnSegmentIsOn` | services/management/src/zones/geometry.ts:32-43 | for collinear points the box test is exactly membership in the closed segment |
| `Segments.SegmentsIntersectCorrect` | services/management/src/zones/geometry.ts:45-63 | the orientation test answers yes iff the two closed segments share a point, zero-length and collinear segments included |
| `SimplePolygon.OverlapOfConsecutive` | services/management/src/zones/geometry.ts:112-130 | on consecutive edges the overlap check sees exactly one of the two folds: the later end point lies on the earlier edge |
| `SimplePolygon.OverlapMissesTheOtherFold` | services/management/src/zones/geometry.ts:112-130 | a concrete fold in the other direction on which the overlap check stays silent |
| `SimplePolygon.ForwardFoldIsCaught` | services/management/src/zones/geometry.ts:89-107 | the fold the overlap check misses always makes some other pair of the loop reject, for three vertices and for more |
| `SimplePolygon.AcceptIffSimple` | services/management/src/zones/geometry.ts:89-108 | the edge-pair loop accepts iff edges are proper, neighbours share exactly their vertex and all other edges are disjoint |
| `SimplePolygon.AcceptIffInjective` | services/management/src/zones/geometry.ts:65-70 | the loop accepts iff walking the boundary once visits no point twice, an independent reading of "simple closed curve" |
| `SimplePolygon.IsSimplePolygon` | services/management/src/zones/geometry.ts:82-109 | the nested loops with early return decide simplicity of the ring without its closing position; unclosed or short rings are invalid |
| `SimplePolygon.Check` | services/management/src/zones/geometry.ts:76-80 | isClosed means at least four positions, first equal to last; isValid means closed and simple |
| `SimplePolygon.AnswerUnchangedByRotationAndReversal` | services/management/src/zones/geometry.ts:76-109 | start vertex and direction of a closed ring do not change the verdict |
| `PointInPolygon.ContainsInclusive` | services/geofence/internal/geofence/geometry.go:43-73 | the two loops compute: at least three vertices, and an edge within tolerance of the point or odd crossing parity |
| `PointInPolygon.CrossesBySide` | services/geofence/internal/geofence/geometry.go:64-70 | an edge is crossed iff it spans the half-open height of the point and the point lies on its left |
| `Cycles.ChordSplit` | services/geofence/internal/geofence/geometry.go:59-71 | for any symmetric edge test the ring parity is the xor of the parities of the two parts cut by any chord |
| `Cycles.RingIsFan` | services/geofence/internal/geofence/geometry.go:59-71 | the ring parity is the xor over the triangles of the fan from the first vertex |
| `PointInPolygon.AnswerUnchangedByRotationAndReversal` | services/geofence/internal/geofence/geometry.go:30-73 | without repeated consecutive vertices, rotation, reversal and an explicit closing vertex leave the answer unchanged, for every tolerance |
| `RepeatedVertices.RepeatedVertexBreaksRotation` | services/geofence/internal/geofence/geometry.go:32-39 | for every tolerance, a triangle with two equal vertices whose answer depends on the start vertex |
| `RepeatedVertices.RepeatAddsBox` | services/geofence/internal/geofence/geometry.go:30-73 | a repeated vertex adds to a ring exactly the tolerance box of the vertex |
| `RepeatedVertices.StartMattersIff` | services/geofence/internal/geofence/geometry.go:30-73 | for every tolerance, exactly when the start vertex matters: some point near a repeated vertex is outside the ring without the repeat, or two vertices of a triangle coincide |
| `RepeatedVertices.ShortEdgesMakeStartIrrelevant` | services/geofence/internal/geofence/geometry.go:28-73 | a check on the edges: if each repeat has an edge of at most one unit beside it, the start vertex is irrelevant for every tolerance |
| `RepeatedVertices.LongEdgesExposeRepeat` | services/geofence/internal/geofence/geometry.go:28-73 | that bound is sharp: with longer edges the corner of a right triangle is a counterexample at every positive tolerance |
| `RepeatedVertices.RepeatMattersAtTheEngineTolerance` | services/geofence/internal/geofence/geometry.go:26-73 | a four-vertex zone, at the tolerance the engine uses, whose answer depends on the start vertex |
| `RepeatedVertices.DirectionNeverMatters` | services/geofence/internal/geofence/geometry.go:30-73 | reversal never changes the answer, for every ring and tolerance |
| `RepeatedVertices.ExactStartMattersIff` | services/geofence/internal/geofence/geometry.go:30-73 | with tolerance 0 the start vertex matters iff the ring is a triangle of which exactly two vertices coincide |
| `PointInPolygon.RectangleIsClosedBox` | services/geofence/internal/geofence/geometry.go:43-91 | on an axis-aligned rectangle the answer lies between the closed box and the box widened by the tolerance; with tolerance 0 it is the closed box |
| `FanTriangles.OneSide` | services/geofence/internal/geofence/geometry.go:59-71 | by the half-open rule a point lies on exactly one side of every proper edge |
| `FanTriangles.ParityIsCovers` | services/geofence/internal/geofence/geometry.go:59-71 | for every point the crossing parity of a triangle is the half-open rule: the point moved slightly right and up is on one side of all edges |
| `FanTriangles.CoversIsStrict` | services/geofence/internal/geofence/geometry.go:59-71 | off a triangle's boundary the half-open rule is strict containment |
| `FanTriangles.TriangleContains` | services/geofence/internal/geofence/geometry.go:43-91 | for every tolerance a triangle contains exactly the points near its edges and those strictly inside; with tolerance 0 the former are its boundary |
| `FanTriangles.EvenOddCountsFanTriangles` | services/geofence/internal/geofence/geometry.go:43-73 | for any polygon and any point, self-intersecting rings and points on chords included: near an edge, or covered by an odd number of fan triangles |
| `FanTriangles.OffFanCountsAgree` | services/geofence/internal/geofence/geometry.go:59-71 | off the edges and chords of the fan the covering triangles are those strictly containing the point |
| `DisjointSets.RootIsMinimum` | services/optimizer/optimizer/solver.py:61-64 | a class is represented by its smallest member |
| `DisjointSets.CompressionKeepsRoots` | services/optimizer/optimizer/solver.py:57-58 | one step of path compression changes no element's root |
| `DisjointSets.LinkMerges` | services/optimizer/optimizer/solver.py:63-64 | hanging the larger root under the smaller merges exactly those two classes |
| `DisjointSets.UnionFind.Find` | services/optimizer/optimizer/solver.py:52-59 | both loops terminate; the root is returned, every element met on the way points straight at it afterwards, no root changes |
| `DisjointSets.UnionFind.Union` | services/optimizer/optimizer/solver.py:61-64 | exactly the classes of the two arguments are merged, under the smaller root |
| `Clustering.UnionAddsEdge` | services/optimizer/optimizer/solver.py:76-80 | if the classes are the components of some pairs, one union makes them the components with that pair added |
| `Clustering.UniteNearPairs` | services/optimizer/optimizer/solver.py:74-80 | after the double loop two stops have one root iff a chain of near pairs joins them |
| `Clustering.ClusterStops` | services/optimizer/optimizer/solver.py:67-90 | clusters are exactly the connected components of the near pairs, ordered by smallest input position, each in input order |
| `Grouping.GroupsFormGrouping` | services/optimizer/optimizer/solver.py:82-90 | collecting by key in order of first appearance gives a partition: non-empty ascending groups ordered by first member |
| `Grouping.GroupingIsUnique` | services/optimizer/optimizer/solver.py:67-73 | that description determines the clustering: there is only one such list of groups |
| `Optimizer.Optimize` | services/optimizer/optimizer/solver.py:167-193 | outside 2..50 stops an error carrying the count; otherwise the clusters in the order the solver returns for one node per cluster, from which the members' deviations sum to zero; and their concatenation |
| `Optimizer.BalanceIsUnique` | services/optimizer/optimizer/solver.py:93-97 | only one node has members' deviations summing to zero in both coordinates |
| `Optimizer.BalanceIgnoresOrder` | services/optimizer/optimizer/solver.py:93-97 | that node does not depend on the order in which the members are listed |
| `Optimizer.BalanceIsInBox` | services/optimizer/optimizer/solver.py:93-97 | it lies between the least and greatest coordinates of its members |
| `Optimizer.TourIsDetermined` | services/optimizer/optimizer/solver.py:187-189 | so the visiting order is determined by the clusters and the solver |
| `Optimizer.SequenceCoversInput` | services/optimizer/optimizer/solver.py:173-177 | the sequence contains every input delivery id exactly once |
| `Optimizer.GroupsAreDisjoint` | services/optimizer/optimizer/solver.py:191-193 | groups are non-empty, duplicate-free and pairwise disjoint |
| `Optimizer.SameGroupIffConnected` | services/optimizer/optimizer/solver.py:173-177 | two deliveries are in one group iff a chain of near pairs joins their stops |
| `RouteBuilder.IsExactCover` | services/management/src/routes/route-builder.ts:16-29 | true iff both lists are duplicate-free and permutations of each other |
| `RouteBuilder.AssignedRouteIsGood` | services/management/src/routes/route-builder.ts:32-41 | one stop per delivery, indices equal positions, covering every delivery |
| `RouteBuilder.OptimizedStops` | services/management/src/routes/route-builder.ts:44-81 | for arbitrary sequence and groups (foreign, omitted, overlapping ids) the loop yields the known ids, by first appearance, grouped by group key |
| `RouteBuilder.ByIdIsLast` | services/management/src/routes/route-builder.ts:49 | with duplicate ids the loop finds the last delivery of an id |
| `RouteBuilder.KeyIsOfLastGroup` | services/management/src/routes/route-builder.ts:51-58 | overlapping groups included, a grouped id's key is the first known member of the last group naming it |
| `RouteBuilder.UngroupedHasNoKey` | services/management/src/routes/route-builder.ts:51-58 | an unknown or ungrouped id has no key |
| `RouteBuilder.GroupKeyMap` | services/management/src/routes/route-builder.ts:51-58 | the loop over groups and members fills the dictionary those two describe |
| `RouteBuilder.ShareStopIffSameKey` | services/management/src/routes/route-builder.ts:60-80 | two ids of the sequence share a stop iff they have the same group key |
| `RouteBuilder.StopsPartitionIds` | services/management/src/routes/route-builder.ts:60-80 | the stops' lists are disjoint and together a permutation of the grouped ids |
| `RouteBuilder.OptimizedRouteIsGood` | services/management/src/routes/route-builder.ts:44-81 | for an exact-cover sequence and any groups: non-empty stops, index equal to position, every delivery covered |
| `RouteBuilder.BuildStops` | services/management/src/routes/route-service.ts:158-201 | for any reply or failure the stops cover the deliveries exactly; when the reply is used, and the two flags, in every case |
| `RouteEndToEnd.StopsAreGroups` | services/management/src/routes/route-builder.ts:16-81 | for distinct ids the optimizer's reply passes the cover check and the stops' id lists equal its groups in order |
| `RouteEndToEnd.ShareStopIffConnected` | services/management/src/routes/route-service.ts:180-197 | on the whole path two deliveries share a stop iff near pairs connect them |
| `RouteEndToEnd.PlanRoute` | services/management/src/routes/route-service.ts:173-197 | optimizer and route builder composed, for 2..50 deliveries with distinct ids and any visiting order |
| `HubRuns.RunIsIndexed` | services/streaming/internal/hub/hub.go:91-166 | with fresh connection ids, after every run: a connection is a room's member iff it is live and its own set has the room; no empty room is kept |
| `HubRuns.AlwaysIndexedIff` | services/streaming/internal/hub/hub.go:91-166 | over any run the index holds all along iff every connect that reuses a live id resumes all rooms of the connection it replaces |
| `HubRuns.ConnectKeepsIndexIff` | services/streaming/internal/hub/hub.go:91-108 | a reused id breaks the index exactly when the replaced connection had joined a room outside the resumed session |
| `HubRuns.OtherCommandsKeepIndex` | services/streaming/internal/hub/hub.go:121-166 | subscribe, unsubscribe and disconnect keep the index in every state |
| `HubRuns.SessionsAreFolds` | services/streaming/internal/hub/hub.go:91-166 | session sets are the fold of the commands of the key's live connections; status is the last connect or disconnect |
| `HubRuns.RoomsAreOwnFold` | services/streaming/internal/hub/hub.go:91-151 | a connection's rooms are its session's rooms at its connect plus its own commands |
| `HubRuns.ConnectResumesSession` | services/streaming/internal/hub/hub.go:89-108 | a connect starts with exactly the session's room set |
| `HubRuns.UndisturbedRoomsAreSession` | services/streaming/internal/hub/hub.go:121-151 | while no other connection of the session subscribes or unsubscribes, a connection's rooms equal the session set |
| `HubRuns.LoneConnectionMatchesSession` | services/streaming/internal/hub/hub.go:91-166 | a connection that was always the only live one of its session has exactly the session's rooms |
| `HubRuns.TwoConnectionsDiverge` | services/streaming/internal/hub/hub.go:141-166 | with two connections an unsubscribe leaves the other in the room, and one disconnect reports the session disconnected |
| `HubSessions.ForeignKeepsMatchIff` | services/streaming/internal/hub/hub.go:121-151 | another connection's command keeps rooms and session set equal iff it subscribes to a room the session has or unsubscribes from one it has not |
| `HubSessions.MatchedSinceIff` | services/streaming/internal/hub/hub.go:91-166 | over any run: they were equal all along iff every such command was harmless when issued |
| `HubSessions.AgreeIffSettled` | services/streaming/internal/hub/hub.go:91-166 | after any run, room by room: they agree iff the last session command on the room was the connection's own or matched its membership |
| `HubSessions.DisconnectStatusIff` | services/streaming/internal/hub/hub.go:154-166 | after a disconnect the status is right iff it was the key's only live connection |
| `HubSessions.AlwaysRightIff` | services/streaming/internal/hub/hub.go:91-166 | over any run with fresh ids: a key's status was right all along iff every disconnect was of the key's only connection |
| `HubSessions.StatusRightIff` | services/streaming/internal/hub/hub.go:91-166 | the status never claims a connection that is not there, so it is wrong only by saying disconnected while one is live |
| `HubRuns.MembersAreSubscribers` | services/streaming/internal/hub/hub.go:200-207 | the member map of a room lists exactly the live connections subscribed to it |
| `HubRuns.WorldStaysAccounted` | services/streaming/internal/hub/hub.go:200-212 | broadcasts interleaved with commands: served and owed connections split the snapshot, nobody served twice |
| `HubRuns.BroadcastServesSnapshotOnce` | services/streaming/internal/hub/hub.go:200-212 | a finished broadcast served exactly the subscribers at its snapshot, each once |
| `HubService.HubObject.Connect` | services/streaming/internal/hub/hub.go:91-108 | the map updates and the resume loop perform the connect operation on values; the invariant is kept for fresh ids |
| `HubService.HubObject.SubscribeRoom` | services/streaming/internal/hub/hub.go:121-127 | performs the subscribe operation; unknown connections change nothing |
| `HubService.HubObject.UnsubscribeRoom` | services/streaming/internal/hub/hub.go:140-151 | performs the unsubscribe operation on rooms, client and session set |
| `HubService.HubObject.Disconnect` | services/streaming/internal/hub/hub.go:154-166 | removes the connection from all its rooms, keeps the session set, marks the session disconnected |
| `HubService.HubObject.JoinLocked` | services/streaming/internal/hub/hub.go:216-227 | the room lists the client object, the client the room, the session the room |
| `HubService.HubObject.LeaveLocked` | services/streaming/internal/hub/hub.go:231-234 | room and client forget each other; the session set stays |
| `HubService.HubObject.RemoveFromRoomLocked` | services/streaming/internal/hub/hub.go:238-247 | strikes one member and drops the room when it becomes empty |
| `HubService.HubObject.DeliverLocal` | services/streaming/internal/hub/hub.go:200-212 | each connection in the room receives the message once, every other connection nothing |
| `RetryRuns.StepMovesEvents` | services/streaming/internal/hub/retry.go:44-81 | each locked section and each send moves an event between places and creates or loses none |
| `RetryRuns.RunKeepsInvariant` | services/streaming/internal/hub/retry.go:44-81 | under every interleaving: submitted = delivered + abandoned + pending + in hand, each event in one place, retry counts agreeing with the sends made |
| `RetryRuns.SendsAreBounded` | services/streaming/internal/hub/retry.go:54-81 | at most four sends and one success per event; abandoned iff exactly four sends failed |
| `RetryQueue.ZoneEventDelivery.Deliver` | services/streaming/internal/hub/retry.go:44-52 | one send; a failed event is appended with no retries recorded |
| `RetryQueue.ZoneEventDelivery.Retry` | services/streaming/internal/hub/retry.go:58-81 | sends the whole batch in order and keeps exactly the failed entries still in budget |
| `RetryQueue.ZoneEventDelivery.DeliverWithRetries` | services/streaming/internal/hub/retry.go:88-99 | sends until the first success, at most four times |
| `RetryQueue.RetriesAreMinOfFailures` | services/streaming/internal/hub/retry.go:83-99 | a sender failing its first k attempts is retried min(k, 3) times and delivers iff k is at most 3 |
| `RetryQueue.ThreePassesEmpty` | services/streaming/internal/hub/retry.go:58-81 | three undisturbed passes empty any queue |
| `RetryQueue.LoneEventMatchesDirect` | services/streaming/internal/hub/retry.go:44-99 | for a lone event, deliver and three passes make the same sends with the same outcome as the direct retry loop |
| `RetryQueue.UndisturbedRetryIsPass` | services/streaming/internal/hub/retry.go:58-81 | an undisturbed call of the concurrent machine does what the object's Retry does |
| `RetryQueue.UndisturbedDeliverAppends` | services/streaming/internal/hub/retry.go:44-52 | an undisturbed delivery of the concurrent machine sends once and appends the event when that fails, as the object does |
| `GeofenceRuns.StringLessIff` | services/geofence/internal/geofence/engine.go:107-112 | one id precedes another iff at the first position where they part it ends or has the smaller character |
| `GeofenceRuns.ListsChangesIff` | services/geofence/internal/geofence/engine.go:66-112 | a batch is: ids ascending in that order; each event at the ping's time, an Enter of a containing zone not stored with its arrival label, or an Exit of a stored zone not containing with the label looked up; and every such zone has its event |
| `GeofenceRuns.EventsAreDetermined` | services/geofence/internal/geofence/engine.go:66-112 | a ping's events depend only on the ping and its vehicle's prior zones, not on the order in which maps are visited or on other vehicles |
| `GeofenceRuns.PublishFailuresChangeNothing` | services/geofence/internal/geofence/engine.go:66-123 | two runs over the same pings emit the same events and store the same membership, whichever publishes fail in each |
| `GeofenceRuns.StoredIsLastZones` | services/geofence/internal/geofence/engine.go:66-105 | the stored membership is the zone set of the vehicle's last evaluated ping |
| `GeofenceRuns.ReplayIsStored` | services/geofence/internal/geofence/engine.go:60-124 | replaying the event log gives the stored membership; per vehicle and zone, events alternate starting with Enter |
| `GeofenceRuns.VehiclesAreIndependent` | services/geofence/internal/geofence/engine.go:60-124 | two runs with the same pings of a vehicle give it the same events, whatever other vehicles do |
| `GeofenceEngine.MemoryMembership.InsideZones` | services/geofence/internal/geofence/membership.go:28-38 | returns the zones recorded as inside |
| `GeofenceEngine.MemoryMembership.Set` | services/geofence/internal/geofence/membership.go:41-50 | records one zone of one vehicle and changes nothing else |
| `GeofenceEngine.SortByZone` | services/geofence/internal/geofence/engine.go:107-112 | a batch with one event per zone comes out with zone ids ascending character by character, same events |
| `GeofenceEngine.Engine.PublishAll` | services/geofence/internal/geofence/engine.go:114-121 | every event is offered to the publisher in order; what arrives is exactly the events whose publish succeeds |
| `GeofenceEngine.Engine.OnAcceptedPing` | services/geofence/internal/geofence/engine.go:60-124 | a failed query changes nothing; otherwise the events are that batch, in ascending id order with the ping's time and each zone's label, the store holds the containing zones, and publish outcomes affect only what arrives in the queue |
| `IngestRuns.RunIsConsistent` | services/ingestion/internal/ingest/service.go:141-169 | the cross-caller invariant of check, persist and advance under every interleaving |
| `IngestRuns.MarkIsMaxWhenQuiet` | services/ingestion/internal/ingest/service.go:163-169 | the mark never exceeds what is stored, and is the maximum stored timestamp once no call is in flight |
| `IngestRuns.MarkNeverFalls` | services/ingestion/internal/ingest/memory.go:73-79 | under every interleaving a vehicle's mark never decreases |
| `IngestRuns.AcceptedIsStored` | services/ingestion/internal/ingest/service.go:163-185 | every accepted ping is stored as submitted and the mark has reached it |
| `IngestRuns.AcceptanceNeedNotBeMonotone` | services/ingestion/internal/ingest/service.go:141-169 | an interleaving that accepts an older ping after a newer one |
| `IngestRuns.AcceptedInOrderIff` | services/ingestion/internal/ingest/service.go:141-169 | an acceptance is in order iff the mark at the advance, not only at the check, does not reject the ping |
| `IngestRuns.MarkIsAccepted` | services/ingestion/internal/ingest/memory.go:73-79 | the mark is always the timestamp of some accepted call |
| `IngestRuns.InTurnIsOrdered` | services/ingestion/internal/ingest/service.go:133-186 | one call at a time: accepted timestamps of a vehicle never decrease |
| `IngestRuns.StaleIffOlderThanAccepted` | services/ingestion/internal/ingest/service.go:141-143 | one call at a time: a ping is rejected iff strictly older than an accepted one |
| `IngestRuns.RunIsInTurn` | services/ingestion/internal/ingest/service.go:132-175 | a run of the protocol whose calls do not overlap has the marks and accepted pings of calls made in turn |
| `IngestRuns.MarkIsLargestAdvanced` | services/ingestion/internal/ingest/memory.go:64-79 | after any sequence of advances the mark read back is the largest timestamp advanced to, and there is none for a vehicle never advanced |
| `IngestService.MemoryHighWaterMark.Advance` | services/ingestion/internal/ingest/memory.go:73-79 | the mark becomes the larger of the two timestamps |
| `IngestService.MemoryStore.Persist` | services/ingestion/internal/ingest/memory.go:22-34 | stores the ping under its id; a refused write changes nothing |
| `IngestService.Service.Ingest` | services/ingestion/internal/ingest/service.go:133-186 | the four outcomes; acknowledged means persisted, advanced and offered for publishing, anything else changes nothing; one undisturbed call is the protocol's steps back to back |
| `LifecycleHistory.DeliveryIsHistory` | services/management/src/deliveries/delivery-service.ts:60-134 | over all runs every field of a delivery is what the commands taken about it say: the status is the one its last event is named after, and the link, completion time, failure reason and update time are those of the last command that sets them |
| `LifecycleHistory.DeliveryExistsIff` | services/management/src/deliveries/delivery-service.ts:75-106 | a delivery exists iff a valid, geocoded creation was asked for |
| `LifecycleHistory.TransitionTakenIff` | services/management/src/deliveries/delivery-lifecycle.ts:26-66 | StartTransit is taken exactly after Assign, Arrive after StartTransit, Complete after Arrive, Fail after StartTransit or Arrive with a reason of 1..500 characters, Cancel before the end; and which error is given otherwise |
| `LifecycleHistory.EventsAreInOrder` | services/management/src/deliveries/delivery-lifecycle.ts:30-51 | over all runs every event of a delivery was due when it happened |
| `LifecycleHistory.InOrderIff` | services/management/src/deliveries/delivery-lifecycle.ts:30-51 | the orders in which every event is due are exactly: part of the way Assign, StartTransit, Arrive, Complete, possibly cancelled before the end, or failed once under way |
| `LifecycleHistory.CompletedWentThrough` | services/management/src/deliveries/delivery-lifecycle.ts:30-51 | every Completed delivery had exactly the events Assign, StartTransit, Arrive, Complete in that order |
| `LifecycleHistory.AssignmentIsHistory` | services/management/src/assignments/assignment-service.ts:62-102 | over all runs an assignment's status is that of the last command taken about it, its acceptance time that of the first acceptance, its driver and vehicle those of its creation |
| `LifecycleHistory.AssignmentTakenIff` | services/management/src/assignments/assignment-service.ts:50-62 | an assignment is made iff deliveries are named, the driver is known, active and Available and has a vehicle, and no delivery is unknown or has had an event; and which error is given otherwise |
| `LifecycleHistory.DriverIsHistory` | services/management/src/assignments/assignment-service.ts:84-88 | over all runs a driver's status is as entered or switched, On_Delivery from an assignment on, and Available when one of the driver's assignments completes |
| `LifecycleHistory.ReadyIffFinished` | services/management/src/routes/route-service.ts:131-135 | an assignment is ready to complete iff deliveries are linked to it and the last event of each is Complete, Fail or Cancel |
| `LifecycleHistory.ReassignTakenIff` | services/management/src/assignments/assignment-service.ts:105-124 | a reassignment is taken iff the delivery has an assignment and the target exists and is not completed, or is the present one; and which error is given otherwise |
| `LifecycleHistory.SwitchTakenIff` | services/management/src/drivers/driver-service.ts:114-128 | a driver switches between different statuses other than On_Delivery, and goes on break only from Available |
| `Lifecycle.RunIsSound` | services/management/src/assignments/assignment-service.ts:50-132 | over all runs of the three services: links name existing assignments and never a Created delivery; deliveries of a Complete assignment are terminal; completedAt iff Completed; failureReason iff Failed, 1..500 long |
| `Lifecycle.StepKeepsSound` | services/management/src/routes/route-service.ts:131-152 | every single command keeps that invariant |
| `Lifecycle.FateIsKept` | services/management/src/deliveries/delivery-lifecycle.ts:26-66 | over all runs terminal statuses are absorbing with their stamps, and a linked delivery stays linked |
| `Lifecycle.DoneStaysIff` | services/management/src/assignments/assignment-service.ts:94-102 | a Complete assignment stays Complete through a command iff the command does not accept it |
| `Lifecycle.DoneUntilAccepted` | services/management/src/assignments/assignment-service.ts:94-102 | over all runs a completed assignment is completed ever after iff it is not accepted since |
| `Lifecycle.RunKeepsDrivers` | services/management/src/assignments/assignment-service.ts:84-88 | over all runs a driver is On_Delivery iff they have an active assignment, and has at most one, all along iff every accept, completion and edit of the drivers is disciplined |
| `Lifecycle.StepKeepsDriversIff` | services/management/src/assignments/assignment-service.ts:50-102 | one command: kept iff no accept of a completed assignment, no second completion that finds the driver busy, and no edit that drops an assigned driver or changes who is On_Delivery |
| `Lifecycle.AcceptKeepsDriversIff` | services/management/src/assignments/assignment-service.ts:94-102 | accepting keeps that driver invariant iff the assignment is not Complete |
| `Lifecycle.CompleteKeepsDriversIff` | services/management/src/routes/route-service.ts:131-152 | completing keeps it iff the assignment is active, is not ready, or its driver is not On_Delivery |
| `LifecycleServices.Services.CreateDelivery` | services/management/src/deliveries/delivery-service.ts:66-98 | invalid input or a failed geocode stores nothing; otherwise a Created delivery is stored |
| `LifecycleServices.Services.Transition` | services/management/src/deliveries/delivery-service.ts:101-134 | performs the transition command of the history theorems: the refusals in order, and the record written |
| `LifecycleServices.Services.ResolveAssignable` | services/management/src/assignments/assignment-service.ts:155-174 | the first delivery that cannot be assigned decides the error; otherwise all records, in order |
| `LifecycleServices.Services.CreateAssignment` | services/management/src/assignments/assignment-service.ts:50-91 | a refusal changes nothing; otherwise assignment, links and driver status change together |
| `LifecycleServices.Services.Accept` | services/management/src/assignments/assignment-service.ts:94-102 | sets Accepted and keeps the first acceptance time, in every status |
| `LifecycleServices.Services.Reassign` | services/management/src/assignments/assignment-service.ts:105-132 | the refusals in order; a successful reassign leaves the delivery linked to the target |
| `LifecycleServices.Services.CompleteIfAllStopsTerminal` | services/management/src/routes/route-service.ts:131-152 | completes iff there are deliveries and all are terminal, and frees a busy driver |
| `LifecycleServices.Services.SetAvailability` | services/management/src/drivers/driver-service.ts:114-128 | a driver's own switch, refused when unknown or not settable |
| `SocketRuns.SubKeyIsInjective` | apps/dashboard/src/realtime/socketClient.ts:65-67 | different subscriptions have different map keys |
| `SocketSubscriptions.SubscriptionsAreHistory` | apps/dashboard/src/realtime/socketClient.ts:164-175 | over any run, listeners' calls at any depth included: the client is subscribed to a vehicle or delivery, under its own key, iff some call followed it and no later one unfollowed it |
| `SocketSubscriptions.ServerSeesLastWords` | apps/dashboard/src/realtime/socketClient.ts:141-175 | with manners and listeners that stay when connected, what the server has seen of a connected client is exactly what those last words say |
| `SocketSubscriptions.WordIsSent` | apps/dashboard/src/realtime/socketClient.ts:164-175 | following a topic on a connected client with a transport makes its Subscribe the last frame, unfollowing its Unsubscribe; otherwise no frame is sent; no other subscription changes |
| `SocketSubscriptions.ConnectingOrReconnecting` | apps/dashboard/src/realtime/socketClient.ts:129-139 | over any run a transport is asked for as connecting while none was lost since the last open, otherwise as reconnecting |
| `SocketSubscriptions.OpeningAnnounces` | apps/dashboard/src/realtime/socketClient.ts:141-147 | an opening transport has the subscriptions announced on whichever transport is then installed, if any; strays that open are accounted for |
| `SocketRuns.EventKeepsInStepIff` | apps/dashboard/src/realtime/socketClient.ts:129-228 | an event keeps frames and subscriptions in step unless a transport opens and the announcing loop, after the listeners, finds a connected client without it or something to announce on an unopened one |
| `SocketListeners.ListenerIsHarmlessIff` | apps/dashboard/src/realtime/socketClient.ts:129-139 | whatever listeners did: installing the transport, or starting the timer, keeps the client sound iff they left no timer, no transport and no disconnect |
| `SocketListeners.CallsLeave` | apps/dashboard/src/realtime/socketClient.ts:253-257 | calls of listeners, with what their listeners call in turn: still no transport and no disconnect iff none of them connects or disconnects; else only subscriptions and frames change |
| `SocketListeners.CallInPlaceIff` | apps/dashboard/src/realtime/socketClient.ts:129-161 | a call, re-entrant to any depth, asks for a transport only while none is held, no timer is pending and the user wants one iff it has manners |
| `SocketListeners.RequestKeepsSoundIff` | apps/dashboard/src/realtime/socketClient.ts:129-228 | a connect, a close or a timer leaves timers and transports sound iff no timer was pending and listeners told of it neither connect nor disconnect |
| `SocketListeners.ImpatientConnectLeavesTimer` | apps/dashboard/src/realtime/socketClient.ts:129-139 | a run in which connecting during backoff leaves two timers |
| `SocketListeners.ListenerDisconnectIsUndone` | apps/dashboard/src/realtime/socketClient.ts:213-228 | a state listener that disconnects during a close is overruled by the timer the close handler then starts |
| `SocketListeners.DisconnectWhileConnectingIsUndone` | apps/dashboard/src/realtime/socketClient.ts:129-144 | a listener told of connecting that disconnects is overruled: the transport is installed and its opening connects the client |
| `SocketListeners.ConnectWhileConnectingStrays` | apps/dashboard/src/realtime/socketClient.ts:129-152 | a listener told of connecting that connects leaves a live stray transport; when both close, two timers are outstanding |
| `SocketListeners.FramesMatchIff` | apps/dashboard/src/realtime/socketClient.ts:129-228 | over any run, whatever application and listeners call: connected means open with the server having seen exactly the subscriptions, all along, iff every announcing loop finds its transport still open or nothing to announce |
| `SocketListeners.NotifiedFramesMatch` | apps/dashboard/src/realtime/socketClient.ts:141-147 | so it is with manners and listeners that do not disconnect when told of connected, whatever else they call |
| `SocketListeners.ReconnectWhileConnectedIsEarly` | apps/dashboard/src/realtime/socketClient.ts:141-147 | a listener told of connected that disconnects and connects makes the loop announce on an unopened transport |
| `SocketListeners.TimersSoundIff` | apps/dashboard/src/realtime/socketClient.ts:129-236 | over any run: no transport and no timer is ever asked for while one is held or after a disconnect iff every connect, also of a listener, finds no timer pending and listeners told of connecting or of a lost connection neither connect nor disconnect; then timers are sound and no transport strays |
| `SocketListeners.OutOfPlaceCanRecover` | apps/dashboard/src/realtime/socketClient.ts:129-161 | a transport opened against the user's will can be closed again within one event, so the condition is on requests, not on the states between events |
| `SocketListeners.ManneredHasOneTimer` | apps/dashboard/src/realtime/socketClient.ts:213-236 | with those manners at most one timer is outstanding |
| `SocketListeners.DisconnectIsGone` | apps/dashboard/src/realtime/socketClient.ts:156-161 | a disconnect of a sound client that no listener answers by connecting or disconnecting leaves no timer, no transport and no stray |
| `SocketListeners.ManneredStaysOffline` | apps/dashboard/src/realtime/socketClient.ts:156-161 | with those manners up to a moment when the last word was a disconnect, nothing is outstanding then and the client stays offline until the application connects |
| `SocketListeners.AttemptCountsCloses` | apps/dashboard/src/realtime/socketClient.ts:141-147 | over any run the attempt counter is the number of connections lost since a transport last opened; a close after the user closed the client is none |
| `SocketListeners.CloseSchedulesBackoff` | apps/dashboard/src/realtime/socketClient.ts:219-227 | the k-th loss since the last open schedules the k-th backoff delay, the last one repeating |
| `SocketClientObject.SocketClient.SetState` | apps/dashboard/src/realtime/socketClient.ts:253-257 | listeners hear of changes only, and all they call, re-entrantly, is performed |
| `SocketClientObject.SocketClient.Connect` | apps/dashboard/src/realtime/socketClient.ts:129-153 | only clears the flag while a transport is installed; otherwise tells the listeners and then installs one, overwriting any they installed |
| `SocketClientObject.SocketClient.Disconnect` | apps/dashboard/src/realtime/socketClient.ts:156-161 | cancels the named timer, drops the transport, then tells the listeners it is offline |
| `SocketClientObject.SocketClient.Subscribe` | apps/dashboard/src/realtime/socketClient.ts:164-168 | performs the call that those theorems call following: recorded under its key and, when connected, announced |
| `SocketClientObject.SocketClient.Unsubscribe` | apps/dashboard/src/realtime/socketClient.ts:171-175 | performs unfollowing: dropped and, when connected, announced as dropped |
| `SocketClientObject.SocketClient.OnOpen` | apps/dashboard/src/realtime/socketClient.ts:141-147 | resets the attempt counter, tells the listeners, then announces every subscription once on the transport it then finds |
| `SocketClientObject.SocketClient.OnStrayOpen` | apps/dashboard/src/realtime/socketClient.ts:141-147 | an overwritten transport runs the same handler on the installed one |
| `SocketClientObject.SocketClient.OnClose` | apps/dashboard/src/realtime/socketClient.ts:213-228 | drops the transport and tells the listeners; unless the user had closed the client, one backoff timer starts after what they call |
| `SocketClientObject.SocketClient.OnTimer` | apps/dashboard/src/realtime/socketClient.ts:224-227 | clears the handle and connects |
| `PingRuns.EnqueueKeepsMostRecent` | apps/driver/lib/services/ping_queue.dart:33-45 | insertions keep exactly the most recent entries, in order, and lose others only beyond capacity |
| `PingRuns.StepMoves` | apps/driver/lib/services/ping_transmitter.dart:32-65 | every step between two awaits moves pings between places; only a submission adds one |
| `PingRuns.NothingIsLost` | apps/driver/lib/services/ping_transmitter.dart:32-65 | under every interleaving: submitted = sent + in flight + queued + dropped for each ping, and the queue never exceeds maxSize |
| `PingRuns.SentIsReported` | apps/driver/lib/services/ping_transmitter.dart:32-65 | under every interleaving a ping counts as sent as often as a send of it succeeded |
| `PingRuns.UndisturbedSubmit` | apps/driver/lib/services/ping_transmitter.dart:32-41 | an undisturbed submission: queued when offline, sent when online, and queued if that fails |
| `PingRuns.FlushBegins` | apps/driver/lib/services/ping_transmitter.dart:44-56 | a flush takes the whole queue exactly when the device comes online with pings queued, or when asked for |
| `PingRuns.DropsOnlyAtCapacity` | apps/driver/lib/services/ping_queue.dart:33-38 | a step that drops anything leaves the queue full |
| `PingRuns.FinishRequeuesFailures` | apps/driver/lib/services/ping_transmitter.dart:54-65 | a flush that runs to its end undisturbed puts back exactly what failed |
| `PingRuns.UndisturbedFlushLosesNothing` | apps/driver/lib/services/ping_transmitter.dart:54-65 | it sends in non-decreasing time order, requeues failures in order and drops nothing, however many sends fail |
| `PingTransmission.PingQueue.Add` | apps/driver/lib/services/ping_queue.dart:33-38 | a full queue drops its oldest entry |
| `PingTransmission.PingQueue.AddAll` | apps/driver/lib/services/ping_queue.dart:41-45 | what is dropped and what is kept, concatenated, is the old queue followed by the new pings |
| `PingTransmission.PingQueue.DrainInOrder` | apps/driver/lib/services/ping_queue.dart:49-54 | returns a time-sorted permutation of the queue and empties it |
| `PingOrder.EqualTimestampsAreUnordered` | apps/driver/lib/services/ping_queue.dart:47-54 | two pings with equal timestamps may be drained in either order |
| `PingOrder.DrainIsDeterminedIff` | apps/driver/lib/services/ping_queue.dart:47-54 | the drained list is determined iff no two different pings of the queue share a timestamp |
| `PingTransmission.PingTransmitter.Submit` | apps/driver/lib/services/ping_transmitter.dart:32-41 | offline or after a failed send the ping is queued; otherwise it was sent |
| `PingTransmission.PingTransmitter.SetOnline` | apps/driver/lib/services/ping_transmitter.dart:44-50 | flushes exactly on the change from offline to online |
| `PingTransmission.PingTransmitter.FlushQueue` | apps/driver/lib/services/ping_transmitter.dart:54-65 | attempts every queued ping once in time order; the new queue is exactly the failed ones |
| `LoopWalk.WalkStep` | apps/dashboard/src/sim/fleetSimulation.ts:298-312 | a turn of the segment loop leaves the same destination with less to do: the termination measure over reals |
| `LoopWalk.WalkStaysOnLoop` | apps/dashboard/src/sim/fleetSimulation.ts:298-312 | the fraction stays in [0, 1) and the index on the route, for every distance |
| `LoopWalk.ArcIsInjective` | apps/dashboard/src/sim/fleetSimulation.ts:298-312 | arc length names the spots of the loop |
| `LoopWalk.WalkAddsArc` | apps/dashboard/src/sim/fleetSimulation.ts:298-312 | a walk of d advances the arc length by d, less one loop length per lap |
| `LoopWalk.WalkIsArcLength` | apps/dashboard/src/sim/fleetSimulation.ts:298-312 | a spot is where a walk of d ends iff it is d further along the loop, modulo laps |
| `LoopWalk.WalkFacesForward` | apps/dashboard/src/sim/fleetSimulation.ts:311 | after moving, the heading is that of the segment just travelled |
| `LoopWalk.WalksCompose` | apps/dashboard/src/sim/fleetSimulation.ts:295-312 | walking d1 then d2 equals walking d1 + d2: index, fraction and heading |
| `LoopWalk.TicksAreOneWalk` | apps/dashboard/src/sim/fleetSimulation.ts:295-312 | any sequence of walks is one walk of the summed distance |
| `LoopWalk.ReturnsAfterFullLoops` | apps/dashboard/src/sim/fleetSimulation.ts:295-312 | a walk ends where it began iff its distance is a whole number of loops |
| `LoopWalk.RouteLength` | apps/dashboard/src/sim/fleetSimulation.ts:207-213 | the summed segment lengths; the walked loop is one metre longer per zero-length segment |
| `LoopWalk.LoopSpeedIsLeast` | apps/dashboard/src/sim/fleetSimulation.ts:215-218 | the speed of a loop is the least that is at least 8 and covers the route in the target time |
| `LoopWalk.LoopTakesTargetTime` | apps/dashboard/src/sim/fleetSimulation.ts:215-218 | above the minimum speed a vehicle is back at its start after the target time iff the route has no zero-length segment |
| `FleetRuns.TickIsOnSegment` | apps/dashboard/src/sim/fleetSimulation.ts:314-317 | a tick reports a point of the closed route segment of its place, and its vertex when the fraction is zero |
| `FleetRuns.TicksAreEven` | apps/dashboard/src/sim/fleetSimulation.ts:314-317 | two places f and g on one segment report points that differ by (g - f) times the edge, in both coordinates |
| `FleetRuns.TickCoversDistance` | apps/dashboard/src/sim/fleetSimulation.ts:290-312 | a tick of dt milliseconds advances the arc length by speed times dt / 1000, modulo laps |
| `FleetRuns.TickFacesForward` | apps/dashboard/src/sim/fleetSimulation.ts:311 | after a tick that moves, the heading is the bearing of the route segment just travelled |
| `FleetRuns.ReportTells` | apps/dashboard/src/sim/fleetSimulation.ts:319-349 | a tick reports that point with heading and speed in km/h as nearest whole numbers, then each zone whose membership changed, once, in zone order, with kind and label |
| `FleetRuns.RideIsOneWalk` | apps/dashboard/src/sim/fleetSimulation.ts:290-317 | however time is cut into ticks, a vehicle ends where one walk of the whole distance takes it |
| `FleetRuns.RideIsOneTick` | apps/dashboard/src/sim/fleetSimulation.ts:290-349 | and is in every respect, position and zones included, as after one tick of the summed time |
| `FleetRuns.RideLogIsExplained` | apps/dashboard/src/sim/fleetSimulation.ts:333-349 | after any run, replaying a vehicle's events gives the zones containing its point, and each zone's events alternate |
| `FleetRuns.RectangleZoneIsHalfOpenBox` | apps/dashboard/src/sim/fleetSimulation.ts:81-92 | on a rectangular zone the even-odd test is the half-open box |
| `FleetSimulationObject.PointInRing` | apps/dashboard/src/sim/fleetSimulation.ts:81-92 | the loop computes the ray parity of the ring without its closing position |
| `FleetSimulationObject.SimVehicle.constructor` | apps/dashboard/src/sim/fleetSimulation.ts:266-288 | a vehicle starts on a route vertex, inside exactly the zones that contain it |
| `FleetSimulationObject.SimVehicle.Advance` | apps/dashboard/src/sim/fleetSimulation.ts:295-312 | the while loop terminates and ends at the walk's place and heading |
| `FleetSimulationObject.SimVehicle.UpdateZones` | apps/dashboard/src/sim/fleetSimulation.ts:333-349 | events are the membership changes in zone order; the inside set becomes the containing zones |
| `FleetSimulationObject.SimVehicle.Tick` | apps/dashboard/src/sim/fleetSimulation.ts:294-350 | performs the tick of those theorems: moves, interpolates, reports the position and then the zone events |
| `FleetSimulationObject.FleetSimulation.Tick` | apps/dashboard/src/sim/fleetSimulation.ts:290-353 | every vehicle ticks by its own state alone; frames come in fleet order |

## Left out

- Floating-point rounding: coordinates, fractions and tolerances are reals, so the tolerance of the boundary test is a parameter and the simulation's arc-length laws are exact.
- Haversine distance, bearings and segment lengths: the near test is an arbitrary predicate on two stops asked in input order, and a `Metric` is an arbitrary pair of functions with non-negative lengths.
- OR-Tools search quality and time limit: the tour solver is an arbitrary function returning a permutation of the cluster indices.
- PostGIS and Redis adapters, HTTP and WebSocket handlers, SQL migrations, authentication, views and styling: foreign systems, plumbing or finite tables.
- The wire between the dashboard client and the hub: the client sends `{event, payload}` while the server reads `data`, so no joint claim is made.
- Validation of requests and of new deliveries: its outcome is an input, because the rules are lists of independent checks.
- Interleavings inside the management services: each service call is atomic; persistence and publication of a route after its stops are built are not modelled.
- Exceptions from repositories and from a sender: every send, write and publish has a boolean outcome.
- Library sorts are insertion sorts proved against what they promise: a strictly sorted batch for the engine, a sorted permutation for the ping queue.
- `OptimizedStops`: the dictionary from key to stop holds positions in the stop list instead of references to the stop objects.
- `RetryRuns`: queue entries are values, not shared objects; an entry is only ever held in one place, which is itself proved.
- Hub status listeners and the room-name wrappers around `SubscribeRoom` and `UnsubscribeRoom`: they add a callback and a string prefix.
- The gap between the room-size check and the broadcast of the hub's zone-event sender: the sender is an arbitrary oracle.
- The socket client's inbound messages, and exceptions: of a listener, of the transport factory, and of a browser socket asked to send before it is open. Event listeners and newly added state listeners that call the client are application calls. Listeners that answer each other for ever are left out; the order in which a transport announces subscriptions is arbitrary.
- String lengths count characters, not UTF-16 code units, in the failure-reason bound.
- The ping queue's default capacity and its `clear`, which nothing in the transmitter uses.
- Delivery addresses, recipients, weights, tokens and creation times: carried along unchanged by the services.
- The curve smoothing, random loops and constant routes of the simulation: routes, speeds and starting places are arbitrary; frame timestamps are dropped.
