/** The streaming hub as a state machine over its locked operations.
  *
  * Each operation runs under the hub's lock, so a run is a sequence of commands. The theorems
  * say what the hub's maps contain after any run, by folds over the command history alone.
  */
module HubRuns {
  import opened Sequences

  type ConnId = string
  type Key = string
  type Room = string

  datatype Conn = Conn(key: Key, rooms: set<Room>)

  datatype Hub = Hub(
    clients: map<ConnId, Conn>,
    rooms: map<Room, set<ConnId>>,
    sessions: map<Key, set<Room>>,
    status: map<Key, bool>)

  datatype Command =
    | Connect(id: ConnId, key: Key)
    | Subscribe(id: ConnId, room: Room)
    | Unsubscribe(id: ConnId, room: Room)
    | Disconnect(id: ConnId)

  const NEW := Hub(map[], map[], map[], map[])

  // ---------- The operations ----------

  function SessionRooms(h: Hub, key: Key): set<Room> {
    if key in h.sessions then h.sessions[key] else {}
  }

  function Members(h: Hub, room: Room): set<ConnId> {
    if room in h.rooms then h.rooms[room] else {}
  }

  /** Membership map after connection id joined every room of rs. */
  function JoinAll(rooms: map<Room, set<ConnId>>, id: ConnId, rs: set<Room>): map<Room, set<ConnId>> {
    map r | r in rooms.Keys + rs ::
      (if r in rooms then rooms[r] else {}) + (if r in rs then {id} else {})
  }

  /** Membership map after connection id left every room of rs; empty rooms are dropped. */
  function LeaveAll(rooms: map<Room, set<ConnId>>, id: ConnId, rs: set<Room>): map<Room, set<ConnId>> {
    map r | r in rooms && !(r in rs && rooms[r] - {id} == {}) :: if r in rs then rooms[r] - {id} else rooms[r]
  }

  function Connected(h: Hub, id: ConnId, key: Key): Hub {
    var prior := SessionRooms(h, key);
    Hub(h.clients[id := Conn(key, prior)], JoinAll(h.rooms, id, prior), h.sessions[key := prior], h.status[key := true])
  }

  function Subscribed(h: Hub, id: ConnId, room: Room): Hub {
    if id !in h.clients then h
    else
      var c := h.clients[id];
      h.(clients := h.clients[id := c.(rooms := c.rooms + {room})],
         rooms := JoinAll(h.rooms, id, {room}),
         sessions := h.sessions[c.key := SessionRooms(h, c.key) + {room}])
  }

  function Unsubscribed(h: Hub, id: ConnId, room: Room): Hub {
    if id !in h.clients then h
    else
      var c := h.clients[id];
      h.(clients := h.clients[id := c.(rooms := c.rooms - {room})],
         rooms := LeaveAll(h.rooms, id, {room}),
         sessions := if c.key in h.sessions then h.sessions[c.key := h.sessions[c.key] - {room}] else h.sessions)
  }

  function Disconnected(h: Hub, id: ConnId): Hub {
    if id !in h.clients then h
    else
      var c := h.clients[id];
      Hub(h.clients - {id}, LeaveAll(h.rooms, id, c.rooms), h.sessions, h.status[c.key := false])
  }

  function Apply(h: Hub, c: Command): Hub {
    match c
    case Connect(id, key) => Connected(h, id, key)
    case Subscribe(id, room) => Subscribed(h, id, room)
    case Unsubscribe(id, room) => Unsubscribed(h, id, room)
    case Disconnect(id) => Disconnected(h, id)
  }

  function Run(cs: seq<Command>): Hub {
    if cs == [] then NEW else Apply(Run(cs[..|cs| - 1]), cs[|cs| - 1])
  }

  // ---------- The two-way index ----------

  /** A connection is in a room's member set iff it is live and its own set has the room; no
    * empty room is kept; every live connection's session is recorded. */
  ghost predicate Indexed(h: Hub) {
    && (forall r, id :: (r in h.rooms && id in h.rooms[r]) <==> (id in h.clients && r in h.clients[id].rooms))
    && (forall r :: r in h.rooms ==> h.rooms[r] != {})
    && (forall id :: id in h.clients ==> h.clients[id].key in h.sessions)
  }

  /** The connections a room is meant to reach. */
  function Subscribers(h: Hub, room: Room): set<ConnId> {
    set id | id in h.clients && room in h.clients[id].rooms
  }

  lemma MembersAreSubscribers(h: Hub, room: Room)
    requires Indexed(h)
    ensures Members(h, room) == Subscribers(h, room)
  {
    assert forall id :: id in Members(h, room) <==> (room in h.rooms && id in h.rooms[room]);
  }

  lemma OtherCommandsKeepIndex(h: Hub, c: Command)
    requires Indexed(h) && !c.Connect?
    ensures Indexed(Apply(h, c))
  {
  }

  lemma ConnectMembers(h: Hub, id: ConnId, key: Key, r: Room, other: ConnId)
    ensures var g := Connected(h, id, key);
      (r in g.rooms && other in g.rooms[r]) <==>
        (r in h.rooms && other in h.rooms[r]) || (other == id && r in SessionRooms(h, key))
  {
  }

  lemma ConnectKeepsIndex(h: Hub, id: ConnId, key: Key)
    requires Indexed(h) && (id !in h.clients || h.clients[id].rooms <= SessionRooms(h, key))
    ensures Indexed(Connected(h, id, key))
  {
    var g := Connected(h, id, key);
    forall r, other
      ensures (r in g.rooms && other in g.rooms[r]) <==> (other in g.clients && r in g.clients[other].rooms)
    {
      ConnectMembers(h, id, key, r, other);
    }
  }

  /** Exactly when `Connect` keeps the index: the id is fresh, or everything its replaced
    * connection had joined is in the resumed session. */
  lemma ConnectKeepsIndexIff(h: Hub, id: ConnId, key: Key)
    requires Indexed(h)
    ensures Indexed(Connected(h, id, key)) <==> (id !in h.clients || h.clients[id].rooms <= SessionRooms(h, key))
  {
    if id !in h.clients || h.clients[id].rooms <= SessionRooms(h, key) {
      ConnectKeepsIndex(h, id, key);
    } else {
      var r :| r in h.clients[id].rooms && r !in SessionRooms(h, key);
      var g := Connected(h, id, key);
      ConnectMembers(h, id, key, r, id);
      assert r in h.rooms && id in h.rooms[r];
      assert r in g.rooms && id in g.rooms[r] && r !in g.clients[id].rooms;
    }
  }

  /** Every connection id is unused when it connects. */
  ghost predicate FreshIds(cs: seq<Command>) {
    forall k :: 0 <= k < |cs| && cs[k].Connect? ==> cs[k].id !in Run(cs[..k]).clients
  }

  lemma {:induction false} RunIsIndexed(cs: seq<Command>)
    requires FreshIds(cs)
    ensures Indexed(Run(cs))
  {
    if cs != [] {
      var n := |cs| - 1;
      var before := cs[..n];
      forall k | 0 <= k < |before| && before[k].Connect? ensures before[k].id !in Run(before[..k]).clients {
        assert before[..k] == cs[..k];
      }
      RunIsIndexed(before);
      if cs[n].Connect? {
        ConnectKeepsIndexIff(Run(before), cs[n].id, cs[n].key);
      } else {
        OtherCommandsKeepIndex(Run(before), cs[n]);
      }
    }
  }

  ghost predicate AlwaysIndexed(cs: seq<Command>) {
    Indexed(Run(cs)) && (cs == [] || AlwaysIndexed(cs[..|cs| - 1]))
  }

  /** A connection that reuses a live id resumes a session with all rooms of the one it replaces. */
  ghost predicate Resumes(h: Hub, c: Command) {
    c.Connect? && c.id in h.clients ==> h.clients[c.id].rooms <= SessionRooms(h, c.key)
  }

  ghost predicate AllResume(cs: seq<Command>) {
    cs == [] || (AllResume(cs[..|cs| - 1]) && Resumes(Run(cs[..|cs| - 1]), cs[|cs| - 1]))
  }

  /** Over any run: the index holds all along exactly when every connect that reuses a live id resumes. */
  lemma {:induction false} AlwaysIndexedIff(cs: seq<Command>)
    ensures AlwaysIndexed(cs) <==> AllResume(cs)
  {
    if cs != [] {
      var before, c := cs[..|cs| - 1], cs[|cs| - 1];
      AlwaysIndexedIff(before);
      if AlwaysIndexed(before) {
        assert Indexed(Run(before));
        if c.Connect? {
          ConnectKeepsIndexIff(Run(before), c.id, c.key);
        } else {
          OtherCommandsKeepIndex(Run(before), c);
        }
      }
    }
  }

  // ---------- Histories ----------

  /** The session key of a live connection, read off the history. */
  ghost function LiveKey(cs: seq<Command>, id: ConnId): Option<Key> {
    if cs == [] then None
    else
      var before, c := cs[..|cs| - 1], cs[|cs| - 1];
      if c.id != id then LiveKey(before, id)
      else if c.Connect? then Some(c.key)
      else if c.Disconnect? then None
      else LiveKey(before, id)
  }

  /** Rooms of a session: the subscribe and unsubscribe commands of its live connections. */
  ghost function SessionFold(cs: seq<Command>, key: Key): set<Room> {
    if cs == [] then {}
    else
      var before, c := cs[..|cs| - 1], cs[|cs| - 1];
      if LiveKey(before, c.id) != Some(key) then SessionFold(before, key)
      else if c.Subscribe? then SessionFold(before, key) + {c.room}
      else if c.Unsubscribe? then SessionFold(before, key) - {c.room}
      else SessionFold(before, key)
  }

  /** Rooms of a connection: its session's rooms when it connected, then its own commands. */
  ghost function OwnFold(cs: seq<Command>, id: ConnId): set<Room> {
    if cs == [] then {}
    else
      var before, c := cs[..|cs| - 1], cs[|cs| - 1];
      if c.id != id then OwnFold(before, id)
      else match c
        case Connect(_, key) => SessionFold(before, key)
        case Subscribe(_, room) => OwnFold(before, id) + {room}
        case Unsubscribe(_, room) => OwnFold(before, id) - {room}
        case Disconnect(_) => {}
  }

  /** The last connect or disconnect of a session's connections. */
  ghost function StatusFold(cs: seq<Command>, key: Key): bool {
    if cs == [] then false
    else
      var before, c := cs[..|cs| - 1], cs[|cs| - 1];
      if c.Connect? && c.key == key then true
      else if c.Disconnect? && LiveKey(before, c.id) == Some(key) then false
      else StatusFold(before, key)
  }

  lemma {:induction false} LiveInRun(cs: seq<Command>, id: ConnId)
    ensures id in Run(cs).clients <==> LiveKey(cs, id).Some?
    ensures id in Run(cs).clients ==> LiveKey(cs, id) == Some(Run(cs).clients[id].key)
  {
    if cs != [] {
      LiveInRun(cs[..|cs| - 1], id);
    }
  }

  /** After any run, with any number of connections per session: the session sets are the fold
    * of the session's commands, and the status is its last connect or disconnect. */
  lemma {:induction false} SessionsAreFolds(cs: seq<Command>, key: Key)
    ensures SessionRooms(Run(cs), key) == SessionFold(cs, key)
    ensures (key in Run(cs).status && Run(cs).status[key]) <==> StatusFold(cs, key)
  {
    if cs != [] {
      var before, c := cs[..|cs| - 1], cs[|cs| - 1];
      SessionsAreFolds(before, key);
      LiveInRun(before, c.id);
    }
  }

  /** A live connection's rooms are the session's rooms at its connect plus its own commands. */
  lemma {:induction false} RoomsAreOwnFold(cs: seq<Command>, id: ConnId)
    requires id in Run(cs).clients
    ensures Run(cs).clients[id].rooms == OwnFold(cs, id)
  {
    if cs != [] {
      var before, c := cs[..|cs| - 1], cs[|cs| - 1];
      if c.Connect? {
        SessionsAreFolds(before, c.key);
      }
      if id in Run(before).clients {
        RoomsAreOwnFold(before, id);
      }
    }
  }

  /** A connect resumes exactly the session's fold. */
  lemma ConnectResumesSession(cs: seq<Command>, id: ConnId, key: Key)
    ensures var h := Run(cs + [Connect(id, key)]);
      id in h.clients && h.clients[id] == Conn(key, SessionFold(cs, key))
        && SessionRooms(h, key) == SessionFold(cs, key)
  {
    assert (cs + [Connect(id, key)])[..|cs|] == cs;
    SessionsAreFolds(cs, key);
  }

  // ---------- Rooms against session ----------

  /** Since id connected, no other live connection of its session subscribed or unsubscribed. */
  ghost predicate Undisturbed(cs: seq<Command>, id: ConnId) {
    if cs == [] then false
    else
      var before, c := cs[..|cs| - 1], cs[|cs| - 1];
      if c.id == id then c.Connect? || (!c.Disconnect? && Undisturbed(before, id))
      else
        && Undisturbed(before, id)
        && !((c.Subscribe? || c.Unsubscribe?) && LiveKey(before, c.id).Some?
          && LiveKey(before, c.id) == LiveKey(before, id))
  }

  /** An undisturbed live connection's rooms equal its session's set. */
  lemma {:induction false} UndisturbedRoomsAreSession(cs: seq<Command>, id: ConnId)
    requires Undisturbed(cs, id) && LiveKey(cs, id).Some?
    ensures OwnFold(cs, id) == SessionFold(cs, LiveKey(cs, id).value)
  {
    if cs != [] {
      var before, c := cs[..|cs| - 1], cs[|cs| - 1];
      if c.id != id || !c.Connect? {
        UndisturbedRoomsAreSession(before, id);
      }
    }
  }

  /** id has been its session's only live connection at every moment since it connected. */
  ghost predicate AlwaysAlone(cs: seq<Command>, id: ConnId) {
    if cs == [] then false
    else
      var before, c := cs[..|cs| - 1], cs[|cs| - 1];
      && Alone(cs, id)
      && if c.id == id then c.Connect? || (!c.Disconnect? && AlwaysAlone(before, id)) else AlwaysAlone(before, id)
  }

  ghost predicate Alone(cs: seq<Command>, id: ConnId) {
    forall other :: LiveKey(cs, other).Some? && LiveKey(cs, other) == LiveKey(cs, id) ==> other == id
  }

  lemma {:induction false} AloneIsUndisturbed(cs: seq<Command>, id: ConnId)
    requires AlwaysAlone(cs, id)
    ensures Undisturbed(cs, id)
  {
    if cs != [] {
      var before, c := cs[..|cs| - 1], cs[|cs| - 1];
      if !(c.id == id && c.Connect?) {
        AloneIsUndisturbed(before, id);
        if before != [] {
          assert Alone(before, id);
        }
      }
    }
  }

  /** While a session has only one live connection, the connection's rooms in the hub are
    * exactly the persisted session set. */
  lemma LoneConnectionMatchesSession(cs: seq<Command>, id: ConnId)
    requires id in Run(cs).clients && AlwaysAlone(cs, id)
    ensures Run(cs).clients[id].rooms == SessionRooms(Run(cs), Run(cs).clients[id].key)
  {
    LiveInRun(cs, id);
    RoomsAreOwnFold(cs, id);
    SessionsAreFolds(cs, Run(cs).clients[id].key);
    AloneIsUndisturbed(cs, id);
    UndisturbedRoomsAreSession(cs, id);
  }

  /** With two live connections an unsubscribe on one leaves the other in the room, and a
    * disconnect of one reports the session as disconnected. */
  lemma TwoConnectionsDiverge(key: Key, r: Room)
    ensures var up := [Connect("a", key), Subscribe("a", r), Connect("b", key)];
      var h, d := Run(up + [Unsubscribe("b", r)]), Run(up + [Disconnect("a")]);
      && "a" in h.clients && r in h.clients["a"].rooms && r !in SessionRooms(h, key)
      && "b" in d.clients && d.clients["b"].key == key && key in d.status && !d.status[key]
  {
    var one := [Connect("a", key)];
    var two := one + [Subscribe("a", r)];
    var up := two + [Connect("b", key)];
    assert Run([]) == NEW;
    assert one[..0] == [] && two[..1] == one && up[..2] == two;
    assert (up + [Unsubscribe("b", r)])[..3] == up && (up + [Disconnect("a")])[..3] == up;
    assert up == [Connect("a", key), Subscribe("a", r), Connect("b", key)];
    var h1 := Run(one);
    assert h1 == Connected(NEW, "a", key);
    var h2 := Run(two);
    assert h2 == Subscribed(h1, "a", r);
    var h3 := Run(up);
    assert h3 == Connected(h2, "b", key);
  }

  // ---------- Broadcasts interleaved with commands ----------

  /** A broadcast after its snapshot: who was in the room, who is still owed, who was served. */
  datatype Broadcast = Broadcast(room: Room, members: set<ConnId>, owed: set<ConnId>, served: seq<ConnId>)

  datatype World = World(hub: Hub, broadcasts: seq<Broadcast>)

  /** The snapshot is taken under the read lock, the deliveries happen after it is released. */
  datatype Step =
    | Locked(command: Command)
    | Snapshot(room: Room)
    | Deliver(broadcast: nat, id: ConnId)

  ghost predicate Enabled(w: World, s: Step) {
    match s
    case Locked(c) => c.Connect? ==> c.id !in w.hub.clients
    case Snapshot(_) => true
    case Deliver(k, id) => k < |w.broadcasts| && id in w.broadcasts[k].owed
  }

  function Take(w: World, s: Step): World
    requires s.Deliver? ==> s.broadcast < |w.broadcasts|
  {
    match s
    case Locked(c) => w.(hub := Apply(w.hub, c))
    case Snapshot(room) =>
      var members := Members(w.hub, room);
      w.(broadcasts := w.broadcasts + [Broadcast(room, members, members, [])])
    case Deliver(k, id) =>
      var b := w.broadcasts[k];
      w.(broadcasts := w.broadcasts[k := b.(owed := b.owed - {id}, served := b.served + [id])])
  }

  /** worlds is a run: it starts empty and every step is enabled. */
  ghost predicate IsRun(worlds: seq<World>, steps: seq<Step>) {
    && |worlds| == |steps| + 1
    && worlds[0] == World(NEW, [])
    && forall i :: 0 <= i < |steps| ==> Enabled(worlds[i], steps[i]) && worlds[i + 1] == Take(worlds[i], steps[i])
  }

  /** Served and owed split the snapshot, nobody served twice. */
  ghost predicate Accounted(b: Broadcast) {
    NoDuplicates(b.served) && Elements(b.served) + b.owed == b.members && Elements(b.served) !! b.owed
  }

  lemma DeliverKeepsAccount(b: Broadcast, id: ConnId)
    requires Accounted(b) && id in b.owed
    ensures Accounted(b.(owed := b.owed - {id}, served := b.served + [id]))
  {
    var served := b.served + [id];
    assert Elements(served) == Elements(b.served) + {id};
    assert id !in Elements(b.served);
    AppendNoDuplicates(b.served, [id]);
  }

  lemma {:induction false} WorldStaysAccounted(worlds: seq<World>, steps: seq<Step>, i: nat)
    requires IsRun(worlds, steps) && i < |worlds|
    ensures Indexed(worlds[i].hub)
    ensures forall k :: 0 <= k < |worlds[i].broadcasts| ==> Accounted(worlds[i].broadcasts[k])
  {
    if i > 0 {
      WorldStaysAccounted(worlds, steps, i - 1);
      var w, s := worlds[i - 1], steps[i - 1];
      assert Enabled(w, s) && worlds[i - 1 + 1] == Take(w, s);
      match s {
        case Locked(c) =>
          if c.Connect? {
            ConnectKeepsIndexIff(w.hub, c.id, c.key);
          } else {
            OtherCommandsKeepIndex(w.hub, c);
          }
        case Snapshot(_) =>
        case Deliver(k, id) =>
          DeliverKeepsAccount(w.broadcasts[k], id);
      }
    }
  }

  /** A broadcast keeps the room and snapshot it was born with. */
  lemma {:induction false} SnapshotIsKept(worlds: seq<World>, steps: seq<Step>, i: nat, j: nat, k: nat)
    requires IsRun(worlds, steps) && i <= j < |worlds| && k < |worlds[i].broadcasts|
    ensures k < |worlds[j].broadcasts|
    ensures worlds[j].broadcasts[k].room == worlds[i].broadcasts[k].room
    ensures worlds[j].broadcasts[k].members == worlds[i].broadcasts[k].members
    decreases j
  {
    if i < j {
      SnapshotIsKept(worlds, steps, i, j - 1, k);
      assert worlds[j - 1 + 1] == Take(worlds[j - 1], steps[j - 1]);
    }
  }

  /** However commands and deliveries interleave, a broadcast whose deliveries are finished has
    * served exactly the connections subscribed when its snapshot was taken, each once. */
  lemma BroadcastServesSnapshotOnce(worlds: seq<World>, steps: seq<Step>, i: nat, j: nat)
    requires IsRun(worlds, steps) && i < |steps| && steps[i].Snapshot? && i < j < |worlds|
    ensures var k := |worlds[i].broadcasts|;
      k < |worlds[j].broadcasts| &&
      var b := worlds[j].broadcasts[k];
      b.owed == {} ==> NoDuplicates(b.served) && Elements(b.served) == Subscribers(worlds[i].hub, steps[i].room)
  {
    var k := |worlds[i].broadcasts|;
    assert worlds[i + 1] == Take(worlds[i], steps[i]);
    WorldStaysAccounted(worlds, steps, i);
    WorldStaysAccounted(worlds, steps, j);
    MembersAreSubscribers(worlds[i].hub, steps[i].room);
    SnapshotIsKept(worlds, steps, i + 1, j, k);
    var b := worlds[j].broadcasts[k];
    assert Accounted(b);
  }
}
