/** The hub object: maps and client objects updated in place, under one lock.
  *
  * `View` reads the object as a value of `HubRuns.Hub`; every method is proved to perform the
  * corresponding operation there, so the theorems over runs apply to the object.
  */
module HubService {
  import opened HubRuns

  type Message = string

  /** A registered connection; its sink is modelled by the messages delivered to it. */
  class Client {
    const connID: ConnId
    const key: Key
    var rooms: set<Room>
    var inbox: seq<Message>

    constructor (connID: ConnId, key: Key)
      ensures this.connID == connID && this.key == key && rooms == {} && inbox == []
    {
      this.connID := connID;
      this.key := key;
      rooms := {};
      inbox := [];
    }
  }

  type RoomMap = map<Room, map<ConnId, Client>>

  /** after is before with client c listed in every room of rs. */
  ghost predicate Listed(after: RoomMap, before: RoomMap, c: Client, rs: set<Room>) {
    && (forall r :: r in after <==> r in before || r in rs)
    && (forall r :: r in after && r !in rs ==> after[r] == before[r])
    && (forall r :: r in rs ==> after[r] == (if r in before then before[r] else map[])[c.connID := c])
  }

  /** after is before with connection id struck from every room of rs, empty rooms dropped. */
  ghost predicate Struck(after: RoomMap, before: RoomMap, id: ConnId, rs: set<Room>) {
    && (forall r :: r in after <==> r in before && !(r in rs && before[r] - {id} == map[]))
    && (forall r :: r in after ==> after[r] == if r in rs then before[r] - {id} else before[r])
  }

  ghost function MemberIds(rooms: RoomMap): map<Room, set<ConnId>> {
    map r | r in rooms :: rooms[r].Keys
  }

  /** Both sides of the index name the same client object. */
  ghost predicate SameObjects(clients: map<ConnId, Client>, rooms: RoomMap) {
    forall r, id :: r in rooms && id in rooms[r] ==> id in clients && rooms[r][id] == clients[id]
  }

  lemma ListedObjects(clients: map<ConnId, Client>, before: RoomMap, c: Client, after: RoomMap, rs: set<Room>)
    requires SameObjects(clients, before) && Listed(after, before, c, rs)
    requires c.connID in clients && clients[c.connID] == c
    ensures SameObjects(clients, after)
  {
  }

  lemma StruckObjects(clients: map<ConnId, Client>, before: RoomMap, id: ConnId, after: RoomMap, rs: set<Room>)
    requires SameObjects(clients, before) && Struck(after, before, id, rs)
    ensures SameObjects(clients, after)
  {
  }

  lemma ListedIds(after: RoomMap, before: RoomMap, c: Client, rs: set<Room>)
    requires Listed(after, before, c, rs)
    ensures MemberIds(after) == JoinAll(MemberIds(before), c.connID, rs)
  {
    forall r | r in after
      ensures after[r].Keys == (if r in before then before[r].Keys else {}) + if r in rs then {c.connID} else {}
    {
    }
  }

  lemma StruckIds(after: RoomMap, before: RoomMap, id: ConnId, rs: set<Room>)
    requires Struck(after, before, id, rs)
    ensures MemberIds(after) == LeaveAll(MemberIds(before), id, rs)
  {
    forall r | r in before ensures (before[r] - {id} == map[]) == (before[r].Keys - {id} == {}) {
      EmptyByKeys(before[r], id);
    }
  }

  lemma EmptyByKeys<K, V>(m: map<K, V>, id: K)
    ensures (m - {id} == map[]) == (m.Keys - {id} == {})
  {
    assert (m - {id}).Keys == m.Keys - {id};
    if m.Keys - {id} == {} {
      assert forall k :: k !in (m - {id}).Keys;
    }
  }

  class HubObject {
    var clients: map<ConnId, Client>
    var rooms: RoomMap
    var sessions: map<Key, set<Room>>
    var status: map<Key, bool>
    /** The object read as a value; `Mirrors` ties it to the fields. */
    ghost var view: Hub

    ghost predicate Mirrors()
      reads this, clients.Values
    {
      && clients.Keys == view.clients.Keys
      && (forall id :: id in clients ==>
        clients[id].connID == id && view.clients[id] == Conn(clients[id].key, clients[id].rooms))
      && MemberIds(rooms) == view.rooms
      && sessions == view.sessions && status == view.status
    }

    ghost predicate Valid()
      reads this, clients.Values
    {
      Mirrors() && SameObjects(clients, rooms) && Indexed(view)
    }

    constructor ()
      ensures Valid() && view == NEW
    {
      clients, rooms, sessions, status, view := map[], map[], map[], map[], NEW;
    }

    method JoinLocked(c: Client, room: Room)
      modifies this, c
      ensures clients == old(clients) && status == old(status) && view == old(view)
      ensures c.rooms == old(c.rooms) + {room} && c.inbox == old(c.inbox)
      ensures Listed(rooms, old(rooms), c, {room})
      ensures sessions == old(sessions)[c.key := if c.key in old(sessions) then old(sessions)[c.key] + {room}
        else {room}]
    {
      if room !in rooms {
        rooms := rooms[room := map[]];
      }
      rooms := rooms[room := rooms[room][c.connID := c]];
      c.rooms := c.rooms + {room};
      if c.key in sessions {
        sessions := sessions[c.key := sessions[c.key] + {room}];
      } else {
        sessions := sessions[c.key := {room}];
      }
    }

    method RemoveFromRoomLocked(room: Room, connID: ConnId)
      modifies this
      ensures clients == old(clients) && status == old(status) && sessions == old(sessions) && view == old(view)
      ensures Struck(rooms, old(rooms), connID, {room})
    {
      if room !in rooms {
        return;
      }
      var members := rooms[room] - {connID};
      rooms := rooms[room := members];
      if members == map[] {
        rooms := rooms - {room};
      }
    }

    method LeaveLocked(c: Client, room: Room)
      modifies this, c
      ensures clients == old(clients) && status == old(status) && sessions == old(sessions) && view == old(view)
      ensures Struck(rooms, old(rooms), c.connID, {room})
      ensures c.rooms == old(c.rooms) - {room} && c.inbox == old(c.inbox)
    {
      RemoveFromRoomLocked(room, c.connID);
      c.rooms := c.rooms - {room};
    }

    /** The resume loop: joins the session's rooms one by one. */
    method Resume(c: Client, prior: set<Room>)
      requires c.key in sessions && sessions[c.key] == prior
      modifies this, c
      ensures clients == old(clients) && status == old(status) && sessions == old(sessions) && view == old(view)
      ensures c.rooms == old(c.rooms) + prior && c.inbox == old(c.inbox)
      ensures Listed(rooms, old(rooms), c, prior)
    {
      var todo := prior;
      while todo != {}
        invariant todo <= prior && c.rooms == old(c.rooms) + (prior - todo) && c.inbox == old(c.inbox)
        invariant clients == old(clients) && status == old(status) && sessions == old(sessions) && view == old(view)
        invariant Listed(rooms, old(rooms), c, prior - todo)
      {
        var room :| room in todo;
        JoinLocked(c, room);
        assert prior + {room} == prior;
        todo := todo - {room};
      }
    }

    /** Registers a connection and resumes its session's rooms. */
    method Connect(connID: ConnId, key: Key) returns (c: Client)
      requires Valid()
      modifies this
      ensures fresh(c) && c.connID == connID && c.key == key
      ensures clients == old(clients)[connID := c]
      ensures view == Connected(old(view), connID, key) && Mirrors()
      ensures connID !in old(view).clients || old(view).clients[connID].rooms <= SessionRooms(old(view), key) ==>
        Valid()
    {
      c := Register(connID, key);
      ConnectKeepsIndexIff(old(view), connID, key);
      if connID !in old(view).clients || old(view).clients[connID].rooms <= SessionRooms(old(view), key) {
        ConnectedObjects(old(clients), old(rooms), old(view), c, rooms, SessionRooms(old(view), key));
      }
    }

    method Register(connID: ConnId, key: Key) returns (c: Client)
      requires Mirrors()
      modifies this
      ensures fresh(c) && c.connID == connID && c.key == key
      ensures clients == old(clients)[connID := c]
      ensures view == Connected(old(view), connID, key) && Mirrors()
      ensures Listed(rooms, old(rooms), c, SessionRooms(old(view), key))
    {
      c := new Client(connID, key);
      clients := clients[connID := c];
      var prior: set<Room> := {};
      if key in sessions {
        prior := sessions[key];
      } else {
        sessions := sessions[key := prior];
      }
      Resume(c, prior);
      status := status[key := true];
      view := Connected(view, connID, key);
      ListedIds(rooms, old(rooms), c, prior);
    }

    /** Joins a live connection to a room and persists it on its session; unknown ids do nothing. */
    method SubscribeRoom(connID: ConnId, room: Room)
      requires Valid()
      modifies this, if connID in clients then {clients[connID]} else {}
      ensures Valid() && clients == old(clients)
      ensures view == Subscribed(old(view), connID, room)
    {
      OtherCommandsKeepIndex(view, Command.Subscribe(connID, room));
      if connID in clients {
        JoinClient(clients[connID], room);
        ListedObjects(clients, old(rooms), clients[connID], rooms, {room});
      }
    }

    method JoinClient(c: Client, room: Room)
      requires Mirrors() && c.connID in clients && clients[c.connID] == c && c.key in sessions
      modifies this, c
      ensures Mirrors() && clients == old(clients)
      ensures view == Subscribed(old(view), c.connID, room)
      ensures Listed(rooms, old(rooms), c, {room})
    {
      JoinLocked(c, room);
      ListedIds(rooms, old(rooms), c, {room});
      view := Subscribed(view, c.connID, room);
    }

    /** Removes a connection from a room and forgets it on the session. */
    method UnsubscribeRoom(connID: ConnId, room: Room)
      requires Valid()
      modifies this, if connID in clients then {clients[connID]} else {}
      ensures Valid() && clients == old(clients)
      ensures view == Unsubscribed(old(view), connID, room)
    {
      OtherCommandsKeepIndex(view, Command.Unsubscribe(connID, room));
      if connID in clients {
        LeaveClient(clients[connID], room);
        StruckObjects(clients, old(rooms), connID, rooms, {room});
      }
    }

    method LeaveClient(c: Client, room: Room)
      requires Mirrors() && c.connID in clients && clients[c.connID] == c
      modifies this, c
      ensures Mirrors() && clients == old(clients)
      ensures view == Unsubscribed(old(view), c.connID, room)
      ensures Struck(rooms, old(rooms), c.connID, {room})
    {
      LeaveLocked(c, room);
      if c.key in sessions {
        sessions := sessions[c.key := sessions[c.key] - {room}];
      }
      StruckIds(rooms, old(rooms), c.connID, {room});
      view := Unsubscribed(view, c.connID, room);
    }

    /** Removes a connection from every room; its session set stays for a later resume. */
    method Disconnect(connID: ConnId)
      requires Valid()
      modifies this
      ensures Valid() && clients == old(clients) - {connID}
      ensures view == Disconnected(old(view), connID)
    {
      OtherCommandsKeepIndex(view, Command.Disconnect(connID));
      if connID in clients {
        RemoveClient(clients[connID]);
        DisconnectedObjects(old(clients), old(rooms), old(view), old(clients)[connID], rooms);
      }
    }

    method RemoveClient(c: Client)
      requires Mirrors() && c.connID in clients && clients[c.connID] == c
      modifies this
      ensures Mirrors() && clients == old(clients) - {c.connID}
      ensures view == Disconnected(old(view), c.connID)
      ensures Struck(rooms, old(rooms), c.connID, old(view).clients[c.connID].rooms)
    {
      LeaveAllRooms(c);
      clients := clients - {c.connID};
      status := status[c.key := false];
      view := Disconnected(view, c.connID);
      StruckIds(rooms, old(rooms), c.connID, c.rooms);
    }

    /** The disconnect loop: strikes the connection from its rooms one by one. */
    method LeaveAllRooms(c: Client)
      modifies this
      ensures clients == old(clients) && status == old(status) && sessions == old(sessions) && view == old(view)
      ensures Struck(rooms, old(rooms), c.connID, c.rooms)
    {
      var todo := c.rooms;
      while todo != {}
        invariant todo <= c.rooms && clients == old(clients) && status == old(status) && sessions == old(sessions)
          && view == old(view)
        invariant Struck(rooms, old(rooms), c.connID, c.rooms - todo)
      {
        var room :| room in todo;
        RemoveFromRoomLocked(room, c.connID);
        todo := todo - {room};
      }
    }

    /** The client objects currently in the room, by their own room sets. */
    ghost function Recipients(room: Room): set<Client>
      reads this, clients.Values
    {
      set id | id in clients && room in clients[id].rooms :: clients[id]
    }

    /** The clients in a room at this moment. */
    method Snapshot(room: Room) returns (targets: set<Client>)
      requires Valid()
      ensures targets == Recipients(room)
    {
      targets := {};
      if room in rooms {
        targets := rooms[room].Values;
      }
      forall c | c in targets ensures c in Recipients(room) {
        var id :| id in rooms[room] && rooms[room][id] == c;
        assert id in MemberIds(rooms)[room];
        assert id in view.clients && room in view.clients[id].rooms;
      }
      forall c | c in Recipients(room) ensures c in targets {
        var id :| id in clients && room in clients[id].rooms && clients[id] == c;
        assert room in view.clients[id].rooms;
        assert room in rooms && id in MemberIds(rooms)[room] && rooms[room][id] == c;
      }
    }

    /** Hands a broadcast to every client in the room, once each, and to nobody else. */
    method DeliverLocal(room: Room, msg: Message)
      requires Valid()
      modifies clients.Values`inbox
      ensures Valid()
      ensures forall id :: id in clients ==>
        clients[id].inbox == old(clients[id].inbox) + if room in clients[id].rooms then [msg] else []
    {
      var targets := Snapshot(room);
      DeliverAll(targets, msg);
    }
  }

  /** Delivers to each target once; the hub may have changed since the targets were collected. */
  method DeliverAll(targets: set<Client>, msg: Message)
    modifies targets`inbox
    ensures forall c :: c in targets ==> c.inbox == old(c.inbox) + [msg]
  {
    var todo := targets;
    while todo != {}
      invariant todo <= targets
      invariant forall c :: c in targets ==> c.inbox == old(c.inbox) + if c in todo then [] else [msg]
    {
      var c :| c in todo;
      c.inbox := c.inbox + [msg];
      todo := todo - {c};
    }
  }

  // ---------- Object identity across connect and disconnect ----------

  lemma ConnectedObjects(clients: map<ConnId, Client>, before: RoomMap, h: Hub, c: Client, after: RoomMap,
      prior: set<Room>)
    requires Indexed(h) && MemberIds(before) == h.rooms && clients.Keys == h.clients.Keys
    requires SameObjects(clients, before)
    requires Listed(after, before, c, prior)
    requires c.connID !in clients || h.clients[c.connID].rooms <= prior
    ensures SameObjects(clients[c.connID := c], after)
  {
    forall r, id | r in after && id in after[r]
      ensures id in clients[c.connID := c] && after[r][id] == clients[c.connID := c][id]
    {
      if r !in prior {
        assert id in h.rooms[r];
        assert id in h.clients && r in h.clients[id].rooms;
      }
    }
  }

  lemma DisconnectedObjects(clients: map<ConnId, Client>, before: RoomMap, h: Hub, c: Client, after: RoomMap)
    requires Indexed(h) && MemberIds(before) == h.rooms && clients.Keys == h.clients.Keys
    requires SameObjects(clients, before)
    requires c.connID in clients && Struck(after, before, c.connID, h.clients[c.connID].rooms)
    ensures SameObjects(clients - {c.connID}, after)
  {
    forall r, id | r in after && id in after[r]
      ensures id in clients - {c.connID} && after[r][id] == (clients - {c.connID})[id]
    {
      assert id in before[r] && id in h.rooms[r];
    }
  }
}
