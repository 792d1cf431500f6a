/** Sessions with several live connections: exactly when a connection's rooms and the session's
  * persisted set agree, and exactly when the reported status is right. */
module HubSessions {
  import opened HubRuns

  // ---------- Rooms against session, one command ----------

  predicate RoomsMatch(h: Hub, id: ConnId) {
    id in h.clients && h.clients[id].rooms == SessionRooms(h, h.clients[id].key)
  }

  /** c subscribes or unsubscribes another live connection of id's session. */
  predicate Foreign(h: Hub, c: Command, id: ConnId) {
    && (c.Subscribe? || c.Unsubscribe?)
    && c.id != id && c.id in h.clients && id in h.clients && h.clients[c.id].key == h.clients[id].key
  }

  /** The session set already is as the command leaves it. */
  predicate Harmless(h: Hub, c: Command)
    requires (c.Subscribe? || c.Unsubscribe?) && c.id in h.clients
  {
    c.Subscribe? <==> c.room in SessionRooms(h, h.clients[c.id].key)
  }

  /** Another connection's command keeps a matching connection matching exactly when it subscribes
    * to a room the session already has or unsubscribes from one it does not have. */
  lemma ForeignKeepsMatchIff(h: Hub, c: Command, id: ConnId)
    requires RoomsMatch(h, id) && Foreign(h, c, id)
    ensures RoomsMatch(Apply(h, c), id) <==> Harmless(h, c)
  {
    var g, key := Apply(h, c), h.clients[id].key;
    assert g.clients[id] == h.clients[id];
    if c.Subscribe? {
      assert c.room in SessionRooms(g, key);
    } else {
      assert c.room !in SessionRooms(g, key);
    }
  }

  lemma OtherCommandsKeepMatch(h: Hub, c: Command, id: ConnId)
    requires RoomsMatch(h, id) && !Foreign(h, c, id) && c != Disconnect(id)
    ensures RoomsMatch(Apply(h, c), id)
  {
  }

  // ---------- Rooms against session, whole runs ----------

  /** At every moment since it connected, id's rooms were the session's. */
  ghost predicate MatchedSince(cs: seq<Command>, id: ConnId) {
    && cs != [] && RoomsMatch(Run(cs), id)
    && ((cs[|cs| - 1].Connect? && cs[|cs| - 1].id == id) || MatchedSince(cs[..|cs| - 1], id))
  }

  /** id is live, and every command of another connection of its session since was harmless. */
  ghost predicate HarmlessSince(cs: seq<Command>, id: ConnId) {
    if cs == [] then false
    else
      var before, c := cs[..|cs| - 1], cs[|cs| - 1];
      if c.Connect? && c.id == id then true
      else
        && HarmlessSince(before, id) && c != Disconnect(id)
        && (Foreign(Run(before), c, id) ==> Harmless(Run(before), c))
  }

  /** Over any run: rooms and session set agreed all along iff every command of another connection
    * of the session was harmless when it was issued. */
  lemma {:induction false} MatchedSinceIff(cs: seq<Command>, id: ConnId)
    ensures MatchedSince(cs, id) <==> HarmlessSince(cs, id)
  {
    if cs != [] {
      var before, c := cs[..|cs| - 1], cs[|cs| - 1];
      MatchedSinceIff(before, id);
      MatchStep(Run(before), c, id, MatchedSince(before, id));
      if before == [] {
        assert Run(before) == NEW;
      } else if MatchedSince(before, id) {
        assert RoomsMatch(Run(before), id);
      }
    }
  }

  lemma MatchStep(h: Hub, c: Command, id: ConnId, matched: bool)
    requires matched ==> RoomsMatch(h, id)
    ensures c.Connect? && c.id == id ==> RoomsMatch(Apply(h, c), id)
    ensures matched && !(c.Connect? && c.id == id) ==>
      (RoomsMatch(Apply(h, c), id) <==> c != Disconnect(id) && (Foreign(h, c, id) ==> Harmless(h, c)))
  {
    if matched && Foreign(h, c, id) {
      ForeignKeepsMatchIff(h, c, id);
    } else if matched && c != Disconnect(id) {
      OtherCommandsKeepMatch(h, c, id);
    }
  }

  /** The last session command on room r since id connected was id's own, or put the session where
    * id's own membership already was. */
  ghost predicate Settled(cs: seq<Command>, id: ConnId, r: Room) {
    if cs == [] then false
    else
      var before, c := cs[..|cs| - 1], cs[|cs| - 1];
      if c.id == id && (c.Connect? || ((c.Subscribe? || c.Unsubscribe?) && c.room == r)) then true
      else if Foreign(Run(before), c, id) && c.room == r then
        c.Subscribe? <==> r in Run(before).clients[id].rooms
      else Settled(before, id, r)
  }

  ghost predicate AgreeOn(h: Hub, id: ConnId, r: Room)
    requires id in h.clients
  {
    r in h.clients[id].rooms <==> r in SessionRooms(h, h.clients[id].key)
  }

  lemma AgreeStep(h: Hub, c: Command, id: ConnId, r: Room)
    requires id in Apply(h, c).clients
    ensures if c.id == id && (c.Connect? || ((c.Subscribe? || c.Unsubscribe?) && c.room == r))
      then AgreeOn(Apply(h, c), id, r)
      else id in h.clients && (AgreeOn(Apply(h, c), id, r) <==>
        if Foreign(h, c, id) && c.room == r then (c.Subscribe? <==> r in h.clients[id].rooms) else AgreeOn(h, id, r))
  {
  }

  /** After any run, exactly when a live connection and its session agree on a room, repairs and
    * reconnects included. */
  lemma {:induction false} AgreeIffSettled(cs: seq<Command>, id: ConnId, r: Room)
    requires id in Run(cs).clients
    ensures AgreeOn(Run(cs), id, r) <==> Settled(cs, id, r)
  {
    if cs != [] {
      var before, c := cs[..|cs| - 1], cs[|cs| - 1];
      AgreeStep(Run(before), c, id, r);
      if id in Run(before).clients {
        AgreeIffSettled(before, id, r);
      }
    }
  }

  // ---------- Status ----------

  ghost predicate Live(h: Hub, key: Key) {
    exists id :: id in h.clients && h.clients[id].key == key
  }

  predicate SaysConnected(h: Hub, key: Key) { key in h.status && h.status[key] }

  /** The status says connected iff the key has a live connection. */
  ghost predicate StatusRight(h: Hub, key: Key) { SaysConnected(h, key) <==> Live(h, key) }

  /** id is the only live connection of its key. */
  ghost predicate Sole(h: Hub, id: ConnId)
    requires id in h.clients
  {
    forall other :: other in h.clients && h.clients[other].key == h.clients[id].key ==> other == id
  }

  predicate DisconnectsFrom(h: Hub, c: Command, key: Key) {
    c.Disconnect? && c.id in h.clients && h.clients[c.id].key == key
  }

  /** After a disconnect the status is right exactly when no other connection of the key is left. */
  lemma DisconnectStatusIff(h: Hub, id: ConnId)
    requires id in h.clients
    ensures StatusRight(Disconnected(h, id), h.clients[id].key) <==> Sole(h, id)
  {
    var g, key := Disconnected(h, id), h.clients[id].key;
    if other :| other in h.clients && h.clients[other].key == key && other != id {
      assert other in g.clients && g.clients[other].key == key;
    }
  }

  lemma LiveAfter(h: Hub, c: Command, key: Key)
    requires !DisconnectsFrom(h, c, key) && (c.Connect? ==> c.id !in h.clients)
    ensures Live(Apply(h, c), key) <==> Live(h, key) || (c.Connect? && c.key == key)
  {
    var g := Apply(h, c);
    if id :| id in h.clients && h.clients[id].key == key {
      assert id in g.clients && g.clients[id].key == key;
    }
    if id :| id in g.clients && g.clients[id].key == key {
      assert (c.Connect? && c.id == id) || (id in h.clients && h.clients[id].key == key);
    }
    if c.Connect? && c.key == key {
      assert c.id in g.clients && g.clients[c.id].key == key;
    }
  }

  lemma OtherCommandsKeepStatus(h: Hub, c: Command, key: Key)
    requires StatusRight(h, key) && !DisconnectsFrom(h, c, key) && (c.Connect? ==> c.id !in h.clients)
    ensures StatusRight(Apply(h, c), key)
  {
    LiveAfter(h, c, key);
  }

  ghost predicate AlwaysRight(cs: seq<Command>, key: Key) {
    StatusRight(Run(cs), key) && (cs == [] || AlwaysRight(cs[..|cs| - 1], key))
  }

  /** Whenever a connection of the key disconnected, it was the key's only one. */
  ghost predicate SoleDisconnects(cs: seq<Command>, key: Key) {
    cs == [] || (
      var before, c := cs[..|cs| - 1], cs[|cs| - 1];
      && SoleDisconnects(before, key)
      && (DisconnectsFrom(Run(before), c, key) ==> Sole(Run(before), c.id)))
  }

  lemma LastIsFresh(cs: seq<Command>)
    requires FreshIds(cs) && cs != []
    ensures var before, c := cs[..|cs| - 1], cs[|cs| - 1];
      FreshIds(before) && (c.Connect? ==> c.id !in Run(before).clients)
  {
    var before := cs[..|cs| - 1];
    forall k | 0 <= k < |before| && before[k].Connect? ensures before[k].id !in Run(before[..k]).clients {
      assert before[..k] == cs[..k];
    }
  }

  lemma StatusStep(h: Hub, c: Command, key: Key, right: bool)
    requires right ==> StatusRight(h, key)
    requires c.Connect? ==> c.id !in h.clients
    ensures right ==> (StatusRight(Apply(h, c), key) <==> (DisconnectsFrom(h, c, key) ==> Sole(h, c.id)))
  {
    if right {
      if DisconnectsFrom(h, c, key) {
        DisconnectStatusIff(h, c.id);
      } else {
        OtherCommandsKeepStatus(h, c, key);
      }
    }
  }

  /** Over any run with fresh ids: a key's status was right all along iff every connection that
    * disconnected was its key's only one. */
  lemma {:induction false} AlwaysRightIff(cs: seq<Command>, key: Key)
    requires FreshIds(cs)
    ensures AlwaysRight(cs, key) <==> SoleDisconnects(cs, key)
  {
    if cs == [] {
      assert !Live(NEW, key);
    } else {
      var before, c := cs[..|cs| - 1], cs[|cs| - 1];
      LastIsFresh(cs);
      AlwaysRightIff(before, key);
      var right := AlwaysRight(before, key);
      StatusStep(Run(before), c, key, right);
    }
  }

  /** The status never claims a connection that is not there, so it is wrong exactly when the key's
    * last connect or disconnect was a disconnect that left another connection live. */
  lemma {:induction false} StatusRightIff(cs: seq<Command>, key: Key)
    requires FreshIds(cs)
    ensures StatusFold(cs, key) ==> Live(Run(cs), key)
    ensures StatusRight(Run(cs), key) <==> StatusFold(cs, key) || !Live(Run(cs), key)
  {
    SessionsAreFolds(cs, key);
    if cs != [] {
      var before, c := cs[..|cs| - 1], cs[|cs| - 1];
      LastIsFresh(cs);
      StatusRightIff(before, key);
      LiveInRun(before, c.id);
      if !DisconnectsFrom(Run(before), c, key) {
        LiveAfter(Run(before), c, key);
      }
    }
  }
}
