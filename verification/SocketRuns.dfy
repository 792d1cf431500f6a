/** The reconnecting socket client as an event-driven state machine.
  *
  * Application calls, transport events and timer events arrive one at a time in any order the
  * environment allows. State listeners run inside the client's own operations and may call back
  * into it, whereupon listeners run again: a call carries the calls its listeners make. Here are
  * the operations and how frames keep up with subscriptions; `SocketListeners` has the timers.
  */
module SocketRuns {
  import opened Sequences

  datatype Kind = VehicleKind | DeliveryKind

  datatype Payload = Payload(kind: Kind, id: string)

  datatype Frame = Subscribe(payload: Payload) | Unsubscribe(payload: Payload)

  datatype ConnectionState = Connecting | Connected | Reconnecting | Offline

  /** The current transport: none, created but not open, or open. */
  datatype Transport = NoTransport | Opening | Open

  /** The client together with what its environment holds for it: the frames sent on the current
    * transport; the outstanding timers with the attempt number each was scheduled for; the stray
    * transports, overwritten while their handlers were live; and how many transports and timers
    * were asked for out of place. */
  datatype Client = Client(
    transport: Transport, state: ConnectionState, attempt: nat, reconnectHandle: Option<nat>,
    closedByUser: bool, subscriptions: map<string, Payload>,
    frames: seq<Frame>, timers: map<nat, nat>, nextHandle: nat,
    strays: multiset<Transport>, misplaced: nat)

  const NEW := Client(NoTransport, Connecting, 0, None, false, map[], [], map[], 0, multiset{}, 0)

  /** A call into the client; `reactions` are the calls made by the state listeners it tells. */
  datatype Call =
    | Connect(reactions: seq<Call>)
    | Disconnect(reactions: seq<Call>)
    | Follow(payload: Payload)
    | Unfollow(payload: Payload)

  // ---------- Subscription keys ----------

  function KindName(k: Kind): string {
    match k case VehicleKind => "vehicle" case DeliveryKind => "delivery"
  }

  function SubKey(p: Payload): string { KindName(p.kind) + ":" + p.id }

  /** Different subscriptions have different keys. */
  lemma SubKeyIsInjective(p: Payload, q: Payload)
    requires SubKey(p) == SubKey(q)
    ensures p == q
  {
    var k, l := KindName(p.kind), KindName(q.kind);
    assert SubKey(p)[0] == k[0] && SubKey(q)[0] == l[0];
    assert p.kind == q.kind;
    assert p.id == SubKey(p)[|k| + 1..] == SubKey(q)[|l| + 1..] == q.id;
  }

  // ---------- Calls ----------

  /** A transport or timer may be asked for: none is held, and the user wants a connection. */
  predicate Clear(c: Client) { c.transport == NoTransport && c.timers == map[] && !c.closedByUser }

  function Misplaced(c: Client): nat { if Clear(c) then c.misplaced else c.misplaced + 1 }

  /** A new transport; one installed meanwhile is overwritten and goes astray. */
  function Install(c: Client): Client {
    c.(transport := Opening, frames := [], misplaced := Misplaced(c),
       strays := if c.transport == NoTransport then c.strays else c.strays + multiset{c.transport})
  }

  /** Starts the backoff timer; an earlier handle is overwritten, its timer left running. */
  function Schedule(c: Client): Client {
    c.(attempt := c.attempt + 1, timers := c.timers[c.nextHandle := c.attempt],
       reconnectHandle := Some(c.nextHandle), nextHandle := c.nextHandle + 1, misplaced := Misplaced(c))
  }

  function CancelReconnect(c: Client): Client {
    match c.reconnectHandle
    case None => c
    case Some(h) => c.(timers := c.timers - {h}, reconnectHandle := None)
  }

  function Teardown(c: Client): Client { c.(transport := NoTransport) }

  /** What `disconnect` does before it tells the listeners. */
  function ShutDown(c: Client): Client { Teardown(CancelReconnect(c.(closedByUser := true))) }

  /** The state in which a new transport is asked for. */
  function Goal(c: Client): ConnectionState { if c.attempt == 0 then Connecting else Reconnecting }

  /** Listeners hear of a change only, and before the operation goes on. */
  function SetState(c: Client, s: ConnectionState, reactions: seq<Call>): Client
    decreases reactions, 1
  {
    if c.state == s then c else PerformAll(c.(state := s), reactions)
  }

  function DoConnect(c: Client, reactions: seq<Call>): Client
    decreases reactions, 2
  {
    var d := c.(closedByUser := false);
    if d.transport != NoTransport then d else Install(SetState(d, Goal(d), reactions))
  }

  function DoDisconnect(c: Client, reactions: seq<Call>): Client
    decreases reactions, 2
  {
    SetState(ShutDown(c), Offline, reactions)
  }

  function DoFollow(c: Client, p: Payload): Client {
    var d := c.(subscriptions := c.subscriptions[SubKey(p) := p]);
    if d.state == Connected && d.transport != NoTransport then d.(frames := d.frames + [Subscribe(p)]) else d
  }

  function DoUnfollow(c: Client, p: Payload): Client {
    var d := c.(subscriptions := c.subscriptions - {SubKey(p)});
    if d.state == Connected && d.transport != NoTransport then d.(frames := d.frames + [Unsubscribe(p)]) else d
  }

  function Perform(c: Client, call: Call): Client
    decreases call, 0
  {
    match call
    case Connect(reactions) => DoConnect(c, reactions)
    case Disconnect(reactions) => DoDisconnect(c, reactions)
    case Follow(p) => DoFollow(c, p)
    case Unfollow(p) => DoUnfollow(c, p)
  }

  function PerformAll(c: Client, calls: seq<Call>): Client
    decreases calls, 0
  {
    if calls == [] then c else Perform(PerformAll(c, calls[..|calls| - 1]), calls[|calls| - 1])
  }

  // ---------- Transport and timer events ----------

  ghost predicate Announced(sent: seq<Frame>, p: Payload) { Frame.Subscribe(p) in sent }

  /** Each subscription announced once, in some order. */
  ghost predicate Announces(sent: seq<Frame>, subscriptions: map<string, Payload>) {
    && (forall i :: 0 <= i < |sent| ==> sent[i].Subscribe?)
    && (forall i, j :: 0 <= i < j < |sent| ==> sent[i] != sent[j])
    && (forall p :: Announced(sent, p) <==> p in subscriptions.Values)
  }

  /** The client as the announcing loop finds it: the listeners have heard that it is connected. */
  function Told(c: Client, reactions: seq<Call>): Client { SetState(c.(attempt := 0), Connected, reactions) }

  /** Announces every subscription on whatever transport is then installed. */
  function Announce(c: Client, sent: seq<Frame>): Client {
    if c.transport == NoTransport then c else c.(frames := c.frames + sent)
  }

  function HandleClose(c: Client, reactions: seq<Call>): Client {
    var d := Teardown(c);
    if d.closedByUser then SetState(d, Offline, reactions) else Schedule(SetState(d, Reconnecting, reactions))
  }

  /** The handler of a stray transport is that of the installed one, and treats that as lost. */
  function HandleStrayClose(c: Client, stray: Transport, reactions: seq<Call>): Client {
    HandleClose(c.(strays := c.strays - multiset{stray}), reactions)
  }

  function HandleTimer(c: Client, h: nat, reactions: seq<Call>): Client { DoConnect(Elapsed(c, h), reactions) }

  function Elapsed(c: Client, h: nat): Client { c.(timers := c.timers - {h}, reconnectHandle := None) }

  /** A call of the application, or an event of the installed transport, of a timer or of a stray
    * transport, with the calls of the listeners that the client tells meanwhile. */
  datatype Event =
    | App(call: Call)
    | Opened(sent: seq<Frame>, reactions: seq<Call>)
    | Closed(reactions: seq<Call>)
    | TimerFired(handle: nat, reactions: seq<Call>)
    | StrayOpened(sent: seq<Frame>, reactions: seq<Call>)
    | StrayClosed(stray: Transport, reactions: seq<Call>)

  /** The client when the handler of an open transport starts. */
  function AtOpen(c: Client, e: Event): Client {
    if e.StrayOpened? then c.(strays := c.strays - multiset{Opening} + multiset{Open}) else c.(transport := Open)
  }

  /** A transport opens at most once and closes once; a timer fires while outstanding. */
  ghost predicate Possible(c: Client, e: Event) {
    match e
    case Opened(sent, reactions) =>
      c.transport == Opening && Announces(sent, Told(AtOpen(c, e), reactions).subscriptions)
    case Closed(_) => c.transport != NoTransport
    case TimerFired(h, _) => h in c.timers
    case StrayOpened(sent, reactions) =>
      Opening in c.strays && Announces(sent, Told(AtOpen(c, e), reactions).subscriptions)
    case StrayClosed(stray, _) => stray in c.strays
    case App(_) => true
  }

  function Next(c: Client, e: Event): Client {
    match e
    case App(call) => Perform(c, call)
    case Opened(sent, reactions) => Announce(Told(AtOpen(c, e), reactions), sent)
    case Closed(reactions) => HandleClose(c, reactions)
    case TimerFired(h, reactions) => HandleTimer(c, h, reactions)
    case StrayOpened(sent, reactions) => Announce(Told(AtOpen(c, e), reactions), sent)
    case StrayClosed(stray, reactions) => HandleStrayClose(c, stray, reactions)
  }

  // ---------- What the server has seen ----------

  /** The server's view of a transport: its frames replayed. */
  function Replay(frames: seq<Frame>): map<string, Payload> {
    if frames == [] then map[] else ServerApply(Replay(frames[..|frames| - 1]), frames[|frames| - 1])
  }

  function ServerApply(m: map<string, Payload>, f: Frame): map<string, Payload> {
    if f.Subscribe? then m[SubKey(f.payload) := f.payload] else m - {SubKey(f.payload)}
  }

  lemma ReplayAppend(frames: seq<Frame>, f: Frame)
    ensures Replay(frames + [f]) == ServerApply(Replay(frames), f)
  {
    assert (frames + [f])[..|frames|] == frames;
  }

  /** Replaying announcements gives exactly the announced subscriptions. */
  lemma {:induction false} ReplayAnnouncements(sent: seq<Frame>, k: string)
    requires forall i :: 0 <= i < |sent| ==> sent[i].Subscribe?
    ensures k in Replay(sent) <==> exists p :: Announced(sent, p) && SubKey(p) == k
    ensures k in Replay(sent) ==> SubKey(Replay(sent)[k]) == k
  {
    if sent != [] {
      var init, f := sent[..|sent| - 1], sent[|sent| - 1];
      ReplayAnnouncements(init, k);
      assert sent == init + [f];
      if p :| Announced(sent, p) && SubKey(p) == k {
        assert Announced(init, p) || Subscribe(p) == f;
      }
      if p :| Announced(init, p) && SubKey(p) == k {
        assert Announced(sent, p);
      }
      assert Announced(sent, f.payload);
    }
  }

  lemma AnnouncedKey(sent: seq<Frame>, subscriptions: map<string, Payload>, k: string)
    requires Announces(sent, subscriptions) && Keyed(subscriptions)
    ensures k in Replay(sent) <==> k in subscriptions
    ensures k in Replay(sent) ==> Replay(sent)[k] == subscriptions[k]
  {
    ReplayAnnouncements(sent, k);
    if k in subscriptions {
      assert subscriptions[k] in subscriptions.Values;
      assert Announced(sent, subscriptions[k]);
    }
    if p :| Announced(sent, p) && SubKey(p) == k {
      assert p in subscriptions.Values;
      var j :| j in subscriptions && subscriptions[j] == p;
    }
    if k in Replay(sent) {
      SubKeyIsInjective(Replay(sent)[k], subscriptions[k]);
    }
  }

  lemma AnnouncedIsReplayed(sent: seq<Frame>, subscriptions: map<string, Payload>)
    requires Announces(sent, subscriptions) && Keyed(subscriptions)
    ensures Replay(sent) == subscriptions
  {
    forall k
      ensures (k in Replay(sent) <==> k in subscriptions) && (k in Replay(sent) ==> Replay(sent)[k] == subscriptions[k])
    {
      AnnouncedKey(sent, subscriptions, k);
    }
  }

  lemma OverrideLast(a: map<string, Payload>, b: map<string, Payload>, f: Frame)
    requires f.Subscribe?
    ensures ServerApply(a + b, f) == a + ServerApply(b, f)
  {
  }

  /** Announcements add to, and win over, what was replayed before. */
  lemma {:induction false} AnnouncedOver(first: seq<Frame>, sent: seq<Frame>)
    requires forall i :: 0 <= i < |sent| ==> sent[i].Subscribe?
    ensures Replay(first + sent) == Replay(first) + Replay(sent)
  {
    if sent == [] {
      assert first + sent == first;
    } else {
      var init, f := sent[..|sent| - 1], sent[|sent| - 1];
      AnnouncedOver(first, init);
      assert first + sent == (first + init) + [f];
      ReplayAppend(first + init, f);
      OverrideLast(Replay(first), Replay(init), f);
    }
  }

  // ---------- Frames and subscriptions ----------

  predicate Keyed(subscriptions: map<string, Payload>) {
    forall k :: k in subscriptions ==> SubKey(subscriptions[k]) == k
  }

  /** What is wanted between events: connected means open, and then the server has seen exactly the
    * subscriptions; nothing is sent on a transport that is not open. */
  ghost predicate InStep(c: Client) {
    && Keyed(c.subscriptions)
    && (c.state == Connected <==> c.transport == Open)
    && (c.transport == Opening ==> c.frames == [])
    && (c.transport == Open ==> Replay(c.frames) == c.subscriptions)
  }

  /** What holds while listeners hear that the client is connected: not everything is announced yet. */
  ghost predicate Partial(c: Client) {
    && Keyed(c.subscriptions)
    && (c.transport == Open ==> c.state == Connected && Replay(c.frames).Keys <= c.subscriptions.Keys)
    && (c.transport == Opening && c.state != Connected ==> c.frames == [])
  }

  lemma FollowKeepsInStep(c: Client, p: Payload)
    requires InStep(c)
    ensures InStep(DoFollow(c, p)) && InStep(DoUnfollow(c, p))
  {
    ReplayAppend(c.frames, Subscribe(p));
    ReplayAppend(c.frames, Unsubscribe(p));
  }

  lemma FollowKeepsPartial(c: Client, p: Payload)
    requires Partial(c)
    ensures Partial(DoFollow(c, p)) && Partial(DoUnfollow(c, p))
  {
    ReplayAppend(c.frames, Subscribe(p));
    ReplayAppend(c.frames, Unsubscribe(p));
  }

  lemma {:induction false} CallKeepsFrames(c: Client, call: Call, r: Client)
    requires r == Perform(c, call)
    ensures InStep(c) ==> InStep(r)
    ensures Partial(c) ==> Partial(r)
    ensures c.transport != Open ==> r.transport != Open
    ensures Keyed(c.subscriptions) ==> Keyed(r.subscriptions)
    decreases call, 1
  {
    match call {
      case Connect(reactions) =>
        var d := c.(closedByUser := false);
        if d.transport == NoTransport {
          var s := SetState(d, Goal(d), reactions);
          assert r == Install(s);
          if d.state != Goal(d) {
            CallsKeepFrames(d.(state := Goal(d)), reactions, s);
          }
        }
      case Disconnect(reactions) =>
        var d := ShutDown(c);
        assert r == SetState(d, Offline, reactions);
        if d.state != Offline {
          CallsKeepFrames(d.(state := Offline), reactions, r);
        }
      case _ =>
        if InStep(c) {
          FollowKeepsInStep(c, call.payload);
        }
        if Partial(c) {
          FollowKeepsPartial(c, call.payload);
        }
    }
  }

  lemma {:induction false} CallsKeepFrames(c: Client, calls: seq<Call>, r: Client)
    requires r == PerformAll(c, calls)
    ensures InStep(c) ==> InStep(r)
    ensures Partial(c) ==> Partial(r)
    ensures c.transport != Open ==> r.transport != Open
    ensures Keyed(c.subscriptions) ==> Keyed(r.subscriptions)
    decreases calls, 0
  {
    if calls != [] {
      var init, last := calls[..|calls| - 1], calls[|calls| - 1];
      CallsKeepFrames(c, init, PerformAll(c, init));
      CallKeepsFrames(PerformAll(c, init), last, r);
    }
  }

  /** The announcing loop finds an open transport, or a client that is no longer connected and has
    * nothing to announce or nowhere to send it. */
  predicate Timely(d: Client) {
    d.transport == Open || (d.state != Connected && (d.transport == NoTransport || d.subscriptions == map[]))
  }

  lemma NothingToAnnounce(sent: seq<Frame>, subscriptions: map<string, Payload>)
    requires Announces(sent, subscriptions)
    ensures sent == [] <==> subscriptions == map[]
  {
    if subscriptions != map[] {
      var k :| k in subscriptions;
      assert subscriptions[k] in subscriptions.Values && Announced(sent, subscriptions[k]);
    } else if sent != [] {
      assert Announced(sent, sent[0].payload);
    }
  }

  lemma AnnouncingCompletes(frames: seq<Frame>, sent: seq<Frame>, subscriptions: map<string, Payload>)
    requires Announces(sent, subscriptions) && Keyed(subscriptions)
    requires Replay(frames).Keys <= subscriptions.Keys
    ensures Replay(frames + sent) == subscriptions
  {
    AnnouncedIsReplayed(sent, subscriptions);
    AnnouncedOver(frames, sent);
  }

  lemma AnnounceIsTimely(d: Client, sent: seq<Frame>)
    requires Partial(d) && Announces(sent, d.subscriptions)
    ensures InStep(Announce(d, sent)) <==> Timely(d)
  {
    if d.transport == Open {
      AnnouncingCompletes(d.frames, sent, d.subscriptions);
    } else {
      NothingToAnnounce(sent, d.subscriptions);
    }
  }

  lemma HearingIsPartial(c: Client, e: Event)
    requires InStep(c) && Possible(c, e) && (e.Opened? || e.StrayOpened?)
    ensures Partial(Told(AtOpen(c, e), e.reactions))
  {
    var d := AtOpen(c, e).(attempt := 0);
    if d.state != Connected {
      CallsKeepFrames(d.(state := Connected), e.reactions, Told(AtOpen(c, e), e.reactions));
    }
  }

  lemma CloseKeepsInStep(c: Client, reactions: seq<Call>)
    requires InStep(c)
    ensures InStep(HandleClose(c, reactions))
  {
    var d := Teardown(c);
    var s := if d.closedByUser then Offline else Reconnecting;
    if d.state != s {
      CallsKeepFrames(d.(state := s), reactions, PerformAll(d.(state := s), reactions));
    }
  }

  /** Exactly when an event keeps frames and subscriptions in step: always, save that the announcing
    * loop of a transport that opened has to be timely. */
  lemma EventKeepsInStepIff(c: Client, e: Event)
    requires InStep(c) && Possible(c, e)
    ensures InStep(Next(c, e)) <==> ((e.Opened? || e.StrayOpened?) ==> Timely(Told(AtOpen(c, e), e.reactions)))
  {
    match e {
      case App(call) => CallKeepsFrames(c, call, Perform(c, call));
      case Closed(reactions) => CloseKeepsInStep(c, reactions);
      case StrayClosed(stray, reactions) => CloseKeepsInStep(c.(strays := c.strays - multiset{stray}), reactions);
      case TimerFired(h, reactions) =>
        var d := Elapsed(c, h);
        CallKeepsFrames(d, Connect(reactions), Perform(d, Connect(reactions)));
      case _ =>
        HearingIsPartial(c, e);
        AnnounceIsTimely(Told(AtOpen(c, e), e.reactions), e.sent);
    }
  }
}
