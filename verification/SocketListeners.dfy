/** Runs of the socket client with state listeners that call back into it, to any depth.
  *
  * Connecting tells the listeners before the transport is installed, and a lost connection tells
  * them before the backoff timer starts, so a listener that connects or disconnects there acts on
  * a client that is about to be overruled. The theorems say exactly which application and which
  * listeners are harmless, and what holds over every run.
  */
module SocketListeners {
  import opened Sequences
  import opened SocketRuns

  // ---------- Sound timers ----------

  /** The only outstanding timer is the one the handle names, and none runs beside a transport
    * or after the user closed the client. */
  ghost predicate TimersSound(c: Client) {
    && (c.reconnectHandle.Some? ==> c.reconnectHandle.value in c.timers)
    && (forall h :: h in c.timers ==> c.reconnectHandle == Some(h) && h < c.nextHandle)
    && (c.transport != NoTransport ==> forall h :: h !in c.timers)
    && (c.closedByUser ==> c.transport == NoTransport && c.state == Offline && forall h :: h !in c.timers)
  }

  /** Timers are sound and no stray transport is live. */
  ghost predicate Sound(c: Client) { TimersSound(c) && c.strays == multiset{} }

  lemma SomeTimer(timers: map<nat, nat>) returns (h: nat)
    requires timers != map[]
    ensures h in timers
  {
    h :| h in timers;
  }

  /** Asking for a transport or a timer when the client is not clear breaks soundness. */
  lemma UnclearIsUnsound(d: Client)
    requires !Clear(d) && forall h :: h in d.timers ==> h < d.nextHandle
    ensures !Sound(Install(d)) && !Sound(Schedule(d))
  {
    assert d.nextHandle in Schedule(d).timers;
    if d.timers != map[] {
      var h := SomeTimer(d.timers);
      assert h in Schedule(d).timers && h in Install(d).timers;
    }
    if d.transport != NoTransport {
      assert d.transport in Install(d).strays;
    }
  }

  /** Whatever the listeners did: asking for a transport, or starting the timer, keeps the client sound
    * exactly when they left no timer, no transport and no disconnect behind. */
  lemma ListenerIsHarmlessIff(left: Client)
    requires Sound(left)
    ensures Sound(Install(left)) <==> Clear(left)
    ensures Sound(Schedule(left)) <==> Clear(left)
  {
    if !Clear(left) {
      UnclearIsUnsound(left);
    }
  }

  // ---------- What calls leave behind ----------

  predicate Loud(call: Call) { call.Connect? || call.Disconnect? }

  /** Neither connects nor disconnects. */
  predicate Quiet(calls: seq<Call>) { forall i :: 0 <= i < |calls| ==> !Loud(calls[i]) }

  lemma QuietSplit(calls: seq<Call>, init: seq<Call>, last: Call)
    requires calls == init + [last]
    ensures Quiet(calls) <==> Quiet(init) && !Loud(last)
  {
    assert calls[|init|] == last;
    assert forall i :: 0 <= i < |init| ==> calls[i] == init[i];
  }

  /** Calls cancel timers but start none, and leave the attempt counter alone. */
  ghost predicate Follows(c: Client, r: Client) {
    && r.attempt == c.attempt && r.nextHandle == c.nextHandle && c.misplaced <= r.misplaced
    && r.timers.Keys <= c.timers.Keys
  }

  ghost predicate Wanted(c: Client) { c.transport == NoTransport && !c.closedByUser }

  lemma {:induction false} CallLeaves(c: Client, call: Call, r: Client)
    requires r == Perform(c, call)
    ensures Follows(c, r)
    ensures if Loud(call) then !Wanted(r) else r == c.(subscriptions := r.subscriptions, frames := r.frames)
    decreases call, 1
  {
    match call {
      case Connect(reactions) =>
        var d := c.(closedByUser := false);
        if d.transport == NoTransport {
          var s := SetState(d, Goal(d), reactions);
          assert r == Install(s);
          if d.state != Goal(d) {
            CallsLeave(d.(state := Goal(d)), reactions, s);
          }
        }
      case Disconnect(reactions) =>
        var d := ShutDown(c);
        assert r == SetState(d, Offline, reactions);
        if d.state != Offline {
          CallsLeave(d.(state := Offline), reactions, r);
        }
      case _ =>
    }
  }

  /** The client still wants a connection and has none exactly when nobody connected or disconnected;
    * then nothing but subscriptions and frames has changed. */
  lemma {:induction false} CallsLeave(c: Client, calls: seq<Call>, r: Client)
    requires r == PerformAll(c, calls)
    ensures Follows(c, r)
    ensures if Quiet(calls) then r == c.(subscriptions := r.subscriptions, frames := r.frames) else !Wanted(r)
    decreases calls, 0
  {
    if calls != [] {
      var init, last := calls[..|calls| - 1], calls[|calls| - 1];
      CallsLeave(c, init, PerformAll(c, init));
      CallLeaves(PerformAll(c, init), last, r);
      QuietSplit(calls, init, last);
    }
  }

  // ---------- Manners ----------

  /** Whoever connects while no transport is installed does so with no timer pending, and listeners
    * that hear of it neither connect nor disconnect; those told of a disconnect have manners too. */
  predicate MannersCall(c: Client, call: Call)
    decreases call, 0
  {
    match call
    case Connect(reactions) =>
      c.transport == NoTransport ==> c.timers == map[] && (c.state != Goal(c) ==> Quiet(reactions))
    case Disconnect(reactions) => c.state != Offline ==> Manners(ShutDown(c).(state := Offline), reactions)
    case _ => true
  }

  predicate Manners(c: Client, calls: seq<Call>)
    decreases calls, 0
  {
    calls == [] ||
    (Manners(c, calls[..|calls| - 1]) && MannersCall(PerformAll(c, calls[..|calls| - 1]), calls[|calls| - 1]))
  }

  /** A call asks for nothing out of place exactly when it has manners. */
  lemma {:induction false} CallInPlaceIff(c: Client, call: Call, r: Client)
    requires r == Perform(c, call)
    ensures r.misplaced == c.misplaced <==> MannersCall(c, call)
    ensures Sound(c) && r.misplaced == c.misplaced ==> Sound(r)
    decreases call, 1
  {
    match call {
      case Connect(reactions) => ConnectInPlaceIff(c, reactions, r);
      case Disconnect(reactions) =>
        var d := ShutDown(c);
        assert r == SetState(d, Offline, reactions);
        if d.state != Offline {
          CallsInPlaceIff(d.(state := Offline), reactions, r);
        }
      case _ =>
    }
  }

  lemma {:induction false} ConnectInPlaceIff(c: Client, reactions: seq<Call>, r: Client)
    requires r == DoConnect(c, reactions)
    ensures r.misplaced == c.misplaced <==> MannersCall(c, Connect(reactions))
    ensures Sound(c) && r.misplaced == c.misplaced ==> Sound(r)
  {
    var d := c.(closedByUser := false);
    if d.transport == NoTransport {
      var s := SetState(d, Goal(d), reactions);
      assert r == Install(s);
      if d.state != Goal(d) {
        CallsLeave(d.(state := Goal(d)), reactions, s);
      }
    }
  }

  lemma {:induction false} CallsInPlaceIff(c: Client, calls: seq<Call>, r: Client)
    requires r == PerformAll(c, calls)
    ensures r.misplaced == c.misplaced <==> Manners(c, calls)
    ensures Sound(c) && r.misplaced == c.misplaced ==> Sound(r)
    decreases calls, 0
  {
    if calls != [] {
      var init, last := calls[..|calls| - 1], calls[|calls| - 1];
      var d := PerformAll(c, init);
      CallsLeave(c, init, d);
      CallsInPlaceIff(c, init, d);
      CallLeaves(d, last, r);
      CallInPlaceIff(d, last, r);
    }
  }

  // ---------- Events ----------

  /** Manners of the application and the listeners in one event. */
  predicate Mannered(c: Client, e: Event) {
    match e
    case App(call) => MannersCall(c, call)
    case Opened(_, reactions) =>
      c.state != Connected ==> Manners(c.(transport := Open, attempt := 0, state := Connected), reactions)
    case Closed(reactions) => c.state != Reconnecting ==> Quiet(reactions)
    case TimerFired(_, reactions) => c.state != Goal(c) ==> Quiet(reactions)
    case _ => true // no transport is astray
  }

  lemma CloseInPlaceIff(c: Client, reactions: seq<Call>)
    requires Sound(c) && c.transport != NoTransport
    ensures var r := HandleClose(c, reactions);
      && (r.misplaced == c.misplaced <==> Mannered(c, Closed(reactions)))
      && (Mannered(c, Closed(reactions)) ==> Sound(r)) && c.misplaced <= r.misplaced
  {
    var d := Teardown(c);
    assert d.timers == map[];
    if d.state != Reconnecting {
      CallsLeave(d.(state := Reconnecting), reactions, PerformAll(d.(state := Reconnecting), reactions));
    }
  }

  /** An event asks for nothing out of place exactly when it is mannered, and then leaves the client sound. */
  lemma EventInPlaceIff(c: Client, e: Event)
    requires Sound(c) && Possible(c, e)
    ensures Next(c, e).misplaced == c.misplaced <==> Mannered(c, e)
    ensures Mannered(c, e) ==> Sound(Next(c, e))
  {
    match e {
      case App(call) => CallInPlaceIff(c, call, Next(c, e));
      case Closed(reactions) => CloseInPlaceIff(c, reactions);
      case TimerFired(h, reactions) =>
        var d := Elapsed(c, h);
        assert d.timers == map[];
        CallInPlaceIff(d, Connect(reactions), DoConnect(d, reactions));
      case Opened(sent, reactions) =>
        var d := c.(transport := Open, attempt := 0);
        if d.state != Connected {
          CallsInPlaceIff(d.(state := Connected), reactions, Told(AtOpen(c, e), reactions));
        }
      case _ =>
    }
  }

  lemma NextIsMonotone(c: Client, e: Event)
    ensures c.misplaced <= Next(c, e).misplaced
  {
    match e {
      case App(call) => CallLeaves(c, call, Next(c, e));
      case TimerFired(h, reactions) => CallLeaves(Elapsed(c, h), Connect(reactions), Next(c, e));
      case Closed(reactions) => CloseIsMonotone(c, reactions);
      case StrayClosed(stray, reactions) => CloseIsMonotone(c.(strays := c.strays - multiset{stray}), reactions);
      case _ =>
        var d := AtOpen(c, e).(attempt := 0);
        if d.state != Connected {
          CallsLeave(d.(state := Connected), e.reactions, Told(AtOpen(c, e), e.reactions));
        }
    }
  }

  lemma CloseIsMonotone(c: Client, reactions: seq<Call>)
    ensures c.misplaced <= HandleClose(c, reactions).misplaced
  {
    var d := Teardown(c);
    var s := if d.closedByUser then Offline else Reconnecting;
    if d.state != s {
      CallsLeave(d.(state := s), reactions, PerformAll(d.(state := s), reactions));
    }
  }

  /** A connect, a lost connection or a timer leaves the client sound exactly when it is mannered. */
  lemma RequestKeepsSoundIff(c: Client, e: Event)
    requires Sound(c) && Possible(c, e) && (e.Closed? || e.TimerFired? || (e.App? && e.call.Connect?))
    ensures Sound(Next(c, e)) <==> Mannered(c, e)
  {
    EventInPlaceIff(c, e);
    if !Mannered(c, e) {
      if e.Closed? {
        var d := Teardown(c).(state := Reconnecting);
        CallsLeave(d, e.reactions, PerformAll(d, e.reactions));
        UnclearIsUnsound(PerformAll(d, e.reactions));
      } else if e.App? {
        RudeConnectIsUnsound(c, e.call.reactions);
      } else {
        assert Elapsed(c, e.handle).timers == map[];
        RudeConnectIsUnsound(Elapsed(c, e.handle), e.reactions);
      }
    }
  }

  lemma RudeConnectIsUnsound(c: Client, reactions: seq<Call>)
    requires !MannersCall(c, Connect(reactions)) && forall h :: h in c.timers ==> h < c.nextHandle
    ensures !Sound(DoConnect(c, reactions))
  {
    var d := c.(closedByUser := false);
    var s := SetState(d, Goal(d), reactions);
    if d.state != Goal(d) {
      CallsLeave(d.(state := Goal(d)), reactions, s);
    }
    UnclearIsUnsound(s);
  }

  // ---------- Runs ----------

  ghost predicate IsRun(clients: seq<Client>, events: seq<Event>) {
    && |clients| == |events| + 1 && clients[0] == NEW
    && forall i :: 0 <= i < |events| ==> IsStep(clients[i], events[i], clients[i + 1])
  }

  ghost predicate IsStep(c: Client, e: Event, d: Client) { Possible(c, e) && d == Next(c, e) }

  ghost predicate MannersBefore(clients: seq<Client>, events: seq<Event>, n: nat)
    requires n <= |events| && |clients| == |events| + 1
  {
    forall i :: 0 <= i < n ==> Mannered(clients[i], events[i])
  }

  /** Over any run: no transport and no timer is ever asked for while another is held or after the
    * user closed the client exactly when application and listeners have manners all along; then
    * the timers are sound and no transport goes astray. */
  lemma {:induction false} TimersSoundIff(clients: seq<Client>, events: seq<Event>, n: nat)
    requires IsRun(clients, events) && n <= |events|
    ensures clients[n].misplaced == 0 <==> MannersBefore(clients, events, n)
    ensures MannersBefore(clients, events, n) ==> Sound(clients[n])
  {
    if n > 0 {
      TimersSoundIff(clients, events, n - 1);
      assert IsStep(clients[n - 1], events[n - 1], clients[n - 1 + 1]);
      NextIsMonotone(clients[n - 1], events[n - 1]);
      if MannersBefore(clients, events, n - 1) {
        EventInPlaceIff(clients[n - 1], events[n - 1]);
      }
      assert MannersBefore(clients, events, n) <==>
        MannersBefore(clients, events, n - 1) && Mannered(clients[n - 1], events[n - 1]);
    }
  }

  lemma AtMostOne(c: Client)
    requires TimersSound(c)
    ensures |c.timers| <= 1
  {
    if c.reconnectHandle.Some? {
      assert c.timers.Keys <= {c.reconnectHandle.value};
      var rest := {c.reconnectHandle.value} - c.timers.Keys;
      assert |rest| == |{c.reconnectHandle.value}| - |c.timers.Keys|;
    } else {
      assert c.timers.Keys == {};
    }
    assert |c.timers| == |c.timers.Keys|;
  }

  /** With manners at most one timer is ever outstanding. */
  lemma ManneredHasOneTimer(clients: seq<Client>, events: seq<Event>, n: nat)
    requires IsRun(clients, events) && n <= |events| && MannersBefore(clients, events, n)
    ensures |clients[n].timers| <= 1
  {
    TimersSoundIff(clients, events, n);
    AtMostOne(clients[n]);
  }

  /** Nothing can wake the client but a call. */
  ghost predicate Gone(c: Client) {
    c.state == Offline && c.transport == NoTransport && c.timers == map[] && c.strays == multiset{} && c.closedByUser
  }

  /** With manners the client is gone exactly while the last word was a disconnect. */
  lemma GoneIffClosedByUser(c: Client)
    requires Sound(c)
    ensures Gone(c) <==> c.closedByUser
  {
    assert c.closedByUser ==> c.timers == map[];
  }

  lemma GoneStays(c: Client, e: Event)
    requires Gone(c) && Possible(c, e) && !(e.App? && e.call.Connect?)
    ensures Gone(Next(c, e))
  {
    if e.App? && e.call.Disconnect? {
      assert Next(c, e) == DoDisconnect(c, e.call.reactions);
      assert SetState(ShutDown(c), Offline, e.call.reactions) == ShutDown(c);
    }
  }

  /** A disconnect that no listener answers by connecting leaves nothing outstanding. */
  lemma DisconnectIsGone(c: Client, reactions: seq<Call>)
    requires Sound(c) && (c.state != Offline ==> Quiet(reactions))
    ensures Gone(DoDisconnect(c, reactions))
  {
    var d := ShutDown(c);
    assert d.timers == map[] by {
      forall h ensures h !in d.timers {
      }
    }
    var r := SetState(d, Offline, reactions);
    assert DoDisconnect(c, reactions) == r;
    if c.state != Offline {
      CallsLeave(d.(state := Offline), reactions, r);
    }
  }

  /** With manners up to a moment when the last word was a disconnect, nothing is outstanding then and
    * the client stays offline until the application connects again. */
  lemma {:induction false} ManneredStaysOffline(clients: seq<Client>, events: seq<Event>, i: nat, j: nat)
    requires IsRun(clients, events) && i <= j < |clients|
    requires MannersBefore(clients, events, i) && clients[i].closedByUser
    requires forall k :: i <= k < j ==> !(events[k].App? && events[k].call.Connect?)
    ensures Gone(clients[j])
    decreases j
  {
    if j == i {
      TimersSoundIff(clients, events, i);
      GoneIffClosedByUser(clients[i]);
    } else {
      ManneredStaysOffline(clients, events, i, j - 1);
      assert IsStep(clients[j - 1], events[j - 1], clients[j - 1 + 1]);
      GoneStays(clients[j - 1], events[j - 1]);
    }
  }

  // ---------- Without manners ----------

  /** Connecting while reconnecting, and losing that connection too, starts one more timer. */
  lemma ConnectAndLose(c: Client)
    requires c.transport == NoTransport && c.state == Reconnecting && c.attempt > 0 && !c.closedByUser
    ensures var d := Next(Next(c, App(Connect([]))), Closed([]));
      && d.timers == c.timers[c.nextHandle := c.attempt] && d.reconnectHandle == Some(c.nextHandle)
      && d.transport == NoTransport && !d.closedByUser
  {
    assert Next(c, App(Connect([]))) == Install(c);
  }

  /** An impatient application: connecting while a timer is pending ends with two timers, of which
    * disconnect cancels one, and the other reconnects the client behind the user's back. */
  lemma ImpatientConnectLeavesTimer()
    ensures var c1 := Next(Next(NEW, App(Connect([]))), Closed([]));
      var c2 := Next(Next(c1, App(Connect([]))), Closed([]));
      var c3 := Next(c2, App(Disconnect([])));
      && c1.timers == map[0 := 0] && c2.timers == map[0 := 0, 1 := 1]
      && c3.state == Offline && c3.timers == map[0 := 0] && Possible(c3, TimerFired(0, []))
      && Next(c3, TimerFired(0, [])).transport == Opening && !Next(c3, TimerFired(0, [])).closedByUser
  {
    var c1 := Next(Next(NEW, App(Connect([]))), Closed([]));
    ConnectAndLose(c1);
    var c2 := Next(Next(c1, App(Connect([]))), Closed([]));
    assert Next(c2, App(Disconnect([]))).timers == map[0 := 0];
  }

  lemma One(c: Client, call: Call)
    ensures PerformAll(c, [call]) == Perform(c, call)
  {
    assert [call][..0] == [];
  }

  /** A listener that disconnects when told the connection was lost does not stop the client: the
    * handler goes on to schedule a timer, which outlives the disconnect and reconnects. */
  lemma ListenerDisconnectIsUndone(c: Client)
    requires InStep(c) && Sound(c) && c.state == Connected
    ensures var d := Next(c, Closed([Disconnect([])]));
      && d.state == Offline && d.closedByUser && c.nextHandle in d.timers
      && Next(d, TimerFired(c.nextHandle, [])).transport == Opening
  {
    One(Teardown(c).(state := Reconnecting), Disconnect([]));
  }

  /** Nor does one that disconnects when told that the client is connecting: the transport is installed
    * all the same, and its opening makes the client connected. */
  lemma DisconnectWhileConnectingIsUndone(c: Client)
    requires Sound(c) && c.transport == NoTransport && c.timers == map[] && c.state != Goal(c)
    ensures var d := Next(c, App(Connect([Disconnect([])])));
      && d.state == Offline && d.closedByUser && d.transport == Opening
      && Told(d.(transport := Open), []).state == Connected
  {
    One(c.(closedByUser := false, state := Goal(c)), Disconnect([]));
  }

  lemma TwoTimers(e: Client, h: nat, attempt: nat)
    requires e.timers == map[h := attempt] && e.nextHandle == h + 1 && !e.closedByUser
    ensures |Next(e, StrayClosed(Opening, [])).timers| == 2
  {
    assert Next(e, StrayClosed(Opening, [])).timers == map[h := attempt, h + 1 := e.attempt];
  }

  /** A listener that connects when told that the client is connecting leaves a transport astray: when
    * both close, two timers are outstanding. */
  lemma ConnectWhileConnectingStrays(c: Client)
    requires Sound(c) && c.transport == NoTransport && c.timers == map[] && c.state != Goal(c)
    ensures var d := Next(c, App(Connect([Connect([])])));
      && d.transport == Opening && d.strays == multiset{Opening}
      && |Next(Next(d, Closed([])), StrayClosed(Opening, [])).timers| == 2
  {
    var s := c.(closedByUser := false, state := Goal(c));
    One(s, Connect([]));
    var d := Next(c, App(Connect([Connect([])])));
    assert d == Install(Install(s));
    var e := Next(d, Closed([]));
    assert e.timers == map[c.nextHandle := c.attempt] && e.transport == NoTransport && !e.closedByUser;
    TwoTimers(e, c.nextHandle, c.attempt);
  }

  /** A client can come to rest again after a transport was opened against the user's will: a listener
    * told of a disconnect connects, is overruled when it disconnects on hearing of that, and then
    * disconnects once more. So asking out of place is not always seen between events. */
  lemma OutOfPlaceCanRecover(c: Client)
    requires Sound(c) && c.state == Connected && c.transport == Open && c.attempt == 0
    ensures var calls := [Connect([Disconnect([])]), Disconnect([])];
      var d := Next(c, App(Disconnect(calls)));
      Sound(d) && d.misplaced == c.misplaced + 1
  {
    var calls := [Connect([Disconnect([])]), Disconnect([])];
    var d := ShutDown(c).(state := Offline);
    One(d.(closedByUser := false, state := Connecting), Disconnect([]));
    One(d, calls[0]);
    assert calls[..1] == [calls[0]];
  }

  // ---------- Frames ----------

  ghost predicate InStepUpTo(clients: seq<Client>, n: nat)
    requires n < |clients|
  {
    forall i :: 0 <= i <= n ==> InStep(clients[i])
  }

  /** Whenever a transport opens, the announcing loop still finds it open, or has nothing to announce. */
  ghost predicate TimelyBefore(clients: seq<Client>, events: seq<Event>, n: nat)
    requires n <= |events| && |clients| == |events| + 1
  {
    forall i :: 0 <= i < n && (events[i].Opened? || events[i].StrayOpened?) ==>
      Timely(Told(AtOpen(clients[i], events[i]), events[i].reactions))
  }

  /** Over any run, with or without manners: frames and subscriptions are in step all along exactly
    * when every announcing loop is timely. */
  lemma {:induction false} FramesMatchIff(clients: seq<Client>, events: seq<Event>, n: nat)
    requires IsRun(clients, events) && n <= |events|
    ensures InStepUpTo(clients, n) <==> TimelyBefore(clients, events, n)
  {
    if n > 0 {
      FramesMatchIff(clients, events, n - 1);
      var c, e := clients[n - 1], events[n - 1];
      assert IsStep(c, e, clients[n - 1 + 1]);
      var before := InStepUpTo(clients, n - 1);
      if before {
        EventKeepsInStepIff(c, e);
      }
      assert InStepUpTo(clients, n) <==> before && InStep(clients[n]);
      var timely := (e.Opened? || e.StrayOpened?) ==> Timely(Told(AtOpen(c, e), e.reactions));
      assert TimelyBefore(clients, events, n) <==> TimelyBefore(clients, events, n - 1) && timely;
    }
  }

  predicate Stays(calls: seq<Call>) { forall i :: 0 <= i < |calls| ==> !calls[i].Disconnect? }

  lemma {:induction false} StayingStaysOpen(c: Client, calls: seq<Call>)
    requires c.transport == Open && Stays(calls)
    ensures PerformAll(c, calls).transport == Open
  {
    if calls != [] {
      var init, last := calls[..|calls| - 1], calls[|calls| - 1];
      var d := PerformAll(c, init);
      StayingStaysOpen(c, init);
      match last {
        case Connect(reactions) => assert Perform(d, last) == DoConnect(d, reactions);
        case Disconnect(_) => assert false;
        case _ =>
      }
    }
  }

  /** With manners, and listeners that do not disconnect when told that the client is connected:
    * whatever else they call, every connected state has an open transport on which the server has
    * seen exactly the subscriptions. */
  lemma {:induction false} NotifiedFramesMatch(clients: seq<Client>, events: seq<Event>, i: nat)
    requires IsRun(clients, events) && i <= |events| && MannersBefore(clients, events, i)
    requires forall k :: 0 <= k < i && events[k].Opened? ==> Stays(events[k].reactions)
    ensures InStep(clients[i])
    ensures clients[i].state == Connected ==>
      clients[i].transport == Open && Replay(clients[i].frames) == clients[i].subscriptions
  {
    if i > 0 {
      NotifiedFramesMatch(clients, events, i - 1);
      TimersSoundIff(clients, events, i - 1);
      var c, e := clients[i - 1], events[i - 1];
      assert IsStep(c, e, clients[i - 1 + 1]);
      EventKeepsInStepIff(c, e);
      if e.Opened? {
        StayingStaysOpen(c.(transport := Open, attempt := 0, state := Connected), e.reactions);
      }
    }
  }

  lemma OneAnnouncement(p: Payload)
    ensures Announces([Subscribe(p)], map[SubKey(p) := p])
  {
    var m := map[SubKey(p) := p];
    assert m[SubKey(p)] == p && [Subscribe(p)][0] == Subscribe(p);
    assert p in m.Values && Subscribe(p) in [Subscribe(p)];
    forall q ensures Announced([Subscribe(p)], q) <==> q in m.Values {
    }
  }

  /** A listener that disconnects and connects again when told that the client is connected makes the
    * announcing loop write to a transport that is not open yet. */
  lemma ReconnectWhileConnectedIsEarly(c: Client, p: Payload)
    requires InStep(c) && c.transport == Opening && c.subscriptions == map[SubKey(p) := p]
    ensures var calls := [Disconnect([]), Connect([])];
      var d := Next(c, Opened([Subscribe(p)], calls));
      Possible(c, Opened([Subscribe(p)], calls)) && d.transport == Opening && d.frames == [Subscribe(p)]
  {
    var calls := [Disconnect([]), Connect([])];
    var d := c.(transport := Open, attempt := 0, state := Connected);
    One(d, calls[0]);
    assert calls[..1] == [calls[0]];
    var told := PerformAll(d, calls);
    assert told == DoConnect(DoDisconnect(d, []), []);
    assert told.transport == Opening && told.frames == [] && told.subscriptions == c.subscriptions;
    OneAnnouncement(p);
  }

  // ---------- Backoff ----------

  /** Connections lost since the last open; a transport that closes after the user closed the client
    * is none. */
  ghost function LossesSinceOpen(clients: seq<Client>, events: seq<Event>, n: nat): nat
    requires n <= |events| && |clients| == |events| + 1
  {
    if n == 0 || events[n - 1].Opened? || events[n - 1].StrayOpened? then 0
    else LossesSinceOpen(clients, events, n - 1) + if IsLoss(clients[n - 1], events[n - 1]) then 1 else 0
  }

  predicate IsLoss(c: Client, e: Event) { (e.Closed? || e.StrayClosed?) && !c.closedByUser }

  /** Index into the backoff schedule; its last entry repeats. */
  function DelayIndex(attempt: nat, scheduleLength: nat): nat
    requires scheduleLength >= 1
  {
    if attempt < scheduleLength - 1 then attempt else scheduleLength - 1
  }

  lemma CloseCountsLoss(c: Client, reactions: seq<Call>)
    ensures var d := HandleClose(c, reactions);
      if c.closedByUser then d.attempt == c.attempt
      else d.attempt == c.attempt + 1 && Scheduled(d, c.attempt) && (Quiet(reactions) ==> d.state == Reconnecting)
  {
    var d := Teardown(c);
    var s := if d.closedByUser then Offline else Reconnecting;
    if d.state != s {
      CallsLeave(d.(state := s), reactions, PerformAll(d.(state := s), reactions));
    }
  }

  /** The named timer is outstanding, with this attempt number. */
  predicate Scheduled(c: Client, attempt: nat) {
    c.reconnectHandle.Some? && c.reconnectHandle.value in c.timers && c.timers[c.reconnectHandle.value] == attempt
  }

  lemma StepCountsLoss(c: Client, e: Event)
    ensures Next(c, e).attempt ==
      if e.Opened? || e.StrayOpened? then 0 else if IsLoss(c, e) then c.attempt + 1 else c.attempt
    ensures IsLoss(c, e) ==>
      Scheduled(Next(c, e), c.attempt) && (Quiet(e.reactions) ==> Next(c, e).state == Reconnecting)
  {
    match e {
      case App(call) => CallLeaves(c, call, Next(c, e));
      case TimerFired(h, reactions) => CallLeaves(Elapsed(c, h), Connect(reactions), Next(c, e));
      case Closed(reactions) => CloseCountsLoss(c, reactions);
      case StrayClosed(stray, reactions) => CloseCountsLoss(c.(strays := c.strays - multiset{stray}), reactions);
      case _ =>
        var d := AtOpen(c, e).(attempt := 0, state := Connected);
        CallsLeave(d, e.reactions, PerformAll(d, e.reactions));
    }
  }

  /** The attempt counter is the number of losses since a transport last opened, so the k-th loss in
    * a row waits for entry min(k - 1, length - 1) of the schedule. */
  lemma {:induction false} AttemptCountsCloses(clients: seq<Client>, events: seq<Event>, n: nat)
    requires IsRun(clients, events) && n <= |events|
    ensures clients[n].attempt == LossesSinceOpen(clients, events, n)
  {
    if n > 0 {
      AttemptCountsCloses(clients, events, n - 1);
      assert IsStep(clients[n - 1], events[n - 1], clients[n - 1 + 1]);
      StepCountsLoss(clients[n - 1], events[n - 1]);
    }
  }

  lemma CloseSchedulesBackoff(clients: seq<Client>, events: seq<Event>, n: nat, scheduleLength: nat)
    requires IsRun(clients, events) && n < |events| && IsLoss(clients[n], events[n]) && scheduleLength >= 1
    ensures var c, k := clients[n + 1], LossesSinceOpen(clients, events, n) + 1;
      && Scheduled(c, clients[n].attempt)
      && DelayIndex(c.timers[c.reconnectHandle.value], scheduleLength) == Min(k, scheduleLength) - 1
      && (Quiet(events[n].reactions) ==> c.state == Reconnecting)
  {
    AttemptCountsCloses(clients, events, n);
    assert IsStep(clients[n], events[n], clients[n + 1]);
    StepCountsLoss(clients[n], events[n]);
  }

  function Min(a: nat, b: nat): nat { if a <= b then a else b }
}
