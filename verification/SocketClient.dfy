/** The socket client object. Each public method performs one event of `SocketRuns`, with the calls its
  * state listeners make on the way. */
module SocketClientObject {
  import opened Sequences
  import opened SocketRuns

  /** Exactly the subscriptions under the keys in done have been announced, once each. */
  ghost predicate PartlyAnnounced(sent: seq<Frame>, subscriptions: map<string, Payload>, done: set<string>) {
    && (forall i :: 0 <= i < |sent| ==>
      sent[i].Subscribe? && SubKey(sent[i].payload) in done && sent[i].payload in subscriptions.Values)
    && (forall i, j :: 0 <= i < j < |sent| ==> sent[i] != sent[j])
    && (forall k :: k in done ==> k in subscriptions && Announced(sent, subscriptions[k]))
  }

  lemma AnnounceOneMore(sent: seq<Frame>, subscriptions: map<string, Payload>, done: set<string>, k: string)
    requires PartlyAnnounced(sent, subscriptions, done)
    requires k in subscriptions && k !in done && SubKey(subscriptions[k]) == k
    ensures PartlyAnnounced(sent + [Frame.Subscribe(subscriptions[k])], subscriptions, done + {k})
  {
    var f := Frame.Subscribe(subscriptions[k]);
    var after := sent + [f];
    forall i | 0 <= i < |sent| ensures sent[i] != f {
      assert SubKey(sent[i].payload) in done;
    }
    assert after[|sent|] == f && f in after;
    forall j | j in done + {k} ensures j in subscriptions && Announced(after, subscriptions[j]) {
      if j in done {
        assert Announced(sent, subscriptions[j]);
      }
    }
  }

  lemma AllAnnounced(sent: seq<Frame>, subscriptions: map<string, Payload>)
    requires PartlyAnnounced(sent, subscriptions, subscriptions.Keys)
    ensures Announces(sent, subscriptions)
  {
    forall p ensures Announced(sent, p) <==> p in subscriptions.Values {
      if p in subscriptions.Values {
        var k :| k in subscriptions && subscriptions[k] == p;
        assert Announced(sent, subscriptions[k]);
      }
    }
  }

  class SocketClient {
    var transport: Transport
    var state: ConnectionState
    var attempt: nat
    var reconnectHandle: Option<nat>
    var closedByUser: bool
    var subscriptions: map<string, Payload>

    // What the environment holds: frames on the current transport, outstanding timers, and stray
    // transports; and how many transports and timers were asked for out of place.
    var frames: seq<Frame>
    var timers: map<nat, nat>
    var nextHandle: nat
    var strays: multiset<Transport>
    ghost var misplaced: nat

    ghost function View(): Client
      reads this
    {
      Client(transport, state, attempt, reconnectHandle, closedByUser, subscriptions, frames, timers, nextHandle,
        strays, misplaced)
    }

    constructor (autoConnect: bool)
      ensures View() == if autoConnect then Next(NEW, App(Call.Connect([]))) else NEW
    {
      transport, state, attempt, reconnectHandle, closedByUser := NoTransport, Connecting, 0, None, false;
      subscriptions, frames, timers, nextHandle := map[], [], map[], 0;
      strays, misplaced := multiset{}, 0;
      new;
      if autoConnect {
        Connect([]);
      }
    }

    /** Opens a transport unless one is installed, after telling the listeners. */
    method Connect(reactions: seq<Call>)
      modifies this
      ensures View() == DoConnect(old(View()), reactions)
      decreases reactions, 2
    {
      closedByUser := false;
      if transport != NoTransport {
        return;
      }
      SetState(if attempt == 0 then Connecting else Reconnecting, reactions);
      InstallTransport();
    }

    /** A transport that the listeners had installed meanwhile goes astray. */
    method InstallTransport()
      modifies this
      ensures View() == Install(old(View()))
    {
      misplaced := Misplaced(View());
      if transport != NoTransport {
        strays := strays + multiset{transport};
      }
      transport := Opening;
      frames := [];
    }

    method Disconnect(reactions: seq<Call>)
      modifies this
      ensures View() == DoDisconnect(old(View()), reactions)
      decreases reactions, 2
    {
      closedByUser := true;
      CancelReconnect();
      TeardownTransport();
      SetState(Offline, reactions);
    }

    method Subscribe(kind: Kind, id: string)
      modifies this
      ensures View() == DoFollow(old(View()), Payload(kind, id))
    {
      var payload := Payload(kind, id);
      subscriptions := subscriptions[SubKey(payload) := payload];
      if state == Connected {
        Emit(Frame.Subscribe(payload));
      }
    }

    method Unsubscribe(kind: Kind, id: string)
      modifies this
      ensures View() == DoUnfollow(old(View()), Payload(kind, id))
    {
      var payload := Payload(kind, id);
      subscriptions := subscriptions - {SubKey(payload)};
      if state == Connected {
        Emit(Frame.Unsubscribe(payload));
      }
    }

    /** Tells the listeners of a change of state; they answer with calls. */
    method SetState(s: ConnectionState, reactions: seq<Call>)
      modifies this
      ensures View() == SocketRuns.SetState(old(View()), s, reactions)
      decreases reactions, 1
    {
      if state == s {
        return;
      }
      state := s;
      PerformAll(reactions);
    }

    /** One call of the application or of a state listener. */
    method Perform(call: Call)
      modifies this
      ensures View() == SocketRuns.Perform(old(View()), call)
      decreases call, 0
    {
      match call {
        case Connect(reactions) => Connect(reactions);
        case Disconnect(reactions) => Disconnect(reactions);
        case Follow(p) => Subscribe(p.kind, p.id);
        case Unfollow(p) => Unsubscribe(p.kind, p.id);
      }
    }

    /** The calls the state listeners make, one after the other. */
    method PerformAll(calls: seq<Call>)
      modifies this
      ensures View() == SocketRuns.PerformAll(old(View()), calls)
      decreases calls, 0
    {
      for i := 0 to |calls|
        invariant View() == SocketRuns.PerformAll(old(View()), calls[..i])
      {
        Perform(calls[i]);
        assert calls[..i + 1][..i] == calls[..i];
      }
      assert calls[..|calls|] == calls;
    }

    /** A transport opened: tells the listeners, then announces every subscription. */
    method HandleOpen(reactions: seq<Call>) returns (ghost sent: seq<Frame>)
      requires Keyed(subscriptions)
      modifies this
      ensures var told := Told(old(View()), reactions);
        Announces(sent, told.subscriptions) && View() == Announce(told, sent)
    {
      attempt := 0;
      ghost var before := View();
      SetState(Connected, reactions);
      if before.state != Connected {
        CallsKeepFrames(before.(state := Connected), reactions, View());
      }
      sent := AnnounceAll();
    }

    method OnOpen(reactions: seq<Call>) returns (ghost sent: seq<Frame>)
      requires transport == Opening && Keyed(subscriptions)
      modifies this
      ensures Possible(old(View()), Opened(sent, reactions)) && View() == Next(old(View()), Opened(sent, reactions))
    {
      transport := Open;
      sent := HandleOpen(reactions);
    }

    method OnStrayOpen(reactions: seq<Call>) returns (ghost sent: seq<Frame>)
      requires Opening in strays && Keyed(subscriptions)
      modifies this
      ensures Possible(old(View()), StrayOpened(sent, reactions))
      ensures View() == Next(old(View()), StrayOpened(sent, reactions))
    {
      strays := strays - multiset{Opening} + multiset{Open};
      sent := HandleOpen(reactions);
    }

    /** The loop over the subscriptions, in any order. */
    method AnnounceAll() returns (ghost sent: seq<Frame>)
      requires Keyed(subscriptions)
      modifies this`frames
      ensures Announces(sent, subscriptions) && View() == Announce(old(View()), sent)
    {
      sent := [];
      var todo := subscriptions.Keys;
      while todo != {}
        invariant todo <= subscriptions.Keys && View() == Announce(old(View()), sent)
        invariant PartlyAnnounced(sent, subscriptions, subscriptions.Keys - todo)
      {
        var k :| k in todo;
        AnnounceOneMore(sent, subscriptions, subscriptions.Keys - todo, k);
        Emit(Frame.Subscribe(subscriptions[k]));
        sent := sent + [Frame.Subscribe(subscriptions[k])];
        todo := todo - {k};
        assert subscriptions.Keys - todo == subscriptions.Keys - (todo + {k}) + {k};
      }
      assert subscriptions.Keys - todo == subscriptions.Keys;
      AllAnnounced(sent, subscriptions);
    }

    /** A transport closed: goes offline, or tells the listeners and schedules a reconnect. */
    method HandleClose(reactions: seq<Call>)
      modifies this
      ensures View() == SocketRuns.HandleClose(old(View()), reactions)
    {
      TeardownTransport();
      if closedByUser {
        SetState(Offline, reactions);
        return;
      }
      SetState(Reconnecting, reactions);
      StartTimer();
    }

    method StartTimer()
      modifies this
      ensures View() == Schedule(old(View()))
    {
      misplaced := Misplaced(View());
      timers := timers[nextHandle := attempt];
      attempt := attempt + 1;
      reconnectHandle := Some(nextHandle);
      nextHandle := nextHandle + 1;
    }

    method OnClose(reactions: seq<Call>)
      requires transport != NoTransport
      modifies this
      ensures View() == SocketRuns.HandleClose(old(View()), reactions)
    {
      HandleClose(reactions);
    }

    method OnStrayClose(stray: Transport, reactions: seq<Call>)
      requires stray in strays
      modifies this
      ensures View() == HandleStrayClose(old(View()), stray, reactions)
    {
      strays := strays - multiset{stray};
      HandleClose(reactions);
    }

    /** A backoff timer fired. */
    method OnTimer(handle: nat, reactions: seq<Call>)
      requires handle in timers
      modifies this
      ensures View() == HandleTimer(old(View()), handle, reactions)
    {
      timers := timers - {handle};
      reconnectHandle := None;
      Connect(reactions);
    }

    method Emit(f: Frame)
      modifies this`frames
      ensures frames == if transport != NoTransport then old(frames) + [f] else old(frames)
    {
      if transport != NoTransport {
        frames := frames + [f];
      }
    }

    method CancelReconnect()
      modifies this`timers, this`reconnectHandle
      ensures reconnectHandle == None
      ensures timers == if old(reconnectHandle).Some? then old(timers) - {old(reconnectHandle).value} else old(timers)
    {
      if reconnectHandle.Some? {
        timers := timers - {reconnectHandle.value};
        reconnectHandle := None;
      }
    }

    method TeardownTransport()
      modifies this`transport
      ensures transport == NoTransport
    {
      if transport != NoTransport {
        transport := NoTransport;
      }
    }
  }
}
