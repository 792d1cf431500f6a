/** What the socket client is subscribed to, read off the calls made.
  *
  * Listeners may subscribe and unsubscribe as the application does, at any depth of notification. The
  * words of a run are all such calls in the order in which they were made; the last word about a
  * vehicle or delivery decides whether the client follows it.
  */
module SocketSubscriptions {
  import opened Sequences
  import opened SocketRuns
  import opened SocketListeners

  // ---------- Who says what ----------

  /** What listeners say when the state becomes s: nothing if it already is. */
  function Heard(c: Client, s: ConnectionState, reactions: seq<Call>): seq<Call>
    decreases reactions, 1
  {
    if c.state == s then [] else AllSaid(c.(state := s), reactions)
  }

  /** The subscribing and unsubscribing in a call: its own, or that of the listeners it tells. */
  function Said(c: Client, call: Call): seq<Call>
    decreases call, 0
  {
    match call
    case Connect(reactions) =>
      if c.transport != NoTransport then [] else Heard(c.(closedByUser := false), Goal(c), reactions)
    case Disconnect(reactions) => Heard(ShutDown(c), Offline, reactions)
    case _ => [call]
  }

  function AllSaid(c: Client, calls: seq<Call>): seq<Call>
    decreases calls, 0
  {
    if calls == [] then []
    else
      var init, last := calls[..|calls| - 1], calls[|calls| - 1];
      AllSaid(c, init) + Said(PerformAll(c, init), last)
  }

  function SaidInClose(c: Client, reactions: seq<Call>): seq<Call> {
    Heard(Teardown(c), if c.closedByUser then Offline else Reconnecting, reactions)
  }

  function SaidIn(c: Client, e: Event): seq<Call> {
    match e
    case App(call) => Said(c, call)
    case Closed(reactions) => SaidInClose(c, reactions)
    case TimerFired(h, reactions) => Said(Elapsed(c, h), Connect(reactions))
    case StrayClosed(stray, reactions) => SaidInClose(c.(strays := c.strays - multiset{stray}), reactions)
    case _ => Heard(AtOpen(c, e).(attempt := 0), Connected, e.reactions)
  }

  /** All words of the first n events. */
  function Words(clients: seq<Client>, events: seq<Event>, n: nat): seq<Call>
    requires n <= |events| && |clients| == |events| + 1
  {
    if n == 0 then [] else Words(clients, events, n - 1) + SaidIn(clients[n - 1], events[n - 1])
  }

  // ---------- What words come to ----------

  /** m after some words. */
  function Heeding(m: map<string, Payload>, words: seq<Call>): map<string, Payload> {
    if words == [] then m
    else
      var before := Heeding(m, words[..|words| - 1]);
      match words[|words| - 1]
      case Follow(p) => before[SubKey(p) := p]
      case Unfollow(p) => before - {SubKey(p)}
      case _ => before
  }

  lemma {:induction false} HeedingMore(m: map<string, Payload>, a: seq<Call>, b: seq<Call>)
    ensures Heeding(m, a + b) == Heeding(Heeding(m, a), b)
  {
    if b == [] {
      assert a + b == a;
    } else {
      HeedingMore(m, a, b[..|b| - 1]);
      assert (a + b)[..|a + b| - 1] == a + b[..|b| - 1];
    }
  }

  /** Word number i says to follow p, and no later word to stop. */
  ghost predicate LastWord(words: seq<Call>, p: Payload, i: nat) {
    i < |words| && words[i] == Follow(p) && forall j :: i < j < |words| ==> words[j] != Unfollow(p)
  }

  ghost predicate Followed(words: seq<Call>, p: Payload) { exists i: nat :: LastWord(words, p, i) }

  lemma OneMoreWord(init: seq<Call>, w: Call, p: Payload)
    ensures Followed(init + [w], p) <==> w == Follow(p) || (Followed(init, p) && w != Unfollow(p))
  {
    var n := |init|;
    var words := init + [w];
    assert words[n] == w && forall j :: 0 <= j < n ==> init[j] == words[j];
    if i: nat :| LastWord(init, p, i) {
      assert w != Unfollow(p) ==> LastWord(words, p, i);
    }
    if i: nat :| LastWord(words, p, i) {
      assert i < n ==> LastWord(init, p, i);
    }
    assert w == Follow(p) ==> LastWord(words, p, n);
  }

  lemma {:induction false} HeedingIsLastWord(words: seq<Call>, p: Payload)
    ensures Keyed(Heeding(map[], words))
    ensures SubKey(p) in Heeding(map[], words) <==> Followed(words, p)
  {
    if words != [] {
      var init, w := words[..|words| - 1], words[|words| - 1];
      HeedingIsLastWord(init, p);
      OneMoreWord(init, w, p);
      assert words == init + [w];
      if (w.Follow? || w.Unfollow?) && SubKey(w.payload) == SubKey(p) {
        SubKeyIsInjective(w.payload, p);
      }
    }
  }

  // ---------- The client heeds every word ----------

  lemma {:induction false} CallIsHeeded(c: Client, call: Call, r: Client)
    requires r == Perform(c, call)
    ensures r.subscriptions == Heeding(c.subscriptions, Said(c, call))
    decreases call, 1
  {
    match call {
      case Connect(reactions) =>
        var d := c.(closedByUser := false);
        if d.transport == NoTransport {
          assert r == Install(SetState(d, Goal(d), reactions));
          HearingIsHeeded(d, Goal(d), reactions);
        }
      case Disconnect(reactions) =>
        assert r == SetState(ShutDown(c), Offline, reactions);
        HearingIsHeeded(ShutDown(c), Offline, reactions);
      case _ =>
        assert [call][..0] == [];
    }
  }

  lemma {:induction false} HearingIsHeeded(c: Client, s: ConnectionState, reactions: seq<Call>)
    ensures SetState(c, s, reactions).subscriptions == Heeding(c.subscriptions, Heard(c, s, reactions))
    decreases reactions, 1
  {
    if c.state != s {
      CallsAreHeeded(c.(state := s), reactions);
    }
  }

  lemma {:induction false} CallsAreHeeded(c: Client, calls: seq<Call>)
    ensures PerformAll(c, calls).subscriptions == Heeding(c.subscriptions, AllSaid(c, calls))
    decreases calls, 0
  {
    if calls != [] {
      var init, last := calls[..|calls| - 1], calls[|calls| - 1];
      CallsAreHeeded(c, init);
      CallIsHeeded(PerformAll(c, init), last, PerformAll(c, calls));
      HeedingMore(c.subscriptions, AllSaid(c, init), Said(PerformAll(c, init), last));
    }
  }

  lemma EventIsHeeded(c: Client, e: Event)
    ensures Next(c, e).subscriptions == Heeding(c.subscriptions, SaidIn(c, e))
  {
    match e {
      case App(call) => CallIsHeeded(c, call, Perform(c, call));
      case Closed(reactions) => CloseIsHeeded(c, reactions);
      case TimerFired(h, reactions) =>
        CallIsHeeded(Elapsed(c, h), Connect(reactions), Perform(Elapsed(c, h), Connect(reactions)));
      case StrayClosed(stray, reactions) => CloseIsHeeded(c.(strays := c.strays - multiset{stray}), reactions);
      case _ => HearingIsHeeded(AtOpen(c, e).(attempt := 0), Connected, e.reactions);
    }
  }

  lemma CloseIsHeeded(c: Client, reactions: seq<Call>)
    ensures HandleClose(c, reactions).subscriptions == Heeding(c.subscriptions, SaidInClose(c, reactions))
  {
    HearingIsHeeded(Teardown(c), if c.closedByUser then Offline else Reconnecting, reactions);
  }

  ghost predicate Heeds(c: Client, words: seq<Call>) { c.subscriptions == Heeding(map[], words) }

  lemma StepIsHeeded(words: seq<Call>, c: Client, e: Event, d: Client, more: seq<Call>)
    requires Heeds(c, words) && IsStep(c, e, d) && more == SaidIn(c, e)
    ensures Heeds(d, words + more)
  {
    EventIsHeeded(c, e);
    HeedingMore(map[], words, more);
  }

  lemma {:induction false} WordsAreHeeded(clients: seq<Client>, events: seq<Event>, n: nat)
    requires IsRun(clients, events) && n <= |events|
    ensures Heeds(clients[n], Words(clients, events, n))
  {
    if n > 0 {
      WordsAreHeeded(clients, events, n - 1);
      assert IsStep(clients[n - 1], events[n - 1], clients[n - 1 + 1]);
      var more := SaidIn(clients[n - 1], events[n - 1]);
      StepIsHeeded(Words(clients, events, n - 1), clients[n - 1], events[n - 1], clients[n], more);
    }
  }

  /** Over any run, whoever called: the client is subscribed to exactly what the last word about it said to
    * follow, each under its own key. */
  lemma SubscriptionsAreHistory(clients: seq<Client>, events: seq<Event>, n: nat, p: Payload)
    requires IsRun(clients, events) && n <= |events|
    ensures Keyed(clients[n].subscriptions)
    ensures SubKey(p) in clients[n].subscriptions <==> Followed(Words(clients, events, n), p)
    ensures p in clients[n].subscriptions.Values <==> Followed(Words(clients, events, n), p)
  {
    var m := clients[n].subscriptions;
    WordsAreHeeded(clients, events, n);
    HeedingIsLastWord(Words(clients, events, n), p);
    if SubKey(p) in m {
      SubKeyIsInjective(m[SubKey(p)], p);
      assert m[SubKey(p)] in m.Values;
    }
    if p in m.Values {
      var k :| k in m && m[k] == p;
    }
  }

  /** So with manners, and listeners that stay when told that the client is connected, the server has seen
    * on the open transport exactly what the last words say to follow. */
  lemma ServerSeesLastWords(clients: seq<Client>, events: seq<Event>, n: nat, p: Payload)
    requires IsRun(clients, events) && n <= |events| && MannersBefore(clients, events, n)
    requires forall k :: 0 <= k < n && events[k].Opened? ==> Stays(events[k].reactions)
    requires clients[n].state == Connected
    ensures p in Replay(clients[n].frames).Values <==> Followed(Words(clients, events, n), p)
  {
    NotifiedFramesMatch(clients, events, n);
    SubscriptionsAreHistory(clients, events, n, p);
  }

  // ---------- What is sent and announced ----------

  /** Following and unfollowing change the subscriptions and, on a connected client, send one frame last. */
  lemma WordIsSent(c: Client, p: Payload)
    ensures forall call :: call == Follow(p) || call == Unfollow(p) ==>
      var r := Perform(c, call);
      && r == c.(subscriptions := r.subscriptions, frames := r.frames)
      && r.frames == if c.state != Connected || c.transport == NoTransport then c.frames
        else c.frames + [if call.Follow? then Subscribe(p) else Unsubscribe(p)]
    ensures p in Perform(c, Follow(p)).subscriptions.Values
    ensures SubKey(p) !in Perform(c, Unfollow(p)).subscriptions
    ensures forall k :: k != SubKey(p) ==>
      && (k in Perform(c, Follow(p)).subscriptions <==> k in c.subscriptions)
      && (k in Perform(c, Unfollow(p)).subscriptions <==> k in c.subscriptions)
  {
    assert Perform(c, Follow(p)).subscriptions[SubKey(p)] == p;
  }

  /** A transport that opens: every subscription is announced on the transport then installed, if there is one;
    * a stray that opens or closes is accounted for. */
  lemma OpeningAnnounces(c: Client, e: Event, told: Client)
    requires Possible(c, e) && (e.Opened? || e.StrayOpened?) && told == Told(AtOpen(c, e), e.reactions)
    ensures Next(c, e) == told.(frames := Next(c, e).frames)
    ensures Next(c, e).frames == told.frames + if told.transport == NoTransport then [] else e.sent
    ensures Quiet(e.reactions) && e.Opened? ==> told.transport == Open && told.strays == c.strays
    ensures Quiet(e.reactions) && e.StrayOpened? ==>
      told.transport == c.transport && told.strays == c.strays - multiset{Opening} + multiset{Open}
  {
    var d := AtOpen(c, e).(attempt := 0);
    if d.state != Connected {
      CallsLeave(d.(state := Connected), e.reactions, told);
    }
  }

  lemma RequestState(c: Client, reactions: seq<Call>)
    requires c.transport == NoTransport && Quiet(reactions)
    ensures var r := DoConnect(c, reactions);
      r.transport == Opening && r.state == if c.attempt == 0 then Connecting else Reconnecting
  {
    var d := c.(closedByUser := false);
    if d.state != Goal(d) {
      CallsLeave(d.(state := Goal(d)), reactions, SetState(d, Goal(d), reactions));
    }
  }

  /** A transport is asked for as connecting until one is lost, and then as reconnecting until one opens. */
  lemma ConnectingOrReconnecting(clients: seq<Client>, events: seq<Event>, n: nat, reactions: seq<Call>)
    requires IsRun(clients, events) && n < |events| && clients[n].transport == NoTransport && Quiet(reactions)
    requires events[n] == App(Connect(reactions)) || (events[n].TimerFired? && events[n].reactions == reactions)
    ensures clients[n + 1].transport == Opening
    ensures clients[n + 1].state == if LossesSinceOpen(clients, events, n) == 0 then Connecting else Reconnecting
  {
    AttemptCountsCloses(clients, events, n);
    assert IsStep(clients[n], events[n], clients[n + 1]);
    if events[n].App? {
      RequestState(clients[n], reactions);
    } else {
      RequestState(Elapsed(clients[n], events[n].handle), reactions);
    }
  }
}
