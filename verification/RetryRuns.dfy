/** Zone-event redelivery with concurrent callers, at lock granularity.
  *
  * `Deliver` sends outside the lock and appends under it; `Retry` takes the whole queue under
  * the lock, sends outside it, and puts the survivors back under it. Any number of such calls
  * interleave. An event is named by the number of its `Deliver` call.
  */
module RetryRuns {

  const MAX_RETRIES := 3

  datatype Entry = Entry(event: nat, retries: nat)

  datatype Send = Send(event: nat, ok: bool)

  /** A `Retry` call between its two locked sections. */
  datatype Pass = Pass(todo: seq<Entry>, keep: seq<Entry>) | Finished

  datatype State = State(
    pending: seq<Entry>,
    arriving: multiset<nat>,
    passes: seq<Pass>,
    submitted: nat,
    delivered: multiset<nat>,
    abandoned: multiset<nat>,
    log: seq<Send>)

  const INITIAL := State([], multiset{}, [], 0, multiset{}, multiset{}, [])

  datatype Step =
    | Deliver(ok: bool)
    | Append(event: nat)
    | TakeBatch
    | Attempt(pass: nat, ok: bool)
    | PutBack(pass: nat)

  predicate Enabled(s: State, step: Step) {
    match step
    case Deliver(_) => true
    case Append(e) => e in s.arriving
    case TakeBatch => true
    case Attempt(k, _) => k < |s.passes| && s.passes[k].Pass? && s.passes[k].todo != []
    case PutBack(k) => k < |s.passes| && s.passes[k].Pass? && s.passes[k].todo == []
  }

  function Next(s: State, step: Step): State
    requires Enabled(s, step)
  {
    match step
    case Deliver(ok) =>
      var e := s.submitted;
      var t := s.(submitted := e + 1, log := s.log + [Send(e, ok)]);
      if ok then t.(delivered := s.delivered + multiset{e}) else t.(arriving := s.arriving + multiset{e})
    case Append(e) =>
      s.(arriving := s.arriving - multiset{e}, pending := s.pending + [Entry(e, 0)])
    case TakeBatch =>
      s.(pending := [], passes := s.passes + [Pass(s.pending, [])])
    case Attempt(k, ok) =>
      var p := s.passes[k];
      var entry, rest := p.todo[0], p.todo[1..];
      var t := s.(log := s.log + [Send(entry.event, ok)]);
      if ok then
        t.(passes := s.passes[k := Pass(rest, p.keep)], delivered := s.delivered + multiset{entry.event})
      else if entry.retries + 1 < MAX_RETRIES then
        t.(passes := s.passes[k := Pass(rest, p.keep + [Entry(entry.event, entry.retries + 1)])])
      else
        t.(passes := s.passes[k := Pass(rest, p.keep)], abandoned := s.abandoned + multiset{entry.event})
    case PutBack(k) =>
      s.(pending := s.passes[k].keep + s.pending, passes := s.passes[k := Finished])
  }

  ghost predicate IsRun(states: seq<State>, steps: seq<Step>) {
    && |states| == |steps| + 1 && states[0] == INITIAL
    && forall i :: 0 <= i < |steps| ==> Enabled(states[i], steps[i]) && states[i + 1] == Next(states[i], steps[i])
  }

  // ---------- Where events are ----------

  /** How many entries of a list are for event e. */
  function Copies(entries: seq<Entry>, e: nat): nat {
    if entries == [] then 0 else (if entries[0].event == e then 1 else 0) + Copies(entries[1..], e)
  }

  function Held(p: Pass, e: nat): nat {
    match p case Pass(todo, keep) => Copies(todo, e) + Copies(keep, e) case Finished => 0
  }

  /** Copies of event e inside `Retry` calls. */
  function InHand(passes: seq<Pass>, e: nat): nat {
    if passes == [] then 0 else Held(passes[0], e) + InHand(passes[1..], e)
  }

  function Places(s: State, e: nat): nat {
    s.delivered[e] + s.abandoned[e] + s.arriving[e] + Copies(s.pending, e) + InHand(s.passes, e)
  }

  /** Each submitted event is in exactly one place, and nothing else is anywhere. */
  ghost predicate Conserved(s: State) {
    forall e: nat :: Places(s, e) == if e < s.submitted then 1 else 0
  }

  lemma {:induction false} CopiesConcat(a: seq<Entry>, b: seq<Entry>, e: nat)
    ensures Copies(a + b, e) == Copies(a, e) + Copies(b, e)
  {
    if a == [] {
      assert a + b == b;
    } else {
      CopiesConcat(a[1..], b, e);
      assert (a + b)[1..] == a[1..] + b;
    }
  }

  lemma {:induction false} InHandUpdate(passes: seq<Pass>, k: nat, p: Pass, e: nat)
    requires k < |passes|
    ensures InHand(passes[k := p], e) + Held(passes[k], e) == InHand(passes, e) + Held(p, e)
  {
    if k == 0 {
      assert passes[0 := p][1..] == passes[1..];
    } else {
      InHandUpdate(passes[1..], k - 1, p, e);
      assert passes[k := p][1..] == passes[1..][k - 1 := p];
    }
  }

  lemma {:induction false} InHandAppend(passes: seq<Pass>, p: Pass, e: nat)
    ensures InHand(passes + [p], e) == InHand(passes, e) + Held(p, e)
  {
    if passes == [] {
      assert [p][1..] == [];
    } else {
      InHandAppend(passes[1..], p, e);
      assert (passes + [p])[1..] == passes[1..] + [p];
    }
  }

  lemma OneCopy(entry: Entry, e: nat)
    ensures Copies([entry], e) == if entry.event == e then 1 else 0
  {
    assert [entry][1..] == [];
  }

  lemma AttemptMovesEvent(s: State, k: nat, ok: bool, e: nat)
    requires Enabled(s, Attempt(k, ok))
    ensures Places(Next(s, Attempt(k, ok)), e) == Places(s, e)
  {
    var p, t := s.passes[k], Next(s, Attempt(k, ok));
    var again := Entry(p.todo[0].event, p.todo[0].retries + 1);
    InHandUpdate(s.passes, k, t.passes[k], e);
    CopiesConcat(p.keep, [again], e);
    OneCopy(again, e);
  }

  /** A step moves events between places; only `Deliver` adds one, the new submission. */
  lemma StepMovesEvents(s: State, step: Step, e: nat)
    requires Enabled(s, step)
    ensures Places(Next(s, step), e) == Places(s, e) + if step.Deliver? && e == s.submitted then 1 else 0
  {
    match step {
      case Deliver(_) =>
      case Append(f) =>
        CopiesConcat(s.pending, [Entry(f, 0)], e);
        OneCopy(Entry(f, 0), e);
      case TakeBatch =>
        InHandAppend(s.passes, Pass(s.pending, []), e);
      case Attempt(k, ok) =>
        AttemptMovesEvent(s, k, ok, e);
      case PutBack(k) =>
        InHandUpdate(s.passes, k, Finished, e);
        CopiesConcat(s.passes[k].keep, s.pending, e);
    }
  }

  // ---------- How often events were sent ----------

  function Count(log: seq<Send>, e: nat, ok: bool): nat {
    if log == [] then 0
    else Count(log[..|log| - 1], e, ok) + if log[|log| - 1] == Send(e, ok) then 1 else 0
  }

  lemma CountAppend(log: seq<Send>, send: Send, e: nat, ok: bool)
    ensures Count(log + [send], e, ok) == Count(log, e, ok) + if send == Send(e, ok) then 1 else 0
  {
    assert (log + [send])[..|log|] == log;
  }

  ghost predicate SentAs(log: seq<Send>, e: nat, fails: nat, oks: nat) {
    Count(log, e, false) == fails && Count(log, e, true) == oks
  }

  /** Queued entries were sent once more than their retry count, without success, and are
    * within the retry budget. */
  ghost predicate Queued(log: seq<Send>, entries: seq<Entry>) {
    forall i :: 0 <= i < |entries| ==>
      entries[i].retries < MAX_RETRIES && SentAs(log, entries[i].event, entries[i].retries + 1, 0)
  }

  ghost predicate PassQueued(log: seq<Send>, p: Pass) {
    p.Pass? ==> Queued(log, p.todo) && Queued(log, p.keep)
  }

  ghost predicate Succeeded(log: seq<Send>, e: nat) {
    Count(log, e, true) == 1 && Count(log, e, false) <= MAX_RETRIES
  }

  /** The send log agrees with where each event is. */
  ghost predicate Tallied(s: State) {
    && Queued(s.log, s.pending)
    && (forall k :: 0 <= k < |s.passes| ==> PassQueued(s.log, s.passes[k]))
    && (forall e :: e in s.arriving ==> SentAs(s.log, e, 1, 0))
    && (forall e :: e in s.delivered ==> Succeeded(s.log, e))
    && (forall e :: e in s.abandoned ==> SentAs(s.log, e, MAX_RETRIES + 1, 0))
    && (forall e: nat :: e >= s.submitted ==> SentAs(s.log, e, 0, 0))
  }

  lemma {:induction false} EntryCounts(entries: seq<Entry>, i: nat)
    requires i < |entries|
    ensures Copies(entries, entries[i].event) >= 1
  {
    if i > 0 {
      EntryCounts(entries[1..], i - 1);
    }
  }

  lemma {:induction false} HeldCounts(passes: seq<Pass>, k: nat, e: nat)
    requires k < |passes|
    ensures Held(passes[k], e) <= InHand(passes, e)
  {
    if k > 0 {
      HeldCounts(passes[1..], k - 1, e);
    }
  }

  /** Two passes together hold no more copies than all passes. */
  lemma {:induction false} HeldTwice(passes: seq<Pass>, k: nat, j: nat, e: nat)
    requires k < |passes| && j < |passes| && j != k
    ensures Held(passes[k], e) + Held(passes[j], e) <= InHand(passes, e)
  {
    if k == 0 {
      HeldCounts(passes[1..], j - 1, e);
    } else if j == 0 {
      HeldCounts(passes[1..], k - 1, e);
    } else {
      HeldTwice(passes[1..], k - 1, j - 1, e);
    }
  }

  lemma SendElsewhere(log: seq<Send>, send: Send, e: nat, fails: nat, oks: nat)
    requires e != send.event
    ensures SentAs(log + [send], e, fails, oks) <==> SentAs(log, e, fails, oks)
  {
    CountAppend(log, send, e, false);
    CountAppend(log, send, e, true);
  }

  /** A send of an event leaves the tally of every list not containing it unchanged. */
  lemma QueuedElsewhere(log: seq<Send>, entries: seq<Entry>, send: Send)
    requires Queued(log, entries) && Copies(entries, send.event) == 0
    ensures Queued(log + [send], entries)
  {
    forall i | 0 <= i < |entries|
      ensures entries[i].retries < MAX_RETRIES && SentAs(log + [send], entries[i].event, entries[i].retries + 1, 0)
    {
      EntryCounts(entries, i);
      SendElsewhere(log, send, entries[i].event, entries[i].retries + 1, 0);
    }
  }

  /** The tally of everything but the passes and the event just sent. */
  ghost predicate RestTallied(s: State, log: seq<Send>, sent: nat) {
    && (forall e :: e in s.arriving && e != sent ==> SentAs(log, e, 1, 0))
    && (forall e :: e in s.delivered && e != sent ==> Succeeded(log, e))
    && (forall e :: e in s.abandoned && e != sent ==> SentAs(log, e, MAX_RETRIES + 1, 0))
    && (forall e: nat :: e >= s.submitted && e != sent ==> SentAs(log, e, 0, 0))
  }

  lemma RestElsewhere(s: State, send: Send)
    requires Tallied(s)
    ensures RestTallied(s, s.log + [send], send.event)
  {
    forall e: nat, fails: nat, oks: nat | e != send.event
      ensures SentAs(s.log + [send], e, fails, oks) <==> SentAs(s.log, e, fails, oks)
    {
      SendElsewhere(s.log, send, e, fails, oks);
    }
    forall e | e in s.delivered && e != send.event ensures Succeeded(s.log + [send], e) {
      SendElsewhere(s.log, send, e, Count(s.log, e, false), 1);
    }
  }

  lemma PassesElsewhere(s: State, send: Send, k: nat)
    requires Tallied(s) && forall j :: 0 <= j < |s.passes| && j != k ==> Held(s.passes[j], send.event) == 0
    ensures forall j :: 0 <= j < |s.passes| && j != k ==> PassQueued(s.log + [send], s.passes[j])
  {
    forall j | 0 <= j < |s.passes| && j != k ensures PassQueued(s.log + [send], s.passes[j]) {
      assert PassQueued(s.log, s.passes[j]);
      if s.passes[j].Pass? {
        QueuedElsewhere(s.log, s.passes[j].todo, send);
        QueuedElsewhere(s.log, s.passes[j].keep, send);
      }
    }
  }

  lemma DeliverKeepsTally(s: State, ok: bool)
    requires Conserved(s) && Tallied(s)
    ensures Tallied(Next(s, Deliver(ok)))
  {
    var e, t := s.submitted, Next(s, Deliver(ok));
    var send := Send(e, ok);
    assert Places(s, e) == 0;
    forall j | 0 <= j < |s.passes| ensures Held(s.passes[j], e) == 0 {
      HeldCounts(s.passes, j, e);
    }
    RestElsewhere(s, send);
    PassesElsewhere(s, send, |s.passes|);
    QueuedElsewhere(s.log, s.pending, send);
    assert SentAs(s.log, e, 0, 0);
    CountAppend(s.log, send, e, true);
    CountAppend(s.log, send, e, false);
  }

  lemma AttemptPass(log: seq<Send>, p: Pass, ok: bool, kept: seq<Entry>)
    requires p.Pass? && p.todo != [] && PassQueued(log, p) && Held(p, p.todo[0].event) == 1
    requires kept == (if !ok && p.todo[0].retries + 1 < MAX_RETRIES
      then p.keep + [Entry(p.todo[0].event, p.todo[0].retries + 1)] else p.keep)
    ensures PassQueued(log + [Send(p.todo[0].event, ok)], Pass(p.todo[1..], kept))
  {
    var entry, rest := p.todo[0], p.todo[1..];
    var send := Send(entry.event, ok);
    forall i | 0 <= i < |rest|
      ensures SentAs(log, rest[i].event, rest[i].retries + 1, 0) && rest[i].retries < MAX_RETRIES
    {
      assert rest[i] == p.todo[i + 1];
    }
    QueuedElsewhere(log, rest, send);
    QueuedElsewhere(log, p.keep, send);
    assert SentAs(log, entry.event, entry.retries + 1, 0);
    CountAppend(log, send, entry.event, true);
    CountAppend(log, send, entry.event, false);
  }

  /** The event a pass is about to send is in that pass once and nowhere else. */
  lemma AttemptedEvent(s: State, k: nat)
    requires Conserved(s) && Tallied(s) && k < |s.passes| && s.passes[k].Pass? && s.passes[k].todo != []
    ensures var e := s.passes[k].todo[0].event;
      && e < s.submitted && Held(s.passes[k], e) == 1
      && e !in s.delivered && e !in s.abandoned && e !in s.arriving && Copies(s.pending, e) == 0
      && (forall j :: 0 <= j < |s.passes| && j != k ==> Held(s.passes[j], e) == 0)
      && SentAs(s.log, e, s.passes[k].todo[0].retries + 1, 0) && s.passes[k].todo[0].retries < MAX_RETRIES
  {
    var p := s.passes[k];
    var e := p.todo[0].event;
    assert PassQueued(s.log, p);
    assert Held(p, e) >= 1 && Places(s, e) <= 1;
    HeldCounts(s.passes, k, e);
    forall j | 0 <= j < |s.passes| && j != k ensures Held(s.passes[j], e) == 0 {
      HeldTwice(s.passes, k, j, e);
    }
    assert SentAs(s.log, e, p.todo[0].retries + 1, 0);
  }

  lemma AttemptQueues(s: State, k: nat, ok: bool)
    requires Conserved(s) && Tallied(s) && Enabled(s, Attempt(k, ok))
    ensures var t := Next(s, Attempt(k, ok));
      Queued(t.log, t.pending) && forall j :: 0 <= j < |t.passes| ==> PassQueued(t.log, t.passes[j])
  {
    var p, t := s.passes[k], Next(s, Attempt(k, ok));
    var send := Send(p.todo[0].event, ok);
    AttemptedEvent(s, k);
    assert PassQueued(s.log, p);
    PassesElsewhere(s, send, k);
    QueuedElsewhere(s.log, s.pending, send);
    AttemptPass(s.log, p, ok, t.passes[k].keep);
  }

  /** The attempted event's tally after the attempt. */
  lemma AttemptCounts(s: State, k: nat, ok: bool)
    requires Conserved(s) && Tallied(s) && Enabled(s, Attempt(k, ok))
    ensures var entry := s.passes[k].todo[0];
      SentAs(s.log + [Send(entry.event, ok)], entry.event, entry.retries + (if ok then 1 else 2), if ok then 1 else 0)
      && entry.retries < MAX_RETRIES
  {
    var entry := s.passes[k].todo[0];
    assert PassQueued(s.log, s.passes[k]);
    assert SentAs(s.log, entry.event, entry.retries + 1, 0);
    CountAppend(s.log, Send(entry.event, ok), entry.event, true);
    CountAppend(s.log, Send(entry.event, ok), entry.event, false);
  }

  lemma AttemptKeepsTally(s: State, k: nat, ok: bool)
    requires Conserved(s) && Tallied(s) && Enabled(s, Attempt(k, ok))
    ensures Tallied(Next(s, Attempt(k, ok)))
  {
    var entry := s.passes[k].todo[0];
    AttemptedEvent(s, k);
    AttemptQueues(s, k, ok);
    RestElsewhere(s, Send(entry.event, ok));
    AttemptCounts(s, k, ok);
  }

  lemma QuietStepKeepsTally(s: State, step: Step)
    requires Tallied(s) && Enabled(s, step) && (step.Append? || step.TakeBatch? || step.PutBack?)
    ensures Tallied(Next(s, step))
  {
    if step.PutBack? {
      assert PassQueued(s.log, s.passes[step.pass]);
    }
  }

  lemma StepKeepsTally(s: State, step: Step)
    requires Conserved(s) && Tallied(s) && Enabled(s, step)
    ensures Tallied(Next(s, step))
  {
    match step {
      case Deliver(ok) => DeliverKeepsTally(s, ok);
      case Attempt(k, ok) => AttemptKeepsTally(s, k, ok);
      case Append(_) => QuietStepKeepsTally(s, step);
      case TakeBatch => QuietStepKeepsTally(s, step);
      case PutBack(_) => QuietStepKeepsTally(s, step);
    }
  }

  lemma StepConserves(s: State, step: Step)
    requires Conserved(s) && Enabled(s, step)
    ensures Conserved(Next(s, step))
  {
    forall e: nat ensures Places(Next(s, step), e) == if e < Next(s, step).submitted then 1 else 0 {
      StepMovesEvents(s, step, e);
      assert Places(s, e) == if e < s.submitted then 1 else 0;
    }
  }

  /** Over every interleaving: submitted = delivered + abandoned + pending + in hand, each event
    * in one place, and the send log agrees with the places. */
  lemma {:induction false} RunKeepsInvariant(states: seq<State>, steps: seq<Step>, i: nat)
    requires IsRun(states, steps) && i < |states|
    ensures Conserved(states[i]) && Tallied(states[i])
  {
    if i > 0 {
      RunKeepsInvariant(states, steps, i - 1);
      var s, step := states[i - 1], steps[i - 1];
      assert Enabled(s, step) && states[i - 1 + 1] == Next(s, step);
      StepConserves(s, step);
      StepKeepsTally(s, step);
    }
  }

  lemma {:induction false} EntryOf(entries: seq<Entry>, e: nat) returns (j: nat)
    requires Copies(entries, e) >= 1
    ensures j < |entries| && entries[j].event == e
  {
    if entries[0].event == e {
      j := 0;
    } else {
      var i := EntryOf(entries[1..], e);
      j := i + 1;
    }
  }

  lemma {:induction false} PassOf(passes: seq<Pass>, e: nat) returns (k: nat)
    requires InHand(passes, e) >= 1
    ensures k < |passes| && passes[k].Pass? && Held(passes[k], e) >= 1
  {
    if Held(passes[0], e) >= 1 {
      k := 0;
    } else {
      var i := PassOf(passes[1..], e);
      k := i + 1;
    }
  }

  /** An event still queued or in hand has failed once per recorded try and never succeeded. */
  lemma WaitingEvent(s: State, e: nat)
    requires Conserved(s) && Tallied(s) && e < s.submitted
    requires e !in s.delivered && e !in s.abandoned
    ensures Count(s.log, e, true) == 0 && 1 <= Count(s.log, e, false) <= MAX_RETRIES
  {
    assert Places(s, e) == 1;
    if Copies(s.pending, e) >= 1 {
      var j := EntryOf(s.pending, e);
      assert SentAs(s.log, e, s.pending[j].retries + 1, 0);
    } else if InHand(s.passes, e) >= 1 {
      var k := PassOf(s.passes, e);
      var p := s.passes[k];
      assert PassQueued(s.log, p);
      var list := if Copies(p.todo, e) >= 1 then p.todo else p.keep;
      var j := EntryOf(list, e);
      assert SentAs(s.log, e, list[j].retries + 1, 0);
    }
  }

  /** Nothing is sent more than four times, an event counts as delivered iff one send succeeded,
    * and as abandoned iff exactly four sends failed. */
  lemma SendsAreBounded(states: seq<State>, steps: seq<Step>, i: nat, e: nat)
    requires IsRun(states, steps) && i < |states|
    ensures var s := states[i];
      && Count(s.log, e, true) + Count(s.log, e, false) <= MAX_RETRIES + 1
      && Count(s.log, e, true) <= 1
      && (e in s.delivered <==> Count(s.log, e, true) == 1)
      && (e in s.abandoned <==> Count(s.log, e, false) == MAX_RETRIES + 1)
  {
    var s := states[i];
    RunKeepsInvariant(states, steps, i);
    if e >= s.submitted {
      assert SentAs(s.log, e, 0, 0) && Places(s, e) == 0;
    } else if e in s.delivered {
      assert Succeeded(s.log, e) && Places(s, e) == 1;
    } else if e in s.abandoned {
      assert SentAs(s.log, e, MAX_RETRIES + 1, 0);
    } else {
      WaitingEvent(s, e);
    }
  }
}
