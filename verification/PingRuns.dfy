/** Sending and buffering location pings, with sends, connectivity changes and flushes
  * interleaving at every await point.
  *
  * Between two awaits the driver app runs alone, so a step is the code from one await to the
  * next. Sorting promises no stability: a drain returns any sorted permutation.
  */
module PingRuns {

  datatype Ping = Ping(id: nat, timestamp: int)

  /** A flush between awaits: the ping being sent is todo[0]. */
  datatype Flush = Running(todo: seq<Ping>, failed: seq<Ping>) | Finished

  datatype State = State(
    online: bool, queue: seq<Ping>, sending: multiset<Ping>, flushes: seq<Flush>,
    submitted: multiset<Ping>, sent: multiset<Ping>, dropped: multiset<Ping>)

  function Start(online: bool): State {
    State(online, [], multiset{}, [], multiset{}, multiset{}, multiset{})
  }

  // ---------- The bounded queue ----------

  /** The queue after one insertion: the oldest entry makes room. */
  function Enqueue(queue: seq<Ping>, p: Ping, maxSize: nat): seq<Ping> {
    var longer := queue + [p];
    if |longer| > maxSize then longer[1..] else longer
  }

  function EnqueueAll(queue: seq<Ping>, ps: seq<Ping>, maxSize: nat): seq<Ping>
    decreases |ps|
  {
    if ps == [] then queue else EnqueueAll(Enqueue(queue, ps[0], maxSize), ps[1..], maxSize)
  }

  /** What insertion pushes out. */
  function Overflow(queue: seq<Ping>, ps: seq<Ping>, maxSize: nat): seq<Ping> {
    var excess := |queue| + |ps| - maxSize;
    if excess > 0 then (queue + ps)[..excess] else []
  }

  function Excess(queue: seq<Ping>, ps: seq<Ping>, maxSize: nat): nat {
    if |queue| + |ps| > maxSize then |queue| + |ps| - maxSize else 0
  }

  lemma EnqueueOne(queue: seq<Ping>, ps: seq<Ping>, maxSize: nat, all: seq<Ping>)
    requires |queue| <= maxSize && maxSize > 0 && ps != [] && all == queue + ps
    ensures var next := Enqueue(queue, ps[0], maxSize);
      |next| <= maxSize && next + ps[1..] == if |queue| < maxSize then all else all[1..]
  {
    assert all == (queue + [ps[0]]) + ps[1..];
  }

  lemma {:induction false} EnqueueAllDrops(queue: seq<Ping>, ps: seq<Ping>, maxSize: nat, all: seq<Ping>)
    requires |queue| <= maxSize && maxSize > 0 && all == queue + ps
    ensures EnqueueAll(queue, ps, maxSize) == all[Excess(queue, ps, maxSize)..]
    decreases |ps|
  {
    if ps != [] {
      var next, n := Enqueue(queue, ps[0], maxSize), Excess(queue, ps, maxSize);
      EnqueueOne(queue, ps, maxSize, all);
      EnqueueAllDrops(next, ps[1..], maxSize, next + ps[1..]);
      if |queue| == maxSize {
        assert all[1..][n - 1..] == all[n..];
      }
    }
  }

  /** A bounded queue keeps exactly the most recent entries, in order, and loses the rest only
    * when the capacity is exceeded. */
  lemma EnqueueKeepsMostRecent(queue: seq<Ping>, ps: seq<Ping>, maxSize: nat)
    requires |queue| <= maxSize && maxSize > 0
    ensures Overflow(queue, ps, maxSize) + EnqueueAll(queue, ps, maxSize) == queue + ps
    ensures |EnqueueAll(queue, ps, maxSize)| == if |queue| + |ps| <= maxSize then |queue| + |ps| else maxSize
  {
    var all := queue + ps;
    EnqueueAllDrops(queue, ps, maxSize, all);
    assert Overflow(queue, ps, maxSize) == all[..Excess(queue, ps, maxSize)];
  }

  ghost predicate InOrder(ps: seq<Ping>) {
    forall i, j :: 0 <= i < j < |ps| ==> ps[i].timestamp <= ps[j].timestamp
  }

  /** A possible result of draining: sorted by time, nothing added or lost. */
  ghost predicate IsDrain(drained: seq<Ping>, queue: seq<Ping>) {
    InOrder(drained) && multiset(drained) == multiset(queue)
  }

  // ---------- Steps ----------

  datatype Step =
    | Submit(ping: Ping)
    | SubmitResult(ping: Ping, ok: bool)
    | SetOnline(online: bool, drained: seq<Ping>)
    | StartFlush(drained: seq<Ping>)
    | FlushResult(flush: nat, ok: bool)

  ghost predicate Enabled(s: State, step: Step) {
    match step
    case Submit(_) => true
    case SubmitResult(p, _) => p in s.sending
    case SetOnline(_, drained) => IsDrain(drained, s.queue)
    case StartFlush(drained) => IsDrain(drained, s.queue)
    case FlushResult(k, _) => k < |s.flushes| && s.flushes[k].Running? && s.flushes[k].todo != []
  }

  function Put(s: State, ps: seq<Ping>, maxSize: nat): State {
    s.(queue := EnqueueAll(s.queue, ps, maxSize), dropped := s.dropped + multiset(Overflow(s.queue, ps, maxSize)))
  }

  /** Draining an empty queue starts nothing. */
  function Drain(s: State, drained: seq<Ping>): State {
    if s.queue == [] then s else s.(queue := [], flushes := s.flushes + [Running(drained, [])])
  }

  function Next(s: State, step: Step, maxSize: nat): State
    requires step.FlushResult? ==>
      step.flush < |s.flushes| && s.flushes[step.flush].Running? && s.flushes[step.flush].todo != []
  {
    match step
    case Submit(p) =>
      var t := s.(submitted := s.submitted + multiset{p});
      if s.online then t.(sending := s.sending + multiset{p}) else Put(t, [p], maxSize)
    case SubmitResult(p, ok) =>
      var t := s.(sending := s.sending - multiset{p});
      if ok then t.(sent := s.sent + multiset{p}) else Put(t, [p], maxSize)
    case SetOnline(online, drained) =>
      var t := s.(online := online);
      if online && !s.online then Drain(t, drained) else t
    case StartFlush(drained) => Drain(s, drained)
    case FlushResult(k, ok) =>
      var f := s.flushes[k];
      var p, rest := f.todo[0], f.todo[1..];
      var failed := if ok then f.failed else f.failed + [p];
      var t := if ok then s.(sent := s.sent + multiset{p}) else s;
      if rest != [] then t.(flushes := s.flushes[k := Running(rest, failed)])
      else Put(t.(flushes := s.flushes[k := Finished]), failed, maxSize)
  }

  ghost predicate IsRun(states: seq<State>, steps: seq<Step>, maxSize: nat) {
    && |states| == |steps| + 1 && (exists online :: states[0] == Start(online))
    && forall i :: 0 <= i < |steps| ==>
      Enabled(states[i], steps[i]) && states[i + 1] == Next(states[i], steps[i], maxSize)
  }

  // ---------- Conservation ----------

  function Copies(ps: seq<Ping>, p: Ping): nat { multiset(ps)[p] }

  lemma CopiesConcat(a: seq<Ping>, b: seq<Ping>, p: Ping)
    ensures Copies(a + b, p) == Copies(a, p) + Copies(b, p)
  {
    assert multiset(a + b) == multiset(a) + multiset(b);
  }

  function Held(f: Flush, p: Ping): nat {
    match f case Running(todo, failed) => Copies(todo, p) + Copies(failed, p) case Finished => 0
  }

  /** Copies of p inside flushes. */
  function InFlushes(flushes: seq<Flush>, p: Ping): nat {
    if flushes == [] then 0 else Held(flushes[0], p) + InFlushes(flushes[1..], p)
  }

  /** Copies of p sent, in flight, queued or dropped. */
  function Places(s: State, p: Ping): nat {
    s.sent[p] + s.sending[p] + InFlushes(s.flushes, p) + Copies(s.queue, p) + s.dropped[p]
  }

  lemma {:induction false} FlushesUpdate(flushes: seq<Flush>, k: nat, f: Flush, p: Ping)
    requires k < |flushes|
    ensures InFlushes(flushes[k := f], p) + Held(flushes[k], p) == InFlushes(flushes, p) + Held(f, p)
  {
    if k == 0 {
      assert flushes[0 := f][1..] == flushes[1..];
    } else {
      FlushesUpdate(flushes[1..], k - 1, f, p);
      assert flushes[k := f][1..] == flushes[1..][k - 1 := f];
    }
  }

  lemma {:induction false} FlushesAppend(flushes: seq<Flush>, f: Flush, p: Ping)
    ensures InFlushes(flushes + [f], p) == InFlushes(flushes, p) + Held(f, p)
  {
    if flushes == [] {
      assert [f][1..] == [];
    } else {
      FlushesAppend(flushes[1..], f, p);
      assert (flushes + [f])[1..] == flushes[1..] + [f];
    }
  }

  lemma PutMoves(s: State, ps: seq<Ping>, maxSize: nat, p: Ping)
    requires |s.queue| <= maxSize && maxSize > 0
    ensures Places(Put(s, ps, maxSize), p) == Places(s, p) + Copies(ps, p)
    ensures |Put(s, ps, maxSize).queue| <= maxSize
  {
    EnqueueKeepsMostRecent(s.queue, ps, maxSize);
    var over, kept := Overflow(s.queue, ps, maxSize), EnqueueAll(s.queue, ps, maxSize);
    CopiesConcat(over, kept, p);
    CopiesConcat(s.queue, ps, p);
    assert (s.dropped + multiset(over))[p] == s.dropped[p] + Copies(over, p);
  }

  lemma DrainMoves(s: State, drained: seq<Ping>, p: Ping)
    requires IsDrain(drained, s.queue)
    ensures Places(Drain(s, drained), p) == Places(s, p)
  {
    if s.queue != [] {
      FlushesAppend(s.flushes, Running(drained, []), p);
    }
  }

  /** One send result splits what a flush holds into what it still holds and what was sent. */
  lemma ResultSplits(f: Flush, ok: bool, rest: seq<Ping>, failed: seq<Ping>, p: Ping)
    requires f.Running? && f.todo != [] && rest == f.todo[1..]
    requires failed == if ok then f.failed else f.failed + [f.todo[0]]
    ensures Copies(rest, p) + Copies(failed, p) + (if ok && f.todo[0] == p then 1 else 0) == Held(f, p)
  {
    var q := f.todo[0];
    assert f.todo == [q] + rest;
    assert Copies([q], p) == if q == p then 1 else 0;
    CopiesConcat([q], rest, p);
    CopiesConcat(f.failed, [q], p);
  }

  /** Replacing flush k by g and counting what was sent. */
  lemma FlushBecomes(s: State, k: nat, ok: bool, g: Flush, t: State, p: Ping)
    requires k < |s.flushes| && s.flushes[k].Running? && s.flushes[k].todo != []
    requires t == s.(flushes := s.flushes[k := g],
      sent := if ok then s.sent + multiset{s.flushes[k].todo[0]} else s.sent)
    ensures Places(t, p) + Held(s.flushes[k], p)
      == Places(s, p) + Held(g, p) + if ok && s.flushes[k].todo[0] == p then 1 else 0
  {
    FlushesUpdate(s.flushes, k, g, p);
  }

  lemma FlushResultMoves(s: State, k: nat, ok: bool, maxSize: nat, p: Ping)
    requires Enabled(s, FlushResult(k, ok)) && |s.queue| <= maxSize && maxSize > 0
    ensures Places(Next(s, FlushResult(k, ok), maxSize), p) == Places(s, p)
    ensures Next(s, FlushResult(k, ok), maxSize).submitted == s.submitted
    ensures |Next(s, FlushResult(k, ok), maxSize).queue| <= maxSize
  {
    var f := s.flushes[k];
    var rest := f.todo[1..];
    var failed := if ok then f.failed else f.failed + [f.todo[0]];
    var sent := if ok then s.sent + multiset{f.todo[0]} else s.sent;
    ResultSplits(f, ok, rest, failed, p);
    var g := if rest != [] then Running(rest, failed) else Finished;
    var t := s.(flushes := s.flushes[k := g], sent := sent);
    FlushBecomes(s, k, ok, g, t, p);
    if rest == [] {
      PutMoves(t, failed, maxSize, p);
    }
  }

  lemma SubmitMoves(s: State, q: Ping, maxSize: nat, p: Ping)
    requires |s.queue| <= maxSize && maxSize > 0
    ensures Places(Next(s, Submit(q), maxSize), p) == Places(s, p) + if q == p then 1 else 0
    ensures Next(s, Submit(q), maxSize).submitted[p] == s.submitted[p] + if q == p then 1 else 0
    ensures |Next(s, Submit(q), maxSize).queue| <= maxSize
  {
    assert Copies([q], p) == if p == q then 1 else 0;
    var t := s.(submitted := s.submitted + multiset{q});
    assert Places(t, p) == Places(s, p);
    if !s.online {
      PutMoves(t, [q], maxSize, p);
    }
  }

  lemma SubmitResultMoves(s: State, q: Ping, ok: bool, maxSize: nat, p: Ping)
    requires Enabled(s, SubmitResult(q, ok)) && |s.queue| <= maxSize && maxSize > 0
    ensures Places(Next(s, SubmitResult(q, ok), maxSize), p) == Places(s, p)
    ensures Next(s, SubmitResult(q, ok), maxSize).submitted == s.submitted
    ensures |Next(s, SubmitResult(q, ok), maxSize).queue| <= maxSize
  {
    assert Copies([q], p) == if p == q then 1 else 0;
    var t := s.(sending := s.sending - multiset{q});
    assert Places(t, p) + Copies([q], p) == Places(s, p);
    if !ok {
      PutMoves(t, [q], maxSize, p);
    }
  }

  /** Every step moves pings between places; only a submission adds one. */
  lemma StepMoves(s: State, step: Step, maxSize: nat, p: Ping)
    requires Enabled(s, step) && |s.queue| <= maxSize && maxSize > 0
    ensures Places(Next(s, step, maxSize), p) == Places(s, p) + if step == Submit(p) then 1 else 0
    ensures Next(s, step, maxSize).submitted[p] == s.submitted[p] + if step == Submit(p) then 1 else 0
    ensures |Next(s, step, maxSize).queue| <= maxSize
  {
    match step {
      case Submit(q) => SubmitMoves(s, q, maxSize, p);
      case SubmitResult(q, ok) => SubmitResultMoves(s, q, ok, maxSize, p);
      case SetOnline(online, drained) => DrainMoves(s.(online := online), drained, p);
      case StartFlush(drained) => DrainMoves(s, drained, p);
      case FlushResult(k, ok) => FlushResultMoves(s, k, ok, maxSize, p);
    }
  }

  /** Under every interleaving: submitted = sent + in flight + queued + dropped, ping by ping, and
    * the queue never exceeds its bound. */
  lemma {:induction false} NothingIsLost(states: seq<State>, steps: seq<Step>, maxSize: nat, i: nat, p: Ping)
    requires IsRun(states, steps, maxSize) && maxSize > 0 && i < |states|
    ensures Places(states[i], p) == states[i].submitted[p]
    ensures |states[i].queue| <= maxSize
  {
    if i > 0 {
      NothingIsLost(states, steps, maxSize, i - 1, p);
      assert Enabled(states[i - 1], steps[i - 1]) && states[i - 1 + 1] == Next(states[i - 1], steps[i - 1], maxSize);
      StepMoves(states[i - 1], steps[i - 1], maxSize, p);
    }
  }

  /** A step that drops anything leaves the queue full. */
  lemma DropsOnlyAtCapacity(states: seq<State>, steps: seq<Step>, maxSize: nat, i: nat)
    requires IsRun(states, steps, maxSize) && maxSize > 0 && i < |steps|
    ensures states[i + 1].dropped != states[i].dropped ==> |states[i + 1].queue| == maxSize
  {
    var s, step := states[i], steps[i];
    NothingIsLost(states, steps, maxSize, i, Ping(0, 0));
    assert Enabled(s, step) && states[i + 1] == Next(s, step, maxSize);
    match step {
      case Submit(q) => EnqueueKeepsMostRecent(s.queue, [q], maxSize);
      case SubmitResult(q, _) => EnqueueKeepsMostRecent(s.queue, [q], maxSize);
      case SetOnline(_, _) =>
      case StartFlush(_) =>
      case FlushResult(k, ok) =>
        var f := s.flushes[k];
        EnqueueKeepsMostRecent(s.queue, if ok then f.failed else f.failed + [f.todo[0]], maxSize);
    }
  }

  // ---------- An undisturbed flush ----------

  type Oracle = nat -> bool

  /** The pings of todo whose send fails; the first send is number at. */
  function Failures(todo: seq<Ping>, ask: Oracle, at: nat): seq<Ping> {
    if todo == [] then []
    else (if ask(at) then [] else [todo[0]]) + Failures(todo[1..], ask, at + 1)
  }

  function Successes(todo: seq<Ping>, ask: Oracle, at: nat): seq<Ping> {
    if todo == [] then []
    else (if ask(at) then [todo[0]] else []) + Successes(todo[1..], ask, at + 1)
  }

  lemma {:induction false} FailuresAreOrdered(todo: seq<Ping>, ask: Oracle, at: nat)
    requires InOrder(todo)
    ensures InOrder(Failures(todo, ask, at)) && |Failures(todo, ask, at)| <= |todo|
    ensures forall i :: 0 <= i < |Failures(todo, ask, at)| ==>
      todo != [] && todo[0].timestamp <= Failures(todo, ask, at)[i].timestamp
  {
    if todo != [] {
      var rest := todo[1..];
      FailuresAreOrdered(rest, ask, at + 1);
      assert rest != [] ==> todo[0].timestamp <= rest[0].timestamp;
    }
  }

  lemma {:induction false} FailuresAndSuccesses(todo: seq<Ping>, ask: Oracle, at: nat, p: Ping)
    ensures Copies(Failures(todo, ask, at), p) + Copies(Successes(todo, ask, at), p) == Copies(todo, p)
  {
    if todo != [] {
      var rest := todo[1..];
      FailuresAndSuccesses(rest, ask, at + 1, p);
      assert todo == [todo[0]] + rest;
      CopiesConcat([todo[0]], rest, p);
      CopiesConcat(if ask(at) then [] else [todo[0]], Failures(rest, ask, at + 1), p);
      CopiesConcat(if ask(at) then [todo[0]] else [], Successes(rest, ask, at + 1), p);
    }
  }

  /** Flush number k runs to its end with nothing in between; at counts its sends. */
  ghost function Finish(s: State, k: nat, ask: Oracle, at: nat, maxSize: nat): State
    requires k < |s.flushes| && s.flushes[k].Running? && s.flushes[k].todo != []
    decreases |s.flushes[k].todo|
  {
    var t := Next(s, FlushResult(k, ask(at)), maxSize);
    if |s.flushes[k].todo| == 1 then t else Finish(t, k, ask, at + 1, maxSize)
  }

  /** What a finished flush leaves, given what it has still to do. */
  ghost predicate Finishes(s: State, f: Flush, t: State, ask: Oracle, at: nat, maxSize: nat)
    requires f.Running?
  {
    var failed := f.failed + Failures(f.todo, ask, at);
    && t.queue == EnqueueAll(s.queue, failed, maxSize)
    && t.dropped == s.dropped + multiset(Overflow(s.queue, failed, maxSize))
    && forall p :: t.sent[p] == s.sent[p] + Copies(Successes(f.todo, ask, at), p)
  }

  lemma LastResult(s: State, k: nat, ask: Oracle, at: nat, maxSize: nat)
    requires k < |s.flushes| && s.flushes[k].Running? && |s.flushes[k].todo| == 1
    ensures Finishes(s, s.flushes[k], Next(s, FlushResult(k, ask(at)), maxSize), ask, at, maxSize)
  {
    var f := s.flushes[k];
    assert f.todo[1..] == [];
    assert f.failed + [] == f.failed;
    assert Failures(f.todo, ask, at) == if ask(at) then [] else [f.todo[0]];
    assert Successes(f.todo, ask, at) == if ask(at) then [f.todo[0]] else [];
    forall p ensures Copies([f.todo[0]], p) == if p == f.todo[0] then 1 else 0 {
    }
  }

  lemma NextResult(s: State, k: nat, ask: Oracle, at: nat, maxSize: nat, t: State, end: State)
    requires k < |s.flushes| && s.flushes[k].Running? && |s.flushes[k].todo| > 1
    requires t == Next(s, FlushResult(k, ask(at)), maxSize) && Finishes(t, t.flushes[k], end, ask, at + 1, maxSize)
    ensures Finishes(s, s.flushes[k], end, ask, at, maxSize)
  {
    var f, rest := s.flushes[k], s.flushes[k].todo[1..];
    var q := f.todo[0];
    FailuresSplit(f.failed, f.todo, ask, at);
    forall p ensures end.sent[p] == s.sent[p] + Copies(Successes(f.todo, ask, at), p) {
      SuccessesSplit(f.todo, ask, at, p);
      assert end.sent[p] == t.sent[p] + Copies(Successes(rest, ask, at + 1), p);
    }
  }

  lemma FailuresSplit(failed: seq<Ping>, todo: seq<Ping>, ask: Oracle, at: nat)
    requires todo != []
    ensures failed + Failures(todo, ask, at)
      == (if ask(at) then failed else failed + [todo[0]]) + Failures(todo[1..], ask, at + 1)
  {
  }

  lemma SuccessesSplit(todo: seq<Ping>, ask: Oracle, at: nat, p: Ping)
    requires todo != []
    ensures Copies(Successes(todo, ask, at), p)
      == (if ask(at) && p == todo[0] then 1 else 0) + Copies(Successes(todo[1..], ask, at + 1), p)
  {
    CopiesConcat(if ask(at) then [todo[0]] else [], Successes(todo[1..], ask, at + 1), p);
    assert Copies([todo[0]], p) == if p == todo[0] then 1 else 0;
  }

  lemma {:induction false} FinishRequeuesFailures(s: State, k: nat, ask: Oracle, at: nat, maxSize: nat)
    requires k < |s.flushes| && s.flushes[k].Running? && s.flushes[k].todo != []
    ensures Finishes(s, s.flushes[k], Finish(s, k, ask, at, maxSize), ask, at, maxSize)
    decreases |s.flushes[k].todo|
  {
    if |s.flushes[k].todo| == 1 {
      LastResult(s, k, ask, at, maxSize);
    } else {
      var t := Next(s, FlushResult(k, ask(at)), maxSize);
      FinishRequeuesFailures(t, k, ask, at + 1, maxSize);
      NextResult(s, k, ask, at, maxSize, t, Finish(s, k, ask, at, maxSize));
    }
  }

  /** An undisturbed flush sends in time order, requeues exactly what failed, still in time order,
    * and drops nothing, however many sends fail. */
  lemma UndisturbedFlushLosesNothing(s: State, drained: seq<Ping>, ask: Oracle, maxSize: nat)
    requires s.queue != [] && |s.queue| <= maxSize && IsDrain(drained, s.queue)
    ensures drained != [] && InOrder(drained)
    ensures var t := Finish(Drain(s, drained), |s.flushes|, ask, 0, maxSize);
      && t.queue == Failures(drained, ask, 0) && InOrder(t.queue)
      && t.dropped == s.dropped
      && forall p :: t.sent[p] - s.sent[p] + Copies(t.queue, p) == Copies(s.queue, p)
  {
    assert |multiset(drained)| == |drained| && |multiset(s.queue)| == |s.queue|;
    var d, k := Drain(s, drained), |s.flushes|;
    var t, failed := Finish(d, k, ask, 0, maxSize), Failures(drained, ask, 0);
    FinishRequeuesFailures(d, k, ask, 0, maxSize);
    FailuresAreOrdered(drained, ask, 0);
    assert [] + failed == failed;
    EnqueueKeepsMostRecent([], failed, maxSize);
    assert Overflow([], failed, maxSize) == [];
    forall p ensures t.sent[p] - s.sent[p] + Copies(t.queue, p) == Copies(s.queue, p) {
      FailuresAndSuccesses(drained, ask, 0, p);
    }
  }

  // ---------- What the steps do ----------

  /** Results so far that report a successful send of p. */
  ghost function Reported(states: seq<State>, steps: seq<Step>, n: nat, p: Ping): nat
    requires n <= |steps| && |states| == |steps| + 1
  {
    if n == 0 then 0
    else Reported(states, steps, n - 1, p) + if ReportsSent(states[n - 1], steps[n - 1], p) then 1 else 0
  }

  predicate ReportsSent(s: State, step: Step, p: Ping) {
    match step
    case SubmitResult(q, ok) => ok && q == p
    case FlushResult(k, ok) =>
      ok && k < |s.flushes| && s.flushes[k].Running? && s.flushes[k].todo != [] && s.flushes[k].todo[0] == p
    case _ => false
  }

  lemma StepReports(s: State, step: Step, maxSize: nat, p: Ping)
    requires Enabled(s, step)
    ensures Next(s, step, maxSize).sent[p] == s.sent[p] + if ReportsSent(s, step, p) then 1 else 0
  {
  }

  /** Under every interleaving a ping counts as sent as often as a send of it succeeded. */
  lemma {:induction false} SentIsReported(states: seq<State>, steps: seq<Step>, maxSize: nat, n: nat, p: Ping)
    requires IsRun(states, steps, maxSize) && n <= |steps|
    ensures states[n].sent[p] == Reported(states, steps, n, p)
  {
    if n > 0 {
      SentIsReported(states, steps, maxSize, n - 1, p);
      assert Enabled(states[n - 1], steps[n - 1]) && states[n - 1 + 1] == Next(states[n - 1], steps[n - 1], maxSize);
      StepReports(states[n - 1], steps[n - 1], maxSize, p);
    }
  }

  /** A submission that nothing disturbs: offline it is queued; online it is sent, and queued if that fails. */
  lemma UndisturbedSubmit(s: State, p: Ping, ok: bool, maxSize: nat, t: State, u: State)
    requires t == Next(s, Submit(p), maxSize)
    requires u == if s.online then Next(t, SubmitResult(p, ok), maxSize) else t
    ensures s.online ==> Enabled(t, SubmitResult(p, ok))
    ensures u.online == s.online && u.flushes == s.flushes && u.sending == s.sending
    ensures u.submitted == s.submitted + multiset{p}
    ensures if s.online && ok then u.queue == s.queue && u.sent == s.sent + multiset{p}
      else u.queue == Enqueue(s.queue, p, maxSize) && u.sent == s.sent
  {
    assert [p][1..] == [];
    assert EnqueueAll(s.queue, [p], maxSize) == EnqueueAll(Enqueue(s.queue, p, maxSize), [], maxSize);
  }

  /** A flush begins with the whole queue, drained, exactly when the device comes online with pings queued, or
    * when asked for; nothing else changes then but the connectivity. */
  lemma FlushBegins(s: State, online: bool, drained: seq<Ping>, maxSize: nat)
    ensures Next(s, SetOnline(online, drained), maxSize) ==
      if online && !s.online && s.queue != []
      then s.(online := true, queue := [], flushes := s.flushes + [Running(drained, [])])
      else s.(online := online)
    ensures Next(s, StartFlush(drained), maxSize) ==
      if s.queue != [] then s.(queue := [], flushes := s.flushes + [Running(drained, [])]) else s
  {
  }
}
