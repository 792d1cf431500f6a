/** The redelivery queue called by one caller at a time.
  *
  * The sender is an arbitrary oracle: `ask(i)` is the outcome of the i-th send. `PassKeep` and
  * `PassSends` say what one undisturbed `Retry` leaves and sends; the object is proved to do
  * that, and so is the concurrent machine when a `Retry` runs without interference.
  */
module RetryQueue {
  import opened RetryRuns

  type Oracle = nat -> bool

  // ---------- One pass over a batch ----------

  /** Survivors of a pass whose first send is number at: failed, and still within budget. */
  function PassKeep(batch: seq<Entry>, ask: Oracle, at: nat): seq<Entry> {
    if batch == [] then []
    else
      var rest := PassKeep(batch[1..], ask, at + 1);
      if ask(at) || batch[0].retries + 1 >= MAX_RETRIES then rest
      else [Entry(batch[0].event, batch[0].retries + 1)] + rest
  }

  function PassSends(batch: seq<Entry>, ask: Oracle, at: nat): (r: seq<Send>)
    ensures |r| == |batch|
  {
    if batch == [] then [] else [Send(batch[0].event, ask(at))] + PassSends(batch[1..], ask, at + 1)
  }

  /** What a pass over one entry keeps. */
  function KeepOne(entry: Entry, ok: bool): seq<Entry> {
    if ok || entry.retries + 1 >= MAX_RETRIES then [] else [Entry(entry.event, entry.retries + 1)]
  }

  lemma {:induction false} KeepAppend(batch: seq<Entry>, entry: Entry, ask: Oracle, at: nat)
    ensures PassKeep(batch + [entry], ask, at) == PassKeep(batch, ask, at) + KeepOne(entry, ask(at + |batch|))
  {
    if batch == [] {
      assert [entry][1..] == [] && batch + [entry] == [entry];
    } else {
      KeepAppend(batch[1..], entry, ask, at + 1);
      assert (batch + [entry])[1..] == batch[1..] + [entry];
    }
  }

  lemma {:induction false} SendsAppend(batch: seq<Entry>, entry: Entry, ask: Oracle, at: nat)
    ensures PassSends(batch + [entry], ask, at) == PassSends(batch, ask, at) + [Send(entry.event, ask(at + |batch|))]
  {
    if batch == [] {
      assert [entry][1..] == [] && batch + [entry] == [entry];
    } else {
      SendsAppend(batch[1..], entry, ask, at + 1);
      assert (batch + [entry])[1..] == batch[1..] + [entry];
    }
  }

  /** After i attempts of a pass: what was sent and what is kept. */
  ghost predicate Passing(batch: seq<Entry>, i: nat, before: seq<Send>, now: seq<Send>, keep: seq<Entry>, ask: Oracle) {
    && i <= |batch| && now == before + PassSends(batch[..i], ask, |before|)
    && keep == PassKeep(batch[..i], ask, |before|)
  }

  lemma PassOne(batch: seq<Entry>, i: nat, before: seq<Send>, now: seq<Send>, keep: seq<Entry>, ask: Oracle)
    requires Passing(batch, i, before, now, keep, ask) && i < |batch|
    ensures Passing(batch, i + 1, before, now + [Send(batch[i].event, ask(|now|))],
      keep + KeepOne(batch[i], ask(|now|)), ask)
  {
    assert batch[..i + 1] == batch[..i] + [batch[i]];
    KeepAppend(batch[..i], batch[i], ask, |before|);
    SendsAppend(batch[..i], batch[i], ask, |before|);
  }

  /** Sends of one event until the first success, at most budget many. */
  function TrySends(event: nat, ask: Oracle, at: nat, budget: nat): seq<Send>
    decreases budget
  {
    if budget == 0 then []
    else if ask(at) then [Send(event, true)]
    else [Send(event, false)] + TrySends(event, ask, at + 1, budget - 1)
  }

  // ---------- The object ----------

  class ZoneEventDelivery {
    const ask: Oracle
    var pending: seq<Entry>
    /** Every send so far, with its outcome. */
    var log: seq<Send>

    constructor (ask: Oracle)
      ensures this.ask == ask && pending == [] && log == []
    {
      this.ask := ask;
      pending := [];
      log := [];
    }

    method SendOnce(event: nat) returns (ok: bool)
      modifies this`log
      ensures ok == ask(|old(log)|) && log == old(log) + [Send(event, ok)]
    {
      ok := ask(|log|);
      log := log + [Send(event, ok)];
    }

    /** First attempt; a failed event is queued with no retries recorded. */
    method Deliver(event: nat) returns (ok: bool)
      modifies this
      ensures ok == ask(|old(log)|) && log == old(log) + [Send(event, ok)]
      ensures pending == old(pending) + if ok then [] else [Entry(event, 0)]
    {
      ok := SendOnce(event);
      if !ok {
        pending := pending + [Entry(event, 0)];
      }
    }

    /** One more attempt for every queued event. */
    method Retry() returns (n: nat)
      modifies this
      ensures pending == PassKeep(old(pending), ask, |old(log)|) && n == |pending|
      ensures log == old(log) + PassSends(old(pending), ask, |old(log)|)
    {
      var batch := pending;
      pending := [];
      var keep: seq<Entry> := [];
      for i := 0 to |batch|
        invariant pending == [] && Passing(batch, i, old(log), log, keep, ask)
      {
        PassOne(batch, i, old(log), log, keep, ask);
        var p := batch[i];
        var ok := SendOnce(p.event);
        if ok {
          assert keep + [] == keep;
          continue;
        }
        var tried := Entry(p.event, p.retries + 1);
        if tried.retries < MAX_RETRIES {
          keep := keep + [tried];
        } else {
          assert keep + [] == keep;
        }
      }
      assert batch[..|batch|] == batch;
      pending := keep + pending;
      n := |pending|;
    }

    /** First attempt and up to three immediate retries; the queue is not involved. */
    method DeliverWithRetries(event: nat) returns (retries: nat, delivered: bool)
      modifies this`log
      ensures log == old(log) + TrySends(event, ask, |old(log)|, MAX_RETRIES + 1)
      ensures retries + 1 == |log| - |old(log)| && delivered == log[|log| - 1].ok
    {
      retries := 0;
      delivered := SendOnce(event);
      if delivered {
        return;
      }
      TryFirst(old(log), event, ask);
      while retries < MAX_RETRIES
        invariant Trying(old(log), log, retries, event, ask) && !delivered
      {
        TryOne(old(log), log, retries, event, ask);
        retries := retries + 1;
        delivered := SendOnce(event);
        if delivered {
          return;
        }
      }
    }
  }

  /** After the first attempt and some retries, all failed. */
  ghost predicate Trying(before: seq<Send>, now: seq<Send>, retries: nat, event: nat, ask: Oracle) {
    && retries <= MAX_RETRIES && |now| == |before| + retries + 1 && now[|now| - 1] == Send(event, false)
    && now + TrySends(event, ask, |now|, MAX_RETRIES - retries)
      == before + TrySends(event, ask, |before|, MAX_RETRIES + 1)
  }

  lemma TryFirst(before: seq<Send>, event: nat, ask: Oracle)
    requires !ask(|before|)
    ensures Trying(before, before + [Send(event, false)], 0, event, ask)
  {
    TryStep(before, event, ask, MAX_RETRIES);
  }

  lemma TryOne(before: seq<Send>, now: seq<Send>, retries: nat, event: nat, ask: Oracle)
    requires Trying(before, now, retries, event, ask) && retries < MAX_RETRIES
    ensures ask(|now|) ==> now + [Send(event, true)] == before + TrySends(event, ask, |before|, MAX_RETRIES + 1)
    ensures !ask(|now|) ==> Trying(before, now + [Send(event, false)], retries + 1, event, ask)
  {
    var whole := before + TrySends(event, ask, |before|, MAX_RETRIES + 1);
    TrySplit(now, event, ask, MAX_RETRIES - retries, whole);
  }

  /** One attempt of what is left to try. */
  lemma TrySplit(now: seq<Send>, event: nat, ask: Oracle, budget: nat, whole: seq<Send>)
    requires budget > 0 && now + TrySends(event, ask, |now|, budget) == whole
    ensures ask(|now|) ==> now + [Send(event, true)] == whole
    ensures !ask(|now|) ==> (now + [Send(event, false)]) + TrySends(event, ask, |now| + 1, budget - 1) == whole
  {
  }

  lemma TryStep(log: seq<Send>, event: nat, ask: Oracle, left: nat)
    ensures log + TrySends(event, ask, |log|, left + 1)
      == log + [Send(event, ask(|log|))] + if ask(|log|) then [] else TrySends(event, ask, |log| + 1, left)
  {
  }

  // ---------- How many retries ----------

  /** The first k sends from number at fail, and the next one, if any counts, succeeds. */
  ghost predicate FailsFirst(ask: Oracle, at: nat, k: nat) {
    (forall i: nat {:trigger ask(i)} :: at <= i < at + k ==> !ask(i)) && ask(at + k)
  }

  /** A sender that fails its first k attempts is retried min(k, 3) times, and the event is
    * delivered iff k is at most 3. */
  lemma {:induction false} RetriesAreMinOfFailures(event: nat, ask: Oracle, at: nat, k: nat, budget: nat)
    requires FailsFirst(ask, at, k) && budget >= 1
    ensures var sends := TrySends(event, ask, at, budget);
      |sends| == (if k < budget then k + 1 else budget) && (sends[|sends| - 1].ok <==> k < budget)
    decreases k
  {
    if k > 0 {
      assert !ask(at);
      if budget > 1 {
        RetriesAreMinOfFailures(event, ask, at + 1, k - 1, budget - 1);
      }
    }
  }

  // ---------- Three passes ----------

  lemma {:induction false} PassAddsRetry(batch: seq<Entry>, ask: Oracle, at: nat, least: nat)
    requires forall i :: 0 <= i < |batch| ==> batch[i].retries >= least
    ensures forall i :: 0 <= i < |PassKeep(batch, ask, at)| ==>
      least + 1 <= PassKeep(batch, ask, at)[i].retries < MAX_RETRIES
    ensures least + 1 >= MAX_RETRIES ==> PassKeep(batch, ask, at) == []
  {
    if batch != [] {
      PassAddsRetry(batch[1..], ask, at + 1, least);
    }
  }

  /** Three passes without interference empty any queue, whatever the sender answers. */
  lemma {:induction false} ThreePassesEmpty(batch: seq<Entry>, ask: Oracle, at1: nat, at2: nat, at3: nat)
    ensures PassKeep(PassKeep(PassKeep(batch, ask, at1), ask, at2), ask, at3) == []
  {
    var one := PassKeep(batch, ask, at1);
    var two := PassKeep(one, ask, at2);
    PassAddsRetry(batch, ask, at1, 0);
    PassAddsRetry(one, ask, at2, 1);
    PassAddsRetry(two, ask, at3, 2);
  }

  /** A lone event delivered and then retried three times is sent exactly as often, with the
    * same outcomes, as by `DeliverWithRetries`. */
  lemma {:induction false} LoneEventMatchesDirect(event: nat, ask: Oracle, at: nat)
    ensures var p0 := if ask(at) then [] else [Entry(event, 0)];
      var s0 := [Send(event, ask(at))];
      var s1, p1 := PassSends(p0, ask, at + 1), PassKeep(p0, ask, at + 1);
      var s2, p2 := PassSends(p1, ask, at + 1 + |s1|), PassKeep(p1, ask, at + 1 + |s1|);
      var s3, p3 := PassSends(p2, ask, at + 1 + |s1| + |s2|), PassKeep(p2, ask, at + 1 + |s1| + |s2|);
      s0 + s1 + s2 + s3 == TrySends(event, ask, at, MAX_RETRIES + 1) && p3 == []
  {
    if !ask(at) {
      LonePass(event, 0, ask, at + 1);
      LonePass(event, 1, ask, at + 2);
      LonePass(event, 2, ask, at + 3);
      FourTries(event, ask, at);
    }
  }

  lemma FourTries(event: nat, ask: Oracle, at: nat)
    requires !ask(at)
    ensures TrySends(event, ask, at, 4) ==
      if ask(at + 1) then [Send(event, false), Send(event, true)]
      else if ask(at + 2) then [Send(event, false), Send(event, false), Send(event, true)]
      else [Send(event, false), Send(event, false), Send(event, false), Send(event, ask(at + 3))]
  {
    assert TrySends(event, ask, at + 3, 1) == [Send(event, ask(at + 3))];
    assert TrySends(event, ask, at + 2, 2) == [Send(event, ask(at + 2))] + if ask(at + 2) then []
      else TrySends(event, ask, at + 3, 1);
    assert TrySends(event, ask, at + 1, 3) == [Send(event, ask(at + 1))] + if ask(at + 1) then []
      else TrySends(event, ask, at + 2, 2);
    assert TrySends(event, ask, at, 4) == [Send(event, false)] + TrySends(event, ask, at + 1, 3);
  }

  lemma LonePass(event: nat, retries: nat, ask: Oracle, at: nat)
    ensures PassSends([Entry(event, retries)], ask, at) == [Send(event, ask(at))]
    ensures PassKeep([Entry(event, retries)], ask, at) == KeepOne(Entry(event, retries), ask(at))
  {
    assert [Entry(event, retries)][1..] == [];
  }

  // ---------- The concurrent machine, undisturbed ----------

  /** A delivery that nothing disturbs sends once and appends the event when that fails, as the object does. */
  lemma UndisturbedDeliverAppends(s: State, ok: bool, t: State, u: State)
    requires t == Next(s, Deliver(ok)) && u == if ok then t else Next(t, Append(s.submitted))
    ensures !ok ==> Enabled(t, Append(s.submitted))
    ensures u.log == s.log + [Send(s.submitted, ok)] && u.passes == s.passes && u.arriving == s.arriving
    ensures u.pending == s.pending + if ok then [] else [Entry(s.submitted, 0)]
    ensures u.delivered == s.delivered + (if ok then multiset{s.submitted} else multiset{})
      && u.submitted == s.submitted + 1
  {
  }

  /** The attempts of pass k, answered by the oracle, until its batch is exhausted. */
  ghost function Drained(s: State, k: nat, ask: Oracle): State
    requires k < |s.passes| && s.passes[k].Pass?
    decreases |s.passes[k].todo|
  {
    if s.passes[k].todo == [] then s else Drained(Next(s, Attempt(k, ask(|s.log|))), k, ask)
  }

  /** The first entry's share of a pass, split off. */
  lemma PassStep(batch: seq<Entry>, ask: Oracle, at: nat, keep: seq<Entry>, log: seq<Send>)
    requires batch != []
    ensures keep + PassKeep(batch, ask, at) == (keep + KeepOne(batch[0], ask(at))) + PassKeep(batch[1..], ask, at + 1)
    ensures log + PassSends(batch, ask, at)
      == (log + [Send(batch[0].event, ask(at))]) + PassSends(batch[1..], ask, at + 1)
  {
  }

  lemma AttemptStartsPass(s: State, k: nat, ask: Oracle, t: State)
    requires k < |s.passes| && s.passes[k].Pass? && s.passes[k].todo != []
    requires t == Next(s, Attempt(k, ask(|s.log|)))
    ensures var p, q := s.passes[k], t.passes[k];
      && q.Pass? && q.todo == p.todo[1..] && t.passes == s.passes[k := q]
      && q.keep + PassKeep(q.todo, ask, |t.log|) == p.keep + PassKeep(p.todo, ask, |s.log|)
      && t.log + PassSends(q.todo, ask, |t.log|) == s.log + PassSends(p.todo, ask, |s.log|)
      && t.pending == s.pending && t.arriving == s.arriving && t.submitted == s.submitted
  {
    PassStep(s.passes[k].todo, ask, |s.log|, s.passes[k].keep, s.log);
  }

  lemma {:induction false} DrainedIsPass(s: State, k: nat, ask: Oracle)
    requires k < |s.passes| && s.passes[k].Pass?
    ensures var d, p := Drained(s, k, ask), s.passes[k];
      && d.passes == s.passes[k := Pass([], p.keep + PassKeep(p.todo, ask, |s.log|))]
      && d.log == s.log + PassSends(p.todo, ask, |s.log|)
      && d.pending == s.pending && d.arriving == s.arriving && d.submitted == s.submitted
    decreases |s.passes[k].todo|
  {
    if s.passes[k].todo == [] {
      var p := s.passes[k];
      assert p.keep + [] == p.keep && s.log + [] == s.log;
      assert s.passes[k := p] == s.passes;
    } else {
      var t := Next(s, Attempt(k, ask(|s.log|)));
      AttemptStartsPass(s, k, ask, t);
      DrainedIsPass(t, k, ask);
    }
  }

  /** A `Retry` call of the concurrent machine that nobody disturbs does what the object does. */
  lemma UndisturbedRetryIsPass(s: State, ask: Oracle)
    ensures var k := |s.passes|;
      var d := Drained(Next(s, TakeBatch), k, ask);
      && Enabled(d, PutBack(k))
      && Next(d, PutBack(k)).pending == PassKeep(s.pending, ask, |s.log|)
      && Next(d, PutBack(k)).log == s.log + PassSends(s.pending, ask, |s.log|)
  {
    DrainedIsPass(Next(s, TakeBatch), |s.passes|, ask);
  }
}
