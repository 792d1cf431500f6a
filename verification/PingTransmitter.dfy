/** The offline ping queue and the transmitter, updated in place, one caller at a time.
  *
  * The sink is an arbitrary oracle: `ask(i)` is the outcome of the i-th send. The methods do what
  * the steps of `PingRuns` do when nothing runs between their awaits.
  */
module PingTransmission {
  import opened PingOrder
  import opened PingRuns

  lemma DrainKeepsCount(drained: seq<Ping>, pings: seq<Ping>)
    requires IsDrain(drained, pings)
    ensures |drained| == |pings|
  {
    assert |multiset(drained)| == |drained| && |multiset(pings)| == |pings|;
  }

  class PingQueue {
    const maxSize: nat
    var pings: seq<Ping>

    ghost predicate Valid()
      reads this
    {
      maxSize > 0 && |pings| <= maxSize
    }

    constructor (maxSize: nat)
      requires maxSize > 0
      ensures Valid() && this.maxSize == maxSize && pings == []
    {
      this.maxSize := maxSize;
      pings := [];
    }

    /** Adds a ping; a full queue drops its oldest. */
    method Add(p: Ping)
      requires Valid()
      modifies this
      ensures Valid() && pings == PingRuns.Enqueue(old(pings), p, maxSize)
    {
      pings := pings + [p];
      if |pings| > maxSize {
        pings := pings[1..];
      }
    }

    /** Adds pings one by one: the most recent maxSize entries stay, in order. */
    method AddAll(ps: seq<Ping>)
      requires Valid()
      modifies this
      ensures Valid() && pings == PingRuns.EnqueueAll(old(pings), ps, maxSize)
      ensures Overflow(old(pings), ps, maxSize) + pings == old(pings) + ps
    {
      EnqueueKeepsMostRecent(pings, ps, maxSize);
      for i := 0 to |ps|
        invariant Valid() && PingRuns.EnqueueAll(pings, ps[i..], maxSize)
          == PingRuns.EnqueueAll(old(pings), ps, maxSize)
      {
        assert ps[i..][1..] == ps[i + 1..];
        Add(ps[i]);
      }
    }

    /** Empties the queue and returns its pings in time order. */
    method DrainInOrder() returns (drained: seq<Ping>)
      modifies this
      ensures pings == [] && IsDrain(drained, old(pings))
    {
      drained := [];
      for i := 0 to |pings|
        invariant pings == old(pings) && InOrder(drained) && multiset(drained) == multiset(pings[..i])
      {
        assert pings[..i + 1] == pings[..i] + [pings[i]];
        var longer := SortedInsert(drained, pings[i]);
        InsertKeepsOrder(drained, pings[i], longer);
        InsertAddsOne(drained, pings[i], longer);
        drained := longer;
      }
      assert pings[..|pings|] == pings;
      pings := [];
    }
  }

  /** After i sends: what was handed over, and which sends failed. */
  ghost predicate Sending(pending: seq<Ping>, i: nat, before: seq<Ping>, now: seq<Ping>, failed: seq<Ping>,
      ask: Oracle)
  {
    i <= |pending| && now == before + pending[..i] && failed == Failures(pending[..i], ask, |before|)
  }

  lemma SendOne(pending: seq<Ping>, i: nat, before: seq<Ping>, now: seq<Ping>, failed: seq<Ping>, ask: Oracle)
    requires Sending(pending, i, before, now, failed, ask) && i < |pending|
    ensures Sending(pending, i + 1, before, now + [pending[i]],
      if ask(|now|) then failed else failed + [pending[i]], ask)
  {
    assert pending[..i + 1] == pending[..i] + [pending[i]];
    FailuresAppend(pending[..i], pending[i], ask, |before|);
  }

  lemma {:induction false} FailuresAppend(todo: seq<Ping>, p: Ping, ask: Oracle, at: nat)
    ensures Failures(todo + [p], ask, at) == Failures(todo, ask, at) + if ask(at + |todo|) then [] else [p]
  {
    if todo == [] {
      assert [p][1..] == [] && todo + [p] == [p];
    } else {
      FailuresAppend(todo[1..], p, ask, at + 1);
      assert (todo + [p])[1..] == todo[1..] + [p];
    }
  }

  class PingTransmitter {
    const queue: PingQueue
    const ask: Oracle
    var online: bool
    /** Pings handed to the sink so far, in order. */
    var attempts: seq<Ping>

    constructor (queue: PingQueue, ask: Oracle, online: bool)
      ensures this.queue == queue && this.ask == ask && this.online == online && attempts == []
    {
      this.queue := queue;
      this.ask := ask;
      this.online := online;
      attempts := [];
    }

    method Sink(p: Ping) returns (ok: bool)
      modifies this`attempts
      ensures ok == ask(|old(attempts)|) && attempts == old(attempts) + [p]
    {
      ok := ask(|attempts|);
      attempts := attempts + [p];
    }

    /** Offline pings are buffered; online ones are sent, and buffered if the send fails. */
    method Submit(p: Ping)
      requires queue.Valid()
      modifies this, queue
      ensures queue.Valid() && online == old(online)
      ensures attempts == old(attempts) + if online then [p] else []
      ensures queue.pings == if online && ask(|old(attempts)|) then old(queue.pings)
        else PingRuns.Enqueue(old(queue.pings), p, queue.maxSize)
    {
      if !online {
        queue.Add(p);
        return;
      }
      var ok := Sink(p);
      if !ok {
        queue.Add(p);
      }
    }

    /** Going online flushes; every other change of connectivity only records it. */
    method SetOnline(isOnline: bool) returns (ghost drained: seq<Ping>)
      requires queue.Valid()
      modifies this, queue
      ensures queue.Valid() && online == isOnline
      ensures isOnline && !old(online) ==>
        IsDrain(drained, old(queue.pings)) && attempts == old(attempts) + drained
          && queue.pings == Failures(drained, ask, |old(attempts)|)
      ensures !(isOnline && !old(online)) ==> attempts == old(attempts) && queue.pings == old(queue.pings)
    {
      var wasOffline := !online;
      online := isOnline;
      drained := [];
      if isOnline && wasOffline {
        drained := FlushQueue();
      }
    }

    /** Sends the buffered pings in time order; exactly the failed ones are buffered again. */
    method FlushQueue() returns (drained: seq<Ping>)
      requires queue.Valid()
      modifies this, queue
      ensures queue.Valid() && online == old(online)
      ensures IsDrain(drained, old(queue.pings)) && attempts == old(attempts) + drained
      ensures queue.pings == Failures(drained, ask, |old(attempts)|)
    {
      if |queue.pings| == 0 {
        return [];
      }
      drained := queue.DrainInOrder();
      DrainKeepsCount(drained, old(queue.pings));
      var failed := SendAll(drained);
      FailuresAreOrdered(drained, ask, |old(attempts)|);
      if |failed| > 0 {
        Requeue(failed);
      }
    }

    /** Buffers the failed pings again; they fit, for the queue was drained. */
    method Requeue(failed: seq<Ping>)
      requires queue.Valid() && queue.pings == [] && |failed| <= queue.maxSize
      modifies queue
      ensures queue.Valid() && queue.pings == failed
    {
      queue.AddAll(failed);
      assert Overflow([], failed, queue.maxSize) == [];
      assert [] + queue.pings == queue.pings && [] + failed == failed;
    }

    /** The loop over the drained pings. */
    method SendAll(pending: seq<Ping>) returns (failed: seq<Ping>)
      modifies this`attempts
      ensures attempts == old(attempts) + pending && failed == Failures(pending, ask, |old(attempts)|)
    {
      failed := [];
      for i := 0 to |pending|
        invariant Sending(pending, i, old(attempts), attempts, failed, ask)
      {
        SendOne(pending, i, old(attempts), attempts, failed, ask);
        var ok := Sink(pending[i]);
        failed := if ok then failed else failed + [pending[i]];
      }
      assert pending[..|pending|] == pending;
    }
  }
}
