/** Queues of events for agents that are offline: at most 200 for one agent, oldest dropped first,
    and at most 10,000 in all. */
module PendingQueues {

  const MAX_PER_AGENT := 200
  const MAX_GLOBAL := 10000

  datatype Event = Event(seqId: int, body: string)

  type Queues = map<string, seq<Event>>

  function QueueOf(q: Queues, agent: string): seq<Event> {
    if agent in q then q[agent] else []
  }

  ghost function Total(q: Queues): nat {
    if q == map[] then 0
    else
      var k :| k in q;
      |q[k]| + Total(q - {k})
  }

  lemma {:induction false} TotalWithout(q: Queues, k: string)
    requires k in q
    ensures Total(q) == |q[k]| + Total(q - {k})
    decreases q
  {
    var j :| j in q && Total(q) == |q[j]| + Total(q - {j});
    if j != k {
      TotalWithout(q - {j}, k);
      TotalWithout(q - {k}, j);
      assert q - {j} - {k} == q - {k} - {j};
    }
  }

  lemma TotalUpdate(q: Queues, k: string, queue: seq<Event>)
    ensures Total(q[k := queue]) == Total(q) - |QueueOf(q, k)| + |queue|
  {
    TotalWithout(q[k := queue], k);
    assert q[k := queue] - {k} == q - {k};
    if k in q {
      TotalWithout(q, k);
    } else {
      assert q - {k} == q;
    }
  }

  // ---- the operations -----------------------------------------------------------------------------

  function Trimmed(queue: seq<Event>): seq<Event> {
    if |queue| >= MAX_PER_AGENT then queue[1..] else queue
  }

  /** Room is made first, by dropping the oldest; then the count over all queues decides. */
  ghost predicate Accepts(q: Queues, agent: string) {
    Total(q[agent := Trimmed(QueueOf(q, agent))]) < MAX_GLOBAL
  }

  ghost function Enqueue(q: Queues, agent: string, e: Event): Queues {
    q[agent := Trimmed(QueueOf(q, agent)) + if Accepts(q, agent) then [e] else []]
  }

  class Bus {
    var pending: Queues

    constructor ()
      ensures pending == map[]
    {
      pending := map[];
    }

    method GlobalPendingCount() returns (count: nat)
      ensures count == Total(pending)
    {
      count := 0;
      var rest := pending;
      while rest != map[]
        invariant count + Total(rest) == Total(pending)
        decreases rest.Keys
      {
        var k :| k in rest.Keys;
        TotalWithout(rest, k);
        count := count + |rest[k]|;
        rest := rest - {k};
      }
    }

    method EnqueuePending(agent: string, e: Event)
      modifies this
      ensures pending == Enqueue(old(pending), agent, e)
    {
      if agent !in pending {
        pending := pending[agent := []];
      }
      if |pending[agent]| >= MAX_PER_AGENT {
        pending := pending[agent := pending[agent][1..]];
      }
      assert pending == old(pending)[agent := Trimmed(QueueOf(old(pending), agent))];
      var count := GlobalPendingCount();
      if count >= MAX_GLOBAL {
        assert pending[agent] + [] == pending[agent];
        return;
      }
      pending := pending[agent := pending[agent] + [e]];
    }

    method FlushPending(agent: string) returns (events: seq<Event>)
      modifies this
      ensures events == QueueOf(old(pending), agent) && pending == old(pending) - {agent}
    {
      events := if agent in pending then pending[agent] else [];
      pending := pending - {agent};
    }
  }

  // ---- runs ------------------------------------------------------------------------------------------

  datatype Op = Enq(agent: string, event: Event) | Flush(agent: string)

  /** The queues after a run that began with none. */
  ghost function After(ops: seq<Op>): Queues {
    if ops == [] then map[]
    else
      var q := After(ops[..|ops| - 1]);
      match ops[|ops| - 1]
      case Enq(agent, e) => Enqueue(q, agent, e)
      case Flush(agent) => q - {agent}
  }

  predicate Bounded(q: Queues, agent: string) {
    |QueueOf(q, agent)| <= 200
  }

  /** At every moment each queue and all queues together keep their bounds. */
  lemma {:induction false} AlwaysBounded(ops: seq<Op>)
    ensures Total(After(ops)) <= 10000
    ensures forall agent :: Bounded(After(ops), agent)
  {
    if ops != [] {
      var q := After(ops[..|ops| - 1]);
      AlwaysBounded(ops[..|ops| - 1]);
      match ops[|ops| - 1]
      case Enq(agent, e) =>
        assert Bounded(q, agent);
        TotalUpdate(q, agent, Trimmed(QueueOf(q, agent)));
        TotalUpdate(q, agent, QueueOf(Enqueue(q, agent, e), agent));
        forall a ensures Bounded(After(ops), a) {
          assert Bounded(q, a);
        }
      case Flush(agent) =>
        if agent in q {
          TotalWithout(q, agent);
        } else {
          assert q - {agent} == q;
        }
        forall a ensures Bounded(After(ops), a) {
          assert Bounded(q, a);
        }
    }
  }

  /** The events offered to an agent's queue over the run. */
  function Offered(ops: seq<Op>, agent: string): seq<Event> {
    if ops == [] then []
    else
      var op := ops[|ops| - 1];
      Offered(ops[..|ops| - 1], agent) + if op.Enq? && op.agent == agent then [op.event] else []
  }

  /** The events taken into the queue since it was last flushed. */
  ghost function Accepted(ops: seq<Op>, agent: string): seq<Event> {
    if ops == [] then []
    else
      var before, op := ops[..|ops| - 1], ops[|ops| - 1];
      if op.agent != agent then Accepted(before, agent)
      else if op.Flush? then []
      else Accepted(before, agent) + if Accepts(After(before), agent) then [op.event] else []
  }

  /** Everything handed out by flushes. */
  ghost function Delivered(ops: seq<Op>, agent: string): seq<Event> {
    if ops == [] then []
    else
      var before, op := ops[..|ops| - 1], ops[|ops| - 1];
      Delivered(before, agent) + if op == Flush(agent) then QueueOf(After(before), agent) else []
  }

  /** Everything dropped: the oldest of a full queue, or a new event when all queues are full. */
  ghost function Dropped(ops: seq<Op>, agent: string): seq<Event> {
    if ops == [] then []
    else
      var before, op := ops[..|ops| - 1], ops[|ops| - 1];
      var queue := QueueOf(After(before), agent);
      if op.agent != agent || op.Flush? then Dropped(before, agent)
      else
        Dropped(before, agent)
        + (if |queue| >= MAX_PER_AGENT then [queue[0]] else [])
        + (if Accepts(After(before), agent) then [] else [op.event])
  }

  /** An old event is dropped only for a new one that gets in: a full queue always accepts. */
  lemma FullQueueAccepts(ops: seq<Op>, agent: string)
    requires |QueueOf(After(ops), agent)| >= 200
    ensures Accepts(After(ops), agent)
  {
    AlwaysBounded(ops);
    TotalUpdate(After(ops), agent, Trimmed(QueueOf(After(ops), agent)));
  }

  /** So a new event is refused exactly when the agent has fewer than 200 and all queues together
      hold 10,000. */
  lemma RefusedExactlyWhenAllFull(ops: seq<Op>, agent: string)
    ensures !Accepts(After(ops), agent)
            <==> |QueueOf(After(ops), agent)| < 200 && Total(After(ops)) == 10000
  {
    AlwaysBounded(ops);
    assert Bounded(After(ops), agent);
    TotalUpdate(After(ops), agent, Trimmed(QueueOf(After(ops), agent)));
  }

  function Newest(s: seq<Event>): seq<Event> {
    if |s| <= MAX_PER_AGENT then s else s[|s| - MAX_PER_AGENT..]
  }

  lemma NewestOfMore(s: seq<Event>, e: Event)
    ensures Newest(s + [e]) == Trimmed(Newest(s)) + [e]
  {
  }

  /** Each queue is the newest accepted events since its last flush, in arrival order. */
  lemma {:induction false} QueueIsNewestAccepted(ops: seq<Op>, agent: string)
    ensures QueueOf(After(ops), agent) == Newest(Accepted(ops, agent))
  {
    if ops != [] {
      var before, op := ops[..|ops| - 1], ops[|ops| - 1];
      QueueIsNewestAccepted(before, agent);
      if op.agent == agent && op.Enq? {
        if Accepts(After(before), agent) {
          NewestOfMore(Accepted(before, agent), op.event);
        } else if |QueueOf(After(before), agent)| >= MAX_PER_AGENT {
          FullQueueAccepts(before, agent);
        }
      }
    }
  }

  ghost predicate Accounted(ops: seq<Op>, agent: string) {
    multiset(Offered(ops, agent))
    == multiset(QueueOf(After(ops), agent)) + multiset(Delivered(ops, agent)) + multiset(Dropped(ops, agent))
  }

  lemma OtherAgent(before: seq<Op>, op: Op, agent: string)
    requires op.agent != agent && Accounted(before, agent)
    ensures Accounted(before + [op], agent)
  {
    assert (before + [op])[..|before|] == before;
  }

  lemma OwnFlush(before: seq<Op>, agent: string)
    requires Accounted(before, agent)
    ensures Accounted(before + [Flush(agent)], agent)
  {
    assert (before + [Flush(agent)])[..|before|] == before;
    assert Offered(before, agent) + [] == Offered(before, agent);
  }

  lemma OwnEvent(before: seq<Op>, agent: string, e: Event)
    requires Accounted(before, agent)
    ensures Accounted(before + [Enq(agent, e)], agent)
  {
    hide After, Offered, Delivered, Dropped, Accepts, Trimmed;
    EventPushed(before, agent, e);
    OfferAccounted(Offered(before, agent), QueueOf(After(before), agent), Delivered(before, agent),
                   Dropped(before, agent), e, Accepts(After(before), agent));
  }

  /** What one more event does to the queue and to each of the records. */
  lemma EventPushed(before: seq<Op>, agent: string, e: Event)
    ensures var ops, queue := before + [Enq(agent, e)], QueueOf(After(before), agent);
            var accepts := Accepts(After(before), agent);
            && Offered(ops, agent) == Offered(before, agent) + [e]
            && QueueOf(After(ops), agent) == Trimmed(queue) + (if accepts then [e] else [])
            && Delivered(ops, agent) == Delivered(before, agent)
            && Dropped(ops, agent) == Dropped(before, agent)
                                      + (if |queue| >= MAX_PER_AGENT then [queue[0]] else [])
                                      + (if accepts then [] else [e])
  {
    assert (before + [Enq(agent, e)])[..|before|] == before;
  }

  /** No event is lost unaccounted: what was offered is queued, delivered or dropped, with
      multiplicity. */
  lemma {:induction false} EveryEventAccountedFor(ops: seq<Op>, agent: string)
    ensures Accounted(ops, agent)
  {
    if ops != [] {
      var before, op := ops[..|ops| - 1], ops[|ops| - 1];
      EveryEventAccountedFor(before, agent);
      assert ops == before + [op];
      if op.agent != agent {
        OtherAgent(before, op, agent);
      } else if op.Flush? {
        OwnFlush(before, agent);
      } else {
        OwnEvent(before, agent, op.event);
      }
    }
  }

  lemma OfferAccounted(offered: seq<Event>, queue: seq<Event>, delivered: seq<Event>, dropped: seq<Event>,
                       e: Event, accepts: bool)
    requires multiset(offered) == multiset(queue) + multiset(delivered) + multiset(dropped)
    ensures multiset(offered + [e])
            == multiset(Trimmed(queue) + if accepts then [e] else []) + multiset(delivered)
               + multiset(dropped + (if |queue| >= MAX_PER_AGENT then [queue[0]] else [])
                          + (if accepts then [] else [e]))
  {
    TrimAccounts(queue);
  }

  lemma TrimAccounts(queue: seq<Event>)
    ensures multiset(queue)
            == multiset(Trimmed(queue)) + multiset(if |queue| >= MAX_PER_AGENT then [queue[0]] else [])
  {
    if |queue| >= MAX_PER_AGENT {
      assert queue == [queue[0]] + queue[1..];
    }
  }
}
