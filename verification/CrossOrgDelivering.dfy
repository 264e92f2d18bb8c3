/** Runs that exist: from where a message can still be delivered, and what a repeated send
    and a late failure do to a delivered one. */
module CrossOrgDelivering {
  import opened Options
  import opened Text
  import opened Envelopes
  import opened CrossOrgDelivery

  lemma ExecPush(steps: seq<Step>, step: Step, orderly: bool)
    requires Allowed(Exec(steps, orderly), step, orderly)
    ensures Exec(steps + [step], orderly) == Apply(Exec(steps, orderly), step)
  {
    assert (steps + [step])[..|steps|] == steps;
  }

  /** Coroutine `t` stands in phase `p` with its attempt `e` on the wire. */
  ghost predicate OnWire(s: State, t: nat, task: Task, e: Envelope, p: Phase) {
    && t in s.tasks && s.tasks[t] == task.(phase := p)
    && task.mid in s.world.messages && task.mid in s.delivery
    && e in s.world.signed && e.kind == "msg" && e.toOrg == task.route.to && e.fromOrg == FromOf(s, task.mid)
    && e.body in s.world.sealed
    && s.world.sealed[e.body] == Plain(e.fromOrg, e.toOrg, e.nonce, task.payload)
  }

  lemma PutOut(steps: seq<Step>, orderly: bool, t: nat, nonce: string, body: string, ts: string, seqNo: string)
    returns (more: seq<Step>, e: Envelope)
    requires var s := Exec(steps, orderly);
             && t in s.tasks && s.tasks[t].phase == Started
             && s.tasks[t].mid in s.world.messages && s.tasks[t].mid in s.delivery
             && !NonceUsed(s.world, nonce) && body !in s.world.sealed
             && SepFree(MsgEnvelope(OrgOf(s, s.tasks[t]), s.tasks[t], nonce, ts, body, seqNo))
    ensures steps < more
    ensures var s := Exec(steps, orderly);
            && e == MsgEnvelope(OrgOf(s, s.tasks[t]), s.tasks[t], nonce, ts, body, seqNo)
            && OnWire(Exec(more, orderly), t, s.tasks[t], e, Transmitted(nonce))
  {
    hide Exec;
    var s := Exec(steps, orderly);
    ExecPush(steps, MarkPending(t), orderly);
    var pending := steps + [MarkPending(t)];
    e := MsgEnvelope(OrgOf(s, s.tasks[t]), s.tasks[t], nonce, ts, body, seqNo);
    assert OrgOf(Exec(pending, orderly), Exec(pending, orderly).tasks[t]) == OrgOf(s, s.tasks[t]);
    ExecPush(pending, Transmit(t, nonce, body, ts, seqNo), orderly);
    more := pending + [Transmit(t, nonce, body, ts, seqNo)];
  }

  lemma MarkedSent(steps: seq<Step>, orderly: bool, t: nat, task: Task, e: Envelope) returns (more: seq<Step>)
    requires OnWire(Exec(steps, orderly), t, task, e, Transmitted(e.nonce))
    ensures steps < more && OnWire(Exec(more, orderly), t, task, e, SentMarked(e.nonce))
  {
    hide Exec, Verified, SchemaOk, SepFree, NonceUsed;
    ExecPush(steps, MarkSent(t), orderly);
    more := steps + [MarkSent(t)];
  }

  /** The hub acknowledges. */
  lemma HubAck(steps: seq<Step>, orderly: bool, t: nat, task: Task, e: Envelope) returns (more: seq<Step>)
    requires OnWire(Exec(steps, orderly), t, task, e, SentMarked(e.nonce))
    ensures steps < more && OnWire(Exec(more, orderly), t, task, e, HubMarked(e.nonce))
  {
    hide Exec, Verified, SchemaOk, SepFree, NonceUsed;
    var org := OrgOf(Exec(steps, orderly), task);
    ExecPush(steps, AwaitHub(t), orderly);
    more := steps + [AwaitHub(t)];
    ExecPush(more, HubAckArrives(org, e.nonce), orderly);
    more := more + [HubAckArrives(org, e.nonce)];
    ExecPush(more, MarkHubAcked(t), orderly);
    more := more + [MarkHubAcked(t)];
  }

  lemma OnWireStays(s: State, s': State, t: nat, task: Task, e: Envelope, p: Phase)
    requires OnWire(s, t, task, e, p) && SenderSame(s, s')
    requires s.world.signed <= s'.world.signed && s'.world.sealed == s.world.sealed
    ensures OnWire(s', t, task, e, p)
  {
  }

  /** Handler `h` works on envelope `e`; what stands on the wire is as it was in `s`. */
  ghost predicate Handling(s: State, s': State, h: nat, e: Envelope) {
    && SenderSame(s, s') && s.world.signed <= s'.world.signed && s'.world.sealed == s.world.sealed
    && h in s'.handlers && s'.handlers[h].env == e && s'.handlers[h].org == e.toOrg
  }

  lemma Settles(steps: seq<Step>, orderly: bool, h: nat, e: Envelope) returns (more: seq<Step>)
    requires Handling(Exec(steps, orderly), Exec(steps, orderly), h, e)
    requires Exec(steps, orderly).handlers[h].phase == Checking
    ensures steps < more && Handling(Exec(steps, orderly), Exec(more, orderly), h, e)
    ensures Exec(more, orderly).handlers[h].phase == Settled
  {
    hide Exec, Key, Verified, SchemaOk;
    ExecPush(steps, Select(h), orderly);
    more := steps + [Select(h)];
    if Exec(more, orderly).handlers[h].phase == Inserting {
      ExecPush(more, Insert(h), orderly);
      more := more + [Insert(h)];
    }
  }

  lemma Received(steps: seq<Step>, orderly: bool, e: Envelope) returns (more: seq<Step>, h: nat)
    requires var w := Exec(steps, orderly).world;
             && e in w.signed && e.kind == "msg" && e.body in w.sealed
             && w.sealed[e.body] == Plain(e.fromOrg, e.toOrg, e.nonce, w.sealed[e.body].payload)
    requires SchemaOk(e) && e.fromOrg != e.toOrg
    ensures steps < more && Handling(Exec(steps, orderly), Exec(more, orderly), h, e)
    ensures Exec(more, orderly).handlers[h].phase == Settled
  {
    hide Exec;
    var s := Exec(steps, orderly);
    h := s.nextId;
    assert Verified(s.world.signed, e);
    ExecPush(steps, Receive(e.toOrg, e), orderly);
    more := Settles(steps + [Receive(e.toOrg, e)], orderly, h, e);
  }

  lemma Acknowledged(steps: seq<Step>, orderly: bool, h: nat, ts: string) returns (more: seq<Step>)
    requires var s := Exec(steps, orderly); h in s.handlers && s.handlers[h].phase == Settled
    requires Free(ts, SEP)
    ensures steps < more
    ensures var s, s' := Exec(steps, orderly), Exec(more, orderly);
            && SenderSame(s, s') && s'.world.sealed == s.world.sealed
            && s'.world.signed == s.world.signed + {AckEnvelope(s.handlers[h].org, s.handlers[h].env, ts)}
  {
    hide Exec;
    ExecPush(steps, Acknowledge(h, ts), orderly);
    more := steps + [Acknowledge(h, ts)];
  }

  /** The addressee receives, stores and acknowledges. */
  lemma Arrives(steps: seq<Step>, orderly: bool, t: nat, task: Task, e: Envelope, p: Phase, ts: string)
    returns (more: seq<Step>, a: Envelope)
    requires OnWire(Exec(steps, orderly), t, task, e, p)
    requires SchemaOk(e) && e.fromOrg != e.toOrg && Free(ts, SEP)
    ensures steps < more && OnWire(Exec(more, orderly), t, task, e, p)
    ensures a == AckEnvelope(e.toOrg, e, ts) && a in Exec(more, orderly).world.signed
  {
    hide Exec;
    var h: nat;
    more, h := Received(steps, orderly, e);
    OnWireStays(Exec(steps, orderly), Exec(more, orderly), t, task, e, p);
    var settled := more;
    more := Acknowledged(settled, orderly, h, ts);
    OnWireStays(Exec(settled, orderly), Exec(more, orderly), t, task, e, p);
    a := AckEnvelope(e.toOrg, e, ts);
  }

  lemma EndAck(steps: seq<Step>, orderly: bool, t: nat, task: Task, e: Envelope, a: Envelope) returns (more: seq<Step>)
    requires OnWire(Exec(steps, orderly), t, task, e, HubMarked(e.nonce))
    requires a in Exec(steps, orderly).world.signed && a.kind == "end_ack" && a.nonce == e.nonce
    ensures steps < more
    ensures task.mid in Exec(more, orderly).world.messages
    ensures task.mid in Exec(more, orderly).delivery && Exec(more, orderly).delivery[task.mid].status == Delivered
    ensures t in Exec(more, orderly).tasks && Exec(more, orderly).tasks[t] == task.(phase := Written)
  {
    hide Exec, SigText, SchemaOk, NonceUsed;
    var org := OrgOf(Exec(steps, orderly), task);
    ExecPush(steps, AwaitEnd(t), orderly);
    var waiting := steps + [AwaitEnd(t)];
    assert Verified(Exec(waiting, orderly).world.signed, a);
    ExecPush(waiting, EndAckArrives(org, a), orderly);
    var acked := waiting + [EndAckArrives(org, a)];
    ExecPush(acked, MarkDelivered(t), orderly);
    more := acked + [MarkDelivered(t)];
  }

  /** From every reachable state, orderly or not, a message with a coroutine that has just started
      can still be delivered, whatever went wrong before, if the attempt makes an envelope of the
      right shape for another organisation. */
  lemma {:induction false} StartedCanBeDelivered(
    steps: seq<Step>, orderly: bool, t: nat, nonce: string, body: string, ts: string, seqNo: string)
    returns (more: seq<Step>)
    requires var s := Exec(steps, orderly);
             && t in s.tasks && s.tasks[t].phase == Started
             && s.tasks[t].mid in s.world.messages && s.tasks[t].mid in s.delivery
             && !NonceUsed(s.world, nonce) && body !in s.world.sealed
    requires var s := Exec(steps, orderly);
             var e := MsgEnvelope(OrgOf(s, s.tasks[t]), s.tasks[t], nonce, ts, body, seqNo);
             SepFree(e) && SchemaOk(e) && e.fromOrg != e.toOrg
    ensures steps < more
    ensures var m := Exec(steps, orderly).tasks[t].mid;
            && m in Exec(more, orderly).world.messages && m in Exec(more, orderly).delivery
            && Exec(more, orderly).delivery[m].status == Delivered
    ensures t in Exec(more, orderly).tasks
    ensures Exec(more, orderly).tasks[t] == Exec(steps, orderly).tasks[t].(phase := Written)
  {
    hide Exec;
    var task := Exec(steps, orderly).tasks[t];
    var e: Envelope, a: Envelope;
    more, e := PutOut(steps, orderly, t, nonce, body, ts, seqNo);
    more := MarkedSent(more, orderly, t, task, e);
    more := HubAck(more, orderly, t, task, e);
    assert Free("", SEP);
    more, a := Arrives(more, orderly, t, task, e, HubMarked(e.nonce), "");
    more := EndAck(more, orderly, t, task, e, a);
  }

  /** And so can a failed one with a retry left, when no sweep of its organisation is active. */
  lemma {:induction false} FailedCanBeDelivered(
    steps: seq<Step>, orderly: bool, m: string, route: Route, nonce: string, body: string, ts: string, seqNo: string)
    returns (more: seq<Step>)
    requires var s := Exec(steps, orderly);
             && m in s.world.messages && m in s.delivery && s.delivery[m].status == Failed
             && s.delivery[m].retries + 1 < MAX_RETRY && NoSweepOf(s, FromOf(s, m))
             && !NonceUsed(s.world, nonce) && body !in s.world.sealed
    requires var s := Exec(steps, orderly);
             var e := MsgEnvelope(FromOf(s, m), Task(m, route, PayloadOf(s, m), Started), nonce, ts, body, seqNo);
             SepFree(e) && SchemaOk(e) && e.fromOrg != e.toOrg
    ensures steps < more
    ensures m in Exec(more, orderly).delivery && Exec(more, orderly).delivery[m].status == Delivered
  {
    hide Exec, SigText, NonceUsed;
    var s := Exec(steps, orderly);
    var begin := BeginSweep(FromOf(s, m), [Item(m, s.delivery[m].retries)]);
    ExecPush(steps, begin, orderly);
    var next := SweepNext(s.nextId, Some(route));
    ExecPush(steps + [begin], next, orderly);
    more := StartedCanBeDelivered(steps + [begin] + [next], orderly, s.nextId + 1, nonce, body, ts, seqNo);
  }

  // ---- a repeated send -----------------------------------------------------------------------

  /** Whatever a message's status is, delivered and dead included, a call that lost the race to insert
      it starts a coroutine of its own, and the message is pending again. */
  lemma RepeatedSendReopens(steps: seq<Step>, m: string, payload: string, route: Route)
    requires m in Exec(steps, false).world.messages && m in Exec(steps, false).delivery
    ensures var t := Exec(steps, false).nextId;
            var s := Exec(steps + [SendAgain(m, payload, route)] + [MarkPending(t)], false);
            m in s.delivery && s.delivery[m] == Exec(steps, false).delivery[m].(status := Pending)
  {
    hide Exec;
    var t := Exec(steps, false).nextId;
    ExecPush(steps, SendAgain(m, payload, route), false);
    ExecPush(steps + [SendAgain(m, payload, route)], MarkPending(t), false);
  }

  /** So there is a run in which a message is delivered and then is not. */
  lemma {:induction false} DeliveredIsLeft(
    m: string, c: Content, route: Route, nonce: string, body: string, ts: string)
    returns (delivered: seq<Step>, left: seq<Step>)
    requires var e := MsgEnvelope(c.from, Task(m, route, c.payload, Started), nonce, ts, body, "1");
             m != "" && SepFree(e) && SchemaOk(e) && e.fromOrg != e.toOrg
    ensures delivered < left
    ensures m in Exec(delivered, false).delivery && Exec(delivered, false).delivery[m].status == Delivered
    ensures m in Exec(left, false).delivery && Exec(left, false).delivery[m].status == Pending
  {
    ExecPush([], Send(m, c, route), false);
    var sent := [] + [Send(m, c, route)];
    delivered := StartedCanBeDelivered(sent, false, 0, nonce, body, ts, "1");
    RepeatedSendReopens(delivered, m, c.payload, route);
    left := delivered + [SendAgain(m, c.payload, route)] + [MarkPending(Exec(delivered, false).nextId)];
  }

  // ---- a late failure --------------------------------------------------------------------------

  /** So it does when the database commits that it is delivered and then reports an error: the
      message is failed again, and the next sweep will send it once more. */
  lemma {:induction false} LateFailureLeavesDelivered(
    m: string, c: Content, route: Route, nonce: string, body: string, ts: string)
    returns (delivered: seq<Step>)
    requires var e := MsgEnvelope(c.from, Task(m, route, c.payload, Started), nonce, ts, body, "1");
             m != "" && SepFree(e) && SchemaOk(e) && e.fromOrg != e.toOrg
    ensures m in Exec(delivered, false).delivery && Exec(delivered, false).delivery[m].status == Delivered
    ensures var left := Exec(delivered + [Fail(0)], false);
            m in left.delivery && left.delivery[m].status == Failed
  {
    ExecPush([], Send(m, c, route), false);
    var sent := [] + [Send(m, c, route)];
    delivered := StartedCanBeDelivered(sent, false, 0, nonce, body, ts, "1");
    ExecPush(delivered, Fail(0), false);
  }
}
