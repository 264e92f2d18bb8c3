/** Exactly-once delivery, for every run: overlapping sweeps, repeated sends and retries with other
    addressees included. */
module CrossOrgSafety {
  import opened Options
  import opened Text
  import opened Envelopes
  import opened CrossOrgDelivery

  // ---- facts about the growing part of the state ----------------------------------

  /** Some attempt of message `mid` used this nonce. */
  ghost predicate Attempt(w: World, nonce: string, mid: string) {
    exists e :: IsMsg(w, e) && e.nonce == nonce && e.msgId == mid
  }

  /** The addressee of the attempt with this nonce holds the row of its message. */
  ghost predicate Confirmed(w: World, nonce: string) {
    exists e :: IsMsg(w, e) && e.nonce == nonce && HasRow(w.stored, e.toOrg, Key(e))
  }

  /** An organisation the message was sent to holds its row. */
  ghost predicate Landed(w: World, mid: string) {
    exists e :: IsMsg(w, e) && e.msgId == mid && HasRow(w.stored, e.toOrg, Key(e))
  }

  /** The row that an envelope of the right shape, with what it was sealed with, leaves behind. */
  ghost predicate Leaves(w: World, e: Envelope, r: Row) {
    && IsMsg(w, e) && e.fromOrg != r.org && e.toOrg == r.org && Key(e) == r.key && SchemaOk(e)
    && e.fromAin == r.fromAin && e.toAin == r.toAin
    && e.body in w.sealed && w.sealed[e.body].payload == r.payload
  }

  ghost predicate Genuine(w: World, r: Row) {
    exists e :: Leaves(w, e, r)
  }

  ghost predicate SignedOk(w: World) {
    forall e :: e in w.signed ==> SepFree(e) && (e.kind == "msg" || e.kind == "end_ack")
  }

  ghost predicate MsgOk(w: World) {
    forall e :: IsMsg(w, e) ==>
      && e.msgId != "" && e.msgId in w.messages && e.fromOrg == w.messages[e.msgId].from
      && e.body in w.sealed
      && w.sealed[e.body] == Plain(e.fromOrg, e.toOrg, e.nonce, w.sealed[e.body].payload)
      && Offer(e.msgId, w.sealed[e.body].payload) in w.offers
  }

  /** The row's own payload was offered by the call that inserted it. */
  ghost predicate OffersOk(w: World) {
    forall m :: m in w.messages ==> Offer(m, w.messages[m].payload) in w.offers
  }

  ghost predicate NonceOk(w: World) {
    forall e, e' :: IsMsg(w, e) && IsMsg(w, e') && e.nonce == e'.nonce ==> e == e'
  }

  /** The acknowledgement goes from the addressee, who holds the row, back to the sender. */
  ghost predicate Answers(w: World, a: Envelope, e: Envelope) {
    && IsMsg(w, e) && HasRow(w.stored, e.toOrg, Key(e))
    && a.v == "1" && a.nonce == e.nonce && a.msgId == "" && a.body == "e30=" && a.seqNo == "0"
    && a.fromOrg == e.toOrg && a.toOrg == e.fromOrg && a.fromAin == e.toAin && a.toAin == e.fromAin
  }

  ghost predicate Acked(w: World, a: Envelope) {
    exists e :: Answers(w, a, e)
  }

  ghost predicate AckOk(w: World) {
    forall a :: a in w.signed && a.kind == "end_ack" ==> Acked(w, a)
  }

  lemma AckedIsConfirmed(w: World, a: Envelope)
    requires Acked(w, a)
    ensures Confirmed(w, a.nonce)
  {
    var e :| Answers(w, a, e);
  }

  lemma Answered(w: World, a: Envelope) returns (e: Envelope)
    requires WorldInv(w) && a in w.signed && !IsMsg(w, a)
    ensures a.kind == "end_ack" && Answers(w, a, e)
  {
    assert Acked(w, a);
    e :| Answers(w, a, e);
  }

  ghost predicate UniqueRows(stored: seq<Row>) {
    forall i, j :: 0 <= i < j < |stored| ==> stored[i].org != stored[j].org || stored[i].key != stored[j].key
  }

  ghost predicate StoredOk(w: World) {
    UniqueRows(w.stored) && forall i :: 0 <= i < |w.stored| ==> Genuine(w, w.stored[i])
  }

  ghost predicate WorldInv(w: World) {
    "" !in w.messages && SignedOk(w) && MsgOk(w) && OffersOk(w) && NonceOk(w) && AckOk(w) && StoredOk(w)
  }

  ghost predicate Extends(w: World, w': World) {
    && w.signed <= w'.signed
    && w.stored <= w'.stored
    && w.offers <= w'.offers
    && (forall b :: b in w.sealed ==> b in w'.sealed && w'.sealed[b] == w.sealed[b])
    && (forall m :: m in w.messages ==> m in w'.messages && w'.messages[m] == w.messages[m])
  }

  lemma HasRowExtends(a: seq<Row>, b: seq<Row>, org: string, key: string)
    requires a <= b && HasRow(a, org, key)
    ensures HasRow(b, org, key)
  {
    var i :| 0 <= i < |a| && a[i].org == org && a[i].key == key;
    assert b[i] == a[i];
  }

  lemma FactsExtend(w: World, w': World)
    requires Extends(w, w')
    ensures forall n, m :: Attempt(w, n, m) ==> Attempt(w', n, m)
    ensures forall n :: Confirmed(w, n) ==> Confirmed(w', n)
    ensures forall m :: Landed(w, m) ==> Landed(w', m)
    ensures forall r :: Genuine(w, r) ==> Genuine(w', r)
    ensures forall a :: Acked(w, a) ==> Acked(w', a)
  {
    forall a | Acked(w, a) ensures Acked(w', a) {
      var e :| Answers(w, a, e);
      HasRowExtends(w.stored, w'.stored, e.toOrg, Key(e));
      assert Answers(w', a, e);
    }
    forall n, m | Attempt(w, n, m) ensures Attempt(w', n, m) {
      var e :| IsMsg(w, e) && e.nonce == n && e.msgId == m;
      assert IsMsg(w', e);
    }
    forall n | Confirmed(w, n) ensures Confirmed(w', n) {
      var e :| IsMsg(w, e) && e.nonce == n && HasRow(w.stored, e.toOrg, Key(e));
      HasRowExtends(w.stored, w'.stored, e.toOrg, Key(e));
      assert IsMsg(w', e);
    }
    forall m | Landed(w, m) ensures Landed(w', m) {
      var e :| IsMsg(w, e) && e.msgId == m && HasRow(w.stored, e.toOrg, Key(e));
      HasRowExtends(w.stored, w'.stored, e.toOrg, Key(e));
      assert IsMsg(w', e);
    }
    forall r | Genuine(w, r) ensures Genuine(w', r) {
      var e :| Leaves(w, e, r);
      assert Leaves(w', e, r);
    }
  }

  // ---- the invariant ----------------------------------------------------------------

  /** A coroutine sends what some call offered, and knows the nonce of its own attempt. */
  ghost predicate TaskOk(w: World, t: Task) {
    && t.mid in w.messages && Offer(t.mid, t.payload) in w.offers
    && match t.phase
       case Started => true
       case Preparing => true
       case Transmitted(n) => Attempt(w, n, t.mid)
       case SentMarked(n) => Attempt(w, n, t.mid)
       case WaitingHub(n) => Attempt(w, n, t.mid)
       case HubMarked(n) => Attempt(w, n, t.mid)
       case WaitingEnd(n) => Attempt(w, n, t.mid)
       case Written => true
  }

  ghost predicate HandlerOk(w: World, h: Handler) {
    && IsMsg(w, h.env) && h.env.fromOrg != h.org && h.org == h.env.toOrg && SchemaOk(h.env)
    && h.env.body in w.sealed && h.payload == w.sealed[h.env.body].payload
    && (h.phase == Settled ==> HasRow(w.stored, h.org, Key(h.env)))
  }

  ghost predicate WaiterOk(w: World, k: Waiter, done: bool) {
    k.kind == End && done ==> Confirmed(w, k.nonce)
  }

  ghost predicate TasksOk(w: World, tasks: map<nat, Task>) {
    forall t :: t in tasks ==> TaskOk(w, tasks[t])
  }

  ghost predicate HandlersOk(w: World, handlers: map<nat, Handler>) {
    forall h :: h in handlers ==> HandlerOk(w, handlers[h])
  }

  ghost predicate WaitersOk(w: World, waiters: map<Waiter, bool>) {
    forall k :: k in waiters ==> WaiterOk(w, k, waiters[k])
  }

  ghost predicate DeliveredOk(w: World, d: map<string, Delivery>) {
    forall m :: m in d && d[m].status == Delivered ==> Landed(w, m)
  }

  ghost predicate SweepsOk(w: World, sweeps: map<nat, Sweep>) {
    forall k, i :: k in sweeps && 0 <= i < |sweeps[k].items| ==> sweeps[k].items[i].mid in w.messages
  }

  /** The part of the state that comes and goes agrees with the world. */
  ghost predicate VolatileOk(s: State) {
    && TasksOk(s.world, s.tasks)
    && HandlersOk(s.world, s.handlers)
    && WaitersOk(s.world, s.waiters)
    && DeliveredOk(s.world, s.delivery)
    && SweepsOk(s.world, s.sweeps)
  }

  ghost predicate Inv(s: State) {
    WorldInv(s.world) && VolatileOk(s)
  }

  /** Growing the world keeps every fact the volatile state relies on. */
  lemma VolatileExtends(s: State, w': World)
    requires Inv(s) && Extends(s.world, w') && WorldInv(w')
    ensures Inv(s.(world := w'))
  {
    FactsExtend(s.world, w');
    forall h | h in s.handlers ensures HandlerOk(w', s.handlers[h]) {
      var x := s.handlers[h];
      assert IsMsg(w', x.env);
      if x.phase == Settled {
        HasRowExtends(s.world.stored, w'.stored, x.org, Key(x.env));
      }
    }
  }

  lemma TransmitKeepsWorld(w: World, e: Envelope, p: Plain)
    requires WorldInv(w) && SepFree(e) && e.kind == "msg" && e.msgId != "" && e.msgId in w.messages
    requires e.fromOrg == w.messages[e.msgId].from
    requires !NonceUsed(w, e.nonce) && e.body !in w.sealed
    requires p == Plain(e.fromOrg, e.toOrg, e.nonce, p.payload) && Offer(e.msgId, p.payload) in w.offers
    ensures var w' := w.(signed := w.signed + {e}, sealed := w.sealed[e.body := p]);
            WorldInv(w') && Extends(w, w') && Attempt(w', e.nonce, e.msgId)
  {
    var w' := w.(signed := w.signed + {e}, sealed := w.sealed[e.body := p]);
    assert IsMsg(w', e);
    forall x | IsMsg(w', x) ensures x == e || (IsMsg(w, x) && x.nonce != e.nonce && x.body != e.body) {
    }
    FactsExtend(w, w');
  }

  lemma InsertKeepsWorld(w: World, h: Handler)
    requires WorldInv(w) && HandlerOk(w, h) && !HasRow(w.stored, h.org, Key(h.env))
    ensures var w' := w.(stored := w.stored + [Row(h.org, Key(h.env), h.env.fromAin, h.env.toAin, h.payload)]);
            WorldInv(w') && Extends(w, w') && HasRow(w'.stored, h.org, Key(h.env))
  {
    var r := Row(h.org, Key(h.env), h.env.fromAin, h.env.toAin, h.payload);
    var w' := w.(stored := w.stored + [r]);
    assert w'.stored[|w.stored|] == r;
    FactsExtend(w, w');
    assert Leaves(w', h.env, r);
    forall i | 0 <= i < |w'.stored| ensures Genuine(w', w'.stored[i]) {
      if i < |w.stored| {
        assert Genuine(w, w.stored[i]);
      }
    }
    forall e | IsMsg(w', e) ensures IsMsg(w, e) {
    }
  }

  lemma AcknowledgeKeepsWorld(w: World, h: Handler, ts: string)
    requires WorldInv(w) && HandlerOk(w, h) && h.phase == Settled && Free(ts, SEP)
    ensures var w' := w.(signed := w.signed + {AckEnvelope(h.org, h.env, ts)});
            WorldInv(w') && Extends(w, w')
  {
    var a := AckEnvelope(h.org, h.env, ts);
    var w' := w.(signed := w.signed + {a});
    AckIsSepFree(h.org, h.env, ts);
    forall e | IsMsg(w', e) ensures IsMsg(w, e) {
    }
    FactsExtend(w, w');
    assert Answers(w, a, h.env);
  }

  lemma AckIsSepFree(org: string, e: Envelope, ts: string)
    requires SepFree(e) && org == e.toOrg && Free(ts, SEP)
    ensures SepFree(AckEnvelope(org, e, ts))
  {
    var f := Fields(e);
    assert Free(f[2], SEP) && Free(f[3], SEP) && Free(f[4], SEP) && Free(f[5], SEP) && Free(f[6], SEP);
    assert Free("1", SEP) && Free("end_ack", SEP) && Free(EMPTY_BODY, SEP) && Free("", SEP) && Free("0", SEP);
  }

  lemma SendKeepsWorld(w: World, mid: string, c: Content)
    requires WorldInv(w) && mid !in w.messages && mid != ""
    ensures var w' := w.(messages := w.messages[mid := c], offers := w.offers + {Offer(mid, c.payload)});
            WorldInv(w') && Extends(w, w')
  {
    var w' := w.(messages := w.messages[mid := c], offers := w.offers + {Offer(mid, c.payload)});
    FactsExtend(w, w');
    forall e | IsMsg(w', e) ensures IsMsg(w, e) {
    }
  }

  lemma OfferKeepsWorld(w: World, mid: string, payload: string)
    requires WorldInv(w)
    ensures var w' := w.(offers := w.offers + {Offer(mid, payload)}); WorldInv(w') && Extends(w, w')
  {
    var w' := w.(offers := w.offers + {Offer(mid, payload)});
    FactsExtend(w, w');
    forall e | IsMsg(w', e) ensures IsMsg(w, e) {
    }
  }

  /** An end_ack that verifies was signed after its message's row was stored. */
  lemma GenuineAck(w: World, env: Envelope)
    requires WorldInv(w) && env.kind == "end_ack" && Verified(w.signed, env)
    ensures Confirmed(w, env.nonce)
  {
    VerifiedIsSigned(w.signed, env);
    AckedIsConfirmed(w, env);
  }

  /** An envelope that verifies and opens is one the sender addressed to this organisation. */
  lemma GenuineReceive(w: World, org: string, env: Envelope)
    requires WorldInv(w) && env.kind != "end_ack" && Verified(w.signed, env) && env.body in w.sealed
    requires w.sealed[env.body].to == org && SchemaOk(env) && env.fromOrg != org
    ensures HandlerOk(w, Handler(org, env, w.sealed[env.body].payload, Checking))
  {
    VerifiedIsSigned(w.signed, env);
    assert IsMsg(w, env);
  }

  /** The acknowledged nonce belongs to one message only. */
  lemma AcknowledgedLanded(w: World, nonce: string, mid: string)
    requires WorldInv(w) && Attempt(w, nonce, mid) && Confirmed(w, nonce)
    ensures Landed(w, mid)
  {
    var e :| IsMsg(w, e) && e.nonce == nonce && e.msgId == mid;
    var e' :| IsMsg(w, e') && e'.nonce == nonce && HasRow(w.stored, e'.toOrg, Key(e'));
    assert e == e';
  }

  lemma DeliveryStepKeeps(s: State, step: Step)
    requires Inv(s) && Enabled(s, step) && step.MarkDelivered?
    ensures Inv(Apply(s, step))
  {
    hide WorldInv, VolatileOk;
    var t := s.tasks[step.tid];
    var k := Waiter(OrgOf(s, t), t.phase.nonce, End);
    AckedIsLanded(s, step.tid, k);
    DeliveredVolatile(s, step.tid, k);
  }

  lemma AckedIsLanded(s: State, tid: nat, k: Waiter)
    requires Inv(s) && tid in s.tasks && s.tasks[tid].phase.WaitingEnd?
    requires k.kind == End && k.nonce == s.tasks[tid].phase.nonce && k in s.waiters && s.waiters[k]
    ensures Landed(s.world, s.tasks[tid].mid)
  {
    assert WaiterOk(s.world, k, s.waiters[k]);
    AcknowledgedLanded(s.world, k.nonce, s.tasks[tid].mid);
  }

  lemma DeliveredVolatile(s: State, tid: nat, k: Waiter)
    requires VolatileOk(s) && tid in s.tasks && Landed(s.world, s.tasks[tid].mid)
    ensures VolatileOk(SetPhase(s, tid, Written).(
                         waiters := Without(s.waiters, k),
                         delivery := SetStatus(s.delivery, s.tasks[tid].mid, Delivered)))
  {
  }

  predicate SenderStep(step: Step) {
    (MarkStep(step) && !step.MarkDelivered?) || FinishStep(step)
  }

  lemma SenderStepVolatile(s: State, step: Step)
    requires VolatileOk(s) && Enabled(s, step) && SenderStep(step)
    ensures VolatileOk(Apply(s, step)) && Apply(s, step).world == s.world
  {
    hide Apply, TasksOk, HandlersOk, WaitersOk, DeliveredOk, SweepsOk, Enabled;
    SenderStepTasks(s, step);
    SenderStepRest(s, step);
  }

  lemma SenderStepTasks(s: State, step: Step)
    requires TasksOk(s.world, s.tasks) && Enabled(s, step) && SenderStep(step)
    ensures TasksOk(s.world, Apply(s, step).tasks) && Apply(s, step).world == s.world
  {
  }

  lemma SenderStepRest(s: State, step: Step)
    requires WaitersOk(s.world, s.waiters) && DeliveredOk(s.world, s.delivery)
    requires Enabled(s, step) && SenderStep(step)
    ensures var s' := Apply(s, step);
            && WaitersOk(s.world, s'.waiters) && DeliveredOk(s.world, s'.delivery)
            && s'.handlers == s.handlers && s'.sweeps == s.sweeps
  {
  }

  lemma SenderStepKeeps(s: State, step: Step)
    requires Inv(s) && Enabled(s, step) && SenderStep(step)
    ensures Inv(Apply(s, step))
  {
    SenderStepVolatile(s, step);
  }

  lemma StartKeeps(s: State, mid: string, route: Route, payload: string)
    requires Inv(s) && mid in s.world.messages && Offer(mid, payload) in s.world.offers
    ensures Inv(StartTask(s, mid, route, payload))
  {
  }

  lemma QueuedKeeps(s: State, mid: string)
    requires Inv(s)
    ensures Inv(s.(delivery := s.delivery[mid := Delivery(Queued, 0)]))
  {
  }

  lemma SendKeeps(s: State, mid: string, c: Content, route: Route)
    requires Inv(s) && mid !in s.world.messages && mid != ""
    ensures Inv(StartTask(s.(world := s.world.(messages := s.world.messages[mid := c],
                                               offers := s.world.offers + {Offer(mid, c.payload)}),
                             delivery := s.delivery[mid := Delivery(Queued, 0)]), mid, route, c.payload))
  {
    var w' := s.world.(messages := s.world.messages[mid := c], offers := s.world.offers + {Offer(mid, c.payload)});
    SendKeepsWorld(s.world, mid, c);
    VolatileExtends(s, w');
    QueuedKeeps(s.(world := w'), mid);
    StartKeeps(s.(world := w', delivery := s.delivery[mid := Delivery(Queued, 0)]), mid, route, c.payload);
  }

  lemma SendAgainKeeps(s: State, mid: string, payload: string, route: Route)
    requires Inv(s) && mid in s.world.messages
    ensures Inv(StartTask(s.(world := s.world.(offers := s.world.offers + {Offer(mid, payload)})), mid, route, payload))
  {
    var w' := s.world.(offers := s.world.offers + {Offer(mid, payload)});
    OfferKeepsWorld(s.world, mid, payload);
    VolatileExtends(s, w');
    StartKeeps(s.(world := w'), mid, route, payload);
  }

  lemma SendStepKeeps(s: State, step: Step)
    requires Inv(s) && Enabled(s, step) && (step.Send? || step.SendAgain?)
    ensures Inv(Apply(s, step))
  {
    if step.Send? {
      SendKeeps(s, step.mid, step.content, step.route);
    } else {
      SendAgainKeeps(s, step.mid, step.payload, step.route);
    }
  }

  lemma TransmitKeeps(s: State, tid: nat, nonce: string, body: string, ts: string, seqNo: string)
    requires Inv(s) && tid in s.tasks && s.tasks[tid].mid in s.world.messages
    requires !NonceUsed(s.world, nonce) && body !in s.world.sealed
    requires SepFree(MsgEnvelope(OrgOf(s, s.tasks[tid]), s.tasks[tid], nonce, ts, body, seqNo))
    ensures Inv(PutOnWire(s, tid, nonce, body, ts, seqNo))
  {
    var t := s.tasks[tid];
    var e, p := MsgEnvelope(OrgOf(s, t), t, nonce, ts, body, seqNo), Plain(OrgOf(s, t), t.route.to, nonce, t.payload);
    assert TaskOk(s.world, t);
    TransmitKeepsWorld(s.world, e, p);
    var s' := PutOnWire(s, tid, nonce, body, ts, seqNo);
    VolatileExtends(s, s'.world);
    assert TasksOk(s'.world, s'.tasks);
  }

  lemma InsertKeeps(s: State, hid: nat)
    requires Inv(s) && hid in s.handlers
    ensures Inv(StoreRow(s, hid))
  {
    var h := s.handlers[hid];
    var s' := StoreRow(s, hid);
    assert HandlerOk(s.world, h);
    if !HasRow(s.world.stored, h.org, Key(h.env)) {
      InsertKeepsWorld(s.world, h);
      VolatileExtends(s, s'.world);
    }
    assert Inv(s.(world := s'.world));
    assert HandlersOk(s'.world, s'.handlers);
  }

  lemma AcknowledgeKeeps(s: State, hid: nat, ts: string)
    requires Inv(s) && hid in s.handlers && s.handlers[hid].phase == Settled && Free(ts, SEP)
    ensures Inv(SignAck(s, hid, ts))
  {
    assert HandlerOk(s.world, s.handlers[hid]);
    AcknowledgeKeepsWorld(s.world, s.handlers[hid], ts);
    VolatileExtends(s, SignAck(s, hid, ts).world);
  }

  lemma LookUpKeeps(s: State, hid: nat)
    requires Inv(s) && hid in s.handlers
    ensures Inv(LookUp(s, hid))
  {
    assert HandlerOk(s.world, s.handlers[hid]);
    assert HandlersOk(s.world, LookUp(s, hid).handlers);
  }

  lemma OpenKeeps(s: State, org: string, env: Envelope)
    requires Inv(s) && env.kind != "end_ack" && Verified(s.world.signed, env) && env.body in s.world.sealed
    requires s.world.sealed[env.body].to == org && SchemaOk(env) && env.fromOrg != org
    ensures Inv(Open(s, org, env))
  {
    GenuineReceive(s.world, org, env);
  }

  lemma AckArrivalKeeps(s: State, step: Step)
    requires Inv(s) && Enabled(s, step) && (step.HubAckArrives? || step.EndAckArrives?)
    ensures Inv(Apply(s, step))
  {
    hide WorldInv, VolatileOk;
    if step.EndAckArrives? {
      EndAckKeeps(s, step.org, step.env);
    } else {
      HubAckKeeps(s, step.org, step.nonce);
    }
  }

  lemma EndAckKeeps(s: State, org: string, env: Envelope)
    requires Inv(s) && env.kind == "end_ack" && Verified(s.world.signed, env)
    ensures Inv(s.(waiters := s.waiters[Waiter(org, env.nonce, End) := true]))
  {
    GenuineAck(s.world, env);
  }

  lemma HubAckKeeps(s: State, org: string, nonce: string)
    requires Inv(s)
    ensures Inv(s.(waiters := s.waiters[Waiter(org, nonce, Hub) := true]))
  {
  }

  lemma RestatusKeeps(w: World, d: map<string, Delivery>, mid: string, st: Status, n: nat)
    requires DeliveredOk(w, d) && st != Delivered
    ensures DeliveredOk(w, SetStatus(d, mid, st)) && DeliveredOk(w, SetRetries(d, mid, n))
  {
  }

  lemma DropHeadKeeps(w: World, sweeps: map<nat, Sweep>, sid: nat, current: Option<nat>)
    requires SweepsOk(w, sweeps) && sid in sweeps && sweeps[sid].items != []
    ensures SweepsOk(w, sweeps[sid := sweeps[sid].(items := sweeps[sid].items[1..], current := current)])
  {
    var items := sweeps[sid].items;
    assert forall i :: 0 <= i < |items[1..]| ==> items[1..][i] == items[i + 1];
  }

  lemma StartVolatile(s: State, mid: string, route: Route, payload: string)
    requires VolatileOk(s) && mid in s.world.messages && Offer(mid, payload) in s.world.offers
    ensures VolatileOk(StartTask(s, mid, route, payload))
  {
  }

  lemma HeadIsKnown(s: State, sid: nat)
    requires SweepsOk(s.world, s.sweeps) && OffersOk(s.world) && sid in s.sweeps && s.sweeps[sid].items != []
    ensures var m := Head(s, sid).mid; m in s.world.messages && Offer(m, PayloadOf(s, m)) in s.world.offers
  {
    assert Head(s, sid) == s.sweeps[sid].items[0];
  }

  lemma PartsVolatile(s: State, sweeps: map<nat, Sweep>, d: map<string, Delivery>)
    requires VolatileOk(s) && SweepsOk(s.world, sweeps) && DeliveredOk(s.world, d)
    ensures VolatileOk(s.(sweeps := sweeps, delivery := d))
  {
  }

  lemma ResendVolatile(s: State, sid: nat, route: Route)
    requires VolatileOk(s) && OffersOk(s.world) && sid in s.sweeps && s.sweeps[sid].items != []
    ensures VolatileOk(Resend(s, sid, route))
  {
    var it := Head(s, sid);
    HeadIsKnown(s, sid);
    var started := StartTask(s, it.mid, route, PayloadOf(s, it.mid));
    StartVolatile(s, it.mid, route, PayloadOf(s, it.mid));
    DropHeadKeeps(s.world, s.sweeps, sid, Some(s.nextId));
    RestatusKeeps(s.world, s.delivery, it.mid, Dead, it.retries + 1);
    PartsVolatile(started, DropHead(started, sid, Some(s.nextId)).sweeps,
                  SetRetries(s.delivery, it.mid, it.retries + 1));
  }

  lemma VolatileParts(s: State)
    requires VolatileOk(s)
    ensures SweepsOk(s.world, s.sweeps) && DeliveredOk(s.world, s.delivery)
  {
  }

  lemma ProcessItemVolatile(s: State, sid: nat, target: Option<Route>)
    requires VolatileOk(s) && OffersOk(s.world) && sid in s.sweeps && s.sweeps[sid].items != []
    ensures VolatileOk(ProcessItem(s, sid, target)) && ProcessItem(s, sid, target).world == s.world
  {
    hide VolatileOk, SweepsOk, DeliveredOk, OffersOk;
    var it := Head(s, sid);
    VolatileParts(s);
    if Resends(s, sid, target) {
      ResendVolatile(s, sid, target.value);
    } else {
      var sweeps := DropHead(s, sid, s.sweeps[sid].current).sweeps;
      DropHeadKeeps(s.world, s.sweeps, sid, s.sweeps[sid].current);
      RestatusKeeps(s.world, s.delivery, it.mid, Dead, it.retries + 1);
      PartsVolatile(s, sweeps, SetStatus(s.delivery, it.mid, Dead));
      PartsVolatile(s, sweeps, SetRetries(s.delivery, it.mid, it.retries + 1));
    }
  }

  lemma ProcessItemKeeps(s: State, sid: nat, target: Option<Route>)
    requires Inv(s) && sid in s.sweeps && s.sweeps[sid].items != []
    ensures Inv(ProcessItem(s, sid, target))
  {
    ProcessItemVolatile(s, sid, target);
  }

  lemma ReceiveStepKeeps(s: State, step: Step)
    requires Inv(s) && Enabled(s, step) && step.Receive?
    ensures Inv(Apply(s, step))
  {
    OpenKeeps(s, step.org, step.env);
  }

  lemma AcknowledgeStepKeeps(s: State, step: Step)
    requires Inv(s) && Enabled(s, step) && step.Acknowledge?
    ensures Inv(Apply(s, step))
  {
    hide WorldInv, VolatileOk;
    AcknowledgeKeeps(s, step.hid, step.ts);
  }

  lemma HandlerStepKeeps(s: State, step: Step)
    requires Inv(s) && Enabled(s, step) && (step.Select? || step.Insert?)
    ensures Inv(Apply(s, step))
  {
    if step.Select? {
      LookUpKeeps(s, step.hid);
    } else {
      InsertKeeps(s, step.hid);
    }
  }

  lemma DropStepKeeps(s: State, step: Step)
    requires Inv(s) && Enabled(s, step) && step.DropHandler?
    ensures Inv(Apply(s, step))
  {
  }

  lemma SweepNextStepKeeps(s: State, step: Step)
    requires Inv(s) && Enabled(s, step) && step.SweepNext?
    ensures Inv(Apply(s, step))
  {
    hide WorldInv, VolatileOk;
    ProcessItemKeeps(s, step.sid, step.target);
  }

  lemma SweepStepKeeps(s: State, step: Step)
    requires Inv(s) && Enabled(s, step) && (step.BeginSweep? || step.SweepResume? || step.EndSweep?)
    ensures Inv(Apply(s, step))
  {
    SweepStepVolatile(s, step);
  }

  lemma SweepsStayOk(w: World, sweeps: map<nat, Sweep>, k: nat, x: Sweep)
    requires SweepsOk(w, sweeps) && forall i :: 0 <= i < |x.items| ==> x.items[i].mid in w.messages
    ensures SweepsOk(w, sweeps[k := x]) && SweepsOk(w, Without(sweeps, k))
  {
  }

  lemma ItemsKnown(w: World, sweeps: map<nat, Sweep>, k: nat)
    requires SweepsOk(w, sweeps) && k in sweeps
    ensures forall i :: 0 <= i < |sweeps[k].items| ==> sweeps[k].items[i].mid in w.messages
  {
  }

  lemma SweepsOnlyVolatile(s: State, s': State)
    requires VolatileOk(s) && SweepsOnly(s, s') && SweepsOk(s.world, s'.sweeps)
    ensures VolatileOk(s') && s'.world == s.world
  {
  }

  lemma SweepStepVolatile(s: State, step: Step)
    requires VolatileOk(s) && Enabled(s, step) && (step.BeginSweep? || step.SweepResume? || step.EndSweep?)
    ensures VolatileOk(Apply(s, step)) && Apply(s, step).world == s.world
  {
    hide Apply, VolatileOk, DeliveredOk, SweepsOk;
    VolatileParts(s);
    if step.BeginSweep? {
      BeginApplies(s, step);
      SweepsStayOk(s.world, s.sweeps, s.nextId, Sweep(step.org, step.items, None));
    } else {
      SweepStepApplies(s, step);
      ItemsKnown(s.world, s.sweeps, step.sid);
      SweepsStayOk(s.world, s.sweeps, step.sid, s.sweeps[step.sid].(current := None));
    }
    SweepsOnlyVolatile(s, Apply(s, step));
  }

  lemma TransmitStepKeeps(s: State, step: Step)
    requires Inv(s) && Enabled(s, step) && step.Transmit?
    ensures Inv(Apply(s, step))
  {
    TransmitKeeps(s, step.tid, step.nonce, step.body, step.ts, step.seqNo);
  }

  /** Every step keeps the invariant. */
  lemma StepKeeps(s: State, step: Step)
    requires Inv(s) && Enabled(s, step)
    ensures Inv(Apply(s, step))
  {
    hide Apply, WorldInv, VolatileOk;
    if step.Send? || step.SendAgain? {
      SendStepKeeps(s, step);
    } else if step.Transmit? {
      TransmitStepKeeps(s, step);
    } else if step.HubAckArrives? || step.EndAckArrives? {
      AckArrivalKeeps(s, step);
    } else if step.Receive? {
      ReceiveStepKeeps(s, step);
    } else if step.Acknowledge? {
      AcknowledgeStepKeeps(s, step);
    } else if step.Select? || step.Insert? {
      HandlerStepKeeps(s, step);
    } else if step.DropHandler? {
      DropStepKeeps(s, step);
    } else if step.SweepNext? {
      SweepNextStepKeeps(s, step);
    } else if step.BeginSweep? || step.SweepResume? || step.EndSweep? {
      SweepStepKeeps(s, step);
    } else if step.MarkDelivered? {
      DeliveryStepKeeps(s, step);
    } else {
      SenderStepKeeps(s, step);
    }
  }

  lemma {:induction false} RunInv(steps: seq<Step>, orderly: bool)
    ensures Inv(Exec(steps, orderly))
  {
    if steps != [] {
      var s := Exec(steps[..|steps| - 1], orderly);
      var step := steps[|steps| - 1];
      RunInv(steps[..|steps| - 1], orderly);
      if Allowed(s, step, orderly) {
        StepKeeps(s, step);
      }
    }
  }
}
