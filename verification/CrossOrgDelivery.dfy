/** Reliable delivery between organisations, as a state machine.

    Every organisation runs the same code. One state holds, for all of them: the message rows
    with their delivery status, the running send coroutines, the ack waiters, the retry sweeps,
    the receiving handlers and the stored incoming rows. The network is the most hostile one:
    any envelope may be presented to any organisation at any time, any number of times or never,
    and a hub_ack (which carries no signature) may arrive at will. Signatures and encryption are
    ideal: an envelope verifies only if its sender signed that very text, and a body opens only
    for the organisations and nonce it was sealed for.

    A message may be sent by more than one coroutine: retries start new ones, with addressee and
    identity numbers read afresh, and so does a call of the service that found no row under its
    idempotency key, lost the race to insert one, and goes on with the row that won. */
module CrossOrgDelivery {
  import opened Options
  import opened Text
  import opened Envelopes

  const MAX_RETRY := 5

  datatype Status = Queued | Pending | Sent | HubAcked | Delivered | Failed | Dead

  /** A message row: the organisation it belongs to and the payload it was written with. */
  datatype Content = Content(from: string, payload: string)

  /** Where one attempt goes and the identity numbers it carries. */
  datatype Route = Route(to: string, fromAin: string, toAin: string)

  /** One call's wish to send this payload as this message. */
  datatype Offer = Offer(mid: string, payload: string)

  datatype Delivery = Delivery(status: Status, retries: nat)

  /** Where a send coroutine stands between two awaits; at last it has written that the message is
      delivered, and the call that wrote it has yet to return. */
  datatype Phase =
    | Started
    | Preparing
    | Transmitted(nonce: string)
    | SentMarked(nonce: string)
    | WaitingHub(nonce: string)
    | HubMarked(nonce: string)
    | WaitingEnd(nonce: string)
    | Written

  datatype Task = Task(mid: string, route: Route, payload: string, phase: Phase)

  datatype AckKind = Hub | End
  datatype Waiter = Waiter(org: string, nonce: string, kind: AckKind)

  datatype Item = Item(mid: string, retries: nat)
  datatype Sweep = Sweep(org: string, items: seq<Item>, current: Option<nat>)

  /** What one sealed body opens to, and for whom. */
  datatype Plain = Plain(from: string, to: string, nonce: string, payload: string)

  datatype HandlerPhase = Checking | Inserting | Settled
  datatype Handler = Handler(org: string, env: Envelope, payload: string, phase: HandlerPhase)

  /** A stored incoming message: who holds it, under which key, from whom and for whom it is. */
  datatype Row = Row(org: string, key: string, fromAin: string, toAin: string, payload: string)

  /** The part of the state that only grows. */
  datatype World = World(
    messages: map<string, Content>,
    offers: set<Offer>,
    signed: set<Envelope>,
    sealed: map<string, Plain>,
    stored: seq<Row>)

  datatype State = State(
    world: World,
    delivery: map<string, Delivery>,
    tasks: map<nat, Task>,
    waiters: map<Waiter, bool>,
    sweeps: map<nat, Sweep>,
    handlers: map<nat, Handler>,
    log: seq<string>,
    nextId: nat)

  const EMPTY_WORLD := World(map[], {}, {}, map[], [])
  const INIT := State(EMPTY_WORLD, map[], map[], map[], map[], map[], [], 0)

  datatype Step =
    | Send(mid: string, content: Content, route: Route)
    | SendAgain(mid: string, payload: string, route: Route)
    | MarkPending(tid: nat)
    | Transmit(tid: nat, nonce: string, body: string, ts: string, seqNo: string)
    | MarkSent(tid: nat)
    | AwaitHub(tid: nat)
    | MarkHubAcked(tid: nat)
    | AwaitEnd(tid: nat)
    | MarkDelivered(tid: nat)
    | Conclude(tid: nat)
    | Fail(tid: nat)
    | Abort(tid: nat)
    | HubAckArrives(org: string, nonce: string)
    | EndAckArrives(org: string, env: Envelope)
    | Receive(org: string, env: Envelope)
    | Select(hid: nat)
    | Insert(hid: nat)
    | Acknowledge(hid: nat, ts: string)
    | DropHandler(hid: nat)
    | BeginSweep(org: string, items: seq<Item>)
    | SweepNext(sid: nat, target: Option<Route>)
    | SweepResume(sid: nat)
    | EndSweep(sid: nat)

  // ---- vocabulary ----------------------------------------------------------------

  function MsgEnvelope(from: string, t: Task, nonce: string, ts: string, body: string, seqNo: string): Envelope {
    Envelope("1", "msg", from, t.route.to, t.route.fromAin, t.route.toAin, nonce, ts, body, t.mid, seqNo)
  }

  const EMPTY_BODY := "e30="

  function AckEnvelope(org: string, e: Envelope, ts: string): Envelope {
    Envelope("1", "end_ack", org, e.fromOrg, e.toAin, e.fromAin, e.nonce, ts, EMPTY_BODY, "", "0")
  }

  /** The idempotency key: the message id when there is one, else the nonce. */
  function Key(e: Envelope): string {
    if e.msgId != "" then "msg:" + e.msgId else "org:" + e.nonce
  }

  predicate HasRow(stored: seq<Row>, org: string, key: string) {
    exists i :: 0 <= i < |stored| && stored[i].org == org && stored[i].key == key
  }

  predicate IsMsg(w: World, e: Envelope) {
    e in w.signed && e.kind == "msg"
  }

  predicate NonceUsed(w: World, nonce: string) {
    exists e :: e in w.signed && e.nonce == nonce
  }

  function CountIn(log: seq<string>, mid: string): nat {
    if log == [] then 0
    else CountIn(log[..|log| - 1], mid) + (if log[|log| - 1] == mid then 1 else 0)
  }

  lemma CountPush(log: seq<string>, mid: string, m: string)
    ensures CountIn(log + [mid], m) == CountIn(log, m) + (if m == mid then 1 else 0)
  {
    assert (log + [mid])[..|log|] == log;
  }

  predicate Unsent(p: Phase) {
    p.Started? || p.Preparing?
  }

  function Without<K, V>(m: map<K, V>, k: K): map<K, V> {
    m - {k}
  }

  function SetStatus(d: map<string, Delivery>, mid: string, st: Status): map<string, Delivery> {
    if mid in d then d[mid := d[mid].(status := st)] else d
  }

  function SetRetries(d: map<string, Delivery>, mid: string, n: nat): map<string, Delivery> {
    if mid in d then d[mid := d[mid].(retries := n)] else d
  }

  function OrgOf(s: State, t: Task): string {
    FromOf(s, t.mid)
  }

  /** The organisation whose row the message is. */
  function FromOf(s: State, mid: string): string {
    if mid in s.world.messages then s.world.messages[mid].from else ""
  }

  /** The payload a retry reads from the row. */
  function PayloadOf(s: State, mid: string): string {
    if mid in s.world.messages then s.world.messages[mid].payload else ""
  }

  // ---- the steps -----------------------------------------------------------------

  ghost predicate Enabled(s: State, step: Step) {
    match step
    case Send(mid, c, route) =>
      mid != "" && mid !in s.world.messages && mid !in s.delivery
    // the look-up came before the row, the insert after it
    case SendAgain(mid, payload, route) => mid in s.world.messages && mid in s.delivery
    case MarkPending(tid) => tid in s.tasks && s.tasks[tid].phase == Started
    case Transmit(tid, nonce, body, ts, seqNo) =>
      && tid in s.tasks && s.tasks[tid].phase == Preparing
      && s.tasks[tid].mid in s.world.messages
      // 96 random bits and a one-time key: neither the nonce nor the body has been seen before
      && !NonceUsed(s.world, nonce) && body !in s.world.sealed
      && SepFree(MsgEnvelope(OrgOf(s, s.tasks[tid]), s.tasks[tid], nonce, ts, body, seqNo))
    case MarkSent(tid) => tid in s.tasks && s.tasks[tid].phase.Transmitted?
    case AwaitHub(tid) => tid in s.tasks && s.tasks[tid].phase.SentMarked?
    case MarkHubAcked(tid) =>
      && tid in s.tasks && s.tasks[tid].phase.WaitingHub?
      && var w := Waiter(OrgOf(s, s.tasks[tid]), s.tasks[tid].phase.nonce, Hub);
         w in s.waiters && s.waiters[w]
    case AwaitEnd(tid) => tid in s.tasks && s.tasks[tid].phase.HubMarked?
    case MarkDelivered(tid) =>
      && tid in s.tasks && s.tasks[tid].phase.WaitingEnd?
      && var w := Waiter(OrgOf(s, s.tasks[tid]), s.tasks[tid].phase.nonce, End);
         w in s.waiters && s.waiters[w]
    case Conclude(tid) => tid in s.tasks && s.tasks[tid].phase == Written
    // no key, a refused send, a missing ack or any exception
    case Fail(tid) => tid in s.tasks
    // the process or the database dies before the failure can be written
    case Abort(tid) => tid in s.tasks
    case HubAckArrives(org, nonce) => Waiter(org, nonce, Hub) in s.waiters
    case EndAckArrives(org, env) =>
      env.kind == "end_ack" && Verified(s.world.signed, env) && Waiter(org, env.nonce, End) in s.waiters
    case Receive(org, env) =>
      && env.kind != "end_ack" && SchemaOk(env) && org != "" && env.fromOrg != org
      && Verified(s.world.signed, env)
      && env.body in s.world.sealed
      && var p := s.world.sealed[env.body];
         p.from == env.fromOrg && p.to == org && p.nonce == env.nonce
    case Select(hid) => hid in s.handlers && s.handlers[hid].phase == Checking
    case Insert(hid) => hid in s.handlers && s.handlers[hid].phase == Inserting
    case Acknowledge(hid, ts) =>
      && hid in s.handlers && s.handlers[hid].phase == Settled
      && Free(ts, SEP)
    case DropHandler(hid) => hid in s.handlers
    case BeginSweep(org, items) =>
      && (forall i :: 0 <= i < |items| ==>
            && items[i].mid in s.delivery && items[i].mid in s.world.messages
            && s.world.messages[items[i].mid].from == org
            && s.delivery[items[i].mid] == Delivery(Failed, items[i].retries)
            && items[i].retries < MAX_RETRY)
      && (forall i, j :: 0 <= i < j < |items| ==> items[i].mid != items[j].mid)
    case SweepNext(sid, target) =>
      sid in s.sweeps && s.sweeps[sid].current == None && s.sweeps[sid].items != []
    case SweepResume(sid) =>
      && sid in s.sweeps && s.sweeps[sid].current.Some?
      && s.sweeps[sid].current.value !in s.tasks
    case EndSweep(sid) => sid in s.sweeps && s.sweeps[sid].current == None
  }

  function SetPhase(s: State, tid: nat, p: Phase): State
    requires tid in s.tasks
  {
    s.(tasks := s.tasks[tid := s.tasks[tid].(phase := p)])
  }

  function StartTask(s: State, mid: string, route: Route, payload: string): State {
    s.(tasks := s.tasks[s.nextId := Task(mid, route, payload, Started)], nextId := s.nextId + 1)
  }

  ghost function Apply(s: State, step: Step): State
    requires Enabled(s, step)
  {
    match step
    case Send(mid, c, route) =>
      StartTask(s.(world := s.world.(messages := s.world.messages[mid := c],
                                     offers := s.world.offers + {Offer(mid, c.payload)}),
                   delivery := s.delivery[mid := Delivery(Queued, 0)]),
                mid, route, c.payload)
    case SendAgain(mid, payload, route) =>
      StartTask(s.(world := s.world.(offers := s.world.offers + {Offer(mid, payload)})), mid, route, payload)
    case MarkPending(tid) =>
      SetPhase(s, tid, Preparing).(delivery := SetStatus(s.delivery, s.tasks[tid].mid, Pending))
    case Transmit(tid, nonce, body, ts, seqNo) =>
      PutOnWire(s, tid, nonce, body, ts, seqNo)
    case MarkSent(tid) =>
      SetPhase(s, tid, SentMarked(s.tasks[tid].phase.nonce)).(
        delivery := SetStatus(s.delivery, s.tasks[tid].mid, Sent))
    case AwaitHub(tid) =>
      var n := s.tasks[tid].phase.nonce;
      SetPhase(s, tid, WaitingHub(n)).(waiters := s.waiters[Waiter(OrgOf(s, s.tasks[tid]), n, Hub) := false])
    case MarkHubAcked(tid) =>
      var n := s.tasks[tid].phase.nonce;
      SetPhase(s, tid, HubMarked(n)).(
        waiters := Without(s.waiters, Waiter(OrgOf(s, s.tasks[tid]), n, Hub)),
        delivery := SetStatus(s.delivery, s.tasks[tid].mid, HubAcked))
    case AwaitEnd(tid) =>
      var n := s.tasks[tid].phase.nonce;
      SetPhase(s, tid, WaitingEnd(n)).(waiters := s.waiters[Waiter(OrgOf(s, s.tasks[tid]), n, End) := false])
    case MarkDelivered(tid) =>
      var n := s.tasks[tid].phase.nonce;
      SetPhase(s, tid, Written).(
        waiters := Without(s.waiters, Waiter(OrgOf(s, s.tasks[tid]), n, End)),
        delivery := SetStatus(s.delivery, s.tasks[tid].mid, Delivered))
    case Conclude(tid) => DropTask(s, tid)
    case Fail(tid) =>
      DropTask(s, tid).(delivery := SetStatus(s.delivery, s.tasks[tid].mid, Failed))
    case Abort(tid) => DropTask(s, tid)
    case HubAckArrives(org, nonce) => s.(waiters := s.waiters[Waiter(org, nonce, Hub) := true])
    case EndAckArrives(org, env) => s.(waiters := s.waiters[Waiter(org, env.nonce, End) := true])
    case Receive(org, env) =>
      Open(s, org, env)
    case Select(hid) =>
      LookUp(s, hid)
    case Insert(hid) =>
      StoreRow(s, hid)
    case Acknowledge(hid, ts) =>
      SignAck(s, hid, ts)
    case DropHandler(hid) => s.(handlers := Without(s.handlers, hid))
    case BeginSweep(org, items) =>
      s.(sweeps := s.sweeps[s.nextId := Sweep(org, items, None)], nextId := s.nextId + 1)
    case SweepNext(sid, target) =>
      ProcessItem(s, sid, target)
    case SweepResume(sid) => s.(sweeps := s.sweeps[sid := s.sweeps[sid].(current := None)])
    case EndSweep(sid) => s.(sweeps := Without(s.sweeps, sid))
  }

  /** The envelope is signed and handed to the hub connection; the network owns it from here. */
  function PutOnWire(s: State, tid: nat, nonce: string, body: string, ts: string, seqNo: string): State
    requires tid in s.tasks && s.tasks[tid].mid in s.world.messages
  {
    var t := s.tasks[tid];
    SetPhase(s, tid, Transmitted(nonce)).(
      world := s.world.(
        signed := s.world.signed + {MsgEnvelope(OrgOf(s, t), t, nonce, ts, body, seqNo)},
        sealed := s.world.sealed[body := Plain(OrgOf(s, t), t.route.to, nonce, t.payload)]),
      log := s.log + [t.mid])
  }

  /** The envelope passed every check and its body opened. */
  function Open(s: State, org: string, env: Envelope): State
    requires env.body in s.world.sealed
  {
    s.(handlers := s.handlers[s.nextId := Handler(org, env, s.world.sealed[env.body].payload, Checking)],
       nextId := s.nextId + 1)
  }

  function LookUp(s: State, hid: nat): State
    requires hid in s.handlers
  {
    var h := s.handlers[hid];
    var found := HasRow(s.world.stored, h.org, Key(h.env));
    s.(handlers := s.handlers[hid := h.(phase := if found then Settled else Inserting)])
  }

  function StoreRow(s: State, hid: nat): State
    requires hid in s.handlers
  {
    var h := s.handlers[hid];
    // the unique index turns a second insert under the same key into a no-op
    var conflict := HasRow(s.world.stored, h.org, Key(h.env));
    var row := Row(h.org, Key(h.env), h.env.fromAin, h.env.toAin, h.payload);
    s.(world := if conflict then s.world else s.world.(stored := s.world.stored + [row]),
       handlers := s.handlers[hid := h.(phase := Settled)])
  }

  function SignAck(s: State, hid: nat, ts: string): State
    requires hid in s.handlers
  {
    var h := s.handlers[hid];
    s.(world := s.world.(signed := s.world.signed + {AckEnvelope(h.org, h.env, ts)}),
       handlers := Without(s.handlers, hid))
  }

  function Head(s: State, sid: nat): Item
    requires sid in s.sweeps && s.sweeps[sid].items != []
  {
    s.sweeps[sid].items[0]
  }

  function DropHead(s: State, sid: nat, current: Option<nat>): State
    requires sid in s.sweeps && s.sweeps[sid].items != []
  {
    s.(sweeps := s.sweeps[sid := s.sweeps[sid].(items := s.sweeps[sid].items[1..], current := current)])
  }

  function Bury(s: State, sid: nat): State
    requires sid in s.sweeps && s.sweeps[sid].items != []
  {
    DropHead(s, sid, s.sweeps[sid].current).(delivery := SetStatus(s.delivery, Head(s, sid).mid, Dead))
  }

  /** The count written back is the snapshot's, not the row's. */
  function Bump(s: State, sid: nat): State
    requires sid in s.sweeps && s.sweeps[sid].items != []
  {
    DropHead(s, sid, s.sweeps[sid].current).(
      delivery := SetRetries(s.delivery, Head(s, sid).mid, Head(s, sid).retries + 1))
  }

  function Resend(s: State, sid: nat, route: Route): State
    requires sid in s.sweeps && s.sweeps[sid].items != []
  {
    var mid := Head(s, sid).mid;
    DropHead(StartTask(s, mid, route, PayloadOf(s, mid)), sid, Some(s.nextId)).(
      delivery := SetRetries(s.delivery, mid, Head(s, sid).retries + 1))
  }

  predicate Resends(s: State, sid: nat, target: Option<Route>)
    requires sid in s.sweeps && s.sweeps[sid].items != []
  {
    Head(s, sid).retries + 1 < MAX_RETRY && target.Some? && target.value.to != s.sweeps[sid].org
  }

  /** One row of a sweep: its snapshot count decides between dead, a bare bump and a new send. */
  function ProcessItem(s: State, sid: nat, target: Option<Route>): State
    requires sid in s.sweeps && s.sweeps[sid].items != []
  {
    if Head(s, sid).retries + 1 >= MAX_RETRY then Bury(s, sid)
    else if Resends(s, sid, target) then Resend(s, sid, target.value)
    else Bump(s, sid)
  }

  /** A coroutine that ends while waiting takes its waiter out of the table. */
  function DropTask(s: State, tid: nat): State
    requires tid in s.tasks
  {
    var t := s.tasks[tid];
    s.(tasks := Without(s.tasks, tid),
       waiters := match t.phase
                  case WaitingHub(n) => Without(s.waiters, Waiter(OrgOf(s, t), n, Hub))
                  case WaitingEnd(n) => Without(s.waiters, Waiter(OrgOf(s, t), n, End))
                  case _ => s.waiters)
  }

  /** The sender's side is as it was. */
  ghost predicate SenderSame(s: State, s': State) {
    && s'.tasks == s.tasks && s'.sweeps == s.sweeps && s'.delivery == s.delivery && s'.log == s.log
    && s'.world.messages == s.world.messages && s'.nextId >= s.nextId
  }

  predicate ReceiverStep(step: Step) {
    || step.Receive? || step.Select? || step.Insert? || step.Acknowledge? || step.DropHandler?
    || step.HubAckArrives? || step.EndAckArrives?
  }

  lemma ReceiverLeavesSender(s: State, step: Step)
    requires Enabled(s, step) && ReceiverStep(step)
    ensures SenderSame(s, Apply(s, step))
  {
  }

  predicate MarkStep(step: Step) {
    || step.MarkPending? || step.MarkSent? || step.AwaitHub? || step.MarkHubAcked? || step.AwaitEnd?
    || step.MarkDelivered?
  }

  /** One coroutine moved on, on the same side of its sending; no count changed. */
  ghost predicate PhaseMoved(s: State, s': State, tid: nat) {
    && tid in s.tasks && tid in s'.tasks
    && s'.tasks == s.tasks[tid := s.tasks[tid].(phase := s'.tasks[tid].phase)]
    && (Unsent(s'.tasks[tid].phase) <==> Unsent(s.tasks[tid].phase))
    && s'.world == s.world && s'.sweeps == s.sweeps && s'.log == s.log && s'.nextId == s.nextId
    && OneRestated(s, s', s.tasks[tid].mid)
  }

  /** At most the status of `mid` changed. */
  ghost predicate OneRestated(s: State, s': State, mid: string) {
    && s'.delivery.Keys == s.delivery.Keys
    && (forall m :: m in s.delivery ==> s'.delivery[m].retries == s.delivery[m].retries)
    && (forall m :: m in s.delivery && m != mid ==> s'.delivery[m] == s.delivery[m])
  }

  lemma MarkMoves(s: State, step: Step)
    requires Enabled(s, step) && MarkStep(step)
    ensures PhaseMoved(s, Apply(s, step), step.tid)
  {
  }

  predicate FinishStep(step: Step) {
    step.Conclude? || step.Fail? || step.Abort?
  }

  /** One coroutine ended; no count changed. */
  ghost predicate Finished(s: State, s': State, tid: nat) {
    && tid in s.tasks && s'.tasks == Without(s.tasks, tid)
    && s'.world == s.world && s'.sweeps == s.sweeps && s'.log == s.log && s'.nextId == s.nextId
    && OneRestated(s, s', s.tasks[tid].mid)
  }

  lemma FinishEnds(s: State, step: Step)
    requires Enabled(s, step) && FinishStep(step)
    ensures Finished(s, Apply(s, step), step.tid)
  {
  }

  /** Only the sweeps changed. */
  ghost predicate SweepsOnly(s: State, s': State) {
    && s'.tasks == s.tasks && s'.delivery == s.delivery && s'.log == s.log
    && s'.world == s.world && s'.handlers == s.handlers && s'.waiters == s.waiters && s'.nextId >= s.nextId
  }

  lemma BeginApplies(s: State, step: Step)
    requires Enabled(s, step) && step.BeginSweep?
    ensures Apply(s, step)
            == s.(sweeps := s.sweeps[s.nextId := Sweep(step.org, step.items, None)], nextId := s.nextId + 1)
  {
  }

  lemma SweepStepApplies(s: State, step: Step)
    requires Enabled(s, step) && (step.SweepResume? || step.EndSweep?)
    ensures SweepsOnly(s, Apply(s, step)) && step.sid in s.sweeps && Apply(s, step).nextId == s.nextId
    ensures s.sweeps[step.sid].current.Some? ==> s.sweeps[step.sid].current.value !in s.tasks
    ensures var sweeps := Apply(s, step).sweeps;
            || sweeps == Without(s.sweeps, step.sid)
            || sweeps == s.sweeps[step.sid := s.sweeps[step.sid].(current := None)]
  {
  }

  // ---- runs ------------------------------------------------------------------------

  /** No other sweep of the organisation is active. */
  predicate NoSweepOf(s: State, org: string) {
    forall k :: k in s.sweeps ==> s.sweeps[k].org != org
  }

  /** The database commits that the message is delivered and then reports an error, so that the
      coroutine goes on to write that it failed. */
  predicate FailsLate(s: State, tid: nat) {
    tid in s.tasks && s.tasks[tid].phase == Written
  }

  /** An orderly step starts no sweep while one of the same organisation is active, is no second
      send of a message that another call has just inserted, and no late failure. */
  ghost predicate Orderly(s: State, step: Step) {
    && !step.SendAgain?
    && (step.BeginSweep? ==> NoSweepOf(s, step.org))
    && (step.Fail? ==> !FailsLate(s, step.tid))
  }

  ghost predicate Allowed(s: State, step: Step, orderly: bool) {
    Enabled(s, step) && (orderly ==> Orderly(s, step))
  }

  /** The state after a run. A step that is not enabled is skipped; with `orderly`, so is one that
      is not orderly. */
  ghost function Exec(steps: seq<Step>, orderly: bool): State {
    if steps == [] then INIT
    else
      var s := Exec(steps[..|steps| - 1], orderly);
      var step := steps[|steps| - 1];
      if Allowed(s, step, orderly) then Apply(s, step) else s
  }
}
