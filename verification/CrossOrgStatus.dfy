/** The status graph and the retry bound, for orderly runs: no organisation has two retry sweeps
    active at once, no message is sent again by a call that lost the race to insert it, and no
    delivered message is marked failed because the database reports an error after the commit. When
    a final status can be left at all is shown behind the theorems, for every state. */
module CrossOrgStatus {
  import opened Options
  import opened CrossOrgDelivery

  predicate Edge(a: Status, b: Status) {
    || (a == Queued && b == Pending)
    || (a == Pending && b == Sent)
    || (a == Sent && b == HubAcked)
    || (a == HubAcked && b == Delivered)
    || (a in {Queued, Pending, Sent, HubAcked} && b == Failed)
    || (a == Failed && b in {Pending, Dead})
  }

  predicate Final(a: Status) {
    a == Delivered || a == Dead
  }

  // ---- the invariant of orderly runs --------------------------------------------------

  predicate Fits(p: Phase, st: Status) {
    match p
    case Started => st in {Queued, Failed}
    case Preparing => st == Pending
    case Transmitted(_) => st == Pending
    case SentMarked(_) => st == Sent
    case WaitingHub(_) => st == Sent
    case HubMarked(_) => st == HubAcked
    case WaitingEnd(_) => st == HubAcked
    case Written => st == Delivered
  }

  /** Ids come from one counter; an organisation has at most one sweep, and it holds and awaits
      only messages of its own. */
  ghost predicate Ids(s: State) {
    && (forall t :: t in s.tasks ==> t < s.nextId && s.tasks[t].mid in s.world.messages)
    && (forall k :: k in s.sweeps ==> k < s.nextId && SweepOk(s, s.sweeps[k]))
    && (forall k, l :: k in s.sweeps && l in s.sweeps && s.sweeps[k].org == s.sweeps[l].org ==> k == l)
  }

  ghost predicate SweepOk(s: State, w: Sweep) {
    && (forall i :: 0 <= i < |w.items| ==> w.items[i].mid in s.world.messages && FromOf(s, w.items[i].mid) == w.org)
    && (w.current.Some? && w.current.value in s.tasks ==> FromOf(s, s.tasks[w.current.value].mid) == w.org)
    && (w.current.Some? ==> w.current.value < s.nextId)
  }

  // ---- identifiers and owners ------------------------------------------------------------

  /** Messages, once there, keep their organisation. */
  ghost predicate SameOwners(s: State, s': State) {
    && s.nextId <= s'.nextId
    && (forall m :: m in s.world.messages ==> m in s'.world.messages && FromOf(s', m) == FromOf(s, m))
  }

  lemma TasksMoved(s: State, s': State)
    requires Ids(s) && SameOwners(s, s') && s'.sweeps == s.sweeps
    requires forall t :: t in s'.tasks && t in s.tasks ==> s'.tasks[t].mid == s.tasks[t].mid
    requires forall t :: t in s'.tasks && t !in s.tasks ==>
               t == s.nextId < s'.nextId && s'.tasks[t].mid in s'.world.messages
    ensures Ids(s')
  {
    forall k | k in s'.sweeps ensures SweepOk(s', s'.sweeps[k]) {
      assert SweepOk(s, s.sweeps[k]);
    }
  }

  lemma SweepMoved(s: State, s': State, sid: nat, w: Sweep)
    requires Ids(s) && s'.world == s.world && s'.tasks == s.tasks && s'.nextId >= s.nextId
    requires s'.sweeps == s.sweeps[sid := w] && sid < s'.nextId && SweepOk(s', w)
    requires forall k :: k in s.sweeps && s.sweeps[k].org == w.org ==> k == sid
    ensures Ids(s')
  {
    forall k | k in s'.sweeps ensures SweepOk(s', s'.sweeps[k]) {
      assert k != sid ==> SweepOk(s, s.sweeps[k]);
    }
  }

  lemma BeginIds(s: State, org: string, items: seq<Item>)
    requires Ids(s) && NoSweepOf(s, org)
    requires forall i :: 0 <= i < |items| ==> items[i].mid in s.world.messages && FromOf(s, items[i].mid) == org
    ensures Ids(s.(sweeps := s.sweeps[s.nextId := Sweep(org, items, None)], nextId := s.nextId + 1))
  {
    var w := Sweep(org, items, None);
    SweepMoved(s, s.(sweeps := s.sweeps[s.nextId := w], nextId := s.nextId + 1), s.nextId, w);
  }

  lemma ResumeIds(s: State, sid: nat)
    requires Ids(s) && sid in s.sweeps
    ensures Ids(s.(sweeps := s.sweeps[sid := s.sweeps[sid].(current := None)]))
  {
    var w := s.sweeps[sid].(current := None);
    assert SweepOk(s, s.sweeps[sid]);
    SweepMoved(s, s.(sweeps := s.sweeps[sid := w]), sid, w);
  }

  lemma EndIds(s: State, sid: nat)
    requires Ids(s)
    ensures Ids(s.(sweeps := Without(s.sweeps, sid)))
  {
    var s' := s.(sweeps := Without(s.sweeps, sid));
    forall k | k in s'.sweeps ensures SweepOk(s', s'.sweeps[k]) {
      assert SweepOk(s, s.sweeps[k]);
    }
  }

  lemma DropHeadIds(s: State, sid: nat, current: Option<nat>)
    requires Ids(s) && sid in s.sweeps && s.sweeps[sid].items != []
    requires current == s.sweeps[sid].current
             || (current.Some? && current.value in s.tasks && s.tasks[current.value].mid == Head(s, sid).mid)
    ensures Ids(DropHead(s, sid, current))
  {
    var w := s.sweeps[sid];
    assert SweepOk(s, w);
    assert forall i :: 0 <= i < |w.items[1..]| ==> w.items[1..][i] == w.items[i + 1];
    assert w.items[0] == Head(s, sid);
    SweepMoved(s, DropHead(s, sid, current), sid, w.(items := w.items[1..], current := current));
  }

  lemma IdsIgnoreDelivery(s: State, d: map<string, Delivery>)
    requires Ids(s)
    ensures Ids(s.(delivery := d))
  {
    var s' := s.(delivery := d);
    forall k | k in s'.sweeps ensures SweepOk(s', s'.sweeps[k]) {
      assert SweepOk(s, s.sweeps[k]);
    }
  }

  lemma StartIds(s: State, mid: string, route: Route, payload: string)
    requires Ids(s) && mid in s.world.messages
    ensures Ids(StartTask(s, mid, route, payload))
  {
    TasksMoved(s, StartTask(s, mid, route, payload));
  }

  lemma ResendIds(s: State, sid: nat, route: Route)
    requires Ids(s) && sid in s.sweeps && s.sweeps[sid].items != []
    ensures Ids(Resend(s, sid, route))
  {
    var mid := Head(s, sid).mid;
    assert SweepOk(s, s.sweeps[sid]);
    var started := StartTask(s, mid, route, PayloadOf(s, mid));
    StartIds(s, mid, route, PayloadOf(s, mid));
    DropHeadIds(started, sid, Some(s.nextId));
    IdsIgnoreDelivery(DropHead(started, sid, Some(s.nextId)), Resend(s, sid, route).delivery);
  }

  lemma ProcessItemIds(s: State, sid: nat, target: Option<Route>)
    requires Ids(s) && sid in s.sweeps && s.sweeps[sid].items != []
    ensures Ids(ProcessItem(s, sid, target))
  {
    var dropped := DropHead(s, sid, s.sweeps[sid].current);
    DropHeadIds(s, sid, s.sweeps[sid].current);
    IdsIgnoreDelivery(dropped, Bury(s, sid).delivery);
    IdsIgnoreDelivery(dropped, Bump(s, sid).delivery);
    if Resends(s, sid, target) {
      ResendIds(s, sid, target.value);
    }
  }

  lemma SweepStepIds(s: State, step: Step)
    requires Ids(s) && Allowed(s, step, true)
    requires step.BeginSweep? || step.SweepNext? || step.SweepResume? || step.EndSweep?
    ensures Ids(Apply(s, step))
  {
    if step.BeginSweep? {
      BeginIds(s, step.org, step.items);
    } else if step.SweepNext? {
      ProcessItemIds(s, step.sid, step.target);
    } else if step.SweepResume? {
      ResumeIds(s, step.sid);
    } else {
      EndIds(s, step.sid);
    }
  }

  lemma SenderSameIds(s: State, s': State)
    requires Ids(s) && SenderSame(s, s')
    ensures Ids(s')
  {
    TasksMoved(s, s');
  }

  lemma ReceiverStepIds(s: State, step: Step)
    requires Ids(s) && Enabled(s, step) && ReceiverStep(step)
    ensures Ids(Apply(s, step))
  {
    ReceiverLeavesSender(s, step);
    SenderSameIds(s, Apply(s, step));
  }

  lemma MarkStepIds(s: State, step: Step)
    requires Ids(s) && Enabled(s, step) && MarkStep(step)
    ensures Ids(Apply(s, step))
  {
    MarkMoves(s, step);
    PhaseMovedIds(s, Apply(s, step), step.tid);
  }

  lemma PhaseMovedIds(s: State, s': State, tid: nat)
    requires Ids(s) && PhaseMoved(s, s', tid)
    ensures Ids(s')
  {
    TasksMoved(s, s');
  }

  lemma FinishStepIds(s: State, step: Step)
    requires Ids(s) && Enabled(s, step)
    requires step.Transmit? || FinishStep(step)
    ensures Ids(Apply(s, step))
  {
    hide Ids;
    if step.Transmit? {
      TransmitIds(s, step.tid, step.nonce, step.body, step.ts, step.seqNo);
    } else {
      FinishEnds(s, step);
      FinishedIds(s, Apply(s, step), step.tid);
    }
  }

  lemma TransmitIds(s: State, tid: nat, nonce: string, body: string, ts: string, seqNo: string)
    requires Ids(s) && tid in s.tasks && s.tasks[tid].mid in s.world.messages
    ensures Ids(PutOnWire(s, tid, nonce, body, ts, seqNo))
  {
    TasksMoved(s, PutOnWire(s, tid, nonce, body, ts, seqNo));
  }

  lemma FinishedIds(s: State, s': State, tid: nat)
    requires Ids(s) && Finished(s, s', tid)
    ensures Ids(s')
  {
    TasksMoved(s, s');
  }

  lemma SendStepIds(s: State, step: Step)
    requires Ids(s) && Enabled(s, step) && step.Send?
    ensures Ids(Apply(s, step))
  {
    TasksMoved(s, Apply(s, step));
  }

  lemma StepKeepsIds(s: State, step: Step)
    requires Ids(s) && Allowed(s, step, true)
    ensures Ids(Apply(s, step))
  {
    if step.BeginSweep? || step.SweepNext? || step.SweepResume? || step.EndSweep? {
      SweepStepIds(s, step);
    } else if MarkStep(step) {
      MarkStepIds(s, step);
    } else if step.Transmit? || FinishStep(step) {
      FinishStepIds(s, step);
    } else if step.Send? {
      SendStepIds(s, step);
    } else {
      ReceiverStepIds(s, step);
    }
  }

  // ---- one message -----------------------------------------------------------------------

  predicate Owns(s: State, t: nat, m: string) {
    t in s.tasks && s.tasks[t].mid == m
  }

  /** A retry is awaited by the sweep that started it. */
  ghost predicate Awaited(s: State, t: nat) {
    exists k :: k in s.sweeps && s.sweeps[k].current == Some(t)
  }

  /** At most one coroutine works on the message, in step with its status. */
  ghost predicate TaskInv(s: State, m: string) {
    && (forall t, u :: Owns(s, t, m) && Owns(s, u, m) ==> t == u)
    && (forall t :: Owns(s, t, m) ==>
          && m in s.delivery && Fits(s.tasks[t].phase, s.delivery[m].status)
          && (Unsent(s.tasks[t].phase) ==> CountIn(s.log, m) <= s.delivery[m].retries)
          && (s.tasks[t].phase.Started? && s.delivery[m].status == Failed ==> Awaited(s, t)))
  }

  /** A sweep still to process the message holds its current count, and nothing else works on it. */
  ghost predicate ItemInv(s: State, m: string) {
    forall k, i :: k in s.sweeps && 0 <= i < |s.sweeps[k].items| && s.sweeps[k].items[i].mid == m ==>
      && m in s.delivery && s.delivery[m] == Delivery(Failed, s.sweeps[k].items[i].retries)
      && (forall t :: !Owns(s, t, m))
      && (forall j :: 0 <= j < |s.sweeps[k].items| && s.sweeps[k].items[j].mid == m ==> i == j)
  }

  /** Transmissions never outnumber the retries by more than the first send. */
  ghost predicate CountInv(s: State, m: string) {
    if m in s.delivery
    then s.delivery[m].retries < MAX_RETRY && CountIn(s.log, m) <= s.delivery[m].retries + 1
    else CountIn(s.log, m) == 0
  }

  ghost predicate MsgInv(s: State, m: string) {
    TaskInv(s, m) && ItemInv(s, m) && CountInv(s, m)
  }

  ghost predicate Inv(s: State, m: string) {
    Ids(s) && MsgInv(s, m)
  }

  ghost predicate Follows(s: State, s': State, m: string) {
    m in s.delivery ==>
      && m in s'.delivery
      && (s'.delivery[m].status == s.delivery[m].status || Edge(s.delivery[m].status, s'.delivery[m].status))
  }

  /** Nothing about the message itself changed. */
  ghost predicate Untouched(s: State, s': State, m: string) {
    && (forall t :: Owns(s', t, m) <==> Owns(s, t, m))
    && (forall t :: Owns(s, t, m) ==> s'.tasks[t] == s.tasks[t])
    && (m in s'.delivery <==> m in s.delivery)
    && (m in s.delivery ==> s'.delivery[m] == s.delivery[m])
    && CountIn(s'.log, m) == CountIn(s.log, m)
  }

  lemma UntouchedKeeps(s: State, s': State, m: string)
    requires MsgInv(s, m) && Untouched(s, s', m) && s'.sweeps == s.sweeps
    ensures MsgInv(s', m) && Follows(s, s', m)
  {
    assert TaskInv(s', m) by {
      forall t | Owns(s', t, m) && s'.tasks[t].phase.Started? && s'.delivery[m].status == Failed
        ensures Awaited(s', t)
      {
        assert Owns(s, t, m) && Awaited(s, t);
      }
    }
    assert ItemInv(s', m);
  }

  /** The message's own coroutine moved on. */
  lemma AdvanceKeeps(s: State, s': State, t: nat, p: Phase, d: Delivery, m: string)
    requires MsgInv(s, m) && Owns(s, t, m) && s'.sweeps == s.sweeps
    requires s'.tasks == s.tasks[t := s.tasks[t].(phase := p)] && s'.delivery == s.delivery[m := d]
    requires !p.Started? && Fits(p, d.status) && d.retries == s.delivery[m].retries
    requires d.status == s.delivery[m].status || Edge(s.delivery[m].status, d.status)
    requires CountIn(s'.log, m) <= d.retries + (if Unsent(p) then 0 else 1)
    ensures MsgInv(s', m) && Follows(s, s', m)
  {
    assert forall u :: Owns(s', u, m) ==> u == t by {
      forall u | Owns(s', u, m) ensures u == t {
        assert Owns(s, u, m);
      }
    }
    assert TaskInv(s', m);
    assert forall k, i :: k in s.sweeps && 0 <= i < |s.sweeps[k].items| ==> s.sweeps[k].items[i].mid != m;
    assert ItemInv(s', m);
  }

  /** The message's own coroutine ended. */
  lemma EndKeeps(s: State, s': State, t: nat, d: Delivery, m: string)
    requires MsgInv(s, m) && Owns(s, t, m) && s'.sweeps == s.sweeps
    requires s'.tasks == Without(s.tasks, t) && s'.delivery == s.delivery[m := d] && s'.log == s.log
    requires d.retries == s.delivery[m].retries
    requires d.status == s.delivery[m].status || Edge(s.delivery[m].status, d.status)
    ensures MsgInv(s', m) && Follows(s, s', m)
  {
    assert forall u :: !Owns(s', u, m) by {
      forall u | Owns(s', u, m) ensures false {
        assert Owns(s, u, m);
      }
    }
    assert forall k, i :: k in s.sweeps && 0 <= i < |s.sweeps[k].items| ==> s.sweeps[k].items[i].mid != m;
    assert ItemInv(s', m);
  }

  /** The status changes along the graph and fits the new phase, when it fitted the old one. */
  lemma MarkFits(s: State, step: Step)
    requires Enabled(s, step) && MarkStep(step) && s.tasks[step.tid].mid in s.delivery
    requires Fits(s.tasks[step.tid].phase, s.delivery[s.tasks[step.tid].mid].status)
    ensures var m, s' := s.tasks[step.tid].mid, Apply(s, step);
            && step.tid in s'.tasks && m in s'.delivery && !s'.tasks[step.tid].phase.Started?
            && Fits(s'.tasks[step.tid].phase, s'.delivery[m].status)
            && (s'.delivery[m].status == s.delivery[m].status || Edge(s.delivery[m].status, s'.delivery[m].status))
  {
  }

  lemma PhaseMovedElsewhere(s: State, s': State, tid: nat, m: string)
    requires PhaseMoved(s, s', tid) && s.tasks[tid].mid != m
    ensures Untouched(s, s', m)
  {
  }

  lemma OwnFits(s: State, tid: nat, m: string)
    requires TaskInv(s, m) && Owns(s, tid, m)
    ensures m in s.delivery && Fits(s.tasks[tid].phase, s.delivery[m].status)
    ensures Unsent(s.tasks[tid].phase) ==> CountIn(s.log, m) <= s.delivery[m].retries
  {
  }

  lemma MarkKeeps(s: State, step: Step, m: string)
    requires MsgInv(s, m) && Enabled(s, step) && MarkStep(step)
    ensures MsgInv(Apply(s, step), m) && Follows(s, Apply(s, step), m)
  {
    hide Apply, TaskInv, ItemInv, Fits, Edge;
    var s', tid := Apply(s, step), step.tid;
    MarkMoves(s, step);
    if s.tasks[tid].mid == m {
      OwnFits(s, tid, m);
      MarkFits(s, step);
      assert s'.delivery == s.delivery[m := s'.delivery[m]];
      AdvanceKeeps(s, s', tid, s'.tasks[tid].phase, s'.delivery[m], m);
    } else {
      PhaseMovedElsewhere(s, s', tid, m);
      UntouchedKeeps(s, s', m);
    }
  }

  lemma TransmitKeeps(s: State, tid: nat, nonce: string, body: string, ts: string, seqNo: string, m: string)
    requires MsgInv(s, m) && tid in s.tasks && s.tasks[tid].phase == Preparing && s.tasks[tid].mid in s.world.messages
    ensures var s' := PutOnWire(s, tid, nonce, body, ts, seqNo); MsgInv(s', m) && Follows(s, s', m)
  {
    var s' := PutOnWire(s, tid, nonce, body, ts, seqNo);
    CountPush(s.log, s.tasks[tid].mid, m);
    if s.tasks[tid].mid == m {
      assert Owns(s, tid, m);
      AdvanceKeeps(s, s', tid, Transmitted(nonce), s.delivery[m], m);
    } else {
      UntouchedKeeps(s, s', m);
    }
  }

  lemma FinishFits(s: State, step: Step)
    requires Allowed(s, step, true) && FinishStep(step) && s.tasks[step.tid].mid in s.delivery
    requires Fits(s.tasks[step.tid].phase, s.delivery[s.tasks[step.tid].mid].status)
    ensures var m, s' := s.tasks[step.tid].mid, Apply(s, step);
            && m in s'.delivery
            && (s'.delivery[m].status == s.delivery[m].status || Edge(s.delivery[m].status, s'.delivery[m].status))
  {
  }

  lemma FinishedElsewhere(s: State, s': State, tid: nat, m: string)
    requires Finished(s, s', tid) && s.tasks[tid].mid != m
    ensures Untouched(s, s', m)
  {
  }

  lemma FinishKeeps(s: State, step: Step, m: string)
    requires MsgInv(s, m) && Allowed(s, step, true) && FinishStep(step)
    ensures MsgInv(Apply(s, step), m) && Follows(s, Apply(s, step), m)
  {
    hide Apply, TaskInv, ItemInv, Fits, Edge;
    var s', tid := Apply(s, step), step.tid;
    FinishEnds(s, step);
    if s.tasks[tid].mid == m {
      OwnFits(s, tid, m);
      FinishFits(s, step);
      assert s'.delivery == s.delivery[m := s'.delivery[m]];
      EndKeeps(s, s', tid, s'.delivery[m], m);
    } else {
      FinishedElsewhere(s, s', tid, m);
      UntouchedKeeps(s, s', m);
    }
  }

  lemma SendKeeps(s: State, step: Step, m: string)
    requires Inv(s, m) && Enabled(s, step) && step.Send?
    ensures MsgInv(Apply(s, step), m) && Follows(s, Apply(s, step), m)
  {
    var s' := Apply(s, step);
    if step.mid == m {
      assert forall u :: Owns(s', u, m) ==> u == s.nextId by {
        forall u | Owns(s', u, m) ensures u == s.nextId {
          assert u != s.nextId ==> Owns(s, u, m);
        }
      }
      assert forall k, i :: k in s.sweeps && 0 <= i < |s.sweeps[k].items| ==> s.sweeps[k].items[i].mid != m;
    } else {
      UntouchedKeeps(s, s', m);
    }
  }

  /** A sweep of the message's organisation that starts finds nothing else holding the message. */
  lemma NothingHeld(s: State, org: string, m: string)
    requires Ids(s) && NoSweepOf(s, org) && m in s.world.messages && FromOf(s, m) == org
    ensures forall k, i :: k in s.sweeps && 0 <= i < |s.sweeps[k].items| ==> s.sweeps[k].items[i].mid != m
    ensures forall t :: Owns(s, t, m) ==> !Awaited(s, t)
  {
    forall k | k in s.sweeps ensures SweepOk(s, s.sweeps[k]) {
    }
  }

  /** Every sweep that still awaits a coroutine is as it was, and what sweeps hold is fresh. */
  lemma SweepsOnlyKeep(s: State, s': State, m: string)
    requires MsgInv(s, m) && SweepsOnly(s, s') && ItemInv(s', m)
    requires forall k :: k in s.sweeps && s.sweeps[k].current.Some? && s.sweeps[k].current.value in s.tasks ==>
               k in s'.sweeps && s'.sweeps[k].current == s.sweeps[k].current
    ensures MsgInv(s', m) && Follows(s, s', m)
  {
    hide ItemInv;
    assert forall t :: Owns(s', t, m) <==> Owns(s, t, m);
    StillAwaited(s, s', m);
    SameTasks(s, s', m);
  }

  /** A sweep that starts holds failed rows on which nothing else works. */
  lemma NewSweepFresh(s: State, org: string, items: seq<Item>, m: string)
    requires Inv(s, m) && Enabled(s, BeginSweep(org, items)) && NoSweepOf(s, org)
    ensures ItemInv(s.(sweeps := s.sweeps[s.nextId := Sweep(org, items, None)], nextId := s.nextId + 1), m)
  {
    hide Apply;
    var s' := s.(sweeps := s.sweeps[s.nextId := Sweep(org, items, None)], nextId := s.nextId + 1);
    assert forall t :: Owns(s', t, m) <==> Owns(s, t, m);
    if exists i :: 0 <= i < |items| && items[i].mid == m {
      NothingHeld(s, org, m);
      assert forall t :: Owns(s, t, m) ==> s.delivery[m].status == Failed;
      assert forall t :: !Owns(s, t, m);
    }
  }

  lemma BeginKeeps(s: State, step: Step, m: string)
    requires Inv(s, m) && Enabled(s, step) && step.BeginSweep? && NoSweepOf(s, step.org)
    ensures MsgInv(Apply(s, step), m) && Follows(s, Apply(s, step), m)
  {
    hide Apply, ItemInv, TaskInv, Enabled;
    BeginApplies(s, step);
    assert s.nextId !in s.sweeps;
    NewSweepFresh(s, step.org, step.items, m);
    SweepsOnlyKeep(s, Apply(s, step), m);
  }

  /** Sweeps that await a live coroutine are as they were. */
  lemma StillAwaited(s: State, s': State, m: string)
    requires forall k :: k in s.sweeps && s.sweeps[k].current.Some? && s.sweeps[k].current.value in s.tasks ==>
               k in s'.sweeps && s'.sweeps[k].current == s.sweeps[k].current
    ensures forall t :: t in s.tasks && Awaited(s, t) ==> Awaited(s', t)
  {
    forall t | t in s.tasks && Awaited(s, t) ensures Awaited(s', t) {
      var k :| k in s.sweeps && s.sweeps[k].current == Some(t);
      assert k in s'.sweeps && s'.sweeps[k].current == Some(t);
    }
  }

  /** A sweep goes on or ends. */
  lemma FewerSweepsFresh(s: State, s': State, sid: nat, m: string)
    requires ItemInv(s, m) && SweepsOnly(s, s') && sid in s.sweeps
    requires s'.sweeps == Without(s.sweeps, sid) || s'.sweeps == s.sweeps[sid := s.sweeps[sid].(current := None)]
    ensures ItemInv(s', m)
  {
    assert forall t :: Owns(s', t, m) <==> Owns(s, t, m);
  }

  lemma SweepStepKeeps(s: State, step: Step, m: string)
    requires MsgInv(s, m) && Enabled(s, step) && (step.SweepResume? || step.EndSweep?)
    ensures MsgInv(Apply(s, step), m) && Follows(s, Apply(s, step), m)
  {
    hide Apply, ItemInv, TaskInv, Enabled;
    SweepStepApplies(s, step);
    FewerSweepsFresh(s, Apply(s, step), step.sid, m);
    SweepsOnlyKeep(s, Apply(s, step), m);
  }

  /** A sweep drops its head item: what it has left still holds current counts. */
  lemma RestFresh(s: State, s': State, sid: nat, m: string)
    requires Inv(s, m) && sid in s.sweeps && s.sweeps[sid].items != [] && Head(s, sid).mid == m
    requires s'.sweeps.Keys == s.sweeps.Keys && s'.sweeps[sid].items == s.sweeps[sid].items[1..]
    requires forall k :: k in s.sweeps && k != sid ==> s'.sweeps[k] == s.sweeps[k]
    ensures forall k, i :: k in s'.sweeps && 0 <= i < |s'.sweeps[k].items| ==> s'.sweeps[k].items[i].mid != m
  {
    var items := s.sweeps[sid].items;
    forall k, i | k in s'.sweeps && 0 <= i < |s'.sweeps[k].items| ensures s'.sweeps[k].items[i].mid != m {
      if k == sid {
        assert items[1..][i] == items[i + 1];
      } else {
        assert SweepOk(s, s.sweeps[k]) && SweepOk(s, s.sweeps[sid]);
      }
    }
  }

  lemma RestUntouched(s: State, s': State, sid: nat, m: string)
    requires MsgInv(s, m) && sid in s.sweeps && s.sweeps[sid].items != [] && Untouched(s, s', m)
    requires s'.sweeps.Keys == s.sweeps.Keys && s'.sweeps[sid].items == s.sweeps[sid].items[1..]
    requires forall k :: k in s.sweeps && k != sid ==> s'.sweeps[k] == s.sweeps[k]
    ensures ItemInv(s', m)
  {
    var items := s.sweeps[sid].items;
    assert forall i :: 0 <= i < |items[1..]| ==> items[1..][i] == items[i + 1];
    forall k, i, j | k in s'.sweeps && 0 <= i < |s'.sweeps[k].items| && s'.sweeps[k].items[i].mid == m
                     && 0 <= j < |s'.sweeps[k].items| && s'.sweeps[k].items[j].mid == m
      ensures i == j
    {
      if k == sid {
        assert items[i + 1].mid == m && items[j + 1].mid == m;
      }
    }
    forall k, i | k in s'.sweeps && 0 <= i < |s'.sweeps[k].items| && s'.sweeps[k].items[i].mid == m
      ensures m in s.delivery && s.delivery[m] == Delivery(Failed, s'.sweeps[k].items[i].retries)
      ensures forall t :: !Owns(s, t, m)
    {
      if k == sid {
        assert items[i + 1].mid == m;
      }
    }
  }

  /** The message's own item is next, so nothing else works on it. */
  lemma NoOwner(s: State, s': State, sid: nat, m: string)
    requires ItemInv(s, m) && sid in s.sweeps && s.sweeps[sid].items != [] && Head(s, sid).mid == m
    requires forall t :: t in s'.tasks ==> t in s.tasks && s'.tasks[t] == s.tasks[t]
    ensures m in s.delivery && s.delivery[m] == Delivery(Failed, Head(s, sid).retries)
    ensures forall t :: !Owns(s', t, m)
  {
    assert s.sweeps[sid].items[0].mid == m;
    forall t ensures !Owns(s', t, m) {
      assert !Owns(s, t, m);
    }
  }

  lemma BuryOwn(s: State, sid: nat, m: string)
    requires Inv(s, m) && sid in s.sweeps && s.sweeps[sid].items != [] && Head(s, sid).mid == m
    ensures MsgInv(Bury(s, sid), m) && Follows(s, Bury(s, sid), m)
  {
    RestFresh(s, Bury(s, sid), sid, m);
    NoOwner(s, Bury(s, sid), sid, m);
  }

  lemma BumpOwn(s: State, sid: nat, m: string)
    requires Inv(s, m) && sid in s.sweeps && s.sweeps[sid].items != [] && Head(s, sid).mid == m
    requires Head(s, sid).retries + 1 < MAX_RETRY
    ensures MsgInv(Bump(s, sid), m) && Follows(s, Bump(s, sid), m)
  {
    RestFresh(s, Bump(s, sid), sid, m);
    NoOwner(s, Bump(s, sid), sid, m);
  }

  lemma ResendOwn(s: State, sid: nat, route: Route, m: string)
    requires Inv(s, m) && sid in s.sweeps && s.sweeps[sid].items != [] && Head(s, sid).mid == m
    requires Head(s, sid).retries + 1 < MAX_RETRY
    ensures MsgInv(Resend(s, sid, route), m) && Follows(s, Resend(s, sid, route), m)
  {
    var s' := Resend(s, sid, route);
    RestFresh(s, s', sid, m);
    assert forall t :: !Owns(s, t, m);
    forall t | Owns(s', t, m) ensures t == s.nextId && Awaited(s', t) {
      assert !Owns(s, t, m);
      assert s'.sweeps[sid].current == Some(s.nextId);
    }
  }

  /** Another message's item was next. */
  lemma OtherItem(s: State, s': State, sid: nat, m: string)
    requires MsgInv(s, m) && Untouched(s, s', m) && s.nextId !in s.tasks
    requires sid in s.sweeps && s.sweeps[sid].items != [] && s.sweeps[sid].current == None
    requires s'.sweeps.Keys == s.sweeps.Keys && s'.sweeps[sid].items == s.sweeps[sid].items[1..]
    requires forall k :: k in s.sweeps && k != sid ==> s'.sweeps[k] == s.sweeps[k]
    ensures MsgInv(s', m) && Follows(s, s', m)
  {
    StillAwaited(s, s', m);
    RestUntouched(s, s', sid, m);
    SameTasks(s, s', m);
  }

  lemma ProcessOther(s: State, sid: nat, target: Option<Route>, m: string)
    requires MsgInv(s, m) && sid in s.sweeps && s.sweeps[sid].items != [] && s.sweeps[sid].current == None
    requires Head(s, sid).mid != m && s.nextId !in s.tasks
    ensures MsgInv(ProcessItem(s, sid, target), m) && Follows(s, ProcessItem(s, sid, target), m)
  {
    hide TaskInv, ItemInv, CountInv;
    if Head(s, sid).retries + 1 >= MAX_RETRY {
      OtherItem(s, Bury(s, sid), sid, m);
    } else if Resends(s, sid, target) {
      OtherResent(s, sid, target.value, m);
      OtherItem(s, Resend(s, sid, target.value), sid, m);
    } else {
      OtherItem(s, Bump(s, sid), sid, m);
    }
  }

  lemma OtherResent(s: State, sid: nat, route: Route, m: string)
    requires sid in s.sweeps && s.sweeps[sid].items != [] && Head(s, sid).mid != m && s.nextId !in s.tasks
    ensures Untouched(s, Resend(s, sid, route), m)
  {
  }

  /** The message's coroutines are the same and still awaited. */
  lemma SameTasks(s: State, s': State, m: string)
    requires TaskInv(s, m) && CountInv(s, m) && Untouched(s, s', m)
    requires forall t :: t in s.tasks && Awaited(s, t) ==> Awaited(s', t)
    ensures TaskInv(s', m) && CountInv(s', m)
  {
    forall t | Owns(s', t, m) && s'.tasks[t].phase.Started? && s'.delivery[m].status == Failed
      ensures Awaited(s', t)
    {
      assert Owns(s, t, m) && Awaited(s, t);
    }
  }

  lemma SenderSameKeeps(s: State, s': State, m: string)
    requires MsgInv(s, m) && SenderSame(s, s')
    ensures MsgInv(s', m) && Follows(s, s', m)
  {
    UntouchedKeeps(s, s', m);
  }

  lemma ReceiverStepKeeps(s: State, step: Step, m: string)
    requires MsgInv(s, m) && Enabled(s, step) && ReceiverStep(step)
    ensures MsgInv(Apply(s, step), m) && Follows(s, Apply(s, step), m)
  {
    ReceiverLeavesSender(s, step);
    SenderSameKeeps(s, Apply(s, step), m);
  }

  lemma TransmitStepKeeps(s: State, step: Step, m: string)
    requires MsgInv(s, m) && Enabled(s, step) && step.Transmit?
    ensures MsgInv(Apply(s, step), m) && Follows(s, Apply(s, step), m)
  {
    TransmitKeeps(s, step.tid, step.nonce, step.body, step.ts, step.seqNo, m);
  }

  lemma NextStepKeeps(s: State, step: Step, m: string)
    requires Inv(s, m) && Enabled(s, step) && step.SweepNext?
    ensures MsgInv(Apply(s, step), m) && Follows(s, Apply(s, step), m)
  {
    var sid := step.sid;
    if Head(s, sid).mid != m {
      ProcessOther(s, sid, step.target, m);
    } else if Head(s, sid).retries + 1 >= MAX_RETRY {
      BuryOwn(s, sid, m);
    } else if Resends(s, sid, step.target) {
      ResendOwn(s, sid, step.target.value, m);
    } else {
      BumpOwn(s, sid, m);
    }
  }

  lemma StepKeeps(s: State, step: Step, m: string)
    requires Inv(s, m) && Allowed(s, step, true)
    ensures Inv(Apply(s, step), m) && Follows(s, Apply(s, step), m)
  {
    hide Apply, MsgInv, Ids;
    StepKeepsIds(s, step);
    if step.Send? {
      SendKeeps(s, step, m);
    } else if step.Transmit? {
      TransmitStepKeeps(s, step, m);
    } else if FinishStep(step) {
      FinishKeeps(s, step, m);
    } else if step.BeginSweep? {
      BeginKeeps(s, step, m);
    } else if step.SweepNext? {
      NextStepKeeps(s, step, m);
    } else if step.SweepResume? || step.EndSweep? {
      SweepStepKeeps(s, step, m);
    } else if MarkStep(step) {
      MarkKeeps(s, step, m);
    } else {
      ReceiverStepKeeps(s, step, m);
    }
  }

  lemma {:induction false} RunInv(steps: seq<Step>, m: string)
    ensures Inv(Exec(steps, true), m)
    ensures steps != [] ==> Follows(Exec(steps[..|steps| - 1], true), Exec(steps, true), m)
  {
    if steps != [] {
      RunInv(steps[..|steps| - 1], m);
      var s := Exec(steps[..|steps| - 1], true);
      var step := steps[|steps| - 1];
      if Allowed(s, step, true) {
        StepKeeps(s, step, m);
      }
    }
  }

  // ---- the theorems -----------------------------------------------------------------

  /** Every change of a message's status is an edge of the graph, and no message is put on the
      wire more than MAX_RETRY times: one first send and at most four retries. */
  lemma StatusGraph(steps: seq<Step>, m: string)
    requires steps != []
    ensures var s := Exec(steps[..|steps| - 1], true);
            var s' := Exec(steps, true);
            m in s.delivery ==>
              && m in s'.delivery
              && (s'.delivery[m].status == s.delivery[m].status || Edge(s.delivery[m].status, s'.delivery[m].status))
    ensures CountIn(Exec(steps, true).log, m) <= 5
  {
    RunInv(steps, m);
  }

  /** Delivered and dead are final: once reached, no longer run leaves them. */
  lemma {:induction false} FinalForever(before: seq<Step>, after: seq<Step>, m: string)
    requires m in Exec(before, true).delivery && Final(Exec(before, true).delivery[m].status)
    ensures m in Exec(before + after, true).delivery
    ensures Exec(before + after, true).delivery[m].status == Exec(before, true).delivery[m].status
    decreases |after|
  {
    if after == [] {
      assert before + after == before;
    } else {
      var all := before + after;
      FinalForever(before, after[..|after| - 1], m);
      assert all[..|all| - 1] == before + after[..|after| - 1];
      StatusGraph(all, m);
    }
  }

  // ---- when a final status can be left at all, overlapping sweeps or not ----------------

  /** An idle sweep is about to bury the message on the strength of its snapshot. */
  ghost predicate AboutToBury(s: State, k: nat, m: string) {
    && k in s.sweeps && s.sweeps[k].current == None && s.sweeps[k].items != []
    && s.sweeps[k].items[0].mid == m && s.sweeps[k].items[0].retries + 1 >= MAX_RETRY
  }

  ghost predicate Leaves(s: State, step: Step, m: string)
    requires m in s.delivery
  {
    Enabled(s, step) && (m !in Apply(s, step).delivery || Apply(s, step).delivery[m].status != s.delivery[m].status)
  }

  lemma LeavingNeedsWorker(s: State, step: Step, m: string)
    requires m in s.delivery && Leaves(s, step, m)
    ensures (exists t :: Owns(s, t, m)) || (exists k :: AboutToBury(s, k, m))
    ensures s.delivery[m].status == Dead ==> exists t :: Owns(s, t, m)
  {
    if step.SweepNext? {
      assert AboutToBury(s, step.sid, m) && s.delivery[m].status != Dead;
    } else {
      assert step.MarkPending? || step.MarkSent? || step.MarkHubAcked? || step.MarkDelivered? || step.Fail?;
      assert Owns(s, step.tid, m);
    }
  }

  /** A message leaves delivered or dead exactly when some coroutine still works on it, or, for a
      delivered one, when a sweep that read it as failed is about to bury it. */
  lemma FinalLeftIff(s: State, m: string)
    requires m in s.delivery && Final(s.delivery[m].status)
    ensures (exists step :: Leaves(s, step, m))
            <==> (exists t :: Owns(s, t, m))
                 || (s.delivery[m].status == Delivered && exists k :: AboutToBury(s, k, m))
  {
    if step :| Leaves(s, step, m) {
      LeavingNeedsWorker(s, step, m);
    }
    if t :| Owns(s, t, m) {
      assert Leaves(s, Fail(t), m);
    }
    if k :| AboutToBury(s, k, m) {
      if s.delivery[m].status == Delivered {
        assert Leaves(s, SweepNext(k, None), m);
      }
    }
  }

}
