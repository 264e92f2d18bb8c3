/** How often a message is put on the wire, for every run at all: overlapping sweeps and repeated
    sends included. Each attempt is paid for by the row's retry count, unless a sweep writes an
    older count back or a second call sends the message again. */
module CrossOrgCount {
  import opened Options
  import opened CrossOrgDelivery
  import Status = CrossOrgStatus

  /** The coroutines that may still put the message on the wire. */
  function Waiting(s: State, m: string): set<nat> {
    set t | t in s.tasks && s.tasks[t].mid == m && Unsent(s.tasks[t].phase)
  }

  /** Attempts made or under way, less what the row's count pays for. */
  function Balance(s: State, m: string): int {
    if m in s.delivery then CountIn(s.log, m) + |Waiting(s, m)| - s.delivery[m].retries - 1 else 0
  }

  predicate Bumps(s: State, step: Step, m: string)
    requires step.SweepNext? ==> step.sid in s.sweeps && s.sweeps[step.sid].items != []
  {
    step.SweepNext? && Head(s, step.sid).mid == m && Head(s, step.sid).retries + 1 < MAX_RETRY
  }

  /** What a step adds that the count does not pay for: a repeated send, or the distance by which
      the sweep's snapshot is behind the row. */
  ghost function Debt(s: State, step: Step, m: string): int
    requires Enabled(s, step)
  {
    if step.SendAgain? && step.mid == m then 1
    else if Bumps(s, step, m) && m in s.delivery then s.delivery[m].retries - Head(s, step.sid).retries
    else 0
  }

  /** Attempts that are counted but never reach the wire: a coroutine that ends before it sends, or
      an addressee that does not resolve. */
  ghost function Waste(s: State, step: Step, m: string): nat
    requires Enabled(s, step)
  {
    if (step.Fail? || step.Abort?) && step.tid in Waiting(s, m) then 1
    else if Bumps(s, step, m) && !Resends(s, step.sid, step.target) then 1
    else 0
  }

  ghost function Debts(steps: seq<Step>, orderly: bool, m: string): int {
    if steps == [] then 0
    else
      var before, step := Exec(steps[..|steps| - 1], orderly), steps[|steps| - 1];
      Debts(steps[..|steps| - 1], orderly, m) + if Allowed(before, step, orderly) then Debt(before, step, m) else 0
  }

  ghost function Wasted(steps: seq<Step>, orderly: bool, m: string): nat {
    if steps == [] then 0
    else
      var before, step := Exec(steps[..|steps| - 1], orderly), steps[|steps| - 1];
      Wasted(steps[..|steps| - 1], orderly, m) + if Allowed(before, step, orderly) then Waste(before, step, m) else 0
  }

  // ---- the invariant --------------------------------------------------------------------

  /** Coroutines and sweeps work on known messages, counts stay below the limit, and what was never
      sent has left no trace. */
  ghost predicate Known(s: State) {
    && (forall t :: t in s.tasks ==> t < s.nextId && s.tasks[t].mid in s.delivery)
    && (forall k, i :: k in s.sweeps && 0 <= i < |s.sweeps[k].items| ==> s.sweeps[k].items[i].mid in s.delivery)
    && (forall m :: m in s.delivery ==> s.delivery[m].retries < MAX_RETRY)
    && (forall m :: m !in s.delivery ==> CountIn(s.log, m) == 0)
  }

  /** The waiting coroutines and the count are as they were. */
  lemma SameBalance(s: State, s': State, m: string)
    requires Waiting(s', m) == Waiting(s, m) && CountIn(s'.log, m) == CountIn(s.log, m)
    requires m in s.delivery <==> m in s'.delivery
    requires m in s.delivery ==> s'.delivery[m].retries == s.delivery[m].retries
    ensures Balance(s', m) == Balance(s, m)
  {
  }

  /** A step moves the balance by its debt and its waste. */
  ghost predicate Counted(s: State, step: Step, m: string)
    requires Enabled(s, step)
  {
    Known(Apply(s, step)) && Balance(Apply(s, step), m) == Balance(s, m) + Debt(s, step, m) - Waste(s, step, m)
  }

  // ---- step by step -----------------------------------------------------------------------

  lemma StartCounts(s: State, mid: string, route: Route, payload: string, m: string)
    requires s.nextId !in s.tasks
    ensures |Waiting(StartTask(s, mid, route, payload), m)| == |Waiting(s, m)| + (if mid == m then 1 else 0)
  {
    var s' := StartTask(s, mid, route, payload);
    forall t ensures t in Waiting(s', m) <==> t in Waiting(s, m) || (t == s.nextId && mid == m) {
    }
    if mid == m {
      assert Waiting(s', m) == Waiting(s, m) + {s.nextId};
    } else {
      assert Waiting(s', m) == Waiting(s, m);
    }
  }

  lemma AgainCounts(s: State, s': State, mid: string, route: Route, payload: string, m: string)
    requires Known(s) && mid in s.delivery
    requires s' == StartTask(s, mid, route, payload).(world := s'.world)
    ensures Known(s') && Balance(s', m) == Balance(s, m) + if mid == m then 1 else 0
  {
    hide CountIn;
    StartCounts(s, mid, route, payload, m);
    assert Waiting(s', m) == Waiting(StartTask(s, mid, route, payload), m);
  }

  lemma FirstCounts(s: State, s': State, mid: string, route: Route, payload: string, m: string)
    requires Known(s) && mid !in s.delivery
    requires s' == StartTask(s, mid, route, payload).(world := s'.world,
                                                      delivery := s.delivery[mid := Delivery(Queued, 0)])
    ensures Known(s') && Balance(s', m) == Balance(s, m)
  {
    hide CountIn;
    StartCounts(s, mid, route, payload, m);
    assert Waiting(s', m) == Waiting(StartTask(s, mid, route, payload), m);
    assert Waiting(s, mid) == {};
  }

  lemma SendCounts(s: State, step: Step, m: string)
    requires Known(s) && Enabled(s, step) && (step.Send? || step.SendAgain?)
    ensures Counted(s, step, m)
  {
    hide Known, Balance, CountIn, Waiting;
    if step.Send? {
      FirstCounts(s, Apply(s, step), step.mid, step.route, step.content.payload, m);
    } else {
      AgainCounts(s, Apply(s, step), step.mid, step.route, step.payload, m);
    }
  }

  /** A coroutine that sends, ends or moves past sending is no longer waiting. */
  lemma TaskCounts(s: State, s': State, t: nat, m: string)
    requires t in s.tasks && forall u :: u != t ==> (u in s'.tasks <==> u in s.tasks)
    requires forall u :: u in s.tasks && u != t ==> s'.tasks[u] == s.tasks[u]
    requires t in s'.tasks ==> s'.tasks[t].mid == s.tasks[t].mid
    ensures (t in Waiting(s', m) <==> t in Waiting(s, m)) ==> Waiting(s', m) == Waiting(s, m)
    ensures t in Waiting(s, m) && t !in Waiting(s', m) ==> |Waiting(s', m)| == |Waiting(s, m)| - 1
  {
    forall u ensures u != t ==> (u in Waiting(s', m) <==> u in Waiting(s, m)) {
    }
    if t in Waiting(s, m) && t !in Waiting(s', m) {
      assert Waiting(s', m) == Waiting(s, m) - {t};
    }
  }

  lemma TransmitCounts(s: State, tid: nat, nonce: string, body: string, ts: string, seqNo: string, m: string)
    requires Known(s) && tid in s.tasks && s.tasks[tid].phase == Preparing && s.tasks[tid].mid in s.world.messages
    ensures var s' := PutOnWire(s, tid, nonce, body, ts, seqNo); Known(s') && Balance(s', m) == Balance(s, m)
  {
    var s' := PutOnWire(s, tid, nonce, body, ts, seqNo);
    TaskCounts(s, s', tid, m);
    forall x ensures CountIn(s'.log, x) == CountIn(s.log, x) + (if x == s.tasks[tid].mid then 1 else 0) {
      CountPush(s.log, s.tasks[tid].mid, x);
    }
  }

  lemma TransmitStepCounts(s: State, step: Step, m: string)
    requires Known(s) && Enabled(s, step) && step.Transmit?
    ensures Counted(s, step, m)
  {
    TransmitCounts(s, step.tid, step.nonce, step.body, step.ts, step.seqNo, m);
  }

  lemma PhaseMovedCounts(s: State, s': State, tid: nat, m: string)
    requires Known(s) && PhaseMoved(s, s', tid)
    ensures Known(s') && Balance(s', m) == Balance(s, m)
  {
    TaskCounts(s, s', tid, m);
  }

  lemma MarkCounts(s: State, step: Step, m: string)
    requires Known(s) && Enabled(s, step) && MarkStep(step)
    ensures Counted(s, step, m)
  {
    hide Apply;
    MarkMoves(s, step);
    PhaseMovedCounts(s, Apply(s, step), step.tid, m);
  }

  lemma FinishCounts(s: State, step: Step, m: string)
    requires Known(s) && Enabled(s, step) && FinishStep(step)
    ensures Counted(s, step, m)
  {
    hide Apply, CountIn, Waiting;
    FinishEnds(s, step);
    if step.Conclude? {
      DeliveredWasSent(s, step, m);
    }
    FinishedCounts(s, Apply(s, step), step.tid, m);
  }

  lemma DeliveredWasSent(s: State, step: Step, m: string)
    requires Enabled(s, step) && step.Conclude?
    ensures step.tid !in Waiting(s, m)
  {
  }

  lemma FinishedCounts(s: State, s': State, tid: nat, m: string)
    requires Known(s) && Finished(s, s', tid)
    ensures Known(s') && Balance(s', m) == Balance(s, m) - if tid in Waiting(s, m) then 1 else 0
  {
    hide CountIn;
    TaskCounts(s, s', tid, m);
  }

  /** Without its first item a sweep still holds known messages only. */
  lemma DropKnown(s: State, sid: nat, current: Option<nat>)
    requires Known(s) && sid in s.sweeps && s.sweeps[sid].items != []
    ensures Known(DropHead(s, sid, current))
  {
    var items := s.sweeps[sid].items;
    assert forall i :: 0 <= i < |items[1..]| ==> items[1..][i] == items[i + 1];
  }

  lemma HeadKnown(s: State, sid: nat)
    requires Known(s) && sid in s.sweeps && s.sweeps[sid].items != []
    ensures Head(s, sid).mid in s.delivery
  {
  }

  lemma BuryCounts(s: State, sid: nat, m: string)
    requires Known(s) && sid in s.sweeps && s.sweeps[sid].items != []
    ensures Known(Bury(s, sid)) && Balance(Bury(s, sid), m) == Balance(s, m)
  {
    DropKnown(s, sid, s.sweeps[sid].current);
    SameBalance(s, Bury(s, sid), m);
  }

  lemma BumpCounts(s: State, sid: nat, m: string)
    requires Known(s) && sid in s.sweeps && s.sweeps[sid].items != [] && Head(s, sid).retries + 1 < MAX_RETRY
    ensures Known(Bump(s, sid))
    ensures Balance(Bump(s, sid), m)
            == Balance(s, m) + if Head(s, sid).mid == m then s.delivery[m].retries - Head(s, sid).retries - 1 else 0
  {
    DropKnown(s, sid, s.sweeps[sid].current);
    HeadKnown(s, sid);
    assert Waiting(Bump(s, sid), m) == Waiting(s, m);
  }

  lemma ResendCounts(s: State, sid: nat, route: Route, m: string)
    requires Known(s) && sid in s.sweeps && s.sweeps[sid].items != [] && Head(s, sid).retries + 1 < MAX_RETRY
    ensures Known(Resend(s, sid, route))
    ensures Balance(Resend(s, sid, route), m)
            == Balance(s, m) + if Head(s, sid).mid == m then s.delivery[m].retries - Head(s, sid).retries else 0
  {
    var mid := Head(s, sid).mid;
    HeadKnown(s, sid);
    DropKnown(s, sid, Some(s.nextId));
    StartCounts(s, mid, route, PayloadOf(s, mid), m);
    assert Waiting(Resend(s, sid, route), m) == Waiting(StartTask(s, mid, route, PayloadOf(s, mid)), m);
  }

  lemma NextCounts(s: State, step: Step, m: string)
    requires Known(s) && Enabled(s, step) && step.SweepNext?
    ensures Counted(s, step, m)
  {
    HeadKnown(s, step.sid);
    if Head(s, step.sid).retries + 1 >= MAX_RETRY {
      BuryCounts(s, step.sid, m);
    } else if Resends(s, step.sid, step.target) {
      ResendCounts(s, step.sid, step.target.value, m);
    } else {
      BumpCounts(s, step.sid, m);
    }
  }

  lemma SweepCounts(s: State, step: Step, m: string)
    requires Known(s) && Enabled(s, step) && (step.BeginSweep? || step.SweepResume? || step.EndSweep?)
    ensures Counted(s, step, m)
  {
    hide Apply, CountIn, Waiting;
    if step.BeginSweep? {
      BeginApplies(s, step);
    } else {
      SweepStepApplies(s, step);
    }
    SweepsOnlyCount(s, Apply(s, step), m);
  }

  lemma SweepsOnlyCount(s: State, s': State, m: string)
    requires Known(s) && SweepsOnly(s, s')
    requires forall k, i :: k in s'.sweeps && 0 <= i < |s'.sweeps[k].items| ==> s'.sweeps[k].items[i].mid in s.delivery
    ensures Known(s') && Balance(s', m) == Balance(s, m)
  {
    hide CountIn;
    assert Waiting(s', m) == Waiting(s, m);
  }

  lemma SenderSameCounts(s: State, s': State, m: string)
    requires Known(s) && SenderSame(s, s')
    ensures Known(s') && Balance(s', m) == Balance(s, m)
  {
    SameBalance(s, s', m);
  }

  lemma ReceiverCounts(s: State, step: Step, m: string)
    requires Known(s) && Enabled(s, step) && ReceiverStep(step)
    ensures Counted(s, step, m)
  {
    ReceiverLeavesSender(s, step);
    SenderSameCounts(s, Apply(s, step), m);
  }

  lemma StepCounts(s: State, step: Step, m: string)
    requires Known(s) && Enabled(s, step)
    ensures Counted(s, step, m)
  {
    if step.Send? || step.SendAgain? {
      SendCounts(s, step, m);
    } else if step.Transmit? {
      TransmitStepCounts(s, step, m);
    } else if FinishStep(step) {
      FinishCounts(s, step, m);
    } else if step.SweepNext? {
      NextCounts(s, step, m);
    } else if step.BeginSweep? || step.SweepResume? || step.EndSweep? {
      SweepCounts(s, step, m);
    } else if MarkStep(step) {
      MarkCounts(s, step, m);
    } else {
      ReceiverCounts(s, step, m);
    }
  }

  // ---- the law ------------------------------------------------------------------------------

  lemma {:induction false} RunCounts(steps: seq<Step>, orderly: bool, m: string)
    ensures Known(Exec(steps, orderly))
    ensures Balance(Exec(steps, orderly), m) == Debts(steps, orderly, m) - Wasted(steps, orderly, m)
  {
    if steps != [] {
      var before, step := Exec(steps[..|steps| - 1], orderly), steps[|steps| - 1];
      RunCounts(steps[..|steps| - 1], orderly, m);
      if Allowed(before, step, orderly) {
        StepCounts(before, step, m);
      }
    }
  }

  /** The law of every run: transmissions are the first send and the retries counted, plus what was
      not paid for, less what was wasted or still waits. */
  lemma TransmissionLaw(steps: seq<Step>, orderly: bool, m: string)
    requires m in Exec(steps, orderly).delivery
    ensures var s := Exec(steps, orderly);
            && CountIn(s.log, m) == s.delivery[m].retries + 1 + Debts(steps, orderly, m)
                                    - Wasted(steps, orderly, m) - |Waiting(s, m)|
            && s.delivery[m].retries < MAX_RETRY
  {
    RunCounts(steps, orderly, m);
  }

  /** Orderly runs owe nothing: a sweep's snapshot is never behind the row. */
  lemma {:induction false} OrderlyOwesNothing(steps: seq<Step>, m: string)
    ensures Debts(steps, true, m) == 0
  {
    if steps != [] {
      var before, step := Exec(steps[..|steps| - 1], true), steps[|steps| - 1];
      OrderlyOwesNothing(steps[..|steps| - 1], m);
      Status.RunInv(steps[..|steps| - 1], m);
      if Allowed(before, step, true) && Bumps(before, step, m) {
        HeadIsCurrent(before, step.sid, m);
      }
    }
  }

  lemma HeadIsCurrent(s: State, sid: nat, m: string)
    requires Status.Inv(s, m) && sid in s.sweeps && s.sweeps[sid].items != [] && Head(s, sid).mid == m
    ensures m in s.delivery && s.delivery[m].retries == Head(s, sid).retries
  {
    assert s.sweeps[sid].items[0].mid == m;
  }

  /** So an orderly run transmits a message five times at most, and once less for every attempt that
      was wasted or still waits. */
  lemma FiveAtMost(steps: seq<Step>, m: string)
    ensures CountIn(Exec(steps, true).log, m) + Wasted(steps, true, m) + |Waiting(Exec(steps, true), m)| <= 5
    ensures m !in Exec(steps, true).delivery ==> CountIn(Exec(steps, true).log, m) == 0
  {
    RunCounts(steps, true, m);
    OrderlyOwesNothing(steps, m);
  }
}
