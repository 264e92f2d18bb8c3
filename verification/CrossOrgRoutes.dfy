/** What an envelope on the wire says, traced back to the steps of the run: every sent message was
    asked for by a call or a retry, with this addressee, these identity numbers and this payload, and
    every acknowledgement answers a sent message back to its sender. */
module CrossOrgRoutes {
  import opened Options
  import opened Envelopes
  import opened CrossOrgDelivery
  import Safety = CrossOrgSafety

  /** The step asks for an attempt: a call gives route and payload, a retry gives the route and takes
      the payload from the row. */
  ghost predicate Asks(s: State, step: Step, mid: string, route: Route, payload: string) {
    match step
    case Send(m, content, r) => m == mid && r == route && content.payload == payload
    case SendAgain(m, p, r) => m == mid && r == route && p == payload
    case SweepNext(sid, target) =>
      && sid in s.sweeps && s.sweeps[sid].items != [] && s.sweeps[sid].items[0].mid == mid
      && target == Some(route) && route.to != s.sweeps[sid].org
      && mid in s.world.messages && payload == s.world.messages[mid].payload
    case _ => false
  }

  /** Some step that the run took asked for it. */
  ghost predicate Asked(steps: seq<Step>, orderly: bool, mid: string, route: Route, payload: string) {
    exists k :: 0 <= k < |steps| && Allowed(Exec(steps[..k], orderly), steps[k], orderly)
                && Asks(Exec(steps[..k], orderly), steps[k], mid, route, payload)
  }

  /** The step hands it to the connection with this nonce, body, time and number. */
  predicate Hands(step: Step, e: Envelope) {
    step.Transmit? && step.nonce == e.nonce && step.body == e.body && step.ts == e.ts && step.seqNo == e.seqNo
  }

  ghost predicate HandedOut(steps: seq<Step>, orderly: bool, e: Envelope) {
    exists k :: 0 <= k < |steps| && Allowed(Exec(steps[..k], orderly), steps[k], orderly) && Hands(steps[k], e)
  }

  lemma AskedLater(steps: seq<Step>, step: Step, orderly: bool, mid: string, route: Route, payload: string)
    ensures Asked(steps, orderly, mid, route, payload) ==> Asked(steps + [step], orderly, mid, route, payload)
    ensures Allowed(Exec(steps, orderly), step, orderly) && Asks(Exec(steps, orderly), step, mid, route, payload) ==>
              Asked(steps + [step], orderly, mid, route, payload)
  {
    hide Exec, Asks, Allowed;
    var all := steps + [step];
    assert all[..|steps|] == steps && all[|steps|] == step;
    if Asked(steps, orderly, mid, route, payload) {
      var k :| 0 <= k < |steps| && Allowed(Exec(steps[..k], orderly), steps[k], orderly)
               && Asks(Exec(steps[..k], orderly), steps[k], mid, route, payload);
      assert all[..k] == steps[..k] && all[k] == steps[k];
    }
  }

  lemma HandedOutLater(steps: seq<Step>, step: Step, orderly: bool, e: Envelope)
    ensures HandedOut(steps, orderly, e) ==> HandedOut(steps + [step], orderly, e)
    ensures Allowed(Exec(steps, orderly), step, orderly) && Hands(step, e) ==> HandedOut(steps + [step], orderly, e)
  {
    hide Exec, Hands, Allowed;
    var all := steps + [step];
    assert all[..|steps|] == steps && all[|steps|] == step;
    if HandedOut(steps, orderly, e) {
      var k :| 0 <= k < |steps| && Allowed(Exec(steps[..k], orderly), steps[k], orderly) && Hands(steps[k], e);
      assert all[..k] == steps[..k] && all[k] == steps[k];
    }
  }

  // ---- one step -----------------------------------------------------------------------------

  ghost predicate QueuesKnown(s: State) {
    forall k, i :: k in s.sweeps && 0 <= i < |s.sweeps[k].items| ==> s.sweeps[k].items[i].mid in s.world.messages
  }

  ghost predicate ErrandOk(s: State, step: Step, t: nat)
    requires Enabled(s, step) && t in Apply(s, step).tasks
  {
    var x := Apply(s, step).tasks[t];
    || (t in s.tasks && x == s.tasks[t].(phase := x.phase))
    || Asks(s, step, x.mid, x.route, x.payload)
  }

  lemma SendErrand(s: State, step: Step, t: nat)
    requires Enabled(s, step) && t in Apply(s, step).tasks && (step.Send? || step.SendAgain?)
    ensures ErrandOk(s, step, t)
  {
    hide HasRow, NonceUsed, Verified, SepFree, SchemaOk;
  }

  lemma TransmitErrand(s: State, step: Step, t: nat)
    requires Enabled(s, step) && t in Apply(s, step).tasks && step.Transmit?
    ensures ErrandOk(s, step, t)
  {
  }

  lemma ItemErrand(s: State, sid: nat, target: Option<Route>, t: nat)
    requires sid in s.sweeps && s.sweeps[sid].items != [] && t in ProcessItem(s, sid, target).tasks
    ensures var x, mid := ProcessItem(s, sid, target).tasks[t], s.sweeps[sid].items[0].mid;
            || (t in s.tasks && x == s.tasks[t])
            || (target == Some(x.route) && x.route.to != s.sweeps[sid].org && x.mid == mid
                && x.payload == PayloadOf(s, mid))
  {
  }

  lemma SweepErrand(s: State, step: Step, t: nat)
    requires Enabled(s, step) && t in Apply(s, step).tasks && step.SweepNext? && QueuesKnown(s)
    ensures ErrandOk(s, step, t)
  {
    hide ProcessItem;
    ItemErrand(s, step.sid, step.target, t);
    assert s.sweeps[step.sid].items[0].mid in s.world.messages;
  }

  /** A coroutine's errand never changes, and a new coroutine has the errand that was asked for. */
  lemma TasksAreAskedFor(s: State, step: Step, t: nat)
    requires Enabled(s, step) && t in Apply(s, step).tasks && QueuesKnown(s)
    ensures ErrandOk(s, step, t)
  {
    hide Apply, Enabled, Asks, QueuesKnown;
    if ReceiverStep(step) {
      ReceiverLeavesSender(s, step);
    } else if MarkStep(step) {
      MarkMoves(s, step);
    } else if FinishStep(step) {
      FinishEnds(s, step);
    } else if step.BeginSweep? {
      BeginApplies(s, step);
    } else if step.SweepResume? || step.EndSweep? {
      SweepStepApplies(s, step);
    } else if step.Transmit? {
      TransmitErrand(s, step, t);
    } else if step.SweepNext? {
      SweepErrand(s, step, t);
    } else {
      SendErrand(s, step, t);
    }
  }

  /** What a coroutine sends says what its errand says. */
  ghost predicate Carries(s: State, step: Step, e: Envelope)
    requires Enabled(s, step)
  {
    && Hands(step, e)
    && var x := s.tasks[step.tid];
       && x.mid == e.msgId && x.route == Route(e.toOrg, e.fromAin, e.toAin) && e.v == "1"
       && e.body in Apply(s, step).world.sealed && Apply(s, step).world.sealed[e.body].payload == x.payload
  }

  lemma MessagesAreSent(s: State, step: Step, e: Envelope)
    requires Enabled(s, step) && IsMsg(Apply(s, step).world, e)
    ensures IsMsg(s.world, e) || Carries(s, step, e)
  {
  }

  lemma BodiesStay(s: State, step: Step, body: string)
    requires Enabled(s, step) && body in s.world.sealed
    ensures body in Apply(s, step).world.sealed && Apply(s, step).world.sealed[body] == s.world.sealed[body]
  {
  }

  // ---- every run ------------------------------------------------------------------------------

  ghost predicate TaskAsked(steps: seq<Step>, orderly: bool, x: Task) {
    Asked(steps, orderly, x.mid, x.route, x.payload)
  }

  ghost predicate MsgAsked(steps: seq<Step>, orderly: bool, e: Envelope) {
    var sealed := Exec(steps, orderly).world.sealed;
    && e.v == "1" && HandedOut(steps, orderly, e) && e.body in sealed
    && Asked(steps, orderly, e.msgId, Route(e.toOrg, e.fromAin, e.toAin), sealed[e.body].payload)
  }

  lemma {:induction false} TasksAsked(steps: seq<Step>, orderly: bool, t: nat)
    requires t in Exec(steps, orderly).tasks
    ensures TaskAsked(steps, orderly, Exec(steps, orderly).tasks[t])
  {
    hide Asked, Apply;
    var n := |steps| - 1;
    var before, step := Exec(steps[..n], orderly), steps[n];
    var x := Exec(steps, orderly).tasks[t];
    assert steps == steps[..n] + [step];
    AskedLater(steps[..n], step, orderly, x.mid, x.route, x.payload);
    Safety.RunInv(steps[..n], orderly);
    if Allowed(before, step, orderly) {
      TasksAreAskedFor(before, step, t);
    }
    if t in before.tasks {
      TasksAsked(steps[..n], orderly, t);
    }
  }

  /** Every message on the wire is what some step asked for: to the organisation and between the
      identity numbers of the route it gave, with the payload it gave, sealed and numbered as the
      coroutine that sent it did. */
  lemma {:induction false} SentAsAsked(steps: seq<Step>, orderly: bool, e: Envelope)
    requires IsMsg(Exec(steps, orderly).world, e)
    ensures MsgAsked(steps, orderly, e)
  {
    hide Asked, HandedOut, Apply;
    var n := |steps| - 1;
    var before, step := Exec(steps[..n], orderly), steps[n];
    assert steps == steps[..n] + [step];
    HandedOutLater(steps[..n], step, orderly, e);
    if Allowed(before, step, orderly) {
      MessagesAreSent(before, step, e);
    }
    if IsMsg(before.world, e) {
      SentAsAsked(steps[..n], orderly, e);
      if Allowed(before, step, orderly) {
        BodiesStay(before, step, e.body);
      }
      AskedLater(steps[..n], step, orderly, e.msgId, Route(e.toOrg, e.fromAin, e.toAin),
                 before.world.sealed[e.body].payload);
    } else {
      TasksAsked(steps[..n], orderly, step.tid);
      var x := before.tasks[step.tid];
      AskedLater(steps[..n], step, orderly, x.mid, x.route, x.payload);
    }
  }

  // ---- acknowledgements -------------------------------------------------------------------------

  /** Every acknowledgement that an organisation signed answers a message on the wire: from its
      addressee back to its sender, between the same identity numbers, under its nonce; and the
      addressee holds its row. */
  lemma AcknowledgementsAnswer(steps: seq<Step>, orderly: bool, a: Envelope) returns (e: Envelope)
    requires a in Exec(steps, orderly).world.signed && !IsMsg(Exec(steps, orderly).world, a)
    ensures IsMsg(Exec(steps, orderly).world, e)
    ensures a.v == "1" && a.kind == "end_ack" && a.nonce == e.nonce
    ensures a.msgId == "" && a.body == "e30=" && a.seqNo == "0"
    ensures a.fromOrg == e.toOrg && a.toOrg == e.fromOrg && a.fromAin == e.toAin && a.toAin == e.fromAin
    ensures HasRow(Exec(steps, orderly).world.stored, e.toOrg, Key(e))
  {
    hide Exec;
    Safety.RunInv(steps, orderly);
    e := Safety.Answered(Exec(steps, orderly).world, a);
  }
}
