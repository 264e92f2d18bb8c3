/** What the receiving side takes up and what it does with it: which envelopes pass all checks, in
    any run, and what a handler that is left alone stores and answers. */
module CrossOrgReceiving {
  import opened Options
  import opened Text
  import opened Envelopes
  import opened CrossOrgDelivery
  import Safety = CrossOrgSafety

  /** In every run, whatever the network presents: an organisation takes up exactly the messages
      that another organisation signed and addressed to it, provided they have the right shape.
      Signature, sealing and addressee are checked on their own; together they let nothing else
      through and refuse nothing of it. */
  lemma ReceivedExactly(steps: seq<Step>, orderly: bool, org: string, env: Envelope)
    ensures Enabled(Exec(steps, orderly), Receive(org, env))
            <==> && IsMsg(Exec(steps, orderly).world, env) && SchemaOk(env)
                 && env.toOrg == org && env.fromOrg != org
  {
    hide Exec, SigText;
    var w := Exec(steps, orderly).world;
    Safety.RunInv(steps, orderly);
    VerifiedIsSigned(w.signed, env);
    if IsMsg(w, env) {
      assert w.sealed[env.body] == Plain(env.fromOrg, env.toOrg, env.nonce, w.sealed[env.body].payload);
    }
  }

  /** A waiting sender takes an acknowledgement exactly when it is one that was signed, carries the
      nonce waited for, and the wait still goes on. */
  lemma AcknowledgementTakenExactly(steps: seq<Step>, orderly: bool, org: string, env: Envelope)
    ensures Enabled(Exec(steps, orderly), EndAckArrives(org, env))
            <==> && env in Exec(steps, orderly).world.signed && !IsMsg(Exec(steps, orderly).world, env)
                 && Waiter(org, env.nonce, End) in Exec(steps, orderly).waiters
  {
    hide Exec, SigText;
    Safety.RunInv(steps, orderly);
    VerifiedIsSigned(Exec(steps, orderly).world.signed, env);
  }

  /** The acknowledgement of an envelope: from its addressee back to its sender, under its nonce. */
  function AckOf(e: Envelope, org: string, ts: string): Envelope {
    Envelope("1", "end_ack", org, e.fromOrg, e.toAin, e.fromAin, e.nonce, ts, "e30=", "", "0")
  }

  /** What a handler stores. */
  function RowOf(h: Handler): Row {
    Row(h.org, if h.env.msgId != "" then "msg:" + h.env.msgId else "org:" + h.env.nonce,
        h.env.fromAin, h.env.toAin, h.payload)
  }

  function Moved(s: State, hid: nat, phase: HandlerPhase): State
    requires hid in s.handlers
  {
    s.(handlers := s.handlers[hid := s.handlers[hid].(phase := phase)])
  }

  lemma Looks(s: State, hid: nat)
    requires Enabled(s, Select(hid))
    ensures var h := s.handlers[hid];
            Apply(s, Select(hid))
            == Moved(s, hid, if HasRow(s.world.stored, h.org, Key(h.env)) then Settled else Inserting)
  {
    hide HasRow, Key;
  }

  lemma Stores(s: State, hid: nat)
    requires Enabled(s, Insert(hid)) && !HasRow(s.world.stored, s.handlers[hid].org, Key(s.handlers[hid].env))
    ensures Apply(s, Insert(hid))
            == Moved(s, hid, Settled).(world := s.world.(stored := s.world.stored + [RowOf(s.handlers[hid])]))
  {
    hide HasRow;
  }

  lemma NextEnabled(s: State, hid: nat, ts: string)
    requires hid in s.handlers && Free(ts, SEP)
    ensures s.handlers[hid].phase == Inserting ==> Enabled(s, Insert(hid))
    ensures s.handlers[hid].phase == Settled ==> Enabled(s, Acknowledge(hid, ts))
  {
  }

  lemma Answers(s: State, hid: nat, ts: string)
    requires Enabled(s, Acknowledge(hid, ts))
    ensures Apply(s, Acknowledge(hid, ts))
            == s.(world := s.world.(signed := s.world.signed + {AckOf(s.handlers[hid].env, s.handlers[hid].org, ts)}),
                  handlers := s.handlers - {hid})
  {
  }

  /** A repeated arrival is answered; nothing is stored. */
  lemma RepeatedArrival(s: State, hid: nat, ts: string)
    requires Enabled(s, Select(hid)) && Free(ts, SEP)
    requires hid in s.handlers && HasRow(s.world.stored, s.handlers[hid].org, Key(s.handlers[hid].env))
    ensures var h := s.handlers[hid];
            var looked := Apply(s, Select(hid));
            && Enabled(looked, Acknowledge(hid, ts))
            && Apply(looked, Acknowledge(hid, ts))
               == s.(world := s.world.(signed := s.world.signed + {AckOf(h.env, h.org, ts)}),
                     handlers := s.handlers - {hid})
  {
    hide Apply, Enabled, HasRow, Key, AckOf;
    Looks(s, hid);
    var looked := Apply(s, Select(hid));
    NextEnabled(looked, hid, ts);
    Answers(looked, hid, ts);
    assert looked.handlers - {hid} == s.handlers - {hid};
  }

  /** A handler left alone stores a first arrival under its key, with the identity numbers of the
      envelope and what its body opened to, and answers it; nothing else changes. */
  lemma FirstArrival(s: State, hid: nat, ts: string)
    requires Enabled(s, Select(hid)) && Free(ts, SEP)
    requires hid in s.handlers && !HasRow(s.world.stored, s.handlers[hid].org, Key(s.handlers[hid].env))
    ensures var h := s.handlers[hid];
            var looked := Apply(s, Select(hid));
            && Enabled(looked, Insert(hid))
            && var inserted := Apply(looked, Insert(hid));
               && Enabled(inserted, Acknowledge(hid, ts))
               && Apply(inserted, Acknowledge(hid, ts))
                  == s.(world := s.world.(stored := s.world.stored + [RowOf(h)],
                                          signed := s.world.signed + {AckOf(h.env, h.org, ts)}),
                        handlers := s.handlers - {hid})
  {
    hide Apply, Enabled, HasRow, Key, AckOf;
    Looks(s, hid);
    var looked := Apply(s, Select(hid));
    NextEnabled(looked, hid, ts);
    Stores(looked, hid);
    var inserted := Apply(looked, Insert(hid));
    NextEnabled(inserted, hid, ts);
    Answers(inserted, hid, ts);
    assert inserted.handlers - {hid} == s.handlers - {hid};
  }

  /** A handler that finds the row stored by another one in the meantime stores nothing. */
  lemma LateInsertIsIdle(s: State, hid: nat)
    requires Enabled(s, Insert(hid)) && HasRow(s.world.stored, s.handlers[hid].org, Key(s.handlers[hid].env))
    ensures Apply(s, Insert(hid)) == s.(handlers := s.handlers[hid := s.handlers[hid].(phase := Settled)])
  {
  }

  // ---- waiting for acknowledgements ---------------------------------------------------------------

  predicate Resolves(step: Step, k: Waiter) {
    match step
    case HubAckArrives(org, nonce) => k == Waiter(org, nonce, Hub)
    case EndAckArrives(org, env) => k == Waiter(org, env.nonce, End)
    case _ => false
  }

  /** Some step that the run took resolved this wait. */
  ghost predicate Resolved(steps: seq<Step>, orderly: bool, k: Waiter) {
    exists i :: 0 <= i < |steps| && Allowed(Exec(steps[..i], orderly), steps[i], orderly) && Resolves(steps[i], k)
  }

  lemma ResolvedLater(steps: seq<Step>, step: Step, orderly: bool, k: Waiter)
    ensures Resolved(steps, orderly, k) ==> Resolved(steps + [step], orderly, k)
    ensures Allowed(Exec(steps, orderly), step, orderly) && Resolves(step, k) ==> Resolved(steps + [step], orderly, k)
  {
    hide Exec, Resolves, Allowed;
    var all := steps + [step];
    assert all[..|steps|] == steps && all[|steps|] == step;
    if Resolved(steps, orderly, k) {
      var i :| 0 <= i < |steps| && Allowed(Exec(steps[..i], orderly), steps[i], orderly) && Resolves(steps[i], k);
      assert all[..i] == steps[..i] && all[i] == steps[i];
    }
  }

  lemma WaiterIsResolved(s: State, step: Step, k: Waiter)
    requires Enabled(s, step) && k in Apply(s, step).waiters && Apply(s, step).waiters[k]
    ensures (k in s.waiters && s.waiters[k]) || Resolves(step, k)
  {
  }

  lemma {:induction false} ResolvedWaiters(steps: seq<Step>, orderly: bool, k: Waiter)
    requires k in Exec(steps, orderly).waiters && Exec(steps, orderly).waiters[k]
    ensures Resolved(steps, orderly, k)
  {
    hide Resolved, Apply;
    var n := |steps| - 1;
    var before, step := Exec(steps[..n], orderly), steps[n];
    assert steps == steps[..n] + [step];
    ResolvedLater(steps[..n], step, orderly, k);
    if Allowed(before, step, orderly) {
      WaiterIsResolved(before, step, k);
    }
    if k in before.waiters && before.waiters[k] {
      ResolvedWaiters(steps[..n], orderly, k);
    }
  }

  /** A send goes on past a wait only when an acknowledgement of that kind under its own nonce has
      come in for its organisation: from the hub, and then from the addressee. */
  lemma GoesOnOnlyIfResolved(steps: seq<Step>, orderly: bool, tid: nat)
    requires var s := Exec(steps, orderly); Enabled(s, MarkHubAcked(tid)) || Enabled(s, MarkDelivered(tid))
    ensures var s := Exec(steps, orderly);
            && tid in s.tasks && (s.tasks[tid].phase.WaitingHub? || s.tasks[tid].phase.WaitingEnd?)
            && var x := s.tasks[tid].phase;
               Resolved(steps, orderly,
                        Waiter(FromOf(s, s.tasks[tid].mid), x.nonce, if x.WaitingHub? then Hub else End))
  {
    hide Exec, Resolved, Apply;
    var s := Exec(steps, orderly);
    var x := s.tasks[tid].phase;
    ResolvedWaiters(steps, orderly, Waiter(FromOf(s, s.tasks[tid].mid), x.nonce, if x.WaitingHub? then Hub else End));
  }
}
