/** The table of ack waiters: in every run it holds exactly the waits of the coroutines that wait,
    so none is leaked and none is lost to another coroutine. */
module CrossOrgWaiters {
  import opened Options
  import opened Envelopes
  import opened CrossOrgDelivery
  import Safety = CrossOrgSafety

  /** The nonce a coroutine has sent under and still works with, and the acknowledgement that it
      waits for. */
  datatype Hold = Hold(nonce: Option<string>, wait: Option<Waiter>)

  function HoldOf(org: string, p: Phase): Hold {
    match p
    case Transmitted(n) => Hold(Some(n), None)
    case SentMarked(n) => Hold(Some(n), None)
    case WaitingHub(n) => Hold(Some(n), Some(Waiter(org, n, Hub)))
    case HubMarked(n) => Hold(Some(n), None)
    case WaitingEnd(n) => Hold(Some(n), Some(Waiter(org, n, End)))
    case _ => Hold(None, None)
  }

  function Holds(s: State): map<nat, Hold> {
    map t | t in s.tasks :: HoldOf(OrgOf(s, s.tasks[t]), s.tasks[t].phase)
  }

  /** The table is the waits that are held, and no nonce is held twice. */
  ghost predicate Exact(holds: map<nat, Hold>, table: set<Waiter>) {
    && (forall t :: t in holds && holds[t].wait.Some? ==>
          holds[t].wait.value in table && holds[t].nonce == Some(holds[t].wait.value.nonce))
    && (forall k :: k in table ==> exists t :: t in holds && holds[t].wait == Some(k))
    && (forall a, b :: a in holds && b in holds && a != b && holds[a].nonce.Some? ==>
          holds[b].nonce != holds[a].nonce)
  }

  ghost predicate Inv(s: State) {
    Exact(Holds(s), s.waiters.Keys) && forall t :: t in s.tasks ==> t < s.nextId
  }

  function Only(wait: Option<Waiter>): set<Waiter> {
    if wait.Some? then {wait.value} else {}
  }

  lemma Leaves(holds: map<nat, Hold>, table: set<Waiter>, t: nat)
    requires Exact(holds, table) && t in holds
    ensures Exact(holds - {t}, table - Only(holds[t].wait))
  {
    var rest := holds - {t};
    forall k | k in table - Only(holds[t].wait) ensures exists b :: b in rest && rest[b].wait == Some(k) {
      var b :| b in holds && holds[b].wait == Some(k);
      assert b in rest;
    }
  }

  lemma Enters(holds: map<nat, Hold>, table: set<Waiter>, t: nat, h: Hold)
    requires Exact(holds, table) && t !in holds
    requires h.nonce.Some? ==> forall b :: b in holds ==> holds[b].nonce != h.nonce
    requires h.wait.Some? ==> h.nonce == Some(h.wait.value.nonce)
    ensures Exact(holds[t := h], table + Only(h.wait))
  {
    var holds' := holds[t := h];
    forall k | k in table + Only(h.wait) ensures exists b :: b in holds' && holds'[b].wait == Some(k) {
      if k in table {
        var b :| b in holds && holds[b].wait == Some(k);
        assert holds'[b].wait == Some(k);
      } else {
        assert holds'[t].wait == Some(k);
      }
    }
  }

  /** One coroutine moves on: its old wait leaves the table, its new one enters. */
  lemma Moves(s: State, s': State, t: nat, p: Phase)
    requires Inv(s) && t in s.tasks && s'.nextId == s.nextId && s'.world.messages == s.world.messages
    requires s'.tasks == s.tasks[t := s.tasks[t].(phase := p)]
    requires var org := OrgOf(s, s.tasks[t]);
             var old0, new0 := HoldOf(org, s.tasks[t].phase), HoldOf(org, p);
             && s'.waiters.Keys == s.waiters.Keys - Only(old0.wait) + Only(new0.wait)
             && (new0.nonce.Some? && new0.nonce != old0.nonce ==>
                   forall b :: b in Holds(s) ==> Holds(s)[b].nonce != new0.nonce)
    ensures Inv(s')
  {
    hide Exact, HoldOf;
    var org := OrgOf(s, s.tasks[t]);
    Leaves(Holds(s), s.waiters.Keys, t);
    var rest := Holds(s) - {t};
    assert rest[t := HoldOf(org, p)] == Holds(s');
    NonceIsFree(s, t, p);
    Enters(rest, s.waiters.Keys - Only(HoldOf(org, s.tasks[t].phase).wait), t, HoldOf(org, p));
  }

  lemma NonceIsFree(s: State, t: nat, p: Phase)
    requires Inv(s) && t in s.tasks
    requires var new0 := HoldOf(OrgOf(s, s.tasks[t]), p);
             new0.nonce.Some? && new0.nonce != HoldOf(OrgOf(s, s.tasks[t]), s.tasks[t].phase).nonce ==>
               forall b :: b in Holds(s) ==> Holds(s)[b].nonce != new0.nonce
    ensures var new0 := HoldOf(OrgOf(s, s.tasks[t]), p);
            && (new0.nonce.Some? ==> forall b :: b in Holds(s) - {t} ==> (Holds(s) - {t})[b].nonce != new0.nonce)
            && (new0.wait.Some? ==> new0.nonce == Some(new0.wait.value.nonce))
  {
    assert Holds(s)[t] == HoldOf(OrgOf(s, s.tasks[t]), s.tasks[t].phase);
  }

  /** One coroutine ends, and with it its wait. */
  lemma Ends(s: State, s': State, t: nat)
    requires Inv(s) && t in s.tasks && s'.nextId == s.nextId && s'.world.messages == s.world.messages
    requires s'.tasks == s.tasks - {t}
    requires s'.waiters.Keys == s.waiters.Keys - Only(HoldOf(OrgOf(s, s.tasks[t]), s.tasks[t].phase).wait)
    ensures Inv(s')
  {
    hide Exact, HoldOf;
    Leaves(Holds(s), s.waiters.Keys, t);
    assert Holds(s) - {t} == Holds(s');
  }

  /** A coroutine starts; it waits for nothing yet. */
  lemma Starts(s: State, s': State, x: Task)
    requires Inv(s) && s'.nextId == s.nextId + 1 && x.phase == Started
    requires forall t :: t in s.tasks ==> FromOf(s', s.tasks[t].mid) == FromOf(s, s.tasks[t].mid)
    requires s'.tasks == s.tasks[s.nextId := x] && s'.waiters.Keys == s.waiters.Keys
    ensures Inv(s')
  {
    hide Exact;
    assert s.nextId !in s.tasks;
    Enters(Holds(s), s.waiters.Keys, s.nextId, Hold(None, None));
    assert s.waiters.Keys + Only(None) == s.waiters.Keys;
    assert Holds(s)[s.nextId := Hold(None, None)] == Holds(s');
  }

  /** Coroutines and waits are as they were. */
  lemma Stays(s: State, s': State)
    requires Inv(s) && s'.nextId >= s.nextId && s'.world.messages == s.world.messages
    requires s'.tasks == s.tasks && s'.waiters.Keys == s.waiters.Keys
    ensures Inv(s')
  {
    hide Exact, HoldOf;
    assert Holds(s') == Holds(s);
  }

  // ---- step by step -----------------------------------------------------------------------------

  lemma MarkKeeps(s: State, step: Step)
    requires Inv(s) && Enabled(s, step) && MarkStep(step)
    ensures Inv(Apply(s, step))
  {
    hide Inv, Exact, Holds;
    var s' := Apply(s, step);
    Moves(s, s', step.tid, s'.tasks[step.tid].phase);
  }

  /** The new nonce is no other coroutine's: theirs have been used. */
  lemma NonceIsNew(s: State, nonce: string)
    requires Safety.Inv(s) && !NonceUsed(s.world, nonce)
    ensures forall b :: b in Holds(s) ==> Holds(s)[b].nonce != Some(nonce)
  {
    forall b | b in s.tasks ensures Holds(s)[b].nonce != Some(nonce) {
      assert Safety.TaskOk(s.world, s.tasks[b]);
      assert !Safety.Attempt(s.world, nonce, s.tasks[b].mid);
    }
  }

  lemma TransmitKeeps(s: State, step: Step)
    requires Inv(s) && Safety.Inv(s) && Enabled(s, step) && step.Transmit?
    ensures Inv(Apply(s, step))
  {
    hide Inv, Exact, Holds, Safety.Inv, SepFree, NonceUsed;
    NonceIsNew(s, step.nonce);
    Moves(s, Apply(s, step), step.tid, Transmitted(step.nonce));
  }

  lemma FinishKeeps(s: State, step: Step)
    requires Inv(s) && Enabled(s, step) && FinishStep(step)
    ensures Inv(Apply(s, step))
  {
    hide Inv, Exact, Holds;
    Ends(s, Apply(s, step), step.tid);
  }

  lemma SendKeeps(s: State, step: Step)
    requires Inv(s) && Safety.Inv(s) && Enabled(s, step) && (step.Send? || step.SendAgain?)
    ensures Inv(Apply(s, step))
  {
    hide Inv, Exact, Holds;
    var s' := Apply(s, step);
    forall t | t in s.tasks ensures FromOf(s', s.tasks[t].mid) == FromOf(s, s.tasks[t].mid) {
      assert Safety.TaskOk(s.world, s.tasks[t]);
    }
    Starts(s, s', s'.tasks[s.nextId]);
  }

  lemma ItemKeeps(s: State, sid: nat, target: Option<Route>)
    requires Inv(s) && sid in s.sweeps && s.sweeps[sid].items != []
    ensures Inv(ProcessItem(s, sid, target))
  {
    hide Inv, Exact, Holds;
    var s' := ProcessItem(s, sid, target);
    if s'.tasks == s.tasks {
      Stays(s, s');
    } else {
      Starts(s, s', s'.tasks[s.nextId]);
    }
  }

  lemma SweepNextKeeps(s: State, step: Step)
    requires Inv(s) && Enabled(s, step) && step.SweepNext?
    ensures Inv(Apply(s, step))
  {
    hide Inv, ProcessItem;
    ItemKeeps(s, step.sid, step.target);
  }

  lemma AckKeeps(s: State, step: Step)
    requires Inv(s) && Enabled(s, step) && (step.HubAckArrives? || step.EndAckArrives?)
    ensures Inv(Apply(s, step))
  {
    hide Inv, Exact, Holds, Verified;
    assert Apply(s, step).waiters.Keys == s.waiters.Keys;
    Stays(s, Apply(s, step));
  }

  lemma HandlerKeeps(s: State, step: Step)
    requires Inv(s) && Enabled(s, step)
    requires step.Receive? || step.Select? || step.Insert? || step.Acknowledge? || step.DropHandler?
    ensures Inv(Apply(s, step))
  {
    hide Inv, Exact, Holds, Verified, SchemaOk, HasRow, Key;
    Stays(s, Apply(s, step));
  }

  lemma SweepKeeps(s: State, step: Step)
    requires Inv(s) && Enabled(s, step) && (step.BeginSweep? || step.SweepResume? || step.EndSweep?)
    ensures Inv(Apply(s, step))
  {
    hide Inv, Exact, Holds;
    Stays(s, Apply(s, step));
  }

  lemma StepKeeps(s: State, step: Step)
    requires Inv(s) && Safety.Inv(s) && Enabled(s, step)
    ensures Inv(Apply(s, step))
  {
    hide Inv, Safety.Inv, Enabled, Apply;
    if MarkStep(step) {
      MarkKeeps(s, step);
    } else if FinishStep(step) {
      FinishKeeps(s, step);
    } else if step.Transmit? {
      TransmitKeeps(s, step);
    } else if step.Send? || step.SendAgain? {
      SendKeeps(s, step);
    } else if step.SweepNext? {
      SweepNextKeeps(s, step);
    } else if step.HubAckArrives? || step.EndAckArrives? {
      AckKeeps(s, step);
    } else if step.BeginSweep? || step.SweepResume? || step.EndSweep? {
      SweepKeeps(s, step);
    } else {
      HandlerKeeps(s, step);
    }
  }

  lemma {:induction false} RunInv(steps: seq<Step>, orderly: bool)
    ensures Inv(Exec(steps, orderly))
  {
    hide Apply, Inv;
    if steps == [] {
      assert Inv(INIT) by {
        StartIsExact();
      }
    } else {
      var n := |steps| - 1;
      var before, step := Exec(steps[..n], orderly), steps[n];
      RunInv(steps[..n], orderly);
      Safety.RunInv(steps[..n], orderly);
      if Allowed(before, step, orderly) {
        StepKeeps(before, step);
      }
    }
  }

  lemma StartIsExact()
    ensures Inv(INIT)
  {
  }

  /** The coroutine waits for a hub acknowledgement, or for the addressee's, under this nonce. */
  predicate WaitsFor(s: State, t: nat, k: Waiter) {
    && t in s.tasks && FromOf(s, s.tasks[t].mid) == k.org
    && s.tasks[t].phase == (if k.kind == Hub then WaitingHub(k.nonce) else WaitingEnd(k.nonce))
  }

  /** In every run the table of waiters holds exactly the waits of the coroutines that wait for an
      acknowledgement, and each of them is one coroutine's alone. */
  lemma WaitersExact(steps: seq<Step>, orderly: bool, k: Waiter)
    ensures var s := Exec(steps, orderly);
            && (k in s.waiters <==> exists t :: WaitsFor(s, t, k))
            && forall a, b :: WaitsFor(s, a, k) && WaitsFor(s, b, k) ==> a == b
  {
    hide Exec;
    var s := Exec(steps, orderly);
    RunInv(steps, orderly);
    if k in s.waiters {
      var t :| t in Holds(s) && Holds(s)[t].wait == Some(k);
      assert WaitsFor(s, t, k);
    }
    forall t | WaitsFor(s, t, k) ensures t in Holds(s) && Holds(s)[t] == Hold(Some(k.nonce), Some(k)) {
    }
  }
}
