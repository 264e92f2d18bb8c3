/** Exactly-once delivery: the theorems of every run, overlapping sweeps, repeated sends and retries
    with other addressees included. */
module CrossOrgOnce {
  import opened Options
  import opened Text
  import opened Envelopes
  import opened CrossOrgDelivery
  import opened CrossOrgSafety
  import opened CrossOrgRoutes

  // ---- the theorems ---------------------------------------------------------------

  ghost predicate IsRowOf(r: Row, org: string, mid: string) {
    r.org == org && r.key == "msg:" + mid
  }

  lemma KeyInjective(a: Envelope, mid: string)
    requires a.msgId != "" && Key(a) == "msg:" + mid
    ensures a.msgId == mid
  {
    assert Key(a)[4..] == a.msgId;
    assert ("msg:" + mid)[4..] == mid;
  }

  /** Two envelopes share a key exactly when they name the same message, or when neither names one
      and they carry the same nonce. */
  lemma SameKeyExactly(a: Envelope, b: Envelope)
    ensures Key(a) == Key(b) <==> a.msgId == b.msgId && (a.msgId == "" ==> a.nonce == b.nonce)
  {
    var x := if a.msgId != "" then a.msgId else a.nonce;
    var y := if b.msgId != "" then b.msgId else b.nonce;
    assert Key(a)[4..] == x && Key(b)[4..] == y;
    assert Key(a)[0] == (if a.msgId != "" then 'm' else 'o');
    assert Key(b)[0] == (if b.msgId != "" then 'm' else 'o');
  }

  /** The attempt that left this row: signed by the organisation of the message, and asked for by some
      step of the run, which gave the organisation that holds the row, the identity numbers from and
      for which it is stored, and its payload. */
  ghost predicate Origin(steps: seq<Step>, orderly: bool, e: Envelope, r: Row, mid: string) {
    var w := Exec(steps, orderly).world;
    && IsMsg(w, e) && e.msgId == mid && SchemaOk(e) && e.fromOrg != r.org
    && e.toOrg == r.org && e.fromAin == r.fromAin && e.toAin == r.toAin
    && mid in w.messages && e.fromOrg == w.messages[mid].from
    && Asked(steps, orderly, mid, Route(r.org, r.fromAin, r.toAin), r.payload)
  }

  lemma RowHasOrigin(steps: seq<Step>, orderly: bool, i: nat, org: string, mid: string) returns (e: Envelope)
    requires var w := Exec(steps, orderly).world; i < |w.stored| && IsRowOf(w.stored[i], org, mid)
    ensures Leaves(Exec(steps, orderly).world, e, Exec(steps, orderly).world.stored[i])
    ensures Origin(steps, orderly, e, Exec(steps, orderly).world.stored[i], mid)
  {
    hide Exec, Asked;
    RunInv(steps, orderly);
    var w := Exec(steps, orderly).world;
    assert Genuine(w, w.stored[i]);
    e :| Leaves(w, e, w.stored[i]);
    KeyInjective(e, mid);
    SentAsAsked(steps, orderly, e);
  }

  /** At most once: no organisation ever holds two rows of one message, and a row it holds came
      from an attempt to send that message there, from and for those identity numbers and with that
      payload, that some step of the run asked for. */
  lemma AtMostOnce(steps: seq<Step>, orderly: bool, org: string, mid: string, i: nat, j: nat)
    requires var st := Exec(steps, orderly).world.stored;
             i < |st| && j < |st| && IsRowOf(st[i], org, mid) && IsRowOf(st[j], org, mid)
    ensures i == j
    ensures exists e :: Origin(steps, orderly, e, Exec(steps, orderly).world.stored[i], mid)
  {
    hide Exec, Asked;
    RunInv(steps, orderly);
    var e := RowHasOrigin(steps, orderly, i, org, mid);
    assert UniqueRows(Exec(steps, orderly).world.stored);
  }

  lemma DeliveredHasRow(w: World, mid: string) returns (org: string, i: nat)
    requires WorldInv(w) && Landed(w, mid)
    ensures i < |w.stored| && IsRowOf(w.stored[i], org, mid)
  {
    var e :| IsMsg(w, e) && e.msgId == mid && HasRow(w.stored, e.toOrg, Key(e));
    org := e.toOrg;
    i :| i < |w.stored| && w.stored[i].org == e.toOrg && w.stored[i].key == Key(e);
  }

  /** Exactly once: whatever the network, the retries and repeated sends did, a message marked
      delivered has a stored row at an organisation it was sent to, exactly one there, carrying the
      payload of one of its sends. */
  lemma DeliveredExactlyOnce(steps: seq<Step>, orderly: bool, mid: string)
    returns (org: string, i: nat)
    requires var s := Exec(steps, orderly); mid in s.delivery && s.delivery[mid].status == Delivered
    ensures var w := Exec(steps, orderly).world;
            && i < |w.stored| && IsRowOf(w.stored[i], org, mid)
            && (exists e :: Origin(steps, orderly, e, w.stored[i], mid))
            && forall j :: 0 <= j < |w.stored| && IsRowOf(w.stored[j], org, mid) ==> j == i
  {
    RunInv(steps, orderly);
    var w := Exec(steps, orderly).world;
    assert Landed(w, mid);
    org, i := DeliveredHasRow(w, mid);
    var e := RowHasOrigin(steps, orderly, i, org, mid);
    forall j: nat | j < |w.stored| && IsRowOf(w.stored[j], org, mid) ensures j == i {
      AtMostOnce(steps, orderly, org, mid, i, j);
    }
  }

  /** When all attempts went to one organisation, a delivered message has exactly one row anywhere. */
  lemma OneRowInAll(steps: seq<Step>, orderly: bool, mid: string, org: string) returns (i: nat)
    requires var s := Exec(steps, orderly); mid in s.delivery && s.delivery[mid].status == Delivered
    requires var w := Exec(steps, orderly).world;
             forall e :: IsMsg(w, e) && e.msgId == mid ==> e.toOrg == org
    ensures var w := Exec(steps, orderly).world;
            && i < |w.stored| && IsRowOf(w.stored[i], org, mid)
            && forall j :: 0 <= j < |w.stored| && w.stored[j].key == "msg:" + mid ==> j == i
  {
    RunInv(steps, orderly);
    var w := Exec(steps, orderly).world;
    var held: string;
    held, i := DeliveredExactlyOnce(steps, orderly, mid);
    var e := RowHasOrigin(steps, orderly, i, held, mid);
    forall j: nat | j < |w.stored| && w.stored[j].key == "msg:" + mid ensures j == i {
      var f := RowHasOrigin(steps, orderly, j, w.stored[j].org, mid);
      AtMostOnce(steps, orderly, org, mid, i, j);
    }
  }

  /** A delivered message had an attempt whose envelope carried identity numbers of 1 to 128
      characters on both sides; an attempt without them is refused at the other end, and only
      another attempt, with numbers read afresh, can deliver the message. */
  lemma DeliveredHadValidAttempt(steps: seq<Step>, orderly: bool, mid: string) returns (e: Envelope)
    requires var s := Exec(steps, orderly); mid in s.delivery && s.delivery[mid].status == Delivered
    ensures var w := Exec(steps, orderly).world; IsMsg(w, e) && HasRow(w.stored, e.toOrg, Key(e))
    ensures e.msgId == mid && 0 < |mid| <= 128 && 0 < |e.fromAin| <= 128 && 0 < |e.toAin| <= 128
  {
    RunInv(steps, orderly);
    var w := Exec(steps, orderly).world;
    var org, i := DeliveredExactlyOnce(steps, orderly, mid);
    e := RowHasOrigin(steps, orderly, i, org, mid);
  }

  /** Where an offer comes from. */
  lemma OfferStep(s: State, step: Step, mid: string, payload: string)
    requires Enabled(s, step) && Offer(mid, payload) in Apply(s, step).world.offers
    ensures || Offer(mid, payload) in s.world.offers
            || (step.Send? && step.mid == mid && step.content.payload == payload)
            || (step.SendAgain? && step.mid == mid && step.payload == payload)
  {
  }

  lemma MessagesStay(s: State, step: Step, mid: string)
    requires Enabled(s, step)
    ensures mid in s.world.messages ==>
              mid in Apply(s, step).world.messages && Apply(s, step).world.messages[mid] == s.world.messages[mid]
    ensures (step.Send? || step.SendAgain?) && step.mid == mid ==> mid in Apply(s, step).world.messages
    ensures step.Send? && step.mid == mid ==> Apply(s, step).world.messages[mid] == step.content
  {
  }

  /** Some call sent the message again with this payload. */
  predicate SentAgain(steps: seq<Step>, mid: string, payload: string) {
    exists k :: 0 <= k < |steps| && steps[k].SendAgain? && steps[k].mid == mid && steps[k].payload == payload
  }

  lemma SentAgainLater(before: seq<Step>, step: Step, mid: string, payload: string)
    ensures SentAgain(before, mid, payload) ==> SentAgain(before + [step], mid, payload)
    ensures step.SendAgain? && step.mid == mid && step.payload == payload ==> SentAgain(before + [step], mid, payload)
  {
    assert (before + [step])[|before|] == step;
    if k :| 0 <= k < |before| && before[k].SendAgain? && before[k].mid == mid && before[k].payload == payload {
      assert (before + [step])[k] == before[k];
    }
  }

  /** Every payload offered for a message is its row's, unless a repeated send brought another. */
  lemma {:induction false} OffersOf(steps: seq<Step>, orderly: bool, mid: string, payload: string)
    requires Offer(mid, payload) in Exec(steps, orderly).world.offers
    ensures mid in Exec(steps, orderly).world.messages
    ensures || payload == Exec(steps, orderly).world.messages[mid].payload
            || (!orderly && SentAgain(steps, mid, payload))
  {
    var n := |steps| - 1;
    var before, step := Exec(steps[..n], orderly), steps[n];
    assert steps == steps[..n] + [step];
    SentAgainLater(steps[..n], step, mid, payload);
    if Offer(mid, payload) in before.world.offers {
      OffersOf(steps[..n], orderly, mid, payload);
    }
    if Allowed(before, step, orderly) {
      OfferStep(before, step, mid, payload);
      MessagesStay(before, step, mid);
    }
  }

  // ---- the sender's row -------------------------------------------------------------------------

  /** Some step that the run took inserted the message with this content. */
  ghost predicate Inserted(steps: seq<Step>, orderly: bool, mid: string, c: Content) {
    exists k :: 0 <= k < |steps| && Allowed(Exec(steps[..k], orderly), steps[k], orderly)
                && steps[k].Send? && steps[k].mid == mid && steps[k].content == c
  }

  lemma InsertedLater(steps: seq<Step>, step: Step, orderly: bool, mid: string, c: Content)
    ensures Inserted(steps, orderly, mid, c) ==> Inserted(steps + [step], orderly, mid, c)
    ensures Allowed(Exec(steps, orderly), step, orderly) && step.Send? && step.mid == mid && step.content == c ==>
              Inserted(steps + [step], orderly, mid, c)
  {
    hide Exec, Allowed;
    var all := steps + [step];
    assert all[..|steps|] == steps && all[|steps|] == step;
    if Inserted(steps, orderly, mid, c) {
      var k :| 0 <= k < |steps| && Allowed(Exec(steps[..k], orderly), steps[k], orderly)
               && steps[k].Send? && steps[k].mid == mid && steps[k].content == c;
      assert all[..k] == steps[..k] && all[k] == steps[k];
    }
  }

  lemma NewMessages(s: State, step: Step, mid: string)
    requires Enabled(s, step) && mid in Apply(s, step).world.messages
    ensures var c := Apply(s, step).world.messages[mid];
            (mid in s.world.messages && s.world.messages[mid] == c)
            || (step.Send? && step.mid == mid && step.content == c)
  {
  }

  /** A message's row says what the first send said, and never changes. */
  lemma {:induction false} RowSaysWhatWasSent(steps: seq<Step>, orderly: bool, mid: string)
    requires mid in Exec(steps, orderly).world.messages
    ensures Inserted(steps, orderly, mid, Exec(steps, orderly).world.messages[mid])
  {
    hide Inserted, Apply;
    var n := |steps| - 1;
    var before, step := Exec(steps[..n], orderly), steps[n];
    assert steps == steps[..n] + [step];
    InsertedLater(steps[..n], step, orderly, mid, Exec(steps, orderly).world.messages[mid]);
    if Allowed(before, step, orderly) {
      NewMessages(before, step, mid);
    }
    if mid in before.world.messages {
      RowSaysWhatWasSent(steps[..n], orderly, mid);
    }
  }
}
