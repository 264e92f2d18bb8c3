/** Replay protection as a specification: a ring of one-second slots, each a set of marked bit
    positions, in front of a timestamp window; and what any run of calls can accept. */
module ReplayWindow {
  import opened Options
  import opened NonceCodec

  const WINDOW := 300
  const MAX_AGE_MS := 300000
  const MAX_SKEW_MS := 5000
  const M := 100000
  const K := 7

  /** The value of the i-th hash of a nonce, before it is reduced to a bit position. */
  type Hash = (string, nat) -> nat

  function Positions(h: Hash, nonce: string): (p: seq<nat>)
    ensures |p| == K
    ensures forall i :: 0 <= i < K ==> p[i] < M
  {
    seq(K, i requires 0 <= i < K => h(nonce, i) % M)
  }

  function Marks(h: Hash, nonce: string): set<nat> {
    set p | p in Positions(h, nonce)
  }

  datatype Slot = Slot(ts: nat, marks: set<nat>)
  datatype Ring = Ring(slots: seq<Slot>, lastCleanup: nat)

  predicate Shaped(r: Ring) {
    |r.slots| == WINDOW
  }

  const EMPTY := Slot(0, {})

  function Fresh(now: nat): Ring {
    Ring(seq(WINDOW, _ => EMPTY), now)
  }

  /** The clock, in milliseconds, as one call reads it: to validate the timestamp, to clean up,
      to scan the slots and to record. */
  datatype Readings = Readings(validate: nat, cleanup: nat, scan: nat, record: nat)

  predicate TimestampOk(nonce: string, nowMs: nat) {
    match ParseNonce(nonce)
    case None => false
    case Some(p) => nowMs - p.timestampMs <= MAX_AGE_MS && nowMs - p.timestampMs >= -MAX_SKEW_MS
  }

  function Cleaned(r: Ring, now: nat): Ring
    requires Shaped(r)
  {
    if now == r.lastCleanup then r
    else
      Ring(seq(WINDOW, i requires 0 <= i < WINDOW => if 0 < r.slots[i].ts < now - WINDOW then EMPTY else r.slots[i]),
           now)
  }

  predicate SlotHit(s: Slot, h: Hash, nonce: string, now: nat) {
    s.ts != 0 && now - s.ts <= WINDOW && Marks(h, nonce) <= s.marks
  }

  predicate Hit(r: Ring, h: Hash, nonce: string, now: nat) {
    exists i :: 0 <= i < |r.slots| && SlotHit(r.slots[i], h, nonce, now)
  }

  function Recorded(r: Ring, h: Hash, nonce: string, now: nat): Ring
    requires Shaped(r)
  {
    var slot := now % WINDOW;
    var kept := if r.slots[slot].ts != now then {} else r.slots[slot].marks;
    r.(slots := r.slots[slot := Slot(now, kept + Marks(h, nonce))])
  }

  predicate Accepts(r: Ring, h: Hash, nonce: string, c: Readings)
    requires Shaped(r)
  {
    nonce != "" && TimestampOk(nonce, c.validate) && !Hit(Cleaned(r, c.cleanup / 1000), h, nonce, c.scan / 1000)
  }

  function Checked(r: Ring, h: Hash, nonce: string, c: Readings): Ring
    requires Shaped(r)
  {
    if nonce == "" || !TimestampOk(nonce, c.validate) then r
    else
      var cleaned := Cleaned(r, c.cleanup / 1000);
      if Hit(cleaned, h, nonce, c.scan / 1000) then cleaned else Recorded(cleaned, h, nonce, c.record / 1000)
  }

  // ---- runs ---------------------------------------------------------------------------

  datatype Call = Call(nonce: string, clock: Readings)

  /** What a run leaves: the ring, and the calls it accepted, in order. */
  datatype Outcome = Outcome(ring: Ring, accepted: seq<Call>)

  function Run(h: Hash, start: nat, calls: seq<Call>): (o: Outcome)
    ensures Shaped(o.ring)
  {
    if calls == [] then Outcome(Fresh(start / 1000), [])
    else
      var o := Run(h, start, calls[..|calls| - 1]);
      var c := calls[|calls| - 1];
      Outcome(Checked(o.ring, h, c.nonce, c.clock),
              if Accepts(o.ring, h, c.nonce, c.clock) then o.accepted + [c] else o.accepted)
  }

  predicate Forward(c: Readings) {
    c.validate <= c.cleanup <= c.scan <= c.record
  }

  /** The clock never runs backwards, within a call or from one call to the next, and is past
      its first second when the guard is created. */
  predicate Clocked(start: nat, calls: seq<Call>) {
    && 1000 <= start
    && (forall i :: 0 <= i < |calls| ==> Forward(calls[i].clock) && start <= calls[i].clock.validate)
    && (forall i, j :: 0 <= i < j < |calls| ==> calls[i].clock.record <= calls[j].clock.validate)
  }

  function LastReading(start: nat, calls: seq<Call>): nat {
    if calls == [] then start else calls[|calls| - 1].clock.record
  }

  function Second(c: Call): nat {
    c.clock.record / 1000
  }

  /** An accepted nonce stays marked in the slot of its second until that second is 300 old. */
  predicate Marked(r: Ring, h: Hash, c: Call)
    requires Shaped(r)
  {
    r.slots[Second(c) % WINDOW].ts == Second(c) && Marks(h, c.nonce) <= r.slots[Second(c) % WINDOW].marks
  }

  ghost predicate RingInv(o: Outcome, h: Hash, now: nat)
    requires Shaped(o.ring)
  {
    && (forall i :: 0 <= i < WINDOW && o.ring.slots[i].ts != 0 ==>
          o.ring.slots[i].ts % WINDOW == i && o.ring.slots[i].ts <= now)
    && (forall k :: 0 <= k < |o.accepted| ==>
          var c := o.accepted[k];
          && 0 < Second(c) <= now
          && (now < Second(c) + WINDOW ==> Marked(o.ring, h, c))
          && (o.ring.slots[Second(c) % WINDOW].ts == Second(c) ==> Marked(o.ring, h, c)))
  }

  lemma CleanedKeeps(o: Outcome, h: Hash, now: nat, later: nat)
    requires Shaped(o.ring) && RingInv(o, h, now) && now <= later
    ensures RingInv(o.(ring := Cleaned(o.ring, later)), h, later)
    ensures forall k :: 0 <= k < |o.accepted| && Marked(o.ring, h, o.accepted[k])
                        && later <= Second(o.accepted[k]) + WINDOW
              ==> Marked(Cleaned(o.ring, later), h, o.accepted[k])
  {
  }

  lemma RecordedKeeps(o: Outcome, h: Hash, now: nat, c: Call)
    requires Shaped(o.ring) && RingInv(o, h, now) && now <= Second(c) && 0 < Second(c)
    ensures RingInv(Outcome(Recorded(o.ring, h, c.nonce, Second(c)), o.accepted + [c]), h, Second(c))
  {
    var r' := Recorded(o.ring, h, c.nonce, Second(c));
    forall k | 0 <= k < |o.accepted|
      ensures var a := o.accepted[k];
              && (Second(c) < Second(a) + WINDOW ==> Marked(r', h, a))
              && (r'.slots[Second(a) % WINDOW].ts == Second(a) ==> Marked(r', h, a))
    {
      var a := o.accepted[k];
      SameSlot(Second(a), Second(c));
    }
  }

  lemma SameSlot(a: nat, b: nat)
    requires a <= b
    ensures a % WINDOW == b % WINDOW && b < a + WINDOW ==> a == b
  {
  }

  lemma {:induction false} RunInv(h: Hash, start: nat, calls: seq<Call>)
    requires Clocked(start, calls)
    ensures RingInv(Run(h, start, calls), h, LastReading(start, calls) / 1000)
    ensures forall k :: 0 <= k < |Run(h, start, calls).accepted| ==> Run(h, start, calls).accepted[k] in calls
  {
    if calls != [] {
      var before := calls[..|calls| - 1];
      var c := calls[|calls| - 1];
      RunInv(h, start, before);
      var o := Run(h, start, before);
      assert Clocked(start, before);
      assert LastReading(start, before) <= c.clock.validate;
      CleanedKeeps(o, h, LastReading(start, before) / 1000, c.clock.cleanup / 1000);
      var cleaned := o.(ring := Cleaned(o.ring, c.clock.cleanup / 1000));
      if Accepts(o.ring, h, c.nonce, c.clock) {
        RecordedKeeps(cleaned, h, c.clock.cleanup / 1000, c);
      }
    }
  }

  // ---- what a run can accept ------------------------------------------------------------

  /** A second acceptance of a nonce: its scan is at least 300 seconds after the second the first
      one was recorded in, and at least 301 if the call began earlier than that. */
  lemma AcceptedAgain(h: Hash, start: nat, calls: seq<Call>, c: Call, k: nat)
    requires Clocked(start, calls + [c])
    requires var o := Run(h, start, calls);
             k < |o.accepted| && o.accepted[k].nonce == c.nonce && Accepts(o.ring, h, c.nonce, c.clock)
    ensures var first := Second(Run(h, start, calls).accepted[k]);
            && first + WINDOW <= c.clock.scan / 1000 <= Second(c)
            && (c.clock.validate / 1000 < first + WINDOW ==> first + WINDOW < c.clock.scan / 1000)
  {
    var all := calls + [c];
    assert forall i :: 0 <= i < |calls| ==> all[i] == calls[i];
    assert all[|calls|] == c;
    RunInv(h, start, calls);
    var o := Run(h, start, calls);
    var a := o.accepted[k];
    var now := LastReading(start, calls) / 1000;
    assert LastReading(start, calls) <= c.clock.validate;
    CleanedKeeps(o, h, now, c.clock.cleanup / 1000);
    var cleaned := Cleaned(o.ring, c.clock.cleanup / 1000);
    if Marked(cleaned, h, a) {
      assert !SlotHit(cleaned.slots[Second(a) % WINDOW], h, c.nonce, c.clock.scan / 1000);
    }
  }

  /** Where in the run the j-th acceptance happened. */
  lemma {:induction false} AcceptedWhere(h: Hash, start: nat, calls: seq<Call>, j: nat) returns (i: nat)
    requires j < |Run(h, start, calls).accepted|
    ensures i < |calls| && calls[i] == Run(h, start, calls).accepted[j]
    ensures Run(h, start, calls[..i]).accepted == Run(h, start, calls).accepted[..j]
    ensures Accepts(Run(h, start, calls[..i]).ring, h, calls[i].nonce, calls[i].clock)
  {
    var before := calls[..|calls| - 1];
    var o, o' := Run(h, start, calls), Run(h, start, before);
    if j < |o'.accepted| {
      i := AcceptedWhere(h, start, before, j);
      assert before[..i] == calls[..i];
      assert o'.accepted[..j] == o.accepted[..j];
    } else {
      i := |calls| - 1;
      assert o.accepted[..j] == o'.accepted;
    }
  }

  lemma PrefixClocked(start: nat, calls: seq<Call>, i: nat)
    requires Clocked(start, calls) && i < |calls|
    ensures Clocked(start, calls[..i] + [calls[i]])
  {
    assert calls[..i] + [calls[i]] == calls[..i + 1];
  }

  /** Two acceptances of one nonce are at least 300 whole seconds apart. */
  lemma AcceptancesApart(h: Hash, start: nat, calls: seq<Call>, j: nat, k: nat)
    requires Clocked(start, calls)
    requires var a := Run(h, start, calls).accepted; j < k < |a| && a[j].nonce == a[k].nonce
    ensures var a := Run(h, start, calls).accepted;
            && Second(a[j]) + WINDOW <= a[k].clock.scan / 1000 <= Second(a[k])
            && (a[k].clock.validate / 1000 < Second(a[j]) + WINDOW ==> Second(a[j]) + WINDOW < a[k].clock.scan / 1000)
            && TimestampOk(a[j].nonce, a[j].clock.validate) && Forward(a[j].clock)
            && TimestampOk(a[k].nonce, a[k].clock.validate) && Forward(a[k].clock)
  {
    var i := AcceptedWhere(h, start, calls, k);
    var i' := AcceptedWhere(h, start, calls, j);
    PrefixClocked(start, calls, i);
    var a := Run(h, start, calls).accepted;
    assert a[..k][j] == a[j];
    AcceptedAgain(h, start, calls[..i], calls[i], j);
  }

  /** Calls are not suspended for longer than `limit` between validating and scanning. */
  predicate Prompt(calls: seq<Call>, limit: nat) {
    forall i :: 0 <= i < |calls| ==> calls[i].clock.scan <= calls[i].clock.validate + limit
  }

  /** No nonce is accepted three times, unless a call hangs for more than 295 seconds. */
  lemma NeverThrice(h: Hash, start: nat, calls: seq<Call>, i: nat, j: nat, k: nat)
    requires Clocked(start, calls) && Prompt(calls, 295000)
    requires var a := Run(h, start, calls).accepted; i < j < k < |a|
    ensures var a := Run(h, start, calls).accepted; !(a[i].nonce == a[j].nonce == a[k].nonce)
  {
    var a := Run(h, start, calls).accepted;
    RunInv(h, start, calls);
    assert a[k] in calls;
    if a[i].nonce == a[j].nonce == a[k].nonce {
      AcceptancesApart(h, start, calls, i, j);
      AcceptancesApart(h, start, calls, j, k);
    }
  }

  /** A nonce stamped before the second it is accepted in is never accepted again, unless a call
      hangs for more than a second. */
  lemma OnceOnly(h: Hash, start: nat, calls: seq<Call>, j: nat, k: nat)
    requires Clocked(start, calls) && Prompt(calls, 1000)
    requires var a := Run(h, start, calls).accepted; j < k < |a|
    requires var a := Run(h, start, calls).accepted;
             ParseNonce(a[j].nonce).Some? && ParseNonce(a[j].nonce).value.timestampMs < 1000 * Second(a[j])
    ensures var a := Run(h, start, calls).accepted; a[j].nonce != a[k].nonce
  {
    var a := Run(h, start, calls).accepted;
    RunInv(h, start, calls);
    assert a[k] in calls;
    if a[j].nonce == a[k].nonce {
      AcceptancesApart(h, start, calls, j, k);
    }
  }

  /** While the slot of its second is intact, every position of an accepted nonce is marked in
      it, and every used slot sits at its own second modulo 300. */
  lemma NothingForgotten(h: Hash, start: nat, calls: seq<Call>, k: nat, i: nat)
    requires Clocked(start, calls)
    requires var o := Run(h, start, calls); k < |o.accepted| && i < WINDOW
    ensures var o := Run(h, start, calls);
            var c := o.accepted[k];
            && (o.ring.slots[i].ts == Second(c) ==> Marks(h, c.nonce) <= o.ring.slots[i].marks)
            && (o.ring.slots[i].ts != 0 ==> o.ring.slots[i].ts % WINDOW == i)
            && (LastReading(start, calls) / 1000 < Second(c) + WINDOW ==>
                  o.ring.slots[Second(c) % WINDOW].ts == Second(c))
  {
    RunInv(h, start, calls);
    assert Marked(Run(h, start, calls).ring, h, Run(h, start, calls).accepted[k])
        || Run(h, start, calls).ring.slots[Second(Run(h, start, calls).accepted[k]) % WINDOW].ts
           != Second(Run(h, start, calls).accepted[k]);
  }
}
