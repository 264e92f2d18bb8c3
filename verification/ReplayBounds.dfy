/** The other half of the replay theorems: when a nonce can be accepted again, and that the limits on
    hanging calls cannot be raised by a millisecond. */
module ReplayBounds {
  import opened Options
  import opened NonceCodec
  import opened ReplayWindow

  function At(ms: nat): Readings {
    Readings(ms, ms, ms, ms)
  }

  // ---- the ring some time after a run -----------------------------------------------------

  lemma {:induction false} CleanedBefore(h: Hash, start: nat, calls: seq<Call>)
    requires Clocked(start, calls)
    ensures Run(h, start, calls).ring.lastCleanup <= LastReading(start, calls) / 1000
  {
    if calls != [] {
      var before, c := calls[..|calls| - 1], calls[|calls| - 1];
      assert Clocked(start, before) && LastReading(start, before) <= c.clock.validate;
      CleanedBefore(h, start, before);
    }
  }

  /** A clean-up in a later second empties every slot of a second more than 300 before it. */
  lemma LaterCleanUp(h: Hash, start: nat, calls: seq<Call>, sec: nat, i: nat)
    requires Clocked(start, calls) && LastReading(start, calls) / 1000 < sec && i < WINDOW
    ensures var r := Run(h, start, calls).ring;
            && r.slots[i].ts <= LastReading(start, calls) / 1000
            && Cleaned(r, sec).lastCleanup == sec
            && Cleaned(r, sec).slots[i] == if 0 < r.slots[i].ts < sec - WINDOW then EMPTY else r.slots[i]
  {
    CleanedBefore(h, start, calls);
    RunInv(h, start, calls);
  }

  /** More than 300 seconds after the last recorded second every valid nonce is accepted. */
  lemma AcceptedAfterWindow(h: Hash, start: nat, calls: seq<Call>, nonce: string, clock: Readings)
    requires Clocked(start, calls) && LastReading(start, calls) / 1000 + WINDOW < clock.cleanup / 1000
    requires nonce != "" && TimestampOk(nonce, clock.validate)
    ensures Accepts(Run(h, start, calls).ring, h, nonce, clock)
  {
    var cleaned := Cleaned(Run(h, start, calls).ring, clock.cleanup / 1000);
    forall i | 0 <= i < WINDOW ensures cleaned.slots[i].ts == 0 {
      LaterCleanUp(h, start, calls, clock.cleanup / 1000, i);
    }
  }

  /** The slot that second `s` shares with second `s` + 300. */
  function Shared(h: Hash, start: nat, calls: seq<Call>, s: nat): Slot {
    Run(h, start, calls).ring.slots[s % WINDOW]
  }

  /** Exactly 300 seconds later only the slot of second `s` itself is still in use. */
  lemma OneSlotLeft(h: Hash, start: nat, calls: seq<Call>, s: nat, i: nat)
    requires Clocked(start, calls) && LastReading(start, calls) / 1000 == s && i < WINDOW
    ensures var cleaned := Cleaned(Run(h, start, calls).ring, s + WINDOW);
            && cleaned.lastCleanup == s + WINDOW
            && (i != s % WINDOW ==> cleaned.slots[i].ts == 0)
            && (cleaned.slots[i].ts == 0 || cleaned.slots[i] == Shared(h, start, calls, s))
  {
    LaterCleanUp(h, start, calls, s + WINDOW, i);
    RunInv(h, start, calls);
  }

  /** A nonce `x` that is accepted in the shared slot and whose marks do not cover those of `nonce`. */
  ghost predicate Displaces(h: Hash, start: nat, calls: seq<Call>, s: nat, nonce: string, x: string) {
    && x != "" && TimestampOk(x, 1000 * (s + WINDOW))
    && !(Marks(h, x) <= Shared(h, start, calls, s).marks) && !(Marks(h, nonce) <= Marks(h, x))
  }

  lemma SameSlotLater(s: nat)
    ensures (s + WINDOW) % WINDOW == s % WINDOW
  {
  }

  lemma InSecond(sec: nat)
    ensures 1000 * sec / 1000 == sec
  {
  }

  lemma DisplacerAccepted(h: Hash, start: nat, calls: seq<Call>, s: nat, nonce: string, x: string)
    requires Clocked(start, calls) && LastReading(start, calls) / 1000 == s && Displaces(h, start, calls, s, nonce, x)
    ensures Accepts(Run(h, start, calls).ring, h, x, At(1000 * (s + WINDOW)))
  {
    var cleaned := Cleaned(Run(h, start, calls).ring, s + WINDOW);
    InSecond(s + WINDOW);
    forall i | 0 <= i < WINDOW ensures !SlotHit(cleaned.slots[i], h, x, s + WINDOW) {
      OneSlotLeft(h, start, calls, s, i);
    }
  }

  lemma RunPush(h: Hash, start: nat, calls: seq<Call>, c: Call)
    requires Accepts(Run(h, start, calls).ring, h, c.nonce, c.clock)
    ensures var o := Run(h, start, calls);
            Run(h, start, calls + [c])
            == Outcome(Recorded(Cleaned(o.ring, c.clock.cleanup / 1000), h, c.nonce, Second(c)), o.accepted + [c])
  {
    assert (calls + [c])[..|calls|] == calls;
  }

  /** A ring whose only used slot is the one being taken over holds the new marks and nothing else. */
  lemma RecordedAlone(r: Ring, h: Hash, x: string, sec: nat, slot: nat, i: nat)
    requires Shaped(r) && i < WINDOW && slot == sec % WINDOW && r.slots[slot].ts != sec
    ensures var r' := Recorded(r, h, x, sec);
            && r'.lastCleanup == r.lastCleanup
            && r'.slots[i] == if i == slot then Slot(sec, Marks(h, x)) else r.slots[i]
  {
    assert {} + Marks(h, x) == Marks(h, x);
  }

  lemma NotYet(h: Hash, start: nat, calls: seq<Call>, s: nat, slot: nat)
    requires Clocked(start, calls) && LastReading(start, calls) / 1000 == s && slot < WINDOW
    ensures Cleaned(Run(h, start, calls).ring, s + WINDOW).slots[slot].ts != s + WINDOW
  {
    LaterCleanUp(h, start, calls, s + WINDOW, slot);
  }

  lemma DisplacerAlone(h: Hash, start: nat, calls: seq<Call>, s: nat, nonce: string, x: string, i: nat)
    requires Clocked(start, calls) && LastReading(start, calls) / 1000 == s && Displaces(h, start, calls, s, nonce, x)
    requires i < WINDOW
    ensures var r := Run(h, start, calls + [Call(x, At(1000 * (s + WINDOW)))]).ring;
            && r.lastCleanup == s + WINDOW
            && (r.slots[i].ts == 0 || r.slots[i] == Slot(s + WINDOW, Marks(h, x)))
  {
    DisplacerAccepted(h, start, calls, s, nonce, x);
    InSecond(s + WINDOW);
    RunPush(h, start, calls, Call(x, At(1000 * (s + WINDOW))));
    var slot := s % WINDOW;
    OneSlotLeft(h, start, calls, s, i);
    NotYet(h, start, calls, s, slot);
    SameSlotLater(s);
    RecordedAlone(Cleaned(Run(h, start, calls).ring, s + WINDOW), h, x, s + WINDOW, slot, i);
  }

  /** So the displaced nonce, still valid, is accepted in the very same millisecond. */
  lemma AcceptedAfterDisplacement(h: Hash, start: nat, calls: seq<Call>, s: nat, nonce: string, x: string)
    requires Clocked(start, calls) && LastReading(start, calls) / 1000 == s && Displaces(h, start, calls, s, nonce, x)
    requires nonce != "" && TimestampOk(nonce, 1000 * (s + WINDOW))
    ensures var t := At(1000 * (s + WINDOW)); Accepts(Run(h, start, calls + [Call(x, t)]).ring, h, nonce, t)
  {
    var r := Run(h, start, calls + [Call(x, At(1000 * (s + WINDOW)))]).ring;
    DisplacerAlone(h, start, calls, s, nonce, x, 0);
    InSecond(s + WINDOW);
    assert Cleaned(r, s + WINDOW) == r;
    forall i | 0 <= i < WINDOW ensures !SlotHit(r.slots[i], h, nonce, s + WINDOW) {
      DisplacerAlone(h, start, calls, s, nonce, x, i);
    }
  }

  // ---- continuations -----------------------------------------------------------------------

  /** `more` carries the run on, on a forward clock and without a call that hangs. */
  predicate Continues(start: nat, calls: seq<Call>, more: seq<Call>, limit: nat) {
    Clocked(start, calls + more) && Prompt(calls + more, limit)
  }

  /** The continuation accepts the nonce. */
  predicate AcceptsLater(h: Hash, start: nat, calls: seq<Call>, more: seq<Call>, nonce: string) {
    exists k :: |Run(h, start, calls).accepted| <= k < |Run(h, start, calls + more).accepted|
                && Run(h, start, calls + more).accepted[k].nonce == nonce
  }

  lemma {:induction false} AcceptedGrows(h: Hash, start: nat, calls: seq<Call>, more: seq<Call>)
    ensures Run(h, start, calls).accepted <= Run(h, start, calls + more).accepted
    decreases |more|
  {
    if more == [] {
      assert calls + more == calls;
    } else {
      AcceptedGrows(h, start, calls, more[..|more| - 1]);
      assert (calls + more)[..|calls + more| - 1] == calls + more[..|more| - 1];
    }
  }

  lemma LastCallAccepts(h: Hash, start: nat, calls: seq<Call>, before: seq<Call>, c: Call)
    requires Accepts(Run(h, start, calls + before).ring, h, c.nonce, c.clock)
    ensures AcceptsLater(h, start, calls, before + [c], c.nonce)
  {
    RunPush(h, start, calls + before, c);
    AcceptedGrows(h, start, calls, before);
    assert calls + (before + [c]) == calls + before + [c];
    assert Run(h, start, calls + before + [c]).accepted[|Run(h, start, calls + before).accepted|] == c;
  }

  lemma OneMoreCall(start: nat, calls: seq<Call>, c: Call, limit: nat)
    requires Clocked(start, calls) && Prompt(calls, limit)
    requires Forward(c.clock) && c.clock.scan <= c.clock.validate + limit
    requires LastReading(start, calls) <= c.clock.validate && start <= c.clock.validate
    ensures Continues(start, calls, [c], limit)
  {
    forall i | 0 <= i < |calls| ensures calls[i].clock.record <= c.clock.validate {
      assert calls[i].clock.record <= calls[|calls| - 1].clock.record;
    }
  }

  // ---- who can be accepted again -------------------------------------------------------------

  /** Stamped in a later second than it was accepted in, a nonce is accepted again in 301 seconds,
      under every hash. */
  lemma FutureStampReturns(h: Hash, start: nat, calls: seq<Call>, nonce: string, s: nat)
    requires Clocked(start, calls) && Prompt(calls, 1000) && LastReading(start, calls) / 1000 == s
    requires nonce != "" && TimestampOk(nonce, 1000 * (s + WINDOW + 1))
    ensures exists more :: Continues(start, calls, more, 1000) && AcceptsLater(h, start, calls, more, nonce)
  {
    var c := Call(nonce, At(1000 * (s + WINDOW + 1)));
    OneMoreCall(start, calls, c, 1000);
    AcceptedAfterWindow(h, start, calls, nonce, c.clock);
    assert calls + [] == calls && [] + [c] == [c];
    LastCallAccepts(h, start, calls, [], c);
  }

  lemma WindowLater(start: nat, calls: seq<Call>, s: nat)
    requires Clocked(start, calls) && LastReading(start, calls) / 1000 == s
    ensures LastReading(start, calls) <= 1000 * (s + WINDOW) && start <= 1000 * (s + WINDOW)
  {
  }

  lemma DisplacedReturns(h: Hash, start: nat, calls: seq<Call>, nonce: string, s: nat, x: string, c: Call, d: Call)
    requires Clocked(start, calls) && Prompt(calls, 1000) && LastReading(start, calls) / 1000 == s
    requires nonce != "" && TimestampOk(nonce, 1000 * (s + WINDOW)) && Displaces(h, start, calls, s, nonce, x)
    requires c == Call(x, At(1000 * (s + WINDOW))) && d == Call(nonce, At(1000 * (s + WINDOW)))
    ensures Continues(start, calls, [c] + [d], 1000) && AcceptsLater(h, start, calls, [c] + [d], nonce)
  {
    hide Run, Accepts, Displaces, TimestampOk, Clocked, Prompt, LastReading, Continues, AcceptsLater;
    WindowLater(start, calls, s);
    TwoMoreCalls(start, calls, c, d, 1000);
    AcceptedAfterDisplacement(h, start, calls, s, nonce, x);
    LastCallAccepts(h, start, calls, [c], d);
  }

  /** Stamped within the second it was accepted in, it is accepted again in 300 seconds, right behind
      a nonce that takes the slot over. */
  lemma SameSecondReturns(h: Hash, start: nat, calls: seq<Call>, nonce: string, s: nat, x: string)
    requires Clocked(start, calls) && Prompt(calls, 1000) && LastReading(start, calls) / 1000 == s
    requires nonce != "" && TimestampOk(nonce, 1000 * (s + WINDOW)) && Displaces(h, start, calls, s, nonce, x)
    ensures exists more :: Continues(start, calls, more, 1000) && AcceptsLater(h, start, calls, more, nonce)
  {
    hide Run, Displaces, TimestampOk, Clocked, Prompt, LastReading, Continues, AcceptsLater;
    var t := At(1000 * (s + WINDOW));
    DisplacedReturns(h, start, calls, nonce, s, x, Call(x, t), Call(nonce, t));
  }

  lemma TwoMoreCalls(start: nat, calls: seq<Call>, c: Call, d: Call, limit: nat)
    requires Clocked(start, calls) && Prompt(calls, limit) && c.clock == d.clock
    requires c.clock == At(c.clock.validate)
    requires LastReading(start, calls) <= c.clock.validate && start <= c.clock.validate
    ensures Continues(start, calls, [c] + [d], limit)
  {
    OneMoreCall(start, calls, c, limit);
    OneMoreCall(start, calls + [c], d, limit);
    assert calls + [c] + [d] == calls + ([c] + [d]);
  }

  /** A nonce just accepted can be accepted again, by prompt calls alone, exactly when it is not
      stamped before the second it was recorded in. Within that very second this takes a nonce that
      displaces its marks; after it, no hash can prevent it. */
  lemma AcceptedAgainExactly(h: Hash, start: nat, calls: seq<Call>, c: Call, ts: nat)
    requires Continues(start, calls, [c], 1000) && Accepts(Run(h, start, calls).ring, h, c.nonce, c.clock)
    requires ParseNonce(c.nonce).Some? && ts == ParseNonce(c.nonce).value.timestampMs
    requires ts / 1000 == Second(c) ==> exists x :: Displaces(h, start, calls + [c], Second(c), c.nonce, x)
    ensures (exists more ::
               Continues(start, calls + [c], more, 1000) && AcceptsLater(h, start, calls + [c], more, c.nonce))
            <==> ts >= 1000 * Second(c)
  {
    var all, s := calls + [c], Second(c);
    assert LastReading(start, all) / 1000 == s;
    if ts >= 1000 * (s + 1) {
      FutureStampReturns(h, start, all, c.nonce, s);
    } else if ts >= 1000 * s {
      var x :| Displaces(h, start, all, s, c.nonce, x);
      SameSecondReturns(h, start, all, c.nonce, s, x);
    } else {
      forall more | Continues(start, all, more, 1000) ensures !AcceptsLater(h, start, all, more, c.nonce) {
        NotAgain(h, start, calls, c, more, ts);
      }
    }
  }

  lemma NotAgain(h: Hash, start: nat, calls: seq<Call>, c: Call, more: seq<Call>, ts: nat)
    requires Accepts(Run(h, start, calls).ring, h, c.nonce, c.clock) && Continues(start, calls + [c], more, 1000)
    requires ParseNonce(c.nonce).Some? && ts == ParseNonce(c.nonce).value.timestampMs && ts < 1000 * Second(c)
    ensures !AcceptsLater(h, start, calls + [c], more, c.nonce)
  {
    var all := calls + [c];
    assert all[..|calls|] == calls;
    var j := |Run(h, start, calls).accepted|;
    AcceptedGrows(h, start, all, more);
    assert Run(h, start, all).accepted[j] == c;
    var a := Run(h, start, all + more).accepted;
    assert a[j] == c;
    forall k | |Run(h, start, all).accepted| <= k < |a| ensures a[k].nonce != c.nonce {
      OnceOnly(h, start, all + more, j, k);
    }
  }

  // ---- the limits on hanging calls are exact ------------------------------------------------------

  /** With a call that hangs for 1001 milliseconds, a nonce stamped in the last millisecond before
      its second is accepted again, under every hash. */
  lemma OnceOnlyLimitIsExact(h: Hash, start: nat, calls: seq<Call>, nonce: string, s: nat)
    requires Clocked(start, calls) && LastReading(start, calls) / 1000 == s && s > 0
    requires nonce != "" && ParseNonce(nonce).Some? && ParseNonce(nonce).value.timestampMs == 1000 * s - 1
    ensures var v, w := 1000 * (s + WINDOW) - 1, 1000 * (s + WINDOW + 1);
            var c := Call(nonce, Readings(v, w, w, w));
            && c.clock.scan == c.clock.validate + 1001 && Clocked(start, calls + [c])
            && Accepts(Run(h, start, calls).ring, h, nonce, c.clock)
  {
    var v, w := 1000 * (s + WINDOW) - 1, 1000 * (s + WINDOW + 1);
    var c := Call(nonce, Readings(v, w, w, w));
    AcceptedAfterWindow(h, start, calls, nonce, c.clock);
    forall i | 0 <= i < |calls| ensures calls[i].clock.record <= v {
      assert calls[i].clock.record <= calls[|calls| - 1].clock.record;
    }
  }

  // ---- runs that accept a nonce twice and three times -----------------------------------------------

  /** The first nonce of a run, late enough for the guard to have cleaned up. */
  lemma FirstAcceptance(h: Hash, start: nat, n: string, ms: nat, s: nat, slot: nat)
    requires 1000 <= start <= ms && ms / 1000 == s && start / 1000 + WINDOW < s && slot == s % WINDOW
    requires n != "" && TimestampOk(n, ms)
    ensures var c := Call(n, At(ms));
            && Run(h, start, [c]).accepted == [c] && Clocked(start, [c]) && Prompt([c], 0)
            && Run(h, start, [c]).ring.slots[slot] == Slot(s, Marks(h, n))
  {
    var c := Call(n, At(ms));
    AcceptedAfterWindow(h, start, [], n, c.clock);
    RunPush(h, start, [], c);
    assert [] + [c] == [c];
    LaterCleanUp(h, start, [], s, slot);
    RecordedAlone(Cleaned(Run(h, start, []).ring, s), h, n, s, slot, slot);
  }

  lemma NowDisplaced(h: Hash, n: string, x: string)
    requires ParseNonce(n).Some? && ParseNonce(n).value.timestampMs == 1005999 && n != ""
    requires ParseNonce(x).Some? && ParseNonce(x).value.timestampMs == 1300000 && x != ""
    requires Marks(h, n) == {0} && Marks(h, x) == {1}
    ensures Displaces(h, 1000, [Call(n, At(1000999))], 1000, n, x)
  {
    FirstAcceptance(h, 1000, n, 1000999, 1000, 100);
    assert 1 in Marks(h, x) && 0 in Marks(h, n);
  }

  /** Accepted almost five seconds before its stamp, displaced 300 seconds later, and accepted anew. */
  lemma {:induction false} AcceptedTwice(h: Hash, n: string, x: string) returns (calls: seq<Call>)
    requires ParseNonce(n).Some? && ParseNonce(n).value.timestampMs == 1005999 && n != ""
    requires ParseNonce(x).Some? && ParseNonce(x).value.timestampMs == 1300000 && x != ""
    requires Marks(h, n) == {0} && Marks(h, x) == {1}
    ensures Clocked(1000, calls) && Prompt(calls, 0) && LastReading(1000, calls) == 1300000
    ensures var a := Run(h, 1000, calls).accepted;
            |a| == 3 && a[0].nonce == a[2].nonce == n && Second(a[2]) == Second(a[0]) + WINDOW
  {
    var c := Call(n, At(1000999));
    FirstAcceptance(h, 1000, n, 1000999, 1000, 100);
    NowDisplaced(h, n, x);
    BothAccepted(h, 1000, [c], 1000, n, x);
    calls := [c] + [Call(x, At(1300000))] + [Call(n, At(1300000))];
    TwoMoreCalls(1000, [c], Call(x, At(1300000)), Call(n, At(1300000)), 0);
    assert calls == [c] + ([Call(x, At(1300000))] + [Call(n, At(1300000))]);
  }

  lemma BothAccepted(h: Hash, start: nat, calls: seq<Call>, s: nat, nonce: string, x: string)
    requires Clocked(start, calls) && LastReading(start, calls) / 1000 == s && Displaces(h, start, calls, s, nonce, x)
    requires nonce != "" && TimestampOk(nonce, 1000 * (s + WINDOW))
    ensures var c, d := Call(x, At(1000 * (s + WINDOW))), Call(nonce, At(1000 * (s + WINDOW)));
            Run(h, start, calls + [c] + [d]).accepted == Run(h, start, calls).accepted + [c] + [d]
  {
    var c, d := Call(x, At(1000 * (s + WINDOW))), Call(nonce, At(1000 * (s + WINDOW)));
    DisplacerAccepted(h, start, calls, s, nonce, x);
    RunPush(h, start, calls, c);
    AcceptedAfterDisplacement(h, start, calls, s, nonce, x);
    RunPush(h, start, calls + [c], d);
  }

  /** With a call that hangs for 295001 milliseconds the nonce is accepted a third time. */
  lemma {:induction false} AcceptedThrice(h: Hash, n: string, calls: seq<Call>) returns (more: seq<Call>)
    requires ParseNonce(n).Some? && ParseNonce(n).value.timestampMs == 1005999 && n != ""
    requires Clocked(1000, calls) && Prompt(calls, 0) && LastReading(1000, calls) == 1300000
    ensures Clocked(1000, more) && Prompt(more, 295001)
    ensures |more| > 0 && more[|more| - 1].nonce == n
    ensures Run(h, 1000, more).accepted == Run(h, 1000, calls).accepted + [more[|more| - 1]]
  {
    var c := Call(n, Readings(1305999, 1601000, 1601000, 1601000));
    OneMoreCall(1000, calls, c, 295001);
    AcceptedAfterWindow(h, 1000, calls, n, c.clock);
    RunPush(h, 1000, calls, c);
    more := calls + [c];
  }

  /** Such nonces exist, so both bounds are reached: two acceptances exactly 300 seconds apart by prompt
      calls, and a third one with a call that hangs one millisecond longer than NeverThrice allows. */
  lemma {:induction false} BoundsAreReached() returns (h: Hash, twice: seq<Call>, thrice: seq<Call>)
    ensures Clocked(1000, twice) && Prompt(twice, 0)
    ensures var a := Run(h, 1000, twice).accepted;
            |a| == 3 && a[0].nonce == a[2].nonce && Second(a[2]) == Second(a[0]) + WINDOW
    ensures Clocked(1000, thrice) && Prompt(thrice, 295001)
    ensures var a := Run(h, 1000, thrice).accepted;
            |a| == 4 && a[0].nonce == a[2].nonce == a[3].nonce
  {
    var pad, tag: seq<byte> := [0, 0, 0, 0, 0, 0, 0, 0], [0, 0, 0, 0];
    NonceRoundTrip(1005999, pad, tag);
    NonceRoundTrip(1300000, pad, tag);
    var n, x := GenerateNonce(1005999, pad, tag), GenerateNonce(1300000, pad, tag);
    assert ParseNonce("") == None;
    h := (s: string, i: nat) => if s == n then 0 else 1;
    ConstantMarks(h, n, 0);
    ConstantMarks(h, x, 1);
    twice := AcceptedTwice(h, n, x);
    thrice := AcceptedThrice(h, n, twice);
  }

  lemma ConstantMarks(h: Hash, s: string, v: nat)
    requires v < M && forall i: nat :: h(s, i) == v
    ensures Marks(h, s) == {v}
  {
    assert Positions(h, s)[0] == v;
  }
}
