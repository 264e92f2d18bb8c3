/** Which calls the guard accepts, said without the ring: from the accepted calls and the hash alone. */
module ReplayCover {
  import opened Options
  import opened NonceCodec
  import opened ReplayWindow

  /** Some nonce accepted in second `t` has a hash that meets `v` in the bits of a slice. */
  ghost predicate Meets(h: Hash, accepted: seq<Call>, t: int, v: nat) {
    exists k, j :: 0 <= k < |accepted| && 0 <= j < 7 && accepted[k].clock.record / 1000 == t
                   && h(accepted[k].nonce, j) % 100000 == v % 100000
  }

  /** The nonces accepted in second `t` cover this one: each of its seven hashes meets one of theirs. */
  ghost predicate Covered(h: Hash, accepted: seq<Call>, nonce: string, t: int) {
    forall i :: 0 <= i < 7 ==> Meets(h, accepted, t, h(nonce, i))
  }

  ghost predicate AcceptedIn(accepted: seq<Call>, t: int) {
    exists k :: 0 <= k < |accepted| && accepted[k].clock.record / 1000 == t
  }

  // ---- the ring is what was accepted ----------------------------------------------------------

  /** A used slot holds exactly the marks of the nonces accepted in its second. */
  ghost predicate SlotExact(s: Slot, h: Hash, accepted: seq<Call>) {
    s.ts != 0 ==>
      && AcceptedIn(accepted, s.ts)
      && forall p: nat :: p in s.marks <==> p < M && Meets(h, accepted, s.ts, p)
  }

  /** A second in which something was accepted has its slot, until a later second takes it over or a
      clean-up finds it too old. */
  ghost predicate Kept(r: Ring, accepted: seq<Call>, t: nat)
    requires Shaped(r)
  {
    || r.slots[t % WINDOW].ts == t
    || (exists later :: later > t && later % WINDOW == t % WINDOW && AcceptedIn(accepted, later))
    || t + WINDOW < r.lastCleanup
  }

  ghost predicate CoverInv(o: Outcome, h: Hash, now: nat)
    requires Shaped(o.ring)
  {
    && o.ring.lastCleanup <= now
    && (forall i :: 0 <= i < WINDOW && o.ring.slots[i].ts != 0 ==> o.ring.slots[i].ts % WINDOW == i)
    && (forall i :: 0 <= i < WINDOW ==> SlotExact(o.ring.slots[i], h, o.accepted))
    && (forall t: nat :: AcceptedIn(o.accepted, t) ==> t <= now && Kept(o.ring, o.accepted, t))
  }

  lemma MarksMeet(h: Hash, nonce: string, p: nat)
    ensures p in Marks(h, nonce) <==> p < M && exists j :: 0 <= j < 7 && h(nonce, j) % 100000 == p % 100000
  {
    if p in Marks(h, nonce) {
      var j :| 0 <= j < K && Positions(h, nonce)[j] == p;
    }
    if j :| 0 <= j < 7 && h(nonce, j) % 100000 == p % 100000 && p < M {
      assert Positions(h, nonce)[j] == p;
    }
  }

  lemma MeetsMore(h: Hash, accepted: seq<Call>, c: Call, t: int, v: nat)
    ensures Meets(h, accepted + [c], t, v)
            <==> Meets(h, accepted, t, v)
                 || (c.clock.record / 1000 == t && exists j :: 0 <= j < 7 && h(c.nonce, j) % 100000 == v % 100000)
    ensures AcceptedIn(accepted + [c], t) <==> AcceptedIn(accepted, t) || c.clock.record / 1000 == t
  {
    var all := accepted + [c];
    assert all[|accepted|] == c;
    assert forall k :: 0 <= k < |accepted| ==> all[k] == accepted[k];
  }

  lemma CleanedCovers(o: Outcome, h: Hash, now: nat, later: nat)
    requires Shaped(o.ring) && CoverInv(o, h, now) && now <= later
    ensures CoverInv(o.(ring := Cleaned(o.ring, later)), h, later)
  {
    hide Meets, AcceptedIn;
    var r := Cleaned(o.ring, later);
    forall t: nat | AcceptedIn(o.accepted, t) ensures Kept(r, o.accepted, t) {
      assert Kept(o.ring, o.accepted, t);
    }
  }

  /** The slot of a second in which something was accepted is still its own in that second. */
  lemma NotTakenYet(o: Outcome, h: Hash, now: nat, t: nat)
    requires Shaped(o.ring) && CoverInv(o, h, now) && now <= t && AcceptedIn(o.accepted, t)
    ensures o.ring.slots[t % WINDOW].ts == t
  {
    assert Kept(o.ring, o.accepted, t);
    assert forall later: nat :: AcceptedIn(o.accepted, later) ==> later <= now;
  }

  lemma RecordedSlot(o: Outcome, h: Hash, now: nat, c: Call, i: nat)
    requires Shaped(o.ring) && CoverInv(o, h, now) && now <= Second(c) && i < WINDOW
    ensures SlotExact(Recorded(o.ring, h, c.nonce, Second(c)).slots[i], h, o.accepted + [c])
  {
    hide Meets, AcceptedIn;
    var s, s' := o.ring.slots[i], Recorded(o.ring, h, c.nonce, Second(c)).slots[i];
    MeetsMore(h, o.accepted, c, s'.ts, 0);
    forall p: nat ensures s'.ts != 0 ==> (p in s'.marks <==> p < M && Meets(h, o.accepted + [c], s'.ts, p)) {
      MeetsMore(h, o.accepted, c, s'.ts, p);
      MarksMeet(h, c.nonce, p);
      if i == Second(c) % WINDOW && s.ts != Second(c) {
        NothingYet(o, h, now, Second(c), p);
      }
    }
  }

  lemma NothingYet(o: Outcome, h: Hash, now: nat, t: nat, p: nat)
    requires Shaped(o.ring) && CoverInv(o, h, now) && now <= t && o.ring.slots[t % WINDOW].ts != t
    ensures !Meets(h, o.accepted, t, p)
  {
    if Meets(h, o.accepted, t, p) {
      assert AcceptedIn(o.accepted, t);
      NotTakenYet(o, h, now, t);
    }
  }

  lemma RecordedCovers(o: Outcome, h: Hash, now: nat, c: Call)
    requires Shaped(o.ring) && CoverInv(o, h, now) && now <= Second(c)
    ensures CoverInv(Outcome(Recorded(o.ring, h, c.nonce, Second(c)), o.accepted + [c]), h, Second(c))
  {
    hide Meets, AcceptedIn, Kept, SlotExact;
    var r', all := Recorded(o.ring, h, c.nonce, Second(c)), o.accepted + [c];
    forall i | 0 <= i < WINDOW ensures SlotExact(r'.slots[i], h, all) {
      RecordedSlot(o, h, now, c, i);
    }
    forall t: nat | AcceptedIn(all, t) ensures t <= Second(c) && Kept(r', all, t) {
      MeetsMore(h, o.accepted, c, t, 0);
      StaysKept(o, h, now, c, t);
    }
  }

  lemma StaysKept(o: Outcome, h: Hash, now: nat, c: Call, t: nat)
    requires Shaped(o.ring) && CoverInv(o, h, now) && now <= Second(c)
    requires AcceptedIn(o.accepted, t) || t == Second(c)
    ensures Kept(Recorded(o.ring, h, c.nonce, Second(c)), o.accepted + [c], t)
  {
    hide Meets, AcceptedIn, SlotExact;
    MeetsMore(h, o.accepted, c, Second(c), 0);
    if t != Second(c) {
      assert Kept(o.ring, o.accepted, t);
      if later :| later > t && later % WINDOW == t % WINDOW && AcceptedIn(o.accepted, later) {
        MeetsMore(h, o.accepted, c, later, 0);
      }
    }
  }

  lemma {:induction false} RunCovers(h: Hash, start: nat, calls: seq<Call>)
    requires Clocked(start, calls)
    ensures CoverInv(Run(h, start, calls), h, LastReading(start, calls) / 1000)
  {
    if calls != [] {
      hide CoverInv, Recorded, Cleaned;
      var before, c := calls[..|calls| - 1], calls[|calls| - 1];
      assert Clocked(start, before) && LastReading(start, before) <= c.clock.validate;
      RunCovers(h, start, before);
      CallCovers(Run(h, start, before), h, LastReading(start, before) / 1000, c);
    } else {
      NothingAccepted(h, start / 1000);
    }
  }

  lemma NothingAccepted(h: Hash, now: nat)
    ensures CoverInv(Outcome(Fresh(now), []), h, now)
  {
  }

  lemma Ages(o: Outcome, h: Hash, now: nat, later: nat)
    requires Shaped(o.ring) && CoverInv(o, h, now) && now <= later
    ensures CoverInv(o, h, later)
  {
  }

  lemma CallCovers(o: Outcome, h: Hash, now: nat, c: Call)
    requires Shaped(o.ring) && CoverInv(o, h, now) && Forward(c.clock) && now <= c.clock.validate / 1000
    ensures CoverInv(Outcome(Checked(o.ring, h, c.nonce, c.clock),
                             if Accepts(o.ring, h, c.nonce, c.clock) then o.accepted + [c] else o.accepted),
                     h, Second(c))
  {
    hide CoverInv, Recorded, Hit, TimestampOk;
    var cleanup := c.clock.cleanup / 1000;
    Ages(o, h, now, Second(c));
    CleanedCovers(o, h, now, cleanup);
    var cleaned := o.(ring := Cleaned(o.ring, cleanup));
    Ages(cleaned, h, cleanup, Second(c));
    RecordedCovers(cleaned, h, cleanup, c);
  }

  // ---- who is refused -----------------------------------------------------------------------------

  lemma CoveredMarks(s: Slot, h: Hash, accepted: seq<Call>, nonce: string)
    requires s.ts != 0 && SlotExact(s, h, accepted)
    ensures Marks(h, nonce) <= s.marks <==> Covered(h, accepted, nonce, s.ts)
  {
    forall i | 0 <= i < 7
      ensures Positions(h, nonce)[i] in s.marks <==> Meets(h, accepted, s.ts, h(nonce, i))
    {
      SameBits(h, accepted, s.ts, h(nonce, i));
    }
    if Marks(h, nonce) <= s.marks {
      forall i | 0 <= i < 7 ensures Meets(h, accepted, s.ts, h(nonce, i)) {
        assert Positions(h, nonce)[i] in Marks(h, nonce);
      }
    }
    if Covered(h, accepted, nonce, s.ts) {
      forall p | p in Marks(h, nonce) ensures p in s.marks {
        var i :| 0 <= i < K && Positions(h, nonce)[i] == p;
        assert Meets(h, accepted, s.ts, h(nonce, i));
      }
    }
  }

  lemma SameBits(h: Hash, accepted: seq<Call>, t: int, v: nat)
    ensures Meets(h, accepted, t, v % 100000) <==> Meets(h, accepted, t, v)
  {
    assert v % 100000 % 100000 == v % 100000;
  }

  /** The cleaned ring hits a nonce exactly when a second of the last 300 covers it whose slot was not
      taken over. */
  lemma HitExactly(o: Outcome, h: Hash, nonce: string, cleanup: nat, scan: nat)
    requires Shaped(o.ring) && CoverInv(o, h, cleanup) && o.ring.lastCleanup == cleanup && cleanup <= scan
    requires forall k :: 0 <= k < |o.accepted| ==> o.accepted[k].clock.record >= 1000
    ensures Hit(o.ring, h, nonce, scan)
            <==> exists t: nat :: t + 300 >= scan && Covered(h, o.accepted, nonce, t)
                                  && !AcceptedIn(o.accepted, t + 300)
  {
    hide Marks, Meets;
    if i :| 0 <= i < WINDOW && SlotHit(o.ring.slots[i], h, nonce, scan) {
      var t := o.ring.slots[i].ts;
      CoveredMarks(o.ring.slots[i], h, o.accepted, nonce);
      if AcceptedIn(o.accepted, t + 300) {
        TakenOver(o, h, cleanup, t);
      }
      assert t + 300 >= scan && Covered(h, o.accepted, nonce, t) && !AcceptedIn(o.accepted, t + 300);
    }
    if t: nat :| t + 300 >= scan && Covered(h, o.accepted, nonce, t) && !AcceptedIn(o.accepted, t + 300) {
      SlotIsThere(o, h, nonce, cleanup, t);
      CoveredMarks(o.ring.slots[t % WINDOW], h, o.accepted, nonce);
      assert SlotHit(o.ring.slots[t % WINDOW], h, nonce, scan);
    }
  }

  lemma TakenOver(o: Outcome, h: Hash, now: nat, t: nat)
    requires Shaped(o.ring) && CoverInv(o, h, now) && now <= t + 300 && AcceptedIn(o.accepted, t + 300)
    ensures o.ring.slots[t % WINDOW].ts != t
  {
    NotTakenYet(o, h, now, t + 300);
    assert (t + 300) % WINDOW == t % WINDOW;
  }

  lemma SlotIsThere(o: Outcome, h: Hash, nonce: string, now: nat, t: nat)
    requires Shaped(o.ring) && CoverInv(o, h, now) && o.ring.lastCleanup == now && now <= t + 300
    requires Covered(h, o.accepted, nonce, t) && !AcceptedIn(o.accepted, t + 300)
    requires forall k :: 0 <= k < |o.accepted| ==> o.accepted[k].clock.record >= 1000
    ensures t != 0 && o.ring.slots[t % WINDOW].ts == t
  {
    assert Meets(h, o.accepted, t, h(nonce, 0));
    assert AcceptedIn(o.accepted, t);
    assert Kept(o.ring, o.accepted, t);
    if later :| later > t && later % WINDOW == t % WINDOW && AcceptedIn(o.accepted, later) {
      OneRound(t, later);
    }
  }

  lemma OneRound(t: nat, later: int)
    requires t < later <= t + 300 && later % WINDOW == t % WINDOW
    ensures later == t + 300
  {
  }

  /** Which call is accepted, without a word about the ring: the nonce is not empty and carries a stamp
      at most 300 seconds old and at most five seconds ahead, and no second from 300 before the scan on
      covers it, except one whose slot was taken over, just 300 seconds later. */
  lemma AcceptedExactly(h: Hash, start: nat, calls: seq<Call>, c: Call)
    requires Clocked(start, calls + [c])
    ensures var accepted := Run(h, start, calls).accepted;
            Accepts(Run(h, start, calls).ring, h, c.nonce, c.clock)
            <==> && c.nonce != "" && ParseNonce(c.nonce).Some?
                 && -5000 <= c.clock.validate - ParseNonce(c.nonce).value.timestampMs <= 300000
                 && forall t: nat :: t + 300 >= c.clock.scan / 1000 && Covered(h, accepted, c.nonce, t)
                                     ==> AcceptedIn(accepted, t + 300)
  {
    hide Hit, Covered, AcceptedIn, CoverInv;
    var o, cleanup := Run(h, start, calls), c.clock.cleanup / 1000;
    BeforeCall(h, start, calls, c);
    CleanedCovers(o, h, LastReading(start, calls) / 1000, cleanup);
    HitExactly(o.(ring := Cleaned(o.ring, cleanup)), h, c.nonce, cleanup, c.clock.scan / 1000);
  }

  lemma BeforeCall(h: Hash, start: nat, calls: seq<Call>, c: Call)
    requires Clocked(start, calls + [c])
    ensures Clocked(start, calls) && LastReading(start, calls) <= c.clock.validate && Forward(c.clock)
    ensures CoverInv(Run(h, start, calls), h, LastReading(start, calls) / 1000)
    ensures var a := Run(h, start, calls).accepted; forall k :: 0 <= k < |a| ==> a[k].clock.record >= 1000
  {
    hide CoverInv;
    var all := calls + [c];
    assert forall i :: 0 <= i < |calls| ==> all[i] == calls[i];
    assert all[|calls|] == c;
    RunCovers(h, start, calls);
    RunInv(h, start, calls);
  }

  /** So a nonce with a valid stamp, one of whose bits belongs to nothing accepted in the last 300
      seconds, is accepted, however much was accepted. */
  lemma FreshIsAccepted(h: Hash, start: nat, calls: seq<Call>, c: Call, i: nat)
    requires Clocked(start, calls + [c]) && c.nonce != "" && TimestampOk(c.nonce, c.clock.validate) && i < 7
    requires var a := Run(h, start, calls).accepted;
             forall k, j :: 0 <= k < |a| && 0 <= j < 7 && a[k].clock.record / 1000 + 300 >= c.clock.scan / 1000 ==>
               h(c.nonce, i) % 100000 != h(a[k].nonce, j) % 100000
    ensures Accepts(Run(h, start, calls).ring, h, c.nonce, c.clock)
  {
    var a := Run(h, start, calls).accepted;
    AcceptedExactly(h, start, calls, c);
    forall t: nat | t + 300 >= c.clock.scan / 1000 ensures !Covered(h, a, c.nonce, t) {
      assert !Meets(h, a, t, h(c.nonce, i));
    }
  }
}
