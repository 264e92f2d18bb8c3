/** The in-process envelope-nonce cache: an insertion-ordered dictionary with a time to live and
    a capacity guard, against the unbounded map it stands for. */
module NonceLru {
  import opened Options

  datatype Entry = Entry(nonce: string, at: real)

  predicate Has(d: seq<Entry>, nonce: string) {
    exists i :: 0 <= i < |d| && d[i].nonce == nonce
  }

  ghost predicate Keyed(d: seq<Entry>) {
    forall i, j :: 0 <= i < j < |d| ==> d[i].nonce != d[j].nonce
  }

  function Find(d: seq<Entry>, nonce: string): (r: Option<real>)
    ensures r == None <==> !Has(d, nonce)
    ensures r.Some? ==> Entry(nonce, r.value) in d
  {
    if d == [] then None
    else if d[|d| - 1].nonce == nonce then Some(d[|d| - 1].at)
    else
      assert forall i :: 0 <= i < |d| - 1 ==> d[..|d| - 1][i] == d[i];
      Find(d[..|d| - 1], nonce)
  }

  /** Assigning to a key: a known key keeps its place in the order, a new one goes last. */
  function Put(d: seq<Entry>, nonce: string, at: real): seq<Entry> {
    if d == [] then [Entry(nonce, at)]
    else if d[0].nonce == nonce then [Entry(nonce, at)] + d[1..]
    else [d[0]] + Put(d[1..], nonce, at)
  }

  /** The entries younger than the time to live. */
  function Young(d: seq<Entry>, now: real, ttl: real): seq<Entry> {
    if d == [] then []
    else Young(d[..|d| - 1], now, ttl) + (if now - d[|d| - 1].at >= ttl then [] else [d[|d| - 1]])
  }

  /** `items[-maxlen // 2:]`: the division floors, so the last ceil(maxlen / 2) entries stay
      (and for maxlen 0 the slice starts at 0 and keeps them all). */
  function Halved(d: seq<Entry>, maxlen: nat): seq<Entry> {
    var keep := (maxlen + 1) / 2;
    if keep == 0 || keep >= |d| then d else d[|d| - keep..]
  }

  function Guarded(d: seq<Entry>, now: real, ttl: real, maxlen: nat): seq<Entry> {
    if |d| < maxlen then d
    else
      var young := Young(d, now, ttl);
      if |young| < maxlen then young else Halved(young, maxlen)
  }

  predicate Replay(d: seq<Entry>, nonce: string, now: real, ttl: real) {
    nonce == "" || (Find(d, nonce).Some? && now - Find(d, nonce).value < ttl)
  }

  function Seen(d: seq<Entry>, nonce: string, now: real, ttl: real, maxlen: nat): seq<Entry> {
    if Replay(d, nonce, now, ttl) then d else Put(Guarded(d, now, ttl, maxlen), nonce, now)
  }

  class Cache {
    const ttl: real
    const maxlen: nat
    var d: seq<Entry>

    constructor (ttl: real, maxlen: nat)
      ensures d == [] && this.ttl == ttl && this.maxlen == maxlen
    {
      this.ttl := ttl;
      this.maxlen := maxlen;
      d := [];
    }

    method SeenNonce(nonce: string, now: real) returns (replay: bool)
      modifies this
      ensures replay == Replay(old(d), nonce, now, ttl)
      ensures d == Seen(old(d), nonce, now, ttl, maxlen)
    {
      if nonce == "" {
        return true;
      }
      var prev := Find(d, nonce);
      if prev.Some? && now - prev.value < ttl {
        return true;
      }
      if |d| >= maxlen {
        var young: seq<Entry> := [];
        for i := 0 to |d|
          invariant young == Young(d[..i], now, ttl)
        {
          assert d[..i + 1][..i] == d[..i];
          if now - d[i].at < ttl {
            young := young + [d[i]];
          }
        }
        assert d[..|d|] == d;
        d := young;
        if |d| >= maxlen {
          d := Halved(d, maxlen);
        }
      }
      d := Put(d, nonce, now);
      return false;
    }
  }

  // ---- facts about one call ------------------------------------------------------------

  lemma HasTail(d: seq<Entry>, nonce: string)
    requires d != []
    ensures Has(d, nonce) <==> d[0].nonce == nonce || Has(d[1..], nonce)
  {
    if Has(d[1..], nonce) {
      var i :| 0 <= i < |d[1..]| && d[1..][i].nonce == nonce;
      assert d[i + 1].nonce == nonce;
    }
  }

  lemma {:induction false} PutMembers(d: seq<Entry>, nonce: string, at: real)
    requires Keyed(d)
    ensures forall e :: e in Put(d, nonce, at) <==> e == Entry(nonce, at) || (e in d && e.nonce != nonce)
    ensures |Put(d, nonce, at)| == |d| + (if Has(d, nonce) then 0 else 1)
  {
    if d != [] {
      assert d == [d[0]] + d[1..];
      HasTail(d, nonce);
      if d[0].nonce == nonce {
        assert forall e :: e in d[1..] ==> e.nonce != nonce;
      } else {
        PutMembers(d[1..], nonce, at);
      }
    }
  }

  lemma {:induction false} PutFacts(d: seq<Entry>, nonce: string, at: real)
    requires Keyed(d)
    ensures Keyed(Put(d, nonce, at))
    ensures |Put(d, nonce, at)| == |d| + (if Has(d, nonce) then 0 else 1)
    ensures forall e :: e in Put(d, nonce, at) <==> e == Entry(nonce, at) || (e in d && e.nonce != nonce)
  {
    PutMembers(d, nonce, at);
    if d != [] && d[0].nonce != nonce {
      PutFacts(d[1..], nonce, at);
      var out := Put(d[1..], nonce, at);
      forall j | 0 <= j < |out| ensures out[j].nonce != d[0].nonce {
        assert out[j] in out;
      }
    }
  }

  lemma {:induction false} YoungMembers(d: seq<Entry>, now: real, ttl: real)
    ensures forall e :: e in Young(d, now, ttl) <==> e in d && now - e.at < ttl
    ensures |Young(d, now, ttl)| <= |d|
  {
    if d != [] {
      YoungMembers(d[..|d| - 1], now, ttl);
      assert d == d[..|d| - 1] + [d[|d| - 1]];
    }
  }

  lemma {:induction false} YoungFacts(d: seq<Entry>, now: real, ttl: real)
    requires Keyed(d)
    ensures forall e :: e in Young(d, now, ttl) <==> e in d && now - e.at < ttl
    ensures |Young(d, now, ttl)| <= |d|
    ensures Keyed(Young(d, now, ttl))
  {
    YoungMembers(d, now, ttl);
    if d != [] {
      var front := d[..|d| - 1];
      YoungFacts(front, now, ttl);
      var y := Young(front, now, ttl);
      forall i | 0 <= i < |y| ensures y[i].nonce != d[|d| - 1].nonce {
        assert y[i] in y;
      }
    }
  }

  lemma {:induction false} FindKeyed(d: seq<Entry>, nonce: string, at: real)
    requires Keyed(d) && Entry(nonce, at) in d
    ensures Find(d, nonce) == Some(at)
  {
    assert Has(d, nonce);
  }

  lemma GuardedFacts(d: seq<Entry>, now: real, ttl: real, maxlen: nat)
    requires Keyed(d)
    ensures var g := Guarded(d, now, ttl, maxlen);
            && Keyed(g)
            && (forall e :: e in g ==> e in d)
            && (|Young(d, now, ttl)| < maxlen ==> forall e :: e in d && now - e.at < ttl ==> e in g)
    ensures maxlen >= 2 && |d| <= maxlen ==> |Guarded(d, now, ttl, maxlen)| < maxlen
  {
    YoungFacts(d, now, ttl);
  }

  // ---- runs ---------------------------------------------------------------------------

  datatype Call = Call(nonce: string, now: real)

  function Run(calls: seq<Call>, ttl: real, maxlen: nat): seq<Entry> {
    if calls == [] then []
    else
      var c := calls[|calls| - 1];
      Seen(Run(calls[..|calls| - 1], ttl, maxlen), c.nonce, c.now, ttl, maxlen)
  }

  predicate Forward(calls: seq<Call>) {
    forall i, j :: 0 <= i < j < |calls| ==> calls[i].now <= calls[j].now
  }

  /** The unbounded reference: when each nonce was last admitted. */
  function Reference(calls: seq<Call>, ttl: real): map<string, real> {
    if calls == [] then map[]
    else
      var m := Reference(calls[..|calls| - 1], ttl);
      var c := calls[|calls| - 1];
      if ReferenceReplay(m, c.nonce, c.now, ttl) then m else m[c.nonce := c.now]
  }

  predicate ReferenceReplay(m: map<string, real>, nonce: string, now: real, ttl: real) {
    nonce == "" || (nonce in m && now - m[nonce] < ttl)
  }

  /** The nonces the reference still remembers at time `now`. */
  function Live(m: map<string, real>, now: real, ttl: real): set<string> {
    set n | n in m && now - m[n] < ttl
  }

  lemma {:induction false} RunShape(calls: seq<Call>, ttl: real, maxlen: nat)
    ensures Keyed(Run(calls, ttl, maxlen))
    ensures maxlen >= 2 ==> |Run(calls, ttl, maxlen)| <= maxlen
    ensures "" !in Reference(calls, ttl)
  {
    if calls != [] {
      var before := calls[..|calls| - 1];
      var c := calls[|calls| - 1];
      RunShape(before, ttl, maxlen);
      var d := Run(before, ttl, maxlen);
      GuardedFacts(d, c.now, ttl, maxlen);
      PutFacts(Guarded(d, c.now, ttl, maxlen), c.nonce, c.now);
    }
  }

  /** For capacities of at least two the cache never outgrows them, in any run. */
  lemma CapacityKept(calls: seq<Call>, ttl: real, maxlen: nat)
    requires maxlen >= 2
    ensures |Run(calls, ttl, maxlen)| <= maxlen
  {
    RunShape(calls, ttl, maxlen);
  }

  lemma RunPush(calls: seq<Call>, c: Call, ttl: real, maxlen: nat)
    ensures Run(calls + [c], ttl, maxlen) == Seen(Run(calls, ttl, maxlen), c.nonce, c.now, ttl, maxlen)
  {
    assert (calls + [c])[..|calls|] == calls;
  }

  /** For smaller capacities it does, after at most two calls. */
  lemma SmallCapacityExceeded(ttl: real, maxlen: nat) returns (calls: seq<Call>)
    requires maxlen < 2 && ttl > 0.0
    ensures |Run(calls, ttl, maxlen)| > maxlen
  {
    var a, b := Call("a", 0.0), Call("b", 0.0);
    var one := [Entry("a", 0.0)];
    RunPush([], a, ttl, maxlen);
    calls := [] + [a];
    assert Run(calls, ttl, maxlen) == one;
    if maxlen == 1 {
      RunPush(calls, b, ttl, maxlen);
      assert "a"[0] != "b"[0];
      assert one[..0] == [] && Young(one, 0.0, ttl) == one;
      PutMembers(one, "b", 0.0);
      calls := calls + [b];
    }
  }

  /** Every entry was admitted, at its time, by a call of the run. */
  lemma {:induction false} EntryWasAdmitted(calls: seq<Call>, ttl: real, maxlen: nat, e: Entry) returns (i: nat)
    requires e in Run(calls, ttl, maxlen)
    ensures i < |calls| && calls[i] == Call(e.nonce, e.at)
    ensures !Replay(Run(calls[..i], ttl, maxlen), e.nonce, e.at, ttl)
  {
    hide Replay, Guarded, Put;
    var before := calls[..|calls| - 1];
    var c := calls[|calls| - 1];
    var d := Run(before, ttl, maxlen);
    RunShape(before, ttl, maxlen);
    GuardedFacts(d, c.now, ttl, maxlen);
    PutFacts(Guarded(d, c.now, ttl, maxlen), c.nonce, c.now);
    if e in d {
      i := EntryWasAdmitted(before, ttl, maxlen, e);
      assert before[..i] == calls[..i];
    } else {
      i := |calls| - 1;
    }
  }

  /** A non-empty nonce is refused only if it was admitted less than the time to live ago. */
  lemma RefusedOnlyIfRecent(calls: seq<Call>, c: Call, ttl: real, maxlen: nat) returns (i: nat)
    requires c.nonce != "" && Replay(Run(calls, ttl, maxlen), c.nonce, c.now, ttl)
    ensures i < |calls| && calls[i].nonce == c.nonce && c.now - calls[i].now < ttl
    ensures !Replay(Run(calls[..i], ttl, maxlen), calls[i].nonce, calls[i].now, ttl)
  {
    var d := Run(calls, ttl, maxlen);
    i := EntryWasAdmitted(calls, ttl, maxlen, Entry(c.nonce, Find(d, c.nonce).value));
  }

  // ---- a full cache -----------------------------------------------------------------------

  lemma {:induction false} AllYoung(d: seq<Entry>, now: real, ttl: real)
    requires forall i :: 0 <= i < |d| ==> now - d[i].at < ttl
    ensures Young(d, now, ttl) == d
  {
    if d != [] {
      AllYoung(d[..|d| - 1], now, ttl);
      assert d == d[..|d| - 1] + [d[|d| - 1]];
    }
  }

  lemma {:induction false} PutAppends(d: seq<Entry>, nonce: string, at: real)
    requires !Has(d, nonce)
    ensures Put(d, nonce, at) == d + [Entry(nonce, at)]
  {
    if d != [] {
      HasTail(d, nonce);
      PutAppends(d[1..], nonce, at);
      assert d == [d[0]] + d[1..];
    }
  }

  /** A full cache of live entries makes room for a new nonce by forgetting its oldest half: it keeps
      the newest half, rounded up, in order, and the new nonce goes last. */
  lemma OldestHalfIsForgotten(d: seq<Entry>, nonce: string, now: real, ttl: real)
    requires |d| >= 2 && nonce != "" && !Has(d, nonce)
    requires forall i :: 0 <= i < |d| ==> now - d[i].at < ttl
    ensures Seen(d, nonce, now, ttl, |d|) == d[|d| / 2..] + [Entry(nonce, now)]
  {
    hide Young, Put, Find;
    AllYoung(d, now, ttl);
    var kept := d[|d| / 2..];
    assert |d| - (|d| + 1) / 2 == |d| / 2;
    assert forall i :: 0 <= i < |kept| ==> kept[i] == d[|d| / 2 + i];
    PutAppends(kept, nonce, now);
  }

  /** Below its capacity the cache forgets nothing, and a nonce it knew keeps its place. */
  lemma {:induction false} RoomIsKept(d: seq<Entry>, nonce: string, now: real, ttl: real, maxlen: nat, i: nat)
    requires |d| < maxlen && nonce != "" && i < |d| && Keyed(d) && !Replay(d, nonce, now, ttl)
    ensures var e := Seen(d, nonce, now, ttl, maxlen);
            && i < |e| && e[i].nonce == d[i].nonce && e[i].at == (if d[i].nonce == nonce then now else d[i].at)
            && |e| == |d| + (if Has(d, nonce) then 0 else 1) && (!Has(d, nonce) ==> e[|d|] == Entry(nonce, now))
  {
    PutInPlace(d, nonce, now, i);
    PutFacts(d, nonce, now);
    if !Has(d, nonce) {
      PutAppends(d, nonce, now);
    }
  }

  lemma {:induction false} PutInPlace(d: seq<Entry>, nonce: string, at: real, i: nat)
    requires i < |d| && Keyed(d)
    ensures i < |Put(d, nonce, at)| && Put(d, nonce, at)[i] == if d[i].nonce == nonce then Entry(nonce, at) else d[i]
  {
    if d[0].nonce != nonce && i > 0 {
      PutInPlace(d[1..], nonce, at, i - 1);
    }
  }

  // ---- agreement with the reference -----------------------------------------------------

  /** The cache holds nothing the reference does not, and everything it still remembers. */
  ghost predicate Agrees(d: seq<Entry>, m: map<string, real>, now: real, ttl: real) {
    && Keyed(d)
    && (forall e :: e in d ==> e.nonce in m && m[e.nonce] == e.at)
    && (forall n :: n in m && now - m[n] < ttl ==> Entry(n, m[n]) in d)
  }

  function Names(d: seq<Entry>): set<string> {
    set e | e in d :: e.nonce
  }

  lemma {:induction false} NamesCount(d: seq<Entry>)
    requires Keyed(d)
    ensures |Names(d)| == |d|
  {
    if d != [] {
      var front, e := d[..|d| - 1], d[|d| - 1];
      NamesCount(front);
      assert d == front + [e];
      assert Names(d) == Names(front) + {e.nonce};
      assert e.nonce !in Names(front);
    }
  }

  lemma SubsetSize(a: set<string>, b: set<string>)
    requires a <= b
    ensures |a| <= |b|
  {
    assert b == a + (b - a);
  }

  /** With room for everything still live, the capacity guard never drops a live entry. */
  lemma YoungFits(d: seq<Entry>, m: map<string, real>, now: real, ttl: real, maxlen: nat)
    requires Agrees(d, m, now, ttl) && |Live(m, now, ttl)| < maxlen
    ensures |Young(d, now, ttl)| < maxlen
  {
    var y := Young(d, now, ttl);
    YoungFacts(d, now, ttl);
    NamesCount(y);
    SubsetSize(Names(y), Live(m, now, ttl));
  }

  lemma SameAnswer(d: seq<Entry>, m: map<string, real>, now: real, ttl: real, nonce: string)
    requires Agrees(d, m, now, ttl)
    ensures Replay(d, nonce, now, ttl) == ReferenceReplay(m, nonce, now, ttl)
  {
    if nonce in m && now - m[nonce] < ttl {
      FindKeyed(d, nonce, m[nonce]);
    }
  }

  /** The capacity guard drops nothing that is still remembered. */
  lemma GuardedAgrees(d: seq<Entry>, m: map<string, real>, now: real, ttl: real, maxlen: nat)
    requires Agrees(d, m, now, ttl) && |Live(m, now, ttl)| < maxlen
    ensures Agrees(Guarded(d, now, ttl, maxlen), m, now, ttl)
  {
    hide Guarded, Young;
    YoungFits(d, m, now, ttl, maxlen);
    GuardedFacts(d, now, ttl, maxlen);
  }

  lemma PutAgrees(d: seq<Entry>, m: map<string, real>, nonce: string, now: real, ttl: real)
    requires Agrees(d, m, now, ttl)
    ensures Agrees(Put(d, nonce, now), m[nonce := now], now, ttl)
  {
    hide Put;
    PutFacts(d, nonce, now);
  }

  lemma SeenAgrees(d: seq<Entry>, m: map<string, real>, c: Call, ttl: real, maxlen: nat)
    requires Agrees(d, m, c.now, ttl) && |Live(m, c.now, ttl)| < maxlen
    ensures Agrees(Seen(d, c.nonce, c.now, ttl, maxlen),
                   if ReferenceReplay(m, c.nonce, c.now, ttl) then m else m[c.nonce := c.now], c.now, ttl)
  {
    hide Agrees, Guarded, Put, Replay, ReferenceReplay;
    SameAnswer(d, m, c.now, ttl, c.nonce);
    GuardedAgrees(d, m, c.now, ttl, maxlen);
    PutAgrees(Guarded(d, c.now, ttl, maxlen), m, c.nonce, c.now, ttl);
  }

  ghost predicate Roomy(calls: seq<Call>, ttl: real, maxlen: nat) {
    forall k :: 0 <= k < |calls| ==> |Live(Reference(calls[..k], ttl), calls[k].now, ttl)| < maxlen
  }

  lemma {:induction false} RunAgrees(calls: seq<Call>, ttl: real, maxlen: nat, now: real)
    requires Forward(calls) && Roomy(calls, ttl, maxlen)
    requires calls != [] ==> calls[|calls| - 1].now <= now
    ensures Agrees(Run(calls, ttl, maxlen), Reference(calls, ttl), now, ttl)
  {
    if calls != [] {
      var before := calls[..|calls| - 1];
      var c := calls[|calls| - 1];
      forall k | 0 <= k < |before| ensures |Live(Reference(before[..k], ttl), before[k].now, ttl)| < maxlen {
        assert before[..k] == calls[..k];
      }
      RunAgrees(before, ttl, maxlen, c.now);
      SeenAgrees(Run(before, ttl, maxlen), Reference(before, ttl), c, ttl, maxlen);
    }
  }

  /** In a run whose live entries stay below the capacity, the cache answers every further call
      exactly as the unbounded reference does. */
  lemma AnswersLikeReference(calls: seq<Call>, c: Call, ttl: real, maxlen: nat)
    requires Forward(calls + [c]) && Roomy(calls, ttl, maxlen)
    ensures Replay(Run(calls, ttl, maxlen), c.nonce, c.now, ttl)
            == ReferenceReplay(Reference(calls, ttl), c.nonce, c.now, ttl)
  {
    var all := calls + [c];
    assert forall i :: 0 <= i < |calls| ==> all[i] == calls[i];
    assert all[|calls|] == c;
    RunAgrees(calls, ttl, maxlen, c.now);
    SameAnswer(Run(calls, ttl, maxlen), Reference(calls, ttl), c.now, ttl, c.nonce);
  }
}
