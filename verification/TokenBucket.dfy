/** The token bucket of the rate limiter, over exact real time. */
module TokenBucket {

  datatype Limits = Limits(rate: real, capacity: int, start: real)

  datatype Bucket = Bucket(tokens: real, last: real)

  function Min(a: real, b: real): real {
    if a <= b then a else b
  }

  /** Tokens that would have flowed in from time zero on. */
  function Credit(p: Limits, t: real): real {
    t * p.rate
  }

  /** What flows in between two instants. */
  function Flow(p: Limits, from: real, to: real): real {
    Credit(p, to) - Credit(p, from)
  }

  lemma FlowIsRateTimesLength(p: Limits, from: real, to: real)
    ensures Flow(p, from, to) == p.rate * (to - from)
    ensures p.rate >= 0.0 && from <= to ==> Flow(p, from, to) >= 0.0
  {
  }

  function Refilled(p: Limits, b: Bucket, now: real): real {
    Min(p.capacity as real, b.tokens + Flow(p, b.last, now))
  }

  function Full(p: Limits): Bucket {
    Bucket(p.capacity as real, p.start)
  }

  /** One request: refill, then take a token if there is a whole one. */
  function Acquire(p: Limits, b: Bucket, now: real): (Bucket, bool) {
    var tokens := Refilled(p, b, now);
    if tokens >= 1.0 then (Bucket(tokens - 1.0, now), true) else (Bucket(tokens, now), false)
  }

  class Limiter {
    const rate: real
    const capacity: int
    var tokens: real
    var lastRefill: real

    function Model(): Bucket
      reads this
    {
      Bucket(tokens, lastRefill)
    }

    constructor (p: Limits)
      ensures rate == p.rate && capacity == p.capacity && Model() == Full(p)
    {
      rate, capacity := p.rate, p.capacity;
      tokens, lastRefill := p.capacity as real, p.start;
    }

    method TryAcquire(now: real) returns (granted: bool)
      modifies this
      ensures forall start :: (Model(), granted) == Acquire(Limits(rate, capacity, start), old(Model()), now)
    {
      var elapsed := now - lastRefill;
      FlowIsRateTimesLength(Limits(rate, capacity, now), lastRefill, now);
      tokens := Min(capacity as real, tokens + elapsed * rate);
      lastRefill := now;
      if tokens >= 1.0 {
        tokens := tokens - 1.0;
        return true;
      }
      return false;
    }
  }

  // ---- runs of requests ---------------------------------------------------------------------------

  /** The bucket after a run of requests on a fresh one. */
  function After(p: Limits, times: seq<real>): Bucket {
    if times == [] then Full(p) else Acquire(p, After(p, times[..|times| - 1]), times[|times| - 1]).0
  }

  function Granted(p: Limits, times: seq<real>, k: nat): bool
    requires k < |times|
  {
    Acquire(p, After(p, times[..k]), times[k]).1
  }

  /** Requests from `i` up to, not including, `j` that were granted. */
  function Grants(p: Limits, times: seq<real>, i: nat, j: nat): nat
    requires i <= j <= |times|
  {
    if i == j then 0 else Grants(p, times, i, j - 1) + if Granted(p, times, j - 1) then 1 else 0
  }

  predicate Ordered(p: Limits, times: seq<real>) {
    && p.rate >= 0.0 && p.capacity >= 0
    && (forall i :: 0 <= i < |times| ==> p.start <= times[i])
    && forall i, j :: 0 <= i <= j < |times| ==> times[i] <= times[j]
  }

  lemma AfterStep(p: Limits, times: seq<real>, k: nat)
    requires k < |times|
    ensures After(p, times[..k + 1]) == Acquire(p, After(p, times[..k]), times[k]).0
  {
    assert times[..k + 1][..k] == times[..k];
  }

  lemma LastInstant(p: Limits, times: seq<real>, k: nat)
    requires k <= |times|
    ensures After(p, times[..k]).last == if k == 0 then p.start else times[k - 1]
  {
    if k > 0 {
      AfterStep(p, times, k - 1);
    }
  }

  /** Tokens stay between zero and the capacity. */
  lemma {:induction false} TokensInRange(p: Limits, times: seq<real>, k: nat)
    requires Ordered(p, times) && k <= |times|
    ensures 0.0 <= After(p, times[..k]).tokens <= p.capacity as real
  {
    if k > 0 {
      TokensInRange(p, times, k - 1);
      AfterStep(p, times, k - 1);
      LastInstant(p, times, k - 1);
      FlowIsRateTimesLength(p, After(p, times[..k - 1]).last, times[k - 1]);
    }
  }

  /** The level a request sees. */
  function Level(p: Limits, times: seq<real>, k: nat): real
    requires k < |times|
  {
    Refilled(p, After(p, times[..k]), times[k])
  }

  lemma LevelStep(p: Limits, times: seq<real>, k: nat)
    requires Ordered(p, times) && 0 < k < |times|
    ensures Level(p, times, k)
            == Min(p.capacity as real,
                   Level(p, times, k - 1) - (if Granted(p, times, k - 1) then 1.0 else 0.0)
                   + Flow(p, times[k - 1], times[k]))
  {
    AfterStep(p, times, k - 1);
    LastInstant(p, times, k);
  }

  /** What the window from request `i` on leaves for request `k`. */
  function Room(p: Limits, times: seq<real>, i: nat, k: nat): real
    requires i <= k < |times|
  {
    p.capacity as real + Flow(p, times[i], times[k]) - Grants(p, times, i, k) as real
  }

  lemma RoomStep(p: Limits, times: seq<real>, i: nat, k: nat)
    requires i < k < |times|
    ensures Room(p, times, i, k)
            == Room(p, times, i, k - 1) - (if Granted(p, times, k - 1) then 1.0 else 0.0)
               + Flow(p, times[k - 1], times[k])
    ensures Room(p, times, k, k) == p.capacity as real
  {
  }

  /** The level is the least room left by any window that ends now. */
  lemma {:induction false} LevelIsLeastRoom(p: Limits, times: seq<real>, k: nat) returns (worst: nat)
    requires Ordered(p, times) && k < |times|
    ensures worst <= k && Level(p, times, k) == Room(p, times, worst, k)
    ensures forall i :: 0 <= i <= k ==> Level(p, times, k) <= Room(p, times, i, k)
  {
    if k == 0 {
      worst := 0;
      FlowIsRateTimesLength(p, p.start, times[0]);
      assert times[..0] == [];
      assert Flow(p, times[0], times[0]) == 0.0;
    } else {
      worst := LevelIsLeastRoom(p, times, k - 1);
      LevelStep(p, times, k);
      forall i | 0 <= i < k
        ensures Room(p, times, i, k)
                == Room(p, times, i, k - 1) - (if Granted(p, times, k - 1) then 1.0 else 0.0)
                   + Flow(p, times[k - 1], times[k])
      {
        RoomStep(p, times, i, k);
      }
      RoomStep(p, times, k - 1, k);
      if Level(p, times, k) == p.capacity as real {
        worst := k;
      }
    }
  }

  /** A request is granted exactly when every window that ends with it leaves room for one more
      under its bound, capacity plus what flowed in: the limiter never refuses without need. */
  lemma GrantedExactlyWithinBound(p: Limits, times: seq<real>, k: nat)
    requires Ordered(p, times) && k < |times|
    ensures Granted(p, times, k) <==> forall i :: 0 <= i <= k ==> Room(p, times, i, k) >= 1.0
  {
    var worst := LevelIsLeastRoom(p, times, k);
  }

  /** In any window of requests at most as many are granted as the capacity and what flows in over
      the window, the rate times its length. */
  lemma WindowBound(p: Limits, times: seq<real>, i: nat, j: nat)
    requires Ordered(p, times) && i < j <= |times|
    ensures Grants(p, times, i, j) as real <= p.capacity as real + Flow(p, times[i], times[j - 1])
  {
    var worst := LevelIsLeastRoom(p, times, j - 1);
    TokensInRange(p, times, j);
    AfterStep(p, times, j - 1);
    assert Level(p, times, j - 1) <= Room(p, times, i, j - 1);
  }

  lemma GapFillsOne(p: Limits, a: real, b: real)
    requires p.rate > 0.0 && b - a >= 1.0 / p.rate
    ensures Flow(p, a, b) >= 1.0
  {
    var least := 1.0 / p.rate;
    assert least * p.rate == 1.0;
    FlowIsRateTimesLength(p, a + least, b);
    FlowIsRateTimesLength(p, a, a + least);
  }

  lemma LevelFromFlow(p: Limits, times: seq<real>, k: nat, from: real)
    requires k < |times| && from == (if k == 0 then p.start else times[k - 1])
    ensures Level(p, times, k) == Min(p.capacity as real, After(p, times[..k]).tokens + Flow(p, from, times[k]))
  {
    LastInstant(p, times, k);
  }

  /** With room for one token, a request that comes 1 / rate or more after the one before it, and
      the first request of all, is granted. */
  lemma PatienceIsServed(p: Limits, times: seq<real>, k: nat)
    requires Ordered(p, times) && k < |times| && p.capacity >= 1
    requires k > 0 ==> p.rate > 0.0 && times[k] - times[k - 1] >= 1.0 / p.rate
    ensures Granted(p, times, k)
  {
    TokensInRange(p, times, k);
    if k > 0 {
      GapFillsOne(p, times[k - 1], times[k]);
      LevelFromFlow(p, times, k, times[k - 1]);
    } else {
      assert times[..0] == [];
      FlowIsRateTimesLength(p, p.start, times[0]);
    }
  }
}
