/** The retry sweep as a loop over the message table: which rows it picks, what it writes, and
    how many sweeps a message that keeps failing survives. */
module RetrySweep {

  import opened Options
  import D = CrossOrgDelivery

  const BATCH := 100

  /** A row of the table, in creation order. */
  datatype Row = Row(mid: string, status: D.Status, retries: nat)

  /** How the new attempt of a row ends: its organisation does not resolve, or the send leaves
      the row in some status. */
  datatype Attempt = Unresolved | Ended(status: D.Status)

  predicate Eligible(r: Row) {
    r.status == D.Failed && r.retries < D.MAX_RETRY
  }

  function Processed(r: Row, a: Attempt): Row {
    if r.retries + 1 >= D.MAX_RETRY then r.(status := D.Dead)
    else if a == Unresolved then r.(retries := r.retries + 1)
    else r.(retries := r.retries + 1, status := a.status)
  }

  function EligibleIn(rows: seq<Row>): nat {
    if rows == [] then 0
    else EligibleIn(rows[..|rows| - 1]) + (if Eligible(rows[|rows| - 1]) then 1 else 0)
  }

  /** Row `i` is among the oldest `limit` eligible rows. */
  predicate Chosen(rows: seq<Row>, i: nat, limit: nat)
    requires i < |rows|
  {
    Eligible(rows[i]) && EligibleIn(rows[..i]) < limit
  }

  /** The table after one sweep. */
  function Swept(rows: seq<Row>, attempt: Row -> Attempt, limit: nat): seq<Row> {
    seq(|rows|, i requires 0 <= i < |rows| =>
      if Chosen(rows, i, limit) then Processed(rows[i], attempt(rows[i])) else rows[i])
  }

  class MessageTable {
    var rows: seq<Row>

    /** The rows the query returns: the oldest eligible ones, at most BATCH of them. */
    method Pick() returns (picked: seq<nat>)
      ensures forall i: nat :: i in picked <==> i < |rows| && Chosen(rows, i, BATCH)
      ensures forall i, j :: 0 <= i < j < |picked| ==> picked[i] < picked[j]
      ensures forall j :: 0 <= j < |picked| ==> picked[j] < |rows|
    {
      picked := [];
      var i := 0;
      while i < |rows|
        invariant i <= |rows|
        invariant |picked| == if EligibleIn(rows[..i]) < BATCH then EligibleIn(rows[..i]) else BATCH
        invariant forall k: nat :: k in picked <==> k < i && Chosen(rows, k, BATCH)
        invariant forall j :: 0 <= j < |picked| ==> picked[j] < i
        invariant forall k, j :: 0 <= k < j < |picked| ==> picked[k] < picked[j]
      {
        assert rows[..i + 1][..i] == rows[..i];
        if Eligible(rows[i]) && |picked| < BATCH {
          picked := picked + [i];
        }
        i := i + 1;
      }
    }

    /** One sweep: the snapshot first, then row by row. */
    method Sweep(attempt: Row -> Attempt)
      modifies this
      ensures rows == Swept(old(rows), attempt, BATCH)
    {
      var before := rows;
      var picked := Pick();
      var k := 0;
      while k < |picked|
        invariant k <= |picked| && |rows| == |before|
        invariant forall j :: 0 <= j < k ==> rows[picked[j]] == Processed(before[picked[j]], attempt(before[picked[j]]))
        invariant forall i :: 0 <= i < |rows| && i !in picked[..k] ==> rows[i] == before[i]
      {
        var i := picked[k];
        assert i in picked && i !in picked[..k];
        assert picked[..k + 1] == picked[..k] + [i];
        var r := before[i];
        if r.retries + 1 >= D.MAX_RETRY {
          rows := rows[i := rows[i].(status := D.Dead)];
        } else if attempt(r) == Unresolved {
          rows := rows[i := rows[i].(retries := r.retries + 1)];
        } else {
          rows := rows[i := rows[i].(retries := r.retries + 1)];
          rows := rows[i := rows[i].(status := attempt(r).status)];
        }
        k := k + 1;
      }
      assert picked[..|picked|] == picked;
    }
  }

  /** The rows in front of `i` that failed and have retries left. */
  function Before(rows: seq<Row>, i: nat): set<nat>
    requires i <= |rows|
  {
    set j | 0 <= j < i && rows[j].status == D.Failed && rows[j].retries < 5
  }

  /** A row is chosen exactly when it failed, has fewer than five retries, and fewer than a hundred such
      rows are older. */
  lemma ChosenExactly(rows: seq<Row>, i: nat)
    requires i < |rows|
    ensures Chosen(rows, i, BATCH)
            <==> rows[i].status == D.Failed && rows[i].retries < 5 && |Before(rows, i)| < 100
  {
    EligibleAreCounted(rows, i);
  }

  lemma {:induction false} EligibleAreCounted(rows: seq<Row>, i: nat)
    requires i <= |rows|
    ensures EligibleIn(rows[..i]) == |Before(rows, i)|
  {
    if i == 0 {
      assert Before(rows, 0) == {};
    } else {
      EligibleAreCounted(rows, i - 1);
      assert rows[..i][..i - 1] == rows[..i - 1];
      assert Before(rows, i) == Before(rows, i - 1) + if Eligible(rows[i - 1]) then {i - 1} else {};
    }
  }

  // ---- a message that keeps failing --------------------------------------------------------

  predicate Fails(a: Attempt) {
    a == Unresolved || a == Ended(D.Failed)
  }

  /** How many more times a row can be picked, whatever becomes of it in between. */
  function Worth(r: Row): nat {
    if r.status == D.Delivered || r.status == D.Dead || r.retries >= D.MAX_RETRY then 0 else D.MAX_RETRY - r.retries
  }

  function Left(rows: seq<Row>): nat {
    if rows == [] then 0 else Left(rows[..|rows| - 1]) + Worth(rows[|rows| - 1])
  }

  /** One sweep uses up an attempt of every row it picks, however the attempts end. */
  lemma {:induction false} SweepSpends(rows: seq<Row>, attempt: Row -> Attempt, limit: nat, k: nat)
    requires k <= |rows|
    ensures var e := EligibleIn(rows[..k]);
            Left(Swept(rows, attempt, limit)[..k]) + (if e < limit then e else limit) <= Left(rows[..k])
  {
    if k > 0 {
      SweepSpends(rows, attempt, limit, k - 1);
      var out := Swept(rows, attempt, limit);
      assert out[..k][..k - 1] == out[..k - 1] && rows[..k][..k - 1] == rows[..k - 1];
    }
  }

  /** What may happen to the other rows before the next sweep: a finished one stays finished, a
      count is never lowered, new rows come last. Row `i` is as the sweep left it. */
  predicate Drifts(before: seq<Row>, after: seq<Row>, i: nat)
    requires i < |before|
  {
    && |before| <= |after| && after[i] == before[i]
    && forall j :: 0 <= j < |before| ==> Worth(after[j]) <= Worth(before[j])
  }

  /** A run of sweeps, each with attempts of its own; row `i` fails in every one of them. */
  predicate KeepsFailing(tables: seq<seq<Row>>, attempts: seq<Row -> Attempt>, i: nat) {
    && |tables| == |attempts| + 1
    && (forall n :: 0 <= n < |tables| ==> i < |tables[n]|)
    && (forall n :: 0 <= n < |attempts| ==>
          Fails(attempts[n](tables[n][i])) && Drifts(Swept(tables[n], attempts[n], BATCH), tables[n + 1], i))
  }

  lemma {:induction false} DriftLowers(before: seq<Row>, after: seq<Row>, i: nat, k: nat)
    requires i < |before| && Drifts(before, after, i) && k <= |before|
    ensures Left(after[..k]) <= Left(before[..k])
  {
    if k > 0 {
      DriftLowers(before, after, i, k - 1);
      assert after[..k][..k - 1] == after[..k - 1] && before[..k][..k - 1] == before[..k - 1];
    }
  }

  lemma WorthIsLeft(rows: seq<Row>, i: nat)
    requires i < |rows|
    ensures Left(rows[..i + 1]) == Left(rows[..i]) + Worth(rows[i])
    ensures EligibleIn(rows[..i + 1]) == EligibleIn(rows[..i]) + if Eligible(rows[i]) then 1 else 0
  {
    assert rows[..i + 1][..i] == rows[..i];
  }

  /** In a failing run the row stays retryable, with its count never lower, or is dead. */
  lemma {:induction false} RowFate(tables: seq<seq<Row>>, attempts: seq<Row -> Attempt>, i: nat, n: nat)
    requires KeepsFailing(tables, attempts, i) && Eligible(tables[0][i]) && n <= |attempts|
    ensures var r := tables[n][i];
            r.mid == tables[0][i].mid && (Eligible(r) || r.status == D.Dead)
  {
    if n > 0 {
      RowFate(tables, attempts, i, n - 1);
      assert tables[n][i] == Swept(tables[n - 1], attempts[n - 1], BATCH)[i];
    }
  }

  lemma OneSweepSpends(rows: seq<Row>, attempt: Row -> Attempt, next: seq<Row>, i: nat)
    requires i < |rows| && Eligible(rows[i]) && Drifts(Swept(rows, attempt, BATCH), next, i)
    ensures Left(next[..i + 1]) < Left(rows[..i + 1])
  {
    SweepSpends(rows, attempt, BATCH, i + 1);
    WorthIsLeft(rows, i);
    DriftLowers(Swept(rows, attempt, BATCH), next, i, i + 1);
  }

  lemma {:induction false} SweepsSpend(tables: seq<seq<Row>>, attempts: seq<Row -> Attempt>, i: nat, n: nat)
    requires KeepsFailing(tables, attempts, i) && Eligible(tables[0][i]) && n <= |attempts|
    ensures Eligible(tables[n][i]) ==> Left(tables[n][..i + 1]) + n <= Left(tables[0][..i + 1])
  {
    if n > 0 && Eligible(tables[n][i]) {
      RowFate(tables, attempts, i, n - 1);
      assert tables[n][i] == Swept(tables[n - 1], attempts[n - 1], BATCH)[i];
      SweepsSpend(tables, attempts, i, n - 1);
      OneSweepSpends(tables[n - 1], attempts[n - 1], tables[n], i);
    }
  }

  /** A message that keeps failing is dead after as many sweeps as there are attempts left in the
      rows up to its own, whatever the attempts of other rows do, whatever happens to those rows
      between sweeps, and whatever is appended behind. */
  lemma FailingMessageDies(tables: seq<seq<Row>>, attempts: seq<Row -> Attempt>, i: nat)
    requires KeepsFailing(tables, attempts, i) && Eligible(tables[0][i]) && |attempts| >= Left(tables[0][..i + 1])
    ensures var r := tables[|attempts|][i]; r.mid == tables[0][i].mid && r.status == D.Dead
  {
    RowFate(tables, attempts, i, |attempts|);
    SweepsSpend(tables, attempts, i, |attempts|);
    WorthIsLeft(tables[|attempts|], i);
  }

  /** While one batch holds all retryable rows up to its own, the schedule is exact: a message failed
      with `r` retries stays failed for 4 - r more sweeps and dies in the next one. */
  lemma {:induction false} ExactSchedule(tables: seq<seq<Row>>, attempts: seq<Row -> Attempt>, i: nat, n: nat)
    requires KeepsFailing(tables, attempts, i) && Eligible(tables[0][i]) && n <= |attempts|
    requires forall k :: 0 <= k < n ==> EligibleIn(tables[k][..i]) < BATCH
    ensures var r, first := tables[n][i], tables[0][i].retries;
            if first + n < 5
            then r.status == D.Failed && r.retries == first + n
            else r.status == D.Dead && r.retries == 4
  {
    if n > 0 {
      ExactSchedule(tables, attempts, i, n - 1);
      assert tables[n][i] == Swept(tables[n - 1], attempts[n - 1], BATCH)[i];
    }
  }

  /** A row of the loop and an item of the delivery state machine are treated alike, whether the
      addressee does not resolve or a coroutine is started and ends in some status. */
  lemma SameAsTheMachine(s: D.State, sid: nat, r: Row, a: Attempt, route: D.Route)
    requires sid in s.sweeps && s.sweeps[sid].items != [] && s.sweeps[sid].items[0] == D.Item(r.mid, r.retries)
    requires r.mid in s.delivery && s.delivery[r.mid] == D.Delivery(r.status, r.retries)
    requires route.to != s.sweeps[sid].org
    ensures var after := Processed(r, a);
            var next := D.ProcessItem(s, sid, if a == Unresolved then None else Some(route)).delivery;
            s.delivery[r.mid := D.Delivery(after.status, after.retries)]
            == if a == Unresolved || r.retries + 1 >= D.MAX_RETRY then next else D.SetStatus(next, r.mid, a.status)
  {
  }
}
