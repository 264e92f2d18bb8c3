/** What overlapping sweeps of one organisation cost: a dead message that comes back, and more
    transmissions than the limit. */
module CrossOrgOverlap {
  import opened Options
  import opened Text
  import opened Envelopes
  import opened CrossOrgDelivery
  import opened CrossOrgDelivering

  function Bumped(d: Delivery): Delivery {
    if d.retries + 1 >= MAX_RETRY then Delivery(Dead, d.retries) else Delivery(Failed, d.retries + 1)
  }

  lemma PushBegin(steps: seq<Step>, org: string, m: string, n: nat)
    requires var s := Exec(steps, false);
             && m in s.world.messages && s.world.messages[m].from == org && n < MAX_RETRY
             && m in s.delivery && s.delivery[m] == Delivery(Failed, n)
    ensures var s := Exec(steps, false);
            Exec(steps + [BeginSweep(org, [Item(m, n)])], false)
            == s.(sweeps := s.sweeps[s.nextId := Sweep(org, [Item(m, n)], None)], nextId := s.nextId + 1)
  {
    ExecPush(steps, BeginSweep(org, [Item(m, n)]), false);
  }

  lemma PushNext(steps: seq<Step>, sid: nat, target: Option<Route>)
    requires var s := Exec(steps, false);
             sid in s.sweeps && s.sweeps[sid].current == None && s.sweeps[sid].items != []
    ensures Exec(steps + [SweepNext(sid, target)], false) == ProcessItem(Exec(steps, false), sid, target)
  {
    ExecPush(steps, SweepNext(sid, target), false);
  }

  lemma PushEnd(steps: seq<Step>, sid: nat)
    requires var s := Exec(steps, false); sid in s.sweeps && s.sweeps[sid].current == None
    ensures var s := Exec(steps, false);
            Exec(steps + [EndSweep(sid)], false) == s.(sweeps := Without(s.sweeps, sid))
  {
    ExecPush(steps, EndSweep(sid), false);
  }

  lemma PushPending(steps: seq<Step>, tid: nat)
    requires var s := Exec(steps, false); tid in s.tasks && s.tasks[tid].phase == Started
    ensures var s := Exec(steps, false);
            Exec(steps + [MarkPending(tid)], false).delivery == SetStatus(s.delivery, s.tasks[tid].mid, Pending)
  {
    ExecPush(steps, MarkPending(tid), false);
  }

  lemma LastItem(s: State, sid: nat, org: string, m: string, n: nat)
    requires sid in s.sweeps && s.sweeps[sid] == Sweep(org, [Item(m, n)], None)
    requires m in s.delivery && s.delivery[m] == Delivery(Failed, n)
    ensures ProcessItem(s, sid, None) == s.(delivery := s.delivery[m := Bumped(s.delivery[m])],
                                            sweeps := s.sweeps[sid := Sweep(org, [], None)])
  {
    assert [Item(m, n)][1..] == [];
  }

  /** One short sweep over a failed message whose target organisation does not resolve. */
  lemma UnresolvedSweep(steps: seq<Step>, org: string, m: string) returns (longer: seq<Step>)
    requires var s := Exec(steps, false);
             && m in s.world.messages && s.world.messages[m].from == org
             && m in s.delivery && s.delivery[m].status == Failed && s.delivery[m].retries < MAX_RETRY
             && s.nextId !in s.sweeps
    ensures steps < longer
    ensures var s := Exec(steps, false);
            Exec(longer, false) == s.(delivery := s.delivery[m := Bumped(s.delivery[m])], nextId := s.nextId + 1)
  {
    hide Exec;
    var s := Exec(steps, false);
    var n := s.delivery[m].retries;
    PushBegin(steps, org, m, n);
    var begun := steps + [BeginSweep(org, [Item(m, n)])];
    PushNext(begun, s.nextId, None);
    var next := begun + [SweepNext(s.nextId, None)];
    LastItem(Exec(begun, false), s.nextId, org, m, n);
    PushEnd(next, s.nextId);
    longer := next + [EndSweep(s.nextId)];
    assert Without(Exec(next, false).sweeps, s.nextId) == s.sweeps;
  }

  /** The world with nothing but one message's row. */
  function WithRow(m: string, c: Content): World {
    EMPTY_WORLD.(messages := map[m := c], offers := {Offer(m, c.payload)})
  }

  /** A failed message read by a sweep that then stalls. */
  lemma StalledSweep(m: string, c: Content, route: Route) returns (steps: seq<Step>)
    requires m != ""
    ensures Exec(steps, false)
            == INIT.(world := WithRow(m, c), delivery := map[m := Delivery(Failed, 0)],
                     sweeps := map[1 := Sweep(c.from, [Item(m, 0)], None)], nextId := 2)
  {
    ExecPush([], Send(m, c, route), false);
    var sent := [] + [Send(m, c, route)];
    var s1 := Exec(sent, false);
    assert s1 == INIT.(world := WithRow(m, c), delivery := map[m := Delivery(Queued, 0)],
                       tasks := map[0 := Task(m, route, c.payload, Started)], nextId := 1);
    ExecPush(sent, Fail(0), false);
    var failed := sent + [Fail(0)];
    assert Exec(failed, false)
        == INIT.(world := WithRow(m, c), delivery := map[m := Delivery(Failed, 0)], nextId := 1);
    PushBegin(failed, c.from, m, 0);
    steps := failed + [BeginSweep(c.from, [Item(m, 0)])];
  }

  /** Further sweeps over the message, after the stalled one, until it is dead. */
  lemma WornOut(m: string, c: Content, route: Route) returns (dead: seq<Step>)
    requires m != ""
    ensures Exec(dead, false)
            == INIT.(world := WithRow(m, c), delivery := map[m := Delivery(Dead, 4)],
                     sweeps := map[1 := Sweep(c.from, [Item(m, 0)], None)], nextId := 7)
  {
    dead := StalledSweep(m, c, route);
    dead := UnresolvedSweep(dead, c.from, m);
    dead := UnresolvedSweep(dead, c.from, m);
    dead := UnresolvedSweep(dead, c.from, m);
    dead := UnresolvedSweep(dead, c.from, m);
    dead := UnresolvedSweep(dead, c.from, m);
  }

  /** With two sweeps active, a dead message comes back to life: the older sweep still holds the
      row as it was when it was first read, writes the old count back and sends it again. */
  lemma {:induction false} OverlapRevivesDead(m: string, c: Content, route: Route)
    returns (dead: seq<Step>, revived: seq<Step>)
    requires m != "" && route.to != c.from
    ensures dead < revived
    ensures m in Exec(dead, false).delivery && Exec(dead, false).delivery[m].status == Dead
    ensures m in Exec(revived, false).delivery && Exec(revived, false).delivery[m] == Delivery(Pending, 1)
  {
    dead := WornOut(m, c, route);
    PushNext(dead, 1, Some(route));
    var resent := dead + [SweepNext(1, Some(route))];
    PushPending(resent, 7);
    revived := resent + [MarkPending(7)];
  }

  // ---- six transmissions ------------------------------------------------------------------------

  /** A nonce, or a body, that no attempt before the n-th has used. */
  function Name(n: nat): string {
    seq(n + 1, _ => 'x')
  }

  ghost predicate Short(w: World, n: nat) {
    (forall e :: e in w.signed ==> |e.nonce| <= n) && (forall b :: b in w.sealed ==> |b| <= n)
  }

  predicate Plainly(m: string, from: string, route: Route) {
    && m != "" && route.to != from
    && Free(m, SEP) && Free(from, SEP) && Free(route.to, SEP) && Free(route.fromAin, SEP) && Free(route.toAin, SEP)
  }

  /** No call repeats a send. */
  predicate Once(steps: seq<Step>) {
    forall k :: 0 <= k < |steps| ==> !steps[k].SendAgain?
  }

  /** The message counts `r` retries and was transmitted `n` times; these sweeps are active. */
  ghost predicate Counts(s: State, m: string, from: string, r: nat, n: nat, sweeps: map<nat, Sweep>) {
    && m in s.world.messages && s.world.messages[m].from == from
    && m in s.delivery && s.delivery[m].retries == r
    && s.sweeps == sweeps && (forall k :: k in sweeps ==> k < s.nextId)
    && CountIn(s.log, m) == n && Short(s.world, n)
  }

  /** It failed, and nothing works on it. */
  ghost predicate Resting(s: State, m: string, from: string, r: nat, n: nat, sweeps: map<nat, Sweep>) {
    Counts(s, m, from, r, n, sweeps) && s.delivery[m].status == Failed && s.tasks == map[]
  }

  /** One coroutine works on it. */
  ghost predicate Working(
    s: State, t: nat, task: Task, p: Phase, from: string, r: nat, n: nat, sweeps: map<nat, Sweep>)
  {
    Counts(s, task.mid, from, r, n, sweeps) && s.tasks == map[t := task.(phase := p)]
  }

  lemma NameIsFresh(w: World, n: nat)
    requires Short(w, n)
    ensures !NonceUsed(w, Name(n)) && Name(n) !in w.sealed && Free(Name(n), SEP)
  {
  }

  lemma PlainEnvelope(from: string, task: Task, n: nat)
    requires Plainly(task.mid, from, task.route)
    ensures SepFree(MsgEnvelope(from, task, Name(n), "", Name(n), "0"))
  {
    assert Free("1", SEP) && Free("msg", SEP) && Free("", SEP) && Free("0", SEP) && Free(Name(n), SEP);
  }

  lemma Prepares(s: State, t: nat, task: Task, from: string, r: nat, n: nat, sweeps: map<nat, Sweep>)
    requires Working(s, t, task, Started, from, r, n, sweeps)
    ensures Enabled(s, MarkPending(t))
    ensures Working(Apply(s, MarkPending(t)), t, task, Preparing, from, r, n, sweeps)
  {
    hide Verified, SchemaOk, SepFree, NonceUsed, Short;
  }

  lemma MaySend(s: State, t: nat, task: Task, from: string, r: nat, n: nat, sweeps: map<nat, Sweep>)
    requires Working(s, t, task, Preparing, from, r, n, sweeps) && Plainly(task.mid, from, task.route)
    ensures Enabled(s, Transmit(t, Name(n), Name(n), "", "0"))
  {
    NameIsFresh(s.world, n);
    PlainEnvelope(from, task, n);
    assert MsgEnvelope(OrgOf(s, s.tasks[t]), s.tasks[t], Name(n), "", Name(n), "0")
        == MsgEnvelope(from, task, Name(n), "", Name(n), "0");
  }

  lemma Sends(s: State, t: nat, task: Task, from: string, r: nat, n: nat, sweeps: map<nat, Sweep>)
    requires Working(s, t, task, Preparing, from, r, n, sweeps)
    ensures var s' := PutOnWire(s, t, Name(n), Name(n), "", "0");
            Working(s', t, task, Transmitted(Name(n)), from, r, n + 1, sweeps)
  {
    CountPush(s.log, task.mid, task.mid);
    var p := Plain(from, task.route.to, Name(n), task.payload);
    ShortGrows(s.world, MsgEnvelope(from, task, Name(n), "", Name(n), "0"), Name(n), p, n);
    assert OrgOf(s, s.tasks[t]) == from && s.tasks[t].payload == task.payload;
  }

  lemma ShortGrows(w: World, e: Envelope, body: string, p: Plain, n: nat)
    requires Short(w, n) && |e.nonce| <= n + 1 && |body| <= n + 1
    ensures Short(w.(signed := w.signed + {e}, sealed := w.sealed[body := p]), n + 1)
  {
  }

  lemma GetsNoAnswer(s: State, t: nat, task: Task, p: Phase, from: string, r: nat, n: nat, sweeps: map<nat, Sweep>)
    requires Working(s, t, task, p, from, r, n, sweeps)
    ensures Enabled(s, Fail(t)) && Resting(Apply(s, Fail(t)), task.mid, from, r, n, sweeps)
  {
    hide Verified, SchemaOk, SepFree, NonceUsed, Short;
  }

  lemma PushOnce(steps: seq<Step>, step: Step)
    requires Once(steps) && !step.SendAgain? && Enabled(Exec(steps, false), step)
    ensures Once(steps + [step]) && Exec(steps + [step], false) == Apply(Exec(steps, false), step)
  {
    ExecPush(steps, step, false);
  }

  /** An attempt is transmitted and gets no answer. */
  lemma Attempt(steps: seq<Step>, t: nat, task: Task, from: string, r: nat, n: nat, sweeps: map<nat, Sweep>)
    returns (more: seq<Step>)
    requires Once(steps) && Working(Exec(steps, false), t, task, Started, from, r, n, sweeps)
    requires Plainly(task.mid, from, task.route)
    ensures Once(more) && Resting(Exec(more, false), task.mid, from, r, n + 1, sweeps)
  {
    hide Exec;
    Prepares(Exec(steps, false), t, task, from, r, n, sweeps);
    PushOnce(steps, MarkPending(t));
    more := steps + [MarkPending(t)];
    MaySend(Exec(more, false), t, task, from, r, n, sweeps);
    Sends(Exec(more, false), t, task, from, r, n, sweeps);
    PushOnce(more, Transmit(t, Name(n), Name(n), "", "0"));
    more := more + [Transmit(t, Name(n), Name(n), "", "0")];
    GetsNoAnswer(Exec(more, false), t, task, Transmitted(Name(n)), from, r, n + 1, sweeps);
    PushOnce(more, Fail(t));
    more := more + [Fail(t)];
  }

  /** A sweep of the organisation reads the row. */
  lemma StartRound(steps: seq<Step>, m: string, from: string, r: nat, n: nat, sweeps: map<nat, Sweep>)
    returns (more: seq<Step>, k: nat)
    requires Once(steps) && Resting(Exec(steps, false), m, from, r, n, sweeps) && r < MAX_RETRY
    ensures k !in sweeps && Once(more)
    ensures Resting(Exec(more, false), m, from, r, n, sweeps[k := Sweep(from, [Item(m, r)], None)])
  {
    hide Exec;
    k := Exec(steps, false).nextId;
    PushBegin(steps, from, m, r);
    more := steps + [BeginSweep(from, [Item(m, r)])];
  }

  lemma SendsOn(s: State, k: nat, m: string, from: string, route: Route, r: nat, n: nat, sweeps: map<nat, Sweep>,
                snapshot: nat)
    requires Resting(s, m, from, r, n, sweeps) && route.to != from
    requires k in sweeps && sweeps[k] == Sweep(from, [Item(m, snapshot)], None) && snapshot + 1 < MAX_RETRY
    ensures Enabled(s, SweepNext(k, Some(route)))
    ensures var task := Task(m, route, PayloadOf(s, m), Started);
            Working(Apply(s, SweepNext(k, Some(route))), s.nextId, task, Started, from,
                    snapshot + 1, n, sweeps[k := Sweep(from, [], Some(s.nextId))])
  {
    assert [Item(m, snapshot)][1..] == [];
    assert Resends(s, k, Some(route));
  }

  lemma Closes(s: State, k: nat, m: string, from: string, r: nat, n: nat, sweeps: map<nat, Sweep>)
    requires Resting(s, m, from, r, n, sweeps) && k in sweeps && sweeps[k].current.Some?
    ensures Enabled(s, SweepResume(k)) && Enabled(Apply(s, SweepResume(k)), EndSweep(k))
    ensures Resting(Apply(Apply(s, SweepResume(k)), EndSweep(k)), m, from, r, n, sweeps - {k})
  {
    var resumed := Apply(s, SweepResume(k));
    assert Without(resumed.sweeps, k) == sweeps - {k};
  }

  lemma Closed(steps: seq<Step>, k: nat, m: string, from: string, r: nat, n: nat, sweeps: map<nat, Sweep>)
    returns (more: seq<Step>)
    requires Once(steps) && Resting(Exec(steps, false), m, from, r, n, sweeps)
    requires k in sweeps && sweeps[k].current.Some?
    ensures Once(more) && Resting(Exec(more, false), m, from, r, n, sweeps - {k})
  {
    hide Exec;
    Closes(Exec(steps, false), k, m, from, r, n, sweeps);
    PushOnce(steps, SweepResume(k));
    more := steps + [SweepResume(k)];
    PushOnce(more, EndSweep(k));
    more := more + [EndSweep(k)];
  }

  /** A sweep sends the message again on the count of its snapshot, and ends. */
  lemma Round(steps: seq<Step>, k: nat, m: string, from: string, route: Route, r: nat, n: nat, sweeps: map<nat, Sweep>,
              snapshot: nat)
    returns (more: seq<Step>)
    requires Once(steps) && Resting(Exec(steps, false), m, from, r, n, sweeps) && Plainly(m, from, route)
    requires k in sweeps && sweeps[k] == Sweep(from, [Item(m, snapshot)], None) && snapshot + 1 < MAX_RETRY
    ensures Once(more) && Resting(Exec(more, false), m, from, snapshot + 1, n + 1, sweeps - {k})
  {
    hide Exec;
    var s := Exec(steps, false);
    var task, sent := Task(m, route, PayloadOf(s, m), Started), sweeps[k := Sweep(from, [], Some(s.nextId))];
    SendsOn(s, k, m, from, route, r, n, sweeps, snapshot);
    PushOnce(steps, SweepNext(k, Some(route)));
    more := Attempt(steps + [SweepNext(k, Some(route))], s.nextId, task, from, snapshot + 1, n, sent);
    more := Closed(more, k, m, from, snapshot + 1, n + 1, sent);
    assert sent - {k} == sweeps - {k};
  }

  lemma FreshRound(steps: seq<Step>, m: string, from: string, route: Route, r: nat, n: nat) returns (more: seq<Step>)
    requires Once(steps) && Resting(Exec(steps, false), m, from, r, n, map[]) && Plainly(m, from, route)
    requires r + 1 < MAX_RETRY
    ensures Once(more) && Resting(Exec(more, false), m, from, r + 1, n + 1, map[])
  {
    hide Exec;
    var k: nat;
    more, k := StartRound(steps, m, from, r, n, map[]);
    var one := map[][k := Sweep(from, [Item(m, r)], None)];
    more := Round(more, k, m, from, route, r, n, one, r);
    assert one - {k} == map[];
  }

  lemma FirstStep(m: string, c: Content, route: Route)
    requires m != ""
    ensures Enabled(INIT, Send(m, c, route))
    ensures Working(Apply(INIT, Send(m, c, route)), 0, Task(m, route, c.payload, Started), Started, c.from, 0, 0, map[])
  {
  }

  lemma FirstAttempt(m: string, c: Content, route: Route) returns (steps: seq<Step>)
    requires Plainly(m, c.from, route)
    ensures Once(steps) && Resting(Exec(steps, false), m, c.from, 0, 1, map[])
  {
    FirstStep(m, c, route);
    PushOnce([], Send(m, c, route));
    steps := Attempt([] + [Send(m, c, route)], 0, Task(m, route, c.payload, Started), c.from, 0, 0, map[]);
  }

  /** Two sweeps read the row with the same count; both send, and one retry is counted. */
  lemma TwoForOne(steps: seq<Step>, m: string, from: string, route: Route, r: nat, n: nat) returns (more: seq<Step>)
    requires Once(steps) && Resting(Exec(steps, false), m, from, r, n, map[]) && Plainly(m, from, route)
    requires r + 1 < MAX_RETRY
    ensures Once(more) && Resting(Exec(more, false), m, from, r + 1, n + 2, map[])
  {
    hide Exec;
    var w := Sweep(from, [Item(m, r)], None);
    var a: nat, b: nat;
    more, a := StartRound(steps, m, from, r, n, map[]);
    more, b := StartRound(more, m, from, r, n, map[][a := w]);
    var two := map[][a := w][b := w];
    more := Round(more, a, m, from, route, r, n, two, r);
    more := Round(more, b, m, from, route, r + 1, n + 1, two - {a}, r);
    assert two - {a} - {b} == map[];
  }

  /** With two sweeps active at once a message goes out six times while its row counts four
      retries, without any repeated send. */
  lemma {:induction false} SixTransmissions(m: string, c: Content, route: Route) returns (steps: seq<Step>)
    requires Plainly(m, c.from, route)
    ensures Once(steps)
    ensures var s := Exec(steps, false);
            m in s.delivery && s.delivery[m] == Delivery(Failed, 4) && CountIn(s.log, m) == 6
  {
    hide Exec, Resting, Plainly;
    steps := FirstAttempt(m, c, route);
    steps := TwoForOne(steps, m, c.from, route, 0, 1);
    steps := FreshRound(steps, m, c.from, route, 1, 3);
    steps := FreshRound(steps, m, c.from, route, 2, 4);
    steps := FreshRound(steps, m, c.from, route, 3, 5);
    RestingCounts(Exec(steps, false), m, c.from, 4, 6);
  }

  lemma RestingCounts(s: State, m: string, from: string, r: nat, n: nat)
    requires Resting(s, m, from, r, n, map[])
    ensures m in s.delivery && s.delivery[m] == Delivery(Failed, r) && CountIn(s.log, m) == n
  {
  }
}
