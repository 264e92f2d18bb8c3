/** The process supervisor of one agent: health checks, crash handling with backoff, cooldown and
    a fatal state, and the administrator's calls. Monitor and calls are coroutines: each step is
    what one of them does between two awaits, so calls may come in while a probe is answered, while
    a crashed process is cleared away, while the crash handler sleeps and while a process spawns. */
module Supervisor {
  import opened Options

  datatype Status = Running | Starting | Stopped | Crashed | Paused | Fatal

  datatype Policy = Always | OnFailure | Never

  datatype Config = Config(policy: Policy, maxRetries: int, launchable: bool, autoStart: bool, http: bool, retries: int)

  /** What the monitor awaits for this agent: nothing, the answer to an HTTP probe, the end of the
      crashed process, a cooldown or a batch slot, the backoff delay, or its own start of the
      process, which first clears away an old one and then spawns. */
  datatype Phase =
    | Idle
    | Probing
    | Crashing
    | Cooling(forced: bool)
    | Sleeping(delay: nat)
    | Clearing
    | Spawning

  /** The administrators' calls under way that have yet to begin a start, that clear away the old
      process, and that spawn. */
  datatype Calls = Calls(pending: nat, clearing: nat, spawning: nat)

  const NO_CALLS := Calls(0, 0, 0)

  datatype Agent = Agent(config: Config, status: Status, hasProc: bool, hasPid: bool,
                         restarts: nat, consecutive: nat, failures: nat, backoff: nat,
                         healthySince: Option<int>, exitCode: Option<int>, phase: Phase, calls: Calls)

  const BACKOFF := [3, 15, 60, 300]
  const HEALTH_WINDOW := 300
  const COOLDOWN_WINDOW := 180
  const COOLDOWN_THRESHOLD := 3

  /** What a health check finds out about the process itself. */
  datatype Probe = Alive | Dead(code: Option<int>)

  datatype Event =
    | Check(probe: Probe, now: int)
    | Probed(ok: bool, code: Option<int>, now: int)
    | Cleared(now: int)
    | Cooled
    | Wake
    | Launch
    | Spawned(ok: bool)
    | Pause
    | Resume(alive: bool, now: int)
    | StopCall
    | StartCall
    | RestartCall(force: bool)
    | ResumeFromFatal
    | ReportStarted(now: int)
    | CallBegins
    | CallLaunches(config: Config)
    | CallSpawned(ok: bool)

  function New(config: Config): Agent {
    Agent(config, Stopped, false, false, 0, 0, 0, 0, None, None, Idle, NO_CALLS)
  }

  /** An external process that was taken over: known by its id only. */
  function Adopted(config: Config): Agent {
    New(config).(status := Running, hasPid := true)
  }

  function Min(a: int, b: int): int {
    if a <= b then a else b
  }

  function Delay(index: nat): nat {
    BACKOFF[Min(index, |BACKOFF| - 1)]
  }

  // ---- starting ---------------------------------------------------------------------------------

  /** The old process is gone; the new one is about to be spawned. */
  function Launching(a: Agent, config: Config): Agent {
    a.(hasProc := false, hasPid := false, status := Starting,
       backoff := Min(a.backoff, |BACKOFF| - 1), config := config)
  }

  function AfterSpawn(a: Agent, ok: bool): Agent {
    if ok then a.(status := Running, hasProc := true, hasPid := true, healthySince := None)
    else a.(status := Crashed)
  }

  /** A start that nothing interrupts. */
  function Start(a: Agent, config: Config, ok: bool): Agent {
    if a.status == Running then a else AfterSpawn(Launching(a, config), ok)
  }

  // ---- the monitor ------------------------------------------------------------------------------

  predicate WantsRestart(a: Agent) {
    match a.config.policy
    case Always => true
    case OnFailure => a.exitCode != Some(0)
    case Never => false
  }

  predicate InCooldown(a: Agent, now: int) {
    a.consecutive >= COOLDOWN_THRESHOLD && a.healthySince.Some? && now - a.healthySince.value < COOLDOWN_WINDOW
  }

  /** The crash is noted; its record is stored and the process cleared away. */
  function BeginCrash(a: Agent, code: Option<int>): Agent {
    a.(exitCode := if a.hasProc then code else a.exitCode, status := Crashed, phase := Crashing)
  }

  /** Then the decision: leave it, give up for good, or go on to wait. What the status has become
      in the meantime is not looked at. */
  function ConcludeCrash(a: Agent, now: int): Agent {
    var b := a.(hasProc := false, hasPid := false, phase := Idle);
    if !WantsRestart(b) then b
    else if !b.config.launchable then b.(status := Stopped)
    else
      var c := b.(restarts := b.restarts + 1, consecutive := b.consecutive + 1);
      if c.consecutive >= c.config.maxRetries then c.(status := Fatal)
      else c.(phase := Cooling(InCooldown(c, now)))
  }

  predicate FoundDead(a: Agent, probe: Probe) {
    probe.Dead? || (!a.hasProc && !a.hasPid)
  }

  function DeadCode(probe: Probe): Option<int> {
    if probe.Dead? then probe.code else None
  }

  /** A live process: note since when it is healthy; after the window forget past restarts. */
  function NoteAlive(a: Agent, now: int): Agent {
    var b := if a.healthySince.None? then a.(healthySince := Some(now)) else a;
    if b.consecutive > 0 && now - b.healthySince.value > HEALTH_WINDOW then b.(consecutive := 0) else b
  }

  /** A check up to its HTTP probe, if there is one. */
  function CheckProcess(a: Agent, probe: Probe, now: int): Agent {
    if a.status != Running then a
    else if FoundDead(a, probe) then BeginCrash(a, DeadCode(probe))
    else if a.config.http then NoteAlive(a, now).(phase := Probing)
    else NoteAlive(a, now)
  }

  /** A check from the answer on. The status is not looked at again. */
  function NoteAnswer(a: Agent, ok: bool, code: Option<int>, now: int): Agent {
    var b := if ok then a.(failures := 0, healthySince := Some(now)) else a.(failures := a.failures + 1);
    if b.failures >= b.config.retries then BeginCrash(b, code) else b.(phase := Idle)
  }

  // ---- the steps --------------------------------------------------------------------------------

  function ResetFatal(a: Agent): Agent {
    a.(status := Stopped, consecutive := 0, backoff := 0, restarts := 0)
  }

  /** One more call that will start the process. */
  function Pend(a: Agent): Agent {
    a.(calls := a.calls.(pending := a.calls.pending + 1))
  }

  /** The monitor handles one agent at a time, so it checks nothing while it waits. */
  predicate Enabled(a: Agent, e: Event) {
    match e
    case Check(_, _) => a.phase == Idle
    case Probed(_, _, _) => a.phase == Probing
    case Cleared(_) => a.phase == Crashing
    case Cooled => a.phase.Cooling?
    case Wake => a.phase.Sleeping?
    case Launch => a.phase == Clearing
    case Spawned(_) => a.phase == Spawning
    case CallBegins => a.calls.pending > 0
    case CallLaunches(_) => a.calls.clearing > 0
    case CallSpawned(_) => a.calls.spawning > 0
    case _ => true
  }

  function Perform(a: Agent, e: Event): Agent
    requires Enabled(a, e)
  {
    match e
    case Check(probe, now) => CheckProcess(a, probe, now)
    case Probed(ok, code, now) => NoteAnswer(a, ok, code, now)
    case Cleared(now) => ConcludeCrash(a, now)
    case Cooled => a.(phase := Sleeping(Delay(a.backoff)), backoff := a.backoff + 1)
    case Wake => a.(phase := if a.status == Running then Idle else Clearing)
    case Launch => Launching(a, a.config).(phase := Spawning)
    case Spawned(ok) => AfterSpawn(a, ok).(phase := Idle)
    case Pause => a.(status := Paused)
    case Resume(alive, now) =>
      if a.status != Paused then a
      else if a.hasPid && alive then a.(status := Running, healthySince := Some(now))
      else a.(status := Stopped)
    // what a stop, or the first half of a restart, writes after it has waited for the process
    case StopCall => a.(status := Stopped, hasProc := false, hasPid := false)
    case StartCall => Pend(a)
    case RestartCall(force) => Pend(if force && a.status == Fatal then ResetFatal(a) else a)
    case ResumeFromFatal =>
      if a.status != Fatal then a else if a.config.autoStart then Pend(ResetFatal(a)) else ResetFatal(a)
    case ReportStarted(now) => a.(status := Running, hasPid := true, healthySince := Some(now))
    case CallBegins =>
      var b := a.(calls := a.calls.(pending := a.calls.pending - 1));
      if a.status == Running then b else b.(calls := b.calls.(clearing := b.calls.clearing + 1))
    case CallLaunches(config) =>
      Launching(a, config).(calls := a.calls.(clearing := a.calls.clearing - 1, spawning := a.calls.spawning + 1))
    case CallSpawned(ok) => AfterSpawn(a, ok).(calls := a.calls.(spawning := a.calls.spawning - 1))
  }

  function Step(a: Agent, e: Event): Agent {
    if Enabled(a, e) then Perform(a, e) else a
  }

  function Run(a: Agent, es: seq<Event>): Agent
    decreases |es|
  {
    if es == [] then a else Run(Step(a, es[0]), es[1..])
  }

  predicate ByMonitor(e: Event) {
    e.Check? || e.Probed? || e.Cleared? || e.Cooled? || e.Wake? || e.Launch? || e.Spawned?
  }

  /** What goes on without a further call: the monitor, and the starts of calls under way. */
  predicate Unattended(e: Event) {
    ByMonitor(e) || e.CallBegins? || e.CallLaunches? || e.CallSpawned?
  }

  predicate LeftAlone(es: seq<Event>) {
    forall i :: 0 <= i < |es| ==> Unattended(es[i])
  }

  // ---- what every step keeps ----------------------------------------------------------------

  /** The monitor never waits for a fatal agent, and a fatal agent has nothing running. */
  predicate Inv(a: Agent) {
    && a.restarts >= a.consecutive
    && (a.status == Fatal ==> a.phase == Idle && !a.hasProc && !a.hasPid && a.consecutive >= a.config.maxRetries)
  }

  lemma StepKeeps(a: Agent, e: Event)
    requires Inv(a)
    ensures Inv(Step(a, e))
  {
  }

  lemma {:induction false} RunKeeps(a: Agent, es: seq<Event>)
    requires Inv(a)
    ensures Inv(Run(a, es))
    decreases |es|
  {
    if es != [] {
      StepKeeps(a, es[0]);
      RunKeeps(Step(a, es[0]), es[1..]);
    }
  }

  /** The monitor acts on running agents and on what it waits for only: stopped, paused, fatal, and
      crashed after a failed start, an agent stays as it is until an administrator acts. */
  lemma {:induction false} OnlyCallsReviveFatal(a: Agent, es: seq<Event>)
    requires a.status != Running && a.phase == Idle && a.calls == NO_CALLS && LeftAlone(es)
    ensures Run(a, es) == a
    decreases |es|
  {
    if es != [] {
      assert Unattended(es[0]) && Step(a, es[0]) == a;
      OnlyCallsReviveFatal(a, es[1..]);
    }
  }

  /** In every run, a step that leaves the fatal state belongs to an administrator's call or is the
      agent's own report; the monitor never takes it. */
  lemma LeavingFatal(config: Config, es: seq<Event>, e: Event)
    requires Run(New(config), es).status == Fatal && Step(Run(New(config), es), e).status != Fatal
    ensures !ByMonitor(e)
  {
    RunKeeps(New(config), es);
  }

  // ---- delays --------------------------------------------------------------------------------

  /** The steps that set the counters back: a forced restart or a manual resume of a fatal agent. */
  predicate Resets(a: Agent, e: Event) {
    a.status == Fatal && ((e.RestartCall? && e.force) || e.ResumeFromFatal?)
  }

  predicate NoReset(a: Agent, es: seq<Event>)
    decreases |es|
  {
    es == [] || (!Resets(a, es[0]) && NoReset(Step(a, es[0]), es[1..]))
  }

  /** The backoff delays a run goes through, in order. */
  function Delays(a: Agent, es: seq<Event>): seq<nat>
    decreases |es|
  {
    if es == [] then []
    else
      var b := Step(a, es[0]);
      (if es[0].Cooled? && a.phase.Cooling? then [b.phase.delay] else []) + Delays(b, es[1..])
  }

  lemma DelayGrows(i: nat, j: nat)
    requires Min(i, 3) <= Min(j, 3)
    ensures Delay(i) <= Delay(j)
  {
    assert BACKOFF == [3, 15, 60, 300];
  }

  lemma IndexNeverFalls(a: Agent, e: Event)
    requires !Resets(a, e)
    ensures Min(a.backoff, 3) <= Min(Step(a, e).backoff, 3)
  {
    assert |BACKOFF| == 4;
  }

  lemma {:induction false} DelaysStartHigh(a: Agent, es: seq<Event>)
    requires NoReset(a, es)
    ensures forall j :: 0 <= j < |Delays(a, es)| ==> Delay(a.backoff) <= Delays(a, es)[j]
    decreases |es|
  {
    if es != [] {
      var b := Step(a, es[0]);
      IndexNeverFalls(a, es[0]);
      DelayGrows(a.backoff, b.backoff);
      DelaysStartHigh(b, es[1..]);
    }
  }

  lemma TakesDelay(a: Agent)
    requires a.phase.Cooling?
    ensures Step(a, Cooled).backoff == a.backoff + 1 && Step(a, Cooled).phase == Sleeping(Delay(a.backoff))
  {
  }

  /** Whatever happens in between, restart delays never shrink until an explicit reset. */
  lemma {:induction false} DelaysNeverShrink(a: Agent, es: seq<Event>, i: nat, j: nat)
    requires NoReset(a, es) && i < j < |Delays(a, es)|
    ensures Delays(a, es)[i] <= Delays(a, es)[j]
    decreases |es|
  {
    hide Step, Delay;
    var b := Step(a, es[0]);
    if es[0].Cooled? && a.phase.Cooling? {
      TakesDelay(a);
      if i == 0 {
        DelayGrows(a.backoff, b.backoff);
        DelaysStartHigh(b, es[1..]);
      } else {
        DelaysNeverShrink(b, es[1..], i - 1, j - 1);
      }
    } else {
      DelaysNeverShrink(b, es[1..], i, j);
    }
  }

  /** From the delay to the start that clamps it, the index may be one past the table; the delay
      lookup caps it in any case. */
  predicate IndexInTable(a: Agent) {
    a.backoff < |BACKOFF| + (if a.phase.Sleeping? || a.phase == Clearing then 1 else 0)
  }

  /** The status an agent has, without calls, while the monitor waits. */
  predicate Undisturbed(a: Agent) {
    match a.phase
    case Idle => true
    case Probing => a.status == Running
    case Spawning => a.status == Starting
    case _ => a.status == Crashed
  }

  lemma StepKeepsIndex(a: Agent, e: Event)
    requires IndexInTable(a) && Undisturbed(a) && ByMonitor(e)
    ensures IndexInTable(Step(a, e)) && Undisturbed(Step(a, e))
  {
    assert |BACKOFF| == 4;
  }

  /** Under monitor steps alone the backoff index stays inside the table. */
  lemma {:induction false} MonitorKeepsIndex(a: Agent, es: seq<Event>)
    requires IndexInTable(a) && Undisturbed(a)
    requires forall i :: 0 <= i < |es| ==> ByMonitor(es[i])
    ensures IndexInTable(Run(a, es)) && Undisturbed(Run(a, es))
    decreases |es|
  {
    if es != [] {
      StepKeepsIndex(a, es[0]);
      MonitorKeepsIndex(Step(a, es[0]), es[1..]);
    }
  }

  // ---- how many automatic starts ---------------------------------------------------------------

  /** The steps that forget past restarts: a check that finds a healthy window, or a reset. */
  predicate Forgets(a: Agent, e: Event) {
    || Resets(a, e)
    || (e.Check? && a.phase == Idle && a.status == Running && !FoundDead(a, e.probe)
        && NoteAlive(a, e.now).consecutive != a.consecutive)
  }

  /** Along the run nothing forgets past restarts, and every configuration has the same limit. */
  predicate Remembers(a: Agent, es: seq<Event>, limit: int)
    decreases |es|
  {
    a.config.maxRetries == limit
    && (es != [] ==> !Forgets(a, es[0]) && Remembers(Step(a, es[0]), es[1..], limit))
  }

  function AutoStarts(a: Agent, es: seq<Event>): nat
    decreases |es|
  {
    if es == [] then 0
    else (if es[0].Launch? && a.phase == Clearing then 1 else 0) + AutoStarts(Step(a, es[0]), es[1..])
  }

  /** The crash handler has decided to start the process and has not done so yet. */
  predicate Waiting(a: Agent) {
    a.phase.Cooling? || a.phase.Sleeping? || a.phase == Clearing
  }

  /** Automatic starts that may still come before the limit makes the agent fatal. */
  function StartsLeft(a: Agent): nat {
    (if Waiting(a) then 1 else 0)
    + (if a.consecutive < a.config.maxRetries - 1 then a.config.maxRetries - 1 - a.consecutive else 0)
  }

  lemma StepSpendsStarts(a: Agent, e: Event)
    requires Step(a, e).config.maxRetries == a.config.maxRetries && !Forgets(a, e)
    ensures (if e.Launch? && a.phase == Clearing then 1 else 0) + StartsLeft(Step(a, e)) <= StartsLeft(a)
  {
  }

  lemma {:induction false} StartsAreLimited(a: Agent, es: seq<Event>)
    requires Remembers(a, es, a.config.maxRetries)
    ensures AutoStarts(a, es) + StartsLeft(Run(a, es)) <= StartsLeft(a)
    decreases |es|
  {
    if es != [] {
      var b := Step(a, es[0]);
      assert Remembers(b, es[1..], b.config.maxRetries);
      StepSpendsStarts(a, es[0]);
      StartsAreLimited(b, es[1..]);
    }
  }

  /** Between two resets of the consecutive count there are at most maxRetries - 1 automatic
      starts, whatever else happens. */
  lemma AtMostLimitMinusOneStarts(a: Agent, es: seq<Event>)
    requires a.consecutive == 0 && !Waiting(a) && a.config.maxRetries >= 1
    requires Remembers(a, es, a.config.maxRetries)
    ensures AutoStarts(a, es) <= a.config.maxRetries - 1
  {
    StartsAreLimited(a, es);
  }

  // ---- crash after crash -----------------------------------------------------------------------

  lemma RunCons(a: Agent, e: Event, es: seq<Event>)
    ensures Run(a, [e] + es) == Run(Step(a, e), es)
    ensures Delays(a, [e] + es)
            == (if e.Cooled? && a.phase.Cooling? then [Step(a, e).phase.delay] else []) + Delays(Step(a, e), es)
  {
    assert ([e] + es)[1..] == es;
  }

  lemma {:induction false} RunAppend(a: Agent, es: seq<Event>, fs: seq<Event>)
    ensures Run(a, es + fs) == Run(Run(a, es), fs)
    decreases |es|
  {
    if es == [] {
      assert es + fs == fs;
    } else {
      assert (es + fs)[1..] == es[1..] + fs;
      RunAppend(Step(a, es[0]), es[1..], fs);
    }
  }

  lemma RunTwo(a: Agent, e: Event, f: Event)
    ensures Run(a, [e, f]) == Step(Step(a, e), f)
  {
    RunCons(a, e, [f]);
    RunCons(Step(a, e), f, []);
    assert [e, f] == [e] + [f] && [f] == [f] + [];
    assert Run(Step(Step(a, e), f), []) == Step(Step(a, e), f);
  }

  /** The crash handler from its decision to start the process to the end of the start. */
  const COMING_BACK: seq<Event> := [Cooled, Wake, Launch, Spawned(true)]

  lemma ComesBack(b: Agent)
    requires b.phase.Cooling? && b.status != Running
    ensures Run(b, COMING_BACK)
            == AfterSpawn(Launching(b.(backoff := b.backoff + 1), b.config), true).(phase := Idle)
    ensures Delays(b, COMING_BACK) == [Delay(b.backoff)]
  {
    var c := Step(b, Cooled);
    var d := Step(c, Wake);
    var e := Step(d, Launch);
    assert COMING_BACK == [Cooled] + ([Wake] + ([Launch] + ([Spawned(true)] + [])));
    RunCons(b, Cooled, [Wake] + ([Launch] + ([Spawned(true)] + [])));
    RunCons(c, Wake, [Launch] + ([Spawned(true)] + []));
    RunCons(d, Launch, [Spawned(true)] + []);
    RunCons(e, Spawned(true), []);
    assert Run(Step(e, Spawned(true)), []) == Step(e, Spawned(true));
    assert Delays(Step(e, Spawned(true)), []) == [];
  }

  /** No wait is over when nothing is waited for. */
  lemma {:induction false} StaysIdle(b: Agent, es: seq<Event>)
    requires b.phase == Idle && b.status != Running && forall i :: 0 <= i < |es| ==> ByMonitor(es[i])
    ensures Run(b, es) == b && Delays(b, es) == []
    decreases |es|
  {
    if es != [] {
      assert ByMonitor(es[0]) && Step(b, es[0]) == b;
      StaysIdle(b, es[1..]);
    }
  }

  /** What the monitor does from a noted crash to the end of its start. */
  function Recovery(now: int): seq<Event> {
    [Cleared(now)] + COMING_BACK
  }

  /** A crashed agent goes through the delay of its level and is started, becomes fatal, or is left
      alone, as its configuration and its counts say. */
  lemma Recovers(a: Agent, now: int)
    requires a.phase == Crashing && a.status != Running
    ensures var b := ConcludeCrash(a, now);
            && Run(a, Recovery(now))
               == (if b.phase.Cooling?
                   then AfterSpawn(Launching(b.(backoff := b.backoff + 1), b.config), true).(phase := Idle)
                   else b)
            && Delays(a, Recovery(now)) == if b.phase.Cooling? then [Delay(b.backoff)] else []
  {
    var b := ConcludeCrash(a, now);
    RunCons(a, Cleared(now), COMING_BACK);
    if b.phase.Cooling? {
      ComesBack(b);
    } else {
      StaysIdle(b, COMING_BACK);
    }
  }

  /** One crash: the process dies, the handler waits and starts it again. */
  function CrashAndStart(code: Option<int>, now: int): seq<Event> {
    [Check(Dead(code), now)] + Recovery(now)
  }

  lemma CrashRecovers(a: Agent, code: Option<int>, now: int)
    requires a.status == Running && a.phase == Idle
    ensures Run(a, CrashAndStart(code, now)) == Run(BeginCrash(a, code), Recovery(now))
    ensures Delays(a, CrashAndStart(code, now)) == Delays(BeginCrash(a, code), Recovery(now))
  {
    RunCons(a, Check(Dead(code), now), Recovery(now));
  }

  /** One round of crash and start from a running agent. */
  lemma OneCrash(a: Agent, code: Option<int>, now: int)
    requires a.status == Running && a.phase == Idle && a.config.policy == Always && a.config.launchable
    ensures a.consecutive + 1 < a.config.maxRetries ==>
              var b := Run(a, CrashAndStart(code, now));
              && b.status == Running && b.phase == Idle && b.consecutive == a.consecutive + 1
              && b.config == a.config && b.backoff == Min(a.backoff + 1, 3)
              && Delays(a, CrashAndStart(code, now)) == [Delay(a.backoff)]
    ensures a.consecutive + 1 >= a.config.maxRetries ==>
              Run(a, CrashAndStart(code, now)).status == Fatal && Delays(a, CrashAndStart(code, now)) == []
  {
    CrashRecovers(a, code, now);
    Recovers(BeginCrash(a, code), now);
  }

  /** Cooldown is for agents that crash again soon after they were healthy. A process that dies
      before its first good check has no healthy time, so a tight crash loop never cools down. */
  lemma CrashLoopNeverCools(a: Agent, code: Option<int>, now: int)
    requires a.status == Running && a.phase == Idle && a.healthySince == None
    ensures ConcludeCrash(BeginCrash(a, code), now).phase != Cooling(true)
    ensures Run(a, CrashAndStart(code, now)).healthySince == None
  {
    CrashRecovers(a, code, now);
    Recovers(BeginCrash(a, code), now);
  }

  /** With the default limit only the third crash in a row can be forced to cool down, and only
      within three minutes of the start of the last healthy time. */
  lemma CooldownOnlyAtThirdCrash(a: Agent, now: int)
    requires a.phase == Crashing && a.config.maxRetries == 4
    ensures var b := Step(a, Cleared(now));
            b.phase == Cooling(true)
            <==> b.phase.Cooling? && b.consecutive == 3 && a.healthySince.Some? && now < a.healthySince.value + 180
  {
  }

  /** Below the limit, whether a dead process comes back depends on policy and exit code alone:
      always, or on failure unless it exited with zero, and never without a command to run. */
  lemma RestartExactlyByPolicy(a: Agent, code: Option<int>, now: int)
    requires a.status == Running && a.phase == Idle && a.hasProc && a.consecutive + 1 < a.config.maxRetries
    ensures var es := CrashAndStart(code, now);
            && (Run(a, es).status == Running
                <==> a.config.launchable
                     && (a.config.policy == Always || (a.config.policy == OnFailure && code != Some(0))))
            && (Run(a, es).status == Running ==> Run(a, es).restarts == a.restarts + 1)
  {
    CrashRecovers(a, code, now);
    Recovers(BeginCrash(a, code), now);
  }

  /** The handler's description promises five minutes from the fourth crash on. With the default
      limit of four the fourth crash in a row is fatal: the waits are 3, 15 and 60 seconds. */
  lemma FourthCrashIsFatal(a: Agent, code: Option<int>, t: int)
    requires a.status == Running && a.phase == Idle && a.config.policy == Always && a.config.launchable
    requires a.consecutive == 0 && a.backoff == 0 && a.config.maxRetries == 4
    ensures var round := CrashAndStart(code, t);
            var a1 := Run(a, round);
            var a2 := Run(a1, round);
            var a3 := Run(a2, round);
            && Delays(a, round) == [3] && Delays(a1, round) == [15] && Delays(a2, round) == [60]
            && Run(a3, round).status == Fatal && Delays(a3, round) == []
  {
    assert BACKOFF == [3, 15, 60, 300];
    var round := CrashAndStart(code, t);
    OneCrash(a, code, t);
    OneCrash(Run(a, round), code, t);
    OneCrash(Run(Run(a, round), round), code, t);
    OneCrash(Run(Run(Run(a, round), round), round), code, t);
  }

  // ---- when past restarts are forgotten ------------------------------------------------------------

  /** Without HTTP probes one good check forgets past restarts exactly when the process has been
      healthy for more than the window. */
  lemma ProcessHealthForgets(a: Agent, probe: Probe, now: int)
    requires a.status == Running && a.phase == Idle && !a.config.http && !FoundDead(a, probe) && a.consecutive > 0
    ensures Step(a, Check(probe, now)).consecutive == 0
            <==> a.healthySince.Some? && now - a.healthySince.value > HEALTH_WINDOW
  {
  }

  /** The times of a check and of the good answer to its probe. */
  datatype Round = Round(now: int, after: int)

  predicate GoodRounds(rounds: seq<Round>, since: Option<int>)
    decreases |rounds|
  {
    rounds != [] ==>
      (since.Some? ==> rounds[0].now - since.value <= HEALTH_WINDOW) && GoodRounds(rounds[1..], Some(rounds[0].after))
  }

  function Answered(rounds: seq<Round>): seq<Event> {
    if rounds == [] then []
    else [Check(Alive, rounds[0].now), Probed(true, None, rounds[0].after)] + Answered(rounds[1..])
  }

  /** With HTTP probes every good answer moves the start of the healthy time to now. An agent that
      answers every probe, probed no more than the window apart, is healthy forever and yet its
      past restarts are never forgotten. */
  lemma {:induction false} HttpHealthNeverForgets(a: Agent, rounds: seq<Round>)
    requires a.status == Running && a.phase == Idle && a.hasPid && a.config.http && a.config.retries > 0
    requires GoodRounds(rounds, a.healthySince)
    ensures Run(a, Answered(rounds)).status == Running && Run(a, Answered(rounds)).consecutive == a.consecutive
    decreases |rounds|
  {
    if rounds != [] {
      var check, answer := Check(Alive, rounds[0].now), Probed(true, None, rounds[0].after);
      RunTwo(a, check, answer);
      RunAppend(a, [check, answer], Answered(rounds[1..]));
      HttpHealthNeverForgets(Step(Step(a, check), answer), rounds[1..]);
    }
  }

  /** A check whose probe fails. */
  function BadProbe(now: int, code: Option<int>, after: int): seq<Event> {
    [Check(Alive, now), Probed(false, code, after)]
  }

  /** A failed probe that reaches the configured count crashes a live process. */
  lemma FailedProbe(a: Agent, now: int, code: Option<int>, after: int)
    requires a.status == Running && a.phase == Idle && (a.hasProc || a.hasPid) && a.config.http
    requires a.failures + 1 >= a.config.retries
    ensures var b := Run(a, BadProbe(now, code, after));
            && b.status == Crashed && b.phase == Crashing && b.failures == a.failures + 1 && b.config == a.config
            && b.consecutive <= a.consecutive
  {
    RunTwo(a, Check(Alive, now), Probed(false, code, after));
  }

  /** The failure count survives a restart: after a crash for failed probes the new process is
      taken down by its first failed probe, not by the configured number of them. */
  lemma {:induction false} OneFailureAfterRestart(
    a: Agent, n1: int, c1: Option<int>, t1: int, now: int, n2: int, c2: Option<int>, t2: int)
    requires a.status == Running && a.phase == Idle && (a.hasProc || a.hasPid) && a.config.http && a.config.launchable
    requires a.config.policy == Always && a.failures + 1 >= a.config.retries && a.consecutive + 1 < a.config.maxRetries
    ensures Run(a, BadProbe(n1, c1, t1) + Recovery(now)).status == Running
    ensures Run(a, BadProbe(n1, c1, t1) + Recovery(now) + BadProbe(n2, c2, t2)).status == Crashed
  {
    FailedProbe(a, n1, c1, t1);
    RunAppend(a, BadProbe(n1, c1, t1), Recovery(now));
    Recovers(Run(a, BadProbe(n1, c1, t1)), now);
    var b := Run(a, BadProbe(n1, c1, t1) + Recovery(now));
    FailedProbe(b, n2, c2, t2);
    RunAppend(a, BadProbe(n1, c1, t1) + Recovery(now), BadProbe(n2, c2, t2));
  }

  // ---- two more corners ------------------------------------------------------------------------------

  /** An agent that a call has started while the crash handler slept is not started again: the
      handler is done, and a launch or spawn of its own does not come. */
  lemma StartedMeanwhile(a: Agent, spawned: bool)
    requires a.status == Running && a.phase.Sleeping?
    ensures Run(a, [Wake, Launch]) == a.(phase := Idle)
    ensures Step(a.(phase := Idle), Spawned(spawned)) == a.(phase := Idle)
  {
    RunTwo(a, Wake, Launch);
  }

  /** Of a process that was taken over the exit code is not known, so a clean exit counts as a
      failure: under the policy "on failure" it is started again. */
  lemma TakenOverNeverExitsCleanly(config: Config, now: int)
    requires config.policy == OnFailure && config.launchable && config.maxRetries > 1
    ensures var es := CrashAndStart(Some(0), now);
            && Run(Adopted(config), es).status == Running && Run(Adopted(config), es).restarts == 1
            && Run(Adopted(config).(hasProc := true), es).status == Crashed
  {
    CrashRecovers(Adopted(config), Some(0), now);
    Recovers(BeginCrash(Adopted(config), Some(0)), now);
    CrashRecovers(Adopted(config).(hasProc := true), Some(0), now);
    Recovers(BeginCrash(Adopted(config).(hasProc := true), Some(0)), now);
  }

  // ---- calls that start the process ----------------------------------------------------------------

  /** A start call in which nothing comes between its awaits is the uninterrupted start. */
  lemma StartCallAlone(a: Agent, config: Config, ok: bool)
    ensures var b := Step(Step(a, StartCall), CallBegins);
            Start(a, config, ok)
            == if a.status == Running then b else Step(Step(b, CallLaunches(config)), CallSpawned(ok))
  {
  }

  /** A restart of an agent without a process, from the call to the spawned process. */
  function Restarted(a: Agent, force: bool): Agent {
    var b := Step(Step(a, RestartCall(force)), CallBegins);
    Step(Step(b, CallLaunches(b.config)), CallSpawned(true))
  }

  /** A restart leaves the fatal state whether or not it is forced. Unforced, the counters stay,
      and the next crash is fatal at once unless the healthy window passes first. */
  lemma UnforcedRestartKeepsCounters(a: Agent, code: Option<int>, now: int)
    requires Inv(a) && a.status == Fatal && a.config.policy == Always && a.config.launchable
    ensures var b := Restarted(a, false);
            && b.status == Running && b.consecutive == a.consecutive && b.restarts == a.restarts
            && Step(Step(b, Check(Dead(code), now)), Cleared(now)).status == Fatal
    ensures var b := Restarted(a, true);
            b.status == Running && b.consecutive == 0 && b.backoff == 0 && b.restarts == 0
  {
  }
}
