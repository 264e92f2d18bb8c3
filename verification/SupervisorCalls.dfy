/** When a pause or a stop holds: exactly, for every moment at which it may come, and for the stop
    of a process, which has to wait for the process first. */
module SupervisorCalls {
  import opened Options
  import opened Supervisor

  /** Nothing is waited for, and no start is under way. */
  predicate Settled(a: Agent) {
    a.phase == Idle && a.calls == NO_CALLS
  }

  /** The status is kept: left alone, the agent settles in no other. */
  ghost predicate Kept(a: Agent) {
    forall es :: LeftAlone(es) && Settled(Run(a, es)) ==> Run(a, es).status == a.status
  }

  /** The process ends in a way that its policy answers with a restart, whatever its exit code. */
  predicate SureToWant(a: Agent) {
    WantsRestart(a) && (a.config.policy == OnFailure ==> !a.hasProc)
  }

  /** No start is under way, and what the monitor waits for cannot change the status: it waits for
      nothing, for a probe that may fail once more, or for a crash that leads to no restart. A crash
      that cannot be followed by a restart for want of a command stops the agent. */
  predicate Quiet(a: Agent) {
    && a.calls == NO_CALLS
    && match a.phase
       case Idle => true
       case Probing =>
         a.failures + 1 < a.config.retries || (a.status == Stopped && !a.config.launchable && SureToWant(a))
       case Crashing => !WantsRestart(a) || (a.status == Stopped && !a.config.launchable)
       case _ => false
  }

  // ---- a quiet agent keeps its status ---------------------------------------------------------------

  /** On the way from a quiet agent of status `s` to a settled one. */
  predicate Calm(b: Agent, s: Status) {
    || (Quiet(b) && b.status == s)
    || (b.calls == NO_CALLS && b.phase == Crashing && s == Stopped && WantsRestart(b) && !b.config.launchable)
  }

  lemma StepCalm(b: Agent, s: Status, e: Event)
    requires Calm(b, s) && s != Running && Unattended(e)
    ensures Calm(Step(b, e), s)
  {
  }

  lemma {:induction false} StaysCalm(b: Agent, s: Status, es: seq<Event>)
    requires Calm(b, s) && s != Running && LeftAlone(es)
    ensures Calm(Run(b, es), s)
    decreases |es|
  {
    if es != [] {
      assert Unattended(es[0]);
      StepCalm(b, s, es[0]);
      StaysCalm(Step(b, es[0]), s, es[1..]);
    }
  }

  // ---- any other agent may lose it ------------------------------------------------------------------

  lemma Then(a: Agent, e: Event, more: seq<Event>) returns (es: seq<Event>)
    requires Unattended(e) && LeftAlone(more)
    ensures LeftAlone(es) && Run(a, es) == Run(Step(a, e), more)
  {
    es := [e] + more;
    RunCons(a, e, more);
  }

  /** A start of the monitor's own that is under way succeeds. */
  lemma OwnStartSucceeds(a: Agent) returns (es: seq<Event>)
    requires a.phase == Clearing || a.phase == Spawning
    ensures LeftAlone(es)
    ensures var b := Run(a, es); b.status == Running && b.phase == Idle && b.calls == a.calls
  {
    if a.phase == Spawning {
      es := Then(a, Spawned(true), []);
    } else {
      es := Then(Step(a, Launch), Spawned(true), []);
      es := Then(a, Launch, es);
    }
  }

  /** A waiting handler starts the process in the end, unless it runs. */
  lemma HandlerStarts(a: Agent) returns (es: seq<Event>)
    requires a.phase.Cooling? || a.phase.Sleeping?
    ensures LeftAlone(es)
    ensures var b := Run(a, es); b.status == Running && b.phase == Idle && b.calls == a.calls
  {
    var slept := if a.phase.Cooling? then Step(a, Cooled) else a;
    var woken := Step(slept, Wake);
    if woken.phase == Clearing {
      es := OwnStartSucceeds(woken);
    } else {
      es := [];
    }
    es := Then(slept, Wake, es);
    if a.phase.Cooling? {
      es := Then(a, Cooled, es);
    }
  }

  /** From every phase the monitor can come to wait for nothing. */
  lemma ComesToRest(a: Agent) returns (es: seq<Event>)
    ensures LeftAlone(es) && Run(a, es).phase == Idle && Run(a, es).calls == a.calls
    decreases if a.phase == Probing then 2 else if a.phase == Crashing then 1 else 0
  {
    es := [];
    if a.phase == Probing {
      es := ComesToRest(Step(a, Probed(true, None, 0)));
      es := Then(a, Probed(true, None, 0), es);
    } else if a.phase == Crashing {
      es := ComesToRest(Step(a, Cleared(0)));
      es := Then(a, Cleared(0), es);
    } else if a.phase.Cooling? || a.phase.Sleeping? {
      es := HandlerStarts(a);
    } else if a.phase != Idle {
      es := OwnStartSucceeds(a);
    }
  }

  /** Calls under way can all come to their end, and the agent runs. */
  lemma {:induction false} CallsStart(a: Agent) returns (es: seq<Event>)
    requires a.phase == Idle && (a.status == Running || a.calls != NO_CALLS)
    ensures LeftAlone(es) && Run(a, es).status == Running && Settled(Run(a, es))
    decreases 3 * a.calls.pending + 2 * a.calls.clearing + a.calls.spawning
  {
    es := [];
    if a.calls != NO_CALLS {
      var e := if a.calls.spawning > 0 then CallSpawned(true)
               else if a.calls.clearing > 0 then CallLaunches(a.config)
               else CallBegins;
      es := CallsStart(Step(a, e));
      es := Then(a, e, es);
    }
  }

  lemma StartsUnderWay(a: Agent) returns (es: seq<Event>)
    requires a.calls != NO_CALLS
    ensures LeftAlone(es) && Run(a, es).status == Running && Settled(Run(a, es))
  {
    var rest := ComesToRest(a);
    var start := CallsStart(Run(a, rest));
    es := rest + start;
    RunAppend(a, rest, start);
  }

  /** A crash that is not quiet ends in a restart, a fatal agent, or a stop in place of a pause. */
  lemma CrashDecides(a: Agent) returns (es: seq<Event>)
    requires a.phase == Crashing && a.calls == NO_CALLS && WantsRestart(a)
    ensures LeftAlone(es) && Settled(Run(a, es))
    ensures Run(a, es).status == Stopped <==> !a.config.launchable
    ensures Run(a, es).status != Paused
  {
    var b := Step(a, Cleared(0));
    es := [];
    if b.phase.Cooling? {
      es := HandlerStarts(b);
    }
    es := Then(a, Cleared(0), es);
  }

  /** A probe that fails once too often crashes the agent, whatever its status has become. */
  lemma FailureDecides(a: Agent) returns (es: seq<Event>)
    requires a.phase == Probing && a.calls == NO_CALLS && !Quiet(a) && (a.status == Paused || a.status == Stopped)
    ensures LeftAlone(es) && Settled(Run(a, es)) && Run(a, es).status != a.status
  {
    var zero := a.status == Stopped && !a.config.launchable;
    var e := Probed(false, if zero then Some(0) else None, 0);
    var b := Step(a, e);
    if WantsRestart(b) {
      es := CrashDecides(b);
    } else {
      es := Then(b, Cleared(0), []);
    }
    es := Then(a, e, es);
  }

  lemma LosesStatus(a: Agent) returns (es: seq<Event>)
    requires !Quiet(a) && (a.status == Paused || a.status == Stopped)
    ensures LeftAlone(es) && Settled(Run(a, es)) && Run(a, es).status != a.status
  {
    if a.calls != NO_CALLS {
      es := StartsUnderWay(a);
    } else if a.phase == Probing {
      es := FailureDecides(a);
    } else if a.phase == Crashing {
      es := CrashDecides(a);
    } else if a.phase.Cooling? || a.phase.Sleeping? {
      es := HandlerStarts(a);
    } else {
      es := OwnStartSucceeds(a);
    }
  }

  /** A paused or stopped agent keeps its status exactly when it is quiet. */
  lemma KeptExactly(a: Agent)
    requires a.status == Paused || a.status == Stopped
    ensures Kept(a) <==> Quiet(a)
  {
    if Quiet(a) {
      forall es | LeftAlone(es) && Settled(Run(a, es)) ensures Run(a, es).status == a.status {
        StaysCalm(a, a.status, es);
      }
    } else {
      var es := LosesStatus(a);
    }
  }

  /** A pause holds exactly when no start is under way and the monitor waits for nothing, for a
      probe that may fail once more, or for a crash that asks for no restart. */
  lemma PauseHoldsExactly(a: Agent)
    ensures Kept(Step(a, Pause))
            <==> && a.calls == NO_CALLS
                 && (|| a.phase == Idle
                     || (a.phase == Probing && a.failures + 1 < a.config.retries)
                     || (a.phase == Crashing && !WantsRestart(a)))
  {
    KeptExactly(Step(a, Pause));
  }

  /** A stop, once it writes, holds in these cases, and when the crash it meets asks for a restart
      for which there is no command. */
  lemma StopHoldsExactly(a: Agent)
    ensures Kept(Step(a, StopCall))
            <==> && a.calls == NO_CALLS
                 && (|| a.phase == Idle
                     || (a.phase == Probing
                         && (a.failures + 1 < a.config.retries || (!a.config.launchable && WantsRestart(a))))
                     || (a.phase == Crashing && (!a.config.launchable || !WantsRestart(a))))
  {
    KeptExactly(Step(a, StopCall));
  }

  // ---- the stop of a process, which waits ----------------------------------------------------------------

  /** The monitor goes on while the stop waits for the process; after it has written, too. */
  ghost predicate WaitingStopHolds(a: Agent) {
    forall during :: LeftAlone(during) ==> Kept(Step(Run(a, during), StopCall))
  }

  /** Some exit code makes the policy ask for a restart. */
  predicate MayWant(a: Agent) {
    a.config.policy == Always || (a.config.policy == OnFailure && (a.hasProc || a.exitCode != Some(0)))
  }

  /** No check of the running agent can find a crash that outlives a stop. */
  predicate Harmless(a: Agent) {
    && !(a.config.launchable && MayWant(a))
    && (a.config.http && (a.hasProc || a.hasPid) ==> !a.config.launchable && WantsRestart(a))
  }

  predicate StopIsSafe(a: Agent) {
    && Quiet(Step(a, StopCall))
    && (a.status == Running && (a.phase == Idle || a.phase == Probing) ==> Harmless(a))
  }

  lemma StepKeepsSafe(a: Agent, e: Event)
    requires StopIsSafe(a) && Unattended(e)
    ensures StopIsSafe(Step(a, e))
  {
  }

  lemma {:induction false} RunKeepsSafe(a: Agent, es: seq<Event>)
    requires StopIsSafe(a) && LeftAlone(es)
    ensures StopIsSafe(Run(a, es))
    decreases |es|
  {
    if es != [] {
      assert Unattended(es[0]);
      StepKeepsSafe(a, es[0]);
      RunKeepsSafe(Step(a, es[0]), es[1..]);
    }
  }

  /** Failed probes add up until one more is too many. */
  lemma {:induction false} FailuresAddUp(a: Agent) returns (es: seq<Event>)
    requires a.status == Running && a.phase == Idle && a.config.http && (a.hasProc || a.hasPid)
    ensures LeftAlone(es)
    ensures var b := Run(a, es);
            && b.phase == Probing && b.failures + 1 >= b.config.retries && b.config == a.config
            && b.exitCode == a.exitCode
    decreases a.config.retries - a.failures
  {
    var b := Step(a, Check(Alive, 0));
    es := [];
    if b.failures + 1 < b.config.retries {
      var c := Step(b, Probed(false, None, 0));
      es := FailuresAddUp(c);
      es := Then(b, Probed(false, None, 0), es);
    }
    es := Then(a, Check(Alive, 0), es);
  }

  /** While the stop waits, a check can find a crash that outlives it. */
  lemma CheckFindsCrash(a: Agent) returns (es: seq<Event>)
    requires a.status == Running && a.phase == Idle && !Harmless(a)
    ensures LeftAlone(es) && !Quiet(Step(Run(a, es), StopCall))
  {
    if a.config.launchable && MayWant(a) {
      es := Then(a, Check(Dead(None), 0), []);
    } else {
      es := FailuresAddUp(a);
    }
  }

  lemma StopIsUnsafe(a: Agent) returns (es: seq<Event>)
    requires !StopIsSafe(a)
    ensures LeftAlone(es) && !Quiet(Step(Run(a, es), StopCall))
  {
    if !Quiet(Step(a, StopCall)) {
      es := [];
    } else if a.phase == Idle {
      es := CheckFindsCrash(a);
    } else {
      es := CheckFindsCrash(Step(a, Probed(true, None, 0)));
      es := Then(a, Probed(true, None, 0), es);
    }
  }

  /** The stop of a process holds exactly when its writes would hold at once, and a running agent
      has no command or asks for no restart, and no probe that could crash it otherwise. */
  lemma WaitingStopHoldsExactly(a: Agent)
    ensures WaitingStopHolds(a) <==> StopIsSafe(a)
  {
    if StopIsSafe(a) {
      forall during | LeftAlone(during) ensures Kept(Step(Run(a, during), StopCall)) {
        RunKeepsSafe(a, during);
        KeptExactly(Step(Run(a, during), StopCall));
      }
    } else {
      var es := StopIsUnsafe(a);
      KeptExactly(Step(Run(a, es), StopCall));
    }
  }

  /** So the stop of a running agent that is always restarted and has a command may never hold. */
  lemma RunningAgentMayComeBack(a: Agent)
    requires a.status == Running && a.phase == Idle && a.config.policy == Always && a.config.launchable
    ensures !WaitingStopHolds(a)
  {
    WaitingStopHoldsExactly(a);
  }

  // ---- a call that meets a probe --------------------------------------------------------------------------

  /** An external process is taken over with a command, an HTTP probe and one retry. The pause or
      stop that comes while the probe is awaited is undone: the agent runs again. */
  lemma ProbeOverridesCall(config: Config, call: Event)
    requires config.http && config.retries == 1 && config.policy == Always && config.launchable && config.maxRetries > 1
    requires call == Pause || call == StopCall
    ensures var probing := Step(Adopted(config), Check(Alive, 0));
            && probing.phase == Probing && Step(probing, call).status != Running
            && Run(Step(probing, call), [Probed(false, None, 0)] + Recovery(0)).status == Running
  {
    var a := Step(Step(Adopted(config), Check(Alive, 0)), call);
    RunCons(a, Probed(false, None, 0), Recovery(0));
    Recovers(Step(a, Probed(false, None, 0)), 0);
  }
}
