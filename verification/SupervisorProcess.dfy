/** The run-time record of one supervised process, changed in place by the monitor and by the
    administrator's calls. A coroutine that awaits something is one method for each stretch between
    two awaits. */
module SupervisorProcess {
  import opened Options
  import S = Supervisor

  class AgentProcess {
    var config: S.Config
    var status: S.Status
    var hasProc: bool
    var hasPid: bool
    var restartCount: nat
    var consecutiveRestarts: nat
    var consecutiveFailures: nat
    var backoffIndex: nat
    var healthySince: Option<int>
    var lastExitCode: Option<int>
    var phase: S.Phase
    var calls: S.Calls

    function Model(): S.Agent
      reads this
    {
      S.Agent(config, status, hasProc, hasPid, restartCount, consecutiveRestarts, consecutiveFailures,
              backoffIndex, healthySince, lastExitCode, phase, calls)
    }

    constructor (config: S.Config)
      ensures Model() == S.New(config)
      ensures status == S.Stopped && !hasProc && !hasPid && phase == S.Idle && calls == S.NO_CALLS
      ensures restartCount == consecutiveRestarts == consecutiveFailures == backoffIndex == 0
      ensures healthySince == None && lastExitCode == None
    {
      this.config := config;
      status, hasProc, hasPid := S.Stopped, false, false;
      restartCount, consecutiveRestarts, consecutiveFailures, backoffIndex := 0, 0, 0, 0;
      healthySince, lastExitCode, phase, calls := None, None, S.Idle, S.NO_CALLS;
    }

    // ---- starting -------------------------------------------------------------------------------

    /** The whole start, when nothing comes in between. */
    method StartAgent(newConfig: S.Config, spawned: bool) returns (ok: bool)
      modifies this
      ensures Model() == S.Start(old(Model()), newConfig, spawned)
      ensures old(status) == S.Running ==> Model() == old(Model())
      ensures old(status) != S.Running ==>
                Model() == old(Model()).(
                  config := newConfig, hasProc := spawned, hasPid := spawned,
                  status := if spawned then S.Running else S.Crashed,
                  healthySince := if spawned then None else old(healthySince),
                  backoff := if old(backoffIndex) > 3 then 3 else old(backoffIndex))
      ensures ok == (status == S.Running)
    {
      if status == S.Running {
        return true;
      }
      if hasProc || hasPid {
        CleanUp();
      }
      Launch(newConfig);
      ok := Spawned(spawned);
    }

    /** The old process is gone: a start up to its spawn. */
    method Launch(newConfig: S.Config)
      modifies this
      ensures Model() == S.Launching(old(Model()), newConfig)
      ensures Model() == old(Model()).(config := newConfig, status := S.Starting, hasProc := false, hasPid := false,
                                       backoff := if old(backoffIndex) > 3 then 3 else old(backoffIndex))
    {
      CleanUp();
      status := S.Starting;
      backoffIndex := S.Min(backoffIndex, |S.BACKOFF| - 1);
      config := newConfig;
    }

    /** A start from its spawn on. */
    method Spawned(spawned: bool) returns (ok: bool)
      modifies this
      ensures Model() == S.AfterSpawn(old(Model()), spawned)
      ensures spawned ==> Model() == old(Model()).(status := S.Running, hasProc := true, hasPid := true,
                                                   healthySince := None)
      ensures !spawned ==> Model() == old(Model()).(status := S.Crashed)
      ensures ok == spawned == (status == S.Running)
    {
      if spawned {
        hasProc, hasPid := true, true;
        status := S.Running;
        healthySince := None;
      } else {
        status := S.Crashed;
      }
      ok := spawned;
    }

    method CleanUp()
      modifies this`hasProc, this`hasPid
      ensures !hasProc && !hasPid
    {
      hasProc, hasPid := false, false;
    }

    // ---- the monitor ------------------------------------------------------------------------------

    /** One round of the monitor for this process, up to its HTTP probe. */
    method CheckAgentHealth(probe: S.Probe, now: int)
      requires phase == S.Idle
      modifies this
      ensures Model() == S.Step(old(Model()), S.Check(probe, now))
      ensures old(status) != S.Running ==> Model() == old(Model())
      ensures old(status) == S.Running && (probe.Dead? || !(old(hasProc) || old(hasPid))) ==>
                Model() == old(Model()).(status := S.Crashed, phase := S.Crashing,
                                         exitCode := if old(hasProc) then probe.code else old(lastExitCode))
      ensures old(status) == S.Running && probe.Alive? && (old(hasProc) || old(hasPid)) ==>
                var since := if old(healthySince).Some? then old(healthySince).value else now;
                Model() == old(Model()).(healthySince := Some(since),
                                         consecutive := if now - since > 300 then 0 else old(consecutiveRestarts),
                                         phase := if old(config).http then S.Probing else S.Idle)
    {
      if status != S.Running {
        return;
      }
      if !hasProc {
        if hasPid {
          if probe.Dead? {
            HandleAgentCrash(probe.code);
            return;
          }
        } else {
          HandleAgentCrash(S.DeadCode(probe));
          return;
        }
      } else if probe.Dead? {
        HandleAgentCrash(probe.code);
        return;
      }
      if healthySince == None {
        healthySince := Some(now);
      }
      if consecutiveRestarts > 0 && now - healthySince.value > S.HEALTH_WINDOW {
        consecutiveRestarts := 0;
      }
      if config.http {
        phase := S.Probing;
      }
    }

    /** The round goes on with the answer; nothing looks at the status again. */
    method ProbeAnswered(httpOk: bool, code: Option<int>, now: int)
      requires phase == S.Probing
      modifies this
      ensures Model() == S.Step(old(Model()), S.Probed(httpOk, code, now))
      ensures var noted := if httpOk then old(Model()).(failures := 0, healthySince := Some(now))
                           else old(Model()).(failures := old(consecutiveFailures) + 1);
              Model() == if noted.failures >= noted.config.retries
                         then noted.(status := S.Crashed, phase := S.Crashing,
                                     exitCode := if old(hasProc) then code else old(lastExitCode))
                         else noted.(phase := S.Idle)
    {
      phase := S.Idle;
      if httpOk {
        consecutiveFailures := 0;
        healthySince := Some(now);
      } else {
        consecutiveFailures := consecutiveFailures + 1;
      }
      if consecutiveFailures >= config.retries {
        HandleAgentCrash(code);
      }
    }

    /** Crash handling up to the clearing of the process. */
    method HandleAgentCrash(code: Option<int>)
      modifies this
      ensures Model() == S.BeginCrash(old(Model()), code)
      ensures Model() == old(Model()).(status := S.Crashed, phase := S.Crashing,
                                       exitCode := if old(hasProc) then code else old(lastExitCode))
    {
      if hasProc {
        lastExitCode := code;
      }
      status := S.Crashed;
      phase := S.Crashing;
    }

    /** Crash handling from there to its first sleep. */
    method DecideRestart(now: int)
      requires phase == S.Crashing
      modifies this
      ensures Model() == S.Step(old(Model()), S.Cleared(now))
      ensures var cleared := old(Model()).(hasProc := false, hasPid := false, phase := S.Idle);
              var counted := cleared.(restarts := old(restartCount) + 1, consecutive := old(consecutiveRestarts) + 1);
              var wanted := || config.policy == S.Always
                            || (config.policy == S.OnFailure && old(lastExitCode) != Some(0));
              Model() == if !wanted then cleared
                         else if !config.launchable then cleared.(status := S.Stopped)
                         else if counted.consecutive >= config.maxRetries then counted.(status := S.Fatal)
                         else counted.(phase := S.Cooling(&& counted.consecutive >= 3 && old(healthySince).Some?
                                                          && now - old(healthySince).value < 180))
    {
      CleanUp();
      phase := S.Idle;
      var shouldRestart := false;
      if config.policy == S.Always {
        shouldRestart := true;
      } else if config.policy == S.OnFailure {
        shouldRestart := !(lastExitCode.Some? && lastExitCode.value == 0);
      }
      if !shouldRestart {
        return;
      }
      if !config.launchable {
        status := S.Stopped;
        return;
      }
      restartCount := restartCount + 1;
      consecutiveRestarts := consecutiveRestarts + 1;
      if consecutiveRestarts >= config.maxRetries {
        status := S.Fatal;
        return;
      }
      var cooling := CheckCooldown(now);
      phase := S.Cooling(cooling);
    }

    method CheckCooldown(now: int) returns (cooling: bool)
      ensures cooling == S.InCooldown(Model(), now)
    {
      if consecutiveRestarts >= S.COOLDOWN_THRESHOLD && healthySince.Some? {
        var elapsed := now - healthySince.value;
        return elapsed < S.COOLDOWN_WINDOW;
      }
      return false;
    }

    /** Crash handling between its sleeps: fix the delay, and make the next one longer. */
    method TakeBackoff()
      requires phase.Cooling?
      modifies this
      ensures Model() == S.Step(old(Model()), S.Cooled)
      ensures Model() == old(Model()).(
                           phase := S.Sleeping(if old(backoffIndex) >= 3 then 300 else [3, 15, 60][old(backoffIndex)]),
                           backoff := old(backoffIndex) + 1)
    {
      var idx := S.Min(backoffIndex, |S.BACKOFF| - 1);
      phase := S.Sleeping(S.BACKOFF[idx]);
      backoffIndex := backoffIndex + 1;
    }

    // ---- the administrator's calls ----------------------------------------------------------------

    method Pause()
      modifies this
      ensures Model() == S.Step(old(Model()), S.Pause)
      ensures Model() == old(Model()).(status := S.Paused)
    {
      if status == S.Paused {
        return;
      }
      status := S.Paused;
    }

    method Resume(alive: bool, now: int)
      modifies this
      ensures Model() == S.Step(old(Model()), S.Resume(alive, now))
      ensures old(status) != S.Paused ==> Model() == old(Model())
      ensures old(status) == S.Paused && old(hasPid) && alive ==>
                Model() == old(Model()).(status := S.Running, healthySince := Some(now))
      ensures old(status) == S.Paused && !(old(hasPid) && alive) ==> Model() == old(Model()).(status := S.Stopped)
    {
      if status != S.Paused {
        return;
      }
      if hasPid && alive {
        status := S.Running;
        healthySince := Some(now);
      } else {
        status := S.Stopped;
      }
    }

    /** What a stop writes once the process is gone. */
    method Stop()
      modifies this
      ensures Model() == S.Step(old(Model()), S.StopCall)
      ensures Model() == old(Model()).(status := S.Stopped, hasProc := false, hasPid := false)
    {
      status := S.Stopped;
      hasPid, hasProc := false, false;
    }

    /** A restart up to its stop. */
    method Restart(force: bool)
      modifies this
      ensures Model() == S.Step(old(Model()), S.RestartCall(force))
      ensures calls == old(calls).(pending := old(calls).pending + 1)
      ensures Model() == if force && old(status) == S.Fatal
                         then old(Model()).(status := S.Stopped, consecutive := 0, backoff := 0, restarts := 0,
                                            calls := calls)
                         else old(Model()).(calls := calls)
    {
      if force && status == S.Fatal {
        ResetFatal();
      }
      Pend();
    }

    method ResumeFromFatal()
      modifies this
      ensures Model() == S.Step(old(Model()), S.ResumeFromFatal)
      ensures calls == if old(status) == S.Fatal && config.autoStart
                       then old(calls).(pending := old(calls).pending + 1) else old(calls)
      ensures Model() == if old(status) == S.Fatal
                         then old(Model()).(status := S.Stopped, consecutive := 0, backoff := 0, restarts := 0,
                                            calls := calls)
                         else old(Model())
    {
      if status != S.Fatal {
        return;
      }
      ResetFatal();
      if config.autoStart {
        Pend();
      }
    }

    method ResetFatal()
      modifies this
      ensures Model() == S.ResetFatal(old(Model()))
    {
      status := S.Stopped;
      consecutiveRestarts, backoffIndex, restartCount := 0, 0, 0;
    }

    /** This call goes on to start the process. */
    method Pend()
      modifies this`calls
      ensures Model() == S.Pend(old(Model()))
    {
      calls := calls.(pending := calls.pending + 1);
    }

    method ReportStarted(now: int)
      modifies this
      ensures Model() == S.Step(old(Model()), S.ReportStarted(now))
      ensures Model() == old(Model()).(status := S.Running, hasPid := true, healthySince := Some(now))
    {
      hasPid := true;
      status := S.Running;
      healthySince := Some(now);
    }
  }
}
