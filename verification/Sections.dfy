/** What each lock-protected section of the supervisor and of the operations does to one row.
    The process table's methods and the protocol's steps are both built from these. */
module Sections {
  import opened Domain
  import opened Policy

  // ----- supervisor sections

  function Supervise(p: Proc, channel: nat): Proc {
    p.(cmdTx := Some(channel), status := Launching)
  }

  function GoOnline(p: Proc, pid: nat, now: int): Proc {
    p.(pid := pid, status := Online, uptimeMs := Some(now), exitCode := None)
  }

  function RecordExit(p: Proc, code: Option<int>): Proc {
    p.(pid := 0, exitCode := code)
  }

  function FactsOf(p: Proc, code: Option<int>, now: int): ExitFacts {
    ExitFacts(p.status, p.config.autorestart, code, p.config.stopExitCodes,
              p.config.minUptime, p.config.maxRestarts, p.unstableRestarts,
              p.createdAt, if p.uptimeMs.Some? then p.uptimeMs.value else p.createdAt, now,
              p.config.restartDelay, p.config.backoffBase, p.prevRestartDelay)
  }

  function MarkGaveUp(p: Proc): Proc {
    p.(status := Errored, unstableRestarts := p.config.maxRestarts)
  }

  function ScheduleRestart(p: Proc, delayMs: u64, unstable: nat, prev: u64): Proc {
    p.(unstableRestarts := unstable, prevRestartDelay := prev, restarts := p.restarts + 1,
       status := if delayMs > 0 then WaitingRestart else Launching)
  }

  /** Bookkeeping of a Restart command received during a backoff wait. */
  function ForgiveInBackoff(p: Proc, now: int): Proc {
    var q := p.ResetState(now);
    q.(restarts := q.restarts + 1, status := Launching)
  }

  /** Bookkeeping of a Restart command after the running child was killed. */
  function ForgiveAfterKill(p: Proc, now: int): Proc {
    ForgiveInBackoff(p, now).(pid := 0)
  }

  function MarkStopping(p: Proc): Proc {
    p.(status := Stopping)
  }

  function SetDead(p: Proc, status: Status, code: Option<int>): Proc {
    p.(status := status, pid := 0, exitCode := if code.Some? then code else p.exitCode)
  }

  function ClearCmdTx(p: Proc): Proc {
    p.(cmdTx := None)
  }

  // ----- operation sections

  function StopSnapshot(p: Proc): Proc {
    if p.cmdTx.Some? then MarkStopping(p) else p.(status := Stopped)
  }

  function NormaliseStop(p: Proc): Proc {
    if p.status == Stopping then p.(status := Stopped) else p
  }

  function MarkForRestart(p: Proc): Proc {
    if p.status == Online then MarkStopping(p) else p
  }

  function ColdRestart(p: Proc, now: int): Proc {
    var q := p.ResetState(now);
    q.(restarts := q.restarts + 1)
  }

  function DeleteSnapshot(p: Proc): Proc {
    if p.cmdTx.Some? then MarkStopping(p) else p
  }

  // ----- worker section

  function ForgetBackoff(p: Proc, now: int): Proc {
    if p.pid != 0 && p.status == Online && p.prevRestartDelay > 0 && p.uptimeMs.Some?
       && now - p.uptimeMs.value > BACKOFF_RESET_AFTER_MS
    then p.(prevRestartDelay := 0)
    else p
  }
}
