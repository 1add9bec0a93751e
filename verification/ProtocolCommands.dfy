/** What executing a command does to the row, field by field, and what follows: a stop is shown, a delete
    removes, a restart forgives. */
module ProtocolCommands {
  import opened Domain
  import opened Protocol
  import opened ProtocolSteps
  import opened ProtocolRuns
  import opened ProtocolCrash

  /** The supervisor is about to execute the command: its child is dead, or it was waiting out a backoff. */
  predicate Executes(u: Sup, kind: OpKind) {
    (u.pc.Killed? || u.pc.BackoffCmd?) && u.pc.cmd.kind == kind
  }

  /** The row with its instability, remembered delay and history forgotten, and one more restart. */
  predicate ForgivenFrom(p: Proc, q: Proc, now: int) {
    && q.unstableRestarts == 0 && q.prevRestartDelay == 0 && q.createdAt == now
    && q.restarts == p.restarts + 1
    && q.config == p.config && q.pmId == p.pmId && q.instance == p.instance
    && q.cmdTx == p.cmdTx && q.uptimeMs == p.uptimeMs && q.exitCode == p.exitCode
  }

  /** A stop executed after a kill or during a backoff wait leaves the row Stopped, with pid 0 and the exit
      code the wait remembered; a delete leaves none; a restart leaves it forgiven and Launching. */
  lemma ExecutedCommand(p: Proc, u: Sup, now: int)
    ensures Executes(u, StopOp) ==>
      RowAfter(Some(p), u, Go(now)) ==
        Some(p.(status := Stopped, pid := 0,
                exitCode := if u.pc.BackoffCmd? && u.pc.code.Some? then u.pc.code else p.exitCode))
    ensures Executes(u, DeleteOp) ==> RowAfter(Some(p), u, Go(now)).None?
    ensures Executes(u, RestartOp) ==>
      var q := RowAfter(Some(p), u, Go(now));
      && q.Some? && ForgivenFrom(p, q.value, now) && q.value.status == Launching
      && q.value.pid == if u.pc.Killed? then 0 else p.pid
    ensures Executes(u, StopOp) ==> SupAfter(Some(p), u, Go(now)).Some? && SupAfter(Some(p), u, Go(now)).value.pc == CmdClear(u.pc.cmd)
  {
  }

  /** A queued command is taken, the oldest first, while the child runs and while a backoff is waited out, and
      nowhere else; a running child is then killed. */
  lemma CommandIsTaken(row: Option<Proc>, u: Sup)
    ensures SupAfter(row, u, Recv).Some? <==> u.queue != [] && (u.pc.Running? || u.pc.Backoff?)
    ensures SupAfter(row, u, Recv).Some? ==>
      var u' := SupAfter(row, u, Recv).value;
      && u'.queue == u.queue[1..] && u'.child == u.child
      && u'.pc == (if u.pc.Running? then KillMark(u.queue[0]) else BackoffCmd(u.queue[0], u.pc.code))
  {
  }

  /** A restart that found no supervisor forgives the row just so, and leaves its status. */
  lemma ColdRestartForgives(st: Sys, i: nat, now: int)
    requires i < |st.ops| && st.ops[i].pc.Cold? && st.row.Some?
    ensures var st' := StepOp(st, i, now);
      && st'.Some? && st'.value.row.Some? && ForgivenFrom(st.row.value, st'.value.row.value, now)
      && st'.value.row.value.status == st.row.value.status && st'.value.row.value.pid == st.row.value.pid
      && st'.value.ops[i].pc == LaunchCheck
  {
  }

  /** The reset command forgets the restart count too, and touches nothing else. */
  lemma ResetForgets(st: Sys, now: int)
    requires st.row.Some?
    ensures Next(st, ResetCounters(now)) ==
      Some(st.(row := Some(st.row.value.(restarts := 0, unstableRestarts := 0, prevRestartDelay := 0, createdAt := now))))
  {
  }

  /** A stop that finds the row without a supervisor leaves it Stopped, whatever it showed before, and returns
      at once. */
  lemma StopOfIdleRow(st: Sys, i: nat, now: int)
    requires i < |st.ops| && st.ops[i].kind == StopOp && st.ops[i].pc.Start?
    requires st.row.Some? && st.row.value.cmdTx.None?
    ensures var st' := StepOp(st, i, now);
      && st'.Some? && st'.value.row == Some(st.row.value.(status := Stopped))
      && st'.value.ops[i].pc == Returned(NotRunning) && st'.value.sups == st.sups
  {
  }

  /** What each section of an operation does to the row it finds: a stop or delete marks a supervised row, a
      restart marks it only while it shows Online, the trailing normalisation touches only Stopping, a launch
      claims a row without a channel; and no other section changes status, pid or channel. */
  lemma SectionsOfOperations(st: Sys, i: nat, now: int)
    requires i < |st.ops| && st.row.Some? && StepOp(st, i, now).Some?
    requires !st.ops[i].pc.Remove?
    ensures var p, o, row := st.row.value, st.ops[i], StepOp(st, i, now).value.row;
      && (o.pc.Start? && (o.kind == StopOp || o.kind == DeleteOp) && p.cmdTx.Some? ==>
            row == Some(p.(status := Stopping)))
      && (o.pc.Start? && o.kind == DeleteOp && p.cmdTx.None? ==> row == Some(p))
      && (o.pc.Mark? ==> row == Some(if p.status == Online then p.(status := Stopping) else p))
      && (o.pc.Normalise? ==> row == Some(if p.status == Stopping then p.(status := Stopped) else p))
      && (o.pc.LaunchSpawn? ==>
            row == Some(if p.cmdTx.None? then p.(cmdTx := Some(|st.sups|), status := Launching) else p))
      && (o.pc.Send? || o.pc.Wait? || o.pc.LaunchCheck? || o.pc.LaunchWait? ==> row == Some(p))
  {
  }

  /** On a row that is gone a stop, delete or restart returns success at once, having done nothing; a launch
      fails. */
  lemma GoneRow(st: Sys, i: nat, now: int)
    requires i < |st.ops| && st.row.None?
    ensures st.ops[i].pc.Start? ==>
      StepOp(st, i, now) == Some(st.(ops := st.ops[i := st.ops[i].(pc := Returned(RowGone))]))
    ensures st.ops[i].pc.LaunchCheck? || st.ops[i].pc.LaunchSpawn? ==>
      StepOp(st, i, now) == Some(st.(ops := st.ops[i := st.ops[i].(pc := Returned(Vanished))]))
  {
  }

  // ----- a restarted app starts afresh

  /** What give-up and its failure look like from a row forgiven at `from`. */
  predicate GaveUpAfresh(before: Proc, row: Proc, crashes: nat) {
    var m := before.config.maxRestarts;
    if before.config.minUptime * m < I63 then row.status == Errored && row.restarts == before.restarts + m - 1
    else row.status != Errored && row.restarts == before.restarts + crashes
  }

  lemma ForgivenOutcome(p: Proc, crashes: seq<CrashRuns.Crash>, from: int)
    requires CrashRuns.Forgiven(p, from) && p.config.maxRestarts >= 1 && |crashes| >= p.config.maxRestarts
    requires CrashRuns.Crashing(p.config, crashes) && CrashRuns.InOrder(from, 0, crashes)
    requires CrashRuns.Quick(from, p.config.minUptime, crashes)
    ensures GaveUpAfresh(p, CrashRuns.CrashLoop(p, crashes).row, |crashes|)
  {
    CrashRuns.ForgivenRowStartsAfresh(p, crashes, from);
    CrashRuns.StopsExactlyAtFirstCleanExit(p, crashes);
  }

  /** The supervisor goes on from an executed restart to its loop head, and the row does not notice. */
  lemma BackToHead(st: Sys, s: nat) returns (st': Sys)
    requires Reachable(st) && s < |st.sups| && st.sups[s].pc.CmdAck? && st.sups[s].pc.cmd.kind == RestartOp
    requires st.sups[s].child.None?
    ensures Reachable(st') && st'.row == st.row && s < |st'.sups|
    ensures st'.sups[s].pc.Head? && st'.sups[s].child.None?
  {
    st' := Take(st, SupStep(s, Go(0)));
  }

  lemma RestartIsExecuted(st: Sys, s: nat, now: int) returns (restarted: Sys)
    requires Reachable(st) && st.row.Some? && s < |st.sups| && Executes(st.sups[s], RestartOp)
    ensures Next(st, SupStep(s, Go(now))) == Some(restarted) && Reachable(restarted) && s < |restarted.sups|
    ensures restarted.row.Some? && ForgivenFrom(st.row.value, restarted.row.value, now)
    ensures restarted.sups[s].pc == CmdAck(st.sups[s].pc.cmd) && restarted.sups[s].child.None?
  {
    ExecutedCommand(st.row.value, st.sups[s], now);
    ChildlessExecution(st, s);
    restarted := Take(st, SupStep(s, Go(now)));
  }

  /** A restart executed in any reachable state, whatever the row had been through: crashes after it are
      counted from zero. A quick crash loop gives up on exactly the `max_restarts`-th exit after the restart,
      if the window fits. */
  lemma RestartStartsAfresh(st: Sys, s: nat, now: int, crashes: seq<CrashRuns.Crash>) returns (restarted: Sys, end: Sys)
    requires Reachable(st) && st.row.Some? && s < |st.sups| && Executes(st.sups[s], RestartOp)
    requires var config := st.row.value.config;
      && config.maxRestarts >= 1 && |crashes| >= config.maxRestarts
      && CrashRuns.Crashing(config, crashes) && CrashRuns.InOrder(now, 0, crashes)
      && CrashRuns.Quick(now, config.minUptime, crashes)
    ensures Next(st, SupStep(s, Go(now))) == Some(restarted)
    ensures restarted.row.Some? && ForgivenFrom(st.row.value, restarted.row.value, now)
    ensures Reachable(end) && end.row.Some? && GaveUpAfresh(restarted.row.value, end.row.value, |crashes|)
  {
    restarted := RestartIsExecuted(st, s, now);
    var head := BackToHead(restarted, s);
    end := CrashLoopIsRun(head, s, crashes);
    ForgivenOutcome(head.row.value, crashes, now);
  }

  lemma ChildlessExecution(st: Sys, s: nat)
    requires Reachable(st) && s < |st.sups| && (st.sups[s].pc.Killed? || st.sups[s].pc.BackoffCmd?)
    ensures st.sups[s].child.None?
  {
    ReachableInv(st);
    assert s == |st.sups| - 1;
  }

  /** And so with a restart that found no supervisor, once it launches one. */
  lemma ColdRestartStartsAfresh(st: Sys, i: nat, now: int, crashes: seq<CrashRuns.Crash>) returns (restarted: Sys, end: Sys)
    requires Reachable(st) && st.row.Some? && st.row.value.cmdTx.None? && i < |st.ops| && st.ops[i].pc.Cold?
    requires var config := st.row.value.config;
      && config.maxRestarts >= 1 && |crashes| >= config.maxRestarts
      && CrashRuns.Crashing(config, crashes) && CrashRuns.InOrder(now, 0, crashes)
      && CrashRuns.Quick(now, config.minUptime, crashes)
    ensures Next(st, OpStep(i, now)) == Some(restarted)
    ensures restarted.row.Some? && ForgivenFrom(st.row.value, restarted.row.value, now)
    ensures Reachable(end) && end.row.Some? && GaveUpAfresh(restarted.row.value, end.row.value, |crashes|)
  {
    ColdRestartForgives(st, i, now);
    restarted := Take(st, OpStep(i, now));
    var checked := Take(restarted, OpStep(i, now));
    var launched := Take(checked, OpStep(i, now));
    var s := |st.sups|;
    assert launched.sups[s] == NewSup(i);
    end := CrashLoopIsRun(launched, s, crashes);
    ForgivenOutcome(launched.row.value, crashes, now);
  }
}
