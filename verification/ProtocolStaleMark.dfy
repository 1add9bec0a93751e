/** Stale marks. First a concrete run in which one leaves a running process at Stopping with no operation in
    flight: a restart clones the channel, a stop and a second restart replace the supervisor, and the first
    restart then marks the new supervisor's row, finds its own channel dead, finds the row supervised, and
    returns success. Then what holds of every stale mark in every run. */
module ProtocolStaleMark {
  import opened Domain
  import opened Policy
  import opened Sections
  import opened Protocol
  import opened ProtocolInvariant
  import opened ProtocolRuns
  import opened ProtocolSteps

  const RESTARTING: Op := Op(RestartOp, Mark(0), Pending, Some(0), 0)
  const STOPPED: Op := Op(StopOp, Returned(StopDone), Acked(true), Some(0), 0)
  const RESTARTED: Op := Op(RestartOp, Returned(Started(1)), Acked(true), None, 1)

  function StopQueued(config: AppConfig): Sys {
    Sys(Some(OnlineRow(config, 100, 0, 0).(status := Stopping)),
        [Tending(100, 0).(queue := [Cmd(StopOp, 2)])],
        [LAUNCHED, RESTARTING, Op(StopOp, Wait(0), Pending, Some(0), 0)], false)
  }

  function Killed1(config: AppConfig): Sys {
    StopQueued(config).(sups := [Tending(100, 0).(pc := Killed(Cmd(StopOp, 2)), child := None)])
  }

  function StoppedRow(config: AppConfig): Proc {
    OnlineRow(config, 0, 0, 0).(status := Stopped, cmdTx := None)
  }

  function Stopped1(config: AppConfig): Sys {
    Sys(Some(StoppedRow(config)), [Dead(0)], [LAUNCHED, RESTARTING, STOPPED], false)
  }

  function ColdStarting(config: AppConfig): Sys {
    Sys(Some(StoppedRow(config).(restarts := 1, status := Launching, cmdTx := Some(1))),
        [Dead(0), NewSup(3)],
        [LAUNCHED, RESTARTING, STOPPED, Op(RestartOp, LaunchWait(1), Pending, None, 1)], false)
  }

  function Online2(config: AppConfig): Sys {
    Sys(Some(OnlineRow(config, 200, 1, 1)), [Dead(0), Tending(200, 3)],
        [LAUNCHED, RESTARTING, STOPPED, RESTARTED], false)
  }

  function Stuck(config: AppConfig): Sys {
    Sys(Some(OnlineRow(config, 200, 1, 1).(status := Stopping)), [Dead(0), Tending(200, 3)],
        [LAUNCHED, RESTARTING.(pc := Returned(Supervised(1))), STOPPED, RESTARTED], true)
  }

  lemma RestartThenStop(config: AppConfig)
    ensures Reachable(StopQueued(config))
  {
    FirstLaunch(config);
    var st := Online1(config);
    st := Take(st, Begin(RestartOp));
    st := Take(st, OpStep(1, 0));
    st := Take(st, Begin(StopOp));
    st := Take(st, OpStep(2, 0));
    st := Take(st, OpStep(2, 0));
    assert st.sups[0].queue == [Cmd(StopOp, 2)];
    assert st == StopQueued(config);
  }

  lemma StopKills(config: AppConfig)
    ensures Reachable(Killed1(config))
  {
    RestartThenStop(config);
    var st := StopQueued(config);
    st := Take(st, SupStep(0, Recv));
    st := Take(st, SupStep(0, Go(0)));
    st := Take(st, SupStep(0, Exit(None)));
    assert st.sups[0].queue == [];
    assert st == Killed1(config);
  }

  function Acked1(config: AppConfig): Sys {
    Sys(Some(StoppedRow(config)), [Dead(0).(pc := Ending)],
        [LAUNCHED, RESTARTING, Op(StopOp, Wait(0), Acked(true), Some(0), 0)], false)
  }

  function Clearing1(config: AppConfig): Sys {
    Killed1(config).(row := Some(StoppedRow(config).(cmdTx := Some(0))),
                     sups := [Dead(0).(pc := CmdClear(Cmd(StopOp, 2)))])
  }

  lemma StopExecuted(config: AppConfig)
    ensures Reachable(Clearing1(config))
  {
    StopKills(config);
    var st := Take(Killed1(config), SupStep(0, Go(0)));
    assert st == Clearing1(config);
  }

  lemma StopClears(config: AppConfig)
    ensures Reachable(Acked1(config).(sups := [Dead(0).(pc := CmdAck(Cmd(StopOp, 2)))],
                                      ops := StopQueued(config).ops))
  {
    StopExecuted(config);
    var st := Take(Clearing1(config), SupStep(0, Go(0)));
    assert st == Acked1(config).(sups := [Dead(0).(pc := CmdAck(Cmd(StopOp, 2)))], ops := StopQueued(config).ops);
  }

  lemma StopAcked(config: AppConfig)
    ensures Reachable(Acked1(config))
  {
    StopClears(config);
    var st := Acked1(config).(sups := [Dead(0).(pc := CmdAck(Cmd(StopOp, 2)))], ops := StopQueued(config).ops);
    st := Take(st, SupStep(0, Go(0)));
    assert st == Acked1(config);
  }

  function StopReturning(config: AppConfig): Sys {
    Sys(Some(StoppedRow(config)), [Dead(0)],
        [LAUNCHED, RESTARTING, Op(StopOp, Wait(0), Acked(true), Some(0), 0)], false)
  }

  lemma SupervisorEnds(config: AppConfig)
    ensures Reachable(StopReturning(config))
  {
    StopAcked(config);
    var st := Take(Acked1(config), SupStep(0, Go(0)));
    assert st == StopReturning(config);
  }

  lemma StopCompletes(config: AppConfig)
    ensures Reachable(Stopped1(config))
  {
    SupervisorEnds(config);
    var st := StopReturning(config);
    st := Take(st, OpStep(2, 0));
    st := Take(st, OpStep(2, 0));
    assert st == Stopped1(config);
  }

  function ColdChecked(config: AppConfig): Sys {
    Sys(Some(StoppedRow(config).(restarts := 1)), [Dead(0)],
        [LAUNCHED, RESTARTING, STOPPED, Op(RestartOp, LaunchCheck, Pending, None, 1)], false)
  }

  lemma SecondRestartFindsNoSupervisor(config: AppConfig)
    ensures Reachable(ColdChecked(config))
  {
    StopCompletes(config);
    var st := Stopped1(config);
    st := Take(st, Begin(RestartOp));
    st := Take(st, OpStep(3, 0));
    st := Take(st, OpStep(3, 0));
    assert st == ColdChecked(config);
  }

  lemma SecondRestartColdStarts(config: AppConfig)
    ensures Reachable(ColdStarting(config))
  {
    SecondRestartFindsNoSupervisor(config);
    var st := ColdChecked(config);
    st := Take(st, OpStep(3, 0));
    st := Take(st, OpStep(3, 0));
    assert st == ColdStarting(config);
  }

  function Announcing2(config: AppConfig): Sys {
    ColdStarting(config).(row := Some(OnlineRow(config, 200, 1, 1)),
                          sups := [Dead(0), NewSup(3).(pc := FirstAck, child := Some(200), spawns := 1)])
  }

  lemma SecondSpawn(config: AppConfig)
    ensures Reachable(Announcing2(config))
  {
    SecondRestartColdStarts(config);
    var st := ColdStarting(config);
    st := Take(st, SupStep(1, Go(0)));
    st := Take(st, SupStep(1, SpawnOk(200)));
    st := Take(st, SupStep(1, Go(0)));
    assert st == Announcing2(config);
  }

  lemma SecondLaunch(config: AppConfig)
    ensures Reachable(Online2(config))
  {
    SecondSpawn(config);
    var st := Announcing2(config);
    st := Take(st, SupStep(1, Go(0)));
    st := Take(st, OpStep(3, 0));
    assert st == Online2(config);
  }

  /** The row is left at Stopping: its process runs, every operation has returned, and the next exit
      of the process will not be restarted. */
  lemma StaleMarkLeavesRunningRowAtStopping(config: AppConfig)
    ensures Reachable(Stuck(config))
    ensures var st := Stuck(config);
      && (forall i :: 0 <= i < |st.ops| ==> !Live(st.ops[i]))
      && st.sups[1].pc.Running? && st.sups[1].child == Some(st.row.value.pid)
      && st.row.value.cmdTx == Some(1) && st.row.value.status == Stopping
      && forall code, now :: DecideRestart(FactsOf(RecordExit(st.row.value, code), code, now)) == Decision.Stop
  {
    SecondLaunch(config);
    var st := Online2(config);
    st := Take(st, OpStep(1, 0));
    st := Take(st, OpStep(1, 0));
    st := Take(st, OpStep(1, 0));
    assert st == Stuck(config);
  }

  lemma RunThree(st: Sys, x: Step, y: Step, z: Step, a: Sys, b: Sys, c: Sys)
    requires Next(st, x) == Some(a) && Next(a, y) == Some(b) && Next(b, z) == Some(c)
    ensures Run(st, [x, y, z]) == Some(c)
  {
    assert [x, y, z][1..] == [y, z] && [y, z][1..] == [z] && [z][1..] == [];
    assert Run(c, []) == Some(c);
    assert Run(b, [z]) == Run(c, []);
    assert Run(a, [y, z]) == Run(b, [z]);
  }

  /** Nor is that run a fluke. Whenever a restart reaches its mark with the row Online under another
      channel than the one it cloned, and its own channel is dead, then left alone it returns success
      having only marked the row: the supervisor that runs there gets no command. */
  lemma StaleMarkStrandsTheRow(st: Sys, i: nat, s: nat, t: nat, now: int)
    requires i < |st.ops| && st.ops[i].kind == RestartOp && st.ops[i].pc == Mark(s)
    requires st.row.Some? && st.row.value.status == Online && st.row.value.cmdTx == Some(t) && t != s
    requires s < |st.sups| && st.sups[s].pc.Done?
    ensures Run(st, [OpStep(i, now), OpStep(i, now), OpStep(i, now)]) ==
            Some(st.(row := Some(st.row.value.(status := Stopping)),
                     ops := st.ops[i := st.ops[i].(pc := Returned(Supervised(t)))],
                     staleMark := true))
  {
    var step, o := OpStep(i, now), st.ops[i];
    var marked := st.(row := Some(st.row.value.(status := Stopping)), staleMark := true);
    var a := marked.(ops := st.ops[i := o.(pc := Send(s))]);
    var b := marked.(ops := st.ops[i := o.(pc := LaunchCheck)]);
    var c := marked.(ops := st.ops[i := o.(pc := Returned(Supervised(t)))]);
    assert Next(st, step) == Some(a);
    assert a.ops[i := o.(pc := LaunchCheck)] == b.ops;
    assert Next(a, step) == Some(b);
    assert b.ops[i := o.(pc := Returned(Supervised(t)))] == c.ops;
    assert Next(b, step) == Some(c);
    RunThree(st, step, step, step, a, b, c);
  }

  // ----- every stale mark

  /** Restart `i` addresses supervisor `s`, which has given the row up, or has turned elsewhere since. */
  predicate Spurned(st: Sys, i: nat, s: nat) {
    && s < |st.sups| && PastClear(st.sups[s].pc)
    && i < |st.ops| && st.ops[i].kind == RestartOp
    && match st.ops[i].pc
       case Mark(t) => t == s
       case Send(t) => t == s
       case Wait(t) => t == s && !st.ops[i].ack.Acked?
       case LaunchCheck => true
       case LaunchSpawn => true
       case LaunchWait(_) => true
       case Returned(out) => !out.Executed?
       case _ => false
  }

  lemma SpurnedUnderSupStep(st: Sys, t: nat, ev: SupEvent, i: nat, s: nat)
    requires t < |st.sups| && Mailbox(st.ops, st.sups[t], t)
    requires Spurned(st, i, s) && StepSup(st, t, ev).Some?
    ensures Spurned(StepSup(st, t, ev).value, i, s)
  {
    SettlingTouchesOwnWaiters(st.ops, st.sups[t], t);
    StepAdvances(st.row, st.sups[t], ev);
  }

  lemma SpurnedUnderOpStep(st: Sys, j: nat, now: int, i: nat, s: nat)
    requires Spurned(st, i, s) && StepOp(st, j, now).Some?
    ensures Spurned(StepOp(st, j, now).value, i, s)
  {
    OpStepLeavesTasks(st, j, now);
  }

  lemma SpurnedStays(st: Sys, step: Step, i: nat, s: nat)
    requires Inv(st) && Spurned(st, i, s) && Next(st, step).Some?
    ensures Spurned(Next(st, step).value, i, s)
  {
    match step
    case SupStep(t, ev) =>
      assert Mailbox(st.ops, st.sups[t], t);
      SpurnedUnderSupStep(st, t, ev, i, s);
    case OpStep(j, now) => SpurnedUnderOpStep(st, j, now, i, s);
    case _ =>
  }

  lemma {:induction false} SpurnedRun(st: Sys, steps: seq<Step>, i: nat, s: nat)
    requires Inv(st) && Spurned(st, i, s) && Run(st, steps).Some?
    ensures Inv(Run(st, steps).value) && Spurned(Run(st, steps).value, i, s)
    decreases |steps|
  {
    if steps != [] {
      SpurnedStays(st, steps[0], i, s);
      NextKeepsInv(st, steps[0]);
      SpurnedRun(Next(st, steps[0]).value, steps[1..], i, s);
    }
  }

  /** A restart about to overwrite Online on a row that has another channel than the one it cloned. */
  predicate AboutToMarkStale(st: Sys, i: nat, s: nat) {
    && i < |st.ops| && st.ops[i].kind == RestartOp && st.ops[i].pc == Mark(s)
    && st.row.Some? && st.row.value.status == Online && st.row.value.cmdTx != Some(s)
  }

  lemma StaleMeansRetired(st: Sys, i: nat, s: nat)
    requires Inv(st) && AboutToMarkStale(st, i, s)
    ensures s < |st.sups| - 1 && Retired(st.row, st.sups[s]) && st.row.value.cmdTx == Some(|st.sups| - 1)
  {
    ChannelIsNewest(st.row, st.sups);
    assert OpOk(st.row, st.sups, st.ops[i], i);
  }

  /** In every run from any reachable stale mark, that restart is never executed, and its command never
      reaches a supervisor other than the retired one. */
  lemma StaleRestartIsNeverExecuted(st: Sys, i: nat, s: nat, steps: seq<Step>)
    requires Reachable(st) && AboutToMarkStale(st, i, s) && Run(st, steps).Some?
    ensures var end := Run(st, steps).value;
      && i < |end.ops|
      && (end.ops[i].pc.Returned? ==> !end.ops[i].pc.out.Executed?)
      && forall u :: 0 <= u < |end.sups| && u != s ==> !Carries(end.sups[u], Cmd(RestartOp, i))
  {
    ReachableInv(st);
    StaleMeansRetired(st, i, s);
    SpurnedRun(st, steps, i, s);
    var end := Run(st, steps).value;
    forall u | 0 <= u < |end.sups| && u != s ensures !Carries(end.sups[u], Cmd(RestartOp, i)) {
      assert Mailbox(end.ops, end.sups[u], u);
    }
  }

  /** And from every reachable stale mark some run strands the row: the restart returns success, the row
      shows Stopping, and the supervisor that tends it has not been touched. */
  lemma EveryStaleMarkCanStrand(st: Sys, i: nat, s: nat, now: int) returns (steps: seq<Step>)
    requires Reachable(st) && AboutToMarkStale(st, i, s)
    ensures Run(st, steps).Some? && |st.sups| > 0
    ensures var end, t := Run(st, steps).value, |st.sups| - 1;
      && end.row == Some(st.row.value.(status := Stopping)) && end.staleMark
      && i < |end.ops| && end.ops[i].pc == Returned(Supervised(t))
      && |end.sups| == |st.sups| && end.sups[t] == st.sups[t]
  {
    ReachableInv(st);
    StaleMeansRetired(st, i, s);
    var first := FinishRetired(st, s);
    var mid := Run(st, first).value;
    var three := [OpStep(i, now), OpStep(i, now), OpStep(i, now)];
    StaleMarkStrandsTheRow(mid, i, s, |st.sups| - 1, now);
    RunConcat(st, first, three);
    steps := first + three;
  }
}
