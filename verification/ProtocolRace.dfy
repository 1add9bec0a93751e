/** The race between a stop and the child's own exit. A stop, a delete, or a restart's mark keeps the
    supervisor from spawning once more exactly when it does not find it in one of a few positions: on its
    way to a spawn, announcing a child, or past a decision to restart. There the mark is overwritten, and
    only the queued command stops the next child. A row that shows a pid is never in such a position. */
module ProtocolRace {
  import opened Domain
  import opened Policy
  import opened Sections
  import opened Protocol
  import opened ProtocolInvariant
  import opened ProtocolSteps
  import opened ProtocolRuns

  /** Some exit of the app can be answered with a restart. */
  predicate Restartable(config: AppConfig) {
    config.autorestart && config.maxRestarts >= 1
  }

  /** The child was announced, and the exit decision, if it comes, will still read the row's status. */
  predicate Announced(pc: SupPc) {
    pc.FirstAck? || pc.Running? || pc.Reaped?
  }

  /** The positions in which a mark on the row comes too early or too late. */
  predicate CanRespawn(pc: SupPc, config: AppConfig) {
    || pc.Head? || pc.Spawning? || pc.Scheduling? || pc.Backoff?
    || (pc.CmdAck? && pc.cmd.kind == RestartOp)
    || (pc.Spawned? && Restartable(config))
    || (pc.Deciding? && DecideRestart(pc.facts).Restart?)
  }

  /** Nothing but a restart command leads from here to a spawn. */
  predicate Doomed(row: Option<Proc>, u: Sup, config: AppConfig) {
    && (row.Some? ==> row.value.config == config)
    && !CanRespawn(u.pc, config)
    && (Announced(u.pc) && row.Some? ==> DownStatus(row.value.status) || !Restartable(config))
  }

  /** The step executes a restart command. */
  predicate ServesRestart(st: Sys, step: Step, s: nat)
    requires s < |st.sups|
  {
    var pc := st.sups[s].pc;
    step.SupStep? && step.s == s && (pc.Killed? || pc.BackoffCmd?) && pc.cmd.kind == RestartOp
  }

  ghost predicate ServesNoRestart(st: Sys, steps: seq<Step>, s: nat)
    requires s < |st.sups|
    decreases |steps|
  {
    steps == [] ||
    (!ServesRestart(st, steps[0], s) &&
     (Next(st, steps[0]).Some? && s < |Next(st, steps[0]).value.sups| ==>
        ServesNoRestart(Next(st, steps[0]).value, steps[1..], s)))
  }

  predicate NoNewChild(u: Sup, u': Sup) {
    u'.child == u.child || u'.child.None?
  }

  // ----- in every other position no spawn follows

  lemma DoomedAfterOwnStep(row: Option<Proc>, u: Sup, ev: SupEvent, config: AppConfig)
    requires Doomed(row, u, config) && SupAfter(row, u, ev).Some?
    requires u.pc.Killed? || u.pc.BackoffCmd? ==> u.pc.cmd.kind == StopOp || u.pc.cmd.kind == DeleteOp
    requires u.pc.CmdClear? ==> u.pc.cmd.kind == StopOp
    ensures Doomed(RowAfter(row, u, ev), SupAfter(row, u, ev).value, config)
    ensures NoNewChild(u, SupAfter(row, u, ev).value)
  {
  }

  lemma RetiredLeaveTheRow(row: Option<Proc>, u: Sup, ev: SupEvent)
    requires PastClear(u.pc)
    ensures RowAfter(row, u, ev) == row
  {
  }

  lemma ConfigsAreKept(row: Option<Proc>, u: Sup, ev: SupEvent)
    requires row.Some? && RowAfter(row, u, ev).Some?
    ensures RowAfter(row, u, ev).value.config == row.value.config
  {
  }

  lemma OpsKeepTheConfig(st: Sys, i: nat, now: int)
    requires StepOp(st, i, now).Some? && StepOp(st, i, now).value.row.Some?
    ensures st.row.Some? && StepOp(st, i, now).value.row.value.config == st.row.value.config
    ensures st.row.value.cmdTx.Some? && DownStatus(st.row.value.status) ==>
      DownStatus(StepOp(st, i, now).value.row.value.status)
  {
  }

  lemma DoomedStays(st: Sys, step: Step, s: nat, config: AppConfig)
    requires Inv(st) && s < |st.sups| && Doomed(st.row, st.sups[s], config)
    requires Next(st, step).Some? && !ServesRestart(st, step, s)
    ensures s < |Next(st, step).value.sups|
    ensures Doomed(Next(st, step).value.row, Next(st, step).value.sups[s], config)
    ensures NoNewChild(st.sups[s], Next(st, step).value.sups[s])
  {
    var u := st.sups[s];
    match step
    case SupStep(t, ev) =>
      if t == s {
        assert Mailbox(st.ops, u, s);
        DoomedAfterOwnStep(st.row, u, ev, config);
      } else {
        OtherTaskStep(st, t, ev, s, config);
      }
    case OpStep(i, now) => OperationStep(st, i, now, s, config);
    case _ =>
  }

  lemma OperationStep(st: Sys, i: nat, now: int, s: nat, config: AppConfig)
    requires Inv(st) && s < |st.sups| && Doomed(st.row, st.sups[s], config) && StepOp(st, i, now).Some?
    ensures s < |StepOp(st, i, now).value.sups|
    ensures Doomed(StepOp(st, i, now).value.row, StepOp(st, i, now).value.sups[s], config)
    ensures NoNewChild(st.sups[s], StepOp(st, i, now).value.sups[s])
  {
    OpStepLeavesTasks(st, i, now);
    if StepOp(st, i, now).value.row.Some? {
      ChannelIsNewest(st.row, st.sups);
      OpsKeepTheConfig(st, i, now);
    }
  }

  lemma OtherTaskStep(st: Sys, t: nat, ev: SupEvent, s: nat, config: AppConfig)
    requires Inv(st) && s < |st.sups| && Doomed(st.row, st.sups[s], config)
    requires t != s && StepSup(st, t, ev).Some?
    ensures Doomed(StepSup(st, t, ev).value.row, st.sups[s], config)
  {
    if Announced(st.sups[s].pc) {
      assert s == |st.sups| - 1;
      RetiredLeaveTheRow(st.row, st.sups[t], ev);
    } else if st.row.Some? && RowAfter(st.row, st.sups[t], ev).Some? {
      ConfigsAreKept(st.row, st.sups[t], ev);
    }
  }

  lemma {:induction false} DoomedRun(st: Sys, steps: seq<Step>, s: nat, config: AppConfig)
    requires Inv(st) && s < |st.sups| && Doomed(st.row, st.sups[s], config)
    requires Run(st, steps).Some? && ServesNoRestart(st, steps, s)
    ensures s < |Run(st, steps).value.sups|
    ensures Doomed(Run(st, steps).value.row, Run(st, steps).value.sups[s], config)
    ensures NoNewChild(st.sups[s], Run(st, steps).value.sups[s])
    decreases |steps|
  {
    if steps != [] {
      DoomedStays(st, steps[0], s, config);
      NextKeepsInv(st, steps[0]);
      DoomedRun(Next(st, steps[0]).value, steps[1..], s, config);
    }
  }

  // ----- in these positions a spawn can follow

  /** The run executes no restart command of supervisor `s`, and leaves it able to spawn a child. */
  ghost predicate LeadsToSpawn(st: Sys, steps: seq<Step>, s: nat) {
    && s < |st.sups|
    && Run(st, steps).Some? && ServesNoRestart(st, steps, s)
    && Next(Run(st, steps).value, SupStep(s, SpawnOk(1))).Some?
  }

  ghost predicate SpawnFollows(st: Sys, s: nat) {
    exists steps :: LeadsToSpawn(st, steps, s)
  }

  lemma SpawnFollowsStep(st: Sys, step: Step, s: nat)
    requires s < |st.sups| && Next(st, step).Some? && !ServesRestart(st, step, s)
    requires SpawnFollows(Next(st, step).value, s)
    ensures SpawnFollows(st, s)
  {
    var steps :| LeadsToSpawn(Next(st, step).value, steps, s);
    RunCons(st, step, steps);
    assert ([step] + steps)[1..] == steps;
    assert LeadsToSpawn(st, [step] + steps, s);
  }

  /** The supervisor stands at `pc`, and the row exists. */
  predicate StandsAt(st: Sys, s: nat, pc: SupPc) {
    s < |st.sups| && st.sups[s].pc == pc && st.row.Some?
  }

  lemma FromHead(st: Sys, s: nat)
    requires StandsAt(st, s, Head) || StandsAt(st, s, Spawning)
    ensures SpawnFollows(st, s)
  {
    if st.sups[s].pc.Spawning? {
      assert LeadsToSpawn(st, [], s);
    } else {
      var step := SupStep(s, Go(0));
      assert LeadsToSpawn(Next(st, step).value, [], s);
      SpawnFollowsStep(st, step, s);
    }
  }

  lemma FromBackoff(st: Sys, s: nat)
    requires s < |st.sups| && st.sups[s].pc.Backoff? && st.row.Some?
    ensures SpawnFollows(st, s)
  {
    FromHead(Next(st, SupStep(s, Timer)).value, s);
    SpawnFollowsStep(st, SupStep(s, Timer), s);
  }

  lemma FromScheduling(st: Sys, s: nat)
    requires s < |st.sups| && st.sups[s].pc.Scheduling? && st.row.Some?
    ensures SpawnFollows(st, s)
  {
    var step := SupStep(s, Go(0));
    var st' := Next(st, step).value;
    if st.sups[s].pc.delayMs > 0 {
      FromBackoff(st', s);
    } else {
      FromHead(st', s);
    }
    SpawnFollowsStep(st, step, s);
  }

  lemma FromDeciding(st: Sys, s: nat)
    requires s < |st.sups| && st.sups[s].pc.Deciding? && st.row.Some?
    requires DecideRestart(st.sups[s].pc.facts).Restart?
    ensures SpawnFollows(st, s)
  {
    var step := SupStep(s, Go(0));
    FromScheduling(Next(st, step).value, s);
    SpawnFollowsStep(st, step, s);
  }

  /** The row is Online, its configuration restartable, its instability forgotten. */
  predicate Fresh(row: Option<Proc>) {
    && row.Some? && row.value.status == Online
    && row.value.unstableRestarts == 0 && Restartable(row.value.config)
  }

  /** An exit of such a row that is answered with a restart: any exit, unless a single unstable one is too
      many; then one after the window. */
  function ExitTime(p: Proc): int {
    if p.config.maxRestarts >= 2 then p.createdAt else p.createdAt + I63
  }

  lemma ExitRestarts(p: Proc)
    requires Fresh(Some(p))
    ensures DecideRestart(FactsOf(RecordExit(p, None), None, ExitTime(p))).Restart?
  {
  }

  lemma FromReaped(st: Sys, s: nat)
    requires s < |st.sups| && st.sups[s].pc == Reaped(None) && Fresh(st.row)
    ensures SpawnFollows(st, s)
  {
    var step := SupStep(s, Go(ExitTime(st.row.value)));
    ExitRestarts(st.row.value);
    FromDeciding(Next(st, step).value, s);
    SpawnFollowsStep(st, step, s);
  }

  lemma FromFirstAck(st: Sys, s: nat)
    requires s < |st.sups| && (st.sups[s].pc.FirstAck? || st.sups[s].pc.Running?) && Fresh(st.row)
    ensures SpawnFollows(st, s)
    decreases st.sups[s].pc.FirstAck?
  {
    var step := SupStep(s, if st.sups[s].pc.FirstAck? then Go(0) else Exit(None));
    var st' := Next(st, step).value;
    if st.sups[s].pc.FirstAck? {
      FromFirstAck(st', s);
    } else {
      FromReaped(st', s);
    }
    SpawnFollowsStep(st, step, s);
  }

  /** The child is announced, the counters are reset, and the child exits: by the row's own clock. */
  lemma FromSpawned(st: Sys, s: nat)
    requires StandsAt(st, s, Spawned) && Restartable(st.row.value.config)
    ensures SpawnFollows(st, s)
  {
    var now := st.row.value.createdAt;
    var announce, reset := SupStep(s, Go(now)), ResetCounters(now);
    var a := Next(st, announce).value;
    FromFirstAck(Next(a, reset).value, s);
    SpawnFollowsStep(a, reset, s);
    SpawnFollowsStep(st, announce, s);
  }

  lemma FromRestarted(st: Sys, s: nat)
    requires s < |st.sups| && st.sups[s].pc.CmdAck? && st.sups[s].pc.cmd.kind == RestartOp && st.row.Some?
    ensures SpawnFollows(st, s)
  {
    var step := SupStep(s, Go(0));
    FromHead(Next(st, step).value, s);
    SpawnFollowsStep(st, step, s);
  }

  lemma SpawnFollowsFromOpenPositions(st: Sys, s: nat)
    requires s < |st.sups| && st.row.Some? && CanRespawn(st.sups[s].pc, st.row.value.config)
    ensures SpawnFollows(st, s)
  {
    match st.sups[s].pc
    case Head => FromHead(st, s);
    case Spawning => FromHead(st, s);
    case Scheduling(_, _, _, _) => FromScheduling(st, s);
    case Backoff(_) => FromBackoff(st, s);
    case CmdAck(_) => FromRestarted(st, s);
    case Spawned => FromSpawned(st, s);
    case Deciding(_) => FromDeciding(st, s);
  }

  // ----- the exact condition

  /** The operation is about to mark the row Stopping: a stop or delete in its first section, or a
      restart at its mark. */
  predicate AboutToMark(st: Sys, i: nat) {
    && i < |st.ops| && st.row.Some? && st.row.value.cmdTx.Some?
    && (|| (st.ops[i].pc.Start? && (st.ops[i].kind == StopOp || st.ops[i].kind == DeleteOp))
        || (st.ops[i].pc.Mark? && st.row.value.status == Online))
  }

  lemma MarkOnly(st: Sys, i: nat, now: int)
    requires AboutToMark(st, i)
    ensures StepOp(st, i, now).Some?
    ensures var st' := StepOp(st, i, now).value;
      st'.sups == st.sups && st'.row == Some(st.row.value.(status := Stopping))
  {
  }

  /** After a mark in any reachable state, the row's supervisor can still spawn a child without being told
      to restart if and only if the mark found it in an open position. */
  lemma SpawnFollowsMarkIff(st: Sys, i: nat, s: nat, now: int)
    requires Reachable(st) && AboutToMark(st, i) && st.row.value.cmdTx == Some(s)
    ensures s < |st.sups| && StepOp(st, i, now).Some?
    ensures SpawnFollows(StepOp(st, i, now).value, s) <==> CanRespawn(st.sups[s].pc, st.row.value.config)
  {
    ReachableInv(st);
    ChannelIsNewest(st.row, st.sups);
    MarkOnly(st, i, now);
    var st' := StepOp(st, i, now).value;
    if CanRespawn(st.sups[s].pc, st.row.value.config) {
      SpawnFollowsFromOpenPositions(st', s);
    } else {
      OpStepKeepsInv(st, i, now);
      NoSpawnFollows(st', s);
    }
  }

  lemma NoSpawnFollows(st: Sys, s: nat)
    requires Inv(st) && s < |st.sups| && st.row.Some? && Doomed(st.row, st.sups[s], st.row.value.config)
    ensures !SpawnFollows(st, s)
  {
    forall steps | LeadsToSpawn(st, steps, s) ensures false {
      DoomedRun(st, steps, s, st.row.value.config);
    }
  }

  /** What the marking section itself can see: a row that shows a pid is in no open position. */
  lemma PidMeansClosed(st: Sys, s: nat, config: AppConfig)
    requires Reachable(st) && st.row.Some? && st.row.value.cmdTx == Some(s) && st.row.value.pid != 0
    ensures s < |st.sups| && !CanRespawn(st.sups[s].pc, config)
  {
    ReachableInv(st);
    ChannelIsNewest(st.row, st.sups);
  }

  /** So a mark on a row with a pid wins: however the child exits and whatever other tasks do, over every
      run that supervisor spawns nothing unless it first executes a restart command. */
  lemma StopBeatsTheExit(st: Sys, i: nat, s: nat, now: int, steps: seq<Step>)
    requires Reachable(st) && AboutToMark(st, i)
    requires st.row.value.cmdTx == Some(s) && st.row.value.pid != 0
    requires StepOp(st, i, now).Some? && Run(StepOp(st, i, now).value, steps).Some?
    requires s < |StepOp(st, i, now).value.sups| && ServesNoRestart(StepOp(st, i, now).value, steps, s)
    ensures var end := Run(StepOp(st, i, now).value, steps).value;
      && s < |st.sups| <= |end.sups|
      && NoNewChild(st.sups[s], end.sups[s])
      && !end.sups[s].pc.Spawning? && !end.sups[s].pc.Scheduling? && !end.sups[s].pc.Backoff?
  {
    ReachableInv(st);
    PidMeansClosed(st, s, st.row.value.config);
    MarkOnly(st, i, now);
    OpStepKeepsInv(st, i, now);
    DoomedRun(StepOp(st, i, now).value, steps, s, st.row.value.config);
    RunOnlyAddsTasks(StepOp(st, i, now).value, steps);
  }

  lemma {:induction false} RunOnlyAddsTasks(st: Sys, steps: seq<Step>)
    requires Run(st, steps).Some?
    ensures |st.sups| <= |Run(st, steps).value.sups|
    decreases |steps|
  {
    if steps != [] {
      if steps[0].OpStep? {
        OpStepLeavesTasks(st, steps[0].i, steps[0].now);
      }
      RunOnlyAddsTasks(Next(st, steps[0]).value, steps[1..]);
    }
  }

  // ----- three reachable runs of a lost race

  /** The launch window: a stop arrived while the first child was being launched, and its command is queued. */
  function StopWhileLaunching(config: AppConfig): Sys {
    Sys(Some(NewProc(0, 0, config, 0).(status := Stopping, cmdTx := Some(0))),
        [NewSup(0).(queue := [Cmd(StopOp, 1)])],
        [Op(LaunchOp, LaunchWait(0), Pending, None, 0), Op(StopOp, Wait(0), Pending, Some(0), 0)], false)
  }

  /** The launch went on, and the child exited before the command was read. */
  function ExitFirst(config: AppConfig): Sys {
    StopWhileLaunching(config).(
      row := Some(OnlineRow(config, 100, 0, 0)),
      sups := [Tending(100, 0).(queue := [Cmd(StopOp, 1)], pc := Reaped(None), child := None)],
      ops := [Op(LaunchOp, LaunchWait(0), Acked(true), None, 0), Op(StopOp, Wait(0), Pending, Some(0), 0)])
  }

  lemma StopWhileLaunchingIsReachable(config: AppConfig)
    ensures Reachable(StopWhileLaunching(config))
  {
    FirstSupervisor(config);
    var st := Launching1(config);
    st := Take(st, Begin(StopOp));
    st := Take(st, OpStep(1, 0));
    st := Take(st, OpStep(1, 0));
    assert st.sups[0].queue == [Cmd(StopOp, 1)];
    assert st == StopWhileLaunching(config);
  }

  function AnnouncedWhileStopping(config: AppConfig): Sys {
    StopWhileLaunching(config).(
      row := Some(OnlineRow(config, 100, 0, 0)),
      sups := [NewSup(0).(queue := [Cmd(StopOp, 1)], pc := FirstAck, child := Some(100), spawns := 1)])
  }

  lemma AnnouncedWhileStoppingIsReachable(config: AppConfig)
    ensures Reachable(AnnouncedWhileStopping(config))
  {
    StopWhileLaunchingIsReachable(config);
    var st := StopWhileLaunching(config);
    st := Take(st, SupStep(0, Go(0)));
    st := Take(st, SupStep(0, SpawnOk(100)));
    st := Take(st, SupStep(0, Go(0)));
    assert st == AnnouncedWhileStopping(config);
  }

  lemma ExitFirstIsReachable(config: AppConfig)
    ensures Reachable(ExitFirst(config))
  {
    AnnouncedWhileStoppingIsReachable(config);
    var st := AnnouncedWhileStopping(config);
    st := Take(st, SupStep(0, Go(0)));
    st := Take(st, SupStep(0, Exit(None)));
    assert st == ExitFirst(config);
  }

  /** The exit is being decided on facts that show Online. */
  function Deciding1(config: AppConfig): Sys {
    var p := OnlineRow(config, 0, 0, 0);
    ExitFirst(config).(
      row := Some(p),
      sups := [ExitFirst(config).sups[0].(pc := Deciding(FactsOf(p, None, 0)))])
  }

  /** A second child is up, and the stop still waits. */
  predicate Respawned(st: Sys) {
    && |st.sups| == 1 && st.sups[0].child == Some(101) && st.sups[0].queue == [Cmd(StopOp, 1)]
    && |st.ops| == 2 && st.ops[1] == Op(StopOp, Wait(0), Pending, Some(0), 0)
  }

  lemma Deciding1IsReachable(config: AppConfig)
    ensures Reachable(Deciding1(config))
  {
    ExitFirstIsReachable(config);
    var st := Take(ExitFirst(config), SupStep(0, Go(0)));
    assert st == Deciding1(config);
  }

  lemma FirstExitRestarts(config: AppConfig)
    requires config.autorestart && config.maxRestarts >= 2 && config.backoffBase == 0
    ensures var d := DecideRestart(FactsOf(OnlineRow(config, 0, 0, 0), None, 0));
      d.Restart? && d.delayMs == config.restartDelay
  {
  }

  lemma SecondChild(st: Sys) returns (st': Sys)
    requires Reachable(st) && |st.sups| == 1 && st.sups[0].pc.Head? && st.sups[0].queue == [Cmd(StopOp, 1)]
    requires st.row.Some? && |st.ops| == 2 && st.ops[1] == Op(StopOp, Wait(0), Pending, Some(0), 0)
    ensures Reachable(st') && Respawned(st')
  {
    st' := Take(st, SupStep(0, Go(0)));
    st' := Take(st', SupStep(0, SpawnOk(101)));
  }

  /** The stop's Stopping was overwritten by Online, so the exit is answered with a respawn, although the
      stop is still waiting: a second child comes up before the queued command stops it. */
  lemma StopWhileLaunchingMayRespawn(config: AppConfig) returns (st: Sys)
    requires config.autorestart && config.maxRestarts >= 2
    requires config.restartDelay == 0 && config.backoffBase == 0
    ensures Reachable(st) && Respawned(st)
  {
    Deciding1IsReachable(config);
    FirstExitRestarts(config);
    st := Deciding1(config);
    st := Take(st, SupStep(0, Go(0)));
    st := Take(st, SupStep(0, Go(0)));
    st := SecondChild(st);
  }

  /** The decision window: the child of an announced row exited, and the exit is being decided. */
  function DecidingOnline(config: AppConfig): Sys {
    var p := OnlineRow(config, 0, 0, 0);
    Sys(Some(p), [Tending(100, 0).(pc := Deciding(FactsOf(p, None, 0)), child := None)], [LAUNCHED], false)
  }

  lemma DecidingOnlineIsReachable(config: AppConfig)
    ensures Reachable(DecidingOnline(config))
  {
    FirstLaunch(config);
    var st := Online1(config);
    st := Take(st, SupStep(0, Exit(None)));
    st := Take(st, SupStep(0, Go(0)));
    assert st == DecidingOnline(config);
  }

  /** A stop begins on a state with one operation, and queues its command with supervisor 0. */
  lemma StopBegins(st: Sys) returns (st': Sys)
    requires Reachable(st) && |st.ops| == 1 && |st.sups| == 1 && st.sups[0].queue == []
    requires st.row.Some? && st.row.value.cmdTx == Some(0) && !st.sups[0].pc.Done?
    ensures Reachable(st') && |st'.sups| == 1 && |st'.ops| == 2
    ensures st'.sups[0] == st.sups[0].(queue := [Cmd(StopOp, 1)])
    ensures st'.row == Some(st.row.value.(status := Stopping))
    ensures st'.ops[1] == Op(StopOp, Wait(0), Pending, Some(0), 0)
  {
    st' := Take(st, Begin(StopOp));
    st' := Take(st', OpStep(1, 0));
    st' := Take(st', OpStep(1, 0));
    assert st'.sups[0].queue == [Cmd(StopOp, 1)];
  }

  lemma BackingOff(config: AppConfig) returns (st: Sys)
    requires config.autorestart && config.maxRestarts >= 2
    requires config.restartDelay > 0 && config.backoffBase == 0
    ensures Reachable(st) && |st.sups| == 1 && |st.ops| == 1
    ensures st.sups[0] == Tending(100, 0).(pc := Backoff(None), child := None)
    ensures st.row.Some? && st.row.value.cmdTx == Some(0)
  {
    DecidingOnlineIsReachable(config);
    FirstExitRestarts(config);
    st := DecidingOnline(config);
    st := Take(st, SupStep(0, Go(0)));
    st := Take(st, SupStep(0, Go(0)));
  }

  /** A stop that lands after the exit's facts were captured is overwritten by the scheduled restart,
      although the row still showed Online when it came. */
  lemma StopWhileDecidingMayRespawn(config: AppConfig) returns (st: Sys)
    requires config.autorestart && config.maxRestarts >= 2
    requires config.restartDelay == 0 && config.backoffBase == 0
    ensures Reachable(st) && Respawned(st)
  {
    DecidingOnlineIsReachable(config);
    FirstExitRestarts(config);
    st := StopBegins(DecidingOnline(config));
    st := Take(st, SupStep(0, Go(0)));
    st := Take(st, SupStep(0, Go(0)));
    st := SecondChild(st);
  }

  /** The backoff window: a stop that lands during the wait leaves the timer free to win. */
  lemma StopInBackoffMayRespawn(config: AppConfig) returns (st: Sys)
    requires config.autorestart && config.maxRestarts >= 2
    requires config.restartDelay > 0 && config.backoffBase == 0
    ensures Reachable(st) && Respawned(st)
  {
    st := BackingOff(config);
    st := StopBegins(st);
    st := Take(st, SupStep(0, Timer));
    st := SecondChild(st);
  }
}
