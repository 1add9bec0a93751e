/** The race protocol on one table row: supervisor tasks, their command channels, and the
    stop/restart/delete/launch operations that run beside them.

    Every lock-protected section, channel operation, spawn, reap and acknowledgement is one atomic
    step; a run interleaves the steps of all tasks arbitrarily. Child exits, spawn failures, the
    choice a `select!` makes, exit codes and clock readings are supplied by the step. A supervisor
    is named by its position in the order of creation. */
module Protocol {
  import opened Domain
  import opened Policy
  import opened Sections

  const CHANNEL_CAPACITY: nat := 8

  datatype OpKind = LaunchOp | StopOp | RestartOp | DeleteOp

  /** A command in a channel; `op` is the operation that waits for its acknowledgement. */
  datatype Cmd = Cmd(kind: OpKind, op: nat)

  /** A oneshot acknowledgement as its receiver sees it. */
  datatype Ack = Pending | Acked(ok: bool) | Dropped

  /** Where a supervisor task stands. */
  datatype SupPc =
    | Head                       // loop head, about to snapshot the row
    | Spawning                   // about to spawn the child
    | FailDead | FailAck | FailClear
    | Spawned                    // child spawned, row not yet online
    | FirstAck                   // row online, first acknowledgement not yet sent
    | Running                    // waiting for the child's exit or a command
    | Reaped(code: Option<int>)  // child exited and was reaped
    | Deciding(facts: ExitFacts)
    | ExitDead(code: Option<int>) | ExitClear
    | OverMark | OverClear
    | Scheduling(delayMs: u64, unstable: nat, prev: u64, code: Option<int>)
    | Backoff(code: Option<int>)
    | BackoffCmd(cmd: Cmd, code: Option<int>)
    | KillMark(cmd: Cmd) | Killing(cmd: Cmd) | Killed(cmd: Cmd)
    | CmdClear(cmd: Cmd)         // Stop executed, channel not yet cleared
    | CmdAck(cmd: Cmd)           // command executed, acknowledgement not yet sent
    | Ending                     // the task returns; its locals are about to be dropped
    | Done

  datatype Sup = Sup(
    pc: SupPc,
    queue: seq<Cmd>,
    child: Option<nat>,          // the un-reaped child, by pid
    firstAck: Option<nat>,       // the operation waiting for the first spawn attempt
    starter: nat,                // the operation that created this supervisor
    served: set<nat>,            // restart operations whose command it has executed
    spawns: nat,                 // children spawned
    orphanSpawns: nat)           // and among them, after the row was removed

  datatype Outcome =
    | RowGone | NotRunning | StopDone
    | Executed(sup: nat)
    | Removed
    | Supervised(sup: nat) | Started(sup: nat) | SpawnFailed(sup: nat) | Vanished | DiedEarly(sup: nat)

  datatype OpPc =
    | Start
    | Mark(sup: nat) | Send(sup: nat) | Wait(sup: nat)
    | Normalise | Cold | Remove
    | LaunchCheck | LaunchSpawn | LaunchWait(sup: nat)
    | Returned(out: Outcome)

  /** `tx` is the channel the operation cloned; `seen` counts the supervisors that existed when a
      restart found the row without one. */
  datatype Op = Op(kind: OpKind, pc: OpPc, ack: Ack, tx: Option<nat>, seen: nat)

  /** `staleMark` records that the row's status was last written by a restart that overwrote Online with
      Stopping after the channel it had cloned stopped being the row's channel. */
  datatype Sys = Sys(row: Option<Proc>, sups: seq<Sup>, ops: seq<Op>, staleMark: bool)

  datatype SupEvent =
    | Go(now: int)
    | SpawnOk(pid: nat) | SpawnErr
    | Exit(code: Option<int>)
    | Recv | Closed | Timer

  datatype Step =
    | Begin(kind: OpKind)
    | OpStep(i: nat, now: int)
    | SupStep(s: nat, ev: SupEvent)
    | ResetCounters(now: int)
    | WorkerTick(now: int)

  // ----- the supervisor task

  /** The decision taken on facts captured earlier. */
  function Decided(f: ExitFacts): SupPc {
    match DecideRestart(f)
    case Stop => ExitDead(f.exitCode)
    case GiveUp => OverMark
    case Restart(d, u, p) => Scheduling(d, u, p, f.exitCode)
  }

  /** The section that executes a command once no child is left; `code` is the exit code a backoff
      wait remembers. */
  function ExecuteOnRow(p: Proc, c: Cmd, inBackoff: bool, code: Option<int>, now: int): Option<Proc> {
    match c.kind
    case StopOp => Some(SetDead(p, Stopped, code))
    case DeleteOp => None
    case _ => Some(if inBackoff then ForgiveInBackoff(p, now) else ForgiveAfterKill(p, now))
  }

  /** What a supervisor's step does to the row, None being its removal. */
  function RowEffect(p: Proc, u: Sup, now: int): Option<Proc> {
    match u.pc
    case FailDead => Some(SetDead(p, Errored, None))
    case FailClear => Some(ClearCmdTx(p))
    case Spawned => Some(GoOnline(p, if u.child.Some? then u.child.value else 0, now))
    case Reaped(code) => Some(RecordExit(p, code))
    case ExitDead(code) => Some(SetDead(p, Stopped, code))
    case ExitClear => Some(ClearCmdTx(p))
    case OverMark => Some(MarkGaveUp(p))
    case OverClear => Some(ClearCmdTx(p))
    case Scheduling(d, n, prev, _) => Some(ScheduleRestart(p, d, n, prev))
    case BackoffCmd(c, code) => ExecuteOnRow(p, c, true, code, now)
    case KillMark(_) => Some(MarkStopping(p))
    case Killed(c) => ExecuteOnRow(p, c, false, None, now)
    case CmdClear(_) => Some(ClearCmdTx(p))
    case _ => Some(p)
  }

  /** Whether that step writes the status of a row it leaves in place. */
  predicate WritesStatus(u: Sup) {
    || u.pc.FailDead? || u.pc.Spawned? || u.pc.ExitDead? || u.pc.OverMark? || u.pc.Scheduling?
    || u.pc.BackoffCmd? || u.pc.KillMark? || u.pc.Killed?
  }

  /** The task after executing command `c`. */
  function Executing(u: Sup, c: Cmd): Sup {
    match c.kind
    case StopOp => u.(pc := CmdClear(c))
    case DeleteOp => u.(pc := CmdAck(c))
    case _ => u.(pc := CmdAck(c), served := u.served + {c.op})
  }

  /** A supervisor's internal step, when the row is `row`. */
  function Going(row: Option<Proc>, u: Sup, now: int): Option<Sup> {
    match u.pc
    case Head => Some(u.(pc := if row.None? then Ending else Spawning))
    case FailDead => Some(u.(pc := FailAck))
    case FailAck => Some(u.(pc := FailClear, firstAck := None))
    case FailClear => Some(u.(pc := Ending))
    case Spawned => Some(u.(pc := FirstAck))
    case FirstAck => Some(u.(pc := Running, firstAck := None))
    case Reaped(code) =>
      Some(u.(pc := if row.None? then Ending else Deciding(FactsOf(RecordExit(row.value, code), code, now))))
    case Deciding(f) => Some(u.(pc := Decided(f)))
    case ExitDead(_) => Some(u.(pc := ExitClear))
    case ExitClear => Some(u.(pc := Ending))
    case OverMark => Some(u.(pc := OverClear))
    case OverClear => Some(u.(pc := Ending))
    case Scheduling(d, _, _, code) => Some(u.(pc := if d > 0 then Backoff(code) else Head))
    case BackoffCmd(c, _) => Some(Executing(u, c))
    case KillMark(c) => Some(u.(pc := Killing(c)))
    case Killed(c) => Some(Executing(u, c))
    case CmdClear(c) => Some(u.(pc := CmdAck(c)))
    case CmdAck(c) => Some(u.(pc := if c.kind == RestartOp then Head else Ending))
    case Ending => Some(u.(pc := Done, queue := [], child := None, firstAck := None))
    case _ => None
  }

  /** The task after one step, or None when the event cannot happen where it stands. */
  function SupAfter(row: Option<Proc>, u: Sup, ev: SupEvent): Option<Sup> {
    match ev
    case Go(now) => Going(row, u, now)
    case SpawnOk(pid) =>
      if !u.pc.Spawning? || pid == 0 then None
      else
        Some(u.(pc := Spawned, child := Some(pid), spawns := u.spawns + 1,
                orphanSpawns := u.orphanSpawns + if row.None? then 1 else 0))
    case SpawnErr => if u.pc.Spawning? then Some(u.(pc := FailDead)) else None
    case Exit(code) =>
      if u.pc.Running? then Some(u.(pc := Reaped(code), child := None))
      else if u.pc.Killing? then Some(u.(pc := Killed(u.pc.cmd), child := None))
      else None
    case Recv =>
      if u.queue == [] then None
      else if u.pc.Running? then Some(u.(pc := KillMark(u.queue[0]), queue := u.queue[1..]))
      else if u.pc.Backoff? then Some(u.(pc := BackoffCmd(u.queue[0], u.pc.code), queue := u.queue[1..]))
      else None
    case Closed => if u.pc.Running? || u.pc.Backoff? then Some(u.(pc := Ending)) else None
    case Timer => if u.pc.Backoff? then Some(u.(pc := Head)) else None
  }

  function RowAfter(row: Option<Proc>, u: Sup, ev: SupEvent): Option<Proc> {
    if row.Some? && ev.Go? then RowEffect(row.value, u, ev.now) else row
  }

  predicate Mentions(queue: seq<Cmd>, i: nat) {
    exists k :: 0 <= k < |queue| && queue[k].op == i
  }

  function SetAck(ops: seq<Op>, i: nat, a: Ack): seq<Op> {
    if i < |ops| then ops[i := ops[i].(ack := a)] else ops
  }

  /** Dropping the receiver drops the acknowledgement of every queued command; dropping the task
      drops the first acknowledgement when it was never sent. */
  function DropAcks(ops: seq<Op>, u: Sup): seq<Op> {
    seq(|ops|, i requires 0 <= i < |ops| =>
      if Mentions(u.queue, i) || u.firstAck == Some(i) then ops[i].(ack := Dropped) else ops[i])
  }

  /** The acknowledgements a supervisor's step settles. */
  function SettleAcks(ops: seq<Op>, u: Sup): seq<Op> {
    match u.pc
    case FirstAck => if u.firstAck.Some? then SetAck(ops, u.firstAck.value, Acked(true)) else ops
    case FailAck => if u.firstAck.Some? then SetAck(ops, u.firstAck.value, Acked(false)) else ops
    case CmdAck(c) => SetAck(ops, c.op, Acked(true))
    case Ending => DropAcks(ops, u)
    case _ => ops
  }

  /** An operation keeps the channel it cloned until it returns. */
  predicate HoldsChannel(o: Op, s: nat) {
    o.tx == Some(s) && !o.pc.Returned?
  }

  /** The channel of supervisor `s` yields None: empty, and no sender left. */
  predicate ChannelClosed(st: Sys, s: nat)
    requires s < |st.sups|
  {
    && st.sups[s].queue == []
    && (st.row.None? || st.row.value.cmdTx != Some(s))
    && forall i :: 0 <= i < |st.ops| ==> !HoldsChannel(st.ops[i], s)
  }

  function StepSup(st: Sys, s: nat, ev: SupEvent): Option<Sys> {
    if s >= |st.sups| || (ev.Closed? && !ChannelClosed(st, s)) then None
    else
      var u := st.sups[s];
      match SupAfter(st.row, u, ev)
      case None => None
      case Some(u') =>
        Some(st.(row := RowAfter(st.row, u, ev), sups := st.sups[s := u'], ops := SettleAcks(st.ops, u),
                 staleMark := st.staleMark && !(st.row.Some? && ev.Go? && WritesStatus(u))))
  }

  // ----- the operations

  function SetOp(st: Sys, i: nat, o: Op): Sys
    requires i < |st.ops|
  {
    st.(ops := st.ops[i := o])
  }

  function StepStart(st: Sys, i: nat): Sys
    requires i < |st.ops|
  {
    var o := st.ops[i];
    if st.row.None? then SetOp(st, i, o.(pc := Returned(RowGone)))
    else
      var p := st.row.value;
      match (o.kind, p.cmdTx)
      case (StopOp, None) =>
        SetOp(st, i, o.(pc := Returned(NotRunning))).(row := Some(StopSnapshot(p)), staleMark := false)
      case (StopOp, Some(s)) =>
        SetOp(st, i, o.(pc := Send(s), tx := Some(s))).(row := Some(StopSnapshot(p)), staleMark := false)
      case (DeleteOp, None) => SetOp(st, i, o.(pc := Remove)).(row := Some(DeleteSnapshot(p)))
      case (DeleteOp, Some(s)) =>
        SetOp(st, i, o.(pc := Send(s), tx := Some(s))).(row := Some(DeleteSnapshot(p)), staleMark := false)
      case (_, None) => SetOp(st, i, o.(pc := Cold, seen := |st.sups|))
      case (_, Some(s)) => SetOp(st, i, o.(pc := Mark(s), tx := Some(s)))
  }

  /** Where an operation goes when its command was not executed. */
  function AfterLoss(kind: OpKind): OpPc {
    match kind
    case StopOp => Normalise
    case DeleteOp => Remove
    case _ => LaunchCheck
  }

  function AfterAck(kind: OpKind, s: nat): OpPc {
    match kind
    case StopOp => Normalise
    case DeleteOp => Returned(Removed)
    case _ => Returned(Executed(s))
  }

  /** Sending a command: fails once the receiver is gone, blocks while the channel is full. */
  function StepSend(st: Sys, i: nat, s: nat): Option<Sys>
    requires i < |st.ops| && s < |st.sups|
  {
    var o, u := st.ops[i], st.sups[s];
    if u.pc.Done? then Some(SetOp(st, i, o.(pc := AfterLoss(o.kind))))
    else if |u.queue| >= CHANNEL_CAPACITY then None
    else
      Some(SetOp(st, i, o.(pc := Wait(s), ack := Pending))
           .(sups := st.sups[s := u.(queue := u.queue + [Cmd(o.kind, i)])]))
  }

  function StepWait(st: Sys, i: nat, s: nat): Option<Sys>
    requires i < |st.ops|
  {
    var o := st.ops[i];
    match o.ack
    case Pending => None
    case Acked(_) => Some(SetOp(st, i, o.(pc := AfterAck(o.kind, s))))
    case Dropped => Some(SetOp(st, i, o.(pc := AfterLoss(o.kind))))
  }

  function StepMark(st: Sys, i: nat, s: nat): Sys
    requires i < |st.ops|
  {
    var marks := st.row.Some? && st.row.value.status == Online;
    SetOp(st, i, st.ops[i].(pc := Send(s)))
    .(row := if st.row.Some? then Some(MarkForRestart(st.row.value)) else None,
      staleMark := if marks then st.row.value.cmdTx != Some(s) else st.staleMark)
  }

  function NewSup(starter: nat): Sup {
    Sup(Head, [], None, Some(starter), starter, {}, 0, 0)
  }

  /** `launch` up to the spawn section, which re-checks under the lock. */
  function StepLaunch(st: Sys, i: nat): Sys
    requires i < |st.ops|
  {
    var o := st.ops[i];
    if st.row.None? then SetOp(st, i, o.(pc := Returned(Vanished)))
    else if st.row.value.cmdTx.Some? then SetOp(st, i, o.(pc := Returned(Supervised(st.row.value.cmdTx.value))))
    else if o.pc.LaunchCheck? then SetOp(st, i, o.(pc := LaunchSpawn))
    else
      var s := |st.sups|;
      SetOp(st, i, o.(pc := LaunchWait(s), ack := Pending))
      .(row := Some(Supervise(st.row.value, s)), sups := st.sups + [NewSup(i)], staleMark := false)
  }

  function StepLaunchWait(st: Sys, i: nat, s: nat): Option<Sys>
    requires i < |st.ops|
  {
    var o := st.ops[i];
    match o.ack
    case Pending => None
    case Acked(ok) => Some(SetOp(st, i, o.(pc := Returned(if ok then Started(s) else SpawnFailed(s)))))
    case Dropped => Some(SetOp(st, i, o.(pc := Returned(DiedEarly(s)))))
  }

  function StepOp(st: Sys, i: nat, now: int): Option<Sys> {
    if i >= |st.ops| then None
    else
      var o := st.ops[i];
      match o.pc
      case Start => Some(StepStart(st, i))
      case Mark(s) => Some(StepMark(st, i, s))
      case Send(s) => if s < |st.sups| then StepSend(st, i, s) else None
      case Wait(s) => StepWait(st, i, s)
      case Normalise =>
        Some(SetOp(st, i, o.(pc := Returned(StopDone)))
             .(row := if st.row.Some? then Some(NormaliseStop(st.row.value)) else None,
               staleMark := st.staleMark && !(st.row.Some? && st.row.value.status == Stopping)))
      case Cold =>
        Some(SetOp(st, i, o.(pc := LaunchCheck))
             .(row := if st.row.Some? then Some(ColdRestart(st.row.value, now)) else None))
      case Remove => Some(SetOp(st, i, o.(pc := Returned(Removed))).(row := None))
      case LaunchCheck => Some(StepLaunch(st, i))
      case LaunchSpawn => Some(StepLaunch(st, i))
      case LaunchWait(s) => StepLaunchWait(st, i, s)
      case Returned(_) => None
  }

  function NewOp(kind: OpKind): Op {
    Op(kind, if kind == LaunchOp then LaunchCheck else Start, Pending, None, 0)
  }

  // ----- runs

  function Next(st: Sys, step: Step): Option<Sys> {
    match step
    case Begin(kind) => Some(st.(ops := st.ops + [NewOp(kind)]))
    case OpStep(i, now) => StepOp(st, i, now)
    case SupStep(s, ev) => StepSup(st, s, ev)
    case ResetCounters(now) =>
      Some(st.(row := if st.row.Some? then Some(st.row.value.ResetCounters(now)) else None))
    case WorkerTick(now) =>
      Some(st.(row := if st.row.Some? then Some(ForgetBackoff(st.row.value, now)) else None))
  }

  /** The state reached by taking `steps` in order, if every one of them is enabled. */
  function Run(st: Sys, steps: seq<Step>): Option<Sys>
    decreases |steps|
  {
    if steps == [] then Some(st)
    else
      match Next(st, steps[0])
      case None => None
      case Some(st') => Run(st', steps[1..])
  }

  /** A row just inserted by `start`, before any operation touched it. */
  function Init(config: AppConfig, pmId: nat, instance: nat, now: int): Sys {
    Sys(Some(NewProc(pmId, instance, config, now)), [], [], false)
  }

  ghost predicate Reachable(st: Sys) {
    exists config, pmId: nat, instance: nat, now: int, steps ::
      Run(Init(config, pmId, instance, now), steps) == Some(st)
  }

  predicate Live(o: Op) {
    !o.pc.Returned?
  }
}
