/** What a row shows in every reachable state: its status and exit code tell where its newest supervisor
    stands, but for the marks of stops, deletes and restarts; and what a stop leaves behind. */
module ProtocolStatus {
  import opened Domain
  import opened Protocol
  import opened ProtocolInvariant
  import opened ProtocolSteps
  import opened ProtocolRuns

  // ----- status and position

  /** The status the supervisor itself has last given the row. */
  predicate Shows(pc: SupPc, status: Status) {
    match pc
    case Head => status == Launching || status == WaitingRestart
    case Spawning => status == Launching || status == WaitingRestart
    case FailDead => status == Launching || status == WaitingRestart
    case Spawned => status == Launching || status == WaitingRestart
    case FirstAck => status == Online
    case Running => status == Online
    case Reaped(_) => status == Online
    case Deciding(_) => status == Online
    case ExitDead(_) => status == Online
    case OverMark => status == Online
    case Scheduling(_, _, _, _) => status == Online
    case KillMark(_) => status == Online
    case Backoff(_) => status == WaitingRestart
    case BackoffCmd(_, _) => status == WaitingRestart
    case Killing(_) => status == Stopping
    case Killed(_) => status == Stopping
    case FailAck => status == Errored
    case FailClear => status == Errored
    case OverClear => status == Errored
    case ExitClear => status == Stopped
    case CmdClear(_) => status == Stopped
    case CmdAck(c) => if c.kind == RestartOp then status == Launching else status == Stopped
    case Ending => status == Stopped || status == Errored
    case Done => status == Stopped || status == Errored
  }

  /** The exit code it has last given the row. */
  predicate ShowsExit(pc: SupPc, exit: Option<int>) {
    match pc
    case FirstAck => exit == None
    case Running => exit == None
    case Reaped(_) => exit == None
    case KillMark(_) => exit == None
    case Killing(_) => exit == None
    case Killed(_) => exit == None
    case Deciding(f) => exit == f.exitCode
    case ExitDead(code) => exit == code
    case Scheduling(_, _, _, code) => exit == code
    case Backoff(code) => exit == code
    case BackoffCmd(_, code) => exit == code
    case _ => true
  }

  /** A stop, delete or restart has begun. */
  ghost predicate SomeMarker(ops: seq<Op>) {
    exists i :: 0 <= i < |ops| && Marker(ops[i])
  }

  predicate Marker(o: Op) {
    o.kind != LaunchOp && !o.pc.Start?
  }

  predicate MarkStatus(s: Status) {
    s == Stopping || s == Stopped
  }

  /** The row shows what its newest supervisor gave it, or a mark. */
  predicate RowShows(row: Option<Proc>, sups: seq<Sup>, marked: bool) {
    row.Some? ==>
      if sups == [] then row.value.status == Stopped || (marked && MarkStatus(row.value.status))
      else TaskShows(row.value, sups[|sups| - 1].pc, marked)
  }

  predicate TaskShows(p: Proc, pc: SupPc, marked: bool) {
    (Shows(pc, p.status) || (marked && MarkStatus(p.status))) && ShowsExit(pc, p.exitCode)
  }

  ghost predicate StatusOk(st: Sys) {
    RowShows(st.row, st.sups, SomeMarker(st.ops))
  }

  lemma MarkerMoves(st: Sys, i: nat, now: int)
    requires StepOp(st, i, now).Some? && st.ops[i].kind != LaunchOp
    ensures i < |StepOp(st, i, now).value.ops| && Marker(StepOp(st, i, now).value.ops[i])
  {
  }

  lemma MarkerStays(st: Sys, step: Step)
    requires Next(st, step).Some? && SomeMarker(st.ops)
    ensures SomeMarker(Next(st, step).value.ops)
  {
    var st' := Next(st, step).value;
    var i :| 0 <= i < |st.ops| && Marker(st.ops[i]);
    match step {
      case SupStep(s, _) => SettlingChangesAcksOnly(st.ops, st.sups[s]);
      case OpStep(j, now) =>
        OpStepLeavesTasks(st, j, now);
        if j == i {
          MarkerMoves(st, j, now);
        }
      case _ =>
    }
    assert Marker(st'.ops[i]);
  }

  lemma CommandInHandHasMarker(ops: seq<Op>, u: Sup, s: nat)
    requires Mailbox(ops, u, s) && Hand(u.pc).Some?
    ensures SomeMarker(ops)
  {
    assert Marker(ops[Hand(u.pc).value.op]);
  }

  lemma ExecutionShows(p: Proc, u: Sup, now: int)
    requires (u.pc.Killed? || u.pc.BackoffCmd?) && u.pc.cmd.kind != LaunchOp && RowEffect(p, u, now).Some?
    requires ShowsExit(u.pc, p.exitCode)
    ensures TaskShows(RowEffect(p, u, now).value, Going(Some(p), u, now).value.pc, true)
  {
  }

  lemma EventShows(p: Proc, u: Sup, ev: SupEvent, marked: bool)
    requires SupAfter(Some(p), u, ev).Some? && !ev.Closed? && !ev.Go? && TaskShows(p, u.pc, marked)
    requires u.queue != [] ==> marked
    ensures TaskShows(p, SupAfter(Some(p), u, ev).value.pc, marked)
  {
  }

  lemma GoingShows(p: Proc, u: Sup, now: int, marked: bool)
    requires Going(Some(p), u, now).Some? && RowEffect(p, u, now).Some? && TaskShows(p, u.pc, marked)
    requires Hand(u.pc).Some? ==> marked && Hand(u.pc).value.kind != LaunchOp
    requires u.pc.CmdClear? ==> u.pc.cmd.kind == StopOp
    ensures TaskShows(RowEffect(p, u, now).value, Going(Some(p), u, now).value.pc, marked)
  {
    if u.pc.Killed? || u.pc.BackoffCmd? {
      ExecutionShows(p, u, now);
    }
  }

  lemma NewestShows(row: Option<Proc>, u: Sup, last: nat, ev: SupEvent, marked: bool)
    requires Coupled(row, u, last) && SupAfter(row, u, ev).Some? && RowAfter(row, u, ev).Some?
    requires ev.Closed? ==> row.None? || row.value.cmdTx != Some(last)
    requires row.Some? ==> TaskShows(row.value, u.pc, marked)
    requires (Hand(u.pc).Some? ==> marked && Hand(u.pc).value.kind != LaunchOp) && (u.queue != [] ==> marked)
    requires u.pc.CmdClear? ==> u.pc.cmd.kind == StopOp
    ensures TaskShows(RowAfter(row, u, ev).value, SupAfter(row, u, ev).value.pc, marked)
  {
    if ev.Go? {
      GoingShows(row.value, u, ev.now, marked);
    } else {
      EventShows(row.value, u, ev, marked);
    }
  }

  lemma QueueHasMarker(ops: seq<Op>, u: Sup, s: nat)
    requires Mailbox(ops, u, s) && u.queue != []
    ensures SomeMarker(ops)
  {
    assert Marker(ops[u.queue[0].op]);
  }

  lemma SupStepRowShows(row: Option<Proc>, sups: seq<Sup>, ops: seq<Op>, s: nat, ev: SupEvent)
    requires Ownership(row, sups) && s < |sups| && Mailbox(ops, sups[s], s) && SupAfter(row, sups[s], ev).Some?
    requires ev.Closed? ==> row.None? || row.value.cmdTx != Some(s)
    requires RowShows(row, sups, SomeMarker(ops))
    ensures RowShows(RowAfter(row, sups[s], ev), sups[s := SupAfter(row, sups[s], ev).value], SomeMarker(ops))
  {
    if RowAfter(row, sups[s], ev).Some? {
      if s == |sups| - 1 {
        if Hand(sups[s].pc).Some? {
          CommandInHandHasMarker(ops, sups[s], s);
        }
        if sups[s].queue != [] {
          QueueHasMarker(ops, sups[s], s);
        }
        NewestShows(row, sups[s], s, ev, SomeMarker(ops));
      } else {
        OlderStaysRetired(row, sups[s], ev);
      }
    }
  }

  lemma SupStepShows(st: Sys, s: nat, ev: SupEvent)
    requires Inv(st) && StatusOk(st) && StepSup(st, s, ev).Some?
    ensures StatusOk(StepSup(st, s, ev).value)
  {
    assert Mailbox(st.ops, st.sups[s], s);
    SupStepRowShows(st.row, st.sups, st.ops, s, ev);
    MoreMarked(RowAfter(st.row, st.sups[s], ev), st.sups[s := SupAfter(st.row, st.sups[s], ev).value], st, SupStep(s, ev));
  }

  lemma MoreMarked(row: Option<Proc>, sups: seq<Sup>, st: Sys, step: Step)
    requires Next(st, step).Some? && RowShows(row, sups, SomeMarker(st.ops))
    ensures RowShows(row, sups, SomeMarker(Next(st, step).value.ops))
  {
    if SomeMarker(st.ops) {
      MarkerStays(st, step);
    }
  }

  /** What an operation's section does to a row that stays: it leaves status and exit code, or marks the row;
      a launch claims it. */
  lemma OpStepMarks(st: Sys, i: nat, now: int)
    requires StepOp(st, i, now).Some? && st.row.Some? && StepOp(st, i, now).value.row.Some?
    requires OpOk(st.row, st.sups, st.ops[i], i)
    ensures var st' := StepOp(st, i, now).value; var p, q := st.row.value, st'.row.value;
      && q.exitCode == p.exitCode
      && (|st'.sups| == |st.sups| ==> q.status == p.status || (st.ops[i].kind != LaunchOp && MarkStatus(q.status)))
      && (|st'.sups| > |st.sups| ==> q.status == Launching)
  {
  }

  lemma OpStepShows(st: Sys, i: nat, now: int)
    requires Inv(st) && StatusOk(st) && StepOp(st, i, now).Some?
    ensures StatusOk(StepOp(st, i, now).value)
  {
    var st' := StepOp(st, i, now).value;
    assert OpOk(st.row, st.sups, st.ops[i], i);
    OpStepLeavesTasks(st, i, now);
    MoreMarked(st.row, st.sups, st, OpStep(i, now));
    if st'.row.Some? {
      OpStepMarks(st, i, now);
      if st.ops[i].kind != LaunchOp {
        MarkerMoves(st, i, now);
      }
      OpMoveShows(st.row.value, st'.row.value, st.sups, st'.sups, SomeMarker(st'.ops), st.ops[i].kind != LaunchOp);
    }
  }

  lemma OpMoveShows(p: Proc, q: Proc, sups: seq<Sup>, sups': seq<Sup>, marked: bool, marks: bool)
    requires RowShows(Some(p), sups, marked) && q.exitCode == p.exitCode && (marks ==> marked)
    requires |sups'| == |sups| ==> q.status == p.status || (marks && MarkStatus(q.status))
    requires |sups'| > |sups| ==> q.status == Launching && sups'[|sups'| - 1].pc.Head?
    requires |sups| <= |sups'| && forall s :: 0 <= s < |sups| ==> sups'[s].pc == sups[s].pc
    ensures RowShows(Some(q), sups', marked)
  {
  }

  lemma NextShows(st: Sys, step: Step)
    requires Inv(st) && StatusOk(st) && Next(st, step).Some?
    ensures StatusOk(Next(st, step).value)
  {
    match step
    case SupStep(s, ev) => SupStepShows(st, s, ev);
    case OpStep(i, now) => OpStepShows(st, i, now);
    case _ => MoreMarked(st.row, st.sups, st, step);
  }

  lemma {:induction false} RunShows(st: Sys, steps: seq<Step>)
    requires Inv(st) && StatusOk(st) && Run(st, steps).Some?
    ensures StatusOk(Run(st, steps).value)
    decreases |steps|
  {
    if steps != [] {
      NextShows(st, steps[0]);
      NextKeepsInv(st, steps[0]);
      RunShows(Next(st, steps[0]).value, steps[1..]);
    }
  }

  lemma ReachableShows(st: Sys)
    requires Reachable(st)
    ensures StatusOk(st)
  {
    var config, pmId: nat, instance: nat, now: int, steps :|
      Run(Init(config, pmId, instance, now), steps) == Some(st);
    InitInv(config, pmId, instance, now);
    RunShows(Init(config, pmId, instance, now), steps);
  }

  /** In every reachable state a supervised row shows where its supervisor stands: launching, online, waiting,
      stopped, errored, and the exit code of the life it speaks of. Only a stop, delete or restart that has
      begun can make it show Stopping or Stopped instead. */
  lemma StatusShowsPosition(st: Sys, s: nat)
    requires Reachable(st) && st.row.Some? && st.row.value.cmdTx == Some(s)
    ensures s < |st.sups| && ShowsExit(st.sups[s].pc, st.row.value.exitCode)
    ensures Shows(st.sups[s].pc, st.row.value.status) || (SomeMarker(st.ops) && MarkStatus(st.row.value.status))
  {
    ReachableShows(st);
    ReachableInv(st);
    ChannelIsNewest(st.row, st.sups);
  }

  // ----- what a stop leaves

  /** A stop that was acknowledged was executed: if its supervisor is still the newest, the row does not show
      Errored. */
  predicate StopAckOk(row: Option<Proc>, sups: seq<Sup>, o: Op) {
    o.kind == StopOp ==>
      && (o.pc.Start? || o.pc.Send? ==> o.ack.Pending?)
      && (o.ack.Acked? ==>
            && o.tx.Some? && o.tx.value < |sups| && PastClear(sups[o.tx.value].pc)
            && (row.Some? && o.tx.value == |sups| - 1 ==> row.value.status != Errored))
  }

  ghost predicate StopsOk(st: Sys) {
    forall i :: 0 <= i < |st.ops| ==> StopAckOk(st.row, st.sups, st.ops[i])
  }

  lemma RetiredKeepsRow(row: Option<Proc>, u: Sup, ev: SupEvent)
    requires PastClear(u.pc)
    ensures RowAfter(row, u, ev) == row
  {
  }

  /** An old acknowledgement stays good. */
  lemma StopAckKept(row: Option<Proc>, sups: seq<Sup>, s: nat, ev: SupEvent, o: Op)
    requires Ownership(row, sups) && s < |sups| && SupAfter(row, sups[s], ev).Some? && StopAckOk(row, sups, o)
    ensures StopAckOk(RowAfter(row, sups[s], ev), sups[s := SupAfter(row, sups[s], ev).value], o)
  {
    StepAdvances(row, sups[s], ev);
    if PastClear(sups[s].pc) {
      RetiredKeepsRow(row, sups[s], ev);
    }
  }

  /** A new one is that of the stop the task has in hand. */
  lemma StopAckSent(row: Option<Proc>, sups: seq<Sup>, ops: seq<Op>, s: nat, ev: SupEvent, i: nat)
    requires s < |sups| && i < |ops| && Mailbox(ops, sups[s], s) && OpOk(row, sups, ops[i], i)
    requires RowShows(row, sups, SomeMarker(ops)) && SupAfter(row, sups[s], ev).Some?
    requires |SettleAcks(ops, sups[s])| == |ops| && ops[i].kind == StopOp
    requires ops[i].ack.Pending? && SettleAcks(ops, sups[s])[i].ack.Acked?
    ensures StopAckOk(RowAfter(row, sups[s], ev), sups[s := SupAfter(row, sups[s], ev).value], SettleAcks(ops, sups[s])[i])
  {
    assert sups[s].pc == CmdAck(Cmd(StopOp, i));
    assert ops[i].pc == Wait(s) && ops[i].tx == Some(s);
  }

  lemma SupStepKeepsStops(st: Sys, s: nat, ev: SupEvent)
    requires Inv(st) && StatusOk(st) && StopsOk(st) && StepSup(st, s, ev).Some?
    ensures StopsOk(StepSup(st, s, ev).value)
  {
    var st' := StepSup(st, s, ev).value;
    assert Mailbox(st.ops, st.sups[s], s);
    SettlingTouchesOwnWaiters(st.ops, st.sups[s], s);
    forall i | 0 <= i < |st'.ops| ensures StopAckOk(st'.row, st'.sups, st'.ops[i]) {
      StopKeptBySupStep(st, s, ev, i);
    }
  }

  lemma StopKeptBySupStep(st: Sys, s: nat, ev: SupEvent, i: nat)
    requires Inv(st) && StatusOk(st) && StepSup(st, s, ev).Some? && i < |st.ops| && StopAckOk(st.row, st.sups, st.ops[i])
    ensures |SettleAcks(st.ops, st.sups[s])| == |st.ops|
    ensures StopAckOk(RowAfter(st.row, st.sups[s], ev), st.sups[s := SupAfter(st.row, st.sups[s], ev).value],
                      SettleAcks(st.ops, st.sups[s])[i])
  {
    assert Mailbox(st.ops, st.sups[s], s);
    assert OpOk(st.row, st.sups, st.ops[i], i);
    SettlingTouchesOwnWaiters(st.ops, st.sups[s], s);
    if SettleAcks(st.ops, st.sups[s])[i] == st.ops[i] {
      StopAckKept(st.row, st.sups, s, ev, st.ops[i]);
    } else if st.ops[i].kind == StopOp && SettleAcks(st.ops, st.sups[s])[i].ack.Acked? {
      StopAckSent(st.row, st.sups, st.ops, s, ev, i);
    }
  }

  lemma OpsNeverShowErrored(st: Sys, i: nat, now: int)
    requires StepOp(st, i, now).Some? && StepOp(st, i, now).value.row.Some?
    ensures st.row.Some?
    ensures StepOp(st, i, now).value.row.value.status == Errored ==> st.row.value.status == Errored
  {
  }

  lemma OtherStopKept(row: Option<Proc>, row': Option<Proc>, sups: seq<Sup>, sups': seq<Sup>, o: Op)
    requires StopAckOk(row, sups, o) && |sups| <= |sups'|
    requires forall s :: 0 <= s < |sups| ==> sups'[s].pc == sups[s].pc
    requires row'.Some? ==> row.Some? && (row'.value.status == Errored ==> row.value.status == Errored)
    ensures StopAckOk(row', sups', o)
  {
  }

  lemma OwnStopMoves(st: Sys, i: nat, now: int)
    requires StepOp(st, i, now).Some? && st.ops[i].kind == StopOp && OpOk(st.row, st.sups, st.ops[i], i)
    requires StopAckOk(st.row, st.sups, st.ops[i])
    ensures var o, o' := st.ops[i], StepOp(st, i, now).value.ops[i];
      && (o'.ack.Acked? ==> o.ack.Acked? && o'.tx == o.tx)
      && (o'.pc.Start? || o'.pc.Send? ==> o'.ack.Pending?)
  {
  }

  lemma OpStepKeepsStops(st: Sys, i: nat, now: int)
    requires Inv(st) && StopsOk(st) && StepOp(st, i, now).Some?
    ensures StopsOk(StepOp(st, i, now).value)
  {
    var st' := StepOp(st, i, now).value;
    OpStepLeavesTasks(st, i, now);
    if st'.row.Some? {
      OpsNeverShowErrored(st, i, now);
    }
    forall j | 0 <= j < |st'.ops| ensures StopAckOk(st'.row, st'.sups, st'.ops[j]) {
      assert StopAckOk(st.row, st.sups, st.ops[j]);
      OtherStopKept(st.row, st'.row, st.sups, st'.sups, st.ops[j]);
      if j == i && st.ops[i].kind == StopOp {
        assert OpOk(st.row, st.sups, st.ops[i], i);
        OwnStopMoves(st, i, now);
      }
    }
  }

  lemma NextKeepsStops(st: Sys, step: Step)
    requires Inv(st) && StatusOk(st) && StopsOk(st) && Next(st, step).Some?
    ensures StopsOk(Next(st, step).value)
  {
    match step
    case SupStep(s, ev) => SupStepKeepsStops(st, s, ev);
    case OpStep(i, now) => OpStepKeepsStops(st, i, now);
    case _ => CounterStepKeepsStops(st, step);
  }

  lemma CounterStepKeepsStops(st: Sys, step: Step)
    requires StopsOk(st) && Next(st, step).Some? && !step.SupStep? && !step.OpStep?
    ensures StopsOk(Next(st, step).value)
  {
    var st' := Next(st, step).value;
    forall i | 0 <= i < |st'.ops| ensures StopAckOk(st'.row, st'.sups, st'.ops[i]) {
      if i < |st.ops| {
        assert StopAckOk(st.row, st.sups, st.ops[i]);
      }
    }
  }

  lemma {:induction false} RunKeepsStops(st: Sys, steps: seq<Step>)
    requires Inv(st) && StatusOk(st) && StopsOk(st) && Run(st, steps).Some?
    ensures StopsOk(Run(st, steps).value)
    decreases |steps|
  {
    if steps != [] {
      NextKeepsStops(st, steps[0]);
      NextShows(st, steps[0]);
      NextKeepsInv(st, steps[0]);
      RunKeepsStops(Next(st, steps[0]).value, steps[1..]);
    }
  }

  lemma AckedStopHasAddressee(st: Sys, i: nat)
    requires Reachable(st) && i < |st.ops| && st.ops[i].kind == StopOp && st.ops[i].ack.Acked?
    ensures st.ops[i].tx.Some?
  {
    var config, pmId: nat, instance: nat, now: int, steps :|
      Run(Init(config, pmId, instance, now), steps) == Some(st);
    InitInv(config, pmId, instance, now);
    RunKeepsStops(Init(config, pmId, instance, now), steps);
    assert StopAckOk(st.row, st.sups, st.ops[i]);
  }

  /** A stop whose command was acknowledged has been executed: while no newer supervisor was started, the row
      it addressed does not show Errored, whatever else happened. */
  lemma AcknowledgedStopIsNotErrored(st: Sys, i: nat)
    requires Reachable(st) && st.row.Some? && i < |st.ops|
    requires st.ops[i].kind == StopOp && st.ops[i].ack.Acked? && st.ops[i].tx == Some(|st.sups| - 1)
    ensures st.row.value.status != Errored && PastClear(st.sups[|st.sups| - 1].pc)
  {
    var config, pmId: nat, instance: nat, now: int, steps :|
      Run(Init(config, pmId, instance, now), steps) == Some(st);
    InitInv(config, pmId, instance, now);
    RunKeepsStops(Init(config, pmId, instance, now), steps);
    assert StopAckOk(st.row, st.sups, st.ops[i]);
  }

  // ----- right after a stop was executed

  /** Another operation than `i` is marking the row. */
  ghost predicate OtherMarking(ops: seq<Op>, i: nat) {
    exists j :: 0 <= j < |ops| && j != i && Marking(ops[j])
  }

  /** While a stop's command clears the channel, the row shows Stopped, or another operation's Stopping. */
  ghost predicate Clearing(row: Option<Proc>, sups: seq<Sup>, ops: seq<Op>) {
    row.Some? && |sups| > 0 && sups[|sups| - 1].pc.CmdClear? ==>
      || row.value.status == Stopped
      || (row.value.status == Stopping && OtherMarking(ops, sups[|sups| - 1].pc.cmd.op))
  }

  lemma SameMarkings(ops: seq<Op>, ops': seq<Op>, i: nat)
    requires SameButAcks(ops, ops') && OtherMarking(ops, i)
    ensures OtherMarking(ops', i)
  {
    var j :| 0 <= j < |ops| && j != i && Marking(ops[j]);
    assert Marking(ops'[j]);
  }

  lemma OlderStepClearing(row: Option<Proc>, sups: seq<Sup>, ops: seq<Op>, s: nat, ev: SupEvent)
    requires Clearing(row, sups, ops) && s < |sups| - 1 && Retired(row, sups[s]) && SupAfter(row, sups[s], ev).Some?
    ensures Clearing(RowAfter(row, sups[s], ev), sups[s := SupAfter(row, sups[s], ev).value], SettleAcks(ops, sups[s]))
  {
    OlderStaysRetired(row, sups[s], ev);
    SettlingChangesAcksOnly(ops, sups[s]);
    var c := sups[|sups| - 1].pc;
    if row.Some? && c.CmdClear? && row.value.status == Stopping {
      SameMarkings(ops, SettleAcks(ops, sups[s]), c.cmd.op);
    }
  }

  lemma SupStepClearing(st: Sys, s: nat, ev: SupEvent)
    requires Inv(st) && Clearing(st.row, st.sups, st.ops) && StepSup(st, s, ev).Some?
    ensures var st' := StepSup(st, s, ev).value; Clearing(st'.row, st'.sups, st'.ops)
  {
    if s < |st.sups| - 1 {
      OlderStepClearing(st.row, st.sups, st.ops, s, ev);
    } else if SupAfter(st.row, st.sups[s], ev).value.pc.CmdClear? && RowAfter(st.row, st.sups[s], ev).Some? {
      EnteringClear(st.row, st.sups[s], ev);
    }
  }

  lemma EnteringClear(row: Option<Proc>, u: Sup, ev: SupEvent)
    requires SupAfter(row, u, ev).Some? && SupAfter(row, u, ev).value.pc.CmdClear? && RowAfter(row, u, ev).Some?
    ensures RowAfter(row, u, ev).value.status == Stopped
  {
  }

  lemma MarkingMoves(st: Sys, i: nat, now: int)
    requires StepOp(st, i, now).Some? && OpOk(st.row, st.sups, st.ops[i], i)
    requires StepOp(st, i, now).value.row.Some? && StepOp(st, i, now).value.row.value.status == Stopping
    ensures Marking(st.ops[i]) ==> Marking(StepOp(st, i, now).value.ops[i])
    ensures st.row.value.status != Stopping ==> st.row.value.status == Online || Marking(StepOp(st, i, now).value.ops[i])
  {
  }

  lemma OpStepClearing(st: Sys, i: nat, now: int)
    requires Inv(st) && Clearing(st.row, st.sups, st.ops) && StepOp(st, i, now).Some?
    ensures var st' := StepOp(st, i, now).value; Clearing(st'.row, st'.sups, st'.ops)
  {
    var st', last := StepOp(st, i, now).value, |st.sups| - 1;
    OpStepLeavesTasks(st, i, now);
    assert OpOk(st.row, st.sups, st.ops[i], i);
    if st'.row.Some? && |st'.sups| > 0 && st'.sups[|st'.sups| - 1].pc.CmdClear? {
      assert |st'.sups| == |st.sups|;
      assert Mailbox(st.ops, st.sups[last], last);
      OpStepMarks(st, i, now);
      if st'.row.value.status == Stopping {
        MarkingMoves(st, i, now);
        var c := st.sups[last].pc.cmd;
        if st.row.value.status == Stopping {
          var j :| 0 <= j < |st.ops| && j != c.op && Marking(st.ops[j]);
          assert Marking(st'.ops[j]);
        } else {
          assert i != c.op;
          assert Marking(st'.ops[i]);
        }
      }
    }
  }

  lemma NextKeepsClearing(st: Sys, step: Step)
    requires Inv(st) && Clearing(st.row, st.sups, st.ops) && Next(st, step).Some?
    ensures var st' := Next(st, step).value; Clearing(st'.row, st'.sups, st'.ops)
  {
    match step
    case SupStep(s, ev) => SupStepClearing(st, s, ev);
    case OpStep(i, now) => OpStepClearing(st, i, now);
    case Begin(kind) =>
      var st' := Next(st, step).value;
      if st.row.Some? && |st.sups| > 0 && st.sups[|st.sups| - 1].pc.CmdClear? && st.row.value.status == Stopping {
        var j :| 0 <= j < |st.ops| && j != st.sups[|st.sups| - 1].pc.cmd.op && Marking(st.ops[j]);
        assert Marking(st'.ops[j]);
      }
    case _ =>
  }

  lemma {:induction false} RunKeepsClearing(st: Sys, steps: seq<Step>)
    requires Inv(st) && Clearing(st.row, st.sups, st.ops) && Run(st, steps).Some?
    ensures var end := Run(st, steps).value; Clearing(end.row, end.sups, end.ops)
    decreases |steps|
  {
    if steps != [] {
      NextKeepsClearing(st, steps[0]);
      NextKeepsInv(st, steps[0]);
      RunKeepsClearing(Next(st, steps[0]).value, steps[1..]);
    }
  }

  /** In every reachable state, a surviving row whose supervisor has executed a stop and is clearing its
      channel has pid 0 and shows Stopped, or Stopping by the mark of another stop or delete still at work. */
  lemma ExecutedStopShowsStopped(st: Sys, s: nat)
    requires Reachable(st) && st.row.Some? && s < |st.sups| && st.sups[s].pc.CmdClear?
    ensures st.sups[s].pc.cmd.kind == StopOp && st.row.value.pid == 0
    ensures st.row.value.status == Stopped ||
            (st.row.value.status == Stopping && OtherMarking(st.ops, st.sups[s].pc.cmd.op))
  {
    ReachableInv(st);
    assert Mailbox(st.ops, st.sups[s], s);
    assert s == |st.sups| - 1;
    var config, pmId: nat, instance: nat, now: int, steps :|
      Run(Init(config, pmId, instance, now), steps) == Some(st);
    InitInv(config, pmId, instance, now);
    RunKeepsClearing(Init(config, pmId, instance, now), steps);
  }
}
