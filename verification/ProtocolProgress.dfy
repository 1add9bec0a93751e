/** The protocol cannot wedge: whatever has happened, the bounded channels and the acknowledgements leave every
    operation a way to return. No scheduler is assumed fair; the claim is that some run gets there. */
module ProtocolProgress {
  import opened Domain
  import opened Protocol
  import opened ProtocolInvariant
  import opened ProtocolSteps
  import opened ProtocolRuns
  import opened ProtocolTheorems

  // ----- a supervisor can always end

  /** The most steps a supervisor takes to its end when its spawns fail and its children exit. */
  function Left(pc: SupPc): nat {
    match pc
    case Done => 0
    case Ending => 1
    case CmdAck(c) => if c.kind == RestartOp then 7 else 2
    case CmdClear(c) => if c.kind == RestartOp then 8 else 3
    case FailClear => 2
    case ExitClear => 2
    case OverClear => 2
    case FailAck => 3
    case ExitDead(_) => 3
    case OverMark => 3
    case FailDead => 4
    case Spawning => 5
    case Head => 6
    case Backoff(_) => 7
    case Scheduling(_, _, _, _) => 8
    case BackoffCmd(_, _) => 9
    case Killed(_) => 9
    case Deciding(_) => 9
    case Reaped(_) => 10
    case Killing(_) => 10
    case Running => 11
    case KillMark(_) => 11
    case FirstAck => 12
    case Spawned => 13
  }

  function Onward(pc: SupPc): SupEvent {
    match pc
    case Spawning => SpawnErr
    case Running => Exit(None)
    case Killing(_) => Exit(None)
    case Backoff(_) => Timer
    case _ => Go(0)
  }

  lemma OnwardStep(row: Option<Proc>, u: Sup)
    requires !u.pc.Done?
    ensures SupAfter(row, u, Onward(u.pc)).Some?
    ensures Left(SupAfter(row, u, Onward(u.pc)).value.pc) < Left(u.pc)
  {
  }

  /** From any state a supervisor can run to its end, in a run that moves no operation. */
  lemma {:induction false} TaskCanEnd(st: Sys, s: nat) returns (steps: seq<Step>)
    requires Inv(st) && s < |st.sups|
    ensures Run(st, steps).Some? && Inv(Run(st, steps).value)
    ensures |Run(st, steps).value.sups| == |st.sups| && Run(st, steps).value.sups[s].pc.Done?
    ensures SameButAcks(st.ops, Run(st, steps).value.ops)
    ensures forall t :: 0 <= t < |st.sups| && t != s ==> Run(st, steps).value.sups[t] == st.sups[t]
    decreases Left(st.sups[s].pc)
  {
    if st.sups[s].pc.Done? {
      return [];
    }
    var step := SupStep(s, Onward(st.sups[s].pc));
    OnwardStep(st.row, st.sups[s]);
    var st' := Next(st, step).value;
    SettlingChangesAcksOnly(st.ops, st.sups[s]);
    NextKeepsInv(st, step);
    var rest := TaskCanEnd(st', s);
    RunCons(st, step, rest);
    steps := [step] + rest;
  }

  // ----- and then no operation is kept waiting

  ghost predicate ReturnsBy(st: Sys, steps: seq<Step>, i: nat) {
    && Run(st, steps).Some? && |Run(st, steps).value.ops| == |st.ops|
    && i < |st.ops| && Run(st, steps).value.ops[i].pc.Returned?
  }

  ghost predicate CanReturn(st: Sys, i: nat) {
    exists steps :: ReturnsBy(st, steps, i)
  }

  lemma CanReturnAfter(st: Sys, steps: seq<Step>, i: nat)
    requires Run(st, steps).Some? && |Run(st, steps).value.ops| == |st.ops| && CanReturn(Run(st, steps).value, i)
    ensures CanReturn(st, i)
  {
    var rest :| ReturnsBy(Run(st, steps).value, rest, i);
    RunConcat(st, steps, rest);
    assert ReturnsBy(st, steps + rest, i);
  }

  lemma CanReturnNext(st: Sys, step: Step, i: nat)
    requires Next(st, step).Some? && |Next(st, step).value.ops| == |st.ops| && CanReturn(Next(st, step).value, i)
    ensures CanReturn(st, i)
  {
    var rest :| ReturnsBy(Next(st, step).value, rest, i);
    RunCons(st, step, rest);
    assert ReturnsBy(st, [step] + rest, i);
  }

  lemma FromLast(st: Sys, i: nat)
    requires i < |st.ops|
    requires st.ops[i].pc.Returned? || st.ops[i].pc.Normalise? || st.ops[i].pc.Remove?
    ensures CanReturn(st, i)
  {
    if st.ops[i].pc.Returned? {
      assert ReturnsBy(st, [], i);
    } else {
      var step := OpStep(i, 0);
      assert ReturnsBy(Next(st, step).value, [], i);
      CanReturnNext(st, step, i);
    }
  }

  /** A finished supervisor owes no answer. */
  lemma NoAnswerPending(st: Sys, i: nat, s: nat)
    requires Inv(st) && i < |st.ops| && s < |st.sups| && st.sups[s].pc.Done?
    requires st.ops[i].pc == Wait(s) || st.ops[i].pc == LaunchWait(s)
    ensures !st.ops[i].ack.Pending?
  {
    assert OpOk(st.row, st.sups, st.ops[i], i);
    assert Mailbox(st.ops, st.sups[s], s);
  }

  lemma FromLaunchWait(st: Sys, i: nat, s: nat)
    requires Inv(st) && i < |st.ops| && st.ops[i].pc == LaunchWait(s)
    ensures CanReturn(st, i)
  {
    assert OpOk(st.row, st.sups, st.ops[i], i);
    var steps := TaskCanEnd(st, s);
    var end := Run(st, steps).value;
    NoAnswerPending(end, i, s);
    FromLast(Next(end, OpStep(i, 0)).value, i);
    CanReturnNext(end, OpStep(i, 0), i);
    CanReturnAfter(st, steps, i);
  }

  lemma FromLaunch(st: Sys, i: nat)
    requires Inv(st) && i < |st.ops| && (st.ops[i].pc.LaunchCheck? || st.ops[i].pc.LaunchSpawn?)
    ensures CanReturn(st, i)
    decreases st.ops[i].pc.LaunchCheck?
  {
    var step := OpStep(i, 0);
    var st' := Next(st, step).value;
    NextKeepsInv(st, step);
    match st'.ops[i].pc {
      case LaunchSpawn => FromLaunch(st', i);
      case LaunchWait(s) => FromLaunchWait(st', i, s);
      case _ => FromLast(st', i);
    }
    CanReturnNext(st, step, i);
  }

  /** Operations past their supervisor, or that never had one. */
  lemma FromBereft(st: Sys, i: nat)
    requires Inv(st) && i < |st.ops|
    requires var pc := st.ops[i].pc;
      pc.Returned? || pc.Normalise? || pc.Remove? || pc.Cold? || pc.LaunchCheck? || pc.LaunchSpawn?
    ensures CanReturn(st, i)
  {
    match st.ops[i].pc
    case Cold =>
      NextKeepsInv(st, OpStep(i, 0));
      FromLaunch(Next(st, OpStep(i, 0)).value, i);
      CanReturnNext(st, OpStep(i, 0), i);
    case LaunchCheck => FromLaunch(st, i);
    case LaunchSpawn => FromLaunch(st, i);
    case _ => FromLast(st, i);
  }

  /** With its supervisor done the send fails, or the answer is there. */
  lemma FromFinished(st: Sys, i: nat, s: nat)
    requires Inv(st) && i < |st.ops| && (st.ops[i].pc == Send(s) || st.ops[i].pc == Wait(s))
    requires s < |st.sups| && st.sups[s].pc.Done?
    ensures CanReturn(st, i)
  {
    var step := OpStep(i, 0);
    if st.ops[i].pc.Wait? {
      NoAnswerPending(st, i, s);
    }
    NextKeepsInv(st, step);
    FromBereft(Next(st, step).value, i);
    CanReturnNext(st, step, i);
  }

  lemma FromSupervised(st: Sys, i: nat, s: nat)
    requires Inv(st) && i < |st.ops| && (st.ops[i].pc == Send(s) || st.ops[i].pc == Wait(s))
    ensures CanReturn(st, i)
  {
    assert OpOk(st.row, st.sups, st.ops[i], i);
    var steps := TaskCanEnd(st, s);
    FromFinished(Run(st, steps).value, i, s);
    CanReturnAfter(st, steps, i);
  }

  lemma FromMark(st: Sys, i: nat)
    requires Inv(st) && i < |st.ops| && st.ops[i].pc.Mark?
    ensures CanReturn(st, i)
  {
    NextKeepsInv(st, OpStep(i, 0));
    FromSupervised(Next(st, OpStep(i, 0)).value, i, st.ops[i].pc.sup);
    CanReturnNext(st, OpStep(i, 0), i);
  }

  lemma FromStart(st: Sys, i: nat)
    requires Inv(st) && i < |st.ops| && st.ops[i].pc.Start?
    ensures CanReturn(st, i)
  {
    var step := OpStep(i, 0);
    var st' := Next(st, step).value;
    NextKeepsInv(st, step);
    match st'.ops[i].pc {
      case Send(s) => FromSupervised(st', i, s);
      case Mark(_) => FromMark(st', i);
      case _ => FromBereft(st', i);
    }
    CanReturnNext(st, step, i);
  }

  /** In every reachable state every operation, however it waits, has a run in which it returns. */
  lemma EveryOperationCanReturn(st: Sys, i: nat)
    requires Reachable(st) && i < |st.ops|
    ensures CanReturn(st, i)
  {
    ReachableInv(st);
    match st.ops[i].pc
    case Start => FromStart(st, i);
    case Mark(_) => FromMark(st, i);
    case Send(s) => FromSupervised(st, i, s);
    case Wait(s) => FromSupervised(st, i, s);
    case LaunchWait(s) => FromLaunchWait(st, i, s);
    case _ => FromBereft(st, i);
  }

  // ----- every state can be wound down

  /** The first `n` operations have returned. */
  predicate AllReturned(st: Sys, n: nat) {
    n <= |st.ops| && forall i :: 0 <= i < n ==> st.ops[i].pc.Returned?
  }

  lemma ReturnedStays(st: Sys, step: Step, n: nat)
    requires Next(st, step).Some? && AllReturned(st, n)
    ensures AllReturned(Next(st, step).value, n)
  {
    match step
    case SupStep(s, _) => SettlingChangesAcksOnly(st.ops, st.sups[s]);
    case OpStep(j, now) => OpStepLeavesTasks(st, j, now);
    case _ =>
  }

  lemma {:induction false} ReturnedStaysInRun(st: Sys, steps: seq<Step>, n: nat)
    requires Run(st, steps).Some? && AllReturned(st, n)
    ensures AllReturned(Run(st, steps).value, n)
    decreases |steps|
  {
    if steps != [] {
      ReturnedStays(st, steps[0], n);
      ReturnedStaysInRun(Next(st, steps[0]).value, steps[1..], n);
    }
  }

  lemma {:induction false} OperationsCanReturn(st: Sys, n: nat) returns (steps: seq<Step>)
    requires Reachable(st) && n <= |st.ops|
    ensures Run(st, steps).Some? && Reachable(Run(st, steps).value)
    ensures |Run(st, steps).value.ops| == |st.ops|
    ensures AllReturned(Run(st, steps).value, n)
    decreases n
  {
    if n == 0 {
      steps := [];
    } else {
      var first := OperationsCanReturn(st, n - 1);
      var mid := Run(st, first).value;
      EveryOperationCanReturn(mid, n - 1);
      var rest :| ReturnsBy(mid, rest, n - 1);
      ReturnedStaysInRun(mid, rest, n - 1);
      RunConcat(st, first, rest);
      ReachableRun(mid, rest);
      steps := first + rest;
    }
  }

  lemma {:induction false} TasksCanEnd(st: Sys, n: nat) returns (steps: seq<Step>)
    requires Reachable(st) && n <= |st.sups|
    ensures Run(st, steps).Some? && Reachable(Run(st, steps).value)
    ensures |Run(st, steps).value.sups| == |st.sups| && SameButAcks(st.ops, Run(st, steps).value.ops)
    ensures forall s :: 0 <= s < n ==> Run(st, steps).value.sups[s].pc.Done?
    decreases n
  {
    if n == 0 {
      steps := [];
    } else {
      var first := TasksCanEnd(st, n - 1);
      var mid := Run(st, first).value;
      ReachableInv(mid);
      var rest := TaskCanEnd(mid, n - 1);
      RunConcat(st, first, rest);
      ReachableRun(mid, rest);
      steps := first + rest;
    }
  }

  /** From every reachable state some run lets every operation at hand return and every supervisor end; what
      is left of the row is then down. */
  lemma EveryStateCanBeWoundDown(st: Sys) returns (steps: seq<Step>)
    requires Reachable(st)
    ensures Run(st, steps).Some?
    ensures var end := Run(st, steps).value;
      && |end.ops| == |st.ops|
      && (forall i :: 0 <= i < |end.ops| ==> end.ops[i].pc.Returned?)
      && (forall s :: 0 <= s < |end.sups| ==> end.sups[s].pc.Done?)
      && (end.row.Some? ==> end.row.value.status in {Stopped, Errored} && end.row.value.pid == 0)
  {
    var first := OperationsCanReturn(st, |st.ops|);
    var mid := Run(st, first).value;
    var rest := TasksCanEnd(mid, |mid.sups|);
    RunConcat(st, first, rest);
    steps := first + rest;
    var end := Run(mid, rest).value;
    if end.row.Some? {
      QuiescentRowIsDown(end);
    }
  }

  // ----- removal ends the task

  /** Removing the row closes the channel: once no operation holds it either and it is empty, a supervisor that
      waits for its child or out a backoff can end, and its child is dropped. While the row holds the
      channel it cannot end so. */
  lemma ClosedChannelEndsTask(st: Sys, s: nat)
    requires s < |st.sups| && (st.sups[s].pc.Running? || st.sups[s].pc.Backoff?)
    ensures Next(st, SupStep(s, Closed)).Some? <==>
      && st.sups[s].queue == []
      && (st.row.Some? ==> st.row.value.cmdTx != Some(s))
      && forall i :: 0 <= i < |st.ops| ==> st.ops[i].tx != Some(s) || st.ops[i].pc.Returned?
    ensures Next(st, SupStep(s, Closed)).Some? ==>
      var closed := Next(st, SupStep(s, Closed)).value;
      && closed.row == st.row && Next(closed, SupStep(s, Go(0))).Some?
      && Next(closed, SupStep(s, Go(0))).value.row == st.row
      && Next(closed, SupStep(s, Go(0))).value.sups[s].pc.Done?
      && Next(closed, SupStep(s, Go(0))).value.sups[s].child.None?
  {
    assert forall i :: 0 <= i < |st.ops| ==>
      (HoldsChannel(st.ops[i], s) <==> st.ops[i].tx == Some(s) && !st.ops[i].pc.Returned?);
  }
}
