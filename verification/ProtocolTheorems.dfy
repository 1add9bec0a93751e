/** What the race protocol guarantees over all of its runs. */
module ProtocolTheorems {
  import opened Domain
  import opened Protocol
  import opened ProtocolInvariant
  import opened ProtocolSteps
  import opened ProtocolStatus

  // ----- one supervisor, one child

  /** The supervisor has neither cleared the row's channel nor begun to return. */
  predicate Active(st: Sys, s: nat) {
    s < |st.sups| && !PastClear(st.sups[s].pc)
  }

  predicate HasChild(st: Sys, s: nat) {
    s < |st.sups| && st.sups[s].child.Some?
  }

  /** At most one supervisor is active, at most one child is un-reaped, and a row's channel is that
      of the active supervisor. */
  lemma OneSupervisorOneChild(st: Sys)
    requires Reachable(st)
    ensures forall s: nat, t: nat :: Active(st, s) && Active(st, t) ==> s == t
    ensures forall s: nat, t: nat :: HasChild(st, s) && HasChild(st, t) ==> s == t
    ensures st.row.Some? ==> forall s: nat :: st.row.value.cmdTx == Some(s) <==> Active(st, s)
    ensures st.row.Some? ==> forall s: nat :: HasChild(st, s) ==> st.row.value.cmdTx == Some(s)
  {
    ReachableInv(st);
    if st.row.Some? {
      ChannelIsNewest(st.row, st.sups);
    }
  }

  lemma ChildAppearsBySpawn(row: Option<Proc>, u: Sup, ev: SupEvent)
    requires SupAfter(row, u, ev).Some? && u.child.None? && SupAfter(row, u, ev).value.child.Some?
    ensures ev.SpawnOk? && u.pc.Spawning?
  {
  }

  /** A child is spawned only when every earlier child has been reaped. */
  lemma SpawnOnlyAfterReap(st: Sys, step: Step, s: nat)
    requires Reachable(st) && Next(st, step).Some?
    requires HasChild(Next(st, step).value, s) && !HasChild(st, s)
    ensures forall t: nat :: !HasChild(st, t)
    ensures step.SupStep? && step.s == s && step.ev.SpawnOk?
  {
    ReachableInv(st);
    match step
    case SupStep(t, ev) =>
      assert t == s;
      ChildAppearsBySpawn(st.row, st.sups[s], ev);
      assert s == |st.sups| - 1;
    case OpStep(i, now) => OpStepLeavesTasks(st, i, now);
    case _ =>
  }

  /** A supervisor is created only when the row exists, holds no channel, and every earlier
      supervisor has given its channel up. */
  lemma SupervisorOnlyAfterClear(st: Sys, step: Step)
    requires Reachable(st) && Next(st, step).Some?
    requires |Next(st, step).value.sups| > |st.sups|
    ensures st.row.Some? && st.row.value.cmdTx.None?
    ensures forall s: nat :: !Active(st, s)
    ensures |Next(st, step).value.sups| == |st.sups| + 1
  {
    ReachableInv(st);
    if step.OpStep? {
      OpStepLeavesTasks(st, step.i, step.now);
      ChannelIsNewest(st.row, st.sups);
    }
  }

  /** The table invariant: a live pid or a live status means the row is supervised; and the pid a
      supervised row shows is the child's. */
  lemma TableInvariant(st: Sys)
    requires Reachable(st) && st.row.Some?
    ensures var p := st.row.value;
      (p.pid != 0 || p.status in {Launching, Online, WaitingRestart} ==>
         p.cmdTx.Some? && Active(st, p.cmdTx.value))
    ensures forall s: nat :: HasChild(st, s) && !st.sups[s].pc.Spawned? ==> Some(st.row.value.pid) == st.sups[s].child
  {
    ReachableInv(st);
    ChannelIsNewest(st.row, st.sups);
  }

  /** After the row was removed, all supervisors together spawn at most one more child. */
  lemma AtMostOneOrphanSpawn(st: Sys)
    requires Reachable(st)
    ensures forall s :: 0 <= s < |st.sups| ==> st.sups[s].orphanSpawns <= 1
    ensures forall s, t :: 0 <= s < t < |st.sups| ==> st.sups[s].orphanSpawns == 0 || st.sups[t].orphanSpawns == 0
    ensures st.row.Some? ==> forall s :: 0 <= s < |st.sups| ==> st.sups[s].orphanSpawns == 0
  {
    ReachableInv(st);
  }

  // ----- nothing is lost

  /** While an operation waits, a supervisor still holds its command; a dropped acknowledgement
      means that supervisor ended without the row's channel. */
  lemma CommandsAreAccountedFor(st: Sys, i: nat, s: nat)
    requires Reachable(st) && i < |st.ops| && st.ops[i].pc == Wait(s)
    ensures s < |st.sups|
    ensures st.ops[i].ack.Pending? ==> !st.sups[s].pc.Done? && Carries(st.sups[s], Cmd(st.ops[i].kind, i))
    ensures st.ops[i].ack.Dropped? ==> st.sups[s].pc.Done? && (st.row.Some? ==> st.row.value.cmdTx != Some(s))
  {
    ReachableInv(st);
    assert OpOk(st.row, st.sups, st.ops[i], i);
    assert Mailbox(st.ops, st.sups[s], s);
    if st.row.Some? {
      ChannelIsNewest(st.row, st.sups);
    }
  }

  /** A send fails only on a supervisor that no longer owns the row. */
  lemma SendFailsOnlyWhenDisowned(st: Sys, i: nat, s: nat)
    requires Reachable(st) && i < |st.ops| && st.ops[i].pc == Send(s)
    ensures s < |st.sups|
    ensures st.sups[s].pc.Done? && st.row.Some? ==> st.row.value.cmdTx != Some(s)
  {
    ReachableInv(st);
    assert OpOk(st.row, st.sups, st.ops[i], i);
    if st.row.Some? {
      ChannelIsNewest(st.row, st.sups);
    }
  }

  /** A restart that returned while the row survives was executed by the supervisor it addressed, or
      started a fresh supervisor (whose first spawn succeeded or failed), or found a supervisor newer
      than any it knew about. It never just vanishes. */
  lemma RestartIsNeverLost(st: Sys, i: nat)
    requires Reachable(st) && i < |st.ops| && st.row.Some?
    requires st.ops[i].kind == RestartOp && st.ops[i].pc.Returned?
    ensures match st.ops[i].pc.out
      case Executed(s) => s < |st.sups| && i in st.sups[s].served
      case Started(s) => s < |st.sups| && st.sups[s].starter == i
      case SpawnFailed(s) => s < |st.sups| && st.sups[s].starter == i
      case Supervised(s) => s < |st.sups| && (if st.ops[i].tx.Some? then st.ops[i].tx.value < s else st.ops[i].seen <= s)
      case _ => false
  {
    ReachableInv(st);
    assert OpOk(st.row, st.sups, st.ops[i], i);
  }

  lemma ServedByExecution(row: Option<Proc>, u: Sup, ev: SupEvent, i: nat)
    requires SupAfter(row, u, ev).Some? && i in SupAfter(row, u, ev).value.served && i !in u.served
    requires Hand(u.pc).Some? ==> Hand(u.pc).value.kind != LaunchOp
    ensures (u.pc.Killed? || u.pc.BackoffCmd?) && ev.Go?
    ensures u.pc.cmd == Cmd(RestartOp, i) && SupAfter(row, u, ev).value.pc == CmdAck(u.pc.cmd)
  {
  }

  /** What a served restart does to the row: instability, remembered delay and history are forgotten, the
      restart is counted, and the row is Launching again. */
  predicate Forgives(p: Proc, q: Proc, now: int) {
    && q.unstableRestarts == 0 && q.prevRestartDelay == 0 && q.createdAt == now
    && q.restarts == p.restarts + 1 && q.status == Launching
  }

  lemma ServedIsForgiven(p: Proc, u: Sup, now: int)
    requires (u.pc.Killed? || u.pc.BackoffCmd?) && u.pc.cmd.kind == RestartOp
    ensures RowAfter(Some(p), u, Go(now)).Some? && Forgives(p, RowAfter(Some(p), u, Go(now)).value, now)
  {
  }

  lemma ServedBySupervisor(st: Sys, step: Step, s: nat, i: nat)
    requires Next(st, step).Some? && s < |st.sups|
    requires i in Next(st, step).value.sups[s].served && i !in st.sups[s].served
    ensures step.SupStep? && step.s == s
  {
    if step.OpStep? {
      OpStepLeavesTasks(st, step.i, step.now);
    }
  }

  /** A supervisor serves a restart only after its child was reaped; it forgives the row, and then loops to
      respawn. */
  lemma ServingMeansRespawning(st: Sys, step: Step, s: nat, i: nat)
    requires Reachable(st) && Next(st, step).Some? && s < |st.sups|
    requires i in Next(st, step).value.sups[s].served && i !in st.sups[s].served
    ensures st.sups[s].child.None?
    ensures Next(st, step).value.sups[s].pc == CmdAck(Cmd(RestartOp, i))
    ensures i < |st.ops| && st.ops[i].kind == RestartOp && st.ops[i].pc == Wait(s)
    ensures step.SupStep? && step.s == s && step.ev.Go?
    ensures st.row.Some? ==>
      Next(st, step).value.row.Some? && Forgives(st.row.value, Next(st, step).value.row.value, step.ev.now)
  {
    ReachableInv(st);
    var u := st.sups[s];
    assert Mailbox(st.ops, u, s);
    ServedBySupervisor(st, step, s, i);
    ServedByExecution(st.row, u, step.ev, i);
    if st.row.Some? {
      ServedIsForgiven(st.row.value, u, step.ev.now);
    }
  }

  /** Every delete that returned has had its row removed. */
  lemma DeleteIsNeverLost(st: Sys, i: nat)
    requires Reachable(st) && i < |st.ops|
    requires st.ops[i].kind == DeleteOp && st.ops[i].pc.Returned?
    ensures st.row.None?
  {
    ReachableInv(st);
    assert OpOk(st.row, st.sups, st.ops[i], i);
  }

  /** A launch fails without a spawn error only when the row is gone. */
  lemma LaunchFailsOnlyOnSpawnErrorOrRemoval(st: Sys, i: nat)
    requires Reachable(st) && i < |st.ops| && st.ops[i].pc.Returned?
    requires st.ops[i].pc.out.Vanished? || st.ops[i].pc.out.DiedEarly?
    ensures st.row.None?
  {
    ReachableInv(st);
    assert OpOk(st.row, st.sups, st.ops[i], i);
  }

  // ----- a row never sticks at Stopping without a supervisor

  /** Stopping on an unsupervised row is being cleaned up: some stop or delete is past its mark, with its
      normalisation or removal still to come. */
  lemma UnsupervisedStoppingIsTransient(st: Sys)
    requires Reachable(st) && st.row.Some? && st.row.value.cmdTx.None?
    ensures st.row.value.pid == 0
    ensures st.row.value.status in {Stopped, Errored, Stopping}
    ensures st.row.value.status == Stopping ==>
      exists i :: 0 <= i < |st.ops| && Marking(st.ops[i])
  {
    ReachableInv(st);
    ChannelIsNewest(st.row, st.sups);
  }

  /** With no operation pending and no active supervisor, a surviving row is plainly down. */
  lemma QuiescentRowIsDown(st: Sys)
    requires Reachable(st) && st.row.Some?
    requires forall i :: 0 <= i < |st.ops| ==> !Live(st.ops[i])
    requires forall s: nat :: !Active(st, s)
    ensures st.row.value.status in {Stopped, Errored}
    ensures st.row.value.pid == 0 && st.row.value.cmdTx.None?
    ensures forall s: nat :: !HasChild(st, s)
  {
    ReachableInv(st);
    ChannelIsNewest(st.row, st.sups);
    assert |st.sups| > 0 ==> !Active(st, |st.sups| - 1);
    UnsupervisedStoppingIsTransient(st);
    OneSupervisorOneChild(st);
  }

  // ----- stop is final

  predicate Revives(kind: OpKind) {
    kind == LaunchOp || kind == RestartOp
  }

  /** No start or restart is in flight. */
  ghost predicate NoReviver(st: Sys) {
    forall i :: 0 <= i < |st.ops| && Revives(st.ops[i].kind) ==> !Live(st.ops[i])
  }

  /** No start or restart begins during the run. */
  ghost predicate NoRevival(steps: seq<Step>) {
    forall k :: 0 <= k < |steps| && steps[k].Begin? ==> !Revives(steps[k].kind)
  }

  /** The row is unsupervised, or gone. */
  predicate Down(st: Sys) {
    st.row.Some? ==> st.row.value.cmdTx.None?
  }

  /** Every supervisor is through and no child is left. */
  ghost predicate AllOver(st: Sys) {
    forall s :: 0 <= s < |st.sups| ==> PastClear(st.sups[s].pc) && st.sups[s].child.None?
  }

  lemma DownMeansAllOver(st: Sys)
    requires Inv(st) && Down(st) && st.row.Some?
    ensures AllOver(st) && st.row.value.pid == 0
  {
    ChannelIsNewest(st.row, st.sups);
  }

  lemma NoReviverStep(st: Sys, step: Step)
    requires Inv(st) && NoReviver(st) && Next(st, step).Some?
    requires step.Begin? ==> !Revives(step.kind)
    ensures NoReviver(Next(st, step).value) && |Next(st, step).value.sups| == |st.sups|
  {
    match step
    case SupStep(s, _) =>
      assert Mailbox(st.ops, st.sups[s], s);
      SettlingTouchesOwnWaiters(st.ops, st.sups[s], s);
    case OpStep(i, now) =>
      assert OpOk(st.row, st.sups, st.ops[i], i);
      OpStepLeavesTasks(st, i, now);
    case _ =>
  }

  lemma PastClearStays(st: Sys, step: Step, s: nat)
    requires Next(st, step).Some? && s < |st.sups|
    requires PastClear(st.sups[s].pc)
    ensures s < |Next(st, step).value.sups| && PastClear(Next(st, step).value.sups[s].pc)
  {
    match step
    case SupStep(t, ev) => StepAdvances(st.row, st.sups[t], ev);
    case OpStep(i, now) => OpStepLeavesTasks(st, i, now);
    case _ =>
  }

  /** The newest supervisor, if there is one, has given its channel up. */
  predicate Through(sups: seq<Sup>) {
    |sups| == 0 || PastClear(sups[|sups| - 1].pc)
  }

  lemma DownIffThrough(st: Sys)
    requires Inv(st) && st.row.Some?
    ensures Down(st) <==> Through(st.sups)
  {
    ChannelIsNewest(st.row, st.sups);
  }

  lemma ThroughStays(st: Sys, step: Step)
    requires Next(st, step).Some? && |Next(st, step).value.sups| == |st.sups| && Through(st.sups)
    ensures Through(Next(st, step).value.sups)
  {
    if |st.sups| > 0 {
      PastClearStays(st, step, |st.sups| - 1);
    }
  }

  lemma ThroughAfter(st: Sys, step: Step)
    requires Inv(st) && NoReviver(st) && Next(st, step).Some? && Down(st) && st.row.Some?
    requires step.Begin? ==> !Revives(step.kind)
    ensures Through(Next(st, step).value.sups)
  {
    NoReviverStep(st, step);
    DownIffThrough(st);
    ThroughStays(st, step);
  }

  lemma DownAfter(st: Sys, step: Step)
    requires Inv(st) && Next(st, step).Some? && Through(Next(st, step).value.sups)
    ensures Down(Next(st, step).value)
  {
    NextKeepsInv(st, step);
    if Next(st, step).value.row.Some? {
      DownIffThrough(Next(st, step).value);
    }
  }

  lemma DownStays(st: Sys, step: Step)
    requires Inv(st) && NoReviver(st) && Next(st, step).Some? && Down(st)
    requires step.Begin? ==> !Revives(step.kind)
    ensures Down(Next(st, step).value)
  {
    if st.row.Some? {
      ThroughAfter(st, step);
      DownAfter(st, step);
    } else {
      RemovalIsPermanent(st, step);
    }
  }

  lemma RemovalIsPermanent(st: Sys, step: Step)
    requires Next(st, step).Some?
    ensures st.row.None? ==> Next(st, step).value.row.None?
  {
  }

  lemma ChildlessStays(row: Option<Proc>, u: Sup, ev: SupEvent)
    requires SupAfter(row, u, ev).Some? && PastClear(u.pc) && u.child.None?
    ensures PastClear(SupAfter(row, u, ev).value.pc) && SupAfter(row, u, ev).value.child.None?
  {
  }

  lemma AllOverStays(st: Sys, step: Step)
    requires Inv(st) && NoReviver(st) && Next(st, step).Some? && AllOver(st)
    requires step.Begin? ==> !Revives(step.kind)
    ensures AllOver(Next(st, step).value)
  {
    NoReviverStep(st, step);
    match step
    case SupStep(s, ev) => ChildlessStays(st.row, st.sups[s], ev);
    case OpStep(i, now) => OpStepLeavesTasks(st, i, now);
    case _ =>
  }

  /** How far a stop has come when nothing revives the row: it addresses the newest supervisor, and
      once it returns the row is down. */
  predicate StopProgress(st: Sys, i: nat) {
    && i < |st.ops|
    && st.ops[i].kind == StopOp
    && (Live(st.ops[i]) && !st.ops[i].pc.Start? ==> st.ops[i].tx.Some?)
    && (st.ops[i].tx.Some? ==> |st.sups| > 0 && st.ops[i].tx == Some(|st.sups| - 1))
    && (st.ops[i].pc.Returned? ==> Down(st))
  }

  lemma OthersDoNotMoveIt(st: Sys, step: Step, i: nat)
    requires Inv(st) && Next(st, step).Some? && i < |st.ops|
    requires step.OpStep? ==> step.i != i
    ensures i < |Next(st, step).value.ops|
    ensures var o, o' := st.ops[i], Next(st, step).value.ops[i]; o' == o.(ack := o'.ack)
  {
    match step
    case SupStep(s, _) =>
      assert Mailbox(st.ops, st.sups[s], s);
      SettlingTouchesOwnWaiters(st.ops, st.sups[s], s);
    case OpStep(j, now) => OpStepLeavesTasks(st, j, now);
    case _ =>
  }

  lemma OwnStopStep(st: Sys, i: nat, now: int)
    requires Inv(st) && StopProgress(st, i) && StepOp(st, i, now).Some?
    ensures StopProgress(StepOp(st, i, now).value, i)
  {
    assert OpOk(st.row, st.sups, st.ops[i], i);
    if st.row.Some? {
      ChannelIsNewest(st.row, st.sups);
    }
  }

  lemma StopProgresses(st: Sys, step: Step, i: nat)
    requires Inv(st) && NoReviver(st) && StopProgress(st, i) && Next(st, step).Some?
    requires step.Begin? ==> !Revives(step.kind)
    ensures StopProgress(Next(st, step).value, i)
  {
    if step.OpStep? && step.i == i {
      OwnStopStep(st, i, step.now);
    } else {
      OthersDoNotMoveIt(st, step, i);
      NoReviverStep(st, step);
      if st.ops[i].pc.Returned? {
        DownStays(st, step);
      }
    }
  }

  lemma {:induction false} StopRunProgresses(st: Sys, i: nat, steps: seq<Step>)
    requires Inv(st) && NoReviver(st) && StopProgress(st, i)
    requires NoRevival(steps) && Run(st, steps).Some?
    ensures Inv(Run(st, steps).value) && StopProgress(Run(st, steps).value, i)
    decreases |steps|
  {
    if steps != [] {
      var st' := Next(st, steps[0]).value;
      StopProgresses(st, steps[0], i);
      NoReviverStep(st, steps[0]);
      NextKeepsInv(st, steps[0]);
      assert NoRevival(steps[1..]);
      StopRunProgresses(st', i, steps[1..]);
    }
  }

  lemma FinalStopIsNotErrored(end: Sys, i: nat)
    requires Reachable(end) && end.row.Some? && StopProgress(end, i) && end.ops[i].ack.Acked?
    ensures end.row.value.status != Errored
  {
    AckedStopHasAddressee(end, i);
    AcknowledgedStopIsNotErrored(end, i);
  }

  /** Stop is final. If no start or restart is in flight when `stop` begins and none begins before it
      returns, then the surviving row has no supervisor, no child and pid 0, and shows Stopped or
      Errored unless another stop or delete is still at work. It does not show Errored when the stop's
      command was executed. */
  lemma StopIsFinal(st: Sys, i: nat, steps: seq<Step>)
    requires Reachable(st) && i < |st.ops| && st.ops[i] == NewOp(StopOp) && NoReviver(st)
    requires NoRevival(steps) && Run(st, steps).Some?
    requires i < |Run(st, steps).value.ops| && !Live(Run(st, steps).value.ops[i])
    requires Run(st, steps).value.row.Some?
    ensures var end := Run(st, steps).value;
      && end.row.value.cmdTx.None?
      && end.row.value.pid == 0
      && AllOver(end)
      && (end.ops[i].ack.Acked? ==> end.row.value.status != Errored)
      && (end.row.value.status in {Stopped, Errored} ||
          exists j :: 0 <= j < |end.ops| && j != i && Live(end.ops[j])
                      && (end.ops[j].kind == StopOp || end.ops[j].kind == DeleteOp))
  {
    ReachableInv(st);
    StopRunProgresses(st, i, steps);
    ReachableRun(st, steps);
    var end := Run(st, steps).value;
    DownMeansAllOver(end);
    if end.ops[i].ack.Acked? {
      FinalStopIsNotErrored(end, i);
    }
    ChannelIsNewest(end.row, end.sups);
    if end.row.value.status == Stopping {
      var j :| 0 <= j < |end.ops| && Marking(end.ops[j]);
      assert j != i && Live(end.ops[j]);
    }
  }

  lemma {:induction false} DownRunStaysDown(st: Sys, steps: seq<Step>)
    requires Inv(st) && NoReviver(st) && Down(st) && AllOver(st)
    requires NoRevival(steps) && Run(st, steps).Some?
    ensures Down(Run(st, steps).value) && AllOver(Run(st, steps).value)
    ensures |Run(st, steps).value.sups| == |st.sups|
    decreases |steps|
  {
    if steps != [] {
      NoReviverStep(st, steps[0]);
      DownStays(st, steps[0]);
      AllOverStays(st, steps[0]);
      NextKeepsInv(st, steps[0]);
      assert NoRevival(steps[1..]);
      DownRunStaysDown(Next(st, steps[0]).value, steps[1..]);
    }
  }

  /** And it stays so: on an unsupervised row with no start or restart in flight, no run creates a
      supervisor or a child until a start or restart begins. */
  lemma StoppedStaysStopped(st: Sys, steps: seq<Step>)
    requires Reachable(st) && NoReviver(st) && st.row.Some? && st.row.value.cmdTx.None?
    requires NoRevival(steps) && Run(st, steps).Some?
    ensures var end := Run(st, steps).value;
      && (end.row.Some? ==> end.row.value.cmdTx.None? && end.row.value.pid == 0)
      && (forall s: nat :: !HasChild(end, s) && !Active(end, s))
      && |end.sups| == |st.sups|
  {
    ReachableInv(st);
    DownMeansAllOver(st);
    DownRunStaysDown(st, steps);
    RunKeepsInv(st, steps);
    var end := Run(st, steps).value;
    if end.row.Some? {
      ChannelIsNewest(end.row, end.sups);
    }
  }
}
