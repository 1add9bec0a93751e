/** When a supervised row may be left at Stopping with nobody stopping it.

    `restart_one` snapshots the channel in one section and overwrites Online with Stopping in a later
    one. If the row changed hands in between, the mark lands on a supervisor that will never receive
    the command. With nothing in flight a row shows Stopping exactly when its status was last written by
    such a stale mark. */
module ProtocolStopping {
  import opened Domain
  import opened Protocol
  import opened ProtocolInvariant
  import opened ProtocolSteps

  /** A command is in hand and not yet executed. */
  predicate KillPhase(pc: SupPc) {
    pc.KillMark? || pc.Killing? || pc.Killed? || pc.BackoffCmd?
  }

  /** A restart is about to send its command to the newest supervisor, or has it queued there. */
  predicate RestartComing(sups: seq<Sup>, o: Op, i: nat) {
    && o.kind == RestartOp
    && |sups| > 0
    && (|| o.pc == Send(|sups| - 1)
        || (o.pc == Wait(|sups| - 1) && Cmd(RestartOp, i) in sups[|sups| - 1].queue))
  }

  ghost predicate SomeMarking(ops: seq<Op>) {
    exists i :: 0 <= i < |ops| && Marking(ops[i])
  }

  ghost predicate SomeRestartComing(sups: seq<Sup>, ops: seq<Op>) {
    exists i :: 0 <= i < |ops| && RestartComing(sups, ops[i], i)
  }

  ghost predicate HasReason(sups: seq<Sup>, ops: seq<Op>) {
    || SomeMarking(ops)
    || (|sups| > 0 && KillPhase(sups[|sups| - 1].pc))
    || SomeRestartComing(sups, ops)
  }

  predicate IsStopping(row: Option<Proc>) {
    row.Some? && row.value.status == Stopping
  }

  /** Without a stale mark, a supervised row at Stopping has a reason. */
  ghost predicate Explained(st: Sys) {
    !st.staleMark && IsStopping(st.row) && !Abandoned(st.sups) ==> HasReason(st.sups, st.ops)
  }

  // ----- preservation: supervisor steps

  lemma NewestStillStopping(row: Option<Proc>, u: Sup, last: nat, ev: SupEvent)
    requires Coupled(row, u, last) && SupAfter(row, u, ev).Some?
    requires IsStopping(RowAfter(row, u, ev))
    requires var pc := SupAfter(row, u, ev).value.pc; !PastClear(pc) && !DeadPhase(pc)
    requires Hand(u.pc).Some? ==> Hand(u.pc).value.kind != LaunchOp
    requires u.pc.CmdClear? ==> u.pc.cmd.kind == StopOp
    ensures KillPhase(SupAfter(row, u, ev).value.pc) ||
            (IsStopping(row) && !KillPhase(u.pc) && !PastClear(u.pc) && !DeadPhase(u.pc))
  {
  }

  lemma QueuedOrInHand(u: Sup, u': Sup, c: Cmd)
    requires MailShape(u, u') && !u.pc.Ending? && c in u.queue
    ensures c in u'.queue || Hand(u'.pc) == Some(c)
  {
    if u'.queue != u.queue {
      var k :| 0 <= k < |u.queue| && u.queue[k] == c;
      if k > 0 { assert u'.queue[k - 1] == c; }
    }
  }

  lemma RestartStillComing(ops: seq<Op>, sups: seq<Sup>, s: nat, u': Sup, i: nat)
    requires s < |sups| && i < |ops| && Mailbox(ops, sups[s], s) && MailShape(sups[s], u')
    requires !PastClear(sups[|sups| - 1].pc) && RestartComing(sups, ops[i], i)
    requires s == |sups| - 1 ==> Hand(sups[s].pc).None? || !Hand(u'.pc).Some? || Hand(u'.pc) == Hand(sups[s].pc)
    ensures |SettleAcks(ops, sups[s])| == |ops|
    ensures RestartComing(sups[s := u'], SettleAcks(ops, sups[s])[i], i)
            || (s == |sups| - 1 && Hand(u'.pc) == Some(Cmd(RestartOp, i)) && Hand(sups[s].pc).None?)
  {
    SettlingTouchesOwnWaiters(ops, sups[s], s);
    if s == |sups| - 1 && Cmd(RestartOp, i) in sups[s].queue {
      QueuedOrInHand(sups[s], u', Cmd(RestartOp, i));
    }
  }

  lemma TakenMeansKillPhase(row: Option<Proc>, u: Sup, ev: SupEvent)
    requires SupAfter(row, u, ev).Some? && Hand(u.pc).None? && Hand(SupAfter(row, u, ev).value.pc).Some?
    ensures KillPhase(SupAfter(row, u, ev).value.pc)
  {
  }

  lemma HandsKeptOrTaken(u: Sup, u': Sup)
    requires MailShape(u, u')
    ensures Hand(u.pc).None? || !Hand(u'.pc).Some? || Hand(u'.pc) == Hand(u.pc)
  {
  }

  lemma MarkingKept(ops: seq<Op>, u: Sup, s: nat)
    requires Mailbox(ops, u, s) && SomeMarking(ops)
    ensures SomeMarking(SettleAcks(ops, u))
  {
    WitnessKept(ops, u, s);
  }

  lemma ComingKeptBySupStep(row: Option<Proc>, sups: seq<Sup>, ops: seq<Op>, s: nat, ev: SupEvent)
    requires s < |sups| && Mailbox(ops, sups[s], s) && SupAfter(row, sups[s], ev).Some?
    requires SomeRestartComing(sups, ops) && !PastClear(sups[|sups| - 1].pc)
    ensures HasReason(sups[s := SupAfter(row, sups[s], ev).value], SettleAcks(ops, sups[s]))
  {
    var u, u' := sups[s], SupAfter(row, sups[s], ev).value;
    var i :| 0 <= i < |ops| && RestartComing(sups, ops[i], i);
    StepShape(row, u, ev);
    HandsKeptOrTaken(u, u');
    RestartStillComing(ops, sups, s, u', i);
    if RestartComing(sups[s := u'], SettleAcks(ops, u)[i], i) {
      assert SomeRestartComing(sups[s := u'], SettleAcks(ops, u));
    } else {
      TakenMeansKillPhase(row, u, ev);
    }
  }

  lemma ReasonKept(row: Option<Proc>, sups: seq<Sup>, ops: seq<Op>, s: nat, ev: SupEvent)
    requires s < |sups| && Mailbox(ops, sups[s], s) && SupAfter(row, sups[s], ev).Some?
    requires HasReason(sups, ops) && !PastClear(sups[|sups| - 1].pc)
    requires s == |sups| - 1 ==> !KillPhase(sups[s].pc)
    ensures HasReason(sups[s := SupAfter(row, sups[s], ev).value], SettleAcks(ops, sups[s]))
  {
    if SomeMarking(ops) {
      MarkingKept(ops, sups[s], s);
    } else if SomeRestartComing(sups, ops) {
      ComingKeptBySupStep(row, sups, ops, s, ev);
    }
  }

  lemma NewestStepExplained(st: Sys, s: nat, ev: SupEvent)
    requires Explained(st) && StepSup(st, s, ev).Some? && s == |st.sups| - 1
    requires Coupled(st.row, st.sups[s], s) && Mailbox(st.ops, st.sups[s], s)
    ensures Explained(StepSup(st, s, ev).value)
  {
    var st' := StepSup(st, s, ev).value;
    if !st'.staleMark && IsStopping(st'.row) && !Abandoned(st'.sups) {
      NewestStillStopping(st.row, st.sups[s], s, ev);
      if !KillPhase(st'.sups[s].pc) {
        ReasonKept(st.row, st.sups, st.ops, s, ev);
      }
    }
  }

  lemma OlderTaskChanged(st: Sys, s: nat, u': Sup, ops': seq<Op>)
    requires Explained(st) && s < |st.sups| - 1
    requires HasReason(st.sups, st.ops) && !Abandoned(st.sups) ==> HasReason(st.sups[s := u'], ops')
    ensures Explained(st.(sups := st.sups[s := u'], ops := ops'))
  {
  }

  lemma OlderStepExplained(st: Sys, s: nat, ev: SupEvent)
    requires Explained(st) && StepSup(st, s, ev).Some? && s < |st.sups| - 1
    requires Retired(st.row, st.sups[s]) && Mailbox(st.ops, st.sups[s], s)
    ensures Explained(StepSup(st, s, ev).value)
  {
    OlderStaysRetired(st.row, st.sups[s], ev);
    if HasReason(st.sups, st.ops) && !Abandoned(st.sups) {
      ReasonKept(st.row, st.sups, st.ops, s, ev);
    }
    OlderTaskChanged(st, s, SupAfter(st.row, st.sups[s], ev).value, SettleAcks(st.ops, st.sups[s]));
  }

  lemma SupStepKeepsExplained(st: Sys, s: nat, ev: SupEvent)
    requires Inv(st) && Explained(st) && StepSup(st, s, ev).Some?
    ensures Explained(StepSup(st, s, ev).value)
  {
    assert Mailbox(st.ops, st.sups[s], s);
    if s == |st.sups| - 1 {
      NewestStepExplained(st, s, ev);
    } else {
      OlderStepExplained(st, s, ev);
    }
  }

  // ----- preservation: operation steps

  /** The moving operation was no reason, or stays one. */
  lemma ReasonKeptByOpMove(sups: seq<Sup>, sups': seq<Sup>, ops: seq<Op>, ops': seq<Op>, i: nat)
    requires i < |ops| && |ops'| == |ops| && forall j :: 0 <= j < |ops| && j != i ==> ops'[j] == ops[j]
    requires |sups'| == |sups| && forall s :: 0 <= s < |sups| ==> sups'[s].pc == sups[s].pc
    requires forall s, c :: 0 <= s < |sups| && c in sups[s].queue ==> c in sups'[s].queue
    requires HasReason(sups, ops)
    requires Marking(ops[i]) ==> Marking(ops'[i])
    requires RestartComing(sups, ops[i], i) ==> RestartComing(sups', ops'[i], i)
    ensures HasReason(sups', ops')
  {
    if SomeMarking(ops) {
      var j :| 0 <= j < |ops| && Marking(ops[j]);
      assert Marking(ops'[j]);
    } else if SomeRestartComing(sups, ops) {
      var j :| 0 <= j < |ops| && RestartComing(sups, ops[j], j);
      assert RestartComing(sups', ops'[j], j);
    }
  }

  lemma MarkExplained(st: Sys, i: nat, s: nat)
    requires Inv(st) && Explained(st) && i < |st.ops| && st.ops[i].pc == Mark(s)
    ensures Explained(StepMark(st, i, s))
  {
    var st' := StepMark(st, i, s);
    assert OpOk(st.row, st.sups, st.ops[i], i);
    if !st'.staleMark && IsStopping(st'.row) && !Abandoned(st'.sups) {
      if IsStopping(st.row) {
        ReasonKeptByOpMove(st.sups, st'.sups, st.ops, st'.ops, i);
      } else {
        ChannelIsNewest(st.row, st.sups);
        assert RestartComing(st'.sups, st'.ops[i], i);
      }
    }
  }

  lemma StartExplained(st: Sys, i: nat)
    requires Inv(st) && Explained(st) && i < |st.ops| && st.ops[i].pc.Start?
    ensures Explained(StepStart(st, i))
  {
    var st' := StepStart(st, i);
    assert OpOk(st.row, st.sups, st.ops[i], i);
    if !st'.staleMark && IsStopping(st'.row) && !Abandoned(st'.sups) {
      if Marking(st'.ops[i]) {
        assert SomeMarking(st'.ops);
      } else {
        ReasonKeptByOpMove(st.sups, st'.sups, st.ops, st'.ops, i);
      }
    }
  }

  lemma SendExplained(st: Sys, i: nat, s: nat)
    requires Inv(st) && Explained(st) && i < |st.ops| && s < |st.sups| && st.ops[i].pc == Send(s)
    requires StepSend(st, i, s).Some?
    ensures Explained(StepSend(st, i, s).value)
  {
    var st' := StepSend(st, i, s).value;
    assert OpOk(st.row, st.sups, st.ops[i], i);
    if !st.staleMark && IsStopping(st.row) && !Abandoned(st'.sups) {
      if RestartComing(st.sups, st.ops[i], i) {
        assert st'.sups[s].queue[|st.sups[s].queue|] == Cmd(RestartOp, i);
      }
      ReasonKeptByOpMove(st.sups, st'.sups, st.ops, st'.ops, i);
    }
  }

  lemma WaitExplained(st: Sys, i: nat, s: nat)
    requires Inv(st) && Explained(st) && i < |st.ops| && st.ops[i].pc == Wait(s)
    requires StepWait(st, i, s).Some?
    ensures Explained(StepWait(st, i, s).value)
  {
    var st' := StepWait(st, i, s).value;
    assert OpOk(st.row, st.sups, st.ops[i], i);
    assert Mailbox(st.ops, st.sups[s], s);
    if !st.staleMark && IsStopping(st.row) && !Abandoned(st.sups) {
      ReasonKeptByOpMove(st.sups, st'.sups, st.ops, st'.ops, i);
    }
  }

  /** Steps that leave every other operation and every task alone, and either end the Stopping status
      or start from an operation that is no reason for it. */
  lemma PlainExplained(st: Sys, st': Sys, i: nat, o': Op)
    requires Explained(st) && i < |st.ops| && st'.sups == st.sups && st'.staleMark == st.staleMark
    requires st'.ops == st.ops[i := o']
    requires !Marking(st.ops[i]) && !RestartComing(st.sups, st.ops[i], i)
    requires IsStopping(st'.row) ==> IsStopping(st.row)
    ensures Explained(st')
  {
    if !st'.staleMark && IsStopping(st'.row) && !Abandoned(st'.sups) {
      ReasonKeptByOpMove(st.sups, st'.sups, st.ops, st'.ops, i);
    }
  }

  lemma LaunchExplained(st: Sys, i: nat)
    requires Explained(st) && i < |st.ops| && (st.ops[i].pc.LaunchCheck? || st.ops[i].pc.LaunchSpawn?)
    requires OpOk(st.row, st.sups, st.ops[i], i)
    ensures Explained(StepLaunch(st, i))
  {
    var st' := StepLaunch(st, i);
    if |st'.sups| == |st.sups| {
      PlainExplained(st, st', i, st'.ops[i]);
    }
  }

  lemma OpStepKeepsExplained(st: Sys, i: nat, now: int)
    requires Inv(st) && Explained(st) && StepOp(st, i, now).Some?
    ensures Explained(StepOp(st, i, now).value)
  {
    var st' := StepOp(st, i, now).value;
    assert OpOk(st.row, st.sups, st.ops[i], i);
    match st.ops[i].pc
    case Start => StartExplained(st, i);
    case Mark(s) => MarkExplained(st, i, s);
    case Send(s) => SendExplained(st, i, s);
    case Wait(s) => WaitExplained(st, i, s);
    case LaunchCheck => LaunchExplained(st, i);
    case LaunchSpawn => LaunchExplained(st, i);
    case LaunchWait(s) => PlainExplained(st, st', i, st'.ops[i]);
    case Cold => PlainExplained(st, st', i, st'.ops[i]);
    case _ =>
  }

  lemma NextKeepsExplained(st: Sys, step: Step)
    requires Inv(st) && Explained(st) && Next(st, step).Some?
    ensures Explained(Next(st, step).value)
  {
    var st' := Next(st, step).value;
    match step
    case OpStep(i, now) => OpStepKeepsExplained(st, i, now);
    case SupStep(s, ev) => SupStepKeepsExplained(st, s, ev);
    case Begin(kind) =>
      if SomeMarking(st.ops) {
        var j :| 0 <= j < |st.ops| && Marking(st.ops[j]);
        assert Marking(st'.ops[j]);
      } else if SomeRestartComing(st.sups, st.ops) {
        var j :| 0 <= j < |st.ops| && RestartComing(st.sups, st.ops[j], j);
        assert RestartComing(st'.sups, st'.ops[j], j);
      }
    case _ =>
  }

  lemma {:induction false} RunKeepsExplained(st: Sys, steps: seq<Step>)
    requires Inv(st) && Explained(st) && Run(st, steps).Some?
    ensures Explained(Run(st, steps).value)
    decreases |steps|
  {
    if steps != [] {
      NextKeepsExplained(st, steps[0]);
      NextKeepsInv(st, steps[0]);
      RunKeepsExplained(Next(st, steps[0]).value, steps[1..]);
    }
  }

  /** Unless its status was last written by a stale mark, a row shows Stopping only while some operation
      is in flight, whatever happened before. */
  lemma StoppingOnlyWhileSomeoneStops(st: Sys)
    requires Reachable(st) && st.row.Some? && st.row.value.status == Stopping && !st.staleMark
    ensures exists i :: 0 <= i < |st.ops| && Live(st.ops[i]) && st.ops[i].kind != LaunchOp
  {
    var config, pmId: nat, instance: nat, now: int, steps :|
      Run(Init(config, pmId, instance, now), steps) == Some(st);
    var init := Init(config, pmId, instance, now);
    InitInv(config, pmId, instance, now);
    RunKeepsExplained(init, steps);
    RunKeepsInv(init, steps);
    if Abandoned(st.sups) || SomeMarking(st.ops) {
      var i :| 0 <= i < |st.ops| && Marking(st.ops[i]);
      assert Live(st.ops[i]);
    } else if SomeRestartComing(st.sups, st.ops) {
      var i :| 0 <= i < |st.ops| && RestartComing(st.sups, st.ops[i], i);
      assert Live(st.ops[i]);
    } else {
      var s := |st.sups| - 1;
      assert Mailbox(st.ops, st.sups[s], s);
      assert Live(st.ops[Hand(st.sups[s].pc).value.op]);
    }
  }

  // ----- and when it is

  /** The flag speaks of the status the row shows now. */
  predicate FlagIsCurrent(st: Sys) {
    st.staleMark && st.row.Some? ==> st.row.value.status == Stopping
  }

  lemma FlagStaysCurrent(st: Sys, step: Step)
    requires FlagIsCurrent(st) && Next(st, step).Some?
    ensures FlagIsCurrent(Next(st, step).value)
  {
  }

  lemma {:induction false} RunKeepsFlagCurrent(st: Sys, steps: seq<Step>)
    requires FlagIsCurrent(st) && Run(st, steps).Some?
    ensures FlagIsCurrent(Run(st, steps).value)
    decreases |steps|
  {
    if steps != [] {
      FlagStaysCurrent(st, steps[0]);
      RunKeepsFlagCurrent(Next(st, steps[0]).value, steps[1..]);
    }
  }

  /** In every reachable state with no operation in flight, a row is stuck at Stopping if and only if its
      status was last written by a stale mark. */
  lemma StuckAtStoppingIffStaleMark(st: Sys)
    requires Reachable(st) && st.row.Some?
    requires forall i :: 0 <= i < |st.ops| ==> !Live(st.ops[i])
    ensures st.row.value.status == Stopping <==> st.staleMark
  {
    var config, pmId: nat, instance: nat, now: int, steps :|
      Run(Init(config, pmId, instance, now), steps) == Some(st);
    RunKeepsFlagCurrent(Init(config, pmId, instance, now), steps);
    if st.row.value.status == Stopping && !st.staleMark {
      StoppingOnlyWhileSomeoneStops(st);
    }
  }
}
