/** Every step of every run keeps the invariant. */
module ProtocolSteps {
  import opened Domain
  import opened Sections
  import opened Protocol
  import opened ProtocolInvariant

  /** The operation is parked until some supervisor settles its acknowledgement. */
  predicate Parked(o: Op) {
    o.ack.Pending? && (o.pc.Wait? || o.pc.LaunchWait?)
  }

  lemma MailboxIgnores(ops: seq<Op>, i: nat, o': Op, v: Sup, t: nat)
    requires i < |ops| && Mailbox(ops, v, t) && !Parked(ops[i])
    ensures Mailbox(ops[i := o'], v, t)
  {
  }

  lemma RowTouched(row: Option<Proc>, row': Option<Proc>, sups: seq<Sup>)
    requires Ownership(row, sups) && row.Some? && row'.Some?
    requires row'.value.cmdTx == row.value.cmdTx && row'.value.pid == row.value.pid
    requires row'.value.status == row.value.status || DownStatus(row'.value.status)
    ensures Ownership(row', sups)
  {
  }

  lemma RowRemoved(row: Option<Proc>, sups: seq<Sup>)
    requires Ownership(row, sups)
    ensures Ownership(None, sups)
  {
  }

  lemma OpUnderRow(row: Option<Proc>, row': Option<Proc>, sups: seq<Sup>, o: Op, i: nat)
    requires OpOk(row, sups, o, i) && (row.None? ==> row'.None?)
    ensures OpOk(row', sups, o, i)
  {
  }

  /** An operation moves on its own and touches at most the row. */
  lemma OpMoves(st: Sys, i: nat, o': Op, row': Option<Proc>)
    requires Inv(st) && i < |st.ops| && !Parked(st.ops[i])
    requires Ownership(row', st.sups) && (st.row.None? ==> row'.None?)
    requires OpOk(row', st.sups, o', i)
    requires row'.Some? && row'.value.status == Stopping && Abandoned(st.sups) ==>
      Marking(o') || (st.row.Some? && st.row.value.status == Stopping && !Marking(st.ops[i]))
    ensures Inv(st.(row := row', ops := st.ops[i := o']))
  {
    var ops' := st.ops[i := o'];
    forall t | 0 <= t < |st.sups| ensures Mailbox(ops', st.sups[t], t) {
      MailboxIgnores(st.ops, i, o', st.sups[t], t);
    }
    forall j | 0 <= j < |ops'| ensures OpOk(row', st.sups, ops'[j], j) {
      if j != i {
        OpUnderRow(st.row, row', st.sups, st.ops[j], j);
      }
    }
    if row'.Some? && row'.value.status == Stopping && Abandoned(st.sups) {
      if Marking(o') {
        assert Marking(ops'[i]);
      } else {
        var j :| 0 <= j < |st.ops| && Marking(st.ops[j]);
        assert Marking(ops'[j]);
      }
    }
  }

  /** The row's channel, when there is one, belongs to the newest supervisor. */
  lemma ChannelIsNewest(row: Option<Proc>, sups: seq<Sup>)
    requires Ownership(row, sups) && row.Some?
    ensures row.value.cmdTx.Some? <==> |sups| > 0 && !PastClear(sups[|sups| - 1].pc)
    ensures row.value.cmdTx.Some? ==> row.value.cmdTx.value == |sups| - 1
    ensures row.value.cmdTx.None? ==> Unsupervised(row.value)
  {
  }

  lemma StartTouchesStatusOnly(st: Sys, i: nat)
    requires Ownership(st.row, st.sups) && i < |st.ops| && st.row.Some?
    ensures StepStart(st, i).row.Some? && Ownership(StepStart(st, i).row, st.sups)
  {
    ChannelIsNewest(st.row, st.sups);
    RowTouched(st.row, StepStart(st, i).row, st.sups);
  }

  lemma StartedOk(st: Sys, i: nat)
    requires Ownership(st.row, st.sups) && i < |st.ops| && st.ops[i].pc.Start?
    requires OpOk(st.row, st.sups, st.ops[i], i)
    ensures OpOk(StepStart(st, i).row, st.sups, StepStart(st, i).ops[i], i)
  {
    if st.row.Some? {
      ChannelIsNewest(st.row, st.sups);
    }
  }

  lemma StartKeepsInv(st: Sys, i: nat)
    requires Inv(st) && i < |st.ops| && st.ops[i].pc.Start?
    ensures Inv(StepStart(st, i))
  {
    var st' := StepStart(st, i);
    assert OpOk(st.row, st.sups, st.ops[i], i);
    StartedOk(st, i);
    if st.row.Some? {
      StartTouchesStatusOnly(st, i);
    }
    OpMoves(st, i, st'.ops[i], st'.row);
    assert st' == st.(row := st'.row, ops := st.ops[i := st'.ops[i]], staleMark := st'.staleMark);
  }

  lemma MarkKeepsInv(st: Sys, i: nat, s: nat)
    requires Inv(st) && i < |st.ops| && st.ops[i].pc == Mark(s)
    ensures Inv(StepMark(st, i, s))
  {
    var st' := StepMark(st, i, s);
    assert OpOk(st.row, st.sups, st.ops[i], i);
    if st.row.Some? {
      RowTouched(st.row, st'.row, st.sups);
    }
    OpMoves(st, i, st'.ops[i], st'.row);
  }

  lemma EnqueuedMailbox(ops: seq<Op>, i: nat, o': Op, u: Sup, s: nat)
    requires i < |ops| && Mailbox(ops, u, s) && ops[i].pc == Send(s) && !u.pc.Done?
    requires o' == ops[i].(pc := Wait(s), ack := Pending) && o'.kind != LaunchOp
    ensures Mailbox(ops[i := o'], u.(queue := u.queue + [Cmd(o'.kind, i)]), s)
  {
    MailboxIgnores(ops, i, o', u, s);
  }

  lemma EnqueuedOwnership(row: Option<Proc>, sups: seq<Sup>, s: nat, queue: seq<Cmd>)
    requires s < |sups| && Ownership(row, sups)
    ensures Ownership(row, sups[s := sups[s].(queue := queue)])
  {
    if |sups| - 1 == s {
      NewestReplaced(row, row, sups, sups[s].(queue := queue));
    } else {
      OlderReplaced(row, sups, s, sups[s].(queue := queue));
    }
  }

  lemma EnqueueKeepsInv(st: Sys, i: nat, s: nat)
    requires Inv(st) && i < |st.ops| && s < |st.sups| && st.ops[i].pc == Send(s) && !st.sups[s].pc.Done?
    requires |st.sups[s].queue| < CHANNEL_CAPACITY
    ensures Inv(StepSend(st, i, s).value)
  {
    var st' := StepSend(st, i, s).value;
    var u, u', c := st.sups[s], st'.sups[s], Cmd(st.ops[i].kind, i);
    assert OpOk(st.row, st.sups, st.ops[i], i);
    forall t | 0 <= t < |st'.sups| ensures Mailbox(st'.ops, st'.sups[t], t) {
      if t == s {
        EnqueuedMailbox(st.ops, i, st'.ops[i], u, s);
      } else {
        MailboxIgnores(st.ops, i, st'.ops[i], st.sups[t], t);
      }
    }
    assert c in u'.queue by { assert u'.queue[|u.queue|] == c; }
    forall j | 0 <= j < |st'.ops| ensures OpOk(st'.row, st'.sups, st'.ops[j], j) {
      if j != i {
        OpUnderLongerQueue(st.row, st.sups, s, u', st.ops[j], j);
      }
    }
    EnqueuedOwnership(st.row, st.sups, s, u'.queue);
    WitnessMoved(st, st', i);
  }

  lemma OpUnderLongerQueue(row: Option<Proc>, sups: seq<Sup>, s: nat, u': Sup, o: Op, j: nat)
    requires s < |sups| && OpOk(row, sups, o, j)
    requires u' == sups[s].(queue := u'.queue) && forall c :: c in sups[s].queue ==> c in u'.queue
    ensures OpOk(row, sups[s := u'], o, j)
  {
  }

  lemma WitnessMoved(st: Sys, st': Sys, i: nat)
    requires Witnessed(st.row, st.sups, st.ops) && st'.row == st.row && i < |st.ops|
    requires |st'.sups| == |st.sups| && forall s :: 0 <= s < |st.sups| ==> st'.sups[s].pc == st.sups[s].pc
    requires |st'.ops| >= |st.ops| && forall j :: 0 <= j < |st.ops| && j != i ==> st'.ops[j] == st.ops[j]
    requires Marking(st.ops[i]) ==> Marking(st'.ops[i])
    ensures Witnessed(st'.row, st'.sups, st'.ops)
  {
    if st.row.Some? && st.row.value.status == Stopping && Abandoned(st'.sups) {
      var j :| 0 <= j < |st.ops| && Marking(st.ops[j]);
      assert Marking(st'.ops[j]);
    }
  }

  lemma SendKeepsInv(st: Sys, i: nat, s: nat)
    requires Inv(st) && i < |st.ops| && s < |st.sups| && st.ops[i].pc == Send(s) && StepSend(st, i, s).Some?
    ensures Inv(StepSend(st, i, s).value)
  {
    assert OpOk(st.row, st.sups, st.ops[i], i);
    if st.sups[s].pc.Done? {
      OpMoves(st, i, st.ops[i].(pc := AfterLoss(st.ops[i].kind)), st.row);
    } else {
      EnqueueKeepsInv(st, i, s);
    }
  }

  lemma WaitKeepsInv(st: Sys, i: nat, s: nat)
    requires Inv(st) && i < |st.ops| && st.ops[i].pc == Wait(s) && StepWait(st, i, s).Some?
    ensures Inv(StepWait(st, i, s).value)
  {
    assert OpOk(st.row, st.sups, st.ops[i], i);
    OpMoves(st, i, StepWait(st, i, s).value.ops[i], st.row);
  }

  /** The row takes a fresh supervisor only after the last one gave its channel up. */
  lemma SpawnOwnership(p: Proc, sups: seq<Sup>, starter: nat)
    requires Ownership(Some(p), sups) && p.cmdTx.None?
    ensures Ownership(Some(Supervise(p, |sups|)), sups + [NewSup(starter)])
  {
    ChannelIsNewest(Some(p), sups);
    var sups' := sups + [NewSup(starter)];
    forall t | 0 <= t < |sups| ensures Retired(Some(Supervise(p, |sups|)), sups'[t]) {
      assert t < |sups| - 1 ==> Retired(Some(p), sups[t]);
    }
  }

  lemma SpawnedOpOk(p: Proc, sups: seq<Sup>, o: Op, i: nat)
    requires Ownership(Some(p), sups) && p.cmdTx.None? && o.pc.LaunchSpawn? && OpOk(Some(p), sups, o, i)
    ensures OpOk(Some(Supervise(p, |sups|)), sups + [NewSup(i)], o.(pc := LaunchWait(|sups|), ack := Pending), i)
  {
  }

  /** A fresh supervisor starts with an empty channel and owes one acknowledgement. */
  lemma SpawnKeepsInv(st: Sys, i: nat)
    requires Inv(st) && i < |st.ops| && st.ops[i].pc.LaunchSpawn?
    requires st.row.Some? && st.row.value.cmdTx.None?
    ensures Inv(StepLaunch(st, i))
  {
    var st' := StepLaunch(st, i);
    assert OpOk(st.row, st.sups, st.ops[i], i);
    SpawnOwnership(st.row.value, st.sups, i);
    SpawnedOpOk(st.row.value, st.sups, st.ops[i], i);
    forall t | 0 <= t < |st'.sups| ensures Mailbox(st'.ops, st'.sups[t], t) {
      if t < |st.sups| {
        MailboxIgnores(st.ops, i, st'.ops[i], st.sups[t], t);
      }
    }
    forall j | 0 <= j < |st'.ops| ensures OpOk(st'.row, st'.sups, st'.ops[j], j) {
      if j != i {
        OpUnderMoreSups(st.row, st'.row, st.sups, NewSup(i), st.ops[j], j);
      }
    }
  }

  lemma OpUnderMoreSups(row: Option<Proc>, row': Option<Proc>, sups: seq<Sup>, u: Sup, o: Op, j: nat)
    requires OpOk(row, sups, o, j) && (row.None? ==> row'.None?)
    ensures OpOk(row', sups + [u], o, j)
  {
  }

  lemma LaunchCheckedOk(st: Sys, i: nat)
    requires Ownership(st.row, st.sups) && i < |st.ops| && OpOk(st.row, st.sups, st.ops[i], i)
    requires st.ops[i].pc.LaunchCheck? || st.ops[i].pc.LaunchSpawn?
    requires st.row.None? || st.row.value.cmdTx.Some? || st.ops[i].pc.LaunchCheck?
    ensures OpOk(st.row, st.sups, StepLaunch(st, i).ops[i], i)
    ensures StepLaunch(st, i) == st.(ops := st.ops[i := StepLaunch(st, i).ops[i]])
  {
    if st.row.Some? {
      ChannelIsNewest(st.row, st.sups);
    }
  }

  lemma LaunchKeepsInv(st: Sys, i: nat)
    requires Inv(st) && i < |st.ops| && (st.ops[i].pc.LaunchCheck? || st.ops[i].pc.LaunchSpawn?)
    ensures Inv(StepLaunch(st, i))
  {
    assert OpOk(st.row, st.sups, st.ops[i], i);
    if st.row.Some? && st.row.value.cmdTx.None? && st.ops[i].pc.LaunchSpawn? {
      SpawnKeepsInv(st, i);
    } else {
      LaunchCheckedOk(st, i);
      OpMoves(st, i, StepLaunch(st, i).ops[i], st.row);
    }
  }

  lemma LaunchWaitKeepsInv(st: Sys, i: nat, s: nat)
    requires Inv(st) && i < |st.ops| && st.ops[i].pc == LaunchWait(s) && StepLaunchWait(st, i, s).Some?
    ensures Inv(StepLaunchWait(st, i, s).value)
  {
    assert OpOk(st.row, st.sups, st.ops[i], i);
    OpMoves(st, i, StepLaunchWait(st, i, s).value.ops[i], st.row);
  }

  lemma RemoveKeepsInv(st: Sys, i: nat, now: int)
    requires Inv(st) && i < |st.ops| && st.ops[i].pc.Remove?
    ensures Inv(StepOp(st, i, now).value)
  {
    assert OpOk(st.row, st.sups, st.ops[i], i);
    RowRemoved(st.row, st.sups);
    OpMoves(st, i, st.ops[i].(pc := Returned(Removed)), None);
  }

  lemma NormaliseKeepsInv(st: Sys, i: nat, now: int)
    requires Inv(st) && i < |st.ops| && st.ops[i].pc.Normalise?
    ensures Inv(StepOp(st, i, now).value)
  {
    var st' := StepOp(st, i, now).value;
    assert OpOk(st.row, st.sups, st.ops[i], i);
    if st.row.Some? {
      RowTouched(st.row, st'.row, st.sups);
    }
    OpMoves(st, i, st.ops[i].(pc := Returned(StopDone)), st'.row);
  }

  lemma ColdKeepsInv(st: Sys, i: nat, now: int)
    requires Inv(st) && i < |st.ops| && st.ops[i].pc.Cold?
    ensures Inv(StepOp(st, i, now).value)
  {
    var st' := StepOp(st, i, now).value;
    assert OpOk(st.row, st.sups, st.ops[i], i);
    if st.row.Some? {
      RowTouched(st.row, st'.row, st.sups);
    }
    OpMoves(st, i, st.ops[i].(pc := LaunchCheck), st'.row);
  }

  lemma OpStepKeepsInv(st: Sys, i: nat, now: int)
    requires Inv(st) && StepOp(st, i, now).Some?
    ensures Inv(StepOp(st, i, now).value)
  {
    match st.ops[i].pc
    case Start => StartKeepsInv(st, i);
    case Mark(s) => MarkKeepsInv(st, i, s);
    case Send(s) => SendKeepsInv(st, i, s);
    case Wait(s) => WaitKeepsInv(st, i, s);
    case LaunchCheck => LaunchKeepsInv(st, i);
    case LaunchSpawn => LaunchKeepsInv(st, i);
    case LaunchWait(s) => LaunchWaitKeepsInv(st, i, s);
    case Normalise => NormaliseKeepsInv(st, i, now);
    case Cold => ColdKeepsInv(st, i, now);
    case Remove => RemoveKeepsInv(st, i, now);
  }

  /** What an operation's step leaves alone: every task but for its queue, every other operation, and a row
      that is gone; it creates at most one task. */
  predicate LeavesTasks(st: Sys, i: nat, st': Sys)
    requires i < |st.ops|
  {
    && |st.sups| <= |st'.sups| <= |st.sups| + 1
    && (forall s :: 0 <= s < |st.sups| ==> st'.sups[s] == st.sups[s].(queue := st'.sups[s].queue))
    && (|st'.sups| > |st.sups| ==>
          && st.ops[i].pc.LaunchSpawn? && st.row.Some? && st.row.value.cmdTx.None?
          && st'.sups[|st.sups|] == NewSup(i))
    && |st'.ops| == |st.ops| && st'.ops[i].kind == st.ops[i].kind
    && (forall j :: 0 <= j < |st.ops| && j != i ==> st'.ops[j] == st.ops[j])
    && (st.row.None? ==> st'.row.None?)
  }

  lemma LaunchLeavesTasks(st: Sys, i: nat)
    requires i < |st.ops| && (st.ops[i].pc.LaunchCheck? || st.ops[i].pc.LaunchSpawn?)
    ensures LeavesTasks(st, i, StepLaunch(st, i))
  {
  }

  lemma SendLeavesTasks(st: Sys, i: nat, s: nat)
    requires i < |st.ops| && s < |st.sups| && StepSend(st, i, s).Some?
    ensures LeavesTasks(st, i, StepSend(st, i, s).value)
  {
  }

  lemma StartLeavesTasks(st: Sys, i: nat)
    requires i < |st.ops|
    ensures LeavesTasks(st, i, StepStart(st, i))
  {
  }

  lemma OpStepLeaves(st: Sys, i: nat, now: int)
    requires StepOp(st, i, now).Some?
    ensures LeavesTasks(st, i, StepOp(st, i, now).value)
  {
    match st.ops[i].pc
    case Start => StartLeavesTasks(st, i);
    case Send(s) => SendLeavesTasks(st, i, s);
    case LaunchCheck => LaunchLeavesTasks(st, i);
    case LaunchSpawn => LaunchLeavesTasks(st, i);
    case _ =>
  }

  lemma OpStepLeavesTasks(st: Sys, i: nat, now: int)
    requires StepOp(st, i, now).Some?
    ensures var st' := StepOp(st, i, now).value;
      && |st.sups| <= |st'.sups| <= |st.sups| + 1
      && (forall s :: 0 <= s < |st.sups| ==> st'.sups[s] == st.sups[s].(queue := st'.sups[s].queue))
      && (|st'.sups| > |st.sups| ==>
            && st.ops[i].pc.LaunchSpawn? && st.row.Some? && st.row.value.cmdTx.None?
            && st'.sups[|st.sups|] == NewSup(i))
      && |st'.ops| == |st.ops| && st'.ops[i].kind == st.ops[i].kind
      && (forall j :: 0 <= j < |st.ops| && j != i ==> st'.ops[j] == st.ops[j])
      && (st.row.None? ==> st'.row.None?)
  {
    OpStepLeaves(st, i, now);
  }

  lemma BeginKeepsInv(st: Sys, kind: OpKind)
    requires Inv(st)
    ensures Inv(st.(ops := st.ops + [NewOp(kind)]))
  {
    var st' := st.(ops := st.ops + [NewOp(kind)]);
    if st.row.Some? && st.row.value.status == Stopping && Abandoned(st.sups) {
      var j :| 0 <= j < |st.ops| && Marking(st.ops[j]);
      assert Marking(st'.ops[j]);
    }
  }

  lemma CounterStepKeepsInv(st: Sys, row': Option<Proc>)
    requires Inv(st) && st.row.Some? && row'.Some?
    requires row'.value.cmdTx == st.row.value.cmdTx && row'.value.pid == st.row.value.pid
    requires row'.value.status == st.row.value.status
    ensures Inv(st.(row := row'))
  {
    RowTouched(st.row, row', st.sups);
    forall j | 0 <= j < |st.ops| ensures OpOk(row', st.sups, st.ops[j], j) {
      OpUnderRow(st.row, row', st.sups, st.ops[j], j);
    }
  }

  lemma NextKeepsInv(st: Sys, step: Step)
    requires Inv(st) && Next(st, step).Some?
    ensures Inv(Next(st, step).value)
  {
    match step
    case Begin(kind) => BeginKeepsInv(st, kind);
    case OpStep(i, now) => OpStepKeepsInv(st, i, now);
    case SupStep(s, ev) => SupStepKeepsInv(st, s, ev);
    case ResetCounters(_) =>
      if st.row.Some? { CounterStepKeepsInv(st, Next(st, step).value.row); }
    case WorkerTick(_) =>
      if st.row.Some? { CounterStepKeepsInv(st, Next(st, step).value.row); }
  }

  lemma {:induction false} RunKeepsInv(st: Sys, steps: seq<Step>)
    requires Inv(st) && Run(st, steps).Some?
    ensures Inv(Run(st, steps).value)
    decreases |steps|
  {
    if steps != [] {
      NextKeepsInv(st, steps[0]);
      RunKeepsInv(Next(st, steps[0]).value, steps[1..]);
    }
  }

  lemma InitInv(config: AppConfig, pmId: nat, instance: nat, now: int)
    ensures Inv(Init(config, pmId, instance, now))
  {
  }

  /** Every reachable state satisfies the invariant. */
  lemma ReachableInv(st: Sys)
    requires Reachable(st)
    ensures Inv(st)
  {
    var config, pmId: nat, instance: nat, now: int, steps :|
      Run(Init(config, pmId, instance, now), steps) == Some(st);
    InitInv(config, pmId, instance, now);
    RunKeepsInv(Init(config, pmId, instance, now), steps);
  }

  lemma {:induction false} RunThenStep(st: Sys, steps: seq<Step>, step: Step)
    requires Run(st, steps).Some?
    ensures Run(st, steps + [step]) == Next(Run(st, steps).value, step)
    decreases |steps|
  {
    if steps == [] {
      assert [] + [step] == [step];
      assert [step][1..] == [];
    } else {
      assert (steps + [step])[1..] == steps[1..] + [step];
      RunThenStep(Next(st, steps[0]).value, steps[1..], step);
    }
  }

  lemma ReachableStep(st: Sys, step: Step)
    requires Reachable(st) && Next(st, step).Some?
    ensures Reachable(Next(st, step).value)
  {
    var config, pmId: nat, instance: nat, now: int, steps :|
      Run(Init(config, pmId, instance, now), steps) == Some(st);
    RunThenStep(Init(config, pmId, instance, now), steps, step);
    assert Run(Init(config, pmId, instance, now), steps + [step]) == Next(st, step);
  }

  /** A run from a reachable state ends in a reachable state. */
  lemma {:induction false} ReachableRun(st: Sys, steps: seq<Step>)
    requires Reachable(st) && Run(st, steps).Some?
    ensures Reachable(Run(st, steps).value)
    decreases |steps|
  {
    if steps != [] {
      ReachableStep(st, steps[0]);
      ReachableRun(Next(st, steps[0]).value, steps[1..]);
    }
  }
}
