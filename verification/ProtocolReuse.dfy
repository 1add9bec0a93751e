/** Why the protocol's guarantees speak of one row, inserted once, and when an id may be used again. The id
    counter restarts when the table empties, so an id can be handed out while a supervisor of the removed
    row still runs, and tasks and operations address rows by id only. A new row under the id is safe from
    them exactly when every supervisor has given its channel up and every operation is past its last write. */
module ProtocolReuse {
  import opened Domain
  import opened Protocol
  import opened ProtocolInvariant
  import opened ProtocolSteps
  import opened ProtocolRuns

  /** A delete that found no channel is about to remove the row; meanwhile a launch claimed it. */
  function Claimed(config: AppConfig): Sys {
    Sys(Some(NewProc(0, 0, config, 0).(status := Launching, cmdTx := Some(0))), [NewSup(1)],
        [Op(DeleteOp, Remove, Pending, None, 0), Op(LaunchOp, LaunchWait(0), Pending, None, 0)], false)
  }

  /** The row is gone; its supervisor has just spawned a child. */
  function OrphanSpawned(config: AppConfig): Sys {
    Claimed(config).(row := None,
                     sups := [NewSup(1).(pc := Spawned, child := Some(100), spawns := 1, orphanSpawns := 0)],
                     ops := Claimed(config).ops[0 := Op(DeleteOp, Returned(Removed), Pending, None, 0)])
  }

  lemma ClaimedBeforeRemoval(config: AppConfig)
    ensures Reachable(Claimed(config))
  {
    var st := Init(config, 0, 0, 0);
    assert Run(st, []) == Some(st);
    st := Take(st, Begin(DeleteOp));
    st := Take(st, OpStep(0, 0));
    st := Take(st, Begin(LaunchOp));
    st := Take(st, OpStep(1, 0));
    st := Take(st, OpStep(1, 0));
    assert st == Claimed(config);
  }

  lemma OrphanIsReachable(config: AppConfig)
    ensures Reachable(OrphanSpawned(config))
  {
    ClaimedBeforeRemoval(config);
    var st := Claimed(config);
    st := Take(st, SupStep(0, Go(0)));
    st := Take(st, SupStep(0, SpawnOk(100)));
    st := Take(st, OpStep(0, 0));
    assert st == OrphanSpawned(config);
  }

  /** Inserting a new row under the same id at that moment breaks the table invariant: the orphan marks
      the new row online with its own pid, and the row has no supervisor. */
  lemma ReuseUnderAnOrphanBreaksTheTable(config: AppConfig)
    ensures Reachable(OrphanSpawned(config)) && OrphanSpawned(config).row.None?
    ensures var reused := OrphanSpawned(config).(row := Some(NewProc(0, 0, config, 0)));
      var after := Next(reused, SupStep(0, Go(0)));
      && after.Some? && after.value.row.Some?
      && after.value.row.value.status == Online
      && after.value.row.value.pid == 100
      && after.value.row.value.cmdTx.None?
  {
    OrphanIsReachable(config);
  }

  // ----- which positions write a new row at their next step

  /** Supervisor positions whose next step writes the row, whosever it is by now. */
  predicate Writes(pc: SupPc) {
    || pc.FailDead? || pc.FailClear? || pc.Spawned? || pc.Reaped? || pc.ExitDead? || pc.ExitClear?
    || pc.OverMark? || pc.OverClear? || pc.Scheduling? || pc.BackoffCmd? || pc.KillMark? || pc.Killed?
    || pc.CmdClear?
  }

  /** A row inserted later: its channel, if it has one, is that of a supervisor created since. */
  predicate NewRow(p: Proc, sups: nat) {
    p.cmdTx.Some? ==> p.cmdTx.value >= sups
  }

  /** A new row that came online under supervisor `channel`: every such step shows on it. */
  function Occupied(channel: nat): Proc {
    var config := AppConfig("", 1, true, true, [], 0, 0, 0, 0, true, "");
    NewProc(0, 0, config, 0).(status := Online, pid := 1, uptimeMs := Some(0), cmdTx := Some(channel))
  }

  lemma WritingShows(u: Sup, channel: nat)
    requires Writes(u.pc)
    ensures SupAfter(Some(Occupied(channel)), u, Go(1)).Some?
    ensures RowAfter(Some(Occupied(channel)), u, Go(1)) != Some(Occupied(channel))
  {
  }

  predicate SupStepWrites(u: Sup, p: Proc, ev: SupEvent) {
    SupAfter(Some(p), u, ev).Some? && RowAfter(Some(p), u, ev) != Some(p)
  }

  lemma SupStepWritesIff(u: Sup, sups: nat)
    ensures (exists p, ev :: NewRow(p, sups) && SupStepWrites(u, p, ev)) <==> Writes(u.pc)
  {
    if Writes(u.pc) {
      WritingShows(u, sups);
      assert NewRow(Occupied(sups), sups) && SupStepWrites(u, Occupied(sups), Go(1));
    }
  }

  /** Operations whose next section writes the row it finds. */
  predicate OpWrites(o: Op) {
    || (o.pc.Start? && (o.kind == StopOp || o.kind == DeleteOp))
    || o.pc.Mark? || o.pc.Normalise? || o.pc.Cold? || o.pc.Remove? || o.pc.LaunchSpawn?
  }

  /** A new row that is idle again, with a stop about to normalise it. */
  function Idle(): Proc {
    Occupied(0).(status := Stopping, pid := 0, cmdTx := None)
  }

  predicate OpStepWrites(st: Sys, i: nat, p: Proc, now: int) {
    StepOp(st.(row := Some(p)), i, now).Some? && StepOp(st.(row := Some(p)), i, now).value.row != Some(p)
  }

  lemma OpStepWritesIff(st: Sys, i: nat)
    requires i < |st.ops|
    ensures (exists p, now :: NewRow(p, |st.sups|) && OpStepWrites(st, i, p, now)) <==> OpWrites(st.ops[i])
  {
    if OpWrites(st.ops[i]) {
      var idle := st.ops[i].pc.Normalise? || st.ops[i].pc.LaunchSpawn?;
      var p := if idle then Idle() else Occupied(|st.sups|);
      assert NewRow(p, |st.sups|) && OpStepWrites(st, i, p, 0);
    }
  }

  // ----- which histories can write a new row at all

  predicate OldStep(step: Step) {
    step.SupStep? || step.OpStep?
  }

  predicate OldSteps(steps: seq<Step>) {
    forall k :: 0 <= k < |steps| ==> OldStep(steps[k])
  }

  ghost predicate ChangesBy(st: Sys, steps: seq<Step>) {
    OldSteps(steps) && Run(st, steps).Some? && Run(st, steps).value.row != st.row
  }

  /** Some run of the tasks and operations at hand, and of no new ones, changes the row. */
  ghost predicate CanChange(st: Sys) {
    exists steps :: ChangesBy(st, steps)
  }

  /** The operation returns without writing the row any more. */
  predicate OpInert(st: Sys, i: nat)
    requires i < |st.ops|
  {
    var o := st.ops[i];
    match o.pc
    case Returned(_) => true
    case LaunchWait(_) => true
    case Wait(s) =>
      && o.kind != StopOp
      && (|| o.ack.Acked?
          || (o.ack.Pending? && s < |st.sups| && PastClear(st.sups[s].pc) && Hand(st.sups[s].pc) == Some(Cmd(o.kind, i))))
    case _ => false
  }

  /** Every supervisor has given its channel up, and every operation is past its last write. */
  predicate Harmless(st: Sys) {
    && (forall s :: 0 <= s < |st.sups| ==> PastClear(st.sups[s].pc))
    && forall i :: 0 <= i < |st.ops| ==> OpInert(st, i)
  }

  ghost predicate Mailboxes(st: Sys) {
    forall s :: 0 <= s < |st.sups| ==> Mailbox(st.ops, st.sups[s], s)
  }

  lemma HarmlessSupStep(st: Sys, s: nat, ev: SupEvent)
    requires Harmless(st) && Mailboxes(st) && st.row.Some? && StepSup(st, s, ev).Some?
    ensures var st' := StepSup(st, s, ev).value; Harmless(st') && Mailboxes(st') && st'.row == st.row
  {
    var u, st' := st.sups[s], StepSup(st, s, ev).value;
    StepShape(st.row, u, ev);
    SettlingTouchesOwnWaiters(st.ops, u, s);
    OwnMailboxKept(st.ops, u, s, st'.sups[s]);
    forall t | 0 <= t < |st.sups| && t != s ensures Mailbox(st'.ops, st.sups[t], t) {
      OtherMailboxKept(st.ops, u, s, st.sups[t], t);
    }
    forall i | 0 <= i < |st.ops| ensures OpInert(st', i) {
      InertUnderSupStep(st, s, ev, i);
    }
  }

  lemma InertUnderSupStep(st: Sys, s: nat, ev: SupEvent, i: nat)
    requires s < |st.sups| && PastClear(st.sups[s].pc) && Mailbox(st.ops, st.sups[s], s)
    requires StepSup(st, s, ev).Some? && i < |st.ops| && OpInert(st, i)
    ensures i < |StepSup(st, s, ev).value.ops| && OpInert(StepSup(st, s, ev).value, i)
  {
    SettlingTouchesOwnWaiters(st.ops, st.sups[s], s);
  }

  lemma HarmlessOpStep(st: Sys, i: nat, now: int)
    requires Harmless(st) && Mailboxes(st) && StepOp(st, i, now).Some?
    ensures var st' := StepOp(st, i, now).value; Harmless(st') && Mailboxes(st') && st'.row == st.row
  {
    assert OpInert(st, i);
    var st' := StepOp(st, i, now).value;
    forall s | 0 <= s < |st.sups| ensures Mailbox(st'.ops, st.sups[s], s) {
      MailboxIgnores(st.ops, i, st'.ops[i], st.sups[s], s);
    }
    forall j | 0 <= j < |st.ops| ensures OpInert(st', j) {
      assert OpInert(st, j);
    }
  }

  lemma {:induction false} HarmlessRun(st: Sys, steps: seq<Step>)
    requires Harmless(st) && Mailboxes(st) && st.row.Some? && OldSteps(steps) && Run(st, steps).Some?
    ensures Run(st, steps).value.row == st.row
    decreases |steps|
  {
    if steps != [] {
      assert OldStep(steps[0]);
      match steps[0] {
        case SupStep(s, ev) => HarmlessSupStep(st, s, ev);
        case OpStep(i, now) => HarmlessOpStep(st, i, now);
        case _ =>
      }
      HarmlessRun(Next(st, steps[0]).value, steps[1..]);
    }
  }

  // ----- and those can

  lemma ChangesAfter(st: Sys, steps: seq<Step>)
    requires OldSteps(steps) && Run(st, steps).Some? && Run(st, steps).value.row == st.row
    requires CanChange(Run(st, steps).value)
    ensures CanChange(st)
  {
    var rest :| ChangesBy(Run(st, steps).value, rest);
    RunConcat(st, steps, rest);
    assert ChangesBy(st, steps + rest);
  }

  lemma RunOne(st: Sys, step: Step)
    requires Next(st, step).Some?
    ensures Run(st, [step]) == Next(st, step)
  {
    RunCons(st, step, []);
    assert [step] + [] == [step];
  }

  lemma ChangesNow(st: Sys, step: Step)
    requires OldStep(step) && Next(st, step).Some? && Next(st, step).value.row != st.row
    ensures CanChange(st)
  {
    RunOne(st, step);
    assert ChangesBy(st, [step]);
  }

  lemma ChangesNext(st: Sys, step: Step)
    requires OldStep(step) && Next(st, step).Some? && Next(st, step).value.row == st.row
    requires CanChange(Next(st, step).value)
    ensures CanChange(st)
  {
    RunOne(st, step);
    ChangesAfter(st, [step]);
  }

  /** How many steps a supervisor is at most away from writing the row. */
  function Distance(pc: SupPc): nat {
    match pc
    case CmdAck(_) => 3
    case Backoff(_) => 3
    case Head => 2
    case FirstAck => 2
    case _ => 1
  }

  /** An event that brings it nearer. */
  function Nearer(pc: SupPc): SupEvent {
    match pc
    case Spawning => SpawnErr
    case Running => Exit(None)
    case Killing(_) => Exit(None)
    case Backoff(_) => Timer
    case _ => Go(0)
  }

  lemma NearerStep(row: Option<Proc>, u: Sup)
    requires row.Some? && !PastClear(u.pc) && !Writes(u.pc)
    ensures var u' := SupAfter(row, u, Nearer(u.pc));
      && u'.Some? && RowAfter(row, u, Nearer(u.pc)) == row
      && !PastClear(u'.value.pc) && (Writes(u'.value.pc) || Distance(u'.value.pc) < Distance(u.pc))
  {
  }

  lemma {:induction false} TaskCanChange(st: Sys, s: nat, channel: nat)
    requires s < |st.sups| && !PastClear(st.sups[s].pc) && st.row == Some(Occupied(channel))
    ensures CanChange(st)
    decreases if Writes(st.sups[s].pc) then 0 else Distance(st.sups[s].pc)
  {
    var u := st.sups[s];
    if Writes(u.pc) {
      WritingShows(u, channel);
      ChangesNow(st, SupStep(s, Go(1)));
    } else {
      var step := SupStep(s, Nearer(u.pc));
      NearerStep(st.row, u);
      TaskCanChange(Next(st, step).value, s, channel);
      ChangesNext(st, step);
    }
  }

  lemma LaunchCanChange(st: Sys, i: nat)
    requires i < |st.ops| && st.row == Some(Idle())
    requires st.ops[i].pc.LaunchCheck? || st.ops[i].pc.LaunchSpawn?
    ensures CanChange(st)
  {
    var step := OpStep(i, 0);
    if st.ops[i].pc.LaunchCheck? {
      ChangesNow(Next(st, step).value, step);
      ChangesNext(st, step);
    } else {
      ChangesNow(st, step);
    }
  }

  /** Operations that have lost their supervisor, or never needed one. */
  lemma BereftCanChange(st: Sys, i: nat)
    requires i < |st.ops| && st.row == Some(Idle())
    requires var pc := st.ops[i].pc;
      pc.Start? || pc.Normalise? || pc.Cold? || pc.Remove? || pc.LaunchCheck? || pc.LaunchSpawn?
    ensures CanChange(st)
  {
    var step, o := OpStep(i, 0), st.ops[i];
    if o.pc.LaunchCheck? || o.pc.LaunchSpawn? {
      LaunchCanChange(st, i);
    } else if o.pc.Start? && o.kind != StopOp {
      ChangesNow(Next(st, step).value, step);
      ChangesNext(st, step);
    } else {
      ChangesNow(st, step);
    }
  }

  /** Operations at a supervisor that is done, or whose answer is there. */
  lemma AnsweredCanChange(st: Sys, i: nat, s: nat)
    requires i < |st.ops| && s < |st.sups| && st.row == Some(Idle())
    requires (st.ops[i].pc == Send(s) && st.sups[s].pc.Done?)
          || (st.ops[i].pc == Wait(s) && (st.ops[i].ack.Dropped? || (st.ops[i].ack.Acked? && st.ops[i].kind == StopOp)))
    ensures CanChange(st)
  {
    BereftCanChange(Next(st, OpStep(i, 0)).value, i);
    ChangesNext(st, OpStep(i, 0));
  }

  lemma SendCanChange(st: Sys, i: nat, s: nat)
    requires i < |st.ops| && s < |st.sups| && PastClear(st.sups[s].pc) && st.row == Some(Idle())
    requires st.ops[i].pc == Send(s)
    ensures CanChange(st)
  {
    var steps := FinishRetired(st, s);
    AnsweredCanChange(Run(st, steps).value, i, s);
    ChangesAfter(st, steps);
  }

  lemma MarkCanChange(st: Sys, i: nat, s: nat)
    requires i < |st.ops| && s < |st.sups| && PastClear(st.sups[s].pc) && st.row == Some(Idle())
    requires st.ops[i].pc == Mark(s)
    ensures CanChange(st)
  {
    SendCanChange(Next(st, OpStep(i, 0)).value, i, s);
    ChangesNext(st, OpStep(i, 0));
  }

  lemma WaitCanChange(st: Sys, i: nat, s: nat)
    requires i < |st.ops| && s < |st.sups| && PastClear(st.sups[s].pc) && st.row == Some(Idle())
    requires st.ops[i].pc == Wait(s) && !OpInert(st, i) && Mailbox(st.ops, st.sups[s], s)
    requires st.ops[i].ack.Pending? ==> Carries(st.sups[s], Cmd(st.ops[i].kind, i))
    ensures CanChange(st)
  {
    var c, queue := Cmd(st.ops[i].kind, i), st.sups[s].queue;
    if !st.ops[i].ack.Pending? {
      AnsweredCanChange(st, i, s);
    } else if c in queue {
      var k :| 0 <= k < |queue| && queue[k] == c;
      assert Mentions(queue, i);
      var steps := FinishRetired(st, s);
      AnsweredCanChange(Run(st, steps).value, i, s);
      ChangesAfter(st, steps);
    } else {
      RetiredStep(st, s);
      AnsweredCanChange(Next(st, SupStep(s, Go(0))).value, i, s);
      ChangesNext(st, SupStep(s, Go(0)));
    }
  }

  lemma OpCanChange(st: Sys, i: nat)
    requires Inv(st) && i < |st.ops| && !OpInert(st, i)
    requires forall s :: 0 <= s < |st.sups| ==> PastClear(st.sups[s].pc)
    ensures CanChange(st.(row := Some(Idle())))
  {
    assert OpOk(st.row, st.sups, st.ops[i], i);
    var idle := st.(row := Some(Idle()));
    match st.ops[i].pc
    case Mark(s) => MarkCanChange(idle, i, s);
    case Send(s) => SendCanChange(idle, i, s);
    case Wait(s) =>
      assert Mailbox(st.ops, st.sups[s], s);
      WaitCanChange(idle, i, s);
    case _ => BereftCanChange(idle, i);
  }

  /** The old tasks and operations of a row can change a new row under its id, whose channel is newer than
      all of them, if and only if some supervisor still holds on or some operation still has a write to
      come. */
  lemma ReuseIsSafeIffHarmless(st: Sys)
    requires Reachable(st)
    ensures (exists p :: NewRow(p, |st.sups|) && CanChange(st.(row := Some(p)))) <==> !Harmless(st)
  {
    ReachableInv(st);
    if Harmless(st) {
      forall p, steps | ChangesBy(st.(row := Some(p)), steps) ensures false {
        assert Harmless(st.(row := Some(p))) && Mailboxes(st.(row := Some(p))) by {
          assert forall i :: 0 <= i < |st.ops| ==> OpInert(st, i) == OpInert(st.(row := Some(p)), i);
        }
        HarmlessRun(st.(row := Some(p)), steps);
      }
    } else if s :| 0 <= s < |st.sups| && !PastClear(st.sups[s].pc) {
      var p := Occupied(|st.sups|);
      TaskCanChange(st.(row := Some(p)), s, |st.sups|);
      assert NewRow(p, |st.sups|) && CanChange(st.(row := Some(p)));
    } else {
      var i :| 0 <= i < |st.ops| && !OpInert(st, i);
      OpCanChange(st, i);
      assert NewRow(Idle(), |st.sups|) && CanChange(st.(row := Some(Idle())));
    }
  }
}
