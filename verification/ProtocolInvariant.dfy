/** The inductive invariant of the race protocol, and its preservation by every step. */
module ProtocolInvariant {
  import opened Domain
  import opened Protocol

  // ----- the row and the newest supervisor

  predicate HoldsChild(pc: SupPc) {
    pc.Spawned? || pc.FirstAck? || pc.Running? || pc.KillMark? || pc.Killing?
  }

  /** The task has given up the row's channel: it cleared it, or the row is gone. */
  predicate PastClear(pc: SupPc) {
    pc.Ending? || pc.Done? || (pc.CmdAck? && pc.cmd.kind != RestartOp)
  }

  /** The row was marked dead and the channel is about to be cleared. */
  predicate DeadPhase(pc: SupPc) {
    pc.FailAck? || pc.FailClear? || pc.ExitClear? || pc.OverClear? || pc.CmdClear?
  }

  /** Where the first acknowledgement can still be unsent. */
  predicate Early(pc: SupPc) {
    pc.Head? || pc.Spawning? || pc.FailDead? || pc.FailAck? || pc.Spawned? || pc.FirstAck?
  }

  predicate FirstAckOk(row: Option<Proc>, u: Sup) {
    u.firstAck.Some? ==> Early(u.pc) || (u.pc.Ending? && row.None?)
  }

  predicate DownStatus(s: Status) {
    s == Stopped || s == Errored || s == Stopping
  }

  /** The row shows the child's pid exactly while the task tends a child it has announced. */
  predicate PidMatches(p: Proc, u: Sup) {
    if u.pc.FirstAck? || u.pc.Running? || u.pc.KillMark? || u.pc.Killing? then Some(p.pid) == u.child
    else u.pc.Reaped? || u.pc.Killed? || p.pid == 0
  }

  /** An existing row and the newest supervisor `u`, number `last`. */
  predicate Attached(p: Proc, u: Sup, last: nat) {
    && p.cmdTx == (if PastClear(u.pc) then None else Some(last))
    && (PastClear(u.pc) ==> u.child.None?)
    && (PastClear(u.pc) || DeadPhase(u.pc) ==> DownStatus(p.status))
    && PidMatches(p, u)
    && u.orphanSpawns == 0
    && !Deleted(u.pc)
  }

  /** The task has just removed the row. */
  predicate Deleted(pc: SupPc) {
    pc.CmdAck? && pc.cmd.kind == DeleteOp
  }

  /** The newest supervisor after the row was removed. */
  predicate Orphaned(u: Sup) {
    && u.orphanSpawns <= 1
    && (u.pc.Spawning? ==> u.orphanSpawns == 0)
  }

  predicate Coupled(row: Option<Proc>, u: Sup, last: nat) {
    && (HoldsChild(u.pc) ==> u.child.Some?)
    && (u.child.Some? ==> HoldsChild(u.pc) || u.pc.Ending?)
    && (u.child.Some? ==> u.child.value != 0)
    && FirstAckOk(row, u)
    && (if row.Some? then Attached(row.value, u, last) else Orphaned(u))
  }

  predicate Unsupervised(p: Proc) {
    p.cmdTx.None? && p.pid == 0 && DownStatus(p.status)
  }

  ghost predicate Ownership(row: Option<Proc>, sups: seq<Sup>) {
    && (|sups| == 0 ==> (row.Some? ==> Unsupervised(row.value)))
    && (|sups| > 0 ==> Coupled(row, sups[|sups| - 1], |sups| - 1))
    && forall s :: 0 <= s < |sups| - 1 ==> Retired(row, sups[s])
  }

  /** Every supervisor but the newest. */
  predicate Retired(row: Option<Proc>, u: Sup) {
    && PastClear(u.pc)
    && u.child.None?
    && u.orphanSpawns == 0
    && FirstAckOk(row, u)
    && (row.Some? ==> !Deleted(u.pc))
  }

  // ----- channels and acknowledgements

  function Hand(pc: SupPc): Option<Cmd> {
    if pc.BackoffCmd? || pc.KillMark? || pc.Killing? || pc.Killed? || pc.CmdClear? || pc.CmdAck?
    then Some(pc.cmd) else None
  }

  predicate Carries(u: Sup, c: Cmd) {
    c in u.queue || Hand(u.pc) == Some(c)
  }

  predicate Awaits(ops: seq<Op>, c: Cmd, s: nat) {
    && c.op < |ops|
    && ops[c.op].pc == Wait(s)
    && ops[c.op].ack == Pending
    && ops[c.op].kind == c.kind
    && c.kind != LaunchOp
  }

  /** Every command in the channel or in hand belongs to one operation that waits for it. */
  ghost predicate Mailbox(ops: seq<Op>, u: Sup, s: nat) {
    && (forall k :: 0 <= k < |u.queue| ==> Awaits(ops, u.queue[k], s))
    && (forall k, l :: 0 <= k < l < |u.queue| ==> u.queue[k].op != u.queue[l].op)
    && (Hand(u.pc).Some? ==>
          Awaits(ops, Hand(u.pc).value, s) && !Mentions(u.queue, Hand(u.pc).value.op))
    && (u.firstAck.Some? ==>
          && u.firstAck.value < |ops|
          && ops[u.firstAck.value].pc == LaunchWait(s)
          && ops[u.firstAck.value].ack == Pending)
    && TaskOk(u)
  }

  predicate TaskOk(u: Sup) {
    && (u.pc.CmdAck? && u.pc.cmd.kind == RestartOp ==> u.pc.cmd.op in u.served)
    && (u.pc.CmdClear? ==> u.pc.cmd.kind == StopOp)
    && (u.pc.Done? ==> u.queue == [] && u.firstAck.None?)
  }

  // ----- operations

  predicate DoneAt(sups: seq<Sup>, s: nat) {
    s < |sups| && sups[s].pc.Done?
  }

  predicate PastClearAt(sups: seq<Sup>, s: nat) {
    s < |sups| && PastClear(sups[s].pc)
  }

  predicate ServedAt(sups: seq<Sup>, s: nat, i: nat) {
    s < |sups| && i in sups[s].served
  }

  /** A restart that lost its supervisor, or found none: everything it knew about is finished. */
  predicate Bereft(sups: seq<Sup>, o: Op) {
    if o.tx.Some? then DoneAt(sups, o.tx.value)
    else o.seen <= |sups| && (o.seen > 0 ==> PastClearAt(sups, o.seen - 1))
  }

  /** Supervisor `s` was created after everything the operation knew about. */
  predicate Newer(sups: seq<Sup>, o: Op, s: nat) {
    s < |sups| && (if o.tx.Some? then o.tx.value < s else o.seen <= s)
  }

  predicate WaitOk(row: Option<Proc>, sups: seq<Sup>, o: Op, i: nat, s: nat) {
    s < |sups| &&
    match o.ack
    case Pending => Carries(sups[s], Cmd(o.kind, i))
    case Dropped => DoneAt(sups, s)
    case Acked(ok) =>
      && ok
      && (o.kind == StopOp ==> PastClearAt(sups, s))
      && (o.kind == RestartOp ==> ServedAt(sups, s, i))
      && (o.kind == DeleteOp ==> row.None?)
  }

  predicate LaunchWaitOk(row: Option<Proc>, sups: seq<Sup>, o: Op, i: nat, s: nat) {
    && Newer(sups, o, s)
    && sups[s].starter == i
    && (o.ack.Pending? ==> sups[s].firstAck == Some(i))
    && (o.ack.Dropped? ==> row.None?)
  }

  predicate ReturnedOk(row: Option<Proc>, sups: seq<Sup>, o: Op, i: nat) {
    && o.pc.Returned?
    && (o.kind == DeleteOp ==> row.None?)
    && match o.pc.out
       case RowGone => row.None?
       case Vanished => row.None?
       case DiedEarly(_) => row.None?
       case Removed => row.None? && o.kind == DeleteOp
       case NotRunning => o.kind == StopOp
       case StopDone => o.kind == StopOp
       case Executed(s) => o.kind == RestartOp && ServedAt(sups, s, i)
       case Started(s) => Newer(sups, o, s) && sups[s].starter == i
       case SpawnFailed(s) => Newer(sups, o, s) && sups[s].starter == i
       case Supervised(s) => Newer(sups, o, s)
  }

  predicate OpOk(row: Option<Proc>, sups: seq<Sup>, o: Op, i: nat) {
    match o.pc
    case Start => o.kind != LaunchOp && o.tx.None?
    case Mark(s) => o.kind == RestartOp && o.tx == Some(s) && s < |sups|
    case Send(s) => o.kind != LaunchOp && o.tx == Some(s) && s < |sups|
    case Wait(s) => o.kind != LaunchOp && o.tx == Some(s) && WaitOk(row, sups, o, i, s)
    case Normalise => o.kind == StopOp && o.tx.Some? && PastClearAt(sups, o.tx.value)
    case Cold => o.kind == RestartOp && Bereft(sups, o)
    case Remove => o.kind == DeleteOp && (o.tx.Some? ==> DoneAt(sups, o.tx.value))
    case LaunchCheck => (o.kind == RestartOp || o.kind == LaunchOp) && Bereft(sups, o)
    case LaunchSpawn => (o.kind == RestartOp || o.kind == LaunchOp) && Bereft(sups, o)
    case LaunchWait(s) => (o.kind == RestartOp || o.kind == LaunchOp) && LaunchWaitOk(row, sups, o, i, s)
    case Returned(_) => ReturnedOk(row, sups, o, i)
  }

  /** A stop or delete between its first section and its last. */
  predicate Marking(o: Op) {
    || (o.kind == StopOp && (o.pc.Send? || o.pc.Wait? || o.pc.Normalise?))
    || (o.kind == DeleteOp && (o.pc.Send? || o.pc.Wait? || o.pc.Remove?))
  }

  /** No supervisor is going to overwrite the row's status. */
  predicate Abandoned(sups: seq<Sup>) {
    |sups| == 0 || PastClear(sups[|sups| - 1].pc) || DeadPhase(sups[|sups| - 1].pc)
  }

  /** A row left at Stopping is still to be normalised or removed by an operation in flight. */
  ghost predicate Witnessed(row: Option<Proc>, sups: seq<Sup>, ops: seq<Op>) {
    row.Some? && row.value.status == Stopping && Abandoned(sups) ==>
      exists i :: 0 <= i < |ops| && Marking(ops[i])
  }

  ghost predicate Inv(st: Sys) {
    && Ownership(st.row, st.sups)
    && (forall s :: 0 <= s < |st.sups| ==> Mailbox(st.ops, st.sups[s], s))
    && (forall i :: 0 <= i < |st.ops| ==> OpOk(st.row, st.sups, st.ops[i], i))
    && Witnessed(st.row, st.sups, st.ops)
  }

  // ----- supervisor steps: the row and the task

  /** What a supervisor's step never undoes. */
  predicate Advances(u: Sup, u': Sup) {
    && (PastClear(u.pc) ==> PastClear(u'.pc))
    && (u.pc.Done? ==> u'.pc.Done?)
    && u.served <= u'.served
    && u.starter == u'.starter
  }

  lemma AttachedAfterExecute(p: Proc, u: Sup, last: nat, now: int)
    requires Coupled(Some(p), u, last) && (u.pc.Killed? || u.pc.BackoffCmd?)
    requires u.pc.cmd.kind != LaunchOp
    ensures Coupled(RowEffect(p, u, now), Going(Some(p), u, now).value, last)
  {
  }

  lemma AttachedAfterGo(p: Proc, u: Sup, last: nat, now: int)
    requires Coupled(Some(p), u, last) && Going(Some(p), u, now).Some?
    requires u.pc.CmdClear? ==> u.pc.cmd.kind == StopOp
    requires Hand(u.pc).Some? ==> Hand(u.pc).value.kind != LaunchOp
    ensures Coupled(RowEffect(p, u, now), Going(Some(p), u, now).value, last)
  {
    if u.pc.Killed? || u.pc.BackoffCmd? {
      AttachedAfterExecute(p, u, last, now);
    }
  }

  lemma OrphanAfterGo(u: Sup, last: nat, now: int)
    requires Coupled(None, u, last) && Going(None, u, now).Some?
    ensures Coupled(None, Going(None, u, now).value, last)
  {
  }

  lemma CoupledAfterEvent(row: Option<Proc>, u: Sup, last: nat, ev: SupEvent)
    requires Coupled(row, u, last) && SupAfter(row, u, ev).Some? && !ev.Go?
    requires ev.Closed? ==> row.None? || row.value.cmdTx != Some(last)
    ensures Coupled(row, SupAfter(row, u, ev).value, last)
  {
  }

  lemma NewestKeepsCoupling(row: Option<Proc>, u: Sup, last: nat, ev: SupEvent)
    requires Coupled(row, u, last) && SupAfter(row, u, ev).Some?
    requires ev.Closed? ==> row.None? || row.value.cmdTx != Some(last)
    requires u.pc.CmdClear? ==> u.pc.cmd.kind == StopOp
    requires Hand(u.pc).Some? ==> Hand(u.pc).value.kind != LaunchOp
    ensures Coupled(RowAfter(row, u, ev), SupAfter(row, u, ev).value, last)
  {
    match ev
    case Go(now) =>
      if row.Some? {
        AttachedAfterGo(row.value, u, last, now);
      } else {
        OrphanAfterGo(u, last, now);
      }
    case _ => CoupledAfterEvent(row, u, last, ev);
  }

  lemma OlderStaysRetired(row: Option<Proc>, u: Sup, ev: SupEvent)
    requires Retired(row, u) && SupAfter(row, u, ev).Some?
    ensures Retired(row, SupAfter(row, u, ev).value) && RowAfter(row, u, ev) == row
  {
  }

  lemma StepAdvances(row: Option<Proc>, u: Sup, ev: SupEvent)
    requires SupAfter(row, u, ev).Some?
    ensures Advances(u, SupAfter(row, u, ev).value)
    ensures row.None? ==> RowAfter(row, u, ev).None?
  {
  }

  // ----- supervisor steps: channels and operations

  predicate SettlesNothing(pc: SupPc) {
    !pc.FirstAck? && !pc.FailAck? && !pc.CmdAck? && !pc.Ending? && !pc.Done?
  }

  /** How a supervisor's step moves commands: it keeps them, takes the oldest one in hand, sends an
      acknowledgement, or ends. */
  predicate MailShape(u: Sup, u': Sup) {
    if SettlesNothing(u.pc) then
      && u'.firstAck == u.firstAck
      && !u'.pc.Done?
      && (|| (u'.queue == u.queue && Hand(u'.pc) == Hand(u.pc))
          || (u.queue != [] && Hand(u.pc).None? && u'.queue == u.queue[1..] && Hand(u'.pc) == Some(u.queue[0])))
    else if u.pc.Ending? then u'.pc.Done?
    else
      && !u.pc.Done?
      && u'.queue == u.queue
      && Hand(u'.pc).None?
      && !u'.pc.Done?
      && u'.firstAck == if u.pc.CmdAck? then u.firstAck else None
  }

  lemma StepShape(row: Option<Proc>, u: Sup, ev: SupEvent)
    requires SupAfter(row, u, ev).Some? && TaskOk(u)
    ensures MailShape(u, SupAfter(row, u, ev).value) && TaskOk(SupAfter(row, u, ev).value)
  {
  }

  lemma SettlingTouchesOwnWaiters(ops: seq<Op>, u: Sup, s: nat)
    requires Mailbox(ops, u, s)
    ensures |SettleAcks(ops, u)| == |ops|
    ensures forall i :: 0 <= i < |ops| ==>
      SettleAcks(ops, u)[i] == ops[i] ||
      (ops[i].ack.Pending? && (ops[i].pc == Wait(s) || ops[i].pc == LaunchWait(s))
       && SettleAcks(ops, u)[i] == ops[i].(ack := SettleAcks(ops, u)[i].ack))
  {
  }

  lemma OtherMailboxKept(ops: seq<Op>, u: Sup, s: nat, v: Sup, t: nat)
    requires Mailbox(ops, u, s) && Mailbox(ops, v, t) && s != t
    ensures Mailbox(SettleAcks(ops, u), v, t)
  {
    SettlingTouchesOwnWaiters(ops, u, s);
  }

  lemma OwnMailboxKept(ops: seq<Op>, u: Sup, s: nat, u': Sup)
    requires Mailbox(ops, u, s) && MailShape(u, u') && TaskOk(u')
    ensures Mailbox(SettleAcks(ops, u), u', s)
  {
  }

  /** A command is carried until the step that settles its acknowledgement. */
  lemma CarriedUntilSettled(ops: seq<Op>, u: Sup, s: nat, u': Sup, c: Cmd)
    requires Mailbox(ops, u, s) && MailShape(u, u')
    requires Carries(u, c)
    ensures c.op < |ops| && (Carries(u', c) || u.pc == CmdAck(c) || u.pc.Ending?)
    ensures u.pc == CmdAck(c) ==> SettleAcks(ops, u)[c.op].ack == Acked(true)
    ensures u.pc.Ending? ==> SettleAcks(ops, u)[c.op].ack == Dropped
  {
    if c in u.queue {
      var k :| 0 <= k < |u.queue| && u.queue[k] == c;
      if k > 0 && u'.queue != u.queue && u'.queue == u.queue[1..] {
        assert u.queue[1..][k - 1] == c;
      }
    }
  }

  /** An operation not waiting on this supervisor: what it knows only grows. */
  lemma ReturnedUntouched(row: Option<Proc>, row': Option<Proc>, sups: seq<Sup>, s: nat, u': Sup, o: Op, i: nat)
    requires s < |sups| && o.pc.Returned? && ReturnedOk(row, sups, o, i) && Advances(sups[s], u')
    requires row.None? ==> row'.None?
    ensures ReturnedOk(row', sups[s := u'], o, i)
  {
  }

  lemma ParkedUntouched(row: Option<Proc>, row': Option<Proc>, sups: seq<Sup>, s: nat, u': Sup, o: Op, i: nat)
    requires s < |sups| && (o.pc.Wait? || o.pc.LaunchWait?) && OpOk(row, sups, o, i) && Advances(sups[s], u')
    requires row.None? ==> row'.None?
    requires !(o.ack.Pending? && (o.pc == Wait(s) || o.pc == LaunchWait(s)))
    ensures OpOk(row', sups[s := u'], o, i)
  {
  }

  lemma OpUntouched(row: Option<Proc>, row': Option<Proc>, sups: seq<Sup>, s: nat, u': Sup, o: Op, i: nat)
    requires s < |sups| && OpOk(row, sups, o, i) && Advances(sups[s], u')
    requires row.None? ==> row'.None?
    requires !(o.ack.Pending? && (o.pc == Wait(s) || o.pc == LaunchWait(s)))
    ensures OpOk(row', sups[s := u'], o, i)
  {
    if o.pc.Returned? {
      ReturnedUntouched(row, row', sups, s, u', o, i);
    } else if o.pc.Wait? || o.pc.LaunchWait? {
      ParkedUntouched(row, row', sups, s, u', o, i);
    }
  }

  lemma WaiterKept(row: Option<Proc>, row': Option<Proc>, sups: seq<Sup>, ops: seq<Op>, s: nat, u': Sup, i: nat)
    requires s < |sups| && i < |ops|
    requires Mailbox(ops, sups[s], s) && OpOk(row, sups, ops[i], i)
    requires ops[i].pc == Wait(s) && ops[i].ack.Pending?
    requires MailShape(sups[s], u') && Advances(sups[s], u')
    requires Deleted(sups[s].pc) ==> row'.None?
    requires sups[s].pc.CmdAck? && sups[s].pc.cmd.kind == StopOp ==> PastClear(u'.pc)
    ensures |SettleAcks(ops, sups[s])| == |ops|
    ensures OpOk(row', sups[s := u'], SettleAcks(ops, sups[s])[i], i)
  {
    var u, o := sups[s], ops[i];
    SettlingTouchesOwnWaiters(ops, u, s);
    CarriedUntilSettled(ops, u, s, u', Cmd(o.kind, i));
    var o' := SettleAcks(ops, u)[i];
    assert o' == o || o' == o.(ack := o'.ack);
    assert WaitOk(row', sups[s := u'], o', i, s) by {
      if u.pc == CmdAck(Cmd(o.kind, i)) {
        assert o'.ack == Acked(true);
      } else if u.pc.Ending? {
        assert o'.ack == Dropped;
      } else {
        assert o'.ack == Pending by { UnsettledStaysPending(ops, u, s, i); }
      }
    }
  }

  lemma UnsettledStaysPending(ops: seq<Op>, u: Sup, s: nat, i: nat)
    requires i < |ops| && Mailbox(ops, u, s) && ops[i].pc == Wait(s) && ops[i].ack.Pending?
    requires !u.pc.Ending? && u.pc != CmdAck(Cmd(ops[i].kind, i))
    ensures |SettleAcks(ops, u)| == |ops| && SettleAcks(ops, u)[i].ack == Pending
  {
  }

  lemma LauncherKept(row: Option<Proc>, row': Option<Proc>, sups: seq<Sup>, ops: seq<Op>, s: nat, u': Sup, i: nat)
    requires s < |sups| && i < |ops|
    requires Mailbox(ops, sups[s], s) && OpOk(row, sups, ops[i], i)
    requires ops[i].pc == LaunchWait(s) && ops[i].ack.Pending?
    requires MailShape(sups[s], u') && Advances(sups[s], u')
    requires FirstAckOk(row', sups[s])
    ensures |SettleAcks(ops, sups[s])| == |ops|
    ensures OpOk(row', sups[s := u'], SettleAcks(ops, sups[s])[i], i)
  {
    var u, o := sups[s], ops[i];
    SettlingTouchesOwnWaiters(ops, u, s);
    var o' := SettleAcks(ops, u)[i];
    assert u.firstAck == Some(i);
    assert LaunchWaitOk(row', sups[s := u'], o', i, s);
  }

  lemma OpKept(row: Option<Proc>, row': Option<Proc>, sups: seq<Sup>, ops: seq<Op>, s: nat, u': Sup, i: nat)
    requires s < |sups| && i < |ops|
    requires Mailbox(ops, sups[s], s) && OpOk(row, sups, ops[i], i)
    requires MailShape(sups[s], u') && Advances(sups[s], u')
    requires row.None? ==> row'.None?
    requires FirstAckOk(row', sups[s])
    requires sups[s].pc.CmdAck? && sups[s].pc.cmd.kind == StopOp ==> PastClear(u'.pc)
    requires Deleted(sups[s].pc) ==> row'.None?
    ensures |SettleAcks(ops, sups[s])| == |ops|
    ensures OpOk(row', sups[s := u'], SettleAcks(ops, sups[s])[i], i)
  {
    SettlingTouchesOwnWaiters(ops, sups[s], s);
    if ops[i].pc == Wait(s) && ops[i].ack.Pending? {
      WaiterKept(row, row', sups, ops, s, u', i);
    } else if ops[i].pc == LaunchWait(s) && ops[i].ack.Pending? {
      LauncherKept(row, row', sups, ops, s, u', i);
    } else {
      OpUntouched(row, row', sups, s, u', ops[i], i);
    }
  }

  lemma AbandonedBySupStep(row: Option<Proc>, u: Sup, last: nat, ev: SupEvent)
    requires Coupled(row, u, last) && SupAfter(row, u, ev).Some?
    requires ev.Closed? ==> row.None? || row.value.cmdTx != Some(last)
    requires u.pc.CmdClear? ==> u.pc.cmd.kind == StopOp
    requires Hand(u.pc).Some? ==> Hand(u.pc).value.kind != LaunchOp
    requires RowAfter(row, u, ev).Some? && RowAfter(row, u, ev).value.status == Stopping
    requires PastClear(SupAfter(row, u, ev).value.pc) || DeadPhase(SupAfter(row, u, ev).value.pc)
    ensures row.Some? && row.value.status == Stopping && (PastClear(u.pc) || DeadPhase(u.pc))
  {
  }

  lemma WitnessKept(ops: seq<Op>, u: Sup, s: nat)
    requires Mailbox(ops, u, s)
    requires exists i :: 0 <= i < |ops| && Marking(ops[i])
    ensures exists i :: 0 <= i < |SettleAcks(ops, u)| && Marking(SettleAcks(ops, u)[i])
  {
    SettlingTouchesOwnWaiters(ops, u, s);
    var i :| 0 <= i < |ops| && Marking(ops[i]);
    assert Marking(SettleAcks(ops, u)[i]);
  }

  lemma NewestReplaced(row: Option<Proc>, row': Option<Proc>, sups: seq<Sup>, u': Sup)
    requires |sups| > 0 && Ownership(row, sups)
    requires row.None? ==> row'.None?
    requires Coupled(row', u', |sups| - 1)
    ensures Ownership(row', sups[|sups| - 1 := u'])
  {
    forall t | 0 <= t < |sups| - 1 ensures Retired(row', sups[t]) {
      assert Retired(row, sups[t]);
    }
  }

  lemma OlderReplaced(row: Option<Proc>, sups: seq<Sup>, s: nat, u': Sup)
    requires s < |sups| - 1 && Ownership(row, sups) && Retired(row, u')
    ensures Ownership(row, sups[s := u'])
  {
  }

  lemma OwnershipKept(st: Sys, s: nat, ev: SupEvent)
    requires Inv(st) && StepSup(st, s, ev).Some?
    ensures Ownership(StepSup(st, s, ev).value.row, StepSup(st, s, ev).value.sups)
  {
    var u := st.sups[s];
    assert Mailbox(st.ops, u, s);
    if s < |st.sups| - 1 {
      OlderStaysRetired(st.row, u, ev);
      OlderReplaced(st.row, st.sups, s, SupAfter(st.row, u, ev).value);
    } else {
      NewestKeepsCoupling(st.row, u, s, ev);
      StepAdvances(st.row, u, ev);
      NewestReplaced(st.row, RowAfter(st.row, u, ev), st.sups, SupAfter(st.row, u, ev).value);
    }
  }

  predicate LeftStopping(row: Option<Proc>, sups: seq<Sup>) {
    row.Some? && row.value.status == Stopping && Abandoned(sups)
  }

  lemma LeftStoppingBefore(row: Option<Proc>, sups: seq<Sup>, ops: seq<Op>, s: nat, ev: SupEvent)
    requires s < |sups| && SupAfter(row, sups[s], ev).Some? && Mailbox(ops, sups[s], s)
    requires ev.Closed? ==> row.None? || row.value.cmdTx != Some(s)
    requires if s == |sups| - 1 then Coupled(row, sups[s], s) else Retired(row, sups[s])
    requires LeftStopping(RowAfter(row, sups[s], ev), sups[s := SupAfter(row, sups[s], ev).value])
    ensures LeftStopping(row, sups)
  {
    if s == |sups| - 1 {
      AbandonedBySupStep(row, sups[s], s, ev);
    } else {
      OlderStaysRetired(row, sups[s], ev);
    }
  }

  lemma WitnessKeptBySupStep(st: Sys, s: nat, ev: SupEvent)
    requires StepSup(st, s, ev).Some? && Mailbox(st.ops, st.sups[s], s)
    requires Witnessed(st.row, st.sups, st.ops)
    requires if s == |st.sups| - 1 then Coupled(st.row, st.sups[s], s) else Retired(st.row, st.sups[s])
    ensures var st' := StepSup(st, s, ev).value; Witnessed(st'.row, st'.sups, st'.ops)
  {
    var st' := StepSup(st, s, ev).value;
    if LeftStopping(st'.row, st'.sups) {
      LeftStoppingBefore(st.row, st.sups, st.ops, s, ev);
      WitnessKept(st.ops, st.sups[s], s);
    }
  }

  lemma MailboxesKept(st: Sys, s: nat, ev: SupEvent, t: nat)
    requires Inv(st) && StepSup(st, s, ev).Some? && t < |st.sups|
    ensures Mailbox(StepSup(st, s, ev).value.ops, StepSup(st, s, ev).value.sups[t], t)
  {
    var u := st.sups[s];
    assert Mailbox(st.ops, u, s);
    if t == s {
      StepShape(st.row, u, ev);
      OwnMailboxKept(st.ops, u, s, SupAfter(st.row, u, ev).value);
    } else {
      OtherMailboxKept(st.ops, u, s, st.sups[t], t);
    }
  }

  lemma OpKeptBySupStep(st: Sys, s: nat, ev: SupEvent, i: nat)
    requires Inv(st) && StepSup(st, s, ev).Some? && i < |st.ops|
    ensures var st' := StepSup(st, s, ev).value;
      |st'.ops| == |st.ops| && OpOk(st'.row, st'.sups, st'.ops[i], i)
  {
    var u := st.sups[s];
    assert Mailbox(st.ops, u, s);
    StepShape(st.row, u, ev);
    StepAdvances(st.row, u, ev);
    assert u.pc.CmdAck? && u.pc.cmd.kind == StopOp ==> PastClear(u.pc);
    OpKept(st.row, RowAfter(st.row, u, ev), st.sups, st.ops, s, SupAfter(st.row, u, ev).value, i);
  }

  lemma SupStepKeepsInv(st: Sys, s: nat, ev: SupEvent)
    requires Inv(st) && StepSup(st, s, ev).Some?
    ensures Inv(StepSup(st, s, ev).value)
  {
    var st' := StepSup(st, s, ev).value;
    OwnershipKept(st, s, ev);
    forall t | 0 <= t < |st'.sups| ensures Mailbox(st'.ops, st'.sups[t], t) {
      MailboxesKept(st, s, ev, t);
    }
    SettlingTouchesOwnWaiters(st.ops, st.sups[s], s);
    forall i | 0 <= i < |st'.ops| ensures OpOk(st'.row, st'.sups, st'.ops[i], i) {
      OpKeptBySupStep(st, s, ev, i);
    }
    WitnessKeptBySupStep(st, s, ev);
  }
}
