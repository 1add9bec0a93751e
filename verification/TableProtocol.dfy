/** The race protocol carried out on the process table. Every step of a supervisor or of an operation is one
    section on the table, which changes the row it is about as the protocol says, and no other. So any
    interleaving over all rows is, row by row, a run of the protocol. */
module TableProtocol {
  import opened Domain
  import opened Protocol
  import opened ProtocolSteps
  import opened ProtocolTheorems
  import opened Table

  function RowOf(procs: map<nat, Proc>, id: nat): Option<Proc> {
    if id in procs then Some(procs[id]) else None
  }

  /** Row `id` is now `row`, and every other row is untouched. */
  predicate RowBecame(before: map<nat, Proc>, after: map<nat, Proc>, id: nat, row: Option<Proc>) {
    after == if row.Some? then before[id := row.value] else before - {id}
  }

  lemma AbsentId(procs: map<nat, Proc>, id: nat)
    ensures id !in procs ==> procs - {id} == procs
  {
  }

  // ----- one step of a supervisor

  /** Executing a command once no child is left. */
  method Execute(t: ProcessTable, id: nat, c: Cmd, inBackoff: bool, code: Option<int>, now: int)
    requires t.Valid()
    modifies t`procs
    ensures t.Valid()
    ensures id in old(t.procs) ==>
      RowBecame(old(t.procs), t.procs, id, ExecuteOnRow(old(t.procs)[id], c, inBackoff, code, now))
    ensures id !in old(t.procs) ==> t.procs == old(t.procs)
  {
    match c.kind {
      case StopOp => t.SetDead(id, Stopped, code);
      case DeleteOp => t.RemoveProc(id);
      case _ => t.Forgive(id, !inBackoff, now);
    }
  }

  /** The sections that follow an exit: recording it, and carrying the decision out. */
  method DecisionSection(t: ProcessTable, id: nat, u: Sup, now: int)
    requires u.pc.Reaped? || u.pc.ExitDead? || u.pc.OverMark? || u.pc.Scheduling?
    requires t.Valid()
    modifies t`procs
    ensures t.Valid()
    ensures id in old(t.procs) ==> RowBecame(old(t.procs), t.procs, id, RowEffect(old(t.procs)[id], u, now))
    ensures id !in old(t.procs) ==> t.procs == old(t.procs)
  {
    match u.pc {
      case Reaped(code) => var _ := t.RecordExit(id, code, now);
      case ExitDead(code) => t.SetDead(id, Stopped, code);
      case OverMark => t.MarkGaveUp(id);
      case Scheduling(d, n, prev, _) => t.ScheduleRestart(id, d, n, prev);
    }
  }

  /** The sections of a command: marking before the kill, and execution after it. */
  method CommandSection(t: ProcessTable, id: nat, u: Sup, now: int)
    requires u.pc.BackoffCmd? || u.pc.KillMark? || u.pc.Killed?
    requires t.Valid()
    modifies t`procs
    ensures t.Valid()
    ensures id in old(t.procs) ==> RowBecame(old(t.procs), t.procs, id, RowEffect(old(t.procs)[id], u, now))
    ensures id !in old(t.procs) ==> t.procs == old(t.procs)
  {
    match u.pc {
      case BackoffCmd(c, code) => Execute(t, id, c, true, code, now);
      case KillMark(_) => t.MarkStopping(id);
      case Killed(c) => Execute(t, id, c, false, None, now);
    }
  }

  /** The table section of a supervisor's own step. */
  method Section(t: ProcessTable, id: nat, u: Sup, now: int)
    requires t.Valid()
    modifies t`procs
    ensures t.Valid()
    ensures id in old(t.procs) ==> RowBecame(old(t.procs), t.procs, id, RowEffect(old(t.procs)[id], u, now))
    ensures id !in old(t.procs) ==> t.procs == old(t.procs)
  {
    if u.pc.Reaped? || u.pc.ExitDead? || u.pc.OverMark? || u.pc.Scheduling? {
      DecisionSection(t, id, u, now);
    } else if u.pc.BackoffCmd? || u.pc.KillMark? || u.pc.Killed? {
      CommandSection(t, id, u, now);
    } else if u.pc.FailClear? || u.pc.ExitClear? || u.pc.OverClear? || u.pc.CmdClear? {
      t.ClearCmdTx(id);
    } else if u.pc.FailDead? {
      t.SetDead(id, Errored, None);
    } else if u.pc.Spawned? {
      t.GoOnline(id, if u.child.Some? then u.child.value else 0, now);
    }
  }

  /** What the exit section hands to the decision is what the protocol decides on. */
  method ExitSection(t: ProcessTable, id: nat, u: Sup, code: Option<int>, now: int) returns (next: Sup)
    requires t.Valid() && u.pc == Reaped(code)
    modifies t`procs
    ensures t.Valid()
    ensures SupAfter(RowOf(old(t.procs), id), u, Go(now)) == Some(next)
    ensures RowBecame(old(t.procs), t.procs, id, RowAfter(RowOf(old(t.procs), id), u, Go(now)))
  {
    ghost var before := t.procs;
    var facts := t.RecordExit(id, code, now);
    next := u.(pc := if facts.Some? then Deciding(facts.value) else Ending);
    AbsentId(before, id);
  }

  /** One step of the supervisor of row `id`: the task and the row move as the protocol says. */
  method SupervisorStep(t: ProcessTable, id: nat, u: Sup, ev: SupEvent) returns (next: Option<Sup>)
    requires t.Valid()
    modifies t`procs
    ensures t.Valid()
    ensures next == SupAfter(RowOf(old(t.procs), id), u, ev)
    ensures next.Some? ==> RowBecame(old(t.procs), t.procs, id, RowAfter(RowOf(old(t.procs), id), u, ev))
    ensures next.None? ==> t.procs == old(t.procs)
  {
    ghost var before := t.procs;
    AbsentId(before, id);
    if u.pc.Reaped? && ev.Go? {
      var moved := ExitSection(t, id, u, u.pc.code, ev.now);
      return Some(moved);
    }
    next := SupAfter(RowOf(t.procs, id), u, ev);
    if next.Some? && ev.Go? {
      Section(t, id, u, ev.now);
    }
  }

  // ----- one step of an operation

  /** The first section of a stop, delete or restart, with the channel it found. */
  method FirstSection(t: ProcessTable, id: nat, kind: OpKind) returns (tx: Option<nat>)
    requires t.Valid()
    modifies t`procs
    ensures t.Valid()
    ensures tx == if id in old(t.procs) then old(t.procs)[id].cmdTx else None
    ensures id in old(t.procs) ==>
      RowBecame(old(t.procs), t.procs, id,
                Some(match kind
                     case StopOp => Sections.StopSnapshot(old(t.procs)[id])
                     case DeleteOp => Sections.DeleteSnapshot(old(t.procs)[id])
                     case _ => old(t.procs)[id]))
    ensures id !in old(t.procs) ==> t.procs == old(t.procs)
  {
    match kind {
      case StopOp => tx := t.StopSnapshot(id);
      case DeleteOp => tx := t.DeleteSnapshot(id);
      case _ => tx := if id in t.procs then t.procs[id].cmdTx else None;
    }
  }

  /** The spawn section of a launch claims the row exactly when the protocol creates a supervisor. */
  method SpawnSection(t: ProcessTable, id: nat, st: Sys, i: nat) returns (claim: Claim)
    requires t.Valid() && st.row == RowOf(t.procs, id) && i < |st.ops| && st.ops[i].pc.LaunchSpawn?
    modifies t`procs
    ensures t.Valid()
    ensures RowBecame(old(t.procs), t.procs, id, StepLaunch(st, i).row)
    ensures claim == Claimed <==> |StepLaunch(st, i).sups| == |st.sups| + 1
    ensures claim == AlreadySupervised <==> StepLaunch(st, i).ops[i].pc == Returned(Supervised(TxOf(st)))
  {
    AbsentId(t.procs, id);
    claim := t.Supervise(id, |st.sups|);
  }

  function TxOf(st: Sys): nat {
    if st.row.Some? && st.row.value.cmdTx.Some? then st.row.value.cmdTx.value else 0
  }

  /** One step of an operation on row `id`. */
  method OperationStep(t: ProcessTable, id: nat, st: Sys, i: nat, now: int) returns (next: Option<Sys>)
    requires t.Valid() && st.row == RowOf(t.procs, id)
    modifies t`procs
    ensures t.Valid()
    ensures next == StepOp(st, i, now)
    ensures next.Some? ==> RowBecame(old(t.procs), t.procs, id, next.value.row)
    ensures next.None? ==> t.procs == old(t.procs)
  {
    ghost var before := t.procs;
    AbsentId(before, id);
    next := StepOp(st, i, now);
    if next.Some? {
      match st.ops[i].pc {
        case Start => var _ := FirstSection(t, id, st.ops[i].kind);
        case Mark(_) => t.MarkForRestart(id);
        case Normalise => t.NormaliseStop(id);
        case Cold => t.ColdRestart(id, now);
        case Remove => t.RemoveProc(id);
        case LaunchSpawn => var _ := SpawnSection(t, id, st, i);
        case _ =>
      }
    }
  }

  // ----- all rows together

  /** What happens on the table: a row is inserted under an id not used before, a step about one row, or the
      worker's pass over all of them. */
  datatype Happening =
    | Inserted(id: nat, instance: nat, config: AppConfig, now: int)
    | On(id: nat, step: Step)
    | Tick(now: int)

  /** The protocol's state of every row ever inserted; rows that were removed stay as histories. */
  predicate Mirrors(procs: map<nat, Proc>, states: map<nat, Sys>) {
    && procs.Keys <= states.Keys
    && forall id :: id in states ==> states[id].row == RowOf(procs, id)
  }

  function Ticked(st: Sys, now: int): Sys {
    st.(row := if st.row.Some? then Some(Sections.ForgetBackoff(st.row.value, now)) else None)
  }

  /** The states after a happening; one that is not enabled does not happen. */
  function After(states: map<nat, Sys>, h: Happening): map<nat, Sys> {
    match h
    case On(id, step) =>
      if id in states && Next(states[id], step).Some? then states[id := Next(states[id], step).value] else states
    case Tick(now) => map id | id in states :: Ticked(states[id], now)
    case Inserted(id, instance, config, now) =>
      if id in states || !config.Validates() then states else states[id := Init(config, id, instance, now)]
  }

  function AfterAll(states: map<nat, Sys>, happenings: seq<Happening>): map<nat, Sys> {
    if happenings == [] then states
    else After(AfterAll(states, happenings[..|happenings| - 1]), happenings[|happenings| - 1])
  }

  method StepOn(t: ProcessTable, st: Sys, id: nat, step: Step) returns (next: Option<Sys>)
    requires t.Valid() && st.row == RowOf(t.procs, id)
    modifies t`procs
    ensures t.Valid()
    ensures next == Next(st, step)
    ensures next.Some? && !step.WorkerTick? ==> RowBecame(old(t.procs), t.procs, id, next.value.row)
    ensures next.None? || step.WorkerTick? ==> t.procs == old(t.procs)
  {
    ghost var before := t.procs;
    AbsentId(before, id);
    assert id in before ==> before[id := before[id]] == before;
    next := Next(st, step);
    match step {
      case OpStep(i, now) => var _ := OperationStep(t, id, st, i, now);
      case SupStep(s, ev) =>
        if next.Some? {
          var _ := SupervisorStep(t, id, st.sups[s], ev);
        }
      case ResetCounters(now) => t.ResetCounters(id, now);
      case _ =>
    }
  }

  lemma MirrorsAfterStep(before: map<nat, Proc>, after: map<nat, Proc>, states: map<nat, Sys>, id: nat, st: Sys)
    requires Mirrors(before, states) && id in states && RowBecame(before, after, id, st.row)
    ensures Mirrors(after, states[id := st])
  {
  }

  /** A step about one row, or the worker's pass, on the table. */
  method Happen(t: ProcessTable, states: map<nat, Sys>, h: Happening) returns (next: map<nat, Sys>)
    requires t.Valid() && Mirrors(t.procs, states) && (h.On? ==> !h.step.WorkerTick?)
    modifies t
    ensures t.Valid() && next == After(states, h) && Mirrors(t.procs, next)
  {
    next := states;
    match h {
      case On(id, step) =>
        if id in states {
          ghost var before := t.procs;
          var st := StepOn(t, states[id], id, step);
          if st.Some? {
            next := states[id := st.value];
            MirrorsAfterStep(before, t.procs, states, id, st.value);
          }
        }
      case Tick(now) =>
        t.ForgetBackoffs(now);
        next := map id | id in states :: Ticked(states[id], now);
      case Inserted(id, instance, config, now) =>
        if id !in states && config.Validates() {
          var _ := t.InsertFixed(id, instance, config, now);
          next := states[id := Init(config, id, instance, now)];
        }
    }
  }

  // ----- row by row it is the protocol

  lemma HappeningKeepsReachable(states: map<nat, Sys>, h: Happening)
    requires forall id :: id in states ==> Reachable(states[id])
    ensures states.Keys <= After(states, h).Keys
    ensures forall id :: id in After(states, h) ==> Reachable(After(states, h)[id])
  {
    match h
    case On(id, step) =>
      if id in states && Next(states[id], step).Some? {
        ReachableStep(states[id], step);
      }
    case Tick(now) =>
      forall id | id in states ensures Reachable(After(states, h)[id]) {
        ReachableStep(states[id], WorkerTick(now));
      }
    case Inserted(id, instance, config, now) =>
      var init := Init(config, id, instance, now);
      assert Run(init, []) == Some(init);
  }

  lemma {:induction false} HappeningsKeepReachable(states: map<nat, Sys>, happenings: seq<Happening>)
    requires forall id :: id in states ==> Reachable(states[id])
    ensures states.Keys <= AfterAll(states, happenings).Keys
    ensures forall id :: id in AfterAll(states, happenings) ==> Reachable(AfterAll(states, happenings)[id])
    decreases |happenings|
  {
    if happenings != [] {
      HappeningsKeepReachable(states, happenings[..|happenings| - 1]);
      HappeningKeepsReachable(AfterAll(states, happenings[..|happenings| - 1]), happenings[|happenings| - 1]);
    }
  }

  /** A live pid or a live status means the row is supervised. */
  predicate SupervisedIfAlive(p: Proc) {
    p.pid != 0 || p.status in {Launching, Online, WaitingRestart} ==> p.cmdTx.Some?
  }

  /** Any interleaving of insertions and of steps about any rows, carried out on the table: the rows end as the protocol says,
      each row's history is a run of the protocol, and so what the protocol guarantees holds of every row
      of the table, its invariant first. */
  method Drive(t: ProcessTable, states: map<nat, Sys>, happenings: seq<Happening>) returns (end: map<nat, Sys>)
    requires t.Valid() && Mirrors(t.procs, states)
    requires forall k :: 0 <= k < |happenings| && happenings[k].On? ==> !happenings[k].step.WorkerTick?
    requires forall id :: id in states ==> Reachable(states[id])
    modifies t
    ensures t.Valid() && end == AfterAll(states, happenings) && Mirrors(t.procs, end)
    ensures states.Keys <= end.Keys && forall id :: id in end ==> Reachable(end[id])
    ensures forall id :: id in t.procs ==> SupervisedIfAlive(t.procs[id])
  {
    end := states;
    assert happenings[..0] == [];
    for k := 0 to |happenings|
      invariant t.Valid() && Mirrors(t.procs, end) && end == AfterAll(states, happenings[..k])
    {
      assert happenings[..k + 1][..k] == happenings[..k];
      end := Happen(t, end, happenings[k]);
    }
    assert happenings[..|happenings|] == happenings;
    HappeningsKeepReachable(states, happenings);
    forall id | id in t.procs ensures SupervisedIfAlive(t.procs[id]) {
      TableInvariant(end[id]);
    }
  }

  /** The whole life of a table, from the empty one. */
  method Operate(happenings: seq<Happening>) returns (t: ProcessTable, histories: map<nat, Sys>)
    requires forall k :: 0 <= k < |happenings| && happenings[k].On? ==> !happenings[k].step.WorkerTick?
    ensures t.Valid() && histories == AfterAll(map[], happenings) && Mirrors(t.procs, histories)
    ensures forall id :: id in histories ==> Reachable(histories[id])
    ensures forall id :: id in t.procs ==> SupervisedIfAlive(t.procs[id])
  {
    t := new ProcessTable();
    histories := Drive(t, map[], happenings);
  }
}
