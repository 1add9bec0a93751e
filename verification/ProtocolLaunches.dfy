/** Launches, spawns and queues, counted: a launch that reports success has spawned a child, one that reports a
    spawn error has not; orphans spawn at most once; a channel holds at most its capacity. */
module ProtocolLaunches {
  import opened Domain
  import opened Protocol
  import opened ProtocolInvariant
  import opened ProtocolSteps

  // ----- the first spawn decides the launch

  /** A supervisor counts its spawns, and nothing else does. */
  lemma SpawnsAreCounted(row: Option<Proc>, u: Sup, ev: SupEvent)
    requires SupAfter(row, u, ev).Some?
    ensures var u' := SupAfter(row, u, ev).value;
      && u'.spawns == u.spawns + (if ev.SpawnOk? then 1 else 0)
      && u'.orphanSpawns == u.orphanSpawns + (if ev.SpawnOk? && row.None? then 1 else 0)
      && (ev.SpawnOk? ==> u'.child == Some(ev.pid) && u.pc.Spawning?)
  {
  }

  /** While the first acknowledgement is unsent, nothing was spawned before the spawn that decides it. */
  predicate FirstOk(u: Sup) {
    && (u.firstAck.Some? && (u.pc.Head? || u.pc.Spawning? || u.pc.FailDead? || u.pc.FailAck?) ==> u.spawns == 0)
    && (u.pc.Spawned? || u.pc.FirstAck? ==> u.spawns > 0)
  }

  predicate NeverSpawned(u: Sup) {
    u.spawns == 0 && (u.pc.FailClear? || u.pc.Ending? || u.pc.Done?)
  }

  /** What the outcome of a launch says of its supervisor. */
  predicate LaunchTrue(sups: seq<Sup>, o: Op) {
    match o.pc
    case LaunchWait(s) =>
      s < |sups| && (o.ack.Acked? ==> if o.ack.ok then sups[s].spawns > 0 else NeverSpawned(sups[s]))
    case Returned(Started(s)) => s < |sups| && sups[s].spawns > 0
    case Returned(SpawnFailed(s)) => s < |sups| && NeverSpawned(sups[s])
    case _ => true
  }

  ghost predicate LaunchesTrue(st: Sys) {
    && (forall s :: 0 <= s < |st.sups| ==> FirstOk(st.sups[s]))
    && forall i :: 0 <= i < |st.ops| ==> LaunchTrue(st.sups, st.ops[i])
  }

  lemma FirstStays(row: Option<Proc>, u: Sup, ev: SupEvent)
    requires FirstOk(u) && SupAfter(row, u, ev).Some? && (u.firstAck.Some? ==> Early(u.pc) || u.pc.Ending?)
    ensures FirstOk(SupAfter(row, u, ev).value)
    ensures NeverSpawned(u) ==> NeverSpawned(SupAfter(row, u, ev).value)
    ensures SupAfter(row, u, ev).value.spawns >= u.spawns
  {
  }

  lemma TruthUnderSupStep(row: Option<Proc>, sups: seq<Sup>, s: nat, ev: SupEvent, o: Op)
    requires s < |sups| && FirstOk(sups[s]) && SupAfter(row, sups[s], ev).Some? && LaunchTrue(sups, o)
    requires sups[s].firstAck.Some? ==> Early(sups[s].pc) || sups[s].pc.Ending?
    ensures LaunchTrue(sups[s := SupAfter(row, sups[s], ev).value], o)
  {
    FirstStays(row, sups[s], ev);
  }

  lemma AckIsTrue(row: Option<Proc>, sups: seq<Sup>, ops: seq<Op>, s: nat, ev: SupEvent, i: nat)
    requires s < |sups| && i < |ops| && Mailbox(ops, sups[s], s) && FirstOk(sups[s]) && SupAfter(row, sups[s], ev).Some?
    requires |SettleAcks(ops, sups[s])| == |ops| && SettleAcks(ops, sups[s])[i] != ops[i]
    requires ops[i].pc == LaunchWait(s) && ev.Go?
    ensures LaunchTrue(sups[s := SupAfter(row, sups[s], ev).value], SettleAcks(ops, sups[s])[i])
  {
  }

  lemma SettlesOnGoOnly(row: Option<Proc>, ops: seq<Op>, u: Sup, ev: SupEvent)
    requires SupAfter(row, u, ev).Some? && SettleAcks(ops, u) != ops
    ensures ev.Go?
  {
  }

  lemma FirstAckIsEarly(st: Sys, s: nat)
    requires Inv(st) && s < |st.sups|
    ensures st.sups[s].firstAck.Some? ==> Early(st.sups[s].pc) || st.sups[s].pc.Ending?
  {
    assert s < |st.sups| - 1 ==> Retired(st.row, st.sups[s]);
  }

  lemma SupStepKeepsTruth(st: Sys, s: nat, ev: SupEvent)
    requires Inv(st) && LaunchesTrue(st) && StepSup(st, s, ev).Some?
    ensures LaunchesTrue(StepSup(st, s, ev).value)
  {
    var st' := StepSup(st, s, ev).value;
    assert Mailbox(st.ops, st.sups[s], s);
    SettlingTouchesOwnWaiters(st.ops, st.sups[s], s);
    FirstAckIsEarly(st, s);
    FirstStays(st.row, st.sups[s], ev);
    forall i | 0 <= i < |st'.ops| ensures LaunchTrue(st'.sups, st'.ops[i]) {
      TruthUnderSupStep(st.row, st.sups, s, ev, st.ops[i]);
      if st'.ops[i] != st.ops[i] && st.ops[i].pc == LaunchWait(s) {
        SettlesOnGoOnly(st.row, st.ops, st.sups[s], ev);
        AckIsTrue(st.row, st.sups, st.ops, s, ev, i);
      }
    }
  }

  lemma TruthUnderMoreSups(sups: seq<Sup>, sups': seq<Sup>, o: Op)
    requires LaunchTrue(sups, o) && |sups| <= |sups'|
    requires forall s :: 0 <= s < |sups| ==> sups'[s] == sups[s].(queue := sups'[s].queue)
    ensures LaunchTrue(sups', o)
  {
  }

  lemma OwnMoveIsTrue(st: Sys, i: nat, now: int)
    requires StepOp(st, i, now).Some? && LaunchTrue(st.sups, st.ops[i]) && OpOk(st.row, st.sups, st.ops[i], i)
    ensures LaunchTrue(StepOp(st, i, now).value.sups, StepOp(st, i, now).value.ops[i])
  {
  }

  lemma OpStepKeepsTruth(st: Sys, i: nat, now: int)
    requires Inv(st) && LaunchesTrue(st) && StepOp(st, i, now).Some?
    ensures LaunchesTrue(StepOp(st, i, now).value)
  {
    var st' := StepOp(st, i, now).value;
    OpStepLeavesTasks(st, i, now);
    assert OpOk(st.row, st.sups, st.ops[i], i);
    assert forall s :: 0 <= s < |st.sups| ==> FirstOk(st.sups[s]);
    OwnMoveIsTrue(st, i, now);
    forall j | 0 <= j < |st'.ops| ensures LaunchTrue(st'.sups, st'.ops[j]) {
      if j != i {
        TruthUnderMoreSups(st.sups, st'.sups, st.ops[j]);
      }
    }
  }

  lemma NextKeepsTruth(st: Sys, step: Step)
    requires Inv(st) && LaunchesTrue(st) && Next(st, step).Some?
    ensures LaunchesTrue(Next(st, step).value)
  {
    match step
    case SupStep(s, ev) => SupStepKeepsTruth(st, s, ev);
    case OpStep(i, now) => OpStepKeepsTruth(st, i, now);
    case _ =>
  }

  lemma {:induction false} RunKeepsTruth(st: Sys, steps: seq<Step>)
    requires Inv(st) && LaunchesTrue(st) && Run(st, steps).Some?
    ensures LaunchesTrue(Run(st, steps).value)
    decreases |steps|
  {
    if steps != [] {
      NextKeepsTruth(st, steps[0]);
      NextKeepsInv(st, steps[0]);
      RunKeepsTruth(Next(st, steps[0]).value, steps[1..]);
    }
  }

  /** A start or restart that reports success for a supervisor it created has seen that supervisor spawn a
      child; one that reports a spawn error has seen it spawn none, and that supervisor never will. */
  lemma LaunchReportsTheSpawn(st: Sys, i: nat, s: nat)
    requires Reachable(st) && i < |st.ops|
    ensures st.ops[i].pc == Returned(Started(s)) ==> s < |st.sups| && st.sups[s].spawns > 0
    ensures st.ops[i].pc == Returned(SpawnFailed(s)) ==>
      s < |st.sups| && st.sups[s].spawns == 0 && (st.sups[s].pc.FailClear? || st.sups[s].pc.Ending? || st.sups[s].pc.Done?)
  {
    var config, pmId: nat, instance: nat, now: int, steps :|
      Run(Init(config, pmId, instance, now), steps) == Some(st);
    InitInv(config, pmId, instance, now);
    RunKeepsTruth(Init(config, pmId, instance, now), steps);
    assert LaunchTrue(st.sups, st.ops[i]);
  }

  // ----- orphans

  /** How many children are spawned in a run. */
  function SpawnsIn(steps: seq<Step>): nat {
    if steps == [] then 0 else IsSpawn(steps[0]) + SpawnsIn(steps[1..])
  }

  /** The orphan spawns of the newest supervisor, the only one that can still spawn. */
  function OrphanSpawns(sups: seq<Sup>): nat {
    if sups == [] then 0 else sups[|sups| - 1].orphanSpawns
  }

  function IsSpawn(step: Step): nat {
    if step.SupStep? && step.ev.SpawnOk? then 1 else 0
  }

  lemma OrphanTaskStep(sups: seq<Sup>, s: nat, ev: SupEvent)
    requires Ownership(None, sups) && s < |sups| && SupAfter(None, sups[s], ev).Some?
    ensures OrphanSpawns(sups[s := SupAfter(None, sups[s], ev).value]) ==
            OrphanSpawns(sups) + (if ev.SpawnOk? then 1 else 0)
  {
    SpawnsAreCounted(None, sups[s], ev);
    if s < |sups| - 1 {
      assert Retired(None, sups[s]);
    }
  }

  lemma OrphanStep(st: Sys, step: Step)
    requires Inv(st) && st.row.None? && Next(st, step).Some?
    ensures Next(st, step).value.row.None?
    ensures OrphanSpawns(Next(st, step).value.sups) == OrphanSpawns(st.sups) + IsSpawn(step)
  {
    match step
    case SupStep(s, ev) => OrphanTaskStep(st.sups, s, ev);
    case OpStep(i, now) => OpStepLeavesTasks(st, i, now);
    case _ =>
  }

  lemma {:induction false} OrphanRun(st: Sys, steps: seq<Step>)
    requires Inv(st) && st.row.None? && Run(st, steps).Some?
    ensures Inv(Run(st, steps).value) && Run(st, steps).value.row.None?
    ensures OrphanSpawns(Run(st, steps).value.sups) == OrphanSpawns(st.sups) + SpawnsIn(steps)
    decreases |steps|
  {
    if steps != [] {
      OrphanStep(st, steps[0]);
      NextKeepsInv(st, steps[0]);
      OrphanRun(Next(st, steps[0]).value, steps[1..]);
    }
  }

  /** Once the row is removed, any run spawns at most one more child. */
  lemma OrphansSpawnAtMostOnce(st: Sys, steps: seq<Step>)
    requires Reachable(st) && st.row.None? && Run(st, steps).Some?
    ensures SpawnsIn(steps) <= 1
  {
    ReachableInv(st);
    OrphanRun(st, steps);
  }

  // ----- queues

  ghost predicate QueuesFit(st: Sys) {
    forall s :: 0 <= s < |st.sups| ==> |st.sups[s].queue| <= 8
  }

  lemma NextKeepsQueues(st: Sys, step: Step)
    requires QueuesFit(st) && Next(st, step).Some?
    ensures QueuesFit(Next(st, step).value)
  {
  }

  lemma {:induction false} RunKeepsQueues(st: Sys, steps: seq<Step>)
    requires QueuesFit(st) && Run(st, steps).Some?
    ensures QueuesFit(Run(st, steps).value)
    decreases |steps|
  {
    if steps != [] {
      NextKeepsQueues(st, steps[0]);
      RunKeepsQueues(Next(st, steps[0]).value, steps[1..]);
    }
  }

  /** A channel never holds more than 8 commands, and a send waits exactly while its receiver is there and
      holds 8. */
  lemma ChannelsAreBounded(st: Sys, i: nat, s: nat, now: int)
    requires Reachable(st) && s < |st.sups|
    ensures |st.sups[s].queue| <= 8
    ensures i < |st.ops| && st.ops[i].pc == Send(s) ==>
      (StepOp(st, i, now).None? <==> !st.sups[s].pc.Done? && |st.sups[s].queue| == 8)
  {
    var config, pmId: nat, instance: nat, from: int, steps :|
      Run(Init(config, pmId, instance, from), steps) == Some(st);
    RunKeepsQueues(Init(config, pmId, instance, from), steps);
  }
}
