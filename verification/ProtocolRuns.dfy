/** Building runs: one step at a time, one run after another, a retired supervisor to its end, and the first
    launch of an app, which concrete runs start with. */
module ProtocolRuns {
  import opened Domain
  import opened Protocol
  import opened ProtocolInvariant
  import opened ProtocolSteps

  lemma RunCons(st: Sys, step: Step, steps: seq<Step>)
    requires Next(st, step).Some?
    ensures Run(st, [step] + steps) == Run(Next(st, step).value, steps)
  {
    assert ([step] + steps)[1..] == steps;
  }

  lemma {:induction false} RunConcat(st: Sys, a: seq<Step>, b: seq<Step>)
    requires Run(st, a).Some?
    ensures Run(st, a + b) == Run(Run(st, a).value, b)
    decreases |a|
  {
    if a == [] {
      assert a + b == b;
    } else {
      assert (a + b)[0] == a[0] && (a + b)[1..] == a[1..] + b;
      RunConcat(Next(st, a[0]).value, a[1..], b);
    }
  }

  predicate SameButAcks(ops: seq<Op>, ops': seq<Op>) {
    |ops'| == |ops| && forall j :: 0 <= j < |ops| ==> ops'[j] == ops[j].(ack := ops'[j].ack)
  }

  lemma SettlingChangesAcksOnly(ops: seq<Op>, u: Sup)
    ensures SameButAcks(ops, SettleAcks(ops, u))
  {
  }

  /** Only supervisor `s` and acknowledgements changed. */
  predicate OnlyTask(st: Sys, end: Sys, s: nat) {
    && s < |st.sups| && |end.sups| == |st.sups|
    && end.row == st.row && end.staleMark == st.staleMark
    && (forall u :: 0 <= u < |st.sups| && u != s ==> end.sups[u] == st.sups[u])
    && SameButAcks(st.ops, end.ops)
  }

  lemma RetiredStep(st: Sys, s: nat)
    requires s < |st.sups| && PastClear(st.sups[s].pc) && !st.sups[s].pc.Done?
    ensures StepSup(st, s, Go(0)).Some?
    ensures var st' := StepSup(st, s, Go(0)).value;
      && OnlyTask(st, st', s)
      && st'.ops == SettleAcks(st.ops, st.sups[s])
      && st'.sups[s].pc == (if st.sups[s].pc.Ending? then Done else Ending)
      && (st.sups[s].pc.CmdAck? ==> st'.sups[s].queue == st.sups[s].queue)
  {
    SettlingChangesAcksOnly(st.ops, st.sups[s]);
  }

  lemma OnlyTaskChains(a: Sys, b: Sys, c: Sys, s: nat)
    requires OnlyTask(a, b, s) && OnlyTask(b, c, s)
    ensures OnlyTask(a, c, s)
  {
  }

  /** A supervisor that has given the row up can run to its end, and the row does not notice. Every
      command still in its queue is dropped. */
  lemma FinishRetired(st: Sys, s: nat) returns (steps: seq<Step>)
    requires s < |st.sups| && PastClear(st.sups[s].pc)
    ensures Run(st, steps).Some? && OnlyTask(st, Run(st, steps).value, s)
    ensures Run(st, steps).value.sups[s].pc.Done?
    ensures forall k :: 0 <= k < |steps| ==> steps[k] == SupStep(s, Go(0))
    ensures !st.sups[s].pc.Done? ==> forall i :: 0 <= i < |st.ops| && Mentions(st.sups[s].queue, i) ==>
      Run(st, steps).value.ops[i].ack == Dropped
    decreases if st.sups[s].pc.Done? then 0 else if st.sups[s].pc.Ending? then 1 else 2
  {
    if st.sups[s].pc.Done? {
      return [];
    }
    var step := SupStep(s, Go(0));
    var st' := Next(st, step).value;
    RetiredStep(st, s);
    if st.sups[s].pc.Ending? {
      RunCons(st, step, []);
      steps := [step];
      assert [step] + [] == steps;
    } else {
      var rest := FinishRetired(st', s);
      RunCons(st, step, rest);
      OnlyTaskChains(st, st', Run(st', rest).value, s);
      steps := [step] + rest;
    }
  }

  // ----- the first launch

  lemma Take(st: Sys, step: Step) returns (st': Sys)
    requires Reachable(st) && Next(st, step).Some?
    ensures Reachable(st') && st' == Next(st, step).value
  {
    ReachableStep(st, step);
    st' := Next(st, step).value;
  }

  function OnlineRow(config: AppConfig, pid: nat, channel: nat, restarts: nat): Proc {
    NewProc(0, 0, config, 0)
    .(pid := pid, status := Online, uptimeMs := Some(0), cmdTx := Some(channel), restarts := restarts)
  }

  function Tending(pid: nat, starter: nat): Sup {
    Sup(Running, [], Some(pid), None, starter, {}, 1, 0)
  }

  function Dead(starter: nat): Sup {
    Sup(Done, [], None, None, starter, {}, 1, 0)
  }

  const LAUNCHED: Op := Op(LaunchOp, Returned(Started(0)), Acked(true), None, 0)

  function Launching1(config: AppConfig): Sys {
    Sys(Some(NewProc(0, 0, config, 0).(status := Launching, cmdTx := Some(0))), [NewSup(0)],
        [Op(LaunchOp, LaunchWait(0), Pending, None, 0)], false)
  }

  function Online1(config: AppConfig): Sys {
    Sys(Some(OnlineRow(config, 100, 0, 0)), [Tending(100, 0)], [LAUNCHED], false)
  }

  lemma FirstSupervisor(config: AppConfig)
    ensures Reachable(Launching1(config))
  {
    var st := Init(config, 0, 0, 0);
    assert Run(st, []) == Some(st);
    st := Take(st, Begin(LaunchOp));
    st := Take(st, OpStep(0, 0));
    st := Take(st, OpStep(0, 0));
    assert st == Launching1(config);
  }

  function Announcing1(config: AppConfig): Sys {
    Launching1(config).(row := Some(OnlineRow(config, 100, 0, 0)),
                        sups := [NewSup(0).(pc := FirstAck, child := Some(100), spawns := 1)])
  }

  lemma FirstSpawn(config: AppConfig)
    ensures Reachable(Announcing1(config))
  {
    FirstSupervisor(config);
    var st := Launching1(config);
    st := Take(st, SupStep(0, Go(0)));
    st := Take(st, SupStep(0, SpawnOk(100)));
    st := Take(st, SupStep(0, Go(0)));
    assert st == Announcing1(config);
  }

  lemma FirstLaunch(config: AppConfig)
    ensures Reachable(Online1(config))
  {
    FirstSpawn(config);
    var st := Announcing1(config);
    st := Take(st, SupStep(0, Go(0)));
    st := Take(st, OpStep(0, 0));
    assert st == Online1(config);
  }
}
