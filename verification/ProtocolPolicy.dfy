/** The restart counters stay within policy in every interleaving: crashes, commands, `reset` calls and
    the worker's backoff reset may overwrite them in any order, from facts captured earlier. */
module ProtocolPolicy {
  import opened Domain
  import opened Policy
  import opened Backoff
  import opened Protocol
  import opened ProtocolSteps

  ghost predicate RowInPolicy(row: Option<Proc>, config: AppConfig) {
    row.Some? ==>
      && row.value.config == config
      && row.value.unstableRestarts <= config.maxRestarts
      && InOrbit(config.backoffBase, row.value.prevRestartDelay)
  }

  /** The longest wait the configuration allows. */
  function MaxDelay(config: AppConfig): u64 {
    if config.backoffBase == 0 then config.restartDelay
    else if config.backoffBase > BACKOFF_CAP_MS then config.backoffBase else BACKOFF_CAP_MS
  }

  ghost predicate TaskInPolicy(pc: SupPc, config: AppConfig) {
    && (pc.Deciding? ==>
          && pc.facts.maxRestarts == config.maxRestarts
          && pc.facts.backoffBaseMs == config.backoffBase
          && pc.facts.restartDelayMs == config.restartDelay
          && InOrbit(config.backoffBase, pc.facts.prevRestartDelayMs))
    && (pc.Scheduling? ==>
          && pc.unstable < config.maxRestarts
          && InOrbit(config.backoffBase, pc.prev)
          && pc.delayMs <= MaxDelay(config)
          && (config.backoffBase > 0 ==> pc.delayMs == pc.prev))
  }

  ghost predicate InPolicy(st: Sys, config: AppConfig) {
    && RowInPolicy(st.row, config)
    && forall s :: 0 <= s < |st.sups| ==> TaskInPolicy(st.sups[s].pc, config)
  }

  lemma DecisionInPolicy(f: ExitFacts, config: AppConfig)
    requires TaskInPolicy(Deciding(f), config)
    ensures TaskInPolicy(Decided(f), config)
  {
    NextStaysInOrbit(config.backoffBase, f.prevRestartDelayMs);
    assert InOrbit(config.backoffBase, 0);
  }

  lemma RowEffectInPolicy(p: Proc, u: Sup, now: int, config: AppConfig)
    requires RowInPolicy(Some(p), config) && TaskInPolicy(u.pc, config)
    ensures RowInPolicy(RowEffect(p, u, now), config)
  {
    assert InOrbit(config.backoffBase, 0);
  }

  lemma TaskStaysInPolicy(row: Option<Proc>, u: Sup, ev: SupEvent, config: AppConfig)
    requires RowInPolicy(row, config) && TaskInPolicy(u.pc, config) && SupAfter(row, u, ev).Some?
    ensures TaskInPolicy(SupAfter(row, u, ev).value.pc, config)
  {
    if u.pc.Deciding? {
      DecisionInPolicy(u.pc.facts, config);
    } else if u.pc.Reaped? {
      assert row.Some? ==> InOrbit(config.backoffBase, row.value.prevRestartDelay);
    } else {
      assert !SupAfter(row, u, ev).value.pc.Deciding? && !SupAfter(row, u, ev).value.pc.Scheduling?;
    }
  }

  lemma SupStepInPolicy(row: Option<Proc>, u: Sup, ev: SupEvent, config: AppConfig)
    requires RowInPolicy(row, config) && TaskInPolicy(u.pc, config) && SupAfter(row, u, ev).Some?
    ensures RowInPolicy(RowAfter(row, u, ev), config)
    ensures TaskInPolicy(SupAfter(row, u, ev).value.pc, config)
  {
    TaskStaysInPolicy(row, u, ev, config);
    if row.Some? && ev.Go? {
      RowEffectInPolicy(row.value, u, ev.now, config);
    }
  }

  lemma OpStepRowInPolicy(st: Sys, i: nat, now: int, config: AppConfig)
    requires RowInPolicy(st.row, config) && StepOp(st, i, now).Some?
    ensures RowInPolicy(StepOp(st, i, now).value.row, config)
  {
    assert InOrbit(config.backoffBase, 0);
  }

  lemma NextKeepsPolicy(st: Sys, step: Step, config: AppConfig)
    requires InPolicy(st, config) && Next(st, step).Some?
    ensures InPolicy(Next(st, step).value, config)
  {
    assert InOrbit(config.backoffBase, 0);
    match step
    case SupStep(s, ev) => SupStepInPolicy(st.row, st.sups[s], ev, config);
    case OpStep(i, now) =>
      OpStepRowInPolicy(st, i, now, config);
      OpStepLeavesTasks(st, i, now);
    case _ =>
  }

  lemma {:induction false} RunKeepsPolicy(st: Sys, steps: seq<Step>, config: AppConfig)
    requires InPolicy(st, config) && Run(st, steps).Some?
    ensures InPolicy(Run(st, steps).value, config)
    decreases |steps|
  {
    if steps != [] {
      NextKeepsPolicy(st, steps[0], config);
      RunKeepsPolicy(Next(st, steps[0]).value, steps[1..], config);
    }
  }

  /** In every reachable state `unstable_restarts` is at most `max_restarts`, the remembered backoff is
      zero or a delay of the app's orbit, and every scheduled wait is within bounds. */
  lemma CountersStayInPolicy(config: AppConfig, pmId: nat, instance: nat, now: int, steps: seq<Step>)
    requires Run(Init(config, pmId, instance, now), steps).Some?
    ensures var st := Run(Init(config, pmId, instance, now), steps).value;
      && (st.row.Some? ==>
            && st.row.value.config == config
            && st.row.value.unstableRestarts <= config.maxRestarts
            && InOrbit(config.backoffBase, st.row.value.prevRestartDelay)
            && (config.backoffBase > 0 ==> st.row.value.prevRestartDelay <= MaxDelay(config)))
      && forall s :: 0 <= s < |st.sups| && st.sups[s].pc.Scheduling? ==> st.sups[s].pc.delayMs <= MaxDelay(config)
  {
    assert InOrbit(config.backoffBase, 0);
    RunKeepsPolicy(Init(config, pmId, instance, now), steps, config);
    var st := Run(Init(config, pmId, instance, now), steps).value;
    if st.row.Some? && st.row.value.prevRestartDelay != 0 {
      var k: nat :| k >= 1 && Orbit(config.backoffBase, k) == st.row.value.prevRestartDelay;
      OrbitBounded(config.backoffBase, k);
    }
  }
}
