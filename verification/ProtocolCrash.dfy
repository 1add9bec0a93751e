/** Crash runs are runs of the protocol: left alone, a supervisor takes the row through exactly the states of
    the crash loop. So what holds of crash runs holds of the daemon's state machine. */
module ProtocolCrash {
  import opened Domain
  import opened Policy
  import opened Sections
  import opened Protocol
  import opened ProtocolSteps
  import opened ProtocolRuns
  import CrashRuns

  // ----- a supervisor alone with its row

  datatype Solo = Solo(row: Option<Proc>, sup: Sup)

  function Alone(x: Solo, events: seq<SupEvent>): Option<Solo>
    decreases |events|
  {
    if events == [] then Some(x)
    else
      match SupAfter(x.row, x.sup, events[0])
      case None => None
      case Some(u) => Alone(Solo(RowAfter(x.row, x.sup, events[0]), u), events[1..])
  }

  lemma AloneCons(x: Solo, ev: SupEvent, events: seq<SupEvent>)
    requires SupAfter(x.row, x.sup, ev).Some?
    ensures Alone(x, [ev] + events) == Alone(Solo(RowAfter(x.row, x.sup, ev), SupAfter(x.row, x.sup, ev).value), events)
  {
    assert ([ev] + events)[1..] == events;
  }

  lemma {:induction false} AloneConcat(x: Solo, a: seq<SupEvent>, b: seq<SupEvent>)
    requires Alone(x, a).Some?
    ensures Alone(x, a + b) == Alone(Alone(x, a).value, b)
    decreases |a|
  {
    if a == [] {
      assert a + b == b;
    } else {
      assert (a + b)[0] == a[0] && (a + b)[1..] == a[1..] + b;
      AloneConcat(Solo(RowAfter(x.row, x.sup, a[0]), SupAfter(x.row, x.sup, a[0]).value), a[1..], b);
    }
  }

  function Steps(s: nat, events: seq<SupEvent>): seq<Step> {
    seq(|events|, k requires 0 <= k < |events| => SupStep(s, events[k]))
  }

  /** What it does alone it can do in any state of the other tasks. */
  lemma {:induction false} AloneIsRun(st: Sys, s: nat, events: seq<SupEvent>)
    requires s < |st.sups| && Alone(Solo(st.row, st.sups[s]), events).Some?
    requires forall k :: 0 <= k < |events| ==> !events[k].Closed?
    ensures Run(st, Steps(s, events)).Some?
    ensures var end := Run(st, Steps(s, events)).value;
      s < |end.sups| && Solo(end.row, end.sups[s]) == Alone(Solo(st.row, st.sups[s]), events).value
    decreases |events|
  {
    if events != [] {
      assert !events[0].Closed?;
      var st' := StepSup(st, s, events[0]).value;
      assert Steps(s, events)[1..] == Steps(s, events[1..]);
      AloneIsRun(st', s, events[1..]);
    }
  }

  // ----- one crash

  /** From the loop head to the decision on the exit. */
  function LifeEvents(c: CrashRuns.Crash): seq<SupEvent> {
    [Go(0), SpawnOk(1), Go(c.onlineAt), Go(0)] + [Exit(c.code), Go(c.exitAt), Go(0), Go(0)]
  }

  function AtHead(p: Proc, u: Sup): Solo {
    Solo(Some(p), u.(pc := Head, child := None))
  }

  function Tended(p: Proc, u: Sup, c: CrashRuns.Crash): Solo {
    Solo(Some(GoOnline(p, 1, c.onlineAt)), u.(pc := Running, child := Some(1), firstAck := None, spawns := u.spawns + 1))
  }

  lemma ComesOnline(p: Proc, u: Sup, c: CrashRuns.Crash)
    ensures Alone(AtHead(p, u), [Go(0), SpawnOk(1), Go(c.onlineAt), Go(0)]) == Some(Tended(p, u, c))
  {
    var x := AtHead(p, u);
    var spawning := Solo(Some(p), x.sup.(pc := Spawning));
    var spawned := Solo(Some(p), x.sup.(pc := Spawned, child := Some(1), spawns := u.spawns + 1));
    var online := Solo(Some(GoOnline(p, 1, c.onlineAt)), spawned.sup.(pc := FirstAck));
    AloneCons(online, Go(0), []);
    AloneCons(spawned, Go(c.onlineAt), [Go(0)]);
    AloneCons(spawning, SpawnOk(1), [Go(c.onlineAt), Go(0)]);
    AloneCons(x, Go(0), [SpawnOk(1), Go(c.onlineAt), Go(0)]);
    assert [Go(0)] + [] == [Go(0)];
    assert [Go(c.onlineAt)] + [Go(0)] == [Go(c.onlineAt), Go(0)];
    assert [SpawnOk(1)] + [Go(c.onlineAt), Go(0)] == [SpawnOk(1), Go(c.onlineAt), Go(0)];
    assert [Go(0)] + [SpawnOk(1), Go(c.onlineAt), Go(0)] == [Go(0), SpawnOk(1), Go(c.onlineAt), Go(0)];
  }

  /** Where the supervisor stands once the decision is carried out. */
  function Afterwards(d: Decision, code: Option<int>): SupPc {
    match d
    case Stop => ExitClear
    case GiveUp => OverClear
    case Restart(delay, _, _) => if delay > 0 then Backoff(code) else Head
  }

  lemma ExitIsDecided(p: Proc, u: Sup, c: CrashRuns.Crash)
    ensures var d := DecideRestart(CrashRuns.FactsAtExit(p, c));
      Alone(Tended(p, u, c), [Exit(c.code), Go(c.exitAt), Go(0), Go(0)]) ==
      Some(Solo(Some(CrashRuns.AfterCrash(p, c)),
                u.(pc := Afterwards(d, c.code), child := None, firstAck := None, spawns := u.spawns + 1)))
  {
    var x, facts := Tended(p, u, c), CrashRuns.FactsAtExit(p, c);
    var reaped := Solo(x.row, x.sup.(pc := Reaped(c.code), child := None));
    var exited := RecordExit(GoOnline(p, 1, c.onlineAt), c.code);
    var deciding := Solo(Some(exited), reaped.sup.(pc := Deciding(facts)));
    var decided := Solo(Some(exited), reaped.sup.(pc := Decided(facts)));
    AloneCons(decided, Go(0), []);
    AloneCons(deciding, Go(0), [Go(0)]);
    AloneCons(reaped, Go(c.exitAt), [Go(0), Go(0)]);
    AloneCons(x, Exit(c.code), [Go(c.exitAt), Go(0), Go(0)]);
    assert [Go(0)] + [] == [Go(0)];
    assert [Go(0)] + [Go(0)] == [Go(0), Go(0)];
    assert [Go(c.exitAt)] + [Go(0), Go(0)] == [Go(c.exitAt), Go(0), Go(0)];
    assert [Exit(c.code)] + [Go(c.exitAt), Go(0), Go(0)] == [Exit(c.code), Go(c.exitAt), Go(0), Go(0)];
  }

  /** The events of one crash, up to the next loop head if there is one. */
  function CrashEvents(p: Proc, c: CrashRuns.Crash): seq<SupEvent> {
    var d := DecideRestart(CrashRuns.FactsAtExit(p, c));
    LifeEvents(c) + if d.Restart? && d.delayMs > 0 then [Timer] else []
  }

  /** One crash of the crash loop is a run of the supervisor, back to its loop head if it restarts. */
  lemma CrashIsAlone(p: Proc, u: Sup, c: CrashRuns.Crash)
    ensures var end := Alone(AtHead(p, u), CrashEvents(p, c));
      && end.Some? && end.value.row == Some(CrashRuns.AfterCrash(p, c))
      && (DecideRestart(CrashRuns.FactsAtExit(p, c)).Restart? ==>
            end.value == AtHead(CrashRuns.AfterCrash(p, c), u.(firstAck := None, spawns := u.spawns + 1)))
  {
    ComesOnline(p, u, c);
    ExitIsDecided(p, u, c);
    AloneConcat(AtHead(p, u), [Go(0), SpawnOk(1), Go(c.onlineAt), Go(0)], [Exit(c.code), Go(c.exitAt), Go(0), Go(0)]);
    var d := DecideRestart(CrashRuns.FactsAtExit(p, c));
    var decided := Alone(AtHead(p, u), LifeEvents(c)).value;
    if d.Restart? && d.delayMs > 0 {
      AloneConcat(AtHead(p, u), LifeEvents(c), [Timer]);
      AloneCons(decided, Timer, []);
      assert [Timer] + [] == [Timer];
    } else {
      assert LifeEvents(c) + [] == LifeEvents(c);
    }
  }

  // ----- crash runs

  lemma {:induction false} CrashLoopIsAlone(p: Proc, u: Sup, crashes: seq<CrashRuns.Crash>) returns (events: seq<SupEvent>)
    ensures forall k :: 0 <= k < |events| ==> !events[k].Closed?
    ensures var end := Alone(AtHead(p, u), events);
      end.Some? && end.value.row == Some(CrashRuns.CrashLoop(p, crashes).row)
    decreases |crashes|
  {
    if crashes == [] {
      return [];
    }
    var c := crashes[0];
    var first := CrashEvents(p, c);
    CrashIsAlone(p, u, c);
    if DecideRestart(CrashRuns.FactsAtExit(p, c)).Restart? {
      var rest := CrashLoopIsAlone(CrashRuns.AfterCrash(p, c), u.(firstAck := None, spawns := u.spawns + 1), crashes[1..]);
      AloneConcat(AtHead(p, u), first, rest);
      events := first + rest;
    } else {
      events := first;
    }
  }

  /** Wherever a supervisor of a surviving row stands at its loop head, some run of the protocol takes that
      row through any given crashes, to exactly the row the crash loop computes. */
  lemma CrashLoopIsRun(st: Sys, s: nat, crashes: seq<CrashRuns.Crash>) returns (end: Sys)
    requires Reachable(st) && st.row.Some?
    requires s < |st.sups| && st.sups[s].pc.Head? && st.sups[s].child.None?
    ensures Reachable(end) && end.row == Some(CrashRuns.CrashLoop(st.row.value, crashes).row)
  {
    var events := CrashLoopIsAlone(st.row.value, st.sups[s], crashes);
    assert AtHead(st.row.value, st.sups[s]) == Solo(st.row, st.sups[s]);
    AloneIsRun(st, s, events);
    ReachableRun(st, Steps(s, events));
    end := Run(st, Steps(s, events)).value;
  }

  lemma LaunchedRowOutcome(config: AppConfig, p: Proc, crashes: seq<CrashRuns.Crash>)
    requires config.maxRestarts >= 1 && |crashes| >= config.maxRestarts
    requires CrashRuns.Crashing(config, crashes) && CrashRuns.InOrder(0, 0, crashes)
    requires CrashRuns.Quick(0, config.minUptime, crashes)
    requires p.config == config && p.createdAt == 0 && p.unstableRestarts == 0 && p.restarts == 0
    ensures var row := CrashRuns.CrashLoop(p, crashes).row;
      if config.minUptime * config.maxRestarts < I63
      then row.status == Errored && row.restarts == config.maxRestarts - 1
      else row.status != Errored && row.restarts == |crashes|
  {
    if config.minUptime * config.maxRestarts < I63 {
      CrashRuns.QuickLoopGivesUp(p, crashes, 0);
    } else {
      CrashRuns.OverflowingWindowNeverGivesUp(p, crashes, 0);
      CrashRuns.StopsExactlyAtFirstCleanExit(p, crashes);
    }
  }

  /** So give-up is exact in the protocol too: a launched app whose every cycle is shorter than `min_uptime`
      reaches Errored after one restart fewer than `max_restarts` if the window fits, and otherwise has been
      restarted after every crash. */
  lemma GiveUpInTheProtocol(config: AppConfig, crashes: seq<CrashRuns.Crash>) returns (end: Sys)
    requires config.maxRestarts >= 1 && |crashes| >= config.maxRestarts
    requires CrashRuns.Crashing(config, crashes) && CrashRuns.InOrder(0, 0, crashes)
    requires CrashRuns.Quick(0, config.minUptime, crashes)
    ensures Reachable(end) && end.row.Some?
    ensures if config.minUptime * config.maxRestarts < I63
      then end.row.value.status == Errored && end.row.value.restarts == config.maxRestarts - 1
      else end.row.value.status != Errored && end.row.value.restarts == |crashes|
  {
    FirstSupervisor(config);
    end := CrashLoopIsRun(Launching1(config), 0, crashes);
    LaunchedRowOutcome(config, Launching1(config).row.value, crashes);
  }
}
