/** Whole crash runs of one app: the restart policy and the supervisor's bookkeeping together. */
module CrashRuns {
  import opened Domain
  import opened Policy
  import opened Sections
  import opened Backoff

  /** One life of the child: it came online, then exited on its own. */
  datatype Crash = Crash(onlineAt: int, exitAt: int, code: Option<int>)

  /** The row after a crash run, how many crashes were consumed, the delay waited before each restart, and
      the decision that ended the run, if one did. */
  datatype Outcome = Outcome(row: Proc, taken: nat, waits: seq<u64>, ended: Option<Decision>)

  function FactsAtExit(p: Proc, c: Crash): ExitFacts {
    FactsOf(RecordExit(GoOnline(p, 1, c.onlineAt), c.code), c.code, c.exitAt)
  }

  function AfterCrash(p: Proc, c: Crash): Proc {
    var q := RecordExit(GoOnline(p, 1, c.onlineAt), c.code);
    match DecideRestart(FactsAtExit(p, c))
    case Stop => SetDead(q, Stopped, c.code)
    case GiveUp => MarkGaveUp(q)
    case Restart(d, n, prev) => ScheduleRestart(q, d, n, prev)
  }

  /** The supervisor's loop over a sequence of crashes, with no command in between. */
  function CrashLoop(p: Proc, crashes: seq<Crash>): Outcome
    decreases |crashes|
  {
    if crashes == [] then Outcome(p, 0, [], None)
    else
      var d := DecideRestart(FactsAtExit(p, crashes[0]));
      var q := AfterCrash(p, crashes[0]);
      if d.Restart? then
        var rest := CrashLoop(q, crashes[1..]);
        rest.(taken := rest.taken + 1, waits := [d.delayMs] + rest.waits)
      else Outcome(q, 1, [], Some(d))
  }

  /** Exits the policy answers with a restart or a give-up. */
  predicate Crashing(config: AppConfig, crashes: seq<Crash>) {
    && config.autorestart
    && forall k :: 0 <= k < |crashes| && crashes[k].code.Some? ==> crashes[k].code.value !in config.stopExitCodes
  }

  /** Each life starts after the previous exit and a wait of `gap`, and ends after it starts. */
  predicate InOrder(from: int, gap: nat, crashes: seq<Crash>) {
    forall k :: 0 <= k < |crashes| ==>
      && crashes[k].onlineAt <= crashes[k].exitAt
      && PreviousExit(from, crashes, k) + (if k == 0 then 0 else gap) <= crashes[k].onlineAt
  }

  function PreviousExit(from: int, crashes: seq<Crash>, k: nat): int
    requires k < |crashes|
  {
    if k == 0 then from else crashes[k - 1].exitAt
  }

  /** Every cycle, from the previous exit to the next, is shorter than `limit`. */
  predicate Quick(from: int, limit: int, crashes: seq<Crash>) {
    forall k :: 0 <= k < |crashes| ==> crashes[k].exitAt - PreviousExit(from, crashes, k) < limit
  }

  lemma TailFacts(from: int, gap: nat, limit: int, config: AppConfig, crashes: seq<Crash>)
    requires |crashes| > 0
    ensures Crashing(config, crashes) ==> Crashing(config, crashes[1..])
    ensures Quick(from, limit, crashes) ==> Quick(crashes[0].exitAt, limit, crashes[1..])
    ensures InOrder(from, gap, crashes) ==> InOrder(crashes[0].exitAt, 0, crashes[1..])
  {
    var tail := crashes[1..];
    var next := crashes[0].exitAt;
    if Quick(from, limit, crashes) {
      forall k | 0 <= k < |tail| ensures tail[k].exitAt - PreviousExit(next, tail, k) < limit {
        assert crashes[k + 1].exitAt - PreviousExit(from, crashes, k + 1) < limit;
      }
    }
    if InOrder(from, gap, crashes) {
      forall k | 0 <= k < |tail|
        ensures tail[k].onlineAt <= tail[k].exitAt && PreviousExit(next, tail, k) <= tail[k].onlineAt
      {
        assert PreviousExit(from, crashes, k + 1) + gap <= crashes[k + 1].onlineAt;
      }
    }
  }

  /** The instability window as the code computes it never exceeds the intended one, and equals it
      exactly when the product fits a signed 64-bit integer. */
  lemma WindowExactIffFits(minUptime: u64, maxRestarts: u32)
    ensures AsI64(SaturatingMul(minUptime, maxRestarts)) <= minUptime * maxRestarts
    ensures AsI64(SaturatingMul(minUptime, maxRestarts)) == minUptime * maxRestarts <==> minUptime * maxRestarts < I63
    ensures minUptime * maxRestarts >= I63 ==> AsI64(SaturatingMul(minUptime, maxRestarts)) < 0
    ensures AsI64(minUptime) <= minUptime
  {
  }

  // ----- a crash loop gives up exactly at the limit

  lemma QuickCrashIsUnstable(p: Proc, c: Crash, from: int, k: nat)
    requires p.config.maxRestarts >= 1 && p.config.minUptime * p.config.maxRestarts < I63
    requires k < p.config.maxRestarts && from - p.createdAt <= k * p.config.minUptime
    requires from <= c.onlineAt <= c.exitAt && c.exitAt - from < p.config.minUptime
    ensures IsUnstable(FactsAtExit(p, c))
    ensures c.exitAt - p.createdAt <= (k + 1) * p.config.minUptime
  {
    var mu, m := p.config.minUptime, p.config.maxRestarts;
    WindowExactIffFits(mu, m);
    assert (k + 1) * mu <= m * mu by { MulMonotone(k + 1, m, mu); }
    assert (k + 1) * mu == k * mu + mu;
    assert mu < I63 by { MulMonotone(1, m, mu); }
  }

  lemma MulMonotone(a: nat, b: nat, c: nat)
    requires a <= b
    ensures a * c <= b * c
  {
  }

  lemma {:induction false} QuickLoopGivesUp(p: Proc, crashes: seq<Crash>, from: int)
    requires p.config.maxRestarts >= 1 && p.config.minUptime * p.config.maxRestarts < I63
    requires p.unstableRestarts < p.config.maxRestarts
    requires from - p.createdAt <= p.unstableRestarts * p.config.minUptime
    requires Crashing(p.config, crashes) && InOrder(from, 0, crashes) && Quick(from, p.config.minUptime, crashes)
    ensures var r, left := CrashLoop(p, crashes), p.config.maxRestarts - p.unstableRestarts;
      if |crashes| < left then
        r.taken == |crashes| && r.ended == None && r.row.restarts == p.restarts + |crashes|
      else
        && r.taken == left && r.ended == Some(GiveUp)
        && r.row.status == Errored && r.row.restarts == p.restarts + left - 1
        && r.row.unstableRestarts == p.config.maxRestarts
    decreases |crashes|
  {
    if crashes != [] {
      var c := crashes[0];
      assert PreviousExit(from, crashes, 0) == from;
      QuickCrashIsUnstable(p, c, from, p.unstableRestarts);
      var q := AfterCrash(p, c);
      if DecideRestart(FactsAtExit(p, c)).Restart? {
        TailFacts(from, 0, p.config.minUptime, p.config, crashes);
        QuickLoopGivesUp(q, crashes[1..], c.exitAt);
      }
    }
  }

  // ----- an overflowing window never gives up

  lemma {:induction false} OverflowingWindowNeverGivesUp(p: Proc, crashes: seq<Crash>, from: int)
    requires p.config.minUptime * p.config.maxRestarts >= I63
    requires p.unstableRestarts < p.config.maxRestarts && p.createdAt <= from
    requires Crashing(p.config, crashes) && InOrder(from, 0, crashes)
    ensures var r := CrashLoop(p, crashes);
      r.taken == |crashes| && r.ended == None && r.row.restarts == p.restarts + |crashes|
      && r.row.unstableRestarts == p.unstableRestarts
    decreases |crashes|
  {
    if crashes != [] {
      var c := crashes[0];
      assert PreviousExit(from, crashes, 0) == from;
      WindowExactIffFits(p.config.minUptime, p.config.maxRestarts);
      assert !IsUnstable(FactsAtExit(p, c));
      TailFacts(from, 0, 0, p.config, crashes);
      OverflowingWindowNeverGivesUp(AfterCrash(p, c), crashes[1..], c.exitAt);
    }
  }

  /** From a fresh row, a crash loop whose every cycle is shorter than `min_uptime` gives up on exactly
      the `max_restarts`-th exit, after one restart fewer: if and only if the window
      `min_uptime * max_restarts` fits a signed 64-bit integer. Otherwise it restarts forever. */
  lemma GivesUpExactlyAtTheLimit(config: AppConfig, pmId: nat, instance: nat, created: int, crashes: seq<Crash>)
    requires config.maxRestarts >= 1 && |crashes| >= config.maxRestarts
    requires Crashing(config, crashes) && InOrder(created, 0, crashes) && Quick(created, config.minUptime, crashes)
    ensures var r := CrashLoop(NewProc(pmId, instance, config, created), crashes);
      && (config.minUptime * config.maxRestarts < I63 <==> r.ended == Some(GiveUp))
      && (r.ended == Some(GiveUp) ==> r.taken == config.maxRestarts && r.row.restarts == config.maxRestarts - 1)
      && (r.ended != Some(GiveUp) ==> r.ended == None && r.row.restarts == |crashes|)
  {
    var p := NewProc(pmId, instance, config, created);
    if config.minUptime * config.maxRestarts < I63 {
      QuickLoopGivesUp(p, crashes, created);
    } else {
      OverflowingWindowNeverGivesUp(p, crashes, created);
    }
  }

  // ----- a long enough fixed delay never gives up

  predicate Spaced(crashes: seq<Crash>, gap: nat) {
    forall k :: 1 <= k < |crashes| ==> crashes[k - 1].exitAt + gap <= crashes[k].onlineAt
  }

  /** One crash of such a run: late enough, it no longer counts as unstable. */
  lemma SpacedCrashRestarts(p: Proc, c: Crash, done: nat)
    requires p.config.maxRestarts >= 1 && p.config.backoffBase == 0 && p.config.autorestart
    requires c.code.Some? ==> c.code.value !in p.config.stopExitCodes
    requires (p.config.maxRestarts - 1) * p.config.restartDelay >= p.config.maxRestarts * p.config.minUptime
    requires p.unstableRestarts < p.config.maxRestarts && p.unstableRestarts <= done
    requires p.createdAt + done * p.config.restartDelay <= c.onlineAt <= c.exitAt
    ensures DecideRestart(FactsAtExit(p, c)).Restart?
    ensures var q := AfterCrash(p, c);
      && q.config == p.config && q.createdAt == p.createdAt
      && q.unstableRestarts < p.config.maxRestarts && q.unstableRestarts <= done + 1
  {
    var m := p.config.maxRestarts;
    WindowExactIffFits(p.config.minUptime, m);
    if p.unstableRestarts == m - 1 {
      MulMonotone(m - 1, done, p.config.restartDelay);
      assert !IsUnstable(FactsAtExit(p, c));
    }
  }

  lemma SpacedTail(crashes: seq<Crash>, gap: nat)
    requires crashes != [] && Spaced(crashes, gap)
    ensures Spaced(crashes[1..], gap)
    ensures |crashes| > 1 ==> crashes[0].exitAt + gap <= crashes[1].onlineAt
  {
    var tail := crashes[1..];
    forall k | 1 <= k < |tail| ensures tail[k - 1].exitAt + gap <= tail[k].onlineAt {
      assert crashes[k + 1 - 1].exitAt + gap <= crashes[k + 1].onlineAt;
    }
  }

  lemma {:induction false} SpacedLoop(p: Proc, crashes: seq<Crash>, done: nat)
    requires p.config.maxRestarts >= 1 && p.config.backoffBase == 0
    requires (p.config.maxRestarts - 1) * p.config.restartDelay >= p.config.maxRestarts * p.config.minUptime
    requires p.unstableRestarts < p.config.maxRestarts && p.unstableRestarts <= done
    requires Crashing(p.config, crashes) && Spaced(crashes, p.config.restartDelay)
    requires forall k :: 0 <= k < |crashes| ==> crashes[k].onlineAt <= crashes[k].exitAt
    requires |crashes| > 0 ==> p.createdAt + done * p.config.restartDelay <= crashes[0].onlineAt
    ensures var r := CrashLoop(p, crashes); r.taken == |crashes| && r.ended == None
    ensures CrashLoop(p, crashes).row.unstableRestarts < p.config.maxRestarts
    decreases |crashes|
  {
    if crashes != [] {
      var d := p.config.restartDelay;
      SpacedCrashRestarts(p, crashes[0], done);
      SpacedTail(crashes, d);
      assert (done + 1) * d == done * d + d;
      SpacedLoop(AfterCrash(p, crashes[0]), crashes[1..], done + 1);
    }
  }

  /** With a fixed delay D such that (M-1)*D >= M*min_uptime, no crash run of any length gives up. */
  lemma LongDelayNeverGivesUp(config: AppConfig, pmId: nat, instance: nat, created: int, crashes: seq<Crash>)
    requires config.maxRestarts >= 1 && config.backoffBase == 0
    requires (config.maxRestarts - 1) * config.restartDelay >= config.maxRestarts * config.minUptime
    requires Crashing(config, crashes) && Spaced(crashes, config.restartDelay)
    requires forall k :: 0 <= k < |crashes| ==> crashes[k].onlineAt <= crashes[k].exitAt
    requires |crashes| > 0 ==> created <= crashes[0].onlineAt
    ensures var r := CrashLoop(NewProc(pmId, instance, config, created), crashes);
      r.taken == |crashes| && r.ended == None
  {
    SpacedLoop(NewProc(pmId, instance, config, created), crashes, 0);
  }

  // ----- what counts as unstable

  /** The exit comes before `min_uptime` times `max_restarts` has passed since the row's history began. */
  predicate InWindow(p: Proc, c: Crash) {
    c.exitAt - p.createdAt < p.config.minUptime * p.config.maxRestarts
  }

  /** The life was shorter than `min_uptime`. */
  predicate ShortLife(p: Proc, c: Crash) {
    c.exitAt - c.onlineAt < p.config.minUptime
  }

  /** A crash counts exactly when it comes within the window and its life was short; the app gives up
      exactly when that brings the count to `max_restarts`. */
  lemma CountsExactly(p: Proc, c: Crash)
    requires !CleanExit(p.config, c)
    requires p.config.minUptime * p.config.maxRestarts < I63 && p.config.minUptime < I63
    ensures var n := p.unstableRestarts + (if InWindow(p, c) && ShortLife(p, c) then 1 else 0);
      && (DecideRestart(FactsAtExit(p, c)) == GiveUp <==> n >= p.config.maxRestarts)
      && (DecideRestart(FactsAtExit(p, c)).Restart? <==> n < p.config.maxRestarts)
      && (n < p.config.maxRestarts ==>
            AfterCrash(p, c).unstableRestarts == n && AfterCrash(p, c).restarts == p.restarts + 1)
  {
    WindowExactIffFits(p.config.minUptime, p.config.maxRestarts);
  }

  /** A life of at least `min_uptime` never counts, whatever the configuration. */
  lemma LongLifeDoesNotCount(p: Proc, c: Crash)
    requires !CleanExit(p.config, c) && !ShortLife(p, c) && p.unstableRestarts < p.config.maxRestarts
    ensures DecideRestart(FactsAtExit(p, c)).Restart?
    ensures AfterCrash(p, c).unstableRestarts == p.unstableRestarts && AfterCrash(p, c).config == p.config
  {
    WindowExactIffFits(p.config.minUptime, p.config.maxRestarts);
  }

  /** So a run in which every life lasts `min_uptime` never gives up, from any row below its limit. */
  lemma {:induction false} LongLivesNeverGiveUp(p: Proc, crashes: seq<Crash>)
    requires p.unstableRestarts < p.config.maxRestarts
    requires forall k :: 0 <= k < |crashes| ==> !CleanExit(p.config, crashes[k]) && !ShortLife(p, crashes[k])
    ensures var r := CrashLoop(p, crashes);
      r.ended == None && r.taken == |crashes| && r.row.unstableRestarts == p.unstableRestarts
      && r.row.restarts == p.restarts + |crashes|
    decreases |crashes|
  {
    if crashes != [] {
      LongLifeDoesNotCount(p, crashes[0]);
      LongLivesNeverGiveUp(AfterCrash(p, crashes[0]), crashes[1..]);
    }
  }

  // ----- a forgiven row starts afresh

  /** A row without instability and without a remembered delay, its history beginning at `from`. */
  predicate Forgiven(p: Proc, from: int) {
    p.unstableRestarts == 0 && p.prevRestartDelay == 0 && p.createdAt == from
  }

  /** Whatever came before, from such a row a quick crash loop gives up on exactly the `max_restarts`-th
      exit, if the window fits, and its waits begin at the base delay again. */
  lemma ForgivenRowStartsAfresh(p: Proc, crashes: seq<Crash>, from: int)
    requires Forgiven(p, from) && p.config.maxRestarts >= 1 && |crashes| >= p.config.maxRestarts
    requires Crashing(p.config, crashes) && InOrder(from, 0, crashes) && Quick(from, p.config.minUptime, crashes)
    ensures var r := CrashLoop(p, crashes);
      && (p.config.minUptime * p.config.maxRestarts < I63 <==> r.ended == Some(GiveUp))
      && (r.ended == Some(GiveUp) ==>
            r.taken == p.config.maxRestarts && r.row.restarts == p.restarts + p.config.maxRestarts - 1
            && r.row.status == Errored)
      && (r.ended != Some(GiveUp) ==> r.ended == None && r.row.restarts == p.restarts + |crashes|)
      && WaitsFrom(p.config, 0, r.waits)
  {
    WaitsFollowOrbit(p, crashes, 0);
    if p.config.minUptime * p.config.maxRestarts < I63 {
      QuickLoopGivesUp(p, crashes, from);
    } else {
      OverflowingWindowNeverGivesUp(p, crashes, from);
    }
  }

  /** The worker forgets the backoff of a run once it has been stable for more than 30 seconds, and only
      then: the wait after the next crash is the base delay again. */
  lemma StableRunForgetsBackoff(p: Proc, code: Option<int>, now: int, exit: int)
    requires p.pid != 0 && p.status == Online && p.uptimeMs.Some? && p.config.backoffBase > 0
    ensures var d := DecideRestart(FactsOf(RecordExit(ForgetBackoff(p, now), code), code, exit));
      d.Restart? ==>
        d.delayMs == (if now - p.uptimeMs.value > 30000 || p.prevRestartDelay == 0 then p.config.backoffBase
                      else NextBackoff(p.config.backoffBase, p.prevRestartDelay))
  {
  }

  /** The worker touches nothing else, and no row but a live one that is online. */
  lemma WorkerForgetsIff(p: Proc, now: int)
    ensures ForgetBackoff(p, now) ==
      if p.pid != 0 && p.status == Online && p.uptimeMs.Some? && now - p.uptimeMs.value > 30000
      then p.(prevRestartDelay := 0) else p
  {
  }

  /** Without backoff the delay is the fixed one, and none is remembered. */
  lemma FixedDelayRemembersNothing(p: Proc, c: Crash)
    requires p.config.backoffBase == 0 && DecideRestart(FactsAtExit(p, c)).Restart?
    ensures DecideRestart(FactsAtExit(p, c)).delayMs == p.config.restartDelay
    ensures AfterCrash(p, c).prevRestartDelay == 0
    ensures AfterCrash(p, c).status == if p.config.restartDelay > 0 then WaitingRestart else Launching
  {
  }

  // ----- what ends a run

  /** The exit is one the configuration does not restart from. */
  predicate CleanExit(config: AppConfig, c: Crash) {
    !config.autorestart || (c.code.Some? && c.code.value in config.stopExitCodes)
  }

  /** Left to itself an app stops at its first clean exit and nowhere else, unless it gave up before. */
  lemma {:induction false} StopsExactlyAtFirstCleanExit(p: Proc, crashes: seq<Crash>)
    ensures var r := CrashLoop(p, crashes);
      && r.taken <= |crashes|
      && (r.ended == None ==> r.taken == |crashes| && forall k :: 0 <= k < |crashes| ==> !CleanExit(p.config, crashes[k]))
      && (r.ended == None && r.taken > 0 ==> r.row.status in {Launching, WaitingRestart})
      && (r.ended.Some? ==> r.taken > 0)
      && (r.ended == Some(Stop) <==> r.taken > 0 && CleanExit(p.config, crashes[r.taken - 1]))
      && (forall k :: 0 <= k < r.taken - 1 ==> !CleanExit(p.config, crashes[k]))
      && (r.ended == Some(Stop) ==> r.row.status == Stopped)
      && (r.ended == Some(GiveUp) ==> r.row.status == Errored && r.row.unstableRestarts == p.config.maxRestarts)
      && (r.ended.Some? ==> r.row.pid == 0)
    decreases |crashes|
  {
    if crashes != [] {
      var d, q := DecideRestart(FactsAtExit(p, crashes[0])), AfterCrash(p, crashes[0]);
      if d.Restart? {
        StopsExactlyAtFirstCleanExit(q, crashes[1..]);
      }
    }
  }

  // ----- the delays of a crash run

  /** The delay before the restart that follows `k` consecutive restarts. */
  function DelayAfter(config: AppConfig, k: nat): u64 {
    if config.backoffBase == 0 then config.restartDelay else Orbit(config.backoffBase, k + 1)
  }

  /** The remembered delay is where the orbit stands after `k` consecutive restarts. */
  predicate StandsAt(p: Proc, k: nat) {
    p.config.backoffBase > 0 ==>
      p.prevRestartDelay == if k == 0 then 0 else Orbit(p.config.backoffBase, k)
  }

  lemma FirstWait(p: Proc, c: Crash, k: nat)
    requires StandsAt(p, k)
    ensures var d := DecideRestart(FactsAtExit(p, c));
      d.Restart? ==> d.delayMs == DelayAfter(p.config, k) && StandsAt(AfterCrash(p, c), k + 1)
    ensures AfterCrash(p, c).config == p.config
    ensures !DecideRestart(FactsAtExit(p, c)).Restart? ==> StandsAt(AfterCrash(p, c), k)
  {
  }

  /** The delays waited are those from the `k`-th on. */
  predicate WaitsFrom(config: AppConfig, k: nat, waits: seq<u64>) {
    forall j :: 0 <= j < |waits| ==> waits[j] == DelayAfter(config, k + j)
  }

  lemma WaitsPrepended(config: AppConfig, k: nat, wait: u64, rest: seq<u64>)
    requires wait == DelayAfter(config, k) && WaitsFrom(config, k + 1, rest)
    ensures WaitsFrom(config, k, [wait] + rest)
  {
    forall j | 1 <= j < |rest| + 1 ensures ([wait] + rest)[j] == DelayAfter(config, k + j) {
      assert rest[j - 1] == DelayAfter(config, k + 1 + (j - 1));
    }
  }

  lemma {:induction false} WaitsFollowOrbit(p: Proc, crashes: seq<Crash>, k: nat)
    requires StandsAt(p, k)
    ensures var r := CrashLoop(p, crashes);
      && |r.waits| == r.taken - (if r.ended.Some? then 1 else 0)
      && WaitsFrom(p.config, k, r.waits)
      && StandsAt(r.row, k + |r.waits|)
    decreases |crashes|
  {
    if crashes != [] {
      var q, d := AfterCrash(p, crashes[0]), DecideRestart(FactsAtExit(p, crashes[0]));
      FirstWait(p, crashes[0], k);
      if d.Restart? {
        WaitsFollowOrbit(q, crashes[1..], k + 1);
        WaitsPrepended(p.config, k, d.delayMs, CrashLoop(q, crashes[1..]).waits);
      }
    }
  }

  /** Before each consecutive restart a fresh app waits the next delay of its orbit, or its fixed delay
      when it has no backoff: for every configuration, and however the run ends. */
  lemma NthRestartWaitsNthDelay(config: AppConfig, pmId: nat, instance: nat, created: int, crashes: seq<Crash>)
    ensures var r := CrashLoop(NewProc(pmId, instance, config, created), crashes);
      && |r.waits| == r.taken - (if r.ended.Some? then 1 else 0)
      && forall n :: 0 <= n < |r.waits| ==>
           r.waits[n] == if config.backoffBase > 0 then Orbit(config.backoffBase, n + 1) else config.restartDelay
  {
    WaitsFollowOrbit(NewProc(pmId, instance, config, created), crashes, 0);
  }
}
