/** The restart decision taken after a child exits on its own. */
module Policy {
  import opened Domain

  /** Exponential backoff cap in milliseconds. */
  const BACKOFF_CAP_MS: u64 := 15000
  /** Stable uptime after which the worker forgets the backoff. */
  const BACKOFF_RESET_AFTER_MS: int := 30000

  datatype Decision =
    | Stop
    | GiveUp
    | Restart(delayMs: u64, unstableRestarts: nat, prevRestartDelay: u64)

  datatype ExitFacts = ExitFacts(
    status: Status,
    autorestart: bool,
    exitCode: Option<int>,
    stopExitCodes: seq<int>,
    minUptimeMs: u64,
    maxRestarts: u32,
    unstableRestarts: nat,
    createdAtMs: int,
    onlineSinceMs: int,
    nowMs: int,
    restartDelayMs: u64,
    backoffBaseMs: u64,
    prevRestartDelayMs: u64)

  function SaturatingMul(a: u64, b: u64): u64 {
    if a * b >= U64 then U64 - 1 else a * b
  }

  /** The two's-complement cast from u64 to i64. */
  function AsI64(v: u64): int {
    if v >= I63 then v - U64 else v
  }

  /** u64 multiplication as the release build performs it: modulo 2^64. */
  function WrappingMul(a: u64, b: u64): u64 {
    (a * b) % U64
  }

  predicate WantsStop(f: ExitFacts) {
    || f.status in {Stopping, Stopped, Errored}
    || !f.autorestart
    || (f.exitCode.Some? && f.exitCode.value in f.stopExitCodes)
  }

  predicate IsUnstable(f: ExitFacts) {
    var window := AsI64(SaturatingMul(f.minUptimeMs, f.maxRestarts));
    f.nowMs - f.createdAtMs < window && f.nowMs - f.onlineSinceMs < AsI64(f.minUptimeMs)
  }

  function NextBackoff(base: u64, prev: u64): u64 {
    if prev == 0 then base
    else
      var grown := WrappingMul(prev, 3) / 2;
      if grown < BACKOFF_CAP_MS then grown else BACKOFF_CAP_MS
  }

  function DecideRestart(f: ExitFacts): Decision {
    if WantsStop(f) then Stop
    else
      var unstable := f.unstableRestarts + (if IsUnstable(f) then 1 else 0);
      if unstable >= f.maxRestarts then GiveUp
      else if f.backoffBaseMs > 0 then
        var next := NextBackoff(f.backoffBaseMs, f.prevRestartDelayMs);
        Restart(next, unstable, next)
      else Restart(f.restartDelayMs, unstable, 0)
  }
}
