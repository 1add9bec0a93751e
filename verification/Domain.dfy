/** Values shared by every component: statuses, app configurations and table rows. */
module Domain {

  datatype Option<+T> = None | Some(value: T)

  const U64: int := 0x1_0000_0000_0000_0000
  const I63: int := 0x8000_0000_0000_0000

  type u64 = x: int | 0 <= x < 0x1_0000_0000_0000_0000
  type u32 = x: int | 0 <= x < 0x1_0000_0000

  datatype Status = Launching | Online | Stopping | Stopped | Errored | WaitingRestart

  /** The part of an app's configuration that decides identity, validity and restart policy.
      `name` is the effective name; `wellFormed` is the verdict of the validation rules that do not
      concern `instances`; `rest` stands for every other field. */
  datatype AppConfig = AppConfig(
    name: string,
    instances: nat,
    autostart: bool,
    autorestart: bool,
    stopExitCodes: seq<int>,
    minUptime: u64,
    maxRestarts: u32,
    restartDelay: u64,
    backoffBase: u64,
    wellFormed: bool,
    rest: string)
  {
    predicate Validates() {
      wellFormed && instances != 0
    }
  }

  /** One row of the process table. The table owns its rows by value, so a row is a value here.
      `cmdTx` names the supervisor whose command channel the row holds. */
  datatype Proc = Proc(
    pmId: nat,
    config: AppConfig,
    instance: nat,
    status: Status,
    pid: nat,
    restarts: nat,
    unstableRestarts: nat,
    createdAt: int,
    uptimeMs: Option<int>,
    prevRestartDelay: u64,
    exitCode: Option<int>,
    cmdTx: Option<nat>)
  {
    function ResetState(now: int): Proc {
      this.(unstableRestarts := 0, prevRestartDelay := 0, createdAt := now)
    }

    function ResetCounters(now: int): Proc {
      this.(restarts := 0, unstableRestarts := 0, prevRestartDelay := 0, createdAt := now)
    }
  }

  function NewProc(pmId: nat, instance: nat, config: AppConfig, now: int): Proc {
    Proc(pmId, config, instance, Stopped, 0, 0, 0, now, None, 0, None, None)
  }

  /** One dumped instance. Everything else about a row starts afresh when it is resurrected. */
  datatype DumpEntry = DumpEntry(pmId: nat, instance: nat, config: AppConfig)

  function EntryOf(p: Proc): DumpEntry {
    DumpEntry(p.pmId, p.instance, p.config)
  }

  /** The identity of every row of a table. */
  function Identities(procs: map<nat, Proc>): map<nat, DumpEntry> {
    map id | id in procs :: EntryOf(procs[id])
  }
}
