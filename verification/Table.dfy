/** The process table: rows by id, and the id counter. Each method is one lock-protected section of
    the daemon, so what every method keeps is kept by every interleaving of them. */
module Table {
  import opened Domain
  import opened Policy
  import Sections

  datatype Claim = NoRow | AlreadySupervised | Claimed

  class ProcessTable {
    var procs: map<nat, Proc>
    var nextId: nat

    /** Every id in use lies below the counter, and every row knows its id and a valid config. */
    ghost predicate Valid()
      reads this
    {
      forall id :: id in procs ==> id < nextId && procs[id].pmId == id && procs[id].config.Validates()
    }

    constructor ()
      ensures Valid() && procs == map[] && nextId == 0
    {
      procs := map[];
      nextId := 0;
    }

    // ----- identity

    /** The id returned is free, also right after the counter was reset by an emptied table. */
    method AllocId() returns (id: nat)
      requires Valid()
      modifies this
      ensures Valid() && procs == old(procs)
      ensures id !in procs
      ensures id == (if old(procs) == map[] then 0 else old(nextId)) && nextId == id + 1
    {
      if procs == map[] {
        nextId := 0;
      }
      id := nextId;
      nextId := nextId + 1;
    }

    method BumpNextId(used: nat)
      requires Valid()
      modifies this
      ensures Valid() && procs == old(procs)
      ensures nextId == if used >= old(nextId) then used + 1 else old(nextId)
    {
      if used >= nextId {
        nextId := used + 1;
      }
    }

    /** Allocating and inserting under one lock, as a plain start does. */
    method InsertFresh(instance: nat, config: AppConfig, now: int) returns (id: nat)
      requires Valid() && config.Validates()
      modifies this
      ensures Valid() && id !in old(procs)
      ensures id == (if old(procs) == map[] then 0 else old(nextId)) && nextId == id + 1
      ensures procs == old(procs)[id := NewProc(id, instance, config, now)]
    {
      id := AllocId();
      procs := procs[id := NewProc(id, instance, config, now)];
    }

    /** Inserting under an id chosen earlier: refused, not overwritten, when the id is taken by now. */
    method InsertFixed(id: nat, instance: nat, config: AppConfig, now: int) returns (ok: bool)
      requires Valid() && config.Validates()
      modifies this
      ensures Valid() && ok == (id !in old(procs))
      ensures procs == if ok then old(procs)[id := NewProc(id, instance, config, now)] else old(procs)
      ensures nextId == if ok && id >= old(nextId) then id + 1 else old(nextId)
    {
      if id in procs {
        return false;
      }
      BumpNextId(id);
      procs := procs[id := NewProc(id, instance, config, now)];
      ok := true;
    }

    method RemoveProc(id: nat)
      requires Valid()
      modifies this`procs
      ensures Valid() && procs == old(procs) - {id}
    {
      procs := procs - {id};
    }

    // ----- supervisor sections

    /** Claim the row for a new supervisor unless it already has one. */
    method Supervise(id: nat, channel: nat) returns (claim: Claim)
      requires Valid()
      modifies this`procs
      ensures Valid()
      ensures claim == if id !in old(procs) then NoRow
                       else if old(procs)[id].cmdTx.Some? then AlreadySupervised else Claimed
      ensures procs == if claim == Claimed then old(procs)[id := Sections.Supervise(old(procs)[id], channel)]
                       else old(procs)
    {
      if id !in procs {
        return NoRow;
      }
      var p := procs[id];
      if p.cmdTx.Some? {
        return AlreadySupervised;
      }
      p := p.(cmdTx := Some(channel));
      p := p.(status := Launching);
      procs := procs[id := p];
      claim := Claimed;
    }

    method GoOnline(id: nat, pid: nat, now: int)
      requires Valid()
      modifies this`procs
      ensures Valid()
      ensures procs == if id in old(procs) then old(procs)[id := Sections.GoOnline(old(procs)[id], pid, now)]
                       else old(procs)
    {
      if id in procs {
        var p := procs[id];
        p := p.(pid := pid);
        p := p.(status := Online);
        p := p.(uptimeMs := Some(now));
        p := p.(exitCode := None);
        procs := procs[id := p];
      }
    }

    /** Record a child's exit and capture the facts the decision will be taken on. */
    method RecordExit(id: nat, code: Option<int>, now: int) returns (facts: Option<ExitFacts>)
      requires Valid()
      modifies this`procs
      ensures Valid() && (facts.Some? <==> id in old(procs))
      ensures id in old(procs) ==>
        var p := Sections.RecordExit(old(procs)[id], code);
        procs == old(procs)[id := p] && facts == Some(Sections.FactsOf(p, code, now))
      ensures id !in old(procs) ==> procs == old(procs)
    {
      if id !in procs {
        return None;
      }
      var p := procs[id];
      p := p.(pid := 0);
      p := p.(exitCode := code);
      procs := procs[id := p];
      facts := Some(ExitFacts(p.status, p.config.autorestart, code, p.config.stopExitCodes,
        p.config.minUptime, p.config.maxRestarts, p.unstableRestarts, p.createdAt,
        match p.uptimeMs case Some(t) => t case None => p.createdAt,
        now, p.config.restartDelay, p.config.backoffBase, p.prevRestartDelay));
    }

    method MarkGaveUp(id: nat)
      requires Valid()
      modifies this`procs
      ensures Valid()
      ensures procs == if id in old(procs) then old(procs)[id := Sections.MarkGaveUp(old(procs)[id])] else old(procs)
    {
      if id in procs {
        var p := procs[id];
        p := p.(status := Errored);
        p := p.(unstableRestarts := p.config.maxRestarts);
        procs := procs[id := p];
      }
    }

    method ScheduleRestart(id: nat, delayMs: u64, unstable: nat, prev: u64)
      requires Valid()
      modifies this`procs
      ensures Valid()
      ensures procs == if id in old(procs)
                       then old(procs)[id := Sections.ScheduleRestart(old(procs)[id], delayMs, unstable, prev)]
                       else old(procs)
    {
      if id in procs {
        var p := procs[id];
        p := p.(unstableRestarts := unstable);
        p := p.(prevRestartDelay := prev);
        p := p.(restarts := p.restarts + 1);
        p := p.(status := if delayMs > 0 then WaitingRestart else Launching);
        procs := procs[id := p];
      }
    }

    /** A Restart command: `killed` tells the section after a kill from the one in a backoff wait. */
    method Forgive(id: nat, killed: bool, now: int)
      requires Valid()
      modifies this`procs
      ensures Valid()
      ensures procs == if id !in old(procs) then old(procs)
                       else if killed then old(procs)[id := Sections.ForgiveAfterKill(old(procs)[id], now)]
                       else old(procs)[id := Sections.ForgiveInBackoff(old(procs)[id], now)]
    {
      if id in procs {
        var p := procs[id].ResetState(now);
        p := p.(restarts := p.restarts + 1);
        p := p.(status := Launching);
        if killed {
          p := p.(pid := 0);
        }
        procs := procs[id := p];
      }
    }

    method MarkStopping(id: nat)
      requires Valid()
      modifies this`procs
      ensures Valid()
      ensures procs == if id in old(procs) then old(procs)[id := Sections.MarkStopping(old(procs)[id])] else old(procs)
    {
      if id in procs {
        procs := procs[id := procs[id].(status := Stopping)];
      }
    }

    method SetDead(id: nat, status: Status, code: Option<int>)
      requires Valid()
      modifies this`procs
      ensures Valid()
      ensures procs == if id in old(procs) then old(procs)[id := Sections.SetDead(old(procs)[id], status, code)]
                       else old(procs)
    {
      if id in procs {
        var p := procs[id];
        p := p.(status := status);
        p := p.(pid := 0);
        if code.Some? {
          p := p.(exitCode := code);
        }
        procs := procs[id := p];
      }
    }

    method ClearCmdTx(id: nat)
      requires Valid()
      modifies this`procs
      ensures Valid()
      ensures procs == if id in old(procs) then old(procs)[id := Sections.ClearCmdTx(old(procs)[id])] else old(procs)
    {
      if id in procs {
        procs := procs[id := procs[id].(cmdTx := None)];
      }
    }

    // ----- operation sections

    /** The channel a stop must address, or None when there is nothing to wait for. */
    method StopSnapshot(id: nat) returns (tx: Option<nat>)
      requires Valid()
      modifies this`procs
      ensures Valid()
      ensures tx == if id in old(procs) then old(procs)[id].cmdTx else None
      ensures procs == if id in old(procs) then old(procs)[id := Sections.StopSnapshot(old(procs)[id])] else old(procs)
    {
      if id !in procs {
        return None;
      }
      var p := procs[id];
      tx := p.cmdTx;
      if tx.Some? {
        p := p.(status := Stopping);
      } else {
        p := p.(status := Stopped);
      }
      procs := procs[id := p];
    }

    method NormaliseStop(id: nat)
      requires Valid()
      modifies this`procs
      ensures Valid()
      ensures procs == if id in old(procs) then old(procs)[id := Sections.NormaliseStop(old(procs)[id])] else old(procs)
    {
      if id in procs && procs[id].status == Stopping {
        procs := procs[id := procs[id].(status := Stopped)];
      }
    }

    method MarkForRestart(id: nat)
      requires Valid()
      modifies this`procs
      ensures Valid()
      ensures procs == if id in old(procs) then old(procs)[id := Sections.MarkForRestart(old(procs)[id])] else old(procs)
    {
      if id in procs && procs[id].status == Online {
        procs := procs[id := procs[id].(status := Stopping)];
      }
    }

    method ColdRestart(id: nat, now: int)
      requires Valid()
      modifies this`procs
      ensures Valid()
      ensures procs == if id in old(procs) then old(procs)[id := Sections.ColdRestart(old(procs)[id], now)]
                       else old(procs)
    {
      if id in procs {
        var p := procs[id].ResetState(now);
        p := p.(restarts := p.restarts + 1);
        procs := procs[id := p];
      }
    }

    method DeleteSnapshot(id: nat) returns (tx: Option<nat>)
      requires Valid()
      modifies this`procs
      ensures Valid()
      ensures tx == if id in old(procs) then old(procs)[id].cmdTx else None
      ensures procs == if id in old(procs) then old(procs)[id := Sections.DeleteSnapshot(old(procs)[id])] else old(procs)
    {
      if id !in procs {
        return None;
      }
      var p := procs[id];
      if p.cmdTx.Some? {
        p := p.(status := Stopping);
      }
      procs := procs[id := p];
      tx := p.cmdTx;
    }

    /** The reset command's section, for one row. */
    method ResetCounters(id: nat, now: int)
      requires Valid()
      modifies this`procs
      ensures Valid()
      ensures procs == if id in old(procs) then old(procs)[id := old(procs)[id].ResetCounters(now)] else old(procs)
    {
      if id in procs {
        procs := procs[id := procs[id].ResetCounters(now)];
      }
    }

    // ----- the worker's section

    /** The backoff part of one sampling pass: every live row whose run has been stable forgets it. */
    method ForgetBackoffs(now: int)
      requires Valid()
      modifies this`procs
      ensures Valid()
      ensures procs.Keys == old(procs).Keys
      ensures forall id :: id in procs ==> procs[id] == Sections.ForgetBackoff(old(procs)[id], now)
    {
      ghost var before := procs;
      var todo := procs.Keys;
      while todo != {}
        invariant todo <= before.Keys == procs.Keys
        invariant forall id :: id in before ==>
          procs[id] == if id in todo then before[id] else Sections.ForgetBackoff(before[id], now)
        decreases todo
      {
        var id :| id in todo;
        var p := procs[id];
        if p.pid != 0 && p.status == Online && p.prevRestartDelay > 0 && p.uptimeMs.Some?
           && now - p.uptimeMs.value > BACKOFF_RESET_AFTER_MS {
          p := p.(prevRestartDelay := 0);
        }
        procs := procs[id := p];
        todo := todo - {id};
      }
    }
  }

  // ----- id safety over every interleaving, at the width of the counter

  const U32: int := 0x1_0000_0000

  /** The counter after id `id`: 32-bit addition as the release build performs it. */
  function After(id: u32): u32 {
    (id + 1) % U32
  }

  /** The steps that touch ids. `Insert` carries an id allocated at any earlier time, or read from a dump. */
  datatype IdStep = Alloc | StartRow | Insert(id: u32) | Remove(id: u32)

  datatype Ids = Ids(used: set<u32>, next: u32)

  function Allocated(s: Ids): u32 {
    if s.used == {} then 0 else s.next
  }

  function IdNext(s: Ids, step: IdStep): Ids {
    match step
    case Alloc => s.(next := After(Allocated(s)))
    case StartRow => Ids(s.used + {Allocated(s)}, After(Allocated(s)))
    case Insert(id) =>
      if id in s.used then s else Ids(s.used + {id}, if id >= s.next then After(id) else s.next)
    case Remove(id) => s.(used := s.used - {id})
  }

  function IdRun(s: Ids, steps: seq<IdStep>): Ids
    decreases |steps|
  {
    if steps == [] then s else IdRun(IdNext(s, steps[0]), steps[1..])
  }

  predicate IdsBelow(s: Ids) {
    forall id :: id in s.used ==> id < s.next
  }

  /** The step would take the very last id. */
  predicate TakesLastId(s: Ids, step: IdStep) {
    match step
    case Alloc => Allocated(s) == U32 - 1
    case StartRow => Allocated(s) == U32 - 1
    case Insert(id) => id == U32 - 1
    case Remove(_) => false
  }

  /** No step of the run takes the last id. */
  predicate LastIdUntaken(s: Ids, steps: seq<IdStep>)
    decreases |steps|
  {
    steps == [] || (!TakesLastId(s, steps[0]) && LastIdUntaken(IdNext(s, steps[0]), steps[1..]))
  }

  /** Ids in use lie below the counter in every state of the run. */
  predicate AlwaysBelow(s: Ids, steps: seq<IdStep>)
    decreases |steps|
  {
    IdsBelow(s) && (steps == [] || AlwaysBelow(IdNext(s, steps[0]), steps[1..]))
  }

  lemma BelowIffNotLast(s: Ids, step: IdStep)
    requires IdsBelow(s)
    ensures IdsBelow(IdNext(s, step)) <==> !TakesLastId(s, step)
  {
    var s' := IdNext(s, step);
    if TakesLastId(s, step) {
      if step.Insert? {
        assert step.id in s'.used;
      } else {
        assert s.used != {};
        var id :| id in s.used;
        assert id in s'.used;
      }
    }
  }

  /** In every interleaving of allocations, insertions (of ids allocated however long ago) and removals,
      ids in use stay below the counter if and only if no step takes the last 32-bit id. */
  lemma {:induction false} AlwaysBelowIffLastIdUntaken(s: Ids, steps: seq<IdStep>)
    requires IdsBelow(s)
    ensures AlwaysBelow(s, steps) <==> LastIdUntaken(s, steps)
    ensures LastIdUntaken(s, steps) ==> IdsBelow(IdRun(s, steps))
    decreases |steps|
  {
    if steps != [] {
      BelowIffNotLast(s, steps[0]);
      if IdsBelow(IdNext(s, steps[0])) {
        AlwaysBelowIffLastIdUntaken(IdNext(s, steps[0]), steps[1..]);
      }
    }
  }

  /** The counter after the step if it had no width, as in the class above. */
  function UnboundedCounter(s: Ids, step: IdStep): nat {
    match step
    case Alloc => Allocated(s) + 1
    case StartRow => Allocated(s) + 1
    case Insert(id) => if id !in s.used && id >= s.next then id + 1 else s.next
    case Remove(_) => s.next
  }

  /** The width of the counter does not show until then: exactly that long the class counts as the daemon
      does. */
  lemma WidthShowsIffLastId(s: Ids, step: IdStep)
    requires IdsBelow(s)
    ensures IdNext(s, step).next == UnboundedCounter(s, step) <==> !TakesLastId(s, step)
  {
    if step.Insert? && TakesLastId(s, step) {
      assert step.id !in s.used;
    }
  }

  /** Until then an allocated id is free, and an insertion either adds exactly one row or changes
      nothing. */
  lemma IdsAreSafe(steps: seq<IdStep>, step: IdStep)
    requires LastIdUntaken(Ids({}, 0), steps)
    ensures var s := IdRun(Ids({}, 0), steps);
      && IdsBelow(s)
      && Allocated(s) !in s.used
      && (step.Insert? || step.StartRow? ==>
            IdNext(s, step) == s || |IdNext(s, step).used| == |s.used| + 1)
  {
    AlwaysBelowIffLastIdUntaken(Ids({}, 0), steps);
  }

  /** Afterwards it may not be: once a dump row with the last id is inserted the counter wraps to 0, and
      the next start overwrites row 0. */
  lemma LastIdWrapsTheCounter()
    ensures var s := IdRun(Ids({}, 0), [StartRow, Insert(U32 - 1)]);
      && s == Ids({0, U32 - 1}, 0)
      && Allocated(s) in s.used
      && IdNext(s, StartRow).used == s.used
  {
    var steps := [StartRow, Insert(U32 - 1)];
    assert steps[1..] == [Insert(U32 - 1)] && steps[1..][1..] == [];
    var one := IdNext(Ids({}, 0), StartRow);
    assert one == Ids({0}, 1);
    var two := IdNext(one, Insert(U32 - 1));
    assert IdRun(Ids({}, 0), steps) == IdRun(one, steps[1..]) == IdRun(two, []) == two;
  }

  // ----- when an id in use is handed out again

  function Allocs(n: nat): seq<IdStep> {
    if n == 0 then [] else [Alloc] + Allocs(n - 1)
  }

  lemma {:induction false} AllocsAdvance(s: Ids, n: nat)
    requires s.used != {} && s.next + n < U32
    ensures IdRun(s, Allocs(n)) == s.(next := s.next + n)
    decreases n
  {
    if n > 0 {
      assert Allocs(n)[1..] == Allocs(n - 1);
      AllocsAdvance(IdNext(s, Alloc), n - 1);
    }
  }

  /** `n` allocations, none of them of the last id, lead to one that hands out an id in use. */
  predicate HandsOutUsedId(s: Ids, n: nat) {
    s.next + n < U32 && Allocated(IdRun(s, Allocs(n))) in s.used
  }

  /** On a table in use, allocations alone hand out an id in use, before they come to the last id, if and
      only if some id in use is not below the counter. */
  lemma ReusesUsedIdIffNotBelow(s: Ids)
    requires s.used != {}
    ensures (exists n :: HandsOutUsedId(s, n)) <==> !IdsBelow(s)
  {
    forall n: nat | HandsOutUsedId(s, n) ensures !IdsBelow(s) {
      AllocsAdvance(s, n);
      assert s.next + n in s.used;
    }
    if !IdsBelow(s) {
      var id :| id in s.used && id >= s.next;
      AllocsAdvance(s, id - s.next);
      assert HandsOutUsedId(s, id - s.next);
    }
  }

  /** Taking the last id is not yet reusing one: when its row is removed in time, nothing is reused. */
  lemma LastIdMayGoUnnoticed()
    ensures var s := IdRun(Ids({}, 0), [Insert(U32 - 1), Remove(U32 - 1)]);
      && !LastIdUntaken(Ids({}, 0), [Insert(U32 - 1), Remove(U32 - 1)])
      && Allocated(s) !in s.used && IdsBelow(s)
  {
    var steps := [Insert(U32 - 1), Remove(U32 - 1)];
    assert steps[1..] == [Remove(U32 - 1)] && steps[1..][1..] == [];
    var one := IdNext(Ids({}, 0), Insert(U32 - 1));
    var two := IdNext(one, Remove(U32 - 1));
    assert two.used == {};
    assert IdRun(Ids({}, 0), steps) == IdRun(one, steps[1..]) == IdRun(two, []) == two;
  }
}
