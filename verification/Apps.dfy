/** Operations that add and remove rows, run one after another: start, scale, delete, snapshot and
    resurrect. Launches may succeed or fail as they please. */
module Apps {
  import opened Domain
  import opened Table

  datatype StartError = Invalid | NameTaken | Occupied(id: nat) | LaunchFailed(id: nat) | ZeroInstances | NoSuchName

  datatype Result<+T> = Ok(value: T) | Err(error: StartError)

  // ----- identity of instances

  function Names(procs: map<nat, Proc>): set<string> {
    set id | id in procs :: procs[id].config.name
  }

  function Named(procs: map<nat, Proc>, name: string): set<nat> {
    set id | id in procs && procs[id].config.name == name
  }

  /** No two rows share a name and an instance number. */
  ghost predicate UniqueInstances(procs: map<nat, Proc>) {
    forall a, b :: a in procs && b in procs && a != b && procs[a].config.name == procs[b].config.name
                   ==> procs[a].instance != procs[b].instance
  }

  /** Every row of `before` is a row of `after`, untouched. */
  predicate Keeps(before: map<nat, Proc>, after: map<nat, Proc>) {
    forall id :: id in before ==> id in after && after[id] == before[id]
  }

  // ----- launching

  /** Counters and clock of a row as `start` creates it. */
  predicate Untried(p: Proc, now: int) {
    p.restarts == 0 && p.unstableRestarts == 0 && p.prevRestartDelay == 0 && p.createdAt == now && p.exitCode == None
  }

  predicate IsUp(p: Proc, pid: nat, now: int) {
    Untried(p, now) && p.status == Online && p.pid == pid != 0 && p.cmdTx.Some? && p.uptimeMs == Some(now)
  }

  predicate IsFailed(p: Proc, now: int) {
    Untried(p, now) && p.status == Errored && p.pid == 0 && p.cmdTx.None? && p.uptimeMs.None?
  }

  predicate IsIdle(p: Proc, now: int) {
    Untried(p, now) && p.status == Stopped && p.pid == 0 && p.cmdTx.None? && p.uptimeMs.None?
  }

  /** How a start leaves a row: idle without autostart, otherwise up, or failed if its spawn failed. `pid` is
      the child's, 0 when spawning fails. */
  predicate Begun(p: Proc, pid: nat, now: int) {
    if !p.config.autostart then IsIdle(p, now)
    else if pid != 0 then IsUp(p, pid, now)
    else IsFailed(p, now)
  }

  /** Every row that was not there before is as a start leaves it; `spawn` gives each row's child. */
  predicate NewRowsBegun(before: map<nat, Proc>, after: map<nat, Proc>, spawn: nat -> nat, now: int) {
    forall id :: id in after && id !in before ==> Begun(after[id], spawn(id), now)
  }

  /** No row that was not there before failed to spawn. */
  predicate NoneFailed(before: map<nat, Proc>, after: map<nat, Proc>, spawn: nat -> nat) {
    forall id :: id in after && id !in before && after[id].config.autostart ==> spawn(id) != 0
  }

  /** A launch, seen from outside. A supervised row is left as it is; an idle one comes online under the new
      supervisor if its child spawns, and otherwise ends Errored and idle again. */
  method Launch(t: ProcessTable, id: nat, channel: nat, pid: nat, now: int) returns (ok: bool)
    requires t.Valid() && id in t.procs
    modifies t`procs
    ensures t.Valid() && id in t.procs
    ensures old(t.procs)[id].cmdTx.Some? ==> ok && t.procs == old(t.procs)
    ensures old(t.procs)[id].cmdTx.None? ==> ok == (pid != 0)
    ensures old(t.procs)[id].cmdTx.None? && pid != 0 ==>
      t.procs == old(t.procs)[id := old(t.procs)[id].(status := Online, pid := pid, cmdTx := Some(channel),
                                                       uptimeMs := Some(now), exitCode := None)]
    ensures old(t.procs)[id].cmdTx.None? && pid == 0 ==>
      t.procs == old(t.procs)[id := old(t.procs)[id].(status := Errored, pid := 0)]
  {
    var claim := t.Supervise(id, channel);
    if claim == AlreadySupervised {
      return true;
    }
    ok := pid != 0;
    if ok {
      t.GoOnline(id, pid, now);
    } else {
      t.SetDead(id, Errored, None);
      t.ClearCmdTx(id);
    }
  }

  // ----- start

  /** `after` is `before` plus `count` instances of `app`, numbered from 0, under consecutive new ids from
      `first`. */
  ghost predicate Grown(before: map<nat, Proc>, after: map<nat, Proc>, first: nat, app: AppConfig, count: nat) {
    && Keeps(before, after)
    && (forall id :: id in after <==> id in before || first <= id < first + count)
    && (forall id :: first <= id < first + count ==>
          id !in before && EntryOf(after[id]) == DumpEntry(id, id - first, app))
  }

  /** Writing the row of the instance being started. */
  lemma GrownRow(before: map<nat, Proc>, rows: map<nat, Proc>, first: nat, app: AppConfig, count: nat, p: Proc)
    requires Grown(before, rows, first, app, count) || Grown(before, rows, first, app, count + 1)
    requires first + count !in before && EntryOf(p) == DumpEntry(first + count, count, app)
    ensures Grown(before, rows[first + count := p], first, app, count + 1)
  {
  }

  lemma GrownIsUnique(before: map<nat, Proc>, after: map<nat, Proc>, first: nat, app: AppConfig, count: nat)
    requires app.name !in Names(before) && Grown(before, after, first, app, count)
    ensures UniqueInstances(before) ==> UniqueInstances(after)
  {
    forall a, b | UniqueInstances(before) && a in after && b in after && a != b && after[a].config.name == after[b].config.name
      ensures after[a].instance != after[b].instance
    {
      assert first <= a < first + count ==> EntryOf(after[a]) == DumpEntry(a, a - first, app);
      assert first <= b < first + count ==> EntryOf(after[b]) == DumpEntry(b, b - first, app);
      assert a in before ==> before[a].config.name in Names(before);
      assert b in before ==> before[b].config.name in Names(before);
    }
  }

  /** Insert the next instance of a start and launch it. */
  method StartInstance(t: ProcessTable, app: AppConfig, instance: nat, spawn: nat -> nat, now: int)
    returns (id: nat, launched: bool)
    requires t.Valid() && app.Validates()
    modifies t
    ensures t.Valid() && t.procs != map[]
    ensures id == (if old(t.procs) == map[] then 0 else old(t.nextId)) && t.nextId == id + 1
    ensures id !in old(t.procs) && id in t.procs && t.procs == old(t.procs)[id := t.procs[id]]
    ensures EntryOf(t.procs[id]) == DumpEntry(id, instance, app)
    ensures Begun(t.procs[id], spawn(id), now) && launched == (app.autostart ==> spawn(id) != 0)
  {
    id := t.InsertFresh(instance, app, now);
    launched := true;
    if app.autostart {
      launched := Launch(t, id, id, spawn(id), now);
    }
  }

  /** How far a start gets: to the first instance whose spawn fails. */
  predicate StopsAtFailure(app: AppConfig, first: nat, count: nat, failed: bool, spawn: nat -> nat) {
    && (forall id :: first <= id < first + count - (if failed then 1 else 0) && app.autostart ==> spawn(id) != 0)
    && (failed ==> app.autostart && count > 0 && spawn(first + count - 1) == 0)
  }

  /** `after` is `before` plus `count` instances of `app`, each as a start leaves it; the last one failed to
      spawn if `failed`, and no other did. */
  ghost predicate Started(before: map<nat, Proc>, after: map<nat, Proc>, first: nat, app: AppConfig, count: nat,
                          failed: bool, spawn: nat -> nat, now: int)
  {
    && Grown(before, after, first, app, count)
    && StopsAtFailure(app, first, count, failed, spawn)
    && NewRowsBegun(before, after, spawn, now)
  }

  lemma StartedRow(before: map<nat, Proc>, rows: map<nat, Proc>, first: nat, app: AppConfig, count: nat, p: Proc,
                   spawn: nat -> nat, now: int)
    requires Started(before, rows, first, app, count, false, spawn, now)
    requires first + count !in before && EntryOf(p) == DumpEntry(first + count, count, app)
    requires Begun(p, spawn(first + count), now)
    ensures Started(before, rows[first + count := p], first, app, count + 1,
                    app.autostart && spawn(first + count) == 0, spawn, now)
  {
    GrownRow(before, rows, first, app, count, p);
    BegunRow(before, rows, first + count, p, spawn, now);
  }

  lemma BegunRow(before: map<nat, Proc>, rows: map<nat, Proc>, id: nat, p: Proc, spawn: nat -> nat, now: int)
    requires NewRowsBegun(before, rows, spawn, now) && Begun(p, spawn(id), now)
    ensures NewRowsBegun(before, rows[id := p], spawn, now)
  {
  }

  /** The id that would be allocated next. */
  function NextFree(t: ProcessTable): nat
    reads t
  {
    if t.procs == map[] then 0 else t.nextId
  }

  predicate AllBelow(procs: map<nat, Proc>, bound: nat) {
    forall id :: id in procs ==> id < bound
  }

  predicate Numbered(ids: seq<nat>, first: nat) {
    forall k :: 0 <= k < |ids| ==> ids[k] == first + k
  }

  lemma NumberedNext(ids: seq<nat>, first: nat)
    requires Numbered(ids, first)
    ensures Numbered(ids + [first + |ids|], first)
  {
  }

  /** One more instance of a start that has inserted `ids` so far. */
  method StartOneMore(t: ProcessTable, ghost before: map<nat, Proc>, ghost first: nat, app: AppConfig, ids: seq<nat>,
                      spawn: nat -> nat, now: int) returns (more: seq<nat>, launched: bool)
    requires t.Valid() && app.Validates() && Started(before, t.procs, first, app, |ids|, false, spawn, now)
    requires first + |ids| == NextFree(t) && AllBelow(before, first) && Numbered(ids, first)
    modifies t
    ensures t.Valid() && |more| == |ids| + 1 && Numbered(more, first) && NextFree(t) == first + |more|
    ensures Started(before, t.procs, first, app, |more|, !launched, spawn, now)
  {
    ghost var rows := t.procs;
    var id;
    id, launched := StartInstance(t, app, |ids|, spawn, now);
    StartedRow(before, rows, first, app, |ids|, t.procs[id], spawn, now);
    NumberedNext(ids, first);
    more := ids + [id];
  }

  lemma NothingStarted(before: map<nat, Proc>, first: nat, app: AppConfig, spawn: nat -> nat, now: int)
    ensures Started(before, before, first, app, 0, false, spawn, now)
  {
  }

  /** The loop of a start over the instances; it stops after the first launch that fails. */
  method StartInstances(t: ProcessTable, app: AppConfig, spawn: nat -> nat, now: int) returns (ids: seq<nat>, failed: bool)
    requires t.Valid() && app.Validates()
    modifies t
    ensures t.Valid() && Numbered(ids, old(NextFree(t)))
    ensures Started(old(t.procs), t.procs, old(NextFree(t)), app, |ids|, failed, spawn, now)
    ensures if failed then 1 <= |ids| <= app.instances else |ids| == app.instances
  {
    ghost var before, first := t.procs, NextFree(t);
    assert AllBelow(before, first);
    NothingStarted(before, first, app, spawn, now);
    ids := [];
    while |ids| < app.instances
      invariant |ids| <= app.instances && Numbered(ids, first)
      invariant t.Valid() && first + |ids| == NextFree(t)
      invariant Started(before, t.procs, first, app, |ids|, false, spawn, now)
    {
      var launched;
      ids, launched := StartOneMore(t, before, first, app, ids, spawn, now);
      if !launched {
        return ids, true;
      }
    }
    failed := false;
  }

  /** A plain start: rejected when the app is invalid or its name in use, otherwise one row per
      instance under fresh consecutive ids, each launched unless the app says not to. A failing launch stops
      it after the row it concerns. */
  method StartNew(t: ProcessTable, app: AppConfig, spawn: nat -> nat, now: int) returns (r: Result<seq<nat>>, ghost count: nat)
    requires t.Valid()
    modifies t
    ensures t.Valid() && Keeps(old(t.procs), t.procs)
    ensures app.instances == 0 ==> r == Err(Invalid)
    ensures !app.Validates() ==> r == Err(Invalid) && t.procs == old(t.procs)
    ensures app.Validates() && app.name in Names(old(t.procs)) ==> r == Err(NameTaken) && t.procs == old(t.procs)
    ensures app.Validates() && app.name !in Names(old(t.procs)) ==>
      var first := old(NextFree(t));
      && Started(old(t.procs), t.procs, first, app, count, r.Err?, spawn, now)
      && match r
         case Ok(ids) => count == app.instances && |ids| == count && Numbered(ids, first)
         case Err(e) => 1 <= count <= app.instances && e == LaunchFailed(first + count - 1)
    ensures UniqueInstances(old(t.procs)) ==> UniqueInstances(t.procs)
  {
    count := 0;
    if !app.Validates() {
      return Err(Invalid), 0;
    }
    if app.name in Names(t.procs) {
      return Err(NameTaken), 0;
    }
    ghost var before, first := t.procs, NextFree(t);
    var ids, failed := StartInstances(t, app, spawn, now);
    GrownIsUnique(before, t.procs, first, app, |ids|);
    count := |ids|;
    r := if failed then Err(LaunchFailed(ids[|ids| - 1])) else Ok(ids);
  }

  /** What a start's outcome means for its rows: on success each is up, or idle if the app is not started by
      itself; on failure the last one is Errored and idle, and those before it are up. */
  lemma StartOutcome(before: map<nat, Proc>, after: map<nat, Proc>, first: nat, app: AppConfig, count: nat,
                     failed: bool, spawn: nat -> nat, now: int, k: nat)
    requires Started(before, after, first, app, count, failed, spawn, now) && k < count
    ensures first + k in after
    ensures var p := after[first + k];
      && p.config == app && p.instance == k
      && (!app.autostart ==> p.status == Stopped && p.pid == 0 && p.cmdTx.None?)
      && (app.autostart && failed && k == count - 1 ==> p.status == Errored && p.pid == 0 && p.cmdTx.None?)
      && (app.autostart && !(failed && k == count - 1) ==>
            p.status == Online && p.pid == spawn(first + k) != 0 && p.cmdTx.Some?)
  {
    assert EntryOf(after[first + k]) == DumpEntry(first + k, k, app);
    assert Begun(after[first + k], spawn(first + k), now);
  }

  lemma IdentitiesUpdate(procs: map<nat, Proc>, id: nat, p: Proc)
    ensures Identities(procs[id := p]) == Identities(procs)[id := EntryOf(p)]
  {
  }

  /** A start under a pinned id and instance, as scale and resurrect use it. */
  method StartFixed(t: ProcessTable, app: AppConfig, id: nat, instance: nat, spawn: nat -> nat, now: int) returns (r: Result<nat>)
    requires t.Valid()
    modifies t
    ensures t.Valid() && t.nextId >= old(t.nextId)
    ensures !app.Validates() ==> r == Err(Invalid) && t.procs == old(t.procs)
    ensures app.Validates() && id in old(t.procs) ==> r == Err(Occupied(id)) && t.procs == old(t.procs)
    ensures app.Validates() && id !in old(t.procs) ==>
      && r == (if app.autostart && spawn(id) == 0 then Err(LaunchFailed(id)) else Ok(id))
      && id in t.procs && t.procs == old(t.procs)[id := t.procs[id]]
      && EntryOf(t.procs[id]) == DumpEntry(id, instance, app)
      && Begun(t.procs[id], spawn(id), now)
  {
    if !app.Validates() {
      return Err(Invalid);
    }
    var inserted := t.InsertFixed(id, instance, app, now);
    if !inserted {
      return Err(Occupied(id));
    }
    if app.autostart {
      var launched := Launch(t, id, id, spawn(id), now);
      if !launched {
        return Err(LaunchFailed(id));
      }
    }
    r := Ok(id);
  }

  // ----- sorting

  /** The ids of a sequence, as a set. */
  function Elements(s: seq<nat>): set<nat> {
    set k | 0 <= k < |s| :: s[k]
  }

  ghost predicate Distinct(s: seq<nat>) {
    forall j, k :: 0 <= j < k < |s| ==> s[j] != s[k]
  }

  method PickLeast(ids: set<nat>, key: map<nat, nat>) returns (least: nat)
    requires ids != {} && ids <= key.Keys
    ensures least in ids && forall j :: j in ids ==> key[least] <= key[j]
  {
    least :| least in ids;
    var todo := ids - {least};
    while todo != {}
      invariant todo <= ids && least in ids
      invariant forall j :: j in ids && j !in todo ==> key[least] <= key[j]
      decreases todo
    {
      var j :| j in todo;
      todo := todo - {j};
      if key[j] < key[least] {
        least := j;
      }
    }
  }

  /** The ids in order of their keys. */
  method SortIds(ids: set<nat>, key: map<nat, nat>) returns (sorted: seq<nat>)
    requires ids <= key.Keys
    ensures |sorted| == |ids| && Elements(sorted) == ids && Distinct(sorted)
    ensures forall k :: 0 <= k < |sorted| ==> sorted[k] in key
    ensures forall j, k :: 0 <= j < k < |sorted| ==> key[sorted[j]] <= key[sorted[k]]
  {
    sorted := [];
    var rest := ids;
    while rest != {}
      invariant rest <= ids && |sorted| + |rest| == |ids|
      invariant forall id :: id in ids <==> id in rest || id in sorted
      invariant forall k :: 0 <= k < |sorted| ==> sorted[k] in ids && sorted[k] !in rest
      invariant forall j, k :: 0 <= j < k < |sorted| ==> sorted[j] != sorted[k]
      invariant forall j, k :: 0 <= j < k < |sorted| ==> key[sorted[j]] <= key[sorted[k]]
      invariant forall k, id :: 0 <= k < |sorted| && id in rest ==> key[sorted[k]] <= key[id]
      decreases rest
    {
      var least := PickLeast(rest, key);
      sorted := sorted + [least];
      rest := rest - {least};
    }
  }

  // ----- scale

  lemma {:induction false} ElementsCount(s: seq<nat>)
    requires Distinct(s)
    ensures |Elements(s)| == |s|
  {
    if s != [] {
      var init := s[..|s| - 1];
      ElementsCount(init);
      assert s[|s| - 1] !in Elements(init);
      assert Elements(s) == Elements(init) + {s[|s| - 1]} by {
        forall x | x in Elements(s) ensures x in Elements(init) + {s[|s| - 1]} {
          var k :| 0 <= k < |s| && s[k] == x;
          assert k < |s| - 1 ==> init[k] == x;
        }
        forall x | x in Elements(init) ensures x in Elements(s) {
          var k :| 0 <= k < |init| && init[k] == x;
          assert s[k] == x;
        }
        assert s[|s| - 1] in Elements(s);
      }
    }
  }

  /** `after` is `before` plus clones of `config` under new ids, numbered on from instance `next`. */
  ghost predicate ScaledUp(before: map<nat, Proc>, after: map<nat, Proc>, fresh': seq<nat>, next: nat, config: AppConfig) {
    && Keeps(before, after) && Distinct(fresh')
    && (forall id :: id in after <==> id in before || id in fresh')
    && (forall k :: 0 <= k < |fresh'| ==>
          fresh'[k] !in before && EntryOf(after[fresh'[k]]) == DumpEntry(fresh'[k], next + k, config))
  }

  lemma ScaledUpRow(before: map<nat, Proc>, rows: map<nat, Proc>, fresh': seq<nat>, next: nat, config: AppConfig, id: nat, p: Proc)
    requires ScaledUp(before, rows, fresh', next, config) && id !in rows
    requires EntryOf(p) == DumpEntry(id, next + |fresh'|, config)
    ensures ScaledUp(before, rows[id := p], fresh' + [id], next, config)
  {
  }

  lemma ScaledUpRows(before: map<nat, Proc>, after: map<nat, Proc>, fresh': seq<nat>, next: nat, config: AppConfig)
    requires ScaledUp(before, after, fresh', next, config)
    ensures forall id :: id in Elements(fresh') <==> id in after && id !in before
    ensures forall id :: id in after && id !in before ==> after[id].config == config
  {
    forall id | id in Elements(fresh') ensures id in after && id !in before {
      var k :| 0 <= k < |fresh'| && fresh'[k] == id;
      assert EntryOf(after[fresh'[k]]) == DumpEntry(fresh'[k], next + k, config);
    }
    forall id | id in after && id !in before ensures id in Elements(fresh') && after[id].config == config {
      var k :| 0 <= k < |fresh'| && fresh'[k] == id;
      assert EntryOf(after[fresh'[k]]) == DumpEntry(fresh'[k], next + k, config);
    }
  }

  lemma ScaledUpCount(before: map<nat, Proc>, after: map<nat, Proc>, fresh': seq<nat>, next: nat, config: AppConfig)
    requires ScaledUp(before, after, fresh', next, config)
    ensures |Named(after, config.name)| == |Named(before, config.name)| + |fresh'|
    ensures forall name :: name != config.name ==> Named(after, name) == Named(before, name)
  {
    ElementsCount(fresh');
    ScaledUpRows(before, after, fresh', next, config);
    assert Named(after, config.name) == Named(before, config.name) + Elements(fresh');
  }

  lemma ScaledUpIsUnique(before: map<nat, Proc>, after: map<nat, Proc>, fresh': seq<nat>, next: nat, config: AppConfig)
    requires ScaledUp(before, after, fresh', next, config)
    requires forall id :: id in Named(before, config.name) ==> before[id].instance < next
    ensures UniqueInstances(before) ==> UniqueInstances(after)
  {
    if UniqueInstances(before) {
      forall a, b | a in after && b in after && a != b && after[a].config.name == after[b].config.name
        ensures after[a].instance != after[b].instance
      {
        if a !in before {
          var k :| 0 <= k < |fresh'| && fresh'[k] == a;
          assert EntryOf(after[a]) == DumpEntry(a, next + k, config);
          if b !in before {
            var l :| 0 <= l < |fresh'| && fresh'[l] == b;
            assert EntryOf(after[b]) == DumpEntry(b, next + l, config);
          } else {
            assert b in Named(before, config.name);
          }
        } else if b !in before {
          var l :| 0 <= l < |fresh'| && fresh'[l] == b;
          assert EntryOf(after[b]) == DumpEntry(b, next + l, config);
          assert a in Named(before, config.name);
        }
      }
    }
  }

  /** `fresh'` are clones added to `before`, each as a start leaves it. */
  ghost predicate Cloned(before: map<nat, Proc>, after: map<nat, Proc>, fresh': seq<nat>, next: nat, config: AppConfig,
                         spawn: nat -> nat, now: int)
  {
    ScaledUp(before, after, fresh', next, config) && NewRowsBegun(before, after, spawn, now)
  }

  lemma NothingCloned(before: map<nat, Proc>, next: nat, config: AppConfig, spawn: nat -> nat, now: int)
    ensures Cloned(before, before, [], next, config, spawn, now) && NoneFailed(before, before, spawn)
  {
  }

  /** One more clone, under an id allocated just before, in a section of its own. */
  method CloneOneMore(t: ProcessTable, ghost before: map<nat, Proc>, ghost fresh': seq<nat>, config: AppConfig,
                      instance: nat, ghost next: nat, spawn: nat -> nat, now: int) returns (r: Result<nat>, ghost id: nat)
    requires t.Valid() && config.Validates() && instance == next + |fresh'|
    requires Cloned(before, t.procs, fresh', next, config, spawn, now) && NoneFailed(before, t.procs, spawn)
    modifies t
    ensures t.Valid() && Cloned(before, t.procs, fresh' + [id], next, config, spawn, now)
    ensures r == if config.autostart && spawn(id) == 0 then Err(LaunchFailed(id)) else Ok(id)
    ensures r.Ok? ==> NoneFailed(before, t.procs, spawn)
  {
    var newId := t.AllocId();
    id := newId;
    ghost var rows := t.procs;
    r := StartFixed(t, config, newId, instance, spawn, now);
    ScaledUpRow(before, rows, fresh', next, config, id, t.procs[id]);
    BegunRow(before, rows, id, t.procs[id], spawn, now);
  }

  /** Growing by `count` clones; it stops at the first that fails. */
  method GrowTo(t: ProcessTable, config: AppConfig, next: nat, count: nat, spawn: nat -> nat, now: int)
    returns (r: Result<seq<nat>>, ghost fresh': seq<nat>)
    requires t.Valid() && config.Validates()
    modifies t
    ensures t.Valid() && Cloned(old(t.procs), t.procs, fresh', next, config, spawn, now)
    ensures r.Ok? ==> r.value == fresh' && |fresh'| == count && NoneFailed(old(t.procs), t.procs, spawn)
    ensures r.Err? ==>
      && 1 <= |fresh'| <= count
      && r.error == LaunchFailed(fresh'[|fresh'| - 1]) && config.autostart && spawn(fresh'[|fresh'| - 1]) == 0
  {
    ghost var before := t.procs;
    NothingCloned(before, next, config, spawn, now);
    var ids: seq<nat> := [];
    fresh' := [];
    for i := 0 to count
      invariant t.Valid() && |ids| == i && ids == fresh'
      invariant Cloned(before, t.procs, fresh', next, config, spawn, now) && NoneFailed(before, t.procs, spawn)
    {
      var cloned;
      ghost var id;
      cloned, id := CloneOneMore(t, before, fresh', config, next + i, next, spawn, now);
      fresh' := fresh' + [id];
      if cloned.Err? {
        return Err(cloned.error), fresh';
      }
      ids := ids + [cloned.value];
    }
    r := Ok(ids);
  }

  /** Shrinking: the rows listed are deleted, nothing else changes. */
  method ShrinkBy(t: ProcessTable, doomed: seq<nat>)
    requires t.Valid()
    modifies t`procs
    ensures t.Valid() && t.procs == old(t.procs) - Elements(doomed)
  {
    ghost var before := t.procs;
    for k := 0 to |doomed|
      invariant t.Valid() && t.procs == before - Elements(doomed[..k])
    {
      t.RemoveProc(doomed[k]);
      assert Elements(doomed[..k + 1]) == Elements(doomed[..k]) + {doomed[k]} by {
        assert doomed[..k + 1][k] == doomed[k];
        forall x | x in Elements(doomed[..k]) ensures x in Elements(doomed[..k + 1]) {
          var j :| 0 <= j < k && doomed[..k][j] == x;
          assert doomed[..k + 1][j] == x;
        }
      }
    }
    assert doomed[..|doomed|] == doomed;
  }

  /** Every new row is a single-instance clone of a lowest-numbered row of the app, and is numbered above
      all rows of the app. */
  ghost predicate Clones(before: map<nat, Proc>, after: map<nat, Proc>, name: string) {
    && (forall id, other :: id in after && id !in before && other in Named(before, name) ==>
          before[other].instance < after[id].instance)
    && (exists lowest :: IsLowest(before, name, lowest) &&
          forall id :: id in after && id !in before ==> after[id].config == before[lowest].config.(instances := 1))
  }

  ghost predicate IsLowest(procs: map<nat, Proc>, name: string, id: nat) {
    id in Named(procs, name) && forall other :: other in Named(procs, name) ==> procs[id].instance <= procs[other].instance
  }

  lemma ScaledUpClones(before: map<nat, Proc>, after: map<nat, Proc>, fresh': seq<nat>, next: nat, lowest: nat, name: string)
    requires IsLowest(before, name, lowest)
    requires ScaledUp(before, after, fresh', next, before[lowest].config.(instances := 1))
    requires forall id :: id in Named(before, name) ==> before[id].instance < next
    ensures Clones(before, after, name)
  {
    forall id | id in after && id !in before
      ensures after[id].config == before[lowest].config.(instances := 1) && next <= after[id].instance
    {
      var k :| 0 <= k < |fresh'| && fresh'[k] == id;
      assert EntryOf(after[id]) == DumpEntry(id, next + k, before[lowest].config.(instances := 1));
    }
  }

  /** What a successful scale to `want` means. */
  ghost predicate ScaledTo(before: map<nat, Proc>, after: map<nat, Proc>, name: string, want: nat) {
    && |Named(after, name)| == want
    && (forall other :: other != name ==> Named(after, other) == Named(before, other))
    && (forall id :: id in before && id in after ==> after[id] == before[id])
    && (want >= |Named(before, name)| ==> Keeps(before, after))
    && (want > |Named(before, name)| ==> Clones(before, after, name))
    && (want <= |Named(before, name)| ==>
          && after.Keys <= before.Keys
          && forall kept, gone :: kept in Named(after, name) && gone in Named(before, name) && gone !in after ==>
               before[kept].instance <= before[gone].instance)
  }

  /** The app's ids in order of instance number. */
  ghost predicate InOrder(procs: map<nat, Proc>, name: string, rows: seq<nat>) {
    && |rows| > 0 && Distinct(rows) && Elements(rows) == Named(procs, name)
    && (forall k :: 0 <= k < |rows| ==> rows[k] in procs)
    && (forall j, k :: 0 <= j < k < |rows| ==> procs[rows[j]].instance <= procs[rows[k]].instance)
  }

  lemma EndsOfOrder(procs: map<nat, Proc>, name: string, rows: seq<nat>)
    requires InOrder(procs, name, rows)
    ensures IsLowest(procs, name, rows[0])
    ensures forall id :: id in Named(procs, name) ==> procs[id].instance <= procs[rows[|rows| - 1]].instance
    ensures |Named(procs, name)| == |rows|
  {
    ElementsCount(rows);
    assert rows[0] in Elements(rows);
    forall id | id in Named(procs, name)
      ensures procs[rows[0]].instance <= procs[id].instance <= procs[rows[|rows| - 1]].instance
    {
      var k :| 0 <= k < |rows| && rows[k] == id;
    }
  }

  lemma GrownAsWanted(before: map<nat, Proc>, after: map<nat, Proc>, name: string, rows: seq<nat>, fresh': seq<nat>)
    requires InOrder(before, name, rows) && |fresh'| > 0
    requires ScaledUp(before, after, fresh', before[rows[|rows| - 1]].instance + 1, before[rows[0]].config.(instances := 1))
    ensures ScaledTo(before, after, name, |rows| + |fresh'|)
    ensures UniqueInstances(before) ==> UniqueInstances(after)
  {
    var next, config := before[rows[|rows| - 1]].instance + 1, before[rows[0]].config.(instances := 1);
    EndsOfOrder(before, name, rows);
    assert config.name == name;
    ScaledUpCount(before, after, fresh', next, config);
    ScaledUpClones(before, after, fresh', next, rows[0], name);
    ScaledUpIsUnique(before, after, fresh', next, config);
  }

  lemma SplitElements(rows: seq<nat>, want: nat)
    requires Distinct(rows) && want <= |rows|
    ensures Elements(rows) == Elements(rows[..want]) + Elements(rows[want..])
    ensures Elements(rows[..want]) !! Elements(rows[want..])
    ensures |Elements(rows[..want])| == want
    ensures forall id :: id in Elements(rows[..want]) ==> exists k :: 0 <= k < want && rows[k] == id
    ensures forall id :: id in Elements(rows[want..]) ==> exists k :: want <= k < |rows| && rows[k] == id
  {
    ElementsCount(rows[..want]);
    forall id | id in Elements(rows[want..]) ensures exists k :: want <= k < |rows| && rows[k] == id {
      var k :| 0 <= k < |rows[want..]| && rows[want..][k] == id;
      assert rows[want + k] == id;
    }
    forall id | id in Elements(rows) ensures id in Elements(rows[..want]) || id in Elements(rows[want..]) {
      var k :| 0 <= k < |rows| && rows[k] == id;
      assert if k < want then rows[..want][k] == id else rows[want..][k - want] == id;
    }
  }

  lemma DoomedAreNamed(before: map<nat, Proc>, name: string, rows: seq<nat>, want: nat)
    requires InOrder(before, name, rows) && want <= |rows|
    ensures forall id :: id in Elements(rows[want..]) ==> id in Named(before, name)
    ensures forall id :: id in Named(before, name) <==> id in Elements(rows[..want]) || id in Elements(rows[want..])
    ensures forall id :: id in Elements(rows[..want]) ==> id !in Elements(rows[want..])
  {
    SplitElements(rows, want);
    assert Elements(rows) == Named(before, name);
  }

  lemma ShrunkNames(before: map<nat, Proc>, name: string, rows: seq<nat>, want: nat)
    requires InOrder(before, name, rows) && want <= |rows|
    ensures var after := before - Elements(rows[want..]);
      && Named(after, name) == Elements(rows[..want])
      && forall other :: other != name ==> Named(after, other) == Named(before, other)
  {
    DoomedAreNamed(before, name, rows, want);
    RemovedNames(before, name, Elements(rows[..want]), Elements(rows[want..]));
  }

  /** Removing `gone`, rows of one name, leaves `kept` of that name and every other name as it was. */
  lemma RemovedNames(before: map<nat, Proc>, name: string, kept: set<nat>, gone: set<nat>)
    requires forall id :: id in Named(before, name) <==> id in kept || id in gone
    requires forall id :: id in kept ==> id !in gone
    ensures Named(before - gone, name) == kept
    ensures forall other :: other != name ==> Named(before - gone, other) == Named(before, other)
  {
    forall id ensures id in Named(before - gone, name) <==> id in kept {
      assert id in Named(before, name) <==> id in kept || id in gone;
    }
    forall other, id | other != name ensures id in Named(before - gone, other) <==> id in Named(before, other) {
      assert id in gone ==> id in Named(before, name);
    }
  }

  lemma HighestGo(before: map<nat, Proc>, name: string, rows: seq<nat>, want: nat, kept: nat, gone: nat)
    requires InOrder(before, name, rows) && want <= |rows|
    requires kept in Elements(rows[..want]) && gone in Elements(rows[want..])
    ensures kept in before && gone in before && before[kept].instance <= before[gone].instance
  {
    SplitElements(rows, want);
    var j :| 0 <= j < want && rows[j] == kept;
    var k :| want <= k < |rows| && rows[k] == gone;
  }

  lemma ShrunkAsWanted(before: map<nat, Proc>, name: string, rows: seq<nat>, want: nat)
    requires InOrder(before, name, rows) && want < |rows|
    ensures ScaledTo(before, before - Elements(rows[want..]), name, want)
    ensures UniqueInstances(before) ==> UniqueInstances(before - Elements(rows[want..]))
  {
    var after := before - Elements(rows[want..]);
    ShrunkNames(before, name, rows, want);
    assert |Named(after, name)| == want by { SplitElements(rows, want); }
    assert |Named(before, name)| == |rows| by { EndsOfOrder(before, name, rows); }
    forall kept, gone | kept in Named(after, name) && gone in Named(before, name) && gone !in after
      ensures before[kept].instance <= before[gone].instance
    {
      HighestGo(before, name, rows, want, kept, gone);
    }
  }

  method RowsInOrder(t: ProcessTable, name: string) returns (rows: seq<nat>)
    requires Named(t.procs, name) != {}
    ensures InOrder(t.procs, name, rows)
  {
    var key := map id | id in t.procs :: t.procs[id].instance;
    rows := SortIds(Named(t.procs, name), key);
    assert forall j, k :: 0 <= j < k < |rows| ==> key[rows[j]] <= key[rows[k]];
  }

  lemma FailedClone(before: map<nat, Proc>, after: map<nat, Proc>, fresh': seq<nat>, next: nat, config: AppConfig,
                    spawn: nat -> nat, now: int)
    requires ScaledUp(before, after, fresh', next, config) && NewRowsBegun(before, after, spawn, now)
    requires |fresh'| > 0 && config.autostart && spawn(fresh'[|fresh'| - 1]) == 0
    ensures var id := fresh'[|fresh'| - 1];
      id in Named(after, config.name) && id !in before && IsFailed(after[id], now)
  {
    var id := fresh'[|fresh'| - 1];
    assert EntryOf(after[id]) == DumpEntry(id, next + (|fresh'| - 1), config);
  }

  /** Scale an app: to exactly `want` rows on success. Growing keeps every row and numbers on; shrinking
      removes the highest instances. Rows of other apps are never touched. */
  method Scale(t: ProcessTable, name: string, want: nat, spawn: nat -> nat, now: int) returns (r: Result<set<nat>>)
    requires t.Valid()
    modifies t
    ensures t.Valid()
    ensures want == 0 ==> r == Err(ZeroInstances) && t.procs == old(t.procs)
    ensures want > 0 && Named(old(t.procs), name) == {} ==> r == Err(NoSuchName) && t.procs == old(t.procs)
    ensures r.Ok? ==> ScaledTo(old(t.procs), t.procs, name, want) && r.value == Named(t.procs, name)
    ensures NewRowsBegun(old(t.procs), t.procs, spawn, now)
    ensures r.Ok? ==> NoneFailed(old(t.procs), t.procs, spawn)
    ensures r.Err? ==> Keeps(old(t.procs), t.procs)
    ensures want > 0 && Named(old(t.procs), name) != {} && r.Err? ==>
      && r.error.LaunchFailed? && spawn(r.error.id) == 0
      && r.error.id in Named(t.procs, name) && r.error.id !in old(t.procs) && IsFailed(t.procs[r.error.id], now)
    ensures UniqueInstances(old(t.procs)) ==> UniqueInstances(t.procs)
  {
    if want == 0 {
      return Err(ZeroInstances);
    }
    if Named(t.procs, name) == {} {
      return Err(NoSuchName);
    }
    ghost var before := t.procs;
    var rows := RowsInOrder(t, name);
    var have := |rows|;
    EndsOfOrder(before, name, rows);
    if want > have {
      var config := t.procs[rows[0]].config.(instances := 1);
      var next := t.procs[rows[have - 1]].instance + 1;
      var grown;
      ghost var fresh';
      grown, fresh' := GrowTo(t, config, next, want - have, spawn, now);
      GrownAsWanted(before, t.procs, name, rows, fresh');
      if grown.Err? {
        FailedClone(before, t.procs, fresh', next, config, spawn, now);
        return Err(grown.error);
      }
    } else if want < have {
      ShrinkBy(t, rows[want..]);
      ShrunkAsWanted(before, name, rows, want);
    }
    r := Ok(Named(t.procs, name));
  }

  // ----- save and resurrect

  /** The entries are exactly the rows' identities, in order of id. */
  ghost predicate SnapshotOf(ids: map<nat, DumpEntry>, entries: seq<DumpEntry>) {
    && (forall k :: 0 <= k < |entries| ==> entries[k].pmId in ids && ids[entries[k].pmId] == entries[k])
    && (forall j, k :: 0 <= j < k < |entries| ==> entries[j].pmId < entries[k].pmId)
    && (forall id :: id in ids ==> exists k :: 0 <= k < |entries| && entries[k].pmId == id)
  }

  lemma RowsAreSnapshot(procs: map<nat, Proc>, rows: seq<nat>, entries: seq<DumpEntry>)
    requires forall id :: id in procs ==> procs[id].pmId == id
    requires Elements(rows) == procs.Keys && |entries| == |rows|
    requires forall j, k :: 0 <= j < k < |rows| ==> rows[j] < rows[k]
    requires forall k :: 0 <= k < |rows| ==> rows[k] in procs && entries[k] == EntryOf(procs[rows[k]])
    ensures SnapshotOf(Identities(procs), entries)
  {
    forall k | 0 <= k < |entries| ensures entries[k].pmId == rows[k] {
      assert entries[k] == EntryOf(procs[rows[k]]);
    }
    forall id | id in procs ensures exists k :: 0 <= k < |entries| && entries[k].pmId == id {
      assert id in Elements(rows);
      var k :| 0 <= k < |rows| && rows[k] == id;
      assert entries[k].pmId == id;
    }
  }

  /** The list `save` writes. */
  method Snapshot(t: ProcessTable) returns (entries: seq<DumpEntry>)
    requires t.Valid()
    ensures SnapshotOf(Identities(t.procs), entries)
  {
    var key := map id | id in t.procs :: id;
    var rows := SortIds(t.procs.Keys, key);
    entries := [];
    for k := 0 to |rows|
      invariant |entries| == k
      invariant forall j :: 0 <= j < k ==> rows[j] in t.procs && entries[j] == EntryOf(t.procs[rows[j]])
    {
      entries := entries + [EntryOf(t.procs[rows[k]])];
    }
    forall j, k | 0 <= j < k < |rows| ensures rows[j] < rows[k] {
      assert key[rows[j]] <= key[rows[k]] && rows[j] != rows[k];
    }
    RowsAreSnapshot(t.procs, rows, entries);
  }

  /** Whether resurrect passes an entry by: its id is taken, its name was in the table beforehand, or
      its config no longer validates. */
  predicate Skipped(ids: map<nat, DumpEntry>, names: set<string>, e: DumpEntry) {
    e.pmId in ids || e.config.name in names || !e.config.Validates()
  }

  /** The identities after resurrecting `entries` in order; `names` were in the table beforehand. */
  function Restored(ids: map<nat, DumpEntry>, names: set<string>, entries: seq<DumpEntry>): map<nat, DumpEntry> {
    if entries == [] then ids
    else
      var e := entries[|entries| - 1];
      var before := Restored(ids, names, entries[..|entries| - 1]);
      if Skipped(before, names, e) then before else before[e.pmId := e]
  }

  /** Some of the first `n` entries has this id. */
  predicate Listed(entries: seq<DumpEntry>, n: nat, id: nat)
    requires n <= |entries|
  {
    exists k :: 0 <= k < n && entries[k].pmId == id
  }

  lemma ListedStep(entries: seq<DumpEntry>, n: nat, id: nat)
    requires 0 < n <= |entries|
    ensures Listed(entries, n, id) <==> Listed(entries, n - 1, id) || id == entries[n - 1].pmId
  {
    if Listed(entries, n - 1, id) {
      var k :| 0 <= k < n - 1 && entries[k].pmId == id;
      assert entries[k].pmId == id && k < n;
    }
  }

  predicate DistinctIds(entries: seq<DumpEntry>) {
    forall j, k :: 0 <= j < k < |entries| ==> entries[j].pmId != entries[k].pmId
  }

  /** The dump covers the entry: it was passed by because its id or its name was there before, or it was
      started and did not fail. */
  predicate CoveredBy(before: map<nat, Proc>, after: map<nat, Proc>, e: DumpEntry) {
    || e.pmId in before || e.config.name in Names(before)
    || (e.config.Validates() && e.pmId in after && after[e.pmId].status != Errored)
  }

  /** What `covered` lists after the first `n` entries. */
  ghost predicate Covers(before: map<nat, Proc>, after: map<nat, Proc>, entries: seq<DumpEntry>, n: nat, covered: seq<nat>)
    requires n <= |entries|
  {
    && (forall id :: id in covered ==> Listed(entries, n, id))
    && (forall id :: id in after ==> id in before || Listed(entries, n, id))
    && (DistinctIds(entries) ==>
          forall j :: 0 <= j < n ==> (entries[j].pmId in covered <==> CoveredBy(before, after, entries[j])))
  }

  lemma CoversNext(before: map<nat, Proc>, rows: map<nat, Proc>, after: map<nat, Proc>, entries: seq<DumpEntry>,
                   n: nat, covered: seq<nat>, add: bool)
    requires n < |entries| && Covers(before, rows, entries, n, covered)
    requires Keeps(rows, after) && forall id :: id in after ==> id in rows || id == entries[n].pmId
    requires DistinctIds(entries) ==> (add <==> CoveredBy(before, after, entries[n]))
    ensures Covers(before, after, entries, n + 1, if add then covered + [entries[n].pmId] else covered)
  {
    forall id: nat ensures Listed(entries, n + 1, id) <==> Listed(entries, n, id) || id == entries[n].pmId {
      ListedStep(entries, n + 1, id);
    }
    if DistinctIds(entries) {
      assert entries[n].pmId !in covered;
      forall j | 0 <= j < n ensures CoveredBy(before, rows, entries[j]) <==> CoveredBy(before, after, entries[j]) {
        assert entries[j].pmId != entries[n].pmId;
      }
    }
  }

  /** A taken id was taken before, when no two entries share one. */
  lemma TakenBefore(before: map<nat, Proc>, rows: map<nat, Proc>, entries: seq<DumpEntry>, n: nat, covered: seq<nat>)
    requires n < |entries| && Covers(before, rows, entries, n, covered) && DistinctIds(entries)
    requires entries[n].pmId in rows
    ensures entries[n].pmId in before
  {
    assert !Listed(entries, n, entries[n].pmId);
  }

  /** `resurrect` from a list of entries: the table's identities become the restored ones whichever
      launches fail, rows present beforehand are not touched, and the ids returned are those of the entries
      now covered. */
  method Resurrect(t: ProcessTable, entries: seq<DumpEntry>, spawn: nat -> nat, now: int) returns (covered: seq<nat>)
    requires t.Valid()
    modifies t
    ensures t.Valid() && Keeps(old(t.procs), t.procs)
    ensures Identities(t.procs) == Restored(old(Identities(t.procs)), Names(old(t.procs)), entries)
    ensures Covers(old(t.procs), t.procs, entries, |entries|, covered)
    ensures NewRowsBegun(old(t.procs), t.procs, spawn, now)
  {
    ghost var before := t.procs;
    var preexisting := Names(t.procs);
    covered := [];
    assert entries[..0] == [];
    for k := 0 to |entries|
      invariant t.Valid() && Resurrected(before, t.procs, entries, k, covered, spawn, now)
    {
      var add := ResurrectOne(t, before, preexisting, entries, k, covered, spawn, now);
      if add {
        covered := covered + [entries[k].pmId];
      }
    }
    assert entries[..|entries|] == entries;
  }

  /** Where a resurrect stands after its first `k` entries. */
  ghost predicate Resurrected(before: map<nat, Proc>, after: map<nat, Proc>, entries: seq<DumpEntry>, k: nat,
                              covered: seq<nat>, spawn: nat -> nat, now: int)
    requires k <= |entries|
  {
    && Keeps(before, after)
    && Identities(after) == Restored(Identities(before), Names(before), entries[..k])
    && Covers(before, after, entries, k, covered)
    && NewRowsBegun(before, after, spawn, now)
  }

  lemma RestoredNext(ids: map<nat, DumpEntry>, names: set<string>, entries: seq<DumpEntry>, k: nat)
    requires k < |entries|
    ensures var before := Restored(ids, names, entries[..k]);
      Restored(ids, names, entries[..k + 1]) ==
        if Skipped(before, names, entries[k]) then before else before[entries[k].pmId := entries[k]]
  {
    assert entries[..k + 1][..k] == entries[..k];
  }

  /** One entry of a resurrect: whether its id is reported as covered. */
  method ResurrectOne(t: ProcessTable, ghost before: map<nat, Proc>, preexisting: set<string>, entries: seq<DumpEntry>, k: nat,
                      ghost covered: seq<nat>, spawn: nat -> nat, now: int) returns (add: bool)
    requires t.Valid() && k < |entries| && preexisting == Names(before)
    requires Resurrected(before, t.procs, entries, k, covered, spawn, now)
    modifies t
    ensures t.Valid()
    ensures Resurrected(before, t.procs, entries, k + 1, if add then covered + [entries[k].pmId] else covered, spawn, now)
  {
    var e := entries[k];
    ghost var rows := t.procs;
    RestoredNext(Identities(before), preexisting, entries, k);
    if e.pmId in t.procs || e.config.name in preexisting {
      if DistinctIds(entries) && e.pmId in rows {
        TakenBefore(before, rows, entries, k, covered);
      }
      CoversNext(before, rows, rows, entries, k, covered, true);
      return true;
    }
    var started := StartFixed(t, e.config, e.pmId, e.instance, spawn, now);
    add := started.Ok?;
    if e.config.Validates() {
      IdentitiesUpdate(rows, e.pmId, t.procs[e.pmId]);
      BegunRow(before, rows, e.pmId, t.procs[e.pmId], spawn, now);
    }
    CoversNext(before, rows, t.procs, entries, k, covered, add);
  }

  predicate AllValidate(ids: map<nat, DumpEntry>) {
    forall id :: id in ids ==> ids[id].pmId == id && ids[id].config.Validates()
  }

  lemma RestoredStep(entries: seq<DumpEntry>, n: nat)
    requires 0 < n <= |entries|
    requires entries[n - 1].config.Validates()
    requires entries[n - 1].pmId !in Restored(map[], {}, entries[..n - 1])
    ensures Restored(map[], {}, entries[..n]) ==
            Restored(map[], {}, entries[..n - 1])[entries[n - 1].pmId := entries[n - 1]]
  {
    assert entries[..n][..n - 1] == entries[..n - 1];
  }

  /** Restoring the first `n` entries into an empty table gives exactly the rows they list. */
  ghost predicate PrefixRestored(ids: map<nat, DumpEntry>, entries: seq<DumpEntry>, n: nat)
    requires n <= |entries|
  {
    var r := Restored(map[], {}, entries[..n]);
    && (forall id :: id in r ==> id in ids && r[id] == ids[id])
    && (forall id :: id in r <==> Listed(entries, n, id))
  }

  lemma NotListedYet(ids: map<nat, DumpEntry>, entries: seq<DumpEntry>, n: nat)
    requires SnapshotOf(ids, entries) && 0 < n <= |entries|
    ensures !Listed(entries, n - 1, entries[n - 1].pmId)
    ensures entries[n - 1].pmId in ids && ids[entries[n - 1].pmId] == entries[n - 1]
  {
  }

  lemma PrefixExtends(ids: map<nat, DumpEntry>, entries: seq<DumpEntry>, n: nat)
    requires 0 < n <= |entries| && PrefixRestored(ids, entries, n - 1)
    requires !Listed(entries, n - 1, entries[n - 1].pmId) && entries[n - 1].config.Validates()
    requires entries[n - 1].pmId in ids && ids[entries[n - 1].pmId] == entries[n - 1]
    ensures PrefixRestored(ids, entries, n)
  {
    RestoredStep(entries, n);
    forall id: nat ensures Listed(entries, n, id) <==> Listed(entries, n - 1, id) || id == entries[n - 1].pmId {
      ListedStep(entries, n, id);
    }
  }

  lemma {:induction false} RestoredPrefix(ids: map<nat, DumpEntry>, entries: seq<DumpEntry>, n: nat)
    requires AllValidate(ids) && SnapshotOf(ids, entries) && n <= |entries|
    ensures PrefixRestored(ids, entries, n)
  {
    if n > 0 {
      RestoredPrefix(ids, entries, n - 1);
      NotListedYet(ids, entries, n);
      PrefixExtends(ids, entries, n);
    }
  }

  /** The round trip: resurrecting a saved table into an empty one restores exactly its rows. */
  lemma RoundTrip(ids: map<nat, DumpEntry>, entries: seq<DumpEntry>)
    requires AllValidate(ids) && SnapshotOf(ids, entries)
    ensures Restored(map[], {}, entries) == ids
  {
    RestoredPrefix(ids, entries, |entries|);
    assert entries[..|entries|] == entries;
    var r := Restored(map[], {}, entries);
    forall id | id in ids ensures id in r {
      var k :| 0 <= k < |entries| && entries[k].pmId == id;
      assert Listed(entries, |entries|, id);
    }
  }

  function EntryNames(ids: map<nat, DumpEntry>): set<string> {
    set id | id in ids :: ids[id].config.name
  }

  /** Resurrecting keeps every existing row, and every row it adds comes from the dump, validates, and
      has a name that was not in the table beforehand: no twins. */
  lemma {:induction false} RestoredKeepsAndAddsNoTwin(ids: map<nat, DumpEntry>, names: set<string>, entries: seq<DumpEntry>)
    ensures var r := Restored(ids, names, entries);
      && (forall id :: id in ids ==> id in r && r[id] == ids[id])
      && (forall id :: id in r && id !in ids ==>
            r[id] in entries && r[id].pmId == id && r[id].config.Validates() && r[id].config.name !in names)
  {
    if entries != [] {
      RestoredKeepsAndAddsNoTwin(ids, names, entries[..|entries| - 1]);
    }
  }

  /** An entry of the dump is skipped by a later resurrect, once one was done. */
  lemma {:induction false} SkippedAfterwards(ids: map<nat, DumpEntry>, names: set<string>, entries: seq<DumpEntry>, k: nat)
    requires k < |entries|
    ensures Skipped(Restored(ids, names, entries), names, entries[k])
  {
    var init := entries[..|entries| - 1];
    if k < |entries| - 1 {
      SkippedAfterwards(ids, names, init, k);
      assert init[k] == entries[k];
    }
  }

  lemma {:induction false} NothingToRestore(ids: map<nat, DumpEntry>, names: set<string>, entries: seq<DumpEntry>)
    requires forall k :: 0 <= k < |entries| ==> Skipped(ids, names, entries[k])
    ensures Restored(ids, names, entries) == ids
  {
    if entries != [] {
      var init := entries[..|entries| - 1];
      assert forall k :: 0 <= k < |init| ==> init[k] == entries[k];
      NothingToRestore(ids, names, init);
    }
  }

  /** Resurrecting twice is resurrecting once. */
  lemma ResurrectIsIdempotent(ids: map<nat, DumpEntry>, entries: seq<DumpEntry>)
    ensures var r := Restored(ids, EntryNames(ids), entries); Restored(r, EntryNames(r), entries) == r
  {
    var names := EntryNames(ids);
    var r := Restored(ids, names, entries);
    RestoredKeepsAndAddsNoTwin(ids, names, entries);
    forall k | 0 <= k < |entries| ensures Skipped(r, EntryNames(r), entries[k]) {
      SkippedAfterwards(ids, names, entries, k);
      if entries[k].config.name in names {
        var id :| id in ids && ids[id].config.name == entries[k].config.name;
        assert r[id].config.name in EntryNames(r);
      }
    }
    NothingToRestore(r, EntryNames(r), entries);
  }

  // ----- unique instances over every sequence of operations

  ghost predicate UniqueEntries(entries: seq<DumpEntry>) {
    forall j, k :: 0 <= j < k < |entries| && entries[j].config.name == entries[k].config.name
                   ==> entries[j].instance != entries[k].instance
  }

  lemma SnapshotIsUnique(procs: map<nat, Proc>, entries: seq<DumpEntry>)
    requires UniqueInstances(procs) && SnapshotOf(Identities(procs), entries)
    ensures UniqueEntries(entries)
  {
    forall j, k | 0 <= j < k < |entries| && entries[j].config.name == entries[k].config.name
      ensures entries[j].instance != entries[k].instance
    {
      var a, b := entries[j].pmId, entries[k].pmId;
      assert EntryOf(procs[a]) == entries[j] && EntryOf(procs[b]) == entries[k];
    }
  }

  lemma RestoredIsUnique(before: map<nat, Proc>, after: map<nat, Proc>, entries: seq<DumpEntry>)
    requires UniqueInstances(before) && UniqueEntries(entries)
    requires Identities(after) == Restored(Identities(before), Names(before), entries)
    ensures UniqueInstances(after)
  {
    var r := Identities(after);
    RestoredKeepsAndAddsNoTwin(Identities(before), Names(before), entries);
    forall a, b | a in after && b in after && a != b && after[a].config.name == after[b].config.name
      ensures after[a].instance != after[b].instance
    {
      assert a in r && b in r && r[a] == EntryOf(after[a]) && r[b] == EntryOf(after[b]);
      assert a in before ==> r[a] == EntryOf(before[a]) && before[a].config.name in Names(before);
      assert b in before ==> r[b] == EntryOf(before[b]) && before[b].config.name in Names(before);
      if a !in before && b !in before {
        var j :| 0 <= j < |entries| && entries[j] == r[a];
        var k :| 0 <= k < |entries| && entries[k] == r[b];
      }
    }
  }

  datatype Request = Start(app: AppConfig) | ScaleTo(name: string, want: nat) | Delete(id: nat) | Save | Reload

  /** Any sequence of requests, where a save of an empty table is refused and a reload reads the list saved
      last: names and instance numbers
      never collide, and every id stays below the counter. */
  method Serve(t: ProcessTable, requests: seq<Request>, spawn: nat -> nat, now: int)
    requires t.Valid() && UniqueInstances(t.procs)
    modifies t
    ensures t.Valid() && UniqueInstances(t.procs)
  {
    var saved: seq<DumpEntry> := [];
    for k := 0 to |requests|
      invariant t.Valid() && UniqueInstances(t.procs) && UniqueEntries(saved)
    {
      match requests[k] {
        case Start(app) =>
          var r;
          ghost var count;
          r, count := StartNew(t, app, spawn, now);
        case ScaleTo(name, want) => var _ := Scale(t, name, want, spawn, now);
        case Delete(id) => t.RemoveProc(id);
        case Save =>
          var entries := Snapshot(t);
          SnapshotIsUnique(t.procs, entries);
          if entries != [] {
            saved := entries;
          }
        case Reload =>
          ghost var before := t.procs;
          var _ := Resurrect(t, saved, spawn, now);
          RestoredIsUnique(before, t.procs, saved);
      }
    }
  }
}
