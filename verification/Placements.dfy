/** Starts, scales and resurrects that overlap. Each reads the table in one section and inserts its rows in
    later ones; deletions may fall anywhere. When do name and instance number stay unique? */
module Placements {
  import opened Domain

  datatype Place = Place(name: string, instance: nat)

  /** An operation between its read and its last insertion: the instance numbers of one name it has still to
      insert, in order. */
  datatype Placement = Placement(name: string, todo: seq<nat>)

  datatype State = State(rows: map<nat, Place>, open: seq<Placement>)

  function Numbers(from: nat, count: nat): (s: seq<nat>)
    ensures |s| == count && forall k :: 0 <= k < count ==> s[k] == from + k
  {
    seq(count, k requires 0 <= k < count => from + k)
  }

  predicate Present(rows: map<nat, Place>, name: string) {
    exists id :: id in rows && rows[id].name == name
  }

  predicate Taken(rows: map<nat, Place>, name: string, instance: nat) {
    exists id :: id in rows && rows[id] == Place(name, instance)
  }

  /** One above the highest instance number of a name in the table. */
  predicate IsNext(rows: map<nat, Place>, name: string, next: nat) {
    && next > 0 && Taken(rows, name, next - 1)
    && forall id :: id in rows && rows[id].name == name ==> rows[id].instance < next
  }

  /** The placements a resurrect opens: those whose name is not in the table. */
  function Absent(rows: map<nat, Place>, dump: seq<Placement>): seq<Placement> {
    if dump == [] then []
    else if Present(rows, dump[0].name) then Absent(rows, dump[1..])
    else [dump[0]] + Absent(rows, dump[1..])
  }

  datatype Step =
    | Start(name: string, count: nat)             // a plain start's name check
    | Scale(name: string, next: nat, count: nat)  // a scale's reading of the rows
    | Resurrect(dump: seq<Placement>)             // a resurrect's reading of the names
    | Insert(i: nat, id: nat)                     // the next insertion; refused when the id is taken
    | Skip(i: nat)                                // an entry that is passed by
    | Abandon(i: nat)                             // a failed launch ends the operation
    | Delete(id: nat)

  function Reading(st: State, step: Step): Option<State> {
    match step
    case Start(name, count) =>
      if Present(st.rows, name) then None else Some(st.(open := st.open + [Placement(name, Numbers(0, count))]))
    case Scale(name, next, count) =>
      if !IsNext(st.rows, name, next) then None
      else Some(st.(open := st.open + [Placement(name, Numbers(next, count))]))
    case Resurrect(dump) => Some(st.(open := st.open + Absent(st.rows, dump)))
    case _ => None
  }

  function Next(st: State, step: Step): Option<State> {
    match step
    case Insert(i, id) =>
      if i >= |st.open| || st.open[i].todo == [] then None
      else
        var p := st.open[i];
        Some(State(if id in st.rows then st.rows else st.rows[id := Place(p.name, p.todo[0])],
                   st.open[i := p.(todo := p.todo[1..])]))
    case Skip(i) =>
      if i >= |st.open| || st.open[i].todo == [] then None
      else Some(st.(open := st.open[i := st.open[i].(todo := st.open[i].todo[1..])]))
    case Abandon(i) =>
      if i >= |st.open| then None else Some(st.(open := st.open[i := st.open[i].(todo := [])]))
    case Delete(id) => Some(st.(rows := st.rows - {id}))
    case _ => Reading(st, step)
  }

  function Run(st: State, steps: seq<Step>): Option<State>
    decreases |steps|
  {
    if steps == [] then Some(st)
    else
      match Next(st, steps[0])
      case None => None
      case Some(st') => Run(st', steps[1..])
  }

  predicate Unique(rows: map<nat, Place>) {
    forall a, b :: a in rows && b in rows && a != b ==> rows[a] != rows[b]
  }

  // ----- what keeps instances unique

  predicate Distinct(s: seq<nat>) {
    forall j, k :: 0 <= j < k < |s| ==> s[j] != s[k]
  }

  predicate Disjoint(a: seq<nat>, b: seq<nat>) {
    forall j, k :: 0 <= j < |a| && 0 <= k < |b| ==> a[j] != b[k]
  }

  /** The numbers a placement has still to insert are its own, and free. */
  predicate Fits(rows: map<nat, Place>, p: Placement) {
    Distinct(p.todo) && forall k :: 0 <= k < |p.todo| ==> !Taken(rows, p.name, p.todo[k])
  }

  predicate Apart(p: Placement, q: Placement) {
    p.name == q.name ==> Disjoint(p.todo, q.todo)
  }

  predicate Compatible(st: State) {
    && Unique(st.rows)
    && (forall i :: 0 <= i < |st.open| ==> Fits(st.rows, st.open[i]))
    && forall i, j :: 0 <= i < j < |st.open| ==> Apart(st.open[i], st.open[j])
  }

  /** Steps of the operations at hand, and deletions. */
  predicate Own(step: Step) {
    step.Insert? || step.Skip? || step.Abandon? || step.Delete?
  }

  lemma ShrunkKeeps(st: State, i: nat, todo: seq<nat>)
    requires Compatible(st) && i < |st.open|
    requires todo == [] || (st.open[i].todo != [] && todo == st.open[i].todo[1..])
    ensures Compatible(st.(open := st.open[i := st.open[i].(todo := todo)]))
  {
    var p, q := st.open[i], st.open[i].(todo := todo);
    assert Fits(st.rows, q);
    forall j | 0 <= j < |st.open| && j != i ensures Apart(q, st.open[j]) && Apart(st.open[j], q) {
      assert Apart(st.open[if j < i then j else i], st.open[if j < i then i else j]);
    }
  }

  lemma InsertKeeps(st: State, i: nat, id: nat)
    requires Compatible(st) && i < |st.open| && st.open[i].todo != [] && id !in st.rows
    ensures Compatible(Next(st, Insert(i, id)).value)
  {
    var p, st' := st.open[i], Next(st, Insert(i, id)).value;
    var place := Place(p.name, p.todo[0]);
    ShrunkKeeps(st, i, p.todo[1..]);
    assert !Taken(st.rows, p.name, p.todo[0]);
    assert forall a :: a in st.rows ==> st.rows[a] != place;
    forall j | 0 <= j < |st.open| ensures Fits(st'.rows, st'.open[j]) {
      var q := st'.open[j];
      assert Fits(st.rows, q);
      forall k | 0 <= k < |q.todo| ensures !Taken(st'.rows, q.name, q.todo[k]) {
        assert !Taken(st.rows, q.name, q.todo[k]);
        assert Place(q.name, q.todo[k]) != place by {
          if j == i {
            assert q.todo[k] == p.todo[k + 1];
          } else {
            assert Apart(st.open[if j < i then j else i], st.open[if j < i then i else j]);
          }
        }
      }
    }
  }

  lemma DeleteKeeps(st: State, id: nat)
    requires Compatible(st)
    ensures Compatible(st.(rows := st.rows - {id}))
  {
    forall name, n | Taken(st.rows - {id}, name, n) ensures Taken(st.rows, name, n) {
      var other :| other in st.rows - {id} && (st.rows - {id})[other] == Place(name, n);
      assert other in st.rows && st.rows[other] == Place(name, n);
    }
    forall i | 0 <= i < |st.open| ensures Fits(st.rows - {id}, st.open[i]) {
      assert Fits(st.rows, st.open[i]);
    }
  }

  lemma OwnStepKeeps(st: State, step: Step)
    requires Compatible(st) && Own(step) && Next(st, step).Some?
    ensures Compatible(Next(st, step).value)
  {
    match step
    case Insert(i, id) =>
      if id in st.rows {
        ShrunkKeeps(st, i, st.open[i].todo[1..]);
      } else {
        InsertKeeps(st, i, id);
      }
    case Skip(i) => ShrunkKeeps(st, i, st.open[i].todo[1..]);
    case Abandon(i) => ShrunkKeeps(st, i, []);
    case Delete(id) => DeleteKeeps(st, id);
  }

  // ----- reads that overlap nothing

  /** No operation on this name is between its read and its last insertion. */
  predicate Quiet(st: State, name: string) {
    forall i :: 0 <= i < |st.open| && st.open[i].name == name ==> st.open[i].todo == []
  }

  /** A dump of a table whose instances were unique, grouped by name. */
  predicate ProperDump(dump: seq<Placement>) {
    && (forall i :: 0 <= i < |dump| ==> Distinct(dump[i].todo))
    && forall i, j :: 0 <= i < j < |dump| ==> dump[i].name != dump[j].name
  }

  /** The step is no read, or one that overlaps no other operation on its names. */
  predicate OverlapsNothing(st: State, step: Step) {
    match step
    case Start(name, _) => Quiet(st, name)
    case Scale(name, _, _) => Quiet(st, name)
    case Resurrect(dump) => ProperDump(dump) && forall i :: 0 <= i < |dump| ==> Quiet(st, dump[i].name)
    case _ => true
  }

  lemma OpenKeeps(st: State, p: Placement)
    requires Compatible(st) && Quiet(st, p.name) && Fits(st.rows, p)
    ensures Compatible(st.(open := st.open + [p]))
  {
  }

  lemma {:induction false} OpenAllKeeps(st: State, dump: seq<Placement>)
    requires Compatible(st) && ProperDump(dump) && forall i :: 0 <= i < |dump| ==> Quiet(st, dump[i].name)
    ensures Compatible(st.(open := st.open + Absent(st.rows, dump)))
    decreases |dump|
  {
    if dump == [] {
      assert st.open + [] == st.open;
    } else {
      var p := dump[0];
      assert forall i :: 0 <= i < |dump[1..]| ==> dump[1..][i] == dump[i + 1];
      if Present(st.rows, p.name) {
        OpenAllKeeps(st, dump[1..]);
      } else {
        var st' := st.(open := st.open + [p]);
        AbsentFits(st.rows, p);
        OpenKeeps(st, p);
        OpenAllKeeps(st', dump[1..]);
        assert st'.open + Absent(st.rows, dump[1..]) == st.open + Absent(st.rows, dump);
      }
    }
  }

  lemma AbsentFits(rows: map<nat, Place>, p: Placement)
    requires !Present(rows, p.name) && Distinct(p.todo)
    ensures Fits(rows, p)
  {
    assert forall id :: id in rows ==> rows[id].name != p.name;
  }

  lemma StepKeeps(st: State, step: Step)
    requires Compatible(st) && Next(st, step).Some? && OverlapsNothing(st, step)
    ensures Compatible(Next(st, step).value)
  {
    match step
    case Start(name, count) =>
      AbsentFits(st.rows, Placement(name, Numbers(0, count)));
      OpenKeeps(st, Placement(name, Numbers(0, count)));
    case Scale(name, next, count) => OpenKeeps(st, Placement(name, Numbers(next, count)));
    case Resurrect(dump) => OpenAllKeeps(st, dump);
    case _ => OwnStepKeeps(st, step);
  }

  ghost predicate OverlapFree(st: State, steps: seq<Step>)
    decreases |steps|
  {
    steps == [] || (OverlapsNothing(st, steps[0])
                    && (Next(st, steps[0]).Some? ==> OverlapFree(Next(st, steps[0]).value, steps[1..])))
  }

  lemma {:induction false} RunKeeps(st: State, steps: seq<Step>)
    requires Compatible(st) && OverlapFree(st, steps) && Run(st, steps).Some?
    ensures Compatible(Run(st, steps).value)
    decreases |steps|
  {
    if steps != [] {
      StepKeeps(st, steps[0]);
      RunKeeps(Next(st, steps[0]).value, steps[1..]);
    }
  }

  /** In every interleaving in which no start, scale or resurrect of a name reads the table while another one
      of that name is between its read and its last insertion, names and instance numbers stay unique. */
  lemma OverlapFreeIsUnique(rows: map<nat, Place>, steps: seq<Step>)
    requires Unique(rows) && OverlapFree(State(rows, []), steps) && Run(State(rows, []), steps).Some?
    ensures Unique(Run(State(rows, []), steps).value.rows)
  {
    RunKeeps(State(rows, []), steps);
  }

  // ----- exactly when the operations at hand can collide

  ghost predicate CollidesBy(st: State, steps: seq<Step>) {
    && (forall k :: 0 <= k < |steps| ==> Own(steps[k]))
    && Run(st, steps).Some? && !Unique(Run(st, steps).value.rows)
  }

  /** Some run of the operations at hand makes two rows share a name and an instance number. */
  ghost predicate CanCollide(st: State) {
    exists steps :: CollidesBy(st, steps)
  }

  lemma CollidesNext(st: State, step: Step)
    requires Own(step) && Next(st, step).Some? && CanCollide(Next(st, step).value)
    ensures CanCollide(st)
  {
    var rest :| CollidesBy(Next(st, step).value, rest);
    assert ([step] + rest)[1..] == rest;
    assert CollidesBy(st, [step] + rest);
  }

  lemma {:induction false} UnusedId(ids: set<nat>) returns (id: nat)
    ensures id !in ids && forall x :: x in ids ==> x < id
    decreases ids
  {
    if ids == {} {
      id := 0;
    } else {
      var x :| x in ids;
      var rest := UnusedId(ids - {x});
      id := if rest > x then rest else x + 1;
      assert forall y :: y in ids ==> y == x || y in ids - {x};
    }
  }

  /** A number to be inserted is taken. */
  lemma {:induction false} TakenCollides(st: State, i: nat, k: nat)
    requires i < |st.open| && k < |st.open[i].todo| && Taken(st.rows, st.open[i].name, st.open[i].todo[k])
    ensures CanCollide(st)
    decreases k
  {
    var p := st.open[i];
    if k > 0 {
      var st' := Next(st, Skip(i)).value;
      assert st'.open[i].todo[k - 1] == p.todo[k];
      TakenCollides(st', i, k - 1);
      CollidesNext(st, Skip(i));
    } else {
      var id := UnusedId(st.rows.Keys);
      var st' := Next(st, Insert(i, id)).value;
      var other :| other in st.rows && st.rows[other] == Place(p.name, p.todo[0]);
      assert st'.rows[other] == st'.rows[id];
      assert CollidesBy(st', []);
      CollidesNext(st, Insert(i, id));
    }
  }

  /** Two placements have still the same place to insert: entry `k` of one and `l` of another, or of its own
      further on. */
  lemma {:induction false} SharedCollides(st: State, i: nat, k: nat, j: nat, l: nat)
    requires i < |st.open| && j < |st.open| && k < |st.open[i].todo| && l < |st.open[j].todo|
    requires st.open[i].name == st.open[j].name && st.open[i].todo[k] == st.open[j].todo[l]
    requires i == j ==> k < l
    ensures CanCollide(st)
    decreases k
  {
    var p := st.open[i];
    if k > 0 {
      var st' := Next(st, Skip(i)).value;
      assert st'.open[i].todo[k - 1] == p.todo[k];
      if i == j {
        assert st'.open[j].todo[l - 1] == st.open[j].todo[l];
        SharedCollides(st', i, k - 1, j, l - 1);
      } else {
        SharedCollides(st', i, k - 1, j, l);
      }
      CollidesNext(st, Skip(i));
    } else {
      var id := UnusedId(st.rows.Keys);
      var st' := Next(st, Insert(i, id)).value;
      assert st'.rows[id] == Place(p.name, p.todo[0]);
      var l' := if i == j then l - 1 else l;
      assert st'.open[j].todo[l'] == st.open[j].todo[l];
      TakenCollides(st', j, l');
      CollidesNext(st, Insert(i, id));
    }
  }

  lemma IncompatibleCollides(st: State)
    requires !Compatible(st)
    ensures CanCollide(st)
  {
    if !Unique(st.rows) {
      assert CollidesBy(st, []);
    } else if i :| 0 <= i < |st.open| && !Fits(st.rows, st.open[i]) {
      if Distinct(st.open[i].todo) {
        var k :| 0 <= k < |st.open[i].todo| && Taken(st.rows, st.open[i].name, st.open[i].todo[k]);
        TakenCollides(st, i, k);
      } else {
        var k, l :| 0 <= k < l < |st.open[i].todo| && st.open[i].todo[k] == st.open[i].todo[l];
        SharedCollides(st, i, k, i, l);
      }
    } else {
      var i, j :| 0 <= i < j < |st.open| && !Apart(st.open[i], st.open[j]);
      var k, l :| 0 <= k < |st.open[i].todo| && 0 <= l < |st.open[j].todo| && st.open[i].todo[k] == st.open[j].todo[l];
      SharedCollides(st, i, k, j, l);
    }
  }

  lemma {:induction false} OwnRunKeeps(st: State, steps: seq<Step>)
    requires Compatible(st) && (forall k :: 0 <= k < |steps| ==> Own(steps[k])) && Run(st, steps).Some?
    ensures Compatible(Run(st, steps).value)
    decreases |steps|
  {
    if steps != [] {
      assert Own(steps[0]);
      OwnStepKeeps(st, steps[0]);
      OwnRunKeeps(Next(st, steps[0]).value, steps[1..]);
    }
  }

  /** The operations at hand can make two rows share a name and an instance number if and only if they are
      not compatible: some number still to be inserted is taken, repeated, or another one's too. */
  lemma CollideIffIncompatible(st: State)
    ensures CanCollide(st) <==> !Compatible(st)
  {
    if Compatible(st) {
      forall steps | CollidesBy(st, steps) ensures false {
        OwnRunKeeps(st, steps);
      }
    } else {
      IncompatibleCollides(st);
    }
  }

  /** So two plain starts of one name that both pass the check can collide, whatever else is in the table;
      and so can two scales that read the same rows. */
  lemma OverlappingStartsCollide(st: State, name: string, count: nat, count': nat)
    requires count > 0 && count' > 0 && !Present(st.rows, name)
    ensures Run(st, [Start(name, count), Start(name, count')]).Some?
    ensures CanCollide(Run(st, [Start(name, count), Start(name, count')]).value)
  {
    var steps := [Start(name, count), Start(name, count')];
    var one := Next(st, steps[0]).value;
    var two := Next(one, steps[1]).value;
    assert steps[1..] == [steps[1]] && steps[1..][1..] == [];
    assert Run(st, steps) == Run(one, steps[1..]) == Run(two, []) == Some(two);
    SharedCollides(two, |st.open|, 0, |st.open| + 1, 0);
  }

  lemma OverlappingScalesCollide(st: State, name: string, next: nat, count: nat, count': nat)
    requires count > 0 && count' > 0 && IsNext(st.rows, name, next)
    ensures Run(st, [Scale(name, next, count), Scale(name, next, count')]).Some?
    ensures CanCollide(Run(st, [Scale(name, next, count), Scale(name, next, count')]).value)
  {
    var steps := [Scale(name, next, count), Scale(name, next, count')];
    var one := Next(st, steps[0]).value;
    var two := Next(one, steps[1]).value;
    assert steps[1..] == [steps[1]] && steps[1..][1..] == [];
    assert Run(st, steps) == Run(one, steps[1..]) == Run(two, []) == Some(two);
    SharedCollides(two, |st.open|, 0, |st.open| + 1, 0);
  }
}
