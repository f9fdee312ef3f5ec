/**
 * The employee reducer: a total, pure fold of one event into the state.
 * Events without a transition (the create, update and delete requests,
 * and actions of other groups) return the state unchanged.
 */
module EmployeeReducer {
  import opened Nullable
  import opened Collections
  import opened EmployeeModel
  import opened EntityAdapter
  import opened EmployeeActions
  import opened EmployeeState

  function Reduce(s: State, e: Event): (r: State)
    ensures EmployeeState.Valid(s) ==> EmployeeState.Valid(r)
  {
    match e
    case LoadEmployees => s.(loading := true, error := None)
    case LoadEmployeesSuccess(es) => s.(records := SetAll(es), loading := false)
    case LoadEmployeesFailure(msg) => s.(loading := false, error := Some(msg))
    case LoadEmployee(_) => s.(loading := true, error := None)
    case LoadEmployeeSuccess(emp) =>
      s.(records := UpsertOne(s.records, emp), selectedEmployeeId := Some(emp.id), loading := false)
    case LoadEmployeeFailure(msg) => s.(loading := false, error := Some(msg))
    case CreateEmployeeSuccess(emp) => s.(records := AddOne(s.records, emp))
    case CreateEmployeeFailure(msg) => s.(error := Some(msg))
    case UpdateEmployeeSuccess(emp) => s.(records := UpdateOne(s.records, emp))
    case UpdateEmployeeFailure(msg) => s.(error := Some(msg))
    case DeleteEmployeeSuccess(id) => s.(records := RemoveOne(s.records, id))
    case DeleteEmployeeFailure(msg) => s.(error := Some(msg))
    case FilterEmployees(q) => s.(filter := q)
    case FilterByStatus(st) => s.(statusFilter := st)
    case SelectEmployee(emp) => s.(selectedEmployeeId := Some(emp.id))
    case _ => s
  }

  /** Folds a sequence of events, first to last. */
  function ReduceAll(s: State, events: seq<Event>): (r: State)
    decreases |events|
  {
    if |events| == 0 then s else ReduceAll(Reduce(s, events[0]), events[1..])
  }

  /** Every reachable state satisfies the store invariant. */
  lemma {:induction false} ReduceAllValid(s: State, events: seq<Event>)
    requires EmployeeState.Valid(s)
    ensures EmployeeState.Valid(ReduceAll(s, events))
    decreases |events|
  {
    if |events| > 0 {
      ReduceAllValid(Reduce(s, events[0]), events[1..]);
    }
  }

  /** The events with no transition: their result is the input state itself. */
  lemma IgnoredEvents(s: State, e: Event)
    requires e.Unrecognised? || e.CreateEmployee? || e.UpdateEmployee? || e.DeleteEmployee?
    ensures Reduce(s, e) == s
  {
    match e
    case Unrecognised(_) =>
    case CreateEmployee(_) =>
    case UpdateEmployee(_, _) =>
    case DeleteEmployee(_) =>
  }

  /** Starting either load sets `loading`, clears `error`, and changes nothing else. */
  lemma LoadStarts(s: State, e: Event)
    requires e.LoadEmployees? || e.LoadEmployee?
    ensures Reduce(s, e) == s.(loading := true, error := None)
  {
  }

  /**
   * `Load Employees Success` replaces the whole collection by the loaded
   * records in load order and clears `loading`; selection, error and
   * filters stay. Loading the same records twice is the same as once.
   */
  lemma LoadAllReplaces(s: State, es: seq<Employee>)
    ensures var r := Reduce(s, LoadEmployeesSuccess(es));
      && EntityAdapter.Valid(r.records)
      && (Distinct(Ids(es)) ==> r.records.ids == Ids(es))
      && (forall i :: 0 <= i < |es| ==> es[i].id in r.records.entities)
      && (forall k :: k in r.records.entities <==> k in Ids(es))
      && !r.loading
      && r.selectedEmployeeId == s.selectedEmployeeId && r.error == s.error
      && r.filter == s.filter && r.statusFilter == s.statusFilter
      && Reduce(r, LoadEmployeesSuccess(es)) == r
  {
    var r := Reduce(s, LoadEmployeesSuccess(es));
    if Distinct(Ids(es)) {
      DedupOfDistinct(Ids(es));
    }
  }

  /**
   * `Load Employee Success` stores the record under its id (appending the id
   * only when it is new), selects it and clears `loading`; every other
   * record, the error and the filters stay.
   */
  lemma LoadOneStores(s: State, emp: Employee)
    requires EmployeeState.Valid(s)
    ensures var r := Reduce(s, LoadEmployeeSuccess(emp));
      && r.records.entities[emp.id] == emp
      && r.selectedEmployeeId == Some(emp.id)
      && !r.loading
      && (emp.id in s.records.ids ==> r.records.ids == s.records.ids)
      && (emp.id !in s.records.ids ==> r.records.ids == s.records.ids + [emp.id])
      && (forall k :: k in s.records.entities && k != emp.id ==> r.records.entities[k] == s.records.entities[k])
      && r.error == s.error && r.filter == s.filter && r.statusFilter == s.statusFilter
  {
  }

  /** Each failure records its message; the load failures also clear `loading`; no failure touches the records. */
  lemma FailureRecordsError(s: State, e: Event)
    requires ErrorOf(e).Some?
    ensures var r := Reduce(s, e);
      && r.error == ErrorOf(e)
      && r.records == s.records
      && r.selectedEmployeeId == s.selectedEmployeeId
      && r.filter == s.filter && r.statusFilter == s.statusFilter
      && (e.LoadEmployeesFailure? || e.LoadEmployeeFailure? ==> !r.loading)
      && (e.CreateEmployeeFailure? || e.UpdateEmployeeFailure? || e.DeleteEmployeeFailure? ==> r.loading == s.loading)
  {
  }

  /** `Create Employee Success` with a fresh id appends it and stores the record; nothing else changes. */
  lemma CreateAppends(s: State, emp: Employee)
    requires EmployeeState.Valid(s)
    requires emp.id !in s.records.ids
    ensures var r := Reduce(s, CreateEmployeeSuccess(emp));
      && r.records.ids == s.records.ids + [emp.id]
      && r.records.entities == s.records.entities[emp.id := emp]
      && r == s.(records := r.records)
  {
  }

  /** `Create Employee Success` for an id already stored leaves the state as it was. */
  lemma CreateDuplicateIgnored(s: State, emp: Employee)
    requires EmployeeState.Valid(s)
    requires emp.id in s.records.ids
    ensures Reduce(s, CreateEmployeeSuccess(emp)) == s
  {
  }

  /**
   * `Update Employee Success` overwrites the record at its id and no other,
   * keeping the order; for an id not stored it changes nothing.
   */
  lemma UpdateOverwrites(s: State, emp: Employee)
    requires EmployeeState.Valid(s)
    ensures var r := Reduce(s, UpdateEmployeeSuccess(emp));
      && r.records.ids == s.records.ids
      && (emp.id in s.records.ids ==> r.records.entities == s.records.entities[emp.id := emp])
      && (emp.id !in s.records.ids ==> r == s)
      && r == s.(records := r.records)
  {
    var r := Reduce(s, UpdateEmployeeSuccess(emp));
    if emp.id in s.records.ids {
      assert r.records.entities == s.records.entities[emp.id := emp];
    }
  }

  /**
   * `Delete Employee Success` removes the id from the order and the map and
   * keeps every other record in its place; the selection is not cleared.
   */
  lemma DeleteRemoves(s: State, id: string)
    requires EmployeeState.Valid(s)
    ensures var r := Reduce(s, DeleteEmployeeSuccess(id));
      && id !in r.records.ids && id !in r.records.entities
      && r.records.ids == Filter(s.records.ids, k => k != id)
      && r.records.entities == s.records.entities - {id}
      && r.selectedEmployeeId == s.selectedEmployeeId
      && r == s.(records := r.records)
  {
    var r := Reduce(s, DeleteEmployeeSuccess(id));
    assert r.records.entities == s.records.entities - {id};
  }

  /** The filter and selection events set their one field and nothing else. */
  lemma ViewEventsSetOneField(s: State, e: Event)
    requires e.FilterEmployees? || e.FilterByStatus? || e.SelectEmployee?
    ensures var r := Reduce(s, e);
      && r.records == s.records && r.loading == s.loading && r.error == s.error
      && (e.FilterEmployees? ==> r == s.(filter := e.query))
      && (e.FilterByStatus? ==> r == s.(statusFilter := e.status))
      && (e.SelectEmployee? ==> r == s.(selectedEmployeeId := Some(e.employee.id)))
  {
  }

  /**
   * Only the five success events that carry records or an id change the collection:
   * every other event leaves `ids` and `entities` as they were.
   */
  lemma OnlySuccessesTouchRecords(s: State, e: Event)
    requires !(e.LoadEmployeesSuccess? || e.LoadEmployeeSuccess? || e.CreateEmployeeSuccess?
               || e.UpdateEmployeeSuccess? || e.DeleteEmployeeSuccess?)
    ensures Reduce(s, e).records == s.records
  {
  }

  /**
   * From the initial state: load one record, create a second with a
   * different id, update the second, delete it. One id remains and the
   * first record is stored unchanged.
   */
  lemma LoadCreateUpdateDelete(a: Employee, b: Employee, b': Employee)
    requires a.id != b.id && b'.id == b.id
    ensures var r := Reduce(Reduce(Reduce(Reduce(Initial(),
                       LoadEmployeesSuccess([a])), CreateEmployeeSuccess(b)),
                       UpdateEmployeeSuccess(b')), DeleteEmployeeSuccess(b.id));
      && r.records.ids == [a.id]
      && r.records.entities == map[a.id := a]
  {
    var s1 := Reduce(Initial(), LoadEmployeesSuccess([a]));
    LoadFirst(a);
    var s2 := Reduce(s1, CreateEmployeeSuccess(b));
    CreateSecond(s1, a, b);
    var s3 := Reduce(s2, UpdateEmployeeSuccess(b'));
    UpdateSecond(s2, a, b, b');
    DeleteSecond(s3, a, b');
  }

  /** The one-record collection holding `a`. */
  function OneRecord(a: Employee): EntityState {
    EntityState([a.id], map[a.id := a])
  }

  /** The two-record collection holding `a`, then `b`. */
  function TwoRecords(a: Employee, b: Employee): EntityState {
    EntityState([a.id, b.id], map[a.id := a][b.id := b])
  }

  /** Loading a single record from the initial state stores just that record. */
  lemma LoadFirst(a: Employee)
    ensures Reduce(Initial(), LoadEmployeesSuccess([a])).records == OneRecord(a)
  {
    var s1 := Reduce(Initial(), LoadEmployeesSuccess([a]));
    assert Ids([a]) == [a.id];
    DedupOfDistinct([a.id]);
    assert FirstWithId([a], 0);
    assert s1.records.entities == map[a.id := a];
  }

  /** Creating a record with a second id appends it. */
  lemma CreateSecond(s: State, a: Employee, b: Employee)
    requires EmployeeState.Valid(s) && s.records == OneRecord(a)
    requires a.id != b.id
    ensures Reduce(s, CreateEmployeeSuccess(b)).records == TwoRecords(a, b)
  {
    CreateAppends(s, b);
  }

  /** Updating the second record replaces it in place. */
  lemma UpdateSecond(s: State, a: Employee, b: Employee, b': Employee)
    requires EmployeeState.Valid(s) && s.records == TwoRecords(a, b)
    requires b'.id == b.id
    ensures Reduce(s, UpdateEmployeeSuccess(b')).records == TwoRecords(a, b')
  {
    UpdateOverwrites(s, b');
    assert s.records.entities[b.id := b'] == TwoRecords(a, b').entities;
  }

  /** Deleting the second record leaves the first alone. */
  lemma DeleteSecond(s: State, a: Employee, b: Employee)
    requires EmployeeState.Valid(s) && s.records == TwoRecords(a, b)
    requires a.id != b.id
    ensures Reduce(s, DeleteEmployeeSuccess(b.id)).records == OneRecord(a)
  {
    DeleteRemoves(s, b.id);
    DropSecondId(a.id, b.id);
    DropSecondEntry(a, b);
  }

  /** Removing the second of two distinct ids leaves the first. */
  lemma DropSecondId(x: string, y: string)
    requires x != y
    ensures Filter([x, y], k => k != y) == [x]
  {
    var ids := [x, y];
    assert ids[1..] == [y] && [y][1..] == [];
    assert Filter([y], k => k != y) == [];
  }

  /** Removing the second entry of a two-entry map restores the one-entry map. */
  lemma DropSecondEntry(a: Employee, b: Employee)
    requires a.id != b.id
    ensures map[a.id := a][b.id := b] - {b.id} == map[a.id := a]
  {
  }
}
