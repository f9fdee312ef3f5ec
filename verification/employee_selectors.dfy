/**
 * The derived views of the employee store: every record in id order, the
 * status filter, and the records filtered by that status.
 */
module EmployeeSelectors {
  import opened Nullable
  import opened Collections
  import opened EmployeeModel
  import opened EntityAdapter
  import opened EmployeeState
  import opened EmployeeActions
  import opened EmployeeReducer

  /** Every id in the order has a record: what the adapter's `selectAll` needs to list them. */
  ghost predicate Listable(s: EntityState) {
    forall i :: 0 <= i < |s.ids| ==> s.ids[i] in s.entities
  }

  /** `selectAll`: the record of each id, in the order of `ids`. */
  function SelectAll(s: EntityState): (r: seq<Employee>)
    requires Listable(s)
    ensures |r| == |s.ids|
    ensures forall i :: 0 <= i < |r| ==> r[i] == s.entities[s.ids[i]]
  {
    seq(|s.ids|, i requires 0 <= i < |s.ids| => s.entities[s.ids[i]])
  }

  /** `selectAllEmployees`. */
  function SelectAllEmployees(s: State): (r: seq<Employee>)
    requires Listable(s.records)
    ensures |r| == |s.records.ids|
  {
    SelectAll(s.records)
  }

  /** `selectStatusFilter`. */
  function SelectStatusFilter(s: State): Option<EmployeeStatus> {
    s.statusFilter
  }

  /** Keeps the records whose status equals `status`. */
  function WithStatus(es: seq<Employee>, status: EmployeeStatus): (r: seq<Employee>)
    ensures forall i :: 0 <= i < |r| ==> r[i].status == status
    ensures forall e :: e in r <==> e in es && e.status == status
  {
    var r := Filter(es, (e: Employee) => e.status == status);
    assert forall i :: 0 <= i < |r| ==> r[i] in r;
    r
  }

  /**
   * `selectFilteredEmployees`: all records when no status filter is set,
   * otherwise those with the filter's status.
   */
  function SelectFilteredEmployees(s: State): (r: seq<Employee>)
    requires Listable(s.records)
    ensures s.statusFilter.None? ==> r == SelectAllEmployees(s)
    ensures s.statusFilter.Some? ==> forall i :: 0 <= i < |r| ==> r[i].status == s.statusFilter.value
    ensures forall e :: e in r <==> e in SelectAllEmployees(s) && (s.statusFilter.None? || e.status == s.statusFilter.value)
  {
    match SelectStatusFilter(s)
    case None => SelectAllEmployees(s)
    case Some(status) => WithStatus(SelectAllEmployees(s), status)
  }

  /** A valid collection can always be listed. */
  lemma ValidIsListable(s: EntityState)
    requires EntityAdapter.Valid(s)
    ensures Listable(s)
  {
  }

  /**
   * Every state the store can reach from its initial state can be listed,
   * and the listing carries exactly the ids of its order.
   */
  lemma ReachableIsListable(events: seq<Event>)
    ensures Listable(ReduceAll(Initial(), events).records)
    ensures var s := ReduceAll(Initial(), events);
      Ids(SelectAllEmployees(s)) == s.records.ids
  {
    var s := ReduceAll(Initial(), events);
    ReduceAllValid(Initial(), events);
    ValidIsListable(s.records);
    SelectAllIds(s.records);
  }

  /** In a valid collection the listed records carry the ids of the order, one each. */
  lemma SelectAllIds(s: EntityState)
    requires EntityAdapter.Valid(s)
    ensures Ids(SelectAll(s)) == s.ids
  {
  }

  /** The filtered view keeps the order of the full view and drops only records of another status. */
  lemma FilteredIsSubsequence(s: State)
    requires Listable(s.records)
    ensures IsSubsequence(SelectFilteredEmployees(s), SelectAllEmployees(s))
  {
    match s.statusFilter
    case None =>
      var all := SelectAllEmployees(s);
      FilterKeepsAll(all, (e: Employee) => true);
      FilterIsSubsequence(all, (e: Employee) => true);
    case Some(status) =>
      FilterIsSubsequence(SelectAllEmployees(s), (e: Employee) => e.status == status);
  }

  /** Filtering the filtered view again by the same status gives it back. */
  lemma WithStatusIdempotent(es: seq<Employee>, status: EmployeeStatus)
    ensures WithStatus(WithStatus(es, status), status) == WithStatus(es, status)
  {
    FilterIdempotent(es, (e: Employee) => e.status == status);
  }

  /**
   * The filtered view depends on the records and the status filter only:
   * the text `filter`, the selection, `loading` and `error` do not matter.
   */
  lemma FilteredIgnoresOtherFields(s: State, t: State)
    requires Listable(s.records)
    requires s.records == t.records && s.statusFilter == t.statusFilter
    ensures SelectFilteredEmployees(s) == SelectFilteredEmployees(t)
  {
  }

  /** Loading records with distinct ids and listing them gives the loaded list back. */
  lemma SetAllThenSelectAll(es: seq<Employee>)
    requires Distinct(Ids(es))
    ensures SelectAll(SetAll(es)) == es
  {
    var r := SetAll(es);
    DedupOfDistinct(Ids(es));
    assert r.ids == Ids(es);
    forall i | 0 <= i < |es| ensures r.entities[r.ids[i]] == es[i] {
      assert FirstWithId(es, i) by {
        forall j | 0 <= j < i ensures es[j].id != es[i].id {
          assert Ids(es)[j] != Ids(es)[i];
        }
      }
    }
  }

  /** Adding a record with a fresh id appends it to the listing. */
  lemma AddOneThenSelectAll(s: EntityState, e: Employee)
    requires EntityAdapter.Valid(s)
    requires e.id !in s.entities
    ensures SelectAll(AddOne(s, e)) == SelectAll(s) + [e]
  {
  }

  /** Updating a stored record replaces it in place in the listing; every other position is unchanged. */
  lemma UpdateOneThenSelectAll(s: EntityState, e: Employee)
    requires EntityAdapter.Valid(s)
    requires e.id in s.entities
    ensures var before, after := SelectAll(s), SelectAll(UpdateOne(s, e));
      && |after| == |before|
      && forall i :: 0 <= i < |before| ==> after[i] == (if before[i].id == e.id then e else before[i])
  {
  }

  /** Removing a record drops it from the listing and keeps the others in order. */
  lemma RemoveOneThenSelectAll(s: EntityState, key: string)
    requires EntityAdapter.Valid(s)
    ensures SelectAll(RemoveOne(s, key)) == Filter(SelectAll(s), (e: Employee) => e.id != key)
  {
    var r := RemoveOne(s, key);
    ListFilter(s.ids, s.entities, r.entities, key);
  }

  /** Listing starts with the record of the first id, followed by the listing of the rest. */
  lemma SelectAllCons(ids: seq<string>, m: map<string, Employee>)
    requires |ids| > 0 && Listable(EntityState(ids, m))
    ensures SelectAll(EntityState(ids, m)) == [m[ids[0]]] + SelectAll(EntityState(ids[1..], m))
  {
  }

  /**
   * Listing the ids that survive the removal of `key` is listing all ids
   * and dropping the record of `key`.
   */
  lemma {:induction false} ListFilter(ids: seq<string>, m: map<string, Employee>, m': map<string, Employee>, key: string)
    requires forall i :: 0 <= i < |ids| ==> ids[i] in m && m[ids[i]].id == ids[i]
    requires forall k :: k in m && k != key ==> k in m' && m'[k] == m[k]
    ensures Listable(EntityState(Filter(ids, k => k != key), m'))
    ensures SelectAll(EntityState(Filter(ids, k => k != key), m'))
         == Filter(SelectAll(EntityState(ids, m)), (e: Employee) => e.id != key)
    decreases |ids|
  {
    var kept := Filter(ids, k => k != key);
    assert forall i :: 0 <= i < |kept| ==> kept[i] in kept;
    if |ids| > 0 {
      ListFilter(ids[1..], m, m', key);
      SelectAllCons(ids, m);
      if ids[0] != key {
        SelectAllCons(kept, m');
      }
    }
  }
}
