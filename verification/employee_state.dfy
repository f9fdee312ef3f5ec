/** The employee store's state and its initial value. */
module EmployeeState {
  import opened Nullable
  import opened EmployeeModel
  import opened EntityAdapter

  /**
   * The record collection (`ids` and `entities`) together with the
   * transient view state kept next to it.
   */
  datatype State = State(
    records: EntityState,
    selectedEmployeeId: Option<string>,
    loading: bool,
    error: Option<string>,
    filter: string,
    statusFilter: Option<EmployeeStatus>)

  /** The store invariant, which constrains only the record collection. */
  ghost predicate Valid(s: State) {
    EntityAdapter.Valid(s.records)
  }

  /** The state the store starts from: no records, no selection, not loading, no error, no filters. */
  function Initial(): (s: State)
    ensures Valid(s)
    ensures |s.records.ids| == 0 && s.records.entities == map[]
    ensures s.selectedEmployeeId.None? && !s.loading && s.error.None?
    ensures s.filter == "" && s.statusFilter.None?
  {
    State(Empty(), None, false, None, "", None)
  }
}
