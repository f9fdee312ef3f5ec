/**
 * The type tags of the employee action group. An action group with source
 * `Employee` gives each event the type `"[Employee] " + <event name>`.
 */
module ActionTypes {
  import opened Nullable

  datatype ActionType =
    | LoadEmployees | LoadEmployeesSuccess | LoadEmployeesFailure
    | LoadEmployee | LoadEmployeeSuccess | LoadEmployeeFailure
    | CreateEmployee | CreateEmployeeSuccess | CreateEmployeeFailure
    | UpdateEmployee | UpdateEmployeeSuccess | UpdateEmployeeFailure
    | DeleteEmployee | DeleteEmployeeSuccess | DeleteEmployeeFailure
    | FilterEmployees | FilterByStatus
    | SelectEmployee

  /** The group's source name, written in brackets in front of every event name. */
  const Prefix: string := "[Employee] "

  /** The event name as declared in the action group. */
  function EventName(t: ActionType): string {
    match t
    case LoadEmployees => "Load Employees"
    case LoadEmployeesSuccess => "Load Employees Success"
    case LoadEmployeesFailure => "Load Employees Failure"
    case LoadEmployee => "Load Employee"
    case LoadEmployeeSuccess => "Load Employee Success"
    case LoadEmployeeFailure => "Load Employee Failure"
    case CreateEmployee => "Create Employee"
    case CreateEmployeeSuccess => "Create Employee Success"
    case CreateEmployeeFailure => "Create Employee Failure"
    case UpdateEmployee => "Update Employee"
    case UpdateEmployeeSuccess => "Update Employee Success"
    case UpdateEmployeeFailure => "Update Employee Failure"
    case DeleteEmployee => "Delete Employee"
    case DeleteEmployeeSuccess => "Delete Employee Success"
    case DeleteEmployeeFailure => "Delete Employee Failure"
    case FilterEmployees => "Filter Employees"
    case FilterByStatus => "Filter By Status"
    case SelectEmployee => "Select Employee"
  }

  /** The `type` string an action of this kind carries. */
  function TypeString(t: ActionType): (r: string)
    ensures |r| > |Prefix| && r[..|Prefix|] == Prefix
  {
    Prefix + EventName(t)
  }

  /** Recognises an event name of the group. */
  function ParseEventName(n: string): (r: Option<ActionType>)
    ensures r.Some? ==> EventName(r.value) == n
  {
    if n == "Load Employees" then Some(LoadEmployees)
    else if n == "Load Employees Success" then Some(LoadEmployeesSuccess)
    else if n == "Load Employees Failure" then Some(LoadEmployeesFailure)
    else if n == "Load Employee" then Some(LoadEmployee)
    else if n == "Load Employee Success" then Some(LoadEmployeeSuccess)
    else if n == "Load Employee Failure" then Some(LoadEmployeeFailure)
    else if n == "Create Employee" then Some(CreateEmployee)
    else if n == "Create Employee Success" then Some(CreateEmployeeSuccess)
    else if n == "Create Employee Failure" then Some(CreateEmployeeFailure)
    else if n == "Update Employee" then Some(UpdateEmployee)
    else if n == "Update Employee Success" then Some(UpdateEmployeeSuccess)
    else if n == "Update Employee Failure" then Some(UpdateEmployeeFailure)
    else if n == "Delete Employee" then Some(DeleteEmployee)
    else if n == "Delete Employee Success" then Some(DeleteEmployeeSuccess)
    else if n == "Delete Employee Failure" then Some(DeleteEmployeeFailure)
    else if n == "Filter Employees" then Some(FilterEmployees)
    else if n == "Filter By Status" then Some(FilterByStatus)
    else if n == "Select Employee" then Some(SelectEmployee)
    else None
  }

  /** Recognises a `type` string of the group: the prefix followed by an event name. */
  function ParseType(s: string): (r: Option<ActionType>)
    ensures r.Some? ==> TypeString(r.value) == s
  {
    if |s| >= |Prefix| && s[..|Prefix|] == Prefix then
      var r := ParseEventName(s[|Prefix|..]);
      assert r.Some? ==> s == Prefix + s[|Prefix|..];
      r
    else None
  }

  /** Every event name is recognised as the event it names. */
  lemma ParseEventNameRoundTrip(t: ActionType)
    ensures ParseEventName(EventName(t)) == Some(t)
  {
    match t
    case LoadEmployees | LoadEmployeesSuccess | LoadEmployeesFailure | LoadEmployee | LoadEmployeeSuccess | LoadEmployeeFailure => LoadNamesRoundTrip(t);
    case CreateEmployee | CreateEmployeeSuccess | CreateEmployeeFailure => CreateNamesRoundTrip(t);
    case UpdateEmployee | UpdateEmployeeSuccess | UpdateEmployeeFailure => UpdateNamesRoundTrip(t);
    case DeleteEmployee => DeleteRequestNameRoundTrip(t);
    case DeleteEmployeeSuccess => DeleteSuccessNameRoundTrip(t);
    case DeleteEmployeeFailure => DeleteFailureNameRoundTrip(t);
    case FilterEmployees => FilterNameRoundTrip(t);
    case FilterByStatus => StatusFilterNameRoundTrip(t);
    case SelectEmployee => SelectNameRoundTrip(t);
  }

  /** The names of the load events read back as their events. */
  lemma LoadNamesRoundTrip(t: ActionType)
    requires t.LoadEmployees? || t.LoadEmployeesSuccess? || t.LoadEmployeesFailure? || t.LoadEmployee? || t.LoadEmployeeSuccess? || t.LoadEmployeeFailure?
    ensures ParseEventName(EventName(t)) == Some(t)
  {
  }

  /** The names of the create events read back as their events. */
  lemma CreateNamesRoundTrip(t: ActionType)
    requires t.CreateEmployee? || t.CreateEmployeeSuccess? || t.CreateEmployeeFailure?
    ensures ParseEventName(EventName(t)) == Some(t)
  {
  }

  /** The names of the update events read back as their events. */
  lemma UpdateNamesRoundTrip(t: ActionType)
    requires t.UpdateEmployee? || t.UpdateEmployeeSuccess? || t.UpdateEmployeeFailure?
    ensures ParseEventName(EventName(t)) == Some(t)
  {
    assert EventName(t)[0] == 'U';
  }

  /** The name of the delete request reads back as its event. */
  lemma DeleteRequestNameRoundTrip(t: ActionType)
    requires t.DeleteEmployee?
    ensures ParseEventName(EventName(t)) == Some(t)
  {
  }

  /** The name of the delete success reads back as its event. */
  lemma DeleteSuccessNameRoundTrip(t: ActionType)
    requires t.DeleteEmployeeSuccess?
    ensures ParseEventName(EventName(t)) == Some(t)
  {
  }

  /** The name of the delete failure reads back as its event. */
  lemma DeleteFailureNameRoundTrip(t: ActionType)
    requires t.DeleteEmployeeFailure?
    ensures ParseEventName(EventName(t)) == Some(t)
  {
  }

  /** The name of the text filter event reads back as its event. */
  lemma FilterNameRoundTrip(t: ActionType)
    requires t.FilterEmployees?
    ensures ParseEventName(EventName(t)) == Some(t)
  {
  }

  /** The name of the status filter event reads back as its event. */
  lemma StatusFilterNameRoundTrip(t: ActionType)
    requires t.FilterByStatus?
    ensures ParseEventName(EventName(t)) == Some(t)
  {
  }

  /** The name of the selection event reads back as its event. */
  lemma SelectNameRoundTrip(t: ActionType)
    requires t.SelectEmployee?
    ensures ParseEventName(EventName(t)) == Some(t)
  {
  }

  /** Every `type` string reads back as its event; so distinct events have distinct types. */
  lemma ParseTypeRoundTrip(t: ActionType)
    ensures ParseType(TypeString(t)) == Some(t)
  {
    var s := TypeString(t);
    assert s[|Prefix|..] == EventName(t);
    ParseEventNameRoundTrip(t);
  }

  /** Distinct events carry distinct `type` strings. */
  lemma TypeStringInjective(t: ActionType, u: ActionType)
    ensures TypeString(t) == TypeString(u) <==> t == u
  {
    ParseTypeRoundTrip(t);
    ParseTypeRoundTrip(u);
  }

  /** The failure events: each one carries an error message and nothing else. */
  predicate IsFailure(t: ActionType) {
    || t.LoadEmployeesFailure? || t.LoadEmployeeFailure? || t.CreateEmployeeFailure?
    || t.UpdateEmployeeFailure? || t.DeleteEmployeeFailure?
  }

}
