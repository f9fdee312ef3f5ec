/**
 * The employee event alphabet: one constructor per event of the action
 * group, carrying that event's payload, plus `Unrecognised` for any action
 * of another group that reaches the reducer.
 */
module EmployeeActions {
  import opened Nullable
  import opened EmployeeModel
  import ActionTypes

  /**
   * The `type` of an action of another group: a string no event of this
   * group carries, so dispatch by `type` can never mistake it for one.
   */
  type ForeignTag = t: string | ActionTypes.ParseType(t).None? witness ""

  datatype Event =
    | LoadEmployees
    | LoadEmployeesSuccess(employees: seq<Employee>)
    | LoadEmployeesFailure(error: string)
    | LoadEmployee(id: string)
    | LoadEmployeeSuccess(employee: Employee)
    | LoadEmployeeFailure(error: string)
    | CreateEmployee(data: EmployeeData)
    | CreateEmployeeSuccess(employee: Employee)
    | CreateEmployeeFailure(error: string)
    | UpdateEmployee(id: string, changes: EmployeeChanges)
    | UpdateEmployeeSuccess(employee: Employee)
    | UpdateEmployeeFailure(error: string)
    | DeleteEmployee(id: string)
    | DeleteEmployeeSuccess(id: string)
    | DeleteEmployeeFailure(error: string)
    | FilterEmployees(query: string)
    | FilterByStatus(status: Option<EmployeeStatus>)
    | SelectEmployee(employee: Employee)
    | Unrecognised(tag: ForeignTag)

  /** Which event of the group this is; `None` for an action of another group. */
  function Kind(e: Event): Option<ActionTypes.ActionType> {
    match e
    case LoadEmployees => Some(ActionTypes.LoadEmployees)
    case LoadEmployeesSuccess(_) => Some(ActionTypes.LoadEmployeesSuccess)
    case LoadEmployeesFailure(_) => Some(ActionTypes.LoadEmployeesFailure)
    case LoadEmployee(_) => Some(ActionTypes.LoadEmployee)
    case LoadEmployeeSuccess(_) => Some(ActionTypes.LoadEmployeeSuccess)
    case LoadEmployeeFailure(_) => Some(ActionTypes.LoadEmployeeFailure)
    case CreateEmployee(_) => Some(ActionTypes.CreateEmployee)
    case CreateEmployeeSuccess(_) => Some(ActionTypes.CreateEmployeeSuccess)
    case CreateEmployeeFailure(_) => Some(ActionTypes.CreateEmployeeFailure)
    case UpdateEmployee(_, _) => Some(ActionTypes.UpdateEmployee)
    case UpdateEmployeeSuccess(_) => Some(ActionTypes.UpdateEmployeeSuccess)
    case UpdateEmployeeFailure(_) => Some(ActionTypes.UpdateEmployeeFailure)
    case DeleteEmployee(_) => Some(ActionTypes.DeleteEmployee)
    case DeleteEmployeeSuccess(_) => Some(ActionTypes.DeleteEmployeeSuccess)
    case DeleteEmployeeFailure(_) => Some(ActionTypes.DeleteEmployeeFailure)
    case FilterEmployees(_) => Some(ActionTypes.FilterEmployees)
    case FilterByStatus(_) => Some(ActionTypes.FilterByStatus)
    case SelectEmployee(_) => Some(ActionTypes.SelectEmployee)
    case Unrecognised(_) => None
  }

  /** The action's `type` string. */
  function Type(e: Event): string {
    match Kind(e)
    case Some(t) => ActionTypes.TypeString(t)
    case None => e.tag
  }

  /**
   * Dispatch by `type` string agrees with the constructor: reading back the
   * `type` of any action yields its kind, and in particular
   * `Unrecognised` is exactly the case where no event of the group matches.
   */
  lemma TypeIdentifiesKind(e: Event)
    ensures ActionTypes.ParseType(Type(e)) == Kind(e)
  {
    if e.Unrecognised? {
      assert Type(e) == e.tag;
    } else {
      ActionTypes.ParseTypeRoundTrip(Kind(e).value);
    }
  }

  /** The error message carried by an event, present exactly on the failure events. */
  function ErrorOf(e: Event): (r: Option<string>)
    ensures r.Some? <==> Kind(e).Some? && ActionTypes.IsFailure(Kind(e).value)
  {
    if || e.LoadEmployeesFailure? || e.LoadEmployeeFailure? || e.CreateEmployeeFailure?
       || e.UpdateEmployeeFailure? || e.DeleteEmployeeFailure?
    then Some(e.error)
    else None
  }

}
