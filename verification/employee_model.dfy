/**
 * The employee record and its status enumeration, plus the two payload
 * shapes derived from it by the actions: the record without its id
 * (`Omit<Employee, 'id'>`) and the partial record (`Partial<Employee>`).
 */
module EmployeeModel {
  import opened Nullable

  datatype EmployeeStatus = Active | Inactive | OnLeave

  /** The string value of each enum member, as stored and sent over the wire. */
  function StatusValue(s: EmployeeStatus): string {
    match s
    case Active => "ACTIVE"
    case Inactive => "INACTIVE"
    case OnLeave => "ON_LEAVE"
  }

  /** Reads an enum member back from its string value; any other string is not a status. */
  function ParseStatus(v: string): (r: Option<EmployeeStatus>)
    ensures r.Some? ==> StatusValue(r.value) == v
  {
    if v == "ACTIVE" then Some(Active)
    else if v == "INACTIVE" then Some(Inactive)
    else if v == "ON_LEAVE" then Some(OnLeave)
    else None
  }

  /** Every status value reads back as the status it came from, so distinct statuses have distinct values. */
  lemma ParseStatusValue(s: EmployeeStatus)
    ensures ParseStatus(StatusValue(s)) == Some(s)
  {
    match s
    case Active =>
    case Inactive =>
      assert StatusValue(s) != "ACTIVE" by { assert |StatusValue(s)| != |"ACTIVE"|; }
    case OnLeave =>
      assert StatusValue(s) != "ACTIVE" by { assert StatusValue(s)[0] != "ACTIVE"[0]; }
      assert StatusValue(s) != "INACTIVE" by { assert StatusValue(s)[0] != "INACTIVE"[0]; }
  }

  datatype Employee = Employee(
    id: string,
    name: string,
    email: string,
    position: string,
    status: EmployeeStatus,
    joiningDate: string)

  /** An employee record without its id: the payload of a creation request. */
  datatype EmployeeData = EmployeeData(
    name: string,
    email: string,
    position: string,
    status: EmployeeStatus,
    joiningDate: string)

  /** A partial employee record: each property is either present or absent. */
  datatype EmployeeChanges = EmployeeChanges(
    id: Option<string>,
    name: Option<string>,
    email: Option<string>,
    position: Option<string>,
    status: Option<EmployeeStatus>,
    joiningDate: Option<string>)

  /** Drops the id (`const { id, ...rest } = employee`). */
  function WithoutId(e: Employee): EmployeeData {
    EmployeeData(e.name, e.email, e.position, e.status, e.joiningDate)
  }

  /** Completes a record with the id the server assigned. */
  function WithId(d: EmployeeData, id: string): (e: Employee)
    ensures e.id == id
    ensures WithoutId(e) == d
  {
    Employee(id, d.name, d.email, d.position, d.status, d.joiningDate)
  }

  /** A complete record seen as a partial one: every property present. */
  function AllChanges(e: Employee): EmployeeChanges {
    EmployeeChanges(Some(e.id), Some(e.name), Some(e.email), Some(e.position), Some(e.status), Some(e.joiningDate))
  }

  /** A record without id seen as a partial one: every property but the id present. */
  function DataChanges(d: EmployeeData): EmployeeChanges {
    EmployeeChanges(None, Some(d.name), Some(d.email), Some(d.position), Some(d.status), Some(d.joiningDate))
  }

  /** The present value, or `current` when the property is absent. */
  function Override<T>(change: Option<T>, current: T): T {
    if change.Some? then change.value else current
  }

  /**
   * `Object.assign({}, e, c)`: each property present in `c` overrides the
   * one in `e`; an absent one keeps the value of `e`.
   */
  function Apply(e: Employee, c: EmployeeChanges): (r: Employee)
    ensures c.id.Some? ==> r.id == c.id.value
    ensures c.id.None? ==> r.id == e.id
    ensures c.name.Some? ==> r.name == c.name.value
    ensures c.name.None? ==> r.name == e.name
    ensures c.email.Some? ==> r.email == c.email.value
    ensures c.email.None? ==> r.email == e.email
    ensures c.position.Some? ==> r.position == c.position.value
    ensures c.position.None? ==> r.position == e.position
    ensures c.status.Some? ==> r.status == c.status.value
    ensures c.status.None? ==> r.status == e.status
    ensures c.joiningDate.Some? ==> r.joiningDate == c.joiningDate.value
    ensures c.joiningDate.None? ==> r.joiningDate == e.joiningDate
  {
    Employee(
      Override(c.id, e.id),
      Override(c.name, e.name),
      Override(c.email, e.email),
      Override(c.position, e.position),
      Override(c.status, e.status),
      Override(c.joiningDate, e.joiningDate))
  }

  /** Merging a complete record overwrites every property: the result is that record. */
  lemma ApplyAllChanges(e: Employee, f: Employee)
    ensures Apply(e, AllChanges(f)) == f
  {
  }

  /** The id of each record, in order. */
  function Ids(es: seq<Employee>): (r: seq<string>)
    ensures |r| == |es|
    ensures forall i :: 0 <= i < |es| ==> r[i] == es[i].id
  {
    seq(|es|, i requires 0 <= i < |es| => es[i].id)
  }
}
