/**
 * The pure decisions of the employee details component: the CSS class of
 * a status, the message shown for a form control's errors, whether the
 * route puts the page in edit mode, and which event a submission
 * dispatches. Form rendering, validators and navigation are not modelled;
 * a control's current errors are an input.
 */
module EmployeeDetails {
  import opened Nullable
  import opened Text
  import opened EmployeeModel
  import opened EmployeeActions
  import opened EmployeeState
  import opened EmployeeReducer
  import EntityAdapter

  /** `getStatusClass`: the status lower-cased, with its first space turned into `_`. */
  function StatusClass(status: string): (r: string)
    ensures |r| == |status|
    ensures forall i :: 0 <= i < |r| ==> !IsUpper(r[i])
    ensures forall i :: 0 <= i < |r| ==> r[i] == (if i == FirstIndex(status, ' ') then '_' else LowerChar(status[i]))
  {
    var lowered := ToLower(status);
    SpaceSurvivesLowering(status);
    ReplaceFirst(lowered, ' ', '_')
  }

  /** Lower-casing does not move the first space. */
  lemma {:induction false} SpaceSurvivesLowering(s: string)
    ensures FirstIndex(ToLower(s), ' ') == FirstIndex(s, ' ')
    decreases |s|
  {
    if |s| > 0 {
      SpaceSurvivesLowering(s[1..]);
      assert ToLower(s)[1..] == ToLower(s[1..]);
    }
  }

  /** The three enum values map to `active`, `inactive` and `on_leave`. */
  lemma StatusClassOfStatuses()
    ensures StatusClass(StatusValue(Active)) == "active"
    ensures StatusClass(StatusValue(Inactive)) == "inactive"
    ensures StatusClass(StatusValue(OnLeave)) == "on_leave"
  {
    ClassOfActive();
    ClassOfInactive();
    ClassOfOnLeave();
  }

  lemma ClassOfActive()
    ensures StatusClass("ACTIVE") == "active"
  {
    LowerActive();
    ClassOfWord("ACTIVE");
  }

  lemma ClassOfInactive()
    ensures StatusClass("INACTIVE") == "inactive"
  {
    LowerInactive();
    ClassOfWord("INACTIVE");
  }

  lemma ClassOfOnLeave()
    ensures StatusClass("ON_LEAVE") == "on_leave"
  {
    LowerOnLeave();
    ClassOfWord("ON_LEAVE");
  }

  lemma LowerActive()
    ensures ToLower("ACTIVE") == "active"
  {
    var w := ToLower("ACTIVE");
    assert w[0] == 'a';
    assert w[1] == 'c';
    assert w[2] == 't';
    assert w[3] == 'i';
    assert w[4] == 'v';
    assert w[5] == 'e';
  }

  lemma LowerInactive()
    ensures ToLower("INACTIVE") == "inactive"
  {
    var w := ToLower("INACTIVE");
    assert w[0] == 'i';
    assert w[1] == 'n';
    assert w[2] == 'a';
    assert w[3] == 'c';
    assert w[4] == 't';
    assert w[5] == 'i';
    assert w[6] == 'v';
    assert w[7] == 'e';
  }

  lemma LowerOnLeave()
    ensures ToLower("ON_LEAVE") == "on_leave"
  {
    var w := ToLower("ON_LEAVE");
    assert w[0] == 'o';
    assert w[1] == 'n';
    assert w[2] == '_';
    assert w[3] == 'l';
    assert w[4] == 'e';
    assert w[5] == 'a';
    assert w[6] == 'v';
    assert w[7] == 'e';
  }

  /** A word without spaces is only lower-cased. */
  lemma ClassOfWord(s: string)
    requires ' ' !in s
    ensures StatusClass(s) == ToLower(s)
  {
  }

  /** The errors a form control currently reports, by key, and the length a `minlength` error requires. */
  datatype ControlErrors = ControlErrors(keys: set<string>, minLengthRequired: nat)

  /** The form: its controls by name. A name without a control is absent. */
  type Form = map<string, ControlErrors>

  const EmailMessage: string := "Please enter a valid email address"

  /**
   * `getErrorMessage`: nothing for a missing control; otherwise the message
   * for `required`, else `email`, else `minlength`; nothing when the control
   * reports none of these.
   */
  function ErrorMessage(form: Form, field: string): (r: string)
    ensures field !in form ==> r == ""
    ensures field in form && "required" in form[field].keys ==> r == Capitalize(field) + " is required"
    ensures field in form && "required" !in form[field].keys && "email" in form[field].keys ==> r == EmailMessage
    ensures field in form && "required" !in form[field].keys && "email" !in form[field].keys
            && "minlength" in form[field].keys ==>
              r == Capitalize(field) + " must be at least " + NatToString(form[field].minLengthRequired) + " characters"
    ensures r == "" <==> field !in form || (forall k :: k in form[field].keys ==> k != "required" && k != "email" && k != "minlength")
  {
    if field !in form then ""
    else
      var control := form[field];
      if "required" in control.keys then Capitalize(field) + " is required"
      else if "email" in control.keys then EmailMessage
      else if "minlength" in control.keys then
        Capitalize(field) + " must be at least " + NatToString(control.minLengthRequired) + " characters"
      else ""
  }

  /** The error a control's message reports, by precedence: `required`, then `email`, then `minlength`. */
  function ReportedError(form: Form, field: string): Option<string> {
    if field !in form then None
    else if "required" in form[field].keys then Some("required")
    else if "email" in form[field].keys then Some("email")
    else if "minlength" in form[field].keys then Some("minlength")
    else None
  }

  function EndsWith(s: string, suffix: string): bool {
    |suffix| <= |s| && s[|s| - |suffix|..] == suffix
  }

  /** Which error a message reports, read from its text alone. */
  function MessageKind(msg: string): Option<string> {
    if msg == EmailMessage then Some("email")
    else if EndsWith(msg, " is required") then Some("required")
    else if EndsWith(msg, " characters") then Some("minlength")
    else None
  }

  /** The three messages cannot be confused: the text of a message tells which error it reports. */
  lemma MessageNamesError(form: Form, field: string)
    ensures MessageKind(ErrorMessage(form, field)) == ReportedError(form, field)
  {
    var r := ErrorMessage(form, field);
    if field in form && "required" in form[field].keys {
      var suffix := " is required";
      assert r[|r| - |suffix|..] == suffix;
      assert r != EmailMessage by { assert r[|r| - 1] == 'd' && EmailMessage[|EmailMessage| - 1] == 's'; }
    } else if field in form && "email" in form[field].keys {
    } else if field in form && "minlength" in form[field].keys {
      var suffix := " characters";
      assert r[|r| - |suffix|..] == suffix;
      assert r != EmailMessage by { assert r[|r| - 2] == 'r' && EmailMessage[|EmailMessage| - 2] == 's'; }
      assert r[|r| - 12..] != " is required" by { assert r[|r| - 1] == 's'; }
    }
  }

  /** The length the name control's `minLength` validator requires. */
  const NameMinLength: nat := 2

  /** `name` capitalised, as it appears in the name control's messages. */
  lemma CapitalizedName()
    ensures Capitalize("name") == "Name"
  {
    assert UpperChar('n') == 'N';
    assert "name"[1..] == "ame";
  }

  /** A required name reads "Name is required". */
  lemma NameRequiredMessage(form: Form)
    requires "name" in form && "required" in form["name"].keys
    ensures ErrorMessage(form, "name") == "Name is required"
  {
    CapitalizedName();
  }

  /** A name that is present but too short reads "Name must be at least 2 characters". */
  lemma NameTooShortMessage(form: Form)
    requires "name" in form && form["name"] == ControlErrors({"minlength"}, NameMinLength)
    ensures ErrorMessage(form, "name") == "Name must be at least 2 characters"
  {
    CapitalizedName();
    NameMinLengthText();
    assert "required" !in form["name"].keys && "email" !in form["name"].keys;
    assert ErrorMessage(form, "name") == "Name" + " must be at least " + "2" + " characters";
    TooShortText();
  }

  /** The form's minimum name length renders as `2`. */
  lemma NameMinLengthText()
    ensures NatToString(NameMinLength) == "2"
  {
    assert DigitChar(2) == '2';
  }

  /** The pieces of the too-short message for the name control, joined. */
  lemma TooShortText()
    ensures "Name" + " must be at least " + "2" + " characters" == "Name must be at least 2 characters"
  {
  }

  /** A route id is truthy when present and non-empty. */
  predicate Truthy(id: Option<string>) {
    id.Some? && id.value != ""
  }

  /** The edit-mode test of `ngOnInit`: `Boolean(id && id !== 'new')`. */
  function IsEditMode(routeId: Option<string>): bool {
    Truthy(routeId) && routeId.value != "new"
  }

  /** What `ngOnInit` dispatches: a load of the route's record in edit mode, nothing otherwise. */
  function InitEvent(routeId: Option<string>): Option<Event> {
    if IsEditMode(routeId) then Some(LoadEmployee(routeId.value)) else None
  }

  /**
   * What `onSubmit` dispatches: nothing for an invalid form; an update of
   * the route's record with the form data when in edit mode with a route
   * id; a creation otherwise.
   */
  function SubmitEvent(formValid: bool, isEditMode: bool, routeId: Option<string>, data: EmployeeData): Option<Event> {
    if !formValid then None
    else if isEditMode && Truthy(routeId) then Some(UpdateEmployee(routeId.value, DataChanges(data)))
    else Some(CreateEmployee(data))
  }

  /**
   * With the edit mode `ngOnInit` derived from the same route, a valid
   * submission updates exactly when the page is in edit mode. The update
   * names the route id and carries every form field but no id, since the
   * form has no id control.
   */
  lemma SubmitFollowsEditMode(routeId: Option<string>, data: EmployeeData)
    ensures var r := SubmitEvent(true, IsEditMode(routeId), routeId, data);
      && (IsEditMode(routeId) ==>
            && r.Some? && r.value.UpdateEmployee? && r.value.id == routeId.value
            && r.value.changes.id.None?
            && r.value.changes.name == Some(data.name)
            && r.value.changes.email == Some(data.email)
            && r.value.changes.position == Some(data.position)
            && r.value.changes.status == Some(data.status)
            && r.value.changes.joiningDate == Some(data.joiningDate))
      && (!IsEditMode(routeId) ==> r == Some(CreateEmployee(data)))
  {
  }

  /**
   * Opening the page in edit mode starts a load and changes nothing else;
   * once the record of the route arrives it is stored and selected.
   * Outside edit mode nothing is dispatched.
   */
  lemma InitLoadsRouteRecord(routeId: Option<string>, s: State, emp: Employee)
    requires EmployeeState.Valid(s)
    ensures !IsEditMode(routeId) ==> InitEvent(routeId).None?
    ensures IsEditMode(routeId) ==>
      && InitEvent(routeId).Some?
      && Reduce(s, InitEvent(routeId).value) == s.(loading := true, error := None)
      && (emp.id == routeId.value ==>
            var r := Reduce(Reduce(s, InitEvent(routeId).value), LoadEmployeeSuccess(emp));
            && r.selectedEmployeeId == routeId
            && r.records.entities[routeId.value] == emp
            && !r.loading && r.error.None?)
  {
    if IsEditMode(routeId) {
      var s1 := Reduce(s, InitEvent(routeId).value);
      LoadStarts(s, InitEvent(routeId).value);
      LoadOneStores(s1, emp);
    }
  }

  /**
   * Submitting only asks for a change: an invalid form dispatches nothing,
   * a valid one without a route id creates whatever the edit flag says, and
   * the request itself leaves the state as it was; the store changes only
   * when the server's answer arrives.
   */
  lemma SubmitLeavesState(formValid: bool, isEditMode: bool, routeId: Option<string>, data: EmployeeData, s: State)
    ensures var r := SubmitEvent(formValid, isEditMode, routeId, data);
      && (r.None? <==> !formValid)
      && (formValid && !Truthy(routeId) ==> r == Some(CreateEmployee(data)))
      && (r.Some? ==> Reduce(s, r.value) == s)
  {
    var r := SubmitEvent(formValid, isEditMode, routeId, data);
    if r.Some? {
      IgnoredEvents(s, r.value);
    }
  }

  /**
   * A valid submission outside edit mode creates a record from the form
   * data. The store keeps whatever record the server answers with: a fresh
   * id is appended and holds that record, and every other record stays.
   * When the server answers with the form data under a fresh id, the
   * stored record is the form data.
   */
  lemma CreatedRecordCarriesFormData(routeId: Option<string>, data: EmployeeData, s: State, answer: Employee)
    requires EmployeeState.Valid(s)
    requires answer.id !in s.records.ids
    ensures !IsEditMode(routeId) ==>
      && SubmitEvent(true, IsEditMode(routeId), routeId, data) == Some(CreateEmployee(data))
      && var r := Reduce(s, CreateEmployeeSuccess(answer));
      && r.records.ids == s.records.ids + [answer.id]
      && r.records.entities[answer.id] == answer
      && (forall k :: k in s.records.entities ==> r.records.entities[k] == s.records.entities[k])
      && (answer == WithId(data, answer.id) ==> WithoutId(r.records.entities[answer.id]) == data)
  {
    CreateAppends(s, answer);
  }
}
