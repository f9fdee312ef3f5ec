# Employee store — a Dafny model

This project models the client-side state container of an Angular/NgRx
"Employees" admin screen, together with the pure decision functions of its
details form.

- **Records.** An `Employee` has a string id, name, email, position, a
  three-valued status (`ACTIVE`, `INACTIVE`, `ON_LEAVE`) and a joining date
  kept as a string.
- **Store.** The store keeps the records normalised: an ordered `ids`
  sequence plus an `entities` map keyed by `employee.id`. Next to them sit
  `selectedEmployeeId`, `loading`, `error`, the text `filter` and the
  `statusFilter`.
- **Events.** The `EmployeeActions` group is a datatype with one
  constructor per event. Each event's `type` is `"[Employee] "` followed by
  its name. `Unrecognised` stands for an action of any other group; its
  `type` is none of this group's `type` strings.
- **Reducer.** `Reduce` is a pure, total fold of one event into the state.
  It is built from the five entity-adapter operations the source uses:
  `setAll`, `addOne`, `upsertOne`, `updateOne` and `removeOne`.
- **Selectors.** The views list all records in `ids` order, or only those
  whose status equals the status filter.
- **Details form.** The component's decisions are modelled as functions:
  the CSS class of a status, the error message of a control, the edit-mode
  test, and the event a submission dispatches.

The store invariant is `EntityAdapter.Valid`:
- `ids` are distinct;
- the ids are exactly the keys of `entities`;
- every record is stored under its own id.

Every transition preserves it.

Modules and files:

| file | module | models |
|---|---|---|
| `nullable.dfy` | `Nullable` | `T \| null` as `Option<T>` |
| `collections.dfy` | `Collections` | distinctness, `filter`, subsequence, first-occurrence de-duplication |
| `employee_model.dfy` | `EmployeeModel` | `Employee`, `EmployeeStatus`, `Omit<Employee,'id'>`, `Partial<Employee>`, `Object.assign` merge |
| `entity_adapter.dfy` | `EntityAdapter` | the id/entity collection, the store invariant, the five adapter operations |
| `employee_state.dfy` | `EmployeeState` | `EmployeeState` and `initialState` |
| `action_types.dfy` | `ActionTypes` | event names and `type` strings |
| `employee_actions.dfy` | `EmployeeActions` | the event datatype and its payloads |
| `employee_reducer.dfy` | `EmployeeReducer` | `employeeReducer` and its transitions |
| `employee_selectors.dfy` | `EmployeeSelectors` | `selectAllEmployees`, `selectStatusFilter`, `selectFilteredEmployees` |
| `text.dfy` | `Text` | `toLowerCase`/`toUpperCase` on ASCII, first-occurrence `replace`, number rendering |
| `employee_details.dfy` | `EmployeeDetails` | `getStatusClass`, `getErrorMessage`, edit mode, `ngOnInit` load, `onSubmit` |

The adapter library's code is not part of this model. Its operations have
the following observable meaning, as the NgRx unsorted adapter behaves:
- `addOne` of an id already stored is a no-op;
- `setAll` empties the collection and adds the records in order, so a
  repeated id keeps its first record;
- `upsertOne` updates a stored id and adds a new one;
- `updateOne` merges the changes into the stored record (`Object.assign`)
  and is a no-op for an id not stored;
- `removeOne` deletes the key and keeps the ids that still have a record.

Three behaviours of the code worth noting:
- `Delete Employee Success` does not clear `selectedEmployeeId`
  (`EmployeeReducer.DeleteRemoves` proves that it stays).
- The create, update and delete failures set only `error` and leave
  `loading` alone (`EmployeeReducer.FailureRecordsError`).
- The filtered view applies only the status filter. The text `filter` is
  stored by the reducer but no selector reads it
  (`EmployeeSelectors.FilteredIgnoresOtherFields`).

## Model

| member | source | states |
|---|---|---|
| EmployeeModel.ParseStatusValue | src/app/features/employees/models/employee.model.ts:1-5 | every status value reads back as its status, so the three values are distinct |
| EmployeeModel.WithId | src/app/features/employees/store/employee.actions.ts:18-19 | a creation payload is a record without id; adding the server's id gives a full record with that id and the same data |
| EmployeeModel.ApplyAllChanges | src/app/features/employees/store/employee.reducer.ts:50-52 | merging a complete record as the changes (as the update transition does) overwrites every property |
| EntityAdapter.AddOne | src/app/features/employees/store/employee.state.ts:12-14 | a record is stored under its `id`; a fresh id is appended to the order and nothing else changes; a stored id leaves the collection as it was; the invariant is kept |
| EntityAdapter.SetAll | src/app/features/employees/store/employee.reducer.ts:14-16 | full replace: the result is valid, its order is the input's ids with repeats dropped, every input id is stored, each with its first record |
| EntityAdapter.UpdateOne | src/app/features/employees/store/employee.reducer.ts:50-52 | the record at the employee's id becomes the employee, order and keys unchanged, other records unchanged; no-op if the id is absent |
| EntityAdapter.UpsertOne | src/app/features/employees/store/employee.reducer.ts:29-30 | afterwards the id holds the employee; the id is appended only if it was new; other records unchanged; invariant kept |
| EntityAdapter.RemoveOne | src/app/features/employees/store/employee.reducer.ts:59-61 | the key leaves both the map and the order, every other record and the order of the others stay, the order shrinks by one when the key was stored |
| EntityAdapter.Empty | src/app/features/employees/store/employee.state.ts:16 | the empty collection satisfies the invariant |
| EmployeeState.Initial | src/app/features/employees/store/employee.state.ts:16-22 | the initial state is valid, has no records, no selection, is not loading, has no error, an empty text filter and no status filter |
| EmployeeReducer.Reduce | src/app/features/employees/store/employee.reducer.ts:5-82 | every transition preserves the store invariant |
| EmployeeReducer.ReduceAllValid | src/app/features/employees/store/employee.reducer.ts:5-82 | every state reached from a valid state by any sequence of events is valid |
| EmployeeReducer.IgnoredEvents | src/app/features/employees/store/employee.reducer.spec.ts:16-21 | an unrecognised action, and the create, update and delete requests, return the input state unchanged |
| EmployeeReducer.LoadStarts | src/app/features/employees/store/employee.reducer.ts:9-28 | both load requests set `loading`, clear `error` and change nothing else |
| EmployeeReducer.LoadAllReplaces | src/app/features/employees/store/employee.reducer.ts:14-16 | loading records replaces the collection, in input order when ids are distinct, clears `loading`, keeps selection, error and filters; loading the same records again changes nothing |
| EmployeeReducer.LoadOneStores | src/app/features/employees/store/employee.reducer.ts:29-33 | the loaded record is stored under its id, selected, `loading` cleared, the id appended only if new, other records, error and filters unchanged |
| EmployeeReducer.FailureRecordsError | src/app/features/employees/store/employee.reducer.ts:17-65 | each failure sets `error` to its message and never changes records, selection or filters; the load failures clear `loading`, the others leave it |
| EmployeeReducer.CreateAppends | src/app/features/employees/store/employee.reducer.ts:41-43 | creating a record with a fresh id appends it and stores it; no other field changes |
| EmployeeReducer.CreateDuplicateIgnored | src/app/features/employees/store/employee.reducer.ts:41-43 | creating a record whose id is already stored leaves the state unchanged |
| EmployeeReducer.UpdateOverwrites | src/app/features/employees/store/employee.reducer.ts:50-52 | updating overwrites only the entry at that id and keeps `ids`; an absent id changes nothing |
| EmployeeReducer.DeleteRemoves | src/app/features/employees/store/employee.reducer.ts:59-61 | deleting removes the id from `ids` and `entities`, keeps the others in order, and keeps `selectedEmployeeId` |
| EmployeeReducer.ViewEventsSetOneField | src/app/features/employees/store/employee.reducer.ts:67-81 | the text filter, status filter and selection events each set their one field and nothing else |
| EmployeeReducer.OnlySuccessesTouchRecords | src/app/features/employees/store/employee.reducer.ts:5-82 | only the five success events that carry records or an id change the collection |
| EmployeeReducer.LoadCreateUpdateDelete | src/app/features/employees/store/employee.reducer.spec.ts:143-169 | load one record, create a second, update it, delete it: one id remains, holding the first record unchanged |
| ActionTypes.ParseType | src/app/features/employees/store/employee.actions.ts:4-5 | a recognised `type` string is exactly `"[Employee] "` followed by that event's name |
| ActionTypes.ParseTypeRoundTrip | src/app/features/employees/store/employee.actions.ts:4-38 | each event's `type` string reads back as that event |
| ActionTypes.TypeStringInjective | src/app/features/employees/store/employee.actions.ts:4-38 | two events have the same `type` string exactly when they are the same event |
| EmployeeActions.TypeIdentifiesKind | src/app/features/employees/store/employee.actions.spec.ts:15-110 | dispatching on the `type` string of any action yields its constructor, and no event for an action of another group |
| EmployeeActions.ErrorOf | src/app/features/employees/store/employee.actions.ts:10-30 | exactly the five failure events carry an error message |
| EmployeeSelectors.SelectAll | src/app/features/employees/store/employee.selectors.ts:4-10 | the listing has one record per id, the record stored at that id, in `ids` order |
| EmployeeSelectors.ReachableIsListable | src/app/features/employees/store/employee.selectors.ts:4-10 | every state reachable from the initial state by any events can be listed, and its listing carries exactly the ids of the order |
| EmployeeSelectors.SelectAllIds | src/app/features/employees/store/employee.selectors.ts:4-10 | in a valid store the listed records carry exactly the ids of the order |
| EmployeeSelectors.SelectFilteredEmployees | src/app/features/employees/store/employee.selectors.ts:17-24 | with no status filter the view is the full listing; with one, every record in the view has that status and every listed record with that status is in the view |
| EmployeeSelectors.FilteredIsSubsequence | src/app/features/employees/store/employee.selectors.ts:22 | the filtered view is an order-preserving subsequence of the full listing |
| EmployeeSelectors.WithStatusIdempotent | src/app/features/employees/store/employee.selectors.ts:22 | filtering the filtered view by the same status gives it back |
| EmployeeSelectors.FilteredIgnoresOtherFields | src/app/features/employees/store/employee.selectors.ts:17-24 | the filtered view depends only on the records and the status filter, not on the text filter |
| EmployeeSelectors.SetAllThenSelectAll | src/app/features/employees/store/employee.reducer.ts:14-16 | loading records with distinct ids and listing them gives the loaded list back |
| EmployeeSelectors.AddOneThenSelectAll | src/app/features/employees/store/employee.reducer.ts:41-43 | adding a fresh record appends it to the listing |
| EmployeeSelectors.UpdateOneThenSelectAll | src/app/features/employees/store/employee.reducer.ts:50-52 | updating a stored record replaces it in place in the listing |
| EmployeeSelectors.RemoveOneThenSelectAll | src/app/features/employees/store/employee.reducer.ts:59-61 | deleting drops exactly that record from the listing and keeps the others in order |
| Text.ReplaceFirst | src/app/features/employees/components/employee-details/employee-details.component.ts:111 | a one-character `replace` changes only the first occurrence and keeps the length |
| Text.ParseNatToString | src/app/features/employees/components/employee-details/employee-details.component.ts:104 | the rendered required length is decimal digits without leading zeros and reads back as the number |
| EmployeeDetails.StatusClass | src/app/features/employees/components/employee-details/employee-details.component.ts:110-112 | the class has the status's length, no upper-case letter, `_` at the first space, and the lower-cased status everywhere else |
| EmployeeDetails.StatusClassOfStatuses | src/app/features/employees/components/employee-details/employee-details.component.spec.ts:184-187 | the three status values give `active`, `inactive` and `on_leave` |
| EmployeeDetails.ErrorMessage | src/app/features/employees/components/employee-details/employee-details.component.ts:91-108 | empty for a missing control or one with no recognised error; otherwise `required`, then `email`, then `minlength` decides the message |
| EmployeeDetails.MessageNamesError | src/app/features/employees/components/employee-details/employee-details.component.ts:95-105 | the message text alone tells which error it reports, so the three messages cannot be confused |
| EmployeeDetails.NameRequiredMessage | src/app/features/employees/components/employee-details/employee-details.component.spec.ts:175 | a required name reads "Name is required" |
| EmployeeDetails.NameTooShortMessage | src/app/features/employees/components/employee-details/employee-details.component.spec.ts:181 | a too-short name with the form's length 2 reads "Name must be at least 2 characters" |
| EmployeeDetails.InitLoadsRouteRecord | src/app/features/employees/components/employee-details/employee-details.component.ts:45-50 | outside edit mode nothing is dispatched; in edit mode the load request only sets `loading` and clears `error`, and when the route's record arrives it is stored and selected with `loading` cleared |
| EmployeeDetails.SubmitLeavesState | src/app/features/employees/components/employee-details/employee-details.component.ts:63-84 | an invalid form dispatches nothing; a valid one without a route id creates whatever the edit flag says; whatever is dispatched leaves the store as it was, only the server's answer changes it |
| EmployeeDetails.CreatedRecordCarriesFormData | src/app/features/employees/components/employee-details/employee-details.component.ts:77-81 | outside edit mode a valid submission creates from the form data; the store keeps whatever record the server answers with: a fresh id is appended and holds that record, every other record stays, and when the answer is the form data under that id the stored record is the form data |
| EmployeeDetails.SubmitFollowsEditMode | src/app/features/employees/components/employee-details/employee-details.component.ts:63-84 | with the edit mode derived from the same route, a valid submission updates exactly in edit mode, naming the route id and carrying every form field but no id; otherwise it creates |

## Left out

- Side-effect coordination (`employee.effects.ts`) is not modelled. It
  drops new load requests while one is in flight and queues mutating
  requests: an asynchronous concurrency policy over HTTP. The one
  observable fact is that delete success echoes the requested id, not
  anything in the response. `Event.DeleteEmployeeSuccess(id)` carries only
  that id.
- The HTTP gateway (`employee.service.ts`) is not modelled: it is network I/O.
- The `Date` handling in the component is not modelled: the ISO
  `YYYY-MM-DD` conversion on submit and the `new Date(...)` parse on init.
  Both are JavaScript date and timezone behaviour. `joiningDate` passes
  through as a string.
- Form validators (`Validators.required`, `email`, `minLength`) are library
  code. A control's errors are an input (`ControlErrors`).
- Whether the form is valid is also an input.
- Navigation after submit or cancel, the form patching subscription in
  `ngOnInit`, rendering, and module and routing wiring are not modelled:
  they are UI plumbing.
- The list component is not modelled: it is UI.
- `src/app/models/employee.model.ts` is not modelled: it is an unused
  duplicate with a numeric id.
- `selectSelectedEmployee` is not modelled. The details component imports
  it, but `employee.selectors.ts` does not define it.
- Selector memoisation is not modelled. Only the values the selectors
  return are.
- EntityAdapter.UpdateOne: does not model re-keying when the changes carry
  a different id. The reducer always passes the record under its own id,
  so this cannot arise.
- EmployeeModel.Apply: a property present with value `undefined` is not
  distinguished from an absent one.
- EmployeeSelectors.SelectAll: requires every id in the order to have a
  record. The source would list `undefined` for a dangling id, which no
  valid store has.
- EmployeeDetails.StatusClass: maps case for ASCII letters only.
  JavaScript's `toLowerCase` also maps other Unicode letters. The status
  values are ASCII.
- EmployeeDetails.ErrorMessage: capitalises with an ASCII-only
  `toUpperCase`, and takes the required length as a natural number.
- EntityAdapter.AddOne: an id is taken as stored only when it is a key the
  collection holds. The adapter tests `id in entities` on a plain object,
  which also sees inherited names such as `constructor` or `toString`; a
  record with such an id would be dropped there and is added here.
- EntityAdapter.SetAll: repeated ids keep their first record; the same
  inherited-name test as `EntityAdapter.AddOne` is not modelled.
- EntityAdapter.UpsertOne: chooses update or add by the stored ids only,
  not by inherited object names.
- EntityAdapter.UpdateOne: treats an id that is only an inherited object
  name as absent.
- EntityAdapter.RemoveOne: treats an id that is only an inherited object
  name as absent.
