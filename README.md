# Telemedicine hospital app: a verified model of its core rules

This project models, in Dafny, the rules at the centre of a Laravel and React
hospital application. Staff use it to manage departments and the weekdays a
department sees patients, to schedule visits and register patients, and to
administer users, roles and permissions.

The server side is modelled over in-memory tables: sequences of records whose
ids are handed out in increasing order. It covers:

- the department, visit, patient, user, role and permission controllers;
- the Patient and Visit models, the `patient_visit` pivot migration, the three backed enums and the permission seeder.

The client side covers:

- the date picker's disabled-day rule, and the `year/MM/DD` date text the forms store;
- the visit edit page, the new-patient form and its validator;
- the department day checkboxes, the role page's permission switches, which change once the request ends, and the pagination link classifier.

Modelling conventions:

- A date is an integer day number counted from 1970-01-01, which was a Thursday. Its weekday is `(d + 4) % 7`, with 0 meaning Sunday.
- "Today" is a parameter.
- A database transaction is all-or-nothing. Whether it throws is a `fails` parameter.
- A missing route-model binding is a 404 outcome value.
- SQL `LIKE '%t%'` is a case-sensitive substring test.
- A search or filter term that is an array cannot be interpolated into `'%t%'`: PHP 8 raises "Array to string conversion", which Laravel rethrows, so the action answers 500. A `when` filter builds the term only when it is truthy, so an empty array there filters nothing.
- Pagination is ten rows per page.
- Classes whose fields the source updates in place are Dafny classes. Their methods name the fields they change (`modifies this`field`), so every other field is unchanged.

Under the controllers, one shared property is proved equal on both sides. The
"allowed weekday indices" computed from a department's day labels are strictly
increasing, lie in 0..6, and contain index i exactly when the i-th label of
`Sun..Sat` is stored. Three places compute them:

- the server's `getDepartment` (DepartmentController.php);
- the server's visit `create` (VisitController.php);
- the client's `getVisitDays` (Visits/Edit.tsx).

All three are proved to give the same list. That list is then related to the
date picker's disabled days.

## Model

| member | source | states |
|---|---|---|
| VisitStatusEnum.Keys | app/Enums/VisitStatusEnum.php:7-33 | `keys()` gives the backed values OPEN, CLOSED, CANCELLED, COMPLETED in declaration order, all distinct |
| VisitStatusEnum.Values | app/Enums/VisitStatusEnum.php:20-23 | `array_column(cases(), 'name', 'value')` evaluates to OPEN => Open, CLOSED => Closed, CANCELLED => Cancelled, COMPLETED => Completed |
| VisitStatusEnum.ValuesByCase | app/Enums/VisitStatusEnum.php:20-23 | `values()` has exactly the backed values as keys, and maps each case's backed value to that case's name |
| VisitStatusEnum.TryFrom | app/Enums/VisitStatusEnum.php:5-10 | a string names a case exactly when it is one of the backed values, compared case-sensitively |
| PatientVisitEnum.Keys | app/Enums/PatientVisitEnum.php:7-33 | `keys()` gives pending, confirm, cancel, attended in order, all distinct |
| PatientVisitEnum.Values | app/Enums/PatientVisitEnum.php:20-23 | `array_column(cases(), 'name', 'value')` evaluates to the map from each backed value to its upper-case case name |
| PatientVisitEnum.ValuesByCase | app/Enums/PatientVisitEnum.php:20-23 | `values()` has exactly the backed values as keys, and maps each case's backed value to that case's name |
| PatientVisitEnum.CaseNamed | app/Enums/PatientVisitEnum.php:7-10 | a case constant resolves only by its exact declared name (PENDING, CONFIRM, CANCEL, ATTENDED) |
| PatientGenderEnum.Name | app/Enums/PatientGenderEnum.php:7-9 | every case is named exactly as its backed value |
| PatientGenderEnum.Keys | app/Enums/PatientGenderEnum.php:7-30 | `keys()` gives MALE, FEMALE, OTHER in order, all distinct |
| PatientGenderEnum.Values | app/Enums/PatientGenderEnum.php:17-20 | `values()` maps each backed value to itself and has no other key |
| PatientGenderEnum.TryFrom | app/Enums/PatientGenderEnum.php:5-9 | backing a gender succeeds exactly for the three upper-case values |
| DepartmentController.RequestErrors | app/Http/Controllers/DepartmentController.php:53-114 | a request passes exactly when name is a non-blank string, max_patients is an integer in PHP's 64-bit range (given as a number, or as decimal text that may carry white space around it), and days is a non-empty array; the labels are not checked |
| DepartmentController.DaysOf | app/Http/Controllers/DepartmentController.php:167-169 | the plucked labels are exactly those of the department's rows |
| DepartmentController.DayRows | app/Http/Controllers/DepartmentController.php:68-74 | the loop writes one row per submitted label, in order, with consecutive ids |
| DepartmentController.DaysOfDayRows | app/Http/Controllers/DepartmentController.php:68-169 | reading back the written rows gives exactly the submitted list, duplicates and unknown labels included |
| DepartmentController.DaysOfForeign | app/Http/Controllers/DepartmentController.php:126-133 | rows of other departments give a department no label |
| DepartmentController.RowsNotOf | app/Http/Controllers/DepartmentController.php:126 | deleting a department's rows keeps exactly the other departments' rows and their labels |
| DepartmentController.NameMatches | app/Http/Controllers/DepartmentController.php:23-25 | throws exactly for a non-empty array name; otherwise a truthy name keeps exactly the departments whose name contains it, and no name keeps all |
| DepartmentController.Index | app/Http/Controllers/DepartmentController.php:19-34 | 500 exactly for a non-empty array name; otherwise exactly the requested page of the name-filtered departments, in table order, each with its own day labels; without a filter, that page of all departments; the first page is non-empty when any department matches |
| DepartmentController.GetDepartment | app/Http/Controllers/DepartmentController.php:165-178 | 404 without the department; otherwise strictly increasing indices in 0..6, where index i is present exactly when the week's i-th label is among the department's labels |
| DepartmentController.Remaining | app/Http/Controllers/DepartmentController.php:153 | deleting keeps exactly the other departments |
| DepartmentController.DepartmentTable.InsertDays | app/Http/Controllers/DepartmentController.php:68-133 | the loop appends the rows of DayRows and advances the next id by the number of labels |
| DepartmentController.StoreOutcome | app/Http/Controllers/DepartmentController.php:51-88 | the failing fields exactly when validation fails; the failure flash exactly when it passes and the transaction throws; the creation flash otherwise, never a 404 |
| DepartmentController.DepartmentTable.Store | app/Http/Controllers/DepartmentController.php:51-88 | answers as `StoreOutcome`; any other answer than the creation flash writes nothing; with it, one department with the next id and exactly one row per submitted label, in order |
| DepartmentController.UpdateOutcome | app/Http/Controllers/DepartmentController.php:108-146 | 404 exactly when no department has the id; then the failing fields, the failure flash, or the update flash, each exactly in its case |
| DepartmentController.DepartmentTable.Update | app/Http/Controllers/DepartmentController.php:108-146 | answers as `UpdateOutcome`; any other answer than the update flash writes nothing; with it, only that department's name and max_patients change and its labels become exactly the submitted list, with other departments' rows unchanged |
| DepartmentController.DepartmentTable.Destroy | app/Http/Controllers/DepartmentController.php:151-162 | 404 without the department; otherwise it is removed, its rows are left in place, and the page is clamped to the last remaining page |
| Weekdays.Weekday | resources/js/Components/DatePicker.tsx:47 | a day's weekday is in 0..6, 0 for Sunday |
| Weekdays.AllowedIndices | app/Http/Controllers/DepartmentController.php:170-175 | `array_keys(array_intersect(week, days))`: strictly increasing indices in 0..6, index i present exactly when the week's i-th label occurs among the labels |
| Weekdays.AllowedIndicesOfSameLabels | app/Http/Controllers/VisitController.php:21-45 | only which labels occur matters, so order, duplicates and grouping do not change the indices |
| DepartmentController.DepartmentTable.constructor | app/Http/Controllers/DepartmentController.php:14 | empty departments and visit-day tables |
| VisitController.RequestErrors | app/Http/Controllers/VisitController.php:74-141 | a request passes exactly when department_id, hospital_name and slot_number are present and date is a date; `date` is reported exactly when it is not one |
| VisitController.NewVisit | app/Http/Controllers/VisitController.php:84-91 | a created visit holds the four request values and the column's default status, not OPEN |
| VisitController.Assign | app/Http/Controllers/VisitController.php:145-152 | an update replaces the four data columns and keeps the id and the status |
| VisitController.AssignIdempotent | app/Http/Controllers/VisitController.php:145-152 | updating twice with the same request is updating once |
| VisitController.AssignOverwrites | app/Http/Controllers/VisitController.php:145-152 | of two updates, only the last one's values remain |
| VisitController.DepartmentNames | app/Http/Controllers/VisitController.php:45 | `pluck('name', 'id')` has exactly the departments' ids as keys, each mapped to its department's name |
| VisitController.GroupedDays | app/Http/Controllers/VisitController.php:46-49 | the grouped labels are the stored labels, each once |
| VisitController.Create | app/Http/Controllers/VisitController.php:43-66 | the form gets the department names and strictly increasing indices in 0..6, where index i appears exactly when some department stores the week's i-th label |
| VisitController.AllDays | app/Http/Controllers/VisitController.php:46-49 | without the grouping, every stored label appears, in table order |
| VisitController.CreateIgnoresGrouping | app/Http/Controllers/VisitController.php:46-56 | grouping the labels before the intersection does not change the indices |
| VisitController.VisitTable.Index | app/Http/Controllers/VisitController.php:23-38 | exactly the requested page of all visits: the visits from offset (page - 1) * 10 on, in table order, at most ten, non-empty for an existing page of a non-empty table |
| VisitController.StoreOutcome | app/Http/Controllers/VisitController.php:72-105 | `store` answers with the failed fields exactly when validation fails, with the failure flash exactly when a valid request's transaction fails, and otherwise redirects to the new visit's edit page with the created flash; it never answers 404 |
| VisitController.VisitTable.Store | app/Http/Controllers/VisitController.php:72-105 | answers as StoreOutcome for the table's next id; anything but the redirect writes nothing; the redirect appends exactly one visit, with the next id, the request's values and the default status |
| VisitController.UpdateOutcome | app/Http/Controllers/VisitController.php:133-165 | `update` answers 404 exactly when the visit is missing, then the failed fields, the failure flash or the redirect with the updated flash, each exactly in its own case |
| VisitController.VisitTable.Update | app/Http/Controllers/VisitController.php:133-165 | answers as UpdateOutcome for whether the binding finds the visit; anything but the redirect writes nothing; the redirect replaces only that visit's four data columns; no id or status changes |
| VisitController.VisitTable.Show | app/Http/Controllers/VisitController.php:110-113 | `show` changes nothing and reports only whether the binding found the visit |
| VisitController.VisitTable.Destroy | app/Http/Controllers/VisitController.php:170-173 | `destroy` removes nothing and reports only whether the binding found the visit |
| VisitModel.AssignedKeys | app/Models/Visit.php:14-16 | mass assignment keeps exactly the four fillable keys, so the `status` the controller passes is dropped |
| VisitModel.SelectByIdDesc | app/Http/Controllers/AppointmentController.php:21-23 | a filtered listing holds exactly the matching visits, as many times as stored, ordered by id descending |
| VisitModel.SelectByIdDescStrict | app/Http/Controllers/AppointmentController.php:21 | over distinct ids the order is strictly descending |
| VisitModel.SelectByIdDescIgnoresStatus | app/Http/Controllers/DashboardController.php:21-24 | a selection whose filter ignores the status picks, from two tables differing only in statuses, visits that agree position by position but for their statuses |
| VisitModel.DepartmentOf | app/Http/Controllers/DashboardController.php:21 | the department a visit's department_id names, or none |
| VisitModel.PatientWithId | app/Http/Controllers/DashboardController.php:21 | the patient with that id, or none |
| VisitModel.VisitIdsOf | app/Http/Controllers/DashboardController.php:21 | a patient's visit ids are exactly the visits of their pivot rows |
| VisitModel.PatientsOf | app/Http/Controllers/DashboardController.php:21 | at most one loaded patient per pivot row |
| VisitModel.PatientsOfSound | app/Http/Controllers/DashboardController.php:21 | every loaded patient exists, carries its own visit ids, and is linked to the visit by a pivot row |
| VisitModel.PatientsOfComplete | app/Http/Controllers/DashboardController.php:21 | every pivot row of the visit whose patient exists yields a loaded patient |
| VisitModel.Load | app/Http/Controllers/ConfirmAppointmentController.php:45 | loading succeeds exactly when both requested relation paths resolve, and then gives the visit, its department and its patients |
| VisitModel.LoadAll | app/Http/Controllers/DashboardController.php:21-24 | eager loading succeeds exactly when nothing is selected or both paths resolve, and then loads every visit in order |
| VisitModel.LoadSelected | app/Http/Controllers/DashboardController.php:21-24 | with both relations declared, every selected visit is loaded, in order, with the department its department_id names and the patients its pivot rows link |
| AppointmentController.Index | app/Http/Controllers/AppointmentController.php:18-33 | exactly the OPEN visits, past ones included, ordered by id descending |
| AppointmentController.IndexStrictlyDescending | app/Http/Controllers/AppointmentController.php:21 | over distinct ids the listing is strictly descending |
| AppointmentController.AddPatients | app/Http/Controllers/AppointmentController.php:42-54 | the bound visit, unchanged, or 404 without one |
| ConfirmAppointmentController.Selected | app/Http/Controllers/ConfirmAppointmentController.php:21-25 | exactly the OPEN visits dated after today, today excluded, ordered by id descending |
| ConfirmAppointmentController.SelectedStrictlyDescending | app/Http/Controllers/ConfirmAppointmentController.php:24 | over distinct ids the order is strictly descending |
| ConfirmAppointmentController.Index | app/Http/Controllers/ConfirmAppointmentController.php:18-34 | with the relations in place, one loaded entry per selected visit, in order, each an OPEN visit of the table dated after today with its department and patients |
| ConfirmAppointmentController.PatientList | app/Http/Controllers/ConfirmAppointmentController.php:42-55 | 404 without the visit; otherwise the visit with its own department (`belongsTo`) and every linked patient loaded, and no other |
| DashboardController.Selected | app/Http/Controllers/DashboardController.php:21-24 | exactly the visits dated today, whatever their status, ordered by id descending |
| DashboardController.SelectedStrictlyDescending | app/Http/Controllers/DashboardController.php:22 | over distinct ids the order is strictly descending |
| DashboardController.SelectedIgnoresStatus | app/Http/Controllers/DashboardController.php:21-24 | two tables that differ only in their visits' statuses list the same number of visits, with the same ids in the same order, each differing at most in its status |
| DashboardController.Index | app/Http/Controllers/DashboardController.php:19-33 | with the relations in place, one loaded entry per selected visit, in order, each a visit of the table dated today with its department and patients |
| VisitModel.RelationsAsWritten | app/Models/Visit.php:7-19 | the model declares no relation, so `department` and `patients.visit` do not resolve |
| VisitModel.Relations | app/Http/Controllers/ConfirmAppointmentController.php:22-45 | with `department` and `patients` declared, both requested paths resolve |
| ConfirmAppointmentController.IndexAsWrittenThrows | app/Http/Controllers/ConfirmAppointmentController.php:21-25 | as written, eager loading throws whenever some open visit lies ahead |
| ConfirmAppointmentController.PatientListAsWrittenThrows | app/Http/Controllers/ConfirmAppointmentController.php:45 | as written, loading the visit's relations always throws |
| DashboardController.IndexAsWrittenThrows | app/Http/Controllers/DashboardController.php:21-24 | as written, eager loading throws whenever some visit is dated today |
| VisitController.VisitTable.constructor | app/Http/Controllers/VisitController.php:84-91 | an empty table whose next id is 1, with the status column's default |
| PatientController.GetPatients | app/Http/Controllers/PatientController.php:16-42 | 500 exactly for an array search term (PHP 8 cannot interpolate it); otherwise 200 with exactly the stored patients whose hospital id, name or phone contains the term; the flag and the message say whether any matched |
| PatientController.EmptySearch | app/Http/Controllers/PatientController.php:19-33 | for a term that is not an array, the answer is 200, with 'No Patient Found' exactly when no stored patient matches the term |
| PatientController.HospitalIds | app/Http/Controllers/PatientController.php:47 | the column the `unique:patients,hospital_id` rule reads: one stored value per patient, in order |
| PatientController.Phones | app/Http/Controllers/PatientController.php:49 | the column the `unique:patients,phone` rule reads: one stored value per patient, in order |
| PatientController.StoreErrors | app/Http/Controllers/PatientController.php:46-52 | each of hospital_id, name, phone and district is rejected exactly when one of its own rules fails, and no other field is |
| Common.FieldErrors | app/Http/Controllers/PatientController.php:46-52 | the validator names a field exactly when that field failed one of its rules, and names no other field |
| PatientController.UniqueKeysAppend | app/Http/Controllers/PatientController.php:47-49 | adding a patient whose hospital id and phone passed the unique rules keeps both columns free of duplicates |
| PatientController.PatientTable.constructor | app/Http/Controllers/PatientController.php:44 | an empty table whose next id is 1 |
| PatientController.StoreResult | app/Http/Controllers/PatientController.php:44-85 | 422 exactly when validation fails, with the failing fields; 409 exactly when it passes and the transaction throws; a 201 patient is what `create` builds from the request: the next id, all ten request fields (gender through its cast), and unused hospital id and phone |
| PatientController.PatientTable.Store | app/Http/Controllers/PatientController.php:44-85 | answers as `StoreResult`; only a 201 writes, appending exactly the created patient, with all ten request fields, and advancing the id; unique keys stay unique |
| PatientModel.Fillable | app/Models/Patient.php:19-30 | ten distinct mass-assignable attributes |
| PatientModel.Fill | app/Models/Patient.php:19-30 | every fillable attribute is taken from the request under its own name, NULL when absent |
| PatientModel.FillIgnoresUnfillable | app/Models/Patient.php:19-30 | setting a key that is not fillable does not change what is assigned |
| PatientModel.CastGender | app/Models/Patient.php:39-44 | NULL stays NULL; another value is accepted exactly when its text is one of MALE, FEMALE, OTHER, and then becomes that case |
| PatientModel.Create | app/Models/Patient.php:10-45 | creation fails when the gender cast throws, and otherwise succeeds; the patient holds the id and every assigned attribute (the `dob` cast is not modelled) |
| PatientModel.StoredGender | app/Models/Patient.php:42 | a stored gender is NULL or one of the three backed values |
| PatientModel.VisitPivotColumns | app/Models/Patient.php:47-50 | the relation reads seven pivot columns: exactly the pivot table's columns after its id and its two keys, in declaration order |
| PatientVisitMigration.StatusDefault | database/migrations/2025_02_14_110758_create_patient_visits_table.php:23 | the intended default is 'pending', a member of the enum domain |
| PatientVisitMigration.StatusDefaultAsWritten | database/migrations/2025_02_14_110758_create_patient_visits_table.php:23 | `PatientVisitEnum::Pending` names no case, so no default can be evaluated |
| PatientVisitMigration.TableShape | database/migrations/2025_02_14_110758_create_patient_visits_table.php:16-26 | ten columns; exactly date, description, advice_transcription, created_by and the timestamps are nullable; only status is an enum, over the four values, with a default in that domain |
| PatientVisitMigration.UpAsWritten | database/migrations/2025_02_14_110758_create_patient_visits_table.php:14-27 | as written, `up` throws before creating anything |
| PatientVisitMigration.Up | database/migrations/2025_02_14_110758_create_patient_visits_table.php:14-27 | `up` adds `patient_visit` and keeps every other table |
| PatientVisitMigration.RollbackAsWrittenKeepsTable | database/migrations/2025_02_14_110758_create_patient_visits_table.php:32-35 | as written, `down` after `up` leaves `patient_visit` in place |
| PatientVisitMigration.RollbackRestores | database/migrations/2025_02_14_110758_create_patient_visits_table.php:14-35 | dropping the table `up` creates restores the schema |
| PatientVisitMigration.DownAsWritten | database/migrations/2025_02_14_110758_create_patient_visits_table.php:32-35 | `down` as written removes `patient_visits` and keeps every other table |
| PatientVisitMigration.Down | database/migrations/2025_02_14_110758_create_patient_visits_table.php:32-35 | the corrected `down` removes `patient_visit` and keeps every other table |
| PatientVisitMigration.Insert | database/migrations/2025_02_14_110758_create_patient_visits_table.php:17-25 | an insert succeeds exactly when its status is absent or in the enum domain; it appends one row for the pair, with 'pending' when no status was given |
| PatientVisitMigration.LinksOf | database/migrations/2025_02_14_110758_create_patient_visits_table.php:18-19 | exactly the rows linking that patient to that visit |
| PatientVisitMigration.SeveralRowsPerPair | database/migrations/2025_02_14_110758_create_patient_visits_table.php:16-26 | no unique index: the same patient and visit can be linked by two distinct rows |
| PermissionController.Index | app/Http/Controllers/PermissionController.php:26-39 | 500 exactly for a non-empty array `name`; otherwise exactly the requested page of the groups whose name contains a truthy filter, in table order (of all groups without one); at most ten rows; the first page is non-empty when any group matches |
| PermissionController.Edit | app/Http/Controllers/PermissionController.php:51-67 | 404 exactly when no group has the bound id; else 500 exactly for a non-empty array `name`; otherwise that group and exactly the requested page of the roles whose names contain the filter (of all roles without one), and a non-empty first page when any role matches |
| PermissionController.UpdateErrors | app/Http/Controllers/PermissionController.php:72-75 | `name` passes exactly when it is a non-blank string of at most 255 characters, `description` exactly when it is null or a string |
| PermissionController.ValidatedDescription | app/Http/Controllers/PermissionController.php:81 | the stored description is the sent string, or NULL when none was sent |
| PermissionController.Update | app/Http/Controllers/PermissionController.php:70-94 | 404 without the group; a validation failure or a failed transaction changes nothing; otherwise only that group's name and description change, and both outcomes redirect to the group's edit page with their flash |
| PermissionController.Give | app/Http/Controllers/PermissionController.php:121 | after giving, the role holds every given permission and no other link changes |
| PermissionController.Revoke | app/Http/Controllers/PermissionController.php:129 | after revoking, the role holds none of the revoked permissions and no other link changes |
| PermissionController.GiveIdempotent | app/Http/Controllers/PermissionController.php:120-121 | giving the same permissions twice is giving them once |
| PermissionController.RevokeIdempotent | app/Http/Controllers/PermissionController.php:128-129 | revoking the same permissions twice is revoking them once |
| PermissionController.RevokeUndoesGive | app/Http/Controllers/PermissionController.php:119-136 | giving and then revoking permissions the role lacked restores the links |
| PermissionController.GiveUndoesRevoke | app/Http/Controllers/PermissionController.php:119-136 | revoking and then giving back permissions the role had restores the links |
| PermissionController.AddRole | app/Http/Controllers/PermissionController.php:96-150 | answers as `AddRoleAnswer`; only the two 200 answers write, giving or revoking exactly the found permissions (one, or every row of an array `permission`) for the found role, and nothing else changes |
| PermissionController.AddRoleAnswer | app/Http/Controllers/PermissionController.php:96-150 | 404 for a missing group, then for a permission value naming no row, then for a role value naming no row; 400 when the package fails or the role value is an array (a collection has no `givePermissionTo`); otherwise 200, added exactly when `checked` is truthy |
| PermissionController.PermissionIds | app/Http/Controllers/PermissionController.php:99 | the ids of the permissions `find` answered: none, the one row's, or every row's of a collection |
| RoleController.Index | app/Http/Controllers/RoleController.php:22-40 | 500 exactly for a non-empty array `name`; otherwise exactly the requested page of the roles whose name contains a truthy filter, in table order (of all roles without one); the first page is non-empty when any role matches |
| RoleController.Edit | app/Http/Controllers/RoleController.php:51-66 | 404 exactly when no role has the bound id; else 500 exactly for a non-empty array `name`; otherwise that role and exactly the requested page of the matching permission groups (of all groups without a filter), and a non-empty first page when any group matches |
| RoleController.UpdateErrors | app/Http/Controllers/RoleController.php:71-74 | the request passes exactly when `name` is a non-blank string of at most 255 characters |
| RoleController.Update | app/Http/Controllers/RoleController.php:68-89 | 404 without the role; a validation failure or a failed transaction changes nothing; otherwise only that role's name and unvalidated description change |
| UserController.Index | app/Http/Controllers/UserController.php:35-56 | 500 exactly when either filter is a non-empty array; otherwise exactly the requested page of the users both truthy filters keep, sorted newest first: at most ten, each stored and matching, ids descending; without filters, that page of all users |
| UserController.IndexFirstPageNewest | app/Http/Controllers/UserController.php:39-47 | with filters that do not throw and some matching user, page 1 renders, is non-empty and opens with a user whose id is at least that match's |
| UserController.IndexStrictlyDescending | app/Http/Controllers/UserController.php:46 | over distinct ids, a rendered listing is strictly newest first |
| UserController.StoreErrors | app/Http/Controllers/UserController.php:101-106 | name is a non-blank string; email is present, an address, and held by no user; role is present; the password has at least eight characters and matches its confirmation |
| UserController.UpdateErrors | app/Http/Controllers/UserController.php:175-180 | as for store, except that the user's own address does not count as taken and no password is read |
| UserController.OwnEmailAccepted | app/Http/Controllers/UserController.php:177 | with unique addresses, a user keeping their own address passes the uniqueness rule |
| UserController.RoleLink | app/Http/Controllers/UserController.php:116-117 | attaching what `find` answered links the user to exactly the found roles: none, the one role, or every role of a collection |
| UserController.WithoutUser | app/Http/Controllers/UserController.php:191-244 | removing a user's links keeps exactly the links of the other users |
| UserController.UniqueEmailsAppend | app/Http/Controllers/UserController.php:103-114 | adding a user whose address nobody holds keeps addresses unique |
| UserController.StoreOutcome | app/Http/Controllers/UserController.php:99-129 | back with the errors when validation fails; back with the failure flash when the transaction throws; a redirect to the index with the success flash exactly when neither happens, and then the name and email were sent and the email is unused |
| UserController.Store | app/Http/Controllers/UserController.php:99-129 | answers as `StoreOutcome`; any other answer writes nothing; a redirect appends exactly one user with the next id, the sent name and email and the given hash, linked to exactly the roles `find` answered for the `role` value; addresses stay unique |
| UserController.AddUser | app/Http/Controllers/UserController.php:109-119 | the transaction body appends the user with the next id and its links to the found roles and nothing else |
| UserController.UpdateOutcome | app/Http/Controllers/UserController.php:173-205 | 404 exactly when no user has the id; back with the errors when validation fails; back with the failure flash when the transaction throws or some synced value (the `role` value, or each item of an array) names no role; a redirect to the edit page exactly when none of these happens |
| UserController.Update | app/Http/Controllers/UserController.php:173-205 | answers as `UpdateOutcome`; any other answer changes nothing; a redirect changes only that user's name and email and makes their roles exactly the ids the synced values name; addresses stay unique |
| UserController.Rewrite | app/Http/Controllers/UserController.php:184-194 | the transaction body replaces one user's name and email and syncs their roles to the given ids |
| UserController.SyncedRoleIds | app/Http/Controllers/UserController.php:191 | when every synced value names a role, the synced ids are exactly the ids those values name, each a stored role's |
| UserController.SyncedValues | app/Http/Controllers/UserController.php:191 | `sync` takes each item of an array value as one id, and any other value as a single id |
| UserController.SyncResolves | app/Http/Controllers/UserController.php:191 | for a single value, the sync resolves exactly when `find` finds its role; an empty array always resolves |
| UserController.UpdatePassword | app/Http/Controllers/UserController.php:207-227 | 404 without the user; a rejected password or a failed transaction changes nothing; otherwise only that user's hash changes |
| UserController.Destroy | app/Http/Controllers/UserController.php:241-254 | 404 without the user; otherwise the user and their links go, and the redirect page is the requested one clamped to the last page of the remaining users |
| Common.RedirectPage | app/Http/Controllers/UserController.php:245-247 | a page that still exists is kept, a later one becomes the last page, and no page stays no page |
| Common.FilteredPage | app/Http/Controllers/PermissionController.php:29-32 | `when(...)->paginate(10)`: throws exactly for a non-empty array term; otherwise exactly the requested page of the rows whose column contains a truthy term, in table order, and of all rows without one; non-empty on page 1 when any row matches |
| Common.SortByKeyDesc | app/Http/Controllers/UserController.php:46 | `orderBy(..., 'desc')` gives a permutation of the rows with keys never increasing |
| Common.LastPage | app/Http/Controllers/UserController.php:245-247 | the last page is at least 1 and just large enough to hold the rows |
| Common.CurrentPage | app/Http/Controllers/UserController.php:47 | the paginator serves the `page` value when it is a valid integer (64-bit, surrounding white space allowed) of at least 1, and page 1 otherwise |
| Common.CurrentPageOfText | app/Http/Controllers/UserController.php:47 | a page number written with spaces, tabs or line breaks around it is served; one above PHP's largest integer falls back to page 1 |
| Common.IntegerAroundSpaces | app/Http/Controllers/DepartmentController.php:55 | decimal text with white space around it passes the `integer` rule exactly when its value is in the 64-bit range, and then reads as that value |
| Common.IntegerRangeBounded | app/Http/Controllers/DepartmentController.php:55 | an integer outside the 64-bit range fails the `integer` rule, whether sent as a number or as its decimal text |
| Common.IntegerOf | app/Http/Controllers/DepartmentController.php:55 | the value an `integer` request value stands for lies in the 64-bit range |
| Common.IntegerIsRequired | app/Http/Controllers/DepartmentController.php:55 | a value that passes the `integer` rule also passes `required` |
| Common.PageOf | app/Http/Controllers/UserController.php:47 | a page holds the ten rows of its slice, and is non-empty when it is at most the last page of a non-empty table |
| Common.Where | app/Http/Controllers/AppointmentController.php:21-23 | a `where` keeps exactly the rows satisfying the condition, in table order |
| Common.FindById | app/Http/Controllers/UserController.php:116 | for a single key, `find` gives a row whose id the value denotes, or none when no row has such an id |
| Common.Find | app/Http/Controllers/PermissionController.php:98-110 | `find` answers a collection exactly for an array value, holding exactly the rows some item of the array names; otherwise one row or none, as for a single key |
| Common.PositionOf | app/Http/Controllers/VisitController.php:110-133 | the position of the row with that id, or none |
| Common.AsciiUpper | resources/js/Components/CreateNewPatient.tsx:74-304 | `toUpperCase` on ASCII: each lower-case letter becomes its capital and every other character is kept |
| Common.NatToString | resources/js/Pages/Visits/Edit.tsx:119-127 | a number's decimal text: non-empty digits, no leading zero except for 0, one digit exactly below 10 |
| Common.WhenLike | app/Http/Controllers/RoleController.php:25-27 | throws exactly for a non-empty array term; with another truthy term, exactly the rows whose column contains it; with none, every row |
| Common.WhenLikePairwise | app/Http/Controllers/UserController.php:39-46 | a `when` filter that does not throw keeps the rows' relative order |
| Common.WhenLikeIsWhere | app/Http/Controllers/UserController.php:39-46 | a `when` filter that does not throw keeps exactly the rows its test accepts, in table order |
| Common.WhereThenWhere | app/Http/Controllers/UserController.php:39-46 | two chained `where` filters keep exactly the rows that pass both, in table order |
| Common.Column | app/Enums/PatientVisitEnum.php:30-33 | `array_column` gives one entry per case, in order |
| PermissionSeeder.ReplaceSpaces | database/seeders/CreatePermissionSeeder.php:34-41 | every space becomes '_' and every other character is kept |
| PermissionSeeder.Slug | database/seeders/CreatePermissionSeeder.php:34-41 | the slug has the label's length and no dot when the label has none |
| PermissionSeeder.DotIndex | resources/js/Pages/Roles/Edit.tsx:331 | the position of the first '.', or none when there is no dot |
| PermissionSeeder.SecondSegment | resources/js/Pages/Roles/Edit.tsx:331 | `split('.')[1]` is undefined exactly when the name has no dot |
| PermissionSeeder.FirstSegment | resources/js/Pages/Roles/Edit.tsx:331 | `split('.')[0]` holds no dot |
| PermissionSeeder.NameSegments | database/seeders/CreatePermissionSeeder.php:34-41 | splitting `<slug>.<suffix>` at its dots gives back the slug and the suffix |
| PermissionSeeder.DisplayedLabel | database/seeders/CreatePermissionSeeder.php:34-41 | the second segment of a seeded name is its suffix |
| PermissionSeeder.Completed | database/seeders/CreatePermissionSeeder.php:25-47 | the labels seeded are all of them, or those before the one whose transaction throws |
| PermissionSeeder.SeededGroups | database/seeders/CreatePermissionSeeder.php:27-32 | one group per seeded label, with consecutive ids, the label as name, guard `web` and no description |
| PermissionSeeder.SeededPermissions | database/seeders/CreatePermissionSeeder.php:33-44 | two permissions per seeded label |
| PermissionSeeder.SeededPermissionAt | database/seeders/CreatePermissionSeeder.php:33-44 | the k-th permission has the k-th next id, belongs to group k/2 and is its read permission for even k, its write permission for odd k |
| PermissionSeeder.TwoPermissionsPerGroup | database/seeders/CreatePermissionSeeder.php:32-44 | each seeded group owns exactly two seeded permissions, `<slug>.read` then `<slug>.write` |
| PermissionSeeder.LabelsHaveDistinctSlugs | database/seeders/CreatePermissionSeeder.php:18-23 | the four labels give four different slugs |
| PermissionSeeder.NamesDistinct | database/seeders/CreatePermissionSeeder.php:34-41 | over labels with distinct slugs, different labels or different suffixes give different names |
| PermissionSeeder.SeededNamesDistinct | database/seeders/CreatePermissionSeeder.php:25-47 | over labels with distinct slugs, all seeded permission names are pairwise distinct |
| PermissionSeeder.RunNamesDistinct | database/seeders/CreatePermissionSeeder.php:16-48 | the eight permissions `run` seeds have pairwise distinct names |
| PermissionSeeder.SeedAll | database/seeders/CreatePermissionSeeder.php:25-47 | the tables gain exactly the groups and permissions of the labels before the failing one, in order, with the next ids |
| PermissionSeeder.SeedLabel | database/seeders/CreatePermissionSeeder.php:26-46 | one group, then its read and write permissions, appended with the next ids |
| PermissionSeeder.Run | database/seeders/CreatePermissionSeeder.php:16-48 | `run` seeds the four labels in order, up to the first failing transaction |
| DatePicker.MakeProps | resources/js/Components/DatePicker.tsx:24-32 | `allowPastDates` defaults to false; every other prop is passed as given |
| DatePicker.IsDateDisabled | resources/js/Components/DatePicker.tsx:42-70 | with a non-empty allow list, a day is disabled exactly when its weekday is not listed; otherwise it is disabled exactly when its weekday is listed as disabled, or it is past and past days are refused, or it lies beyond the horizon |
| DatePicker.AllowListIsWeekly | resources/js/Components/DatePicker.tsx:47-49 | with a non-empty allow list the answer repeats every seven days |
| DatePicker.EnabledWindow | resources/js/Components/DatePicker.tsx:57-67 | with no weekday rule, no past days and a horizon, the enabled days are exactly today through today plus the horizon |
| DatePicker.DefaultsRefusePast | resources/js/Components/DatePicker.tsx:25-59 | with every prop left out, a day is disabled exactly when it is before today |
| DatePicker.Picker.constructor | resources/js/Components/DatePicker.tsx:33 | the selection starts at the `value` prop |
| DatePicker.Picker.HandleDateChange | resources/js/Components/DatePicker.tsx:36-39 | the new day becomes the selection and is passed to the handler, when there is one |
| DateFormat.Pad2 | resources/js/Pages/Visits/Edit.tsx:126-127 | `padStart(2, '0')`: a text of two or more characters is kept; a shorter one is left-filled with '0' to two |
| DateFormat.TwoDigits | resources/js/Pages/Visits/Edit.tsx:126-127 | a month or day number below 100 becomes two digits denoting it |
| DateFormat.FormatDate | resources/js/Pages/Visits/Edit.tsx:125-130 | `year/MM/DD`, with the year in decimal, the month counted from 1 and both month and day as two digits |
| DateFormat.YearRoundTrip | resources/js/Pages/Visits/Edit.tsx:128-129 | the year's text reads back as the year |
| DateFormat.FormatDateRoundTrip | resources/js/Components/CreateNewPatient.tsx:253-258 | the formatted text parses back to the same calendar date |
| VisitEdit.FilterIncluded | resources/js/Pages/Visits/Edit.tsx:83 | exactly the week's labels that the department lists |
| VisitEdit.IndexOf | resources/js/Pages/Visits/Edit.tsx:86 | the first position of the label, or -1 exactly when it is absent |
| VisitEdit.IndicesOf | resources/js/Pages/Visits/Edit.tsx:86 | one position per filtered label |
| VisitEdit.GetVisitDays | resources/js/Pages/Visits/Edit.tsx:70-89 | every index the page computes is a weekday position 0..6 whose label is among the visit days |
| VisitEdit.WeekIndexOf | resources/js/Pages/Visits/Edit.tsx:78-86 | each week label is found at its own position |
| VisitEdit.GetVisitDaysIsAllowedIndices | resources/js/Pages/Visits/Edit.tsx:70-89 | `getVisitDays` equals the server's allowed indices: strictly increasing, and index i appears exactly when the i-th week label is among the department's days |
| VisitEdit.GetVisitDaysMatchesGetDepartment | resources/js/Pages/Visits/Edit.tsx:70-89 | for an existing department the page computes what the department lookup answers |
| VisitEdit.FormKeysAreFillable | resources/js/Pages/Visits/Edit.tsx:117-122 | the form sends exactly the Visit model's fillable attributes, and no status |
| VisitEdit.EditPicker | resources/js/Pages/Visits/Edit.tsx:233-240 | the picker gets no past days, a 60-day horizon and the allowed weekdays |
| VisitEdit.EditPickerRules | resources/js/Pages/Visits/Edit.tsx:233-240 | with any allowed weekday, a day is disabled exactly when its weekday is not allowed; with none, exactly outside today through 60 days ahead |
| VisitEdit.PickerFollowsLabels | resources/js/Pages/Visits/Edit.tsx:70-240 | a day is disabled exactly when its weekday's label is not among the department's days, or, when no label names a weekday, exactly outside the 60-day window |
| VisitEdit.EditForm.constructor | resources/js/Pages/Visits/Edit.tsx:90-122 | the form starts from the visit, with its department's allowed weekdays |
| VisitEdit.EditForm.HandleDateChange | resources/js/Pages/Visits/Edit.tsx:131-138 | a cleared choice stores ''; a picked day stores its text, which parses back to that day |
| VisitEdit.EditForm.ChangeDepartment | resources/js/Pages/Visits/Edit.tsx:164-185 | only a 200 answer replaces the allowed weekdays and selects the department; any other outcome changes neither |
| CreateNewPatient.InitialFormData | resources/js/Components/CreateNewPatient.tsx:48-59 | the ten fields, all empty |
| CreateNewPatient.AllFieldsListed | resources/js/Components/CreateNewPatient.tsx:48-59 | every form field is one of the ten listed |
| CreateNewPatient.IsJsBlankIsTrimEmpty | resources/js/Components/CreateNewPatient.tsx:72-130 | `!s.trim()` holds exactly when trimming JavaScript white space leaves nothing |
| CreateNewPatient.HospitalIdError | resources/js/Components/CreateNewPatient.tsx:72-76 | 'required' exactly for blank text, the format message exactly for non-blank text that fails the upper-cased pattern, and an accepted id has at least three characters |
| CreateNewPatient.NameError | resources/js/Components/CreateNewPatient.tsx:80-84 | 'required' exactly for blank text, 'too short' exactly for non-blank text under two UTF-16 units; any non-blank name of two characters passes |
| CreateNewPatient.GenderError | resources/js/Components/CreateNewPatient.tsx:87-89 | an error, the select message, exactly when no gender is chosen |
| CreateNewPatient.DistrictError | resources/js/Components/CreateNewPatient.tsx:113-115 | an error, the required message, exactly when the district is blank |
| CreateNewPatient.PhoneError | resources/js/Components/CreateNewPatient.tsx:130-134 | 'required' exactly for blank text, the format message exactly for non-blank text that is not ten digits; an accepted phone has ten characters |
| CreateNewPatient.FormErrors | resources/js/Components/CreateNewPatient.tsx:68-138 | a field has an error exactly when its rule fails, and the message is its rule's non-empty message |
| CreateNewPatient.FormErrorsRules | resources/js/Components/CreateNewPatient.tsx:71-134 | each of the five checked fields fails exactly on its stated condition (the name's length counted in UTF-16 code units), with the 'required' message before the format one; the other five fields never fail |
| CreateNewPatient.Utf16Length | resources/js/Components/CreateNewPatient.tsx:80-84 | JavaScript's `length` lies between the number of characters and twice it, and equals it when no character is beyond the Basic Multilingual Plane |
| CreateNewPatient.AstralNamePasses | resources/js/Components/CreateNewPatient.tsx:80-84 | a one-character name beyond the Basic Multilingual Plane (an emoji) has length two and passes the name rule |
| CreateNewPatient.SurroundingSpacesFail | resources/js/Components/CreateNewPatient.tsx:60-74 | a hospital id with a leading or trailing space is rejected, since the pattern is matched against the untrimmed text |
| CreateNewPatient.AcceptedFormMeetsServerRules | resources/js/Components/CreateNewPatient.tsx:68-138 | a form the page accepts has a present hospital id and a present, numeric phone |
| CreateNewPatient.AcceptedHospitalId | resources/js/Components/CreateNewPatient.tsx:72-76 | an accepted hospital id passes the server's `required` rule |
| CreateNewPatient.AcceptedPhone | resources/js/Components/CreateNewPatient.tsx:130-134 | an accepted phone passes the server's `required` and `numeric` rules |
| CreateNewPatient.NulNameGap | resources/js/Components/CreateNewPatient.tsx:80-84 | a name of two NUL characters passes the page's rule but not the server's `required` |
| CreateNewPatient.GenderOptionsAsWrittenRejected | resources/js/Components/CreateNewPatient.tsx:337-339 | none of the offered gender values passes the model's gender cast |
| CreateNewPatient.GenderOptions | resources/js/Components/CreateNewPatient.tsx:337-339 | the corrected options are the enum's backed values |
| CreateNewPatient.GenderOptionsAccepted | resources/js/Components/CreateNewPatient.tsx:337-339 | every corrected option is stored as the gender it names |
| CreateNewPatient.PatientForm.constructor | resources/js/Components/CreateNewPatient.tsx:65-67 | the empty form, no errors, no custom district |
| CreateNewPatient.PatientForm.ValidateForm | resources/js/Components/CreateNewPatient.tsx:68-138 | the errors become the form's errors, and the result says whether there are none |
| CreateNewPatient.PatientForm.Cleared | resources/js/Components/CreateNewPatient.tsx:147-153 | afterwards the key holds no message (at most an empty one it already had), and every other error is kept as it was |
| CreateNewPatient.PatientForm.HandleChange | resources/js/Components/CreateNewPatient.tsx:140-154 | only the typed field changes, and only its error can be cleared |
| CreateNewPatient.PatientForm.HandleHospitalIdChange | resources/js/Components/CreateNewPatient.tsx:301-306 | the hospital id is stored upper-cased and the errors are kept |
| CreateNewPatient.PatientForm.HandleGenderChange | resources/js/Components/CreateNewPatient.tsx:156-168 | the gender is stored and its error cleared |
| CreateNewPatient.PatientForm.HandleDistrictChange | resources/js/Components/CreateNewPatient.tsx:170-192 | 'other' shows the custom input and empties the district; any other value is stored; the district's error is cleared |
| CreateNewPatient.PatientForm.HandleCustomDistrictChange | resources/js/Components/CreateNewPatient.tsx:240-252 | the typed district is stored and its error cleared |
| CreateNewPatient.PatientForm.HandleDateChange | resources/js/Components/CreateNewPatient.tsx:259-269 | the date of birth becomes the picked day's text, or '' when cleared |
| DepartmentForms.DayOptionsAreWeekLabels | resources/js/Pages/Departments/Create.tsx:115 | the checkbox labels are exactly the server's week labels |
| DepartmentForms.Without | resources/js/Pages/Departments/Create.tsx:64 | the filtered list lacks the day and keeps every other day |
| DepartmentForms.Toggle | resources/js/Pages/Departments/Create.tsx:61-66 | checking appends the day; unchecking removes every occurrence of it |
| DepartmentForms.ToggleChecks | resources/js/Pages/Departments/Create.tsx:61-123 | after a toggle the day's box shows the new value and every other box keeps its own |
| DepartmentForms.WithoutAppend | resources/js/Pages/Departments/Create.tsx:64 | the filter distributes over concatenation, so the other days keep their order |
| DepartmentForms.WithoutCounts | resources/js/Pages/Departments/Create.tsx:64 | unchecking removes only that day: every other day keeps its number of occurrences |
| DepartmentForms.WithoutAbsent | resources/js/Pages/Departments/Create.tsx:64 | unchecking a day that is not in the list leaves it as it is |
| DepartmentForms.ToggleOnThenOff | resources/js/Pages/Departments/Create.tsx:61-66 | checking an unchecked day and then unchecking it restores the list |
| DepartmentForms.CreateForm.constructor | resources/js/Pages/Departments/Create.tsx:32-36 | empty name and capacity, no day |
| DepartmentForms.CreateForm.HandleDayToggle | resources/js/Pages/Departments/Create.tsx:61-66 | the days become the toggled list |
| DepartmentForms.EditForm.constructor | resources/js/Pages/Departments/Edit.tsx:54-58 | the department's name and capacity, and its visit-day labels, or none when it has no list |
| DepartmentForms.EditForm.HandleDayToggle | resources/js/Pages/Departments/Edit.tsx:72-77 | the days become the toggled list |
| RolesEdit.InitialStates | resources/js/Pages/Roles/Edit.tsx:163-169 | an entry exactly for each permission the role holds, all on; none without a list |
| RolesEdit.Settled | resources/js/Pages/Roles/Edit.tsx:188-211 | a 200 stores the requested value; another 2xx changes nothing; a rejection stores the opposite; other switches keep their entries |
| RolesEdit.SettledKeepsOthers | resources/js/Pages/Roles/Edit.tsx:189-205 | a toggle never changes what another switch shows |
| RolesEdit.FailedToggleReverts | resources/js/Pages/Roles/Edit.tsx:200-205 | a failed flip leaves the switch as it showed before |
| RolesEdit.SucceededToggleShows | resources/js/Pages/Roles/Edit.tsx:189-194 | a 200 answer makes the switch show what the user asked for |
| RolesEdit.RouteAnswer | routes/web.php:104-105 | a request routed to an action the controller defines gets the handler's answer; one routed to an undefined action is rejected |
| RolesEdit.ToggleAsWrittenReverts | routes/web.php:104-105 | as written, the route names `add_permission`, which RoleController lacks, so every flip reverts whatever the handler would answer |
| RolesEdit.ToggleWithActionShows | resources/js/Pages/Roles/Edit.tsx:176-194 | with the action defined and answering 200, the switch shows what the user asked for |
| RolesEdit.SwitchFor | resources/js/Pages/Roles/Edit.tsx:331-345 | on exactly when the state says so, disabled exactly while the request runs, and the name's second segment as label, missing exactly when the name has no dot |
| RolesEdit.SeededNameShowsSuffix | resources/js/Pages/Roles/Edit.tsx:331 | a seeded permission's switch is labelled 'read' or 'write' |
| RolesEdit.PageFor | resources/js/Pages/Roles/Edit.tsx:252-280 | the name input is disabled and the permission table replaced by a message exactly for the Admin role |
| RolesEdit.PermissionPanel.constructor | resources/js/Pages/Roles/Edit.tsx:160-169 | the initial switch states and no request running |
| RolesEdit.PermissionPanel.LoadRolePermissions | resources/js/Pages/Roles/Edit.tsx:163-169 | the states are rebuilt from the role's permissions |
| RolesEdit.PermissionPanel.StartToggle | resources/js/Pages/Roles/Edit.tsx:171 | the switch is marked as loading |
| RolesEdit.PermissionPanel.FinishToggle | resources/js/Pages/Roles/Edit.tsx:188-214 | the outcome settles the states and the switch stops loading |
| RolesEdit.PermissionPanel.HandlePermissionToggle | resources/js/Pages/Roles/Edit.tsx:170-215 | a whole toggle: the states settle by the outcome and the switch ends enabled |
| PaginationItem.FirstOccurrence | resources/js/Components/RenderPaginationItem.tsx:12-13 | the first position where the pattern occurs, or none when it occurs nowhere |
| PaginationItem.ReplaceFirst | resources/js/Components/RenderPaginationItem.tsx:12-13 | a string pattern replaces only its first occurrence; without one the text is kept |
| PaginationItem.ReplaceAtFront | resources/js/Components/RenderPaginationItem.tsx:12-13 | a pattern at the front is replaced there |
| PaginationItem.DecodeLabel | resources/js/Components/RenderPaginationItem.tsx:10-14 | decoding the first `&laquo;` and the first `&raquo;` never lengthens the label |
| PaginationItem.IsNumeric | resources/js/Components/RenderPaginationItem.tsx:46 | `!isNaN(Number(text))`: once trimmed, the text is blank or a numeric literal of the StringNumericLiteral grammar |
| PaginationItem.DecodePlain | resources/js/Components/RenderPaginationItem.tsx:10-14 | a label with neither entity is kept as it is |
| PaginationItem.DecodeOnlyFirstLeftQuote | resources/js/Components/RenderPaginationItem.tsx:10-14 | only the first `&laquo;` is decoded |
| PaginationItem.FindChar | resources/js/Components/RenderPaginationItem.tsx:46 | the first position holding either character, or the end |
| PaginationItem.NumberIsNumeric | resources/js/Components/RenderPaginationItem.tsx:46 | a page number's text is numeric |
| PaginationItem.BlankIsNumeric | resources/js/Components/RenderPaginationItem.tsx:46 | a blank label counts as numeric, as `Number('')` is 0 |
| PaginationItem.EllipsisNotNumeric | resources/js/Components/RenderPaginationItem.tsx:46-59 | the separator '...' is not numeric |
| PaginationItem.TwoDotsNotNumeric | resources/js/Components/RenderPaginationItem.tsx:46 | an unspaced text starting with two dots is not numeric |
| PaginationItem.Href | resources/js/Components/RenderPaginationItem.tsx:28-50 | the link's url when it is non-empty, '#' otherwise |
| PaginationItem.Render | resources/js/Components/RenderPaginationItem.tsx:17-68 | the previous and next labels give their items; otherwise a numeric decoded label gives a page link, '...' an ellipsis keyed by the index, and anything else nothing |
| PaginationItem.DigitsDecodeToThemselves | resources/js/Components/RenderPaginationItem.tsx:10-14 | a digit string decodes to itself |
| PaginationItem.PageNumberRenders | resources/js/Components/RenderPaginationItem.tsx:46-57 | a page number renders as a page link keyed and captioned by its own text |
| PaginationItem.SeparatorRenders | resources/js/Components/RenderPaginationItem.tsx:59-65 | '...' renders as an ellipsis keyed `ellipsis-<index>` |
| PaginationItem.EmptyLabelRendersAsPage | resources/js/Components/RenderPaginationItem.tsx:46-57 | an empty label renders as an empty page link |

## Left out

- API resources (`*Resource` classes) and Inertia rendering: responses are modelled as the records or outcome values they carry.
- `Hash::make` is salted and not modelled: the stored hash is a parameter of the user store and password update.
- Carbon and JavaScript `Date` parsing, time zones and the clock: dates are day numbers, and today is a parameter. VisitController's `date` rule sees an already parsed input (no date, not a date, or a day).
- UserController.Destroy, DepartmentController.DepartmentTable.Destroy: `page` is taken as an optional integer, while the source compares the raw request text with PHP 8's `<=`: "2abc" compares as a string and is kept as given, "abc" goes to the last page. The app's own delete buttons send a number's text, which this reading covers.
- Laravel's request middleware (TrimStrings, ConvertEmptyStringsToNull) is not modelled: request values reach the rules as sent.
- `LIKE` collation and wildcards: the match is case-sensitive, and a `%` or `_` in the search term is matched literally. The same exact, case-sensitive comparison stands for the database collation in the `unique:` rules (PatientController.php:47-49, UserController.php:103 and 177) and in VisitController's `groupBy`, so values that differ only in case or trailing spaces count as different there.
- UserController.StoreErrors: the `email` rule is simplified to one '@' with text on both sides, because the validator's RFC parsing is outside the model.
- UserController.UpdateErrors: the same simplified `email` rule as StoreErrors, for the same reason.
- PatientController.StoreErrors: the `numeric` rule is simplified to an optional sign, decimal digits and an optional fraction; exponents and surrounding white space are not accepted.
- The `handleSubmit` handlers of the visit edit page and the new-patient form (async requests, toasts, dialogs, console logging) and the flash-message timers are not modelled.
- The Roles page's toggle request targets the `role.add.permission` route (routes/web.php:104-105), which names an `add_permission` action that RoleController does not define; the server therefore answers every toggle with an error and the switch reverts (see Findings). What an intended handler would answer is a parameter. The HTTP client's default status check is assumed: a status outside 200-299 rejects.
- Spatie permission package internals (guard checks, caches): a failure inside a role or permission write is folded into the `fails` parameter.
- The search and reset handlers of the Roles page, and its success toast.
- VisitController `index`/`edit` props beyond the weekday indices.
- PatientModel.Create: the `dob` date cast (app/Models/Patient.php:43) is not modelled: Eloquent parses a non-empty date text with Carbon, which throws on text such as "abc" and turns numeric text into a timestamp's date; here the text is stored as given and the create succeeds.
- PatientController.StoreResult: `dob` is not validated, so a dob Carbon cannot parse makes the source's create throw and `store` answer 409; here that request is answered 201, unless `fails` is set.
- The visits table's migration is not part of this model, so the default of the visits `status` column is a parameter of VisitController.VisitTable.
- CreateNewPatient.PatientForm.HandleHospitalIdChange: `toUpperCase` is modelled on ASCII letters only; Unicode case mapping is not modelled.
- CreateNewPatient.HospitalIdError: `toUpperCase` before the pattern test is the ASCII mapping, while JavaScript's full mapping also turns 'ſ' (U+017F) into 'S', so "wſ1" passes the page's rule but is rejected here.
- CreateNewPatient.FormErrors: inherits HospitalIdError's ASCII-only upper-casing.
- CreateNewPatient.FormErrorsRules: states the hospital id rule with the same ASCII-only upper-casing.
- CreateNewPatient.PatientForm.ValidateForm: inherits HospitalIdError's ASCII-only upper-casing through FormErrors.
- Common.FindById, Common.Find, Common.DenotesId: the database's own comparison of a key column with the sent value is replaced by the `integer` reading of the value, so a value such as "01", "5abc" or "5.0", which MySQL converts to a matching number, names no row here.
- The date picker's `dateFormat` display and the calendar widget's own behaviour (month navigation, focus) are not modelled.
- Floating point: `Number(text)` is modelled only as whether it is NaN, by the StringNumericLiteral grammar of section 7.1.4.1.1 of ECMA-262; the number's value is not computed.

## Findings

| source | as written | input that shows it | evidently intended | confidence | as-written member | corrected member |
|---|---|---|---|---|---|---|
| database/migrations/2025_02_14_110758_create_patient_visits_table.php:23 | the status default is `PatientVisitEnum::Pending`, but the case is declared `PENDING` and PHP class constants are case-sensitive | running `up` on any schema | default 'pending', the PENDING case's value | not executed | PatientVisitMigration.StatusDefaultAsWritten, PatientVisitMigration.UpAsWritten | PatientVisitMigration.StatusDefault, PatientVisitMigration.Up |
| database/migrations/2025_02_14_110758_create_patient_visits_table.php:34 | `down` drops `patient_visits`, while `up` creates `patient_visit` | `up` then `down` on a schema without `patient_visit` | `down` drops `patient_visit` and restores the schema | not executed | PatientVisitMigration.RollbackAsWrittenKeepsTable | PatientVisitMigration.RollbackRestores |
| resources/js/Components/CreateNewPatient.tsx:337-339 | the gender select offers 'male', 'female' and 'other', but the enum cast accepts only 'MALE', 'FEMALE' and 'OTHER' | a form with gender 'male' is answered 409 | the options are the enum's backed values | not executed | CreateNewPatient.GenderOptionsAsWrittenRejected | CreateNewPatient.GenderOptionsAccepted |
| app/Models/Visit.php:7-19 | the model declares no `department` or `patients` relation, while three controller actions eager-load `department` and `patients.visit` | the dashboard on a day with one visit | Visit declares both relations | not executed | VisitModel.RelationsAsWritten, DashboardController.IndexAsWrittenThrows, ConfirmAppointmentController.IndexAsWrittenThrows, ConfirmAppointmentController.PatientListAsWrittenThrows | VisitModel.Relations, DashboardController.Index, ConfirmAppointmentController.Index, ConfirmAppointmentController.PatientList |
| routes/web.php:104-105 | the `role.add.permission` route names an `add_permission` action, but RoleController defines only `index`, `edit` and `update`, so the request the Roles page sends on every switch flip ends in a server error | flipping any permission switch on the role edit page | a defined `add_permission` action that gives or revokes the permission and answers 200, so the switch keeps the new value | not executed | RolesEdit.ToggleAsWrittenReverts | RolesEdit.ToggleWithActionShows |
