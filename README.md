# INNER-SYNC appointment core in Dafny

INNER-SYNC is a mental-wellness web application. Patients look for verified
doctors by city and country and send them appointment requests. Doctors keep a
profile and weekly availability and work through their pending requests: they
accept with a date, reject, or delete. Admins verify doctors, remove users
together with everything that refers to them, and read any user's history.

This project models the Express backend that implements this:
- the `protect` gate that turns a session cookie into `req.user`;
- the route handlers of `backend/routes/auth.js`, `main.js` and `admin.js`;
- the four PostgreSQL tables those handlers read and write.

It also models the frontend helpers that decide what a visitor sees:
- the route table and `ProtectedRoute`;
- the home page's mood slider and welcome choice;
- the doctor panel's time slots and scheduling dialog;
- the profile form's availability editor;
- the patient dashboard's status sections, cards and banners.

Layout, module by module:

- `Wrappers`, `Collections` and `Strings` are shared helpers.
  - `Collections` holds order-preserving filter and map, reversal, and insertion sort under code-point order.
  - `Strings` holds JavaScript truthiness and `||`, ASCII lower-casing, and a `LIKE` matcher.
- `Schema` holds the table rows, the public user projection and the response shape.
- `Tables` holds each SQL statement as a function on a table, with its lemmas.
- `Consistency` defines what a well-formed database is (`Consistent` on a `Snapshot`) and proves that every statement keeps it.
- `Db.Store` is the database as a class whose table fields the statement methods update in place.
  - Its `Valid()` is `Consistent(Snap())`.
  - `clientsInUse` counts pool clients taken with `pool.connect()`.
- `Middleware` holds `protect`.
- `AuthRoutes`, `MainRoutes` and `AdminRoutes` hold the handlers.
  - Mutating handlers are methods on a `Store`, one branch per response.
  - Read handlers are functions of a `Snapshot`.
- `AppRoutes`, `Home`, `DoctorPanel`, `ProfileForm` and `PatientDashboard` hold the frontend.

Four behaviours of the source are worth knowing, and the model keeps each of them:

- **Accept and reject are not terminal.** `UPDATE ... WHERE id = $ AND doctor_id = $` has no status condition, so a doctor can reject an accepted request or accept a rejected one. `Tables.DecideOwned` does the same.
- **The gate says which check failed.** It sends three different 401 messages: no token, token failed, user not found.
- **Availability replace can fail on a bad entry.** A `null` entry makes the `map` over the list throw. The transaction is then rolled back with a 500, so a malformed entry is not always skipped.
- **Deleting an unknown user still runs the dependent deletes.** They run before the 404 is reported. `Consistency.DeleteMissingUserChangesNothing` proves that in a consistent database they remove nothing.

## Model

| member | source | states |
|---|---|---|
| Strings.OrElse | backend/routes/main.js:65 | `s \|\| fallback`: the value when it is a non-empty string, the fallback otherwise |
| Strings.Truthy | backend/routes/main.js:18 | definition: JavaScript truthiness of an optional string field, present and not empty |
| Strings.Lower | backend/routes/main.js:25 | ASCII lower-casing keeps the length and maps each character on its own |
| Strings.Like | backend/routes/main.js:25 | definition: PostgreSQL `LIKE` with `%`, `_` and the `\` escape, by recursion on text and pattern |
| Strings.ILike | backend/routes/main.js:25 | definition: `ILIKE` as `LIKE` on both sides lower-cased |
| Strings.LowerConcat | backend/routes/main.js:25 | lower-casing distributes over concatenation |
| Strings.LikePercent | backend/routes/main.js:25-26 | the pattern `%` matches every string |
| Strings.LikePrefix | backend/routes/main.js:25-26 | for a pattern without wildcards `q`, `t LIKE q%` holds iff `q` is a prefix of `t` |
| Strings.LikeSubstring | backend/routes/main.js:25-26 | for a pattern without wildcards `q`, `t LIKE %q%` holds iff `q` occurs in `t` |
| Strings.SearchMatchIsSubstring | backend/routes/main.js:25-26 | `ILIKE '%q%'` with plain text `q` is case-insensitive substring search |
| Strings.PercentQueryMatchesAll | backend/routes/main.js:25-26 | a query of `%` is a wildcard, not text: it matches every column value |
| Schema.Public | backend/middleware/auth.js:17-20 | the projection keeps id, role and the verified flag and has no password hash |
| Tables.FindUser | backend/middleware/auth.js:17-20 | the row with that id, or none exactly when no row has that id |
| Tables.FindUserByEmail | backend/routes/auth.js:37-39 | the row with that email, or none exactly when no row has that email |
| Tables.VerifiedDoctor | backend/routes/main.js:52-55 | definition: the user with that id has role doctor and the verified flag set |
| Tables.SetVerified | backend/routes/admin.js:57-60 | definition: the `UPDATE` row by row, flagging the row with that id when its role is doctor |
| Tables.WithoutUser | backend/routes/admin.js:79 | exactly the rows whose id differs |
| Tables.FindUnique | backend/middleware/auth.js:17-20 | with ids increasing through the table, looking up a row's id finds that row |
| Tables.FindAppend | backend/routes/auth.js:57-64 | lookup after an insert finds the old row, else the new row if the id matches |
| Tables.FindAfterFilter | backend/routes/admin.js:79 | a filter that keeps every row with the id does not change that id's lookup |
| Tables.FindAfterDelete | backend/routes/admin.js:79 | deleting one id leaves every other id's lookup as it was |
| Tables.FindAfterVerify | backend/routes/admin.js:57-60 | after verify, a lookup finds the same rows, with only that id's doctor row flagged |
| Tables.DeleteOwned | backend/routes/main.js:131-134 | exactly the rows not matching both the id and the acting doctor |
| Tables.Decide | backend/routes/main.js:139-153 | definition: reject sets the status; accept sets the status and the date |
| Tables.DecideOwned | backend/routes/main.js:139-153 | definition: the `UPDATE ... WHERE id = $ AND doctor_id = $` row by row; its properties are `Tables.AtMostOneRowDecided` and `Consistency.DecideKeeps` |
| Tables.WithoutAppointmentsOf | backend/routes/admin.js:74 | exactly the rows naming the user neither as patient nor as doctor |
| Tables.PendingFor | backend/routes/main.js:98-110 | exactly that doctor's pending rows |
| Tables.OfPatient | backend/routes/main.js:217-230 | exactly that patient's rows |
| Tables.DecidedFor | backend/routes/admin.js:109-121 | exactly that doctor's accepted and rejected rows |
| Tables.AtMostOneRowDecided | backend/routes/main.js:139-153 | an update by id and doctor changes at most one row, never another doctor's row, and keeps the length |
| Tables.Join | backend/routes/main.js:98-110 | the inner join yields at most one row per appointment |
| Tables.JoinAll | backend/routes/main.js:217-230 | when every row's user exists, the join pairs each row with that user, in order |
| Tables.ProfilesOf | backend/routes/main.js:174-177 | exactly the profile rows of that user |
| Tables.WithoutProfileOf | backend/routes/admin.js:75 | exactly the profile rows of other users |
| Tables.UpsertProfile | backend/routes/main.js:255-261 | the new row is present; it is the only row of that user; other users' rows are unchanged; user ids stay unique |
| Tables.ExactlyOneProfile | backend/routes/main.js:255-261 | after the upsert the doctor has exactly one profile row, holding the given values |
| Tables.UpsertIdempotent | backend/routes/main.js:255-261 | repeating the upsert with the same input changes nothing |
| Tables.BlocksOf | backend/routes/main.js:181-184 | exactly that doctor's availability rows |
| Tables.WithoutBlocksOf | backend/routes/main.js:287 | exactly the other doctors' availability rows |
| Tables.ReplaceBlocks | backend/routes/main.js:287-301 | after delete-then-insert the doctor has exactly the inserted blocks; other doctors keep theirs, in order |
| Tables.FilterOfFilter | backend/routes/main.js:287 | deleting one doctor's blocks keeps another doctor's blocks exactly |
| Collections.Filter | backend/routes/main.js:98-110 | `WHERE` keeps exactly the matching rows, in table order |
| Collections.FilterPairwise | backend/routes/main.js:109 | filtering keeps any order relation the table had |
| Collections.Reverse | backend/routes/main.js:229 | `DESC` over an ascending table: same length, elements reversed |
| Collections.PairwiseReverse | backend/routes/main.js:229 | reversing turns an ascending order into a descending one |
| Collections.LexLeTotal | backend/routes/admin.js:30 | the string order used for `ORDER BY name` is total |
| Collections.LexLeTrans | backend/routes/admin.js:30 | the string order used for `ORDER BY name` is transitive |
| Collections.SortBy | backend/routes/admin.js:30 | `ORDER BY`: sorted by the key and a permutation of the input |
| Consistency.EmptyConsistent | backend/routes/main.js:4 | the empty database is consistent |
| Consistency.Consistent | backend/routes/main.js:52-65 | definition: unique ids and emails, insertion in clock order, every appointment from a patient to a verified doctor with a date when accepted, profiles and blocks only for doctors, at most one profile per user |
| Consistency.DeleteUserEffect | backend/routes/admin.js:74-79 | definition: the four deletes of the user delete, in order |
| Consistency.RegisterKeeps | backend/routes/auth.js:57-64 | inserting a user with a fresh email, the next id and the current time keeps the database consistent |
| Consistency.CreateKeeps | backend/routes/main.js:62-65 | inserting a pending request from a patient to a verified doctor keeps the database consistent |
| Consistency.DecideKeeps | backend/routes/main.js:139-153 | accepting with a non-empty date or rejecting keeps it consistent, so an accepted row always has a date |
| Consistency.DeleteOwnedKeeps | backend/routes/main.js:131-134 | a doctor's delete keeps the database consistent |
| Consistency.UpsertKeeps | backend/routes/main.js:255-261 | a doctor's profile upsert keeps the database consistent |
| Consistency.DeleteBlocksKeeps | backend/routes/main.js:287 | deleting a doctor's availability keeps the database consistent |
| Consistency.InsertBlockKeeps | backend/routes/main.js:292-293 | inserting one of a doctor's blocks keeps the database consistent |
| Consistency.VerifyKeeps | backend/routes/admin.js:57-60 | verifying keeps the database consistent |
| Consistency.DeleteAppointmentsOfKeeps | backend/routes/admin.js:74 | the first dependent delete keeps the database consistent |
| Consistency.DeleteProfileOfKeeps | backend/routes/admin.js:75 | the second dependent delete keeps the database consistent |
| Consistency.DependentDeletesUnreference | backend/routes/admin.js:74-76 | after the three dependent deletes no row refers to the id |
| Consistency.DeleteUserRowKeeps | backend/routes/admin.js:79 | deleting an unreferenced user keeps the database consistent |
| Consistency.DeleteMissingUserChangesNothing | backend/routes/admin.js:74-83 | for an id with no user row, the four deletes leave the database as it was |
| Consistency.NewestRowsResolve | backend/routes/main.js:217-230 | every appointment names an existing patient and doctor, so the joins drop no row |
| Consistency.NewestFirst | backend/routes/main.js:229 | a filtered, reversed appointment list is strictly newest first |
| Db.Store.constructor | backend/routes/main.js:4 | a new database is empty and consistent, with no client checked out |
| Db.Store.Connect | backend/routes/main.js:282 | takes one pool client and changes no table |
| Db.Store.Release | backend/routes/main.js:309 | gives the client back and changes no table |
| Db.Store.Rollback | backend/routes/main.js:305 | restores the state at `BEGIN` |
| Db.Store.InsertUser | backend/routes/auth.js:57-64 | appends the user with the next id, the current time and the flag false, keeping consistency |
| Db.Store.InsertAppointment | backend/routes/main.js:62-65 | appends a pending row with the next id and the current time, keeping consistency |
| Db.Store.UpdateAppointment | backend/routes/main.js:139-153 | applies the decision to the rows with that id and doctor only |
| Db.Store.DeleteAppointment | backend/routes/main.js:131-134 | removes the rows with that id and doctor only |
| Db.Store.UpsertDoctorProfile | backend/routes/main.js:255-261 | the profile table becomes the upsert of the old one |
| Db.Store.DeleteAvailabilityOf | backend/routes/main.js:287 | removes exactly that doctor's blocks |
| Db.Store.InsertAvailability | backend/routes/main.js:292-293 | appends one block |
| Db.Store.SetDoctorVerified | backend/routes/admin.js:57-60 | flags the doctor row with that id; nothing else changes |
| Db.Store.DeleteAppointmentsOf | backend/routes/admin.js:74 | removes the rows naming the user on either side |
| Db.Store.DeleteProfileOf | backend/routes/admin.js:75 | removes the user's profile rows |
| Db.Store.DeleteUser | backend/routes/admin.js:79-83 | removes the user row; `found` says whether there was one |
| Middleware.Authenticate | backend/middleware/auth.js:6-34 | no token: 401; a failed token: 401; pass iff the token verifies to an id with a user row, and then `req.user` is that row's projection |
| Middleware.RoleIsStoredRole | backend/middleware/auth.js:17-26 | the role and the verified flag later checks see are those stored for the id now |
| Middleware.DecisionDependsOnlyOnRecord | backend/middleware/auth.js:17-26 | the verdict depends on the token's id and that id's stored row only |
| Middleware.Request.constructor | backend/middleware/auth.js:6 | a request starts with no user, no response sent and `next` not called |
| Middleware.Request.Protect | backend/middleware/auth.js:6-34 | on pass, sets `req.user` and calls `next` once and sends nothing; on refusal, sends the 401 and never calls `next` |
| AuthRoutes.NormaliseRole | backend/routes/auth.js:27 | the role is `doctor` iff `doctor` was submitted, else `patient` |
| AuthRoutes.NoSelfMadeAdmin | backend/routes/auth.js:27 | registration never yields an admin; submitting `admin` yields a patient |
| AuthRoutes.Register | backend/routes/auth.js:24-80 | missing field 400, then duplicate email 400, then doctor without place 400, none changing a table; success iff none of these applies, and then one user appended with the normalised role, place only for doctors, flag false, 201 and the cookie |
| AuthRoutes.Login | backend/routes/auth.js:83-129 | success iff both fields are given, the email is stored and the password matches; then the public projection and the cookie; every failure is 400 without a cookie |
| AuthRoutes.LoginDoesNotRevealAccounts | backend/routes/auth.js:97-107 | an unknown email and a wrong password give the same reply, "Invalid credentials" |
| AuthRoutes.LoginFindsTheAccount | backend/routes/auth.js:93-124 | with unique emails, a user's own email finds their row and the result depends only on the password |
| AuthRoutes.FindByEmailUnique | backend/routes/auth.js:93-95 | with unique emails, looking up a stored email finds that user |
| AuthRoutes.Me | backend/routes/auth.js:132-149 | the stored record of the caller, or 404 exactly when it is gone |
| AuthRoutes.MeAfterProtect | backend/routes/auth.js:132-149 | behind `protect`, `/me` returns exactly `req.user` |
| AuthRoutes.Logout | backend/routes/auth.js:152-155 | always succeeds and sets the `token` cookie to the empty string |
| AuthRoutes.LoggedOutIsRefused | backend/middleware/auth.js:8-12 | the cookie logout leaves is refused as "no token" |
| MainRoutes.SearchDoctors | backend/routes/main.js:10-34 | non-patient 403; blank city or country 400; otherwise exactly the cards of verified doctors whose city and country match the patterns |
| MainRoutes.SearchHit | backend/routes/main.js:25-26 | definition: the search `WHERE` clause, with a NULL city or country matching no pattern |
| MainRoutes.SearchByPlainText | backend/routes/main.js:23-26 | for queries without wildcards a hit is a verified doctor whose city and country contain the queries, ignoring ASCII case |
| MainRoutes.SearchWildcardListsAll | backend/routes/main.js:23-26 | `%` as city and country lists every verified doctor with a place |
| MainRoutes.IdGiven | backend/routes/main.js:46 | definition: `!doctorId` is false, so the id is present and not 0 |
| MainRoutes.CreateAppointment | backend/routes/main.js:37-75 | 403, 400 without a doctor id, 404 for a target that is not a verified doctor, none changing a table; otherwise exactly one pending row from the actor to the target, the message defaulting to "No message provided.", and 201 |
| MainRoutes.DoctorQueue | backend/routes/main.js:80-118 | non-doctor 403; a doctor gets 200 |
| MainRoutes.DoctorQueueIsPendingOldestFirst | backend/routes/main.js:98-110 | the queue is the doctor's pending rows, one per row, strictly oldest first; each carries its id, message, time and patient id, and the stored patient's name and email |
| MainRoutes.AppointmentAction | backend/routes/main.js:121-164 | non-doctor 403; delete and reject change only the actor's row with that id; accept without date 400; accept with date stores status and date; other actions 400; the success message is sent even when no row matched |
| MainRoutes.AcceptStoresTheDate | backend/routes/main.js:150-153 | an accepted owned row is accepted, holds the given date and keeps its patient |
| MainRoutes.DeleteKeepsOthersRows | backend/routes/main.js:131-134 | a delete never changes another doctor's rows |
| MainRoutes.DoctorProfile | backend/routes/main.js:167-202 | non-doctor 403; the caller, their profile (none iff they have none) and the availability sorted by day name, a permutation of their blocks |
| MainRoutes.ProfileReadAfterUpsert | backend/routes/main.js:167-202 | reading after an upsert returns the upserted profile |
| MainRoutes.PatientAppointments | backend/routes/main.js:208-238 | non-patient 403; a patient gets 200 |
| MainRoutes.PatientListIsNewestFirst | backend/routes/main.js:217-230 | the list is all of the patient's rows, one per row, strictly newest first; each carries its id, status, date and message, and the stored doctor's name, email and city |
| MainRoutes.UpdateProfile | backend/routes/main.js:243-269 | 403; blank field 400; failure changes nothing; success leaves exactly one profile row with the values and returns it |
| MainRoutes.BlocksFor | backend/routes/main.js:290-296 | the blocks to insert all belong to the acting doctor |
| MainRoutes.BlocksForExact | backend/routes/main.js:290-296 | a block is inserted iff some entry has all three fields truthy and yields it |
| MainRoutes.InsertBlocks | backend/routes/main.js:290-299 | the insert loop fails iff an entry is `null` or `undefined` or an insert fails; otherwise it appends exactly the complete entries, and only availability changes |
| MainRoutes.SetAvailability | backend/routes/main.js:272-311 | 403; not an array 400; a failing entry 500 with the table restored; success makes the doctor's blocks exactly the complete entries; the client is released on every path |
| MainRoutes.AvailabilityReplaced | backend/routes/main.js:287-301 | after success the doctor has exactly the submitted complete blocks and every other doctor keeps theirs |
| AdminRoutes.AdminDashboard | backend/routes/admin.js:10-49 | non-admin 403; the verified doctors and all patients, each sorted by name and a permutation of the selected users |
| AdminRoutes.ByName | backend/routes/admin.js:29-38 | `ORDER BY name`: sorted and a permutation of the selection |
| AdminRoutes.VerificationList | backend/routes/admin.js:23-26 | definition: the unverified doctors in table order; its properties are `AdminRoutes.VerificationListOldestFirst` and `AdminRoutes.ApplicantsAreTheWaiting` |
| AdminRoutes.VerificationListOldestFirst | backend/routes/admin.js:23-27 | the verification list holds exactly the unverified doctors, strictly oldest sign-up first |
| AdminRoutes.ApplicantsAreTheWaiting | backend/routes/admin.js:23-27 | every unverified doctor appears, every entry is one, and the order is by sign-up time |
| AdminRoutes.DoctorListsPartition | backend/routes/admin.js:23-33 | every doctor is in exactly one of the two doctor lists, by flag |
| AdminRoutes.VerifyDoctor | backend/routes/admin.js:54-66 | non-admin 403 with no change; otherwise only that id's doctor row is flagged, and success is sent even when nothing matched |
| AdminRoutes.VerifyTouchesOnlyThatDoctor | backend/routes/admin.js:57-60 | each user afterwards is as before, except that the doctor with that id is flagged |
| AdminRoutes.DeleteUser | backend/routes/admin.js:69-90 | non-admin 403 with no change; otherwise all four deletes run; 404 iff there was no user row, else 200 |
| AdminRoutes.DeleteLeavesNoTrace | backend/routes/admin.js:74-79 | afterwards nothing refers to the id, there is no user row, and every other user's row is unchanged |
| AdminRoutes.UserHistory | backend/routes/admin.js:95-148 | non-admin 403; unknown id 404; a doctor's or a patient's history; any other role 400 |
| AdminRoutes.DoctorHistoryIsDecidedNewestFirst | backend/routes/admin.js:109-121 | a doctor's history holds the accepted and rejected rows only, strictly newest first; each carries its id, own status and date, and the stored patient's name and email |
| AdminRoutes.PatientHistoryIsAllNewestFirst | backend/routes/admin.js:125-137 | a patient's history holds all of their rows, strictly newest first; each carries its id, status and date, and the stored doctor's name and email |
| AppRoutes.ProtectedRoute | frontend/src/App.jsx:31-40 | no user: to /login; a role outside the given list: to /; renders the children iff signed in and allowed |
| AppRoutes.GuardOf | frontend/src/App.jsx:79-181 | definition: which routes are open, guest-only or wrapped in `ProtectedRoute`, and with which roles |
| AppRoutes.Element | frontend/src/App.jsx:79-181 | a route's element renders only its own page, and otherwise redirects |
| AppRoutes.ResolveIn | frontend/src/App.jsx:79-181 | the first route with the path decides; with none, the not-found page |
| AppRoutes.Resolve | frontend/src/App.jsx:79-181 | definition: `ResolveIn` over the routes in source order |
| AppRoutes.GuestPagesRedirectUsers | frontend/src/App.jsx:84-91 | /login and /register send a signed-in user to / and show the form otherwise |
| AppRoutes.ChatbotPagesAreOpen | frontend/src/App.jsx:125-148 | the three chatbot routes are open: each renders its element for every visitor (the `/AI-Doctor-Suggestion` element names a component the source does not define; see Left out) |
| AppRoutes.PanelsNeedTheirRole | frontend/src/App.jsx:96-176 | wherever a patient, admin or doctor page renders, the user has that role |
| Home.MoodIndex | frontend/src/pages/Home.jsx:18-24 | the five thresholds 20, 37.5, 62.5, 87.5 pick Down, Content, Peaceful, Happy, Excited, each iff in its range |
| Home.MoodOf | frontend/src/pages/Home.jsx:18-24 | definition: `getMoodFromValue`, the mood at `MoodIndex`; its properties are the `Home.MoodIndex` contract and `Home.MoodIsMonotone` |
| Home.MoodIsMonotone | frontend/src/pages/Home.jsx:18-24 | a larger value never picks an earlier mood |
| Home.EveryMoodIsReached | frontend/src/pages/Home.jsx:10-24 | each mood's own value maps to that mood |
| Home.InitialMood | frontend/src/pages/Home.jsx:8 | the initial slider value shows "Peaceful" |
| Home.HomeView | frontend/src/pages/Home.jsx:615-627 | no user, patient, admin and doctor each get their view, each iff |
| Home.OtherRolesSeeEmptyCard | frontend/src/pages/Home.jsx:621-622 | any other role gets an empty card |
| DoctorPanel.DigitChar | frontend/src/pages/DoctorPanel.jsx:91 | a digit's character is a decimal digit |
| DoctorPanel.Pad2Value | frontend/src/pages/DoctorPanel.jsx:91 | `padStart(2, '0')` gives two digits that read back as the number |
| DoctorPanel.TimeSlots | frontend/src/pages/DoctorPanel.jsx:86-95 | 19 slots; slot k is a zero-padded HH:MM with minutes 00 or 30, standing for 09:00 plus k half hours |
| DoctorPanel.GenerateTimeSlots | frontend/src/pages/DoctorPanel.jsx:86-95 | the nested loops with the `break` push exactly the slots of `TimeSlots` |
| DoctorPanel.HourSlotsShape | frontend/src/pages/DoctorPanel.jsx:89-91 | an hour yields HH:00 and HH:30, and 18 only 18:00 |
| DoctorPanel.SlotsBeforeShape | frontend/src/pages/DoctorPanel.jsx:88-91 | the hours pushed so far yield two slots each, half an hour apart |
| DoctorPanel.SlotEnds | frontend/src/pages/DoctorPanel.jsx:86-95 | the first slot is 09:00 and the last 18:00 |
| DoctorPanel.SlotsPrefix | frontend/src/pages/DoctorPanel.jsx:88-92 | earlier hours' slots come first |
| DoctorPanel.SlotsIncrease | frontend/src/pages/DoctorPanel.jsx:88-90 | slots strictly increase, none repeats, and none is after 18:00 |
| DoctorPanel.ScheduleString | frontend/src/pages/DoctorPanel.jsx:65 | the date, a space, the time, then ":00" |
| DoctorPanel.ScheduleStringIsTruthy | frontend/src/pages/DoctorPanel.jsx:65-71 | the date sent with an accept is never empty, so the server's date check passes |
| DoctorPanel.Panel.constructor | frontend/src/pages/DoctorPanel.jsx:39-60 | the panel starts with no selection, a closed dialog and nothing posted |
| DoctorPanel.Panel.HandleAppointmentAction | frontend/src/pages/DoctorPanel.jsx:39-57 | accept only records the id and opens the dialog; any other action is posted at once, then alerts or sets the error |
| DoctorPanel.Panel.HandleScheduleConfirm | frontend/src/pages/DoctorPanel.jsx:59-84 | an empty date or time only alerts; otherwise it posts accept with the schedule string, then clears the dialog on success |
| DoctorPanel.AcceptThenSchedule | frontend/src/pages/DoctorPanel.jsx:39-84 | accept, pick a slot, confirm: exactly one post, an accept for that request with "date HH:MM:00" |
| ProfileForm.Entry.constructor | frontend/src/components/DoctorProfileForm.jsx:43 | an entry holds the three given fields |
| ProfileForm.ValuesOf | frontend/src/components/DoctorProfileForm.jsx:11 | the values of the entries, one per entry, in order |
| ProfileForm.Form.constructor | frontend/src/components/DoctorProfileForm.jsx:9-11 | the state starts from the profile: missing text is "" and missing availability is [] |
| ProfileForm.Form.Reset | frontend/src/components/DoctorProfileForm.jsx:15-19 | the effect resets the fields the same way when the profile changes |
| ProfileForm.Form.Add | frontend/src/components/DoctorProfileForm.jsx:42-44 | appends a fresh Monday 09:00-17:00 entry and leaves the earlier ones and the text fields unchanged |
| ProfileForm.Form.Remove | frontend/src/components/DoctorProfileForm.jsx:46-48 | drops exactly the indexed entry and keeps the rest in order; an index outside the list changes nothing |
| ProfileForm.Form.Change | frontend/src/components/DoctorProfileForm.jsx:36-40 | changes the indexed entry's field in place; it succeeds iff the index is in range; entries that are other objects are unchanged |
| ProfileForm.ChangeTouchesOnePosition | frontend/src/components/DoctorProfileForm.jsx:36-40 | with distinct entry objects, a change affects one position only |
| ProfileForm.Form.Formatted | frontend/src/components/DoctorProfileForm.jsx:55-59 | one renamed item per entry, same length and order |
| ProfileForm.FormatAll | frontend/src/components/DoctorProfileForm.jsx:55-59 | the rename map over values, same length and order |
| ProfileForm.FormattedIsAccepted | frontend/src/components/DoctorProfileForm.jsx:55-62 | the posted list always commits on the server, which stores exactly the entries with three non-empty fields |
| PatientDashboard.CardMessage | frontend/src/pages/PatientDashboard.jsx:7-24 | definition: the card's message by status; its property is `PatientDashboard.CardMessageFollowsStatus` |
| PatientDashboard.CardMessageFollowsStatus | frontend/src/pages/PatientDashboard.jsx:7-24 | the accepted message with the doctor's email iff accepted; the rejected text iff rejected; the pending text for every other status |
| PatientDashboard.AcceptedRows | frontend/src/pages/PatientDashboard.jsx:156 | definition: the filter on status `accepted` |
| PatientDashboard.RejectedRows | frontend/src/pages/PatientDashboard.jsx:157 | definition: the filter on status `rejected` |
| PatientDashboard.PendingRows | frontend/src/pages/PatientDashboard.jsx:158 | definition: the filter on status `pending` |
| PatientDashboard.SectionsAreByStatus | frontend/src/pages/PatientDashboard.jsx:156-158 | each section holds exactly the rows with its status; no row is in two sections |
| PatientDashboard.SectionsKeepOrder | frontend/src/pages/PatientDashboard.jsx:156-158 | each section keeps the order of the fetched list |
| PatientDashboard.SectionsCoverTheList | frontend/src/pages/PatientDashboard.jsx:156-158 | with stored statuses only, the section sizes add up to the list's |
| PatientDashboard.ServerRowsHaveStoredStatus | frontend/src/pages/PatientDashboard.jsx:156-158 | the server's list has only stored statuses, so every card lands in one section |
| PatientDashboard.Fetched | frontend/src/pages/PatientDashboard.jsx:108-125 | a failure sets the error; a success replaces the list; the flag is raised iff a row is accepted and never lowered |
| PatientDashboard.UserChanged | frontend/src/pages/PatientDashboard.jsx:88-94 | a patient's page fetches; every other page only stops loading |
| PatientDashboard.OnlyPatientsFetch | frontend/src/pages/PatientDashboard.jsx:88-94 | a non-patient's page never loads appointments |
| PatientDashboard.TimerFired | frontend/src/pages/PatientDashboard.jsx:96-106 | the timer lowers the flag and nothing else |
| PatientDashboard.RejectedBanner | frontend/src/pages/PatientDashboard.jsx:211 | shown iff a row is rejected, with the rejected count |
| PatientDashboard.AcceptedBanner | frontend/src/pages/PatientDashboard.jsx:226 | shown iff the flag is up and a row is accepted, with the accepted count |
| PatientDashboard.AcceptedBannerAfterFetch | frontend/src/pages/PatientDashboard.jsx:115-118 | a fetch with an accepted row shows the banner, and the timer hides it |
| PatientDashboard.PageView | frontend/src/pages/PatientDashboard.jsx:126-158 | loading first, then the error, then the role notice; the dashboard iff loaded, no error and a patient |
| PatientDashboard.NonPatientIsRestricted | frontend/src/pages/PatientDashboard.jsx:88-94 | a non-patient ends at the restriction notice without a fetch |

## Left out

- Password hashing and tokens. bcrypt is outside the model: the hash is a parameter of `Register` and the compare is a parameter of `Login`. JWT signing and verification are function parameters; a token's expiry is part of what `verify` decides.
- Cookie options beyond the name, value and lifetime, CORS and the Express set-up in `backend/server.js`. These are transport. `backend/config/db.js` is not part of this model.
- The 500 responses of the `catch` blocks are left out except for availability replace. Elsewhere a database failure is not modelled: every statement succeeds.
- Availability replace: an insert fails only at the entry named by the `fault` parameter, standing for a database error.
- `updated_at` columns: no handler reads them.
- `CURRENT_TIMESTAMP` is a counter that grows with each insert, so `created_at` is strictly increasing in table order.
- PostgreSQL collation: `ORDER BY name` and `ORDER BY day_of_week` use code-point order on the strings. IDs whose query text is not an integer are not modelled, and every id is an `int`.
- `MainRoutes.SearchDoctors`: `ILIKE` lower-cases ASCII letters only. The `%`, `_` and `\` in user input act as wildcards and escapes, as they do in the source. Rows come in table order, because the query has no `ORDER BY`.
- `MainRoutes.InsertBlocks`: the `Promise.all` of concurrent inserts is a sequential loop that stops at the first failure. Rows inserted before a failure are undone by the rollback either way.
- Concurrency between requests, such as two accepts on one row, is left out; the model is sequential.
- `AppRoutes.ResolveIn`: paths are compared exactly. React Router's case-insensitive matching and trailing slashes are not modelled.
- `Home.MoodIndex`: the slider value is a real number; a `NaN` from the input is not modelled.
- `DoctorPanel.Pad2Value`: `padStart` is modelled for numbers below 100, which covers every hour and minute the loop produces.
- `PatientDashboard.CardMessageFollowsStatus`: the browser's `toLocaleString` of the date is a parameter.
- Alerts other than those the doctor panel records, rendering, animation and the modal's markup are left out.
- The refetch after a doctor action is left out.
- The ten-second timer is the explicit event `PatientDashboard.TimerFired`, not a clock.
- `ProfileForm.Form.Change`: entries are objects shared with `profileData`, as in the source. The model does not track other holders of those objects.
- `AppRoutes.ChatbotPagesAreOpen`: `frontend/src/pages/Chatbots/DoctorSuggestionBot.jsx` is comments only and exports nothing, so the default import at `frontend/src/App.jsx:23` binds no component. `DoctorSuggestionPage` stands for a page the program does not define, and the lemma states only that its route is open and routes to that element.
- The chatbot pages, Navbar, Login, Register, SeekExpert, the admin dashboard components, AIAssist, NotFound and `temp/temp.js` are left out. They are presentation or calls to outside services.
