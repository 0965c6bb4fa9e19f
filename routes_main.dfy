/**
 * The patient and doctor routes (backend/routes/main.js). Every handler runs
 * behind `protect`, so its `actor` is the stored record of the caller
 * (`SessionUser`). Reads are functions of a snapshot of the tables; writes
 * are methods on the store.
 */
module MainRoutes {
  import opened Wrappers
  import opened Collections
  import opened Strings
  import opened Schema
  import opened Tables
  import opened Consistency
  import opened Db
  import opened Middleware

  // ============================================================ doctor search

  const SEARCH_PATIENTS_ONLY: string := "Access denied. Only patients can seek expert help."
  const SEARCH_NEEDS_PLACE: string := "City and country are required for search."

  /** The public columns the search selects. */
  datatype DoctorCard = DoctorCard(id: int, name: string, city: Option<string>, country: Option<string>)

  function CardOf(u: User): DoctorCard {
    DoctorCard(u.id, u.name, u.city, u.country)
  }

  /** `role = 'doctor' AND is_doctor_verified = true AND city ILIKE '%city%'
      AND country ILIKE '%country%'`; a NULL column matches no pattern. */
  predicate SearchHit(u: User, city: string, country: string) {
    && u.role == DOCTOR && u.verified
    && u.city.Some? && ILike(u.city.value, "%" + city + "%")
    && u.country.Some? && ILike(u.country.value, "%" + country + "%")
  }

  function Hits(city: string, country: string): User -> bool {
    (u: User) => SearchHit(u, city, country)
  }

  /** `GET /doctors?city=&country=`. The query has no ORDER BY; the rows come
      in table order here, and the contract promises no order. */
  function SearchDoctors(users: seq<User>, actor: PublicUser, city: Option<string>, country: Option<string>): (r: Response<seq<DoctorCard>>)
    ensures actor.role != PATIENT ==> r == Fail(403, SEARCH_PATIENTS_ONLY)
    ensures actor.role == PATIENT && (!Truthy(city) || !Truthy(country)) ==> r == Fail(400, SEARCH_NEEDS_PLACE)
    ensures r.Ok? <==> actor.role == PATIENT && Truthy(city) && Truthy(country)
    ensures r.Ok? ==> r.code == 200
    ensures actor.role == PATIENT && Truthy(city) && Truthy(country) ==>
      && (forall u :: u in users && SearchHit(u, city.value, country.value) ==> CardOf(u) in r.body)
      && (forall c :: c in r.body ==> exists u :: u in users && SearchHit(u, city.value, country.value) && CardOf(u) == c)
  {
    if actor.role != PATIENT then Fail(403, SEARCH_PATIENTS_ONLY)
    else if !Truthy(city) || !Truthy(country) then Fail(400, SEARCH_NEEDS_PLACE)
    else
      var found := Filter(users, Hits(city.value, country.value));
      var cards := Map(found, CardOf);
      MapMembers(found, CardOf);
      Ok(200, cards)
  }

  /** For a query without `%`, `_` or `\`, a doctor is listed exactly when the
      city and the country each contain the query, ignoring ASCII case. */
  lemma SearchByPlainText(u: User, city: string, country: string)
    requires Literal(city) && Literal(country)
    requires u.city.Some? && u.country.Some?
    ensures SearchHit(u, city, country) <==>
      && u.role == DOCTOR && u.verified
      && Contains(Lower(u.city.value), Lower(city))
      && Contains(Lower(u.country.value), Lower(country))
  {
    SearchMatchIsSubstring(u.city.value, city);
    SearchMatchIsSubstring(u.country.value, country);
  }

  /** Wildcards in the query are not escaped: searching for `%` lists every
      verified doctor that has a city and a country. */
  lemma SearchWildcardListsAll(u: User)
    requires u.role == DOCTOR && u.verified && u.city.Some? && u.country.Some?
    ensures SearchHit(u, "%", "%")
  {
    PercentQueryMatchesAll(u.city.value);
    PercentQueryMatchesAll(u.country.value);
  }

  // ====================================================== appointment request

  const CREATE_PATIENTS_ONLY: string := "Access denied. Only patients can request appointments."
  const NO_MESSAGE: string := "No message provided."

  /** The 201 body: a message and the row `RETURNING *` gave back. */
  datatype Created = Created(message: string, appointment: Appointment)

  /** `doctorId` passes `!doctorId`: present and not the number 0. */
  predicate IdGiven(doctorId: Option<int>) {
    doctorId.Some? && doctorId.value != 0
  }

  /**
   * `POST /appointments`: a patient asks a verified doctor for an appointment.
   * Refusals (403, 400, 404) leave the tables as they were; success inserts
   * exactly one pending row for this patient and that doctor.
   */
  method CreateAppointment(db: Store, actor: PublicUser, doctorId: Option<int>, requestMessage: Option<string>)
    returns (r: Response<Created>)
    requires db.Valid() && SessionUser(db.users, actor)
    modifies db
    ensures db.Valid() && db.clientsInUse == old(db.clientsInUse)
    ensures actor.role != PATIENT ==> r == Fail(403, CREATE_PATIENTS_ONLY)
    ensures actor.role == PATIENT && !IdGiven(doctorId) ==> r == Fail(400, "Doctor ID is required.")
    ensures actor.role == PATIENT && IdGiven(doctorId) && !VerifiedDoctor(old(db.users), doctorId.value) ==>
      r == Fail(404, "Doctor not found or not verified.")
    ensures r.Ok? <==> actor.role == PATIENT && IdGiven(doctorId) && VerifiedDoctor(old(db.users), doctorId.value)
    ensures r.Fail? ==> db.Snap() == old(db.Snap())
    ensures r.Ok? ==>
      var a := Appointment(old(db.nextAppointmentId), actor.id, doctorId.value, Pending,
                           OrElse(requestMessage, NO_MESSAGE), None, old(db.clock));
      && db.Snap() == Requested(old(db.Snap()), a)
      && r == Ok(201, Created("Appointment request sent successfully.", a))
  {
    if actor.role != PATIENT {
      return Fail(403, CREATE_PATIENTS_ONLY);
    }
    if !IdGiven(doctorId) {
      return Fail(400, "Doctor ID is required.");
    }
    if !VerifiedDoctor(db.users, doctorId.value) {
      return Fail(404, "Doctor not found or not verified.");
    }
    var a := db.InsertAppointment(actor.id, doctorId.value, OrElse(requestMessage, NO_MESSAGE));
    r := Ok(201, Created("Appointment request sent successfully.", a));
  }

  // ============================================================ doctor queue

  /** One row of the doctor's queue: the request joined with its patient. */
  datatype QueueRow = QueueRow(
    appointmentId: int, requestMessage: string, createdAt: nat,
    patientId: int, patientName: string, patientEmail: string)

  function QueueRowOf(a: Appointment, patient: User): QueueRow {
    QueueRow(a.id, a.requestMessage, a.createdAt, patient.id, patient.name, patient.email)
  }

  /** `GET /doctor/appointments`: the caller's pending requests, oldest first. */
  function DoctorQueue(s: Snapshot, actor: PublicUser): (r: Response<seq<QueueRow>>)
    ensures actor.role != DOCTOR ==> r == Fail(403, DOCTOR_REQUIRED)
    ensures actor.role == DOCTOR ==> r.Ok? && r.code == 200
  {
    if actor.role != DOCTOR then Fail(403, DOCTOR_REQUIRED)
    else Ok(200, Join(s.users, PendingFor(s.appointments, actor.id), PatientIdOf, QueueRowOf))
  }

  /** In a consistent store the queue holds one row for each pending request
      of the caller, and nothing else, ordered by `created_at` ascending. */
  lemma DoctorQueueIsPendingOldestFirst(s: Snapshot, actor: PublicUser)
    requires Consistent(s) && actor.role == DOCTOR
    ensures var rows := DoctorQueue(s, actor).body;
      var pending := PendingFor(s.appointments, actor.id);
      && |rows| == |pending|
      && (forall i :: 0 <= i < |rows| ==>
            && rows[i].appointmentId == pending[i].id && rows[i].createdAt == pending[i].createdAt
            && rows[i].requestMessage == pending[i].requestMessage && rows[i].patientId == pending[i].patientId
            && FindUser(s.users, pending[i].patientId).Some?
            && rows[i].patientName == FindUser(s.users, pending[i].patientId).value.name
            && rows[i].patientEmail == FindUser(s.users, pending[i].patientId).value.email)
      && (forall i, j :: 0 <= i < j < |rows| ==> rows[i].createdAt < rows[j].createdAt)
  {
    var pending := PendingFor(s.appointments, actor.id);
    forall i | 0 <= i < |pending| ensures FindUser(s.users, PatientIdOf(pending[i])).Some? {
      assert AppointmentOk(s.users, pending[i]);
    }
    JoinAll(s.users, pending, PatientIdOf, QueueRowOf);
    FilterPairwise(s.appointments, PendingOf(actor.id), AppointmentsBefore);
    var rows := DoctorQueue(s, actor).body;
    forall i, j | 0 <= i < j < |rows| ensures rows[i].createdAt < rows[j].createdAt {
      assert AppointmentsBefore(pending[i], pending[j]);
    }
  }

  // ========================================================= doctor decisions

  const ACCEPT_NEEDS_DATE: string := "Appointment date and time are required for acceptance."

  /**
   * `POST /doctor/appointment/:id/action`. Every statement is restricted by
   * `doctor_id = actor`, so a doctor can only touch their own rows; the
   * success message is sent whether or not a row matched.
   */
  method AppointmentAction(db: Store, actor: PublicUser, appointmentId: int,
                           action: Option<string>, appointmentDate: Option<string>)
    returns (r: Response<string>)
    requires db.Valid() && SessionUser(db.users, actor)
    modifies db
    ensures db.Valid() && db.clientsInUse == old(db.clientsInUse)
    ensures actor.role != DOCTOR ==> r == Fail(403, DOCTOR_REQUIRED) && db.Snap() == old(db.Snap())
    ensures actor.role == DOCTOR && action == Some("delete") ==>
      r == Ok(200, "Appointment request deleted.") &&
      db.Snap() == old(db.Snap()).(appointments := DeleteOwned(old(db.appointments), appointmentId, actor.id))
    ensures actor.role == DOCTOR && action == Some("reject") ==>
      r == Ok(200, "Appointment request rejected.") &&
      db.Snap() == old(db.Snap()).(appointments := DecideOwned(old(db.appointments), appointmentId, actor.id, Reject))
    ensures actor.role == DOCTOR && action == Some("accept") && !Truthy(appointmentDate) ==>
      r == Fail(400, ACCEPT_NEEDS_DATE) && db.Snap() == old(db.Snap())
    ensures actor.role == DOCTOR && action == Some("accept") && Truthy(appointmentDate) ==>
      r == Ok(200, "Appointment accepted and scheduled.") &&
      db.Snap() == old(db.Snap()).(appointments :=
        DecideOwned(old(db.appointments), appointmentId, actor.id, Accept(appointmentDate.value)))
    ensures actor.role == DOCTOR && action !in {Some("delete"), Some("reject"), Some("accept")} ==>
      r == Fail(400, "Invalid action specified.") && db.Snap() == old(db.Snap())
  {
    if actor.role != DOCTOR {
      return Fail(403, DOCTOR_REQUIRED);
    }
    if action == Some("delete") {
      db.DeleteAppointment(appointmentId, actor.id);
      r := Ok(200, "Appointment request deleted.");
    } else if action == Some("reject") {
      db.UpdateAppointment(appointmentId, actor.id, Reject);
      r := Ok(200, "Appointment request rejected.");
    } else if action == Some("accept") {
      if !Truthy(appointmentDate) {
        return Fail(400, ACCEPT_NEEDS_DATE);
      }
      db.UpdateAppointment(appointmentId, actor.id, Accept(appointmentDate.value));
      r := Ok(200, "Appointment accepted and scheduled.");
    } else {
      r := Fail(400, "Invalid action specified.");
    }
  }

  /** What an accept writes into the row it matches: accepted, with the date. */
  lemma AcceptStoresTheDate(appts: seq<Appointment>, id: int, doctorId: int, date: string, i: int)
    requires 0 <= i < |appts| && Owned(appts[i], id, doctorId)
    ensures DecideOwned(appts, id, doctorId, Accept(date))[i].status == Accepted
    ensures DecideOwned(appts, id, doctorId, Accept(date))[i].appointmentDate == Some(date)
    ensures DecideOwned(appts, id, doctorId, Accept(date))[i].patientId == appts[i].patientId
  {
  }

  /** A doctor's delete removes at most the one row with that id, and only if
      it is theirs: every other doctor's rows survive, in order. */
  lemma DeleteKeepsOthersRows(appts: seq<Appointment>, id: int, doctorId: int, other: int)
    requires other != doctorId
    ensures Filter(DeleteOwned(appts, id, doctorId), DoctorOf(other)) == Filter(appts, DoctorOf(other))
  {
    DeleteKeepsOthersRowsAt(appts, id, doctorId, other);
  }

  function DoctorOf(doctorId: int): Appointment -> bool {
    (a: Appointment) => a.doctorId == doctorId
  }

  lemma {:induction false} DeleteKeepsOthersRowsAt(appts: seq<Appointment>, id: int, doctorId: int, other: int)
    requires other != doctorId
    ensures Filter(Filter(appts, NotOwned(id, doctorId)), DoctorOf(other)) == Filter(appts, DoctorOf(other))
  {
    if appts != [] {
      var keep := NotOwned(id, doctorId);
      var head: seq<Appointment> := if keep(appts[0]) then [appts[0]] else [];
      assert Filter(appts, keep) == head + Filter(appts[1..], keep);
      FilterConcat(head, Filter(appts[1..], keep), DoctorOf(other));
      DeleteKeepsOthersRowsAt(appts[1..], id, doctorId, other);
    }
  }

  // ========================================================== doctor profile

  /** One availability row as the profile read selects it. */
  datatype DayBlock = DayBlock(dayOfWeek: string, startTime: string, endTime: string)

  function DayBlockOf(b: AvailabilityRow): DayBlock {
    DayBlock(b.dayOfWeek, b.startTime, b.endTime)
  }

  function DayKey(d: DayBlock): string { d.dayOfWeek }

  /** The body of `GET /doctor/profile`: `req.user`, the profile row (or `{}`)
      and the availability ordered by the day's name. */
  datatype ProfileView = ProfileView(user: PublicUser, profile: Option<ProfileRow>, availability: seq<DayBlock>)

  function DoctorProfile(s: Snapshot, actor: PublicUser): (r: Response<ProfileView>)
    ensures actor.role != DOCTOR ==> r == Fail(403, DOCTOR_REQUIRED)
    ensures actor.role == DOCTOR ==> r.Ok? && r.code == 200 && r.body.user == actor
    ensures r.Ok? ==>
      && (r.body.profile.None? <==> ProfilesOf(s.profiles, actor.id) == [])
      && (r.body.profile.Some? ==> r.body.profile.value in s.profiles && r.body.profile.value.userId == actor.id)
      && SortedBy(r.body.availability, DayKey)
      && multiset(r.body.availability) == multiset(Map(BlocksOf(s.availability, actor.id), DayBlockOf))
  {
    if actor.role != DOCTOR then Fail(403, DOCTOR_REQUIRED)
    else
      var mine := ProfilesOf(s.profiles, actor.id);
      var profile := if mine == [] then None else Some(mine[0]);
      Ok(200, ProfileView(actor, profile, SortBy(Map(BlocksOf(s.availability, actor.id), DayBlockOf), DayKey)))
  }

  /** After the doctor's profile upsert, the profile read returns the saved values. */
  lemma ProfileReadAfterUpsert(s: Snapshot, actor: PublicUser, profession: string, clinicAddress: string)
    requires Consistent(s) && actor.role == DOCTOR
    ensures DoctorProfile(s.(profiles := UpsertProfile(s.profiles, actor.id, profession, clinicAddress)), actor).body.profile ==
      Some(ProfileRow(actor.id, profession, clinicAddress))
  {
    ExactlyOneProfile(s.profiles, actor.id, profession, clinicAddress);
  }

  // ===================================================== patient appointments

  const DASHBOARD_PATIENTS_ONLY: string := "Access denied. Only patients can view this dashboard."

  /** One row of the patient's list: the appointment joined with its doctor. */
  datatype PatientRow = PatientRow(
    appointmentId: int, status: string, appointmentDate: Option<string>, requestMessage: string,
    doctorName: string, doctorEmail: string, doctorCity: Option<string>)

  function PatientRowOf(a: Appointment, doctor: User): PatientRow {
    PatientRow(a.id, StatusName(a.status), a.appointmentDate, a.requestMessage, doctor.name, doctor.email, doctor.city)
  }

  /** `GET /patient/appointments`: all the caller's appointments, newest first. */
  function PatientAppointments(s: Snapshot, actor: PublicUser): (r: Response<seq<PatientRow>>)
    ensures actor.role != PATIENT ==> r == Fail(403, DASHBOARD_PATIENTS_ONLY)
    ensures actor.role == PATIENT ==> r.Ok? && r.code == 200
  {
    if actor.role != PATIENT then Fail(403, DASHBOARD_PATIENTS_ONLY)
    else Ok(200, Join(s.users, Reverse(OfPatient(s.appointments, actor.id)), DoctorIdOf, PatientRowOf))
  }

  /** In a consistent store the list holds one row for each appointment of the
      caller, and nothing else, ordered by `created_at` descending. */
  lemma PatientListIsNewestFirst(s: Snapshot, actor: PublicUser)
    requires Consistent(s) && actor.role == PATIENT
    ensures var rows := PatientAppointments(s, actor).body;
      var newest := Reverse(OfPatient(s.appointments, actor.id));
      && |rows| == |newest|
      && (forall i :: 0 <= i < |rows| ==>
            && rows[i].appointmentId == newest[i].id && rows[i].status == StatusName(newest[i].status)
            && rows[i].appointmentDate == newest[i].appointmentDate && rows[i].requestMessage == newest[i].requestMessage
            && FindUser(s.users, newest[i].doctorId).Some?
            && rows[i].doctorName == FindUser(s.users, newest[i].doctorId).value.name
            && rows[i].doctorEmail == FindUser(s.users, newest[i].doctorId).value.email
            && rows[i].doctorCity == FindUser(s.users, newest[i].doctorId).value.city)
      && (forall i, j :: 0 <= i < j < |newest| ==> newest[i].createdAt > newest[j].createdAt)
  {
    var mine := OfPatient(s.appointments, actor.id);
    var newest := Reverse(mine);
    assert PatientAppointments(s, actor).body == Join(s.users, newest, DoctorIdOf, PatientRowOf);
    NewestRowsResolve(s, mine);
    JoinAll(s.users, newest, DoctorIdOf, PatientRowOf);
    assert mine == Filter(s.appointments, RequestedBy(actor.id));
    NewestFirst(s.appointments, RequestedBy(actor.id));
  }

  // ========================================================== profile update

  const PROFILE_FIELDS_REQUIRED: string := "Profession and Clinic Address are required."

  /** The body of a successful profile update. */
  datatype ProfileSaved = ProfileSaved(message: string, profile: ProfileRow)

  /** `POST /doctor/profile/update`: blank fields are refused; otherwise the
      doctor's single profile row is inserted or overwritten. */
  method UpdateProfile(db: Store, actor: PublicUser, profession: Option<string>, clinicAddress: Option<string>)
    returns (r: Response<ProfileSaved>)
    requires db.Valid() && SessionUser(db.users, actor)
    modifies db
    ensures db.Valid() && db.clientsInUse == old(db.clientsInUse)
    ensures actor.role != DOCTOR ==> r == Fail(403, DOCTOR_REQUIRED)
    ensures actor.role == DOCTOR && (!Truthy(profession) || !Truthy(clinicAddress)) ==> r == Fail(400, PROFILE_FIELDS_REQUIRED)
    ensures r.Ok? <==> actor.role == DOCTOR && Truthy(profession) && Truthy(clinicAddress)
    ensures r.Fail? ==> db.Snap() == old(db.Snap())
    ensures r.Ok? ==>
      var row := ProfileRow(actor.id, profession.value, clinicAddress.value);
      && db.Snap() == old(db.Snap()).(profiles := UpsertProfile(old(db.profiles), actor.id, profession.value, clinicAddress.value))
      && ProfilesOf(db.profiles, actor.id) == [row]
      && r == Ok(200, ProfileSaved("Profile updated successfully.", row))
  {
    if actor.role != DOCTOR {
      return Fail(403, DOCTOR_REQUIRED);
    }
    if !Truthy(profession) || !Truthy(clinicAddress) {
      return Fail(400, PROFILE_FIELDS_REQUIRED);
    }
    ExactlyOneProfile(db.profiles, actor.id, profession.value, clinicAddress.value);
    db.UpsertDoctorProfile(actor.id, profession.value, clinicAddress.value);
    r := Ok(200, ProfileSaved("Profile updated successfully.", ProfileRow(actor.id, profession.value, clinicAddress.value)));
  }

  // ===================================================== availability replace

  const AVAILABILITY_NOT_ARRAY: string := "Availability must be an array."
  const AVAILABILITY_FAILED: string := "Server error setting availability."

  /** One element of the submitted array; `null` and `undefined` elements are
      `None` in the enclosing sequence. */
  datatype Item = Item(dayOfWeek: Option<string>, startTime: Option<string>, endTime: Option<string>)

  /** `item.dayOfWeek && item.startTime && item.endTime`. */
  predicate Complete(it: Item) {
    Truthy(it.dayOfWeek) && Truthy(it.startTime) && Truthy(it.endTime)
  }

  function RowOf(doctorId: int, it: Item): AvailabilityRow
    requires Complete(it)
  {
    AvailabilityRow(doctorId, it.dayOfWeek.value, it.startTime.value, it.endTime.value)
  }

  /** The rows the inserts write, one per complete item, in item order. */
  function BlocksFor(doctorId: int, items: seq<Option<Item>>): (r: seq<AvailabilityRow>)
    ensures forall b :: b in r ==> b.doctorId == doctorId
  {
    if items == [] then []
    else
      var last := items[|items| - 1];
      BlocksFor(doctorId, items[..|items| - 1]) +
        (if last.Some? && Complete(last.value) then [RowOf(doctorId, last.value)] else [])
  }

  /** A block is written exactly when a complete item asks for it: malformed
      items are skipped, nothing else is added. */
  lemma {:induction false} BlocksForExact(doctorId: int, items: seq<Option<Item>>, b: AvailabilityRow)
    ensures b in BlocksFor(doctorId, items) <==>
      exists k :: 0 <= k < |items| && items[k].Some? && Complete(items[k].value) && RowOf(doctorId, items[k].value) == b
  {
    if items != [] {
      var init := items[..|items| - 1];
      BlocksForExact(doctorId, init, b);
      if exists k :: 0 <= k < |init| && init[k].Some? && Complete(init[k].value) && RowOf(doctorId, init[k].value) == b {
        var k :| 0 <= k < |init| && init[k].Some? && Complete(init[k].value) && RowOf(doctorId, init[k].value) == b;
        assert items[k] == init[k];
      }
      if exists k :: 0 <= k < |items| && items[k].Some? && Complete(items[k].value) && RowOf(doctorId, items[k].value) == b {
        var k :| 0 <= k < |items| && items[k].Some? && Complete(items[k].value) && RowOf(doctorId, items[k].value) == b;
        if k < |init| {
          assert init[k] == items[k];
        }
      }
    }
  }

  /** One more item adds its row, if it is complete, at the end. */
  lemma BlocksForStep(doctorId: int, items: seq<Option<Item>>, i: nat)
    requires i < |items|
    ensures BlocksFor(doctorId, items[..i + 1]) == BlocksFor(doctorId, items[..i]) +
      (if items[i].Some? && Complete(items[i].value) then [RowOf(doctorId, items[i].value)] else [])
  {
    assert items[..i + 1][..i] == items[..i];
  }

  /** The transaction commits: no element is `null` or `undefined` (reading a
      field of either throws; any other value, such as a number, only reads
      `undefined` fields and is skipped), and the insert that `fault` names, if
      any, is not issued. */
  predicate Commits(items: seq<Option<Item>>, fault: Option<nat>) {
    && (forall k :: 0 <= k < |items| ==> items[k].Some?)
    && !(fault.Some? && fault.value < |items| && items[fault.value].Some? && Complete(items[fault.value].value))
  }

  /** The first `n` items neither throw nor hit the failing insert. */
  predicate CommitsUpTo(items: seq<Option<Item>>, fault: Option<nat>, n: nat)
    requires n <= |items|
  {
    && (forall k :: 0 <= k < n ==> items[k].Some?)
    && !(fault.Some? && fault.value < n && items[fault.value].Some? && Complete(items[fault.value].value))
  }

  lemma CommitsStep(items: seq<Option<Item>>, fault: Option<nat>, n: nat)
    requires n < |items| && CommitsUpTo(items, fault, n)
    requires items[n].Some? && !(fault == Some(n) && Complete(items[n].value))
    ensures CommitsUpTo(items, fault, n + 1)
  {
  }

  /**
   * The `availability.map(...)` of inserts awaited by `Promise.all`, run one
   * after another on the transaction's client. It stops at the first failure:
   * a `null` element (reading its field throws) or the insert `fault` names.
   */
  method InsertBlocks(db: Store, doctorId: int, items: seq<Option<Item>>, fault: Option<nat>) returns (failed: bool)
    requires db.Valid() && UserIs(db.users, doctorId, DOCTOR)
    modifies db
    ensures db.Valid() && db.clientsInUse == old(db.clientsInUse)
    ensures failed <==> !Commits(items, fault)
    ensures db.Snap() == old(db.Snap()).(availability := db.availability)
    ensures !failed ==> db.availability == old(db.availability) + BlocksFor(doctorId, items)
  {
    var i := 0;
    while i < |items|
      invariant 0 <= i <= |items|
      invariant db.Valid() && db.clientsInUse == old(db.clientsInUse)
      invariant db.Snap() == old(db.Snap()).(availability := db.availability)
      invariant db.users == old(db.users)
      invariant db.availability == old(db.availability) + BlocksFor(doctorId, items[..i])
      invariant CommitsUpTo(items, fault, i)
    {
      if items[i].None? {
        return true;                                             // TypeError on `item.dayOfWeek`
      }
      var it := items[i].value;
      if Complete(it) {
        if fault == Some(i) {
          return true;                                           // the INSERT is rejected
        }
        db.InsertAvailability(RowOf(doctorId, it));
      }
      BlocksForStep(doctorId, items, i);
      CommitsStep(items, fault, i);
      i := i + 1;
    }
    assert items[..i] == items;
    return false;
  }

  /**
   * `POST /doctor/availability/set`. `availability` is `None` when the body's
   * field is not an array; `fault` names the item whose INSERT the database
   * rejects, if any. Inside one transaction the doctor's blocks are deleted
   * and the new ones inserted; a failure rolls everything back, and the
   * client goes back to the pool on every path.
   */
  method SetAvailability(db: Store, actor: PublicUser, availability: Option<seq<Option<Item>>>, fault: Option<nat>)
    returns (r: Response<string>)
    requires db.Valid() && SessionUser(db.users, actor)
    modifies db
    ensures db.Valid() && db.clientsInUse == old(db.clientsInUse)
    ensures actor.role != DOCTOR ==> r == Fail(403, DOCTOR_REQUIRED)
    ensures actor.role == DOCTOR && availability.None? ==> r == Fail(400, AVAILABILITY_NOT_ARRAY)
    ensures actor.role == DOCTOR && availability.Some? && !Commits(availability.value, fault) ==> r == Fail(500, AVAILABILITY_FAILED)
    ensures r.Ok? <==> actor.role == DOCTOR && availability.Some? && Commits(availability.value, fault)
    ensures r.Fail? ==> db.Snap() == old(db.Snap())
    ensures r.Ok? ==>
      && r == Ok(200, "Availability updated successfully.")
      && db.Snap() == old(db.Snap()).(availability :=
           WithoutBlocksOf(old(db.availability), actor.id) + BlocksFor(actor.id, availability.value))
  {
    if actor.role != DOCTOR {
      return Fail(403, DOCTOR_REQUIRED);
    }
    if availability.None? {
      return Fail(400, AVAILABILITY_NOT_ARRAY);
    }
    db.Connect();
    var begin := db.Snap();                                       // BEGIN
    db.DeleteAvailabilityOf(actor.id);
    var failed := InsertBlocks(db, actor.id, availability.value, fault);
    if failed {
      db.Rollback(begin);                                         // ROLLBACK
      r := Fail(500, AVAILABILITY_FAILED);
    } else {
      r := Ok(200, "Availability updated successfully.");         // COMMIT
    }
    db.Release();                                                 // finally
  }

  /** After a committed replace the doctor's blocks are exactly the rows of the
      complete items, in order, and every other doctor keeps theirs. */
  lemma AvailabilityReplaced(rows: seq<AvailabilityRow>, doctorId: int, items: seq<Option<Item>>, other: int)
    requires other != doctorId
    ensures BlocksOf(WithoutBlocksOf(rows, doctorId) + BlocksFor(doctorId, items), doctorId) == BlocksFor(doctorId, items)
    ensures BlocksOf(WithoutBlocksOf(rows, doctorId) + BlocksFor(doctorId, items), other) == BlocksOf(rows, other)
  {
    ReplaceBlocks(rows, doctorId, BlocksFor(doctorId, items), other);
  }
}
