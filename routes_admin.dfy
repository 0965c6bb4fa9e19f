/**
 * The administrator routes (backend/routes/admin.js). Each runs behind
 * `protect` and then `adminProtect`, which refuses every non-admin with 403
 * before any statement runs.
 */
module AdminRoutes {
  import opened Wrappers
  import opened Collections
  import opened Schema
  import opened Tables
  import opened Consistency
  import opened Db
  import opened Middleware

  /** `adminProtect` lets the request through. */
  predicate IsAdmin(actor: PublicUser) {
    actor.role == ADMIN
  }

  // =============================================================== dashboard

  /** A doctor waiting for verification, with the sign-up time. */
  datatype Applicant = Applicant(id: int, name: string, email: string, city: Option<string>, country: Option<string>, createdAt: nat)

  /** A user listed for management. */
  datatype Listed = Listed(id: int, name: string, email: string, city: Option<string>, country: Option<string>)

  datatype Dashboard = Dashboard(verificationList: seq<Applicant>, verifiedDoctors: seq<Listed>, allPatients: seq<Listed>)

  function ApplicantOf(u: User): Applicant {
    Applicant(u.id, u.name, u.email, u.city, u.country, u.createdAt)
  }

  function ListedOf(u: User): Listed {
    Listed(u.id, u.name, u.email, u.city, u.country)
  }

  function ListedName(l: Listed): string { l.name }

  /** `role = 'doctor' AND is_doctor_verified = false`. */
  predicate Awaiting(u: User) { u.role == DOCTOR && !u.verified }

  /** `role = 'doctor' AND is_doctor_verified = true`. */
  predicate Approved(u: User) { u.role == DOCTOR && u.verified }

  /** `role = 'patient'`. */
  predicate Patient(u: User) { u.role == PATIENT }

  /** `GET /admin/dashboard`: the doctors awaiting verification by sign-up
      time, the verified doctors by name, and every patient by name. */
  function AdminDashboard(s: Snapshot, actor: PublicUser): (r: Response<Dashboard>)
    ensures !IsAdmin(actor) ==> r == Fail(403, ADMIN_REQUIRED)
    ensures IsAdmin(actor) ==> r.Ok? && r.code == 200
    ensures r.Ok? ==>
      && SortedBy(r.body.verifiedDoctors, ListedName)
      && multiset(r.body.verifiedDoctors) == multiset(Map(Filter(s.users, Approved), ListedOf))
      && SortedBy(r.body.allPatients, ListedName)
      && multiset(r.body.allPatients) == multiset(Map(Filter(s.users, Patient), ListedOf))
  {
    if !IsAdmin(actor) then Fail(403, ADMIN_REQUIRED)
    else Ok(200, Dashboard(VerificationList(s.users), ByName(Filter(s.users, Approved)), ByName(Filter(s.users, Patient))))
  }

  /** `ORDER BY created_at ASC` over the unverified doctors. */
  function VerificationList(users: seq<User>): seq<Applicant> {
    Map(Filter(users, Awaiting), ApplicantOf)
  }

  /** `ORDER BY name ASC` over the selected users. */
  function ByName(selected: seq<User>): (r: seq<Listed>)
    ensures SortedBy(r, ListedName)
    ensures multiset(r) == multiset(Map(selected, ListedOf))
  {
    SortBy(Map(selected, ListedOf), ListedName)
  }

  /** The verification list holds exactly the unverified doctors, oldest
      sign-up first. */
  lemma VerificationListOldestFirst(s: Snapshot, actor: PublicUser)
    requires Consistent(s) && IsAdmin(actor)
    ensures var list := AdminDashboard(s, actor).body.verificationList;
      && (forall u :: u in s.users && Awaiting(u) ==> ApplicantOf(u) in list)
      && (forall i :: 0 <= i < |list| ==> exists u :: u in s.users && Awaiting(u) && ApplicantOf(u) == list[i])
      && (forall i, j :: 0 <= i < j < |list| ==> list[i].createdAt < list[j].createdAt)
  {
    assert AdminDashboard(s, actor).body.verificationList == VerificationList(s.users);
    ApplicantsAreTheWaiting(s.users);
  }

  lemma ApplicantsAreTheWaiting(users: seq<User>)
    requires Pairwise(users, UsersBefore)
    ensures var list := VerificationList(users);
      && (forall u :: u in users && Awaiting(u) ==> ApplicantOf(u) in list)
      && (forall i :: 0 <= i < |list| ==> exists u :: u in users && Awaiting(u) && ApplicantOf(u) == list[i])
      && (forall i, j :: 0 <= i < j < |list| ==> list[i].createdAt < list[j].createdAt)
  {
    EveryWaitingDoctorApplies(users);
    EveryApplicantWaits(users);
    ApplicantsBySignUp(users);
  }

  lemma EveryWaitingDoctorApplies(users: seq<User>)
    ensures forall u :: u in users && Awaiting(u) ==> ApplicantOf(u) in VerificationList(users)
  {
    var waiting := Filter(users, Awaiting);
    var list := VerificationList(users);
    forall u | u in users && Awaiting(u) ensures ApplicantOf(u) in list {
      var k :| 0 <= k < |users| && users[k] == u;
      var i :| 0 <= i < |waiting| && waiting[i] == u;
      assert list[i] == ApplicantOf(u);
    }
  }

  lemma EveryApplicantWaits(users: seq<User>)
    ensures var list := VerificationList(users);
      forall i :: 0 <= i < |list| ==> exists u :: u in users && Awaiting(u) && ApplicantOf(u) == list[i]
  {
    var waiting := Filter(users, Awaiting);
    var list := VerificationList(users);
    forall i | 0 <= i < |list| ensures exists u :: u in users && Awaiting(u) && ApplicantOf(u) == list[i] {
      assert waiting[i] in users && Awaiting(waiting[i]);
    }
  }

  lemma ApplicantsBySignUp(users: seq<User>)
    requires Pairwise(users, UsersBefore)
    ensures var list := VerificationList(users);
      forall i, j :: 0 <= i < j < |list| ==> list[i].createdAt < list[j].createdAt
  {
    var waiting := Filter(users, Awaiting);
    var list := VerificationList(users);
    FilterPairwise(users, Awaiting, UsersBefore);
    forall i, j | 0 <= i < j < |list| ensures list[i].createdAt < list[j].createdAt {
      assert UsersBefore(waiting[i], waiting[j]);
    }
  }

  /** The two doctor lists partition the doctors: a verified doctor is in the
      verified list and nowhere in the verification list, and the other way
      round for an unverified one. */
  lemma DoctorListsPartition(s: Snapshot, actor: PublicUser, u: User)
    requires Consistent(s) && IsAdmin(actor)
    requires u in s.users && u.role == DOCTOR
    ensures var d := AdminDashboard(s, actor).body;
      && (u.verified ==> ListedOf(u) in d.verifiedDoctors && forall a :: a in d.verificationList ==> a.id != u.id)
      && (!u.verified ==> ApplicantOf(u) in d.verificationList && forall l :: l in d.verifiedDoctors ==> l.id != u.id)
  {
    var d := AdminDashboard(s, actor).body;
    assert d.verificationList == VerificationList(s.users);
    assert d.verifiedDoctors == ByName(Filter(s.users, Approved));
    if u.verified {
      ListedIffSelected(s.users, Approved, u);
      forall a | a in d.verificationList ensures a.id != u.id {
        ApplicantIsWaiting(s.users, a, u);
      }
    } else {
      ApplicantsAreTheWaiting(s.users);
      forall l | l in d.verifiedDoctors ensures l.id != u.id {
        ListedIsSelected(s.users, Approved, l, u);
      }
    }
  }

  /** A selected user is listed. */
  lemma ListedIffSelected(users: seq<User>, keep: User -> bool, u: User)
    requires u in users && keep(u)
    ensures ListedOf(u) in ByName(Filter(users, keep))
  {
    var selected := Filter(users, keep);
    var listed := Map(selected, ListedOf);
    var k :| 0 <= k < |users| && users[k] == u;
    var i :| 0 <= i < |selected| && selected[i] == u;
    assert listed[i] == ListedOf(u);
    assert ListedOf(u) in multiset(listed);
    assert ListedOf(u) in multiset(ByName(selected));
  }

  /** A listed entry with the id of a user who is not selected does not exist. */
  lemma ListedIsSelected(users: seq<User>, keep: User -> bool, l: Listed, u: User)
    requires Pairwise(users, UsersBefore)
    requires u in users && !keep(u)
    requires l in ByName(Filter(users, keep))
    ensures l.id != u.id
  {
    var selected := Filter(users, keep);
    var listed := Map(selected, ListedOf);
    assert l in multiset(ByName(selected));
    assert l in multiset(listed);
    var j :| 0 <= j < |listed| && listed[j] == l;
    assert selected[j] in users && keep(selected[j]);
    if l.id == u.id {
      SameIdSameUser(users, selected[j], u);
    }
  }

  /** An applicant with the id of a verified user does not exist. */
  lemma ApplicantIsWaiting(users: seq<User>, a: Applicant, u: User)
    requires Pairwise(users, UsersBefore)
    requires u in users && u.verified
    requires a in VerificationList(users)
    ensures a.id != u.id
  {
    var waiting := Filter(users, Awaiting);
    var j :| 0 <= j < |waiting| && VerificationList(users)[j] == a;
    assert waiting[j] in users && Awaiting(waiting[j]);
    if a.id == u.id {
      SameIdSameUser(users, waiting[j], u);
    }
  }

  /** With unique ids, two rows with one id are one row. */
  lemma SameIdSameUser(users: seq<User>, a: User, b: User)
    requires Pairwise(users, UsersBefore)
    requires a in users && b in users && a.id == b.id
    ensures a == b
  {
    var i :| 0 <= i < |users| && users[i] == a;
    var j :| 0 <= j < |users| && users[j] == b;
  }

  // ================================================================= verify

  /** `POST /admin/doctor/verify/:id`: sets the flag on the doctor with that
      id; the reply is the same whether or not such a doctor exists. */
  method VerifyDoctor(db: Store, actor: PublicUser, id: int) returns (r: Response<string>)
    requires db.Valid() && SessionUser(db.users, actor)
    modifies db
    ensures db.Valid() && db.clientsInUse == old(db.clientsInUse)
    ensures !IsAdmin(actor) ==> r == Fail(403, ADMIN_REQUIRED) && db.Snap() == old(db.Snap())
    ensures IsAdmin(actor) ==>
      r == Ok(200, "Doctor verified successfully.") &&
      db.Snap() == old(db.Snap()).(users := SetVerified(old(db.users), id))
  {
    if !IsAdmin(actor) {
      return Fail(403, ADMIN_REQUIRED);
    }
    db.SetDoctorVerified(id);
    r := Ok(200, "Doctor verified successfully.");
  }

  /** What verify does to each stored user: the doctor with that id becomes
      verified, and every other row, a non-doctor with that id included, is
      left exactly as it was. */
  lemma VerifyTouchesOnlyThatDoctor(users: seq<User>, id: int, u: User)
    requires Pairwise(users, UsersBefore) && u in users
    ensures FindUser(SetVerified(users, id), u.id) ==
      Some(if u.id == id && u.role == DOCTOR then u.(verified := true) else u)
  {
    FindUnique(users, u);
    FindAfterVerify(users, id, u.id);
  }

  // ================================================================= delete

  /**
   * `DELETE /admin/user/:id`: the dependent rows go first, then the user row.
   * When there was no such user the reply is 404, after the dependent deletes
   * have run (in a consistent store they removed nothing).
   */
  method DeleteUser(db: Store, actor: PublicUser, id: int) returns (r: Response<string>)
    requires db.Valid() && SessionUser(db.users, actor)
    modifies db
    ensures db.Valid() && db.clientsInUse == old(db.clientsInUse)
    ensures !IsAdmin(actor) ==> r == Fail(403, ADMIN_REQUIRED) && db.Snap() == old(db.Snap())
    ensures IsAdmin(actor) ==> db.Snap() == DeleteUserEffect(old(db.Snap()), id)
    ensures IsAdmin(actor) && FindUser(old(db.users), id).None? ==> r == Fail(404, "User not found.")
    ensures IsAdmin(actor) && FindUser(old(db.users), id).Some? ==>
      r == Ok(200, "User and all associated data deleted successfully.")
  {
    if !IsAdmin(actor) {
      return Fail(403, ADMIN_REQUIRED);
    }
    db.DeleteAppointmentsOf(id);
    db.DeleteProfileOf(id);
    db.DeleteAvailabilityOf(id);
    DependentDeletesUnreference(old(db.Snap()), id);
    var found := db.DeleteUser(id);
    if !found {
      return Fail(404, "User not found.");
    }
    r := Ok(200, "User and all associated data deleted successfully.");
  }

  /** After the delete no row anywhere refers to the id, and every other
      user's row is found exactly as before. */
  lemma DeleteLeavesNoTrace(s: Snapshot, id: int, other: int)
    requires other != id
    ensures Unreferenced(DeleteUserEffect(s, id), id)
    ensures FindUser(DeleteUserEffect(s, id).users, id).None?
    ensures FindUser(DeleteUserEffect(s, id).users, other) == FindUser(s.users, other)
  {
    DependentDeletesUnreference(s, id);
    FindAfterDelete(s.users, id, other);
  }

  // ================================================================ history

  /** One appointment in a user's history, with the other party's name and email. */
  datatype HistoryRow = HistoryRow(
    appointmentId: int, status: string, appointmentDate: Option<string>, createdAt: nat,
    name: string, email: string)

  /** The rows carry the patient's name for a doctor and the doctor's name for a patient. */
  datatype History = DoctorHistory(rows: seq<HistoryRow>) | PatientHistory(rows: seq<HistoryRow>)

  function HistoryRowOf(a: Appointment, other: User): HistoryRow {
    HistoryRow(a.id, StatusName(a.status), a.appointmentDate, a.createdAt, other.name, other.email)
  }

  /** `GET /admin/user/appointments/:id`. */
  function UserHistory(s: Snapshot, actor: PublicUser, id: int): (r: Response<History>)
    ensures !IsAdmin(actor) ==> r == Fail(403, ADMIN_REQUIRED)
    ensures IsAdmin(actor) && FindUser(s.users, id).None? ==> r == Fail(404, "User not found.")
    ensures IsAdmin(actor) && UserIs(s.users, id, DOCTOR) ==> r.Ok? && r.body.DoctorHistory?
    ensures IsAdmin(actor) && UserIs(s.users, id, PATIENT) ==> r.Ok? && r.body.PatientHistory?
    ensures IsAdmin(actor) && FindUser(s.users, id).Some? && !UserIs(s.users, id, DOCTOR) && !UserIs(s.users, id, PATIENT) ==>
      r == Fail(400, "Invalid user role for inspection.")
  {
    if !IsAdmin(actor) then Fail(403, ADMIN_REQUIRED)
    else
      match FindUser(s.users, id)
      case None => Fail(404, "User not found.")
      case Some(u) =>
        if u.role == DOCTOR then
          Ok(200, DoctorHistory(Join(s.users, Reverse(DecidedFor(s.appointments, id)), PatientIdOf, HistoryRowOf)))
        else if u.role == PATIENT then
          Ok(200, PatientHistory(Join(s.users, Reverse(OfPatient(s.appointments, id)), DoctorIdOf, HistoryRowOf)))
        else Fail(400, "Invalid user role for inspection.")
  }

  /** A doctor's history is their decided appointments, newest first: pending
      requests are hidden. */
  lemma DoctorHistoryIsDecidedNewestFirst(s: Snapshot, actor: PublicUser, id: int)
    requires Consistent(s) && IsAdmin(actor) && UserIs(s.users, id, DOCTOR)
    ensures var rows := UserHistory(s, actor, id).body.rows;
      var newest := Reverse(DecidedFor(s.appointments, id));
      && |rows| == |newest|
      && (forall i :: 0 <= i < |rows| ==>
            && rows[i].appointmentId == newest[i].id && rows[i].status == StatusName(newest[i].status)
            && rows[i].status != "pending" && rows[i].appointmentDate == newest[i].appointmentDate
            && FindUser(s.users, newest[i].patientId).Some?
            && rows[i].name == FindUser(s.users, newest[i].patientId).value.name
            && rows[i].email == FindUser(s.users, newest[i].patientId).value.email)
      && (forall i, j :: 0 <= i < j < |rows| ==> rows[i].createdAt > rows[j].createdAt)
  {
    var decided := DecidedFor(s.appointments, id);
    var newest := Reverse(decided);
    var rows := Join(s.users, newest, PatientIdOf, HistoryRowOf);
    assert UserHistory(s, actor, id).body.rows == rows;
    NewestRowsResolve(s, decided);
    JoinAll(s.users, newest, PatientIdOf, HistoryRowOf);
    NewestDecided(s.appointments, id);
    FilterPairwise(s.appointments, DecidedBy(id), AppointmentsBefore);
    PairwiseReverse(decided, AppointmentsBefore);
  }

  /** Reversing keeps every row decided. */
  lemma NewestDecided(appts: seq<Appointment>, id: int)
    ensures var newest := Reverse(DecidedFor(appts, id));
      forall i :: 0 <= i < |newest| ==> StatusName(newest[i].status) != "pending"
  {
    var decided := DecidedFor(appts, id);
    var newest := Reverse(decided);
    forall i | 0 <= i < |newest| ensures StatusName(newest[i].status) != "pending" {
      assert newest[i] == decided[|decided| - 1 - i];
      assert newest[i] in decided;
    }
  }

  /** A patient's history is all their appointments, newest first. */
  lemma PatientHistoryIsAllNewestFirst(s: Snapshot, actor: PublicUser, id: int)
    requires Consistent(s) && IsAdmin(actor) && UserIs(s.users, id, PATIENT)
    ensures var rows := UserHistory(s, actor, id).body.rows;
      var newest := Reverse(OfPatient(s.appointments, id));
      && |rows| == |newest|
      && (forall i :: 0 <= i < |rows| ==>
            && rows[i].appointmentId == newest[i].id && rows[i].status == StatusName(newest[i].status)
            && rows[i].appointmentDate == newest[i].appointmentDate
            && FindUser(s.users, newest[i].doctorId).Some?
            && rows[i].name == FindUser(s.users, newest[i].doctorId).value.name
            && rows[i].email == FindUser(s.users, newest[i].doctorId).value.email)
      && (forall i, j :: 0 <= i < j < |rows| ==> rows[i].createdAt > rows[j].createdAt)
  {
    var mine := OfPatient(s.appointments, id);
    var newest := Reverse(mine);
    assert UserHistory(s, actor, id).body.rows == Join(s.users, newest, DoctorIdOf, HistoryRowOf);
    NewestRowsResolve(s, mine);
    JoinAll(s.users, newest, DoctorIdOf, HistoryRowOf);
    FilterPairwise(s.appointments, RequestedBy(id), AppointmentsBefore);
    PairwiseReverse(mine, AppointmentsBefore);
  }
}
