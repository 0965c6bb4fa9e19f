/**
 * The consistency of the four tables that every handler keeps: unique keys,
 * insertion order equal to `created_at` order, fresh SERIAL ids, no
 * reference to a missing user or to a user of the wrong role, and a date on
 * every accepted appointment. One lemma per SQL statement the handlers run
 * shows that the statement keeps it.
 */
module Consistency {
  import opened Wrappers
  import opened Collections
  import opened Strings
  import opened Schema
  import opened Tables

  /** The content of the database at one moment, with the clock that
      `CURRENT_TIMESTAMP` reads and the next value of each SERIAL column. */
  datatype Snapshot = Snapshot(
    users: seq<User>,
    profiles: seq<ProfileRow>,
    availability: seq<AvailabilityRow>,
    appointments: seq<Appointment>,
    clock: nat,
    nextUserId: int,
    nextAppointmentId: int)

  /** An appointment names an existing patient and an existing verified
      doctor, and carries a date whenever it is accepted. */
  predicate AppointmentOk(users: seq<User>, a: Appointment) {
    && (a.status == Accepted ==> Truthy(a.appointmentDate))
    && UserIs(users, a.patientId, PATIENT)
    && VerifiedDoctor(users, a.doctorId)
  }

  /** The state every handler starts from and leaves behind. */
  predicate Consistent(s: Snapshot) {
    && 1 <= s.nextUserId
    && 1 <= s.nextAppointmentId
    && Pairwise(s.users, UsersBefore)
    && (forall u :: u in s.users ==> 1 <= u.id < s.nextUserId && u.createdAt < s.clock)
    && Pairwise(s.appointments, AppointmentsBefore)
    && (forall a :: a in s.appointments ==> 1 <= a.id < s.nextAppointmentId && a.createdAt < s.clock)
    && (forall a :: a in s.appointments ==> AppointmentOk(s.users, a))
    && Pairwise(s.profiles, ProfilesBefore)
    && (forall p :: p in s.profiles ==> UserIs(s.users, p.userId, DOCTOR))
    && (forall b :: b in s.availability ==> UserIs(s.users, b.doctorId, DOCTOR))
  }

  /** The empty database a fresh installation starts with. */
  const Empty: Snapshot := Snapshot([], [], [], [], 0, 1, 1)

  lemma EmptyConsistent()
    ensures Consistent(Empty)
  {
  }

  // ------------------------------------------------------ references to users

  /** Every user an old reference finds is still found with the same role, and
      a doctor's verification is never withdrawn. */
  ghost predicate RefsKept(before: seq<User>, after: seq<User>) {
    forall id :: FindUser(before, id).Some? ==>
      && FindUser(after, id).Some?
      && FindUser(after, id).value.role == FindUser(before, id).value.role
      && (FindUser(before, id).value.verified ==> FindUser(after, id).value.verified)
  }

  /** The references of the other three tables survive a change of `users` of that kind. */
  lemma RefsKeptKeepsRows(s: Snapshot, users: seq<User>)
    requires Consistent(s)
    requires RefsKept(s.users, users)
    ensures forall a :: a in s.appointments ==> AppointmentOk(users, a)
    ensures forall p :: p in s.profiles ==> UserIs(users, p.userId, DOCTOR)
    ensures forall b :: b in s.availability ==> UserIs(users, b.doctorId, DOCTOR)
  {
    forall a | a in s.appointments ensures AppointmentOk(users, a) {
      assert AppointmentOk(s.users, a);
      assert FindUser(s.users, a.patientId).Some? && FindUser(s.users, a.doctorId).Some?;
    }
    forall p | p in s.profiles ensures UserIs(users, p.userId, DOCTOR) {
      assert FindUser(s.users, p.userId).Some?;
    }
    forall b | b in s.availability ensures UserIs(users, b.doctorId, DOCTOR) {
      assert FindUser(s.users, b.doctorId).Some?;
    }
  }

  // --------------------------------------------------- one lemma per statement

  /** `POST /register`: one user row with the next id, the current time and an
      email no row has. */
  lemma RegisterKeeps(s: Snapshot, n: User)
    requires Consistent(s)
    requires n.id == s.nextUserId && n.createdAt == s.clock
    requires forall u :: u in s.users ==> u.email != n.email
    ensures Consistent(s.(users := s.users + [n], clock := s.clock + 1, nextUserId := s.nextUserId + 1))
  {
    var users := s.users + [n];
    forall i | 0 <= i < |s.users| ensures UsersBefore(s.users[i], n) {
      assert s.users[i] in s.users;
    }
    PairwiseAppend(s.users, n, UsersBefore);
    forall id | FindUser(s.users, id).Some?
      ensures FindUser(users, id) == FindUser(s.users, id)
    {
      FindAppend(s.users, n, id);
    }
    RefsKeptKeepsRows(s, users);
  }

  /** `POST /appointments`: one pending row with the next id and the current
      time, between an existing patient and an existing verified doctor. */
  /** The state after one appointment request: the row appended, the clock
      and the id counter advanced. */
  function Requested(s: Snapshot, a: Appointment): Snapshot {
    s.(appointments := s.appointments + [a], clock := s.clock + 1, nextAppointmentId := s.nextAppointmentId + 1)
  }

  lemma CreateKeeps(s: Snapshot, a: Appointment)
    requires Consistent(s)
    requires a.id == s.nextAppointmentId && a.createdAt == s.clock && a.status == Pending
    requires UserIs(s.users, a.patientId, PATIENT) && VerifiedDoctor(s.users, a.doctorId)
    ensures Consistent(Requested(s, a))
  {
    forall i | 0 <= i < |s.appointments| ensures AppointmentsBefore(s.appointments[i], a) {
      assert s.appointments[i] in s.appointments;
    }
    PairwiseAppend(s.appointments, a, AppointmentsBefore);
    AppendedRowsOk(s, a);
  }

  /** Every row of the grown table, old or new, is within the counters and
      names its parties. */
  lemma AppendedRowsOk(s: Snapshot, a: Appointment)
    requires forall b :: b in s.appointments ==> 1 <= b.id < s.nextAppointmentId && b.createdAt < s.clock && AppointmentOk(s.users, b)
    requires 1 <= a.id == s.nextAppointmentId && a.createdAt == s.clock && a.status == Pending
    requires UserIs(s.users, a.patientId, PATIENT) && VerifiedDoctor(s.users, a.doctorId)
    ensures forall b :: b in s.appointments + [a] ==>
      1 <= b.id < s.nextAppointmentId + 1 && b.createdAt < s.clock + 1 && AppointmentOk(s.users, b)
  {
  }

  /** A doctor's accept (with a non-empty date) or reject. */
  lemma DecideKeeps(s: Snapshot, id: int, doctorId: int, d: Decision)
    requires Consistent(s)
    requires d.Accept? ==> d.date != ""
    ensures Consistent(s.(appointments := DecideOwned(s.appointments, id, doctorId, d)))
  {
    var after := DecideOwned(s.appointments, id, doctorId, d);
    DecideKeepsOrder(s.appointments, id, doctorId, d);
    forall a | a in after ensures 1 <= a.id < s.nextAppointmentId && a.createdAt < s.clock && AppointmentOk(s.users, a) {
      var i :| 0 <= i < |after| && after[i] == a;
      DecidedRowOk(s, id, doctorId, d, i);
    }
  }

  /** A decision changes no id and no creation time, so the order stays. */
  lemma DecideKeepsOrder(appts: seq<Appointment>, id: int, doctorId: int, d: Decision)
    requires Pairwise(appts, AppointmentsBefore)
    ensures Pairwise(DecideOwned(appts, id, doctorId, d), AppointmentsBefore)
  {
    var after := DecideOwned(appts, id, doctorId, d);
    forall i, j | 0 <= i < j < |after| ensures AppointmentsBefore(after[i], after[j]) {
      assert AppointmentsBefore(appts[i], appts[j]);
    }
  }

  /** A decided row keeps its id, time and parties, and an accepted row has
      a non-empty date. */
  lemma DecidedRowOk(s: Snapshot, id: int, doctorId: int, d: Decision, i: int)
    requires Consistent(s)
    requires d.Accept? ==> d.date != ""
    requires 0 <= i < |s.appointments|
    ensures var a := DecideOwned(s.appointments, id, doctorId, d)[i];
      1 <= a.id < s.nextAppointmentId && a.createdAt < s.clock && AppointmentOk(s.users, a)
  {
    assert s.appointments[i] in s.appointments;
  }

  /** A doctor's delete of an owned row. */
  lemma DeleteOwnedKeeps(s: Snapshot, id: int, doctorId: int)
    requires Consistent(s)
    ensures Consistent(s.(appointments := DeleteOwned(s.appointments, id, doctorId)))
  {
    FilterPairwise(s.appointments, NotOwned(id, doctorId), AppointmentsBefore);
  }

  /** The profile upsert of a doctor. */
  lemma UpsertKeeps(s: Snapshot, userId: int, profession: string, clinicAddress: string)
    requires Consistent(s)
    requires UserIs(s.users, userId, DOCTOR)
    ensures Consistent(s.(profiles := UpsertProfile(s.profiles, userId, profession, clinicAddress)))
  {
  }

  /** `DELETE FROM doctor_availability WHERE doctor_id = $1`. */
  lemma DeleteBlocksKeeps(s: Snapshot, doctorId: int)
    requires Consistent(s)
    ensures Consistent(s.(availability := WithoutBlocksOf(s.availability, doctorId)))
  {
  }

  /** One availability INSERT for a doctor. */
  lemma InsertBlockKeeps(s: Snapshot, b: AvailabilityRow)
    requires Consistent(s)
    requires UserIs(s.users, b.doctorId, DOCTOR)
    ensures Consistent(s.(availability := s.availability + [b]))
  {
  }

  /** Every user row keeps its id, email, role and time under the verify UPDATE. */
  lemma SetVerifiedRows(users: seq<User>, target: int)
    ensures |SetVerified(users, target)| == |users|
    ensures forall i :: 0 <= i < |users| ==>
      var v := SetVerified(users, target)[i];
      v.id == users[i].id && v.email == users[i].email && v.createdAt == users[i].createdAt &&
      v.role == users[i].role && (users[i].verified ==> v.verified)
  {
  }

  /** The admin's verify. */
  lemma VerifyKeeps(s: Snapshot, target: int)
    requires Consistent(s)
    ensures Consistent(s.(users := SetVerified(s.users, target)))
  {
    var users := SetVerified(s.users, target);
    SetVerifiedRows(s.users, target);
    forall i, j | 0 <= i < j < |users| ensures UsersBefore(users[i], users[j]) {
      assert UsersBefore(s.users[i], s.users[j]);
    }
    forall u | u in users ensures 1 <= u.id < s.nextUserId && u.createdAt < s.clock {
      var i :| 0 <= i < |users| && users[i] == u;
      assert s.users[i] in s.users;
    }
    forall id | FindUser(s.users, id).Some?
      ensures FindUser(users, id).Some? && FindUser(users, id).value.role == FindUser(s.users, id).value.role
      ensures FindUser(s.users, id).value.verified ==> FindUser(users, id).value.verified
    {
      FindAfterVerify(s.users, target, id);
    }
    RefsKeptKeepsRows(s, users);
  }

  /** The state after the admin's four deletes for one id. */
  function DeleteUserEffect(s: Snapshot, gone: int): Snapshot {
    s.(appointments := WithoutAppointmentsOf(s.appointments, gone),
       profiles := WithoutProfileOf(s.profiles, gone),
       availability := WithoutBlocksOf(s.availability, gone),
       users := WithoutUser(s.users, gone))
  }

  /** `DELETE FROM appointments WHERE patient_id = $1 OR doctor_id = $1`. */
  lemma DeleteAppointmentsOfKeeps(s: Snapshot, gone: int)
    requires Consistent(s)
    ensures Consistent(s.(appointments := WithoutAppointmentsOf(s.appointments, gone)))
  {
    FilterPairwise(s.appointments, NotInvolving(gone), AppointmentsBefore);
  }

  /** `DELETE FROM doctor_profiles WHERE user_id = $1`. */
  lemma DeleteProfileOfKeeps(s: Snapshot, gone: int)
    requires Consistent(s)
    ensures Consistent(s.(profiles := WithoutProfileOf(s.profiles, gone)))
  {
    FilterPairwise(s.profiles, NotProfileOf(gone), ProfilesBefore);
  }

  /** No row of the other three tables names `id`. */
  predicate Unreferenced(s: Snapshot, id: int) {
    && (forall a :: a in s.appointments ==> a.patientId != id && a.doctorId != id)
    && (forall p :: p in s.profiles ==> p.userId != id)
    && (forall b :: b in s.availability ==> b.doctorId != id)
  }

  /** The three dependent deletes leave the id unreferenced. */
  lemma DependentDeletesUnreference(s: Snapshot, gone: int)
    ensures Unreferenced(s.(appointments := WithoutAppointmentsOf(s.appointments, gone),
                            profiles := WithoutProfileOf(s.profiles, gone),
                            availability := WithoutBlocksOf(s.availability, gone)), gone)
  {
  }

  /** `DELETE FROM users WHERE id = $1` once nothing refers to the row: every
      other lookup is unchanged, so every reference still resolves. */
  lemma DeleteUserRowKeeps(s: Snapshot, gone: int)
    requires Consistent(s) && Unreferenced(s, gone)
    ensures Consistent(s.(users := WithoutUser(s.users, gone)))
  {
    var users := WithoutUser(s.users, gone);
    FilterPairwise(s.users, OtherThan(gone), UsersBefore);
    forall a | a in s.appointments ensures AppointmentOk(users, a) {
      assert AppointmentOk(s.users, a);
      FindAfterDelete(s.users, gone, a.patientId);
      FindAfterDelete(s.users, gone, a.doctorId);
    }
    forall p | p in s.profiles ensures UserIs(users, p.userId, DOCTOR) {
      FindAfterDelete(s.users, gone, p.userId);
    }
    forall b | b in s.availability ensures UserIs(users, b.doctorId, DOCTOR) {
      FindAfterDelete(s.users, gone, b.doctorId);
    }
  }

  /** In a consistent state, the dependent deletes for an id that has no user
      row remove nothing: the 404 reply leaves the database as it was. */
  lemma DeleteMissingUserChangesNothing(s: Snapshot, gone: int)
    requires Consistent(s)
    requires FindUser(s.users, gone).None?
    ensures DeleteUserEffect(s, gone) == s
  {
    NoAppointmentNamesMissing(s.users, s.appointments, gone);
    NoRowNamesMissing(s, gone);
    FilterAll(s.users, OtherThan(gone));
  }

  /** Every stored appointment names two existing users, so none names `gone`. */
  lemma NoAppointmentNamesMissing(users: seq<User>, appts: seq<Appointment>, gone: int)
    requires forall a :: a in appts ==> AppointmentOk(users, a)
    requires FindUser(users, gone).None?
    ensures WithoutAppointmentsOf(appts, gone) == appts
  {
    forall i | 0 <= i < |appts| ensures NotInvolving(gone)(appts[i]) {
      assert AppointmentOk(users, appts[i]);
    }
    FilterAll(appts, NotInvolving(gone));
  }

  /** Every profile and block names an existing doctor, so none names `gone`. */
  lemma NoRowNamesMissing(s: Snapshot, gone: int)
    requires forall p :: p in s.profiles ==> UserIs(s.users, p.userId, DOCTOR)
    requires forall b :: b in s.availability ==> UserIs(s.users, b.doctorId, DOCTOR)
    requires FindUser(s.users, gone).None?
    ensures WithoutProfileOf(s.profiles, gone) == s.profiles
    ensures WithoutBlocksOf(s.availability, gone) == s.availability
  {
    forall i | 0 <= i < |s.profiles| ensures NotProfileOf(gone)(s.profiles[i]) {
      assert s.profiles[i] in s.profiles;
    }
    FilterAll(s.profiles, NotProfileOf(gone));
    forall i | 0 <= i < |s.availability| ensures NotBlockOf(gone)(s.availability[i]) {
      assert s.availability[i] in s.availability;
    }
    FilterAll(s.availability, NotBlockOf(gone));
  }

  /** In a consistent store both parties of every selected appointment exist. */
  lemma NewestRowsResolve(s: Snapshot, rows: seq<Appointment>)
    requires Consistent(s)
    requires forall a :: a in rows ==> a in s.appointments
    ensures forall i :: 0 <= i < |rows| ==>
      FindUser(s.users, Reverse(rows)[i].patientId).Some? && FindUser(s.users, Reverse(rows)[i].doctorId).Some?
  {
    var newest := Reverse(rows);
    forall i | 0 <= i < |rows|
      ensures FindUser(s.users, newest[i].patientId).Some? && FindUser(s.users, newest[i].doctorId).Some?
    {
      assert newest[i] == rows[|rows| - 1 - i];
      assert newest[i] in s.appointments;
      assert AppointmentOk(s.users, newest[i]);
    }
  }

  /** The rows a filter selects, reversed, run newest first. */
  lemma NewestFirst(appts: seq<Appointment>, keep: Appointment -> bool)
    requires Pairwise(appts, AppointmentsBefore)
    ensures var newest := Reverse(Filter(appts, keep));
      forall i, j :: 0 <= i < j < |newest| ==> newest[i].createdAt > newest[j].createdAt
  {
    FilterPairwise(appts, keep, AppointmentsBefore);
    PairwiseReverse(Filter(appts, keep), AppointmentsBefore);
  }
}
