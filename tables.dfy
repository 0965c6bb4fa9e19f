/**
 * Each SQL statement of the handlers as an operation on a table value, and the
 * consistency of the four tables that every handler keeps: unique keys,
 * insertion order equal to `created_at` order, no dangling reference, and a
 * date on every accepted appointment.
 */
module Tables {
  import opened Wrappers
  import opened Collections
  import opened Strings
  import opened Schema

  // =================================================================== users

  /** `SELECT ... FROM users WHERE id = $1`, first row. */
  function FindUser(users: seq<User>, id: int): (r: Option<User>)
    ensures r.Some? ==> r.value in users && r.value.id == id
    ensures r.None? <==> forall u :: u in users ==> u.id != id
  {
    if users == [] then None
    else if users[0].id == id then Some(users[0])
    else FindUser(users[1..], id)
  }

  /** `SELECT * FROM users WHERE email = $1`, first row. */
  function FindUserByEmail(users: seq<User>, email: string): (r: Option<User>)
    ensures r.Some? ==> r.value in users && r.value.email == email
    ensures r.None? <==> forall u :: u in users ==> u.email != email
  {
    if users == [] then None
    else if users[0].email == email then Some(users[0])
    else FindUserByEmail(users[1..], email)
  }

  /** Distinct primary keys, distinct emails, and insertion in clock order. */
  predicate UsersBefore(a: User, b: User) {
    a.id != b.id && a.email != b.email && a.createdAt < b.createdAt
  }

  /** The user with that id has that role. */
  predicate UserIs(users: seq<User>, id: int, role: string) {
    FindUser(users, id).Some? && FindUser(users, id).value.role == role
  }

  /** The user with that id is a doctor whose verification flag is set. */
  predicate VerifiedDoctor(users: seq<User>, id: int) {
    FindUser(users, id).Some? && FindUser(users, id).value.role == DOCTOR && FindUser(users, id).value.verified
  }

  /** `UPDATE users SET is_doctor_verified = true WHERE id = $1 AND role = 'doctor'`. */
  function SetVerified(users: seq<User>, id: int): seq<User> {
    seq(|users|, i requires 0 <= i < |users| =>
      if users[i].id == id && users[i].role == DOCTOR then users[i].(verified := true) else users[i])
  }

  /** The rows a `DELETE FROM users WHERE id = gone` keeps. */
  function OtherThan(gone: int): User -> bool {
    (u: User) => u.id != gone
  }

  /** `DELETE FROM users WHERE id = $1`. */
  function WithoutUser(users: seq<User>, id: int): (r: seq<User>)
    ensures forall u :: u in r <==> u in users && u.id != id
  {
    Filter(users, OtherThan(id))
  }

  /** With unique ids, the lookup finds the very row. */
  lemma {:induction false} FindUnique(users: seq<User>, u: User)
    requires Pairwise(users, UsersBefore)
    requires u in users
    ensures FindUser(users, u.id) == Some(u)
  {
    if users[0] != u {
      assert users[0].id != u.id by {
        var j :| 0 <= j < |users| && users[j] == u;
        assert UsersBefore(users[0], users[j]);
      }
      assert Pairwise(users[1..], UsersBefore) by {
        forall i, j | 0 <= i < j < |users[1..]| ensures UsersBefore(users[1..][i], users[1..][j]) {
          assert users[1..][i] == users[i + 1] && users[1..][j] == users[j + 1];
        }
      }
      FindUnique(users[1..], u);
    }
  }

  /** Appending a row with a new id leaves every other lookup as it was. */
  lemma {:induction false} FindAppend(users: seq<User>, n: User, id: int)
    ensures FindUser(users + [n], id) ==
      if FindUser(users, id).Some? then FindUser(users, id) else if n.id == id then Some(n) else None
  {
    if users == [] {
      assert users + [n] == [n];
    } else {
      assert (users + [n])[1..] == users[1..] + [n];
      FindAppend(users[1..], n, id);
    }
  }

  /** A filter that keeps every row with the looked-up id does not change the lookup. */
  lemma {:induction false} FindAfterFilter(users: seq<User>, keep: User -> bool, id: int)
    requires forall i :: 0 <= i < |users| && users[i].id == id ==> keep(users[i])
    ensures FindUser(Filter(users, keep), id) == FindUser(users, id)
  {
    if users != [] {
      FindAfterFilter(users[1..], keep, id);
      var rest := Filter(users[1..], keep);
      if keep(users[0]) {
        assert Filter(users, keep) == [users[0]] + rest;
        assert ([users[0]] + rest)[1..] == rest;
      } else {
        assert Filter(users, keep) == rest;
      }
    }
  }

  /** Deleting one id leaves every other lookup as it was. */
  lemma FindAfterDelete(users: seq<User>, gone: int, id: int)
    requires id != gone
    ensures FindUser(WithoutUser(users, gone), id) == FindUser(users, id)
  {
    FindAfterFilter(users, OtherThan(gone), id);
  }

  /** Verifying a doctor changes only that row's flag. */
  lemma {:induction false} FindAfterVerify(users: seq<User>, target: int, id: int)
    ensures FindUser(SetVerified(users, target), id).Some? == FindUser(users, id).Some?
    ensures FindUser(users, id).Some? ==>
      var u := FindUser(users, id).value;
      FindUser(SetVerified(users, target), id).value ==
        if u.id == target && u.role == DOCTOR then u.(verified := true) else u
  {
    if users != [] {
      assert SetVerified(users, target)[1..] == SetVerified(users[1..], target);
      FindAfterVerify(users[1..], target, id);
    }
  }

  // ============================================================ appointments

  /** Distinct primary keys and insertion in clock order. */
  predicate AppointmentsBefore(a: Appointment, b: Appointment) {
    a.id != b.id && a.createdAt < b.createdAt
  }

  /** What a doctor's `UPDATE` writes into a row. */
  datatype Decision = Reject | Accept(date: string)

  /** The row after one doctor UPDATE: `SET status = 'rejected'`, or
      `SET status = 'accepted', appointment_date = $date`. */
  function Decide(a: Appointment, d: Decision): Appointment {
    match d
    case Reject => a.(status := Rejected)
    case Accept(date) => a.(status := Accepted, appointmentDate := Some(date))
  }

  /** The doctor owns the row with this id. */
  predicate Owned(a: Appointment, id: int, doctorId: int) {
    a.id == id && a.doctorId == doctorId
  }

  /** `UPDATE appointments SET ... WHERE id = $id AND doctor_id = $doctor`. */
  function DecideOwned(appts: seq<Appointment>, id: int, doctorId: int, d: Decision): seq<Appointment> {
    seq(|appts|, i requires 0 <= i < |appts| =>
      if Owned(appts[i], id, doctorId) then Decide(appts[i], d) else appts[i])
  }

  /** `DELETE FROM appointments WHERE id = $id AND doctor_id = $doctor`. */
  function DeleteOwned(appts: seq<Appointment>, id: int, doctorId: int): (r: seq<Appointment>)
    ensures forall a :: a in r <==> a in appts && !Owned(a, id, doctorId)
  {
    Filter(appts, NotOwned(id, doctorId))
  }

  /** The rows a doctor's DELETE keeps. */
  function NotOwned(id: int, doctorId: int): Appointment -> bool {
    (a: Appointment) => !Owned(a, id, doctorId)
  }

  /** `DELETE FROM appointments WHERE patient_id = $1 OR doctor_id = $1`. */
  function WithoutAppointmentsOf(appts: seq<Appointment>, userId: int): (r: seq<Appointment>)
    ensures forall a :: a in r <==> a in appts && a.patientId != userId && a.doctorId != userId
  {
    Filter(appts, NotInvolving(userId))
  }

  /** The rows the admin's appointment DELETE keeps. */
  function NotInvolving(userId: int): Appointment -> bool {
    (a: Appointment) => a.patientId != userId && a.doctorId != userId
  }

  /** `WHERE a.doctor_id = $1 AND a.status = 'pending'`. */
  function PendingFor(appts: seq<Appointment>, doctorId: int): (r: seq<Appointment>)
    ensures forall a :: a in r <==> a in appts && a.doctorId == doctorId && a.status == Pending
  {
    Filter(appts, PendingOf(doctorId))
  }

  function PendingOf(doctorId: int): Appointment -> bool {
    (a: Appointment) => a.doctorId == doctorId && a.status == Pending
  }

  /** `WHERE a.patient_id = $1`. */
  function OfPatient(appts: seq<Appointment>, patientId: int): (r: seq<Appointment>)
    ensures forall a :: a in r <==> a in appts && a.patientId == patientId
  {
    Filter(appts, RequestedBy(patientId))
  }

  function RequestedBy(patientId: int): Appointment -> bool {
    (a: Appointment) => a.patientId == patientId
  }

  /** `WHERE a.doctor_id = $1 AND a.status IN ('accepted', 'rejected')`. */
  function DecidedFor(appts: seq<Appointment>, doctorId: int): (r: seq<Appointment>)
    ensures forall a :: a in r <==> a in appts && a.doctorId == doctorId && a.status != Pending
  {
    Filter(appts, DecidedBy(doctorId))
  }

  function DecidedBy(doctorId: int): Appointment -> bool {
    (a: Appointment) => a.doctorId == doctorId && (a.status == Accepted || a.status == Rejected)
  }

  /** With unique appointment ids, a doctor UPDATE changes at most one row, the
      one with that id owned by that doctor; every other row is untouched. */
  lemma AtMostOneRowDecided(appts: seq<Appointment>, id: int, doctorId: int, d: Decision)
    requires Pairwise(appts, AppointmentsBefore)
    ensures |DecideOwned(appts, id, doctorId, d)| == |appts|
    ensures forall i, j :: 0 <= i < j < |appts| ==>
      appts[i] == DecideOwned(appts, id, doctorId, d)[i] || appts[j] == DecideOwned(appts, id, doctorId, d)[j]
    ensures forall i :: 0 <= i < |appts| && appts[i].doctorId != doctorId ==> DecideOwned(appts, id, doctorId, d)[i] == appts[i]
  {
    forall i, j | 0 <= i < j < |appts|
      ensures appts[i] == DecideOwned(appts, id, doctorId, d)[i] || appts[j] == DecideOwned(appts, id, doctorId, d)[j]
    {
      assert AppointmentsBefore(appts[i], appts[j]);
    }
  }

  function PatientIdOf(a: Appointment): int { a.patientId }
  function DoctorIdOf(a: Appointment): int { a.doctorId }

  /**
   * `FROM appointments a JOIN users u ON <side of a> = u.id`: each row paired
   * with the user it names, in the order of `rows`; an inner join, so a row
   * whose user is missing is dropped.
   */
  function Join<R>(users: seq<User>, rows: seq<Appointment>, side: Appointment -> int, make: (Appointment, User) -> R): (r: seq<R>)
    ensures |r| <= |rows|
  {
    if rows == [] then []
    else
      (match FindUser(users, side(rows[0]))
       case Some(u) => [make(rows[0], u)]
       case None => []) + Join(users, rows[1..], side, make)
  }

  /** When every row names an existing user, the join keeps every row, in order. */
  lemma {:induction false} JoinAll<R>(users: seq<User>, rows: seq<Appointment>, side: Appointment -> int, make: (Appointment, User) -> R)
    requires forall i :: 0 <= i < |rows| ==> FindUser(users, side(rows[i])).Some?
    ensures |Join(users, rows, side, make)| == |rows|
    ensures forall i :: 0 <= i < |rows| ==>
      Join(users, rows, side, make)[i] == make(rows[i], FindUser(users, side(rows[i])).value)
  {
    if rows != [] {
      JoinAll(users, rows[1..], side, make);
      var head := make(rows[0], FindUser(users, side(rows[0])).value);
      assert Join(users, rows, side, make) == [head] + Join(users, rows[1..], side, make);
    }
  }

  // ================================================================ profiles

  /** `user_id` is unique in `doctor_profiles`. */
  predicate ProfilesBefore(a: ProfileRow, b: ProfileRow) {
    a.userId != b.userId
  }

  /** `SELECT * FROM doctor_profiles WHERE user_id = $1`. */
  function ProfilesOf(rows: seq<ProfileRow>, userId: int): (r: seq<ProfileRow>)
    ensures forall p :: p in r <==> p in rows && p.userId == userId
  {
    Filter(rows, ProfileOf(userId))
  }

  function ProfileOf(userId: int): ProfileRow -> bool {
    (p: ProfileRow) => p.userId == userId
  }

  /** `DELETE FROM doctor_profiles WHERE user_id = $1`. */
  function WithoutProfileOf(rows: seq<ProfileRow>, userId: int): (r: seq<ProfileRow>)
    ensures forall p :: p in r <==> p in rows && p.userId != userId
  {
    Filter(rows, NotProfileOf(userId))
  }

  function NotProfileOf(userId: int): ProfileRow -> bool {
    (p: ProfileRow) => p.userId != userId
  }

  /**
   * `INSERT INTO doctor_profiles ... ON CONFLICT (user_id) DO UPDATE SET
   * profession = $2, clinic_address = $3`: the doctor's row is rewritten in
   * place when there is one, and appended otherwise.
   */
  function UpsertProfile(rows: seq<ProfileRow>, userId: int, profession: string, clinicAddress: string): (r: seq<ProfileRow>)
    ensures ProfileRow(userId, profession, clinicAddress) in r
    ensures forall p :: p in r && p.userId == userId ==> p == ProfileRow(userId, profession, clinicAddress)
    ensures forall p: ProfileRow :: p.userId != userId ==> (p in r <==> p in rows)
    ensures Pairwise(rows, ProfilesBefore) ==> Pairwise(r, ProfilesBefore)
  {
    var row := ProfileRow(userId, profession, clinicAddress);
    if exists p :: p in rows && p.userId == userId then
      var r := seq(|rows|, i requires 0 <= i < |rows| => if rows[i].userId == userId then row else rows[i]);
      assert forall p: ProfileRow :: p.userId != userId && p in rows ==> p in r by {
        forall p: ProfileRow | p.userId != userId && p in rows ensures p in r {
          var i :| 0 <= i < |rows| && rows[i] == p;
          assert r[i] == p;
        }
      }
      assert row in r by {
        var p :| p in rows && p.userId == userId;
        var i :| 0 <= i < |rows| && rows[i] == p;
        assert r[i] == row;
      }
      r
    else
      assert forall i :: 0 <= i < |rows| ==> ProfilesBefore(rows[i], row);
      assert Pairwise(rows, ProfilesBefore) ==> Pairwise(rows + [row], ProfilesBefore) by {
        if Pairwise(rows, ProfilesBefore) {
          PairwiseAppend(rows, row, ProfilesBefore);
        }
      }
      rows + [row]
  }

  /** After an upsert the doctor has exactly one profile row, holding the given values. */
  lemma ExactlyOneProfile(rows: seq<ProfileRow>, userId: int, profession: string, clinicAddress: string)
    requires Pairwise(rows, ProfilesBefore)
    ensures ProfilesOf(UpsertProfile(rows, userId, profession, clinicAddress), userId) ==
            [ProfileRow(userId, profession, clinicAddress)]
  {
    var r := UpsertProfile(rows, userId, profession, clinicAddress);
    var row := ProfileRow(userId, profession, clinicAddress);
    var mine := ProfilesOf(r, userId);
    assert row in mine;
    FilterPairwise(r, ProfileOf(userId), ProfilesBefore);
    assert |mine| > 1 ==> !ProfilesBefore(mine[0], mine[1]);
    assert mine[0] == row;
  }

  /** Repeating the upsert with the same input leaves the same table. */
  lemma UpsertIdempotent(rows: seq<ProfileRow>, userId: int, profession: string, clinicAddress: string)
    ensures UpsertProfile(UpsertProfile(rows, userId, profession, clinicAddress), userId, profession, clinicAddress) ==
            UpsertProfile(rows, userId, profession, clinicAddress)
  {
    var once := UpsertProfile(rows, userId, profession, clinicAddress);
    var row := ProfileRow(userId, profession, clinicAddress);
    assert row in once;
    var twice := UpsertProfile(once, userId, profession, clinicAddress);
    assert |twice| == |once|;
    forall i | 0 <= i < |once| ensures twice[i] == once[i] {
      assert once[i] in once;
    }
  }

  // ============================================================ availability

  /** `WHERE doctor_id = $1` on `doctor_availability`. */
  function BlocksOf(rows: seq<AvailabilityRow>, doctorId: int): (r: seq<AvailabilityRow>)
    ensures forall b :: b in r <==> b in rows && b.doctorId == doctorId
  {
    Filter(rows, BlockOf(doctorId))
  }

  function BlockOf(doctorId: int): AvailabilityRow -> bool {
    (b: AvailabilityRow) => b.doctorId == doctorId
  }

  /** `DELETE FROM doctor_availability WHERE doctor_id = $1`. */
  function WithoutBlocksOf(rows: seq<AvailabilityRow>, doctorId: int): (r: seq<AvailabilityRow>)
    ensures forall b :: b in r <==> b in rows && b.doctorId != doctorId
  {
    Filter(rows, NotBlockOf(doctorId))
  }

  function NotBlockOf(doctorId: int): AvailabilityRow -> bool {
    (b: AvailabilityRow) => b.doctorId != doctorId
  }

  /** Replacing a doctor's blocks by `added` (all of that doctor): the doctor
      then has exactly `added`, in order, and every other doctor keeps exactly
      the blocks they had, in order. */
  lemma ReplaceBlocks(rows: seq<AvailabilityRow>, doctorId: int, added: seq<AvailabilityRow>, other: int)
    requires forall b :: b in added ==> b.doctorId == doctorId
    requires other != doctorId
    ensures BlocksOf(WithoutBlocksOf(rows, doctorId) + added, doctorId) == added
    ensures BlocksOf(WithoutBlocksOf(rows, doctorId) + added, other) == BlocksOf(rows, other)
  {
    var kept := WithoutBlocksOf(rows, doctorId);
    var mine := BlockOf(doctorId);
    var theirs := BlockOf(other);
    FilterConcat(kept, added, mine);
    FilterNone(kept, mine);
    FilterAll(added, mine);
    FilterConcat(kept, added, theirs);
    FilterNone(added, theirs);
    FilterOfFilter(rows, doctorId, other);
  }

  /** Selecting one doctor's blocks after deleting another doctor's is the same
      as selecting them directly. */
  lemma {:induction false} FilterOfFilter(rows: seq<AvailabilityRow>, doctorId: int, other: int)
    requires other != doctorId
    ensures BlocksOf(WithoutBlocksOf(rows, doctorId), other) == BlocksOf(rows, other)
  {
    var mine := NotBlockOf(doctorId);
    var theirs := BlockOf(other);
    if rows != [] {
      assert Filter(rows, mine) == (if mine(rows[0]) then [rows[0]] else []) + Filter(rows[1..], mine);
      FilterConcat(if mine(rows[0]) then [rows[0]] else [], Filter(rows[1..], mine), theirs);
      FilterOfFilter(rows[1..], doctorId, other);
    }
  }
}
