/**
 * The PostgreSQL database behind the routes (backend/config/db.js is not
 * part of this model): four tables updated in place, a clock for
 * `CURRENT_TIMESTAMP`, the SERIAL counters, and the number of pool clients
 * checked out for a transaction. Each SQL statement the routes run is one
 * method here; each keeps the tables consistent.
 */
module Db {
  import opened Wrappers
  import opened Schema
  import opened Tables
  import opened Consistency

  class Store {
    var users: seq<User>
    var profiles: seq<ProfileRow>
    var availability: seq<AvailabilityRow>
    var appointments: seq<Appointment>
    /** The value the next `CURRENT_TIMESTAMP` reads; it grows with every insert. */
    var clock: nat
    var nextUserId: int
    var nextAppointmentId: int
    /** Clients taken with `pool.connect()` and not yet released. */
    var clientsInUse: nat

    /** The tables and counters as one value. */
    function Snap(): Snapshot
      reads this
    {
      Snapshot(users, profiles, availability, appointments, clock, nextUserId, nextAppointmentId)
    }

    ghost predicate Valid()
      reads this
    {
      Consistent(Snap())
    }

    /** A freshly created database: empty tables, counters at 1, no client out. */
    constructor ()
      ensures Valid()
      ensures Snap() == Empty && clientsInUse == 0
    {
      users, profiles, availability, appointments := [], [], [], [];
      clock, nextUserId, nextAppointmentId := 0, 1, 1;
      clientsInUse := 0;
    }

    /** `pool.connect()`. */
    method Connect()
      modifies this
      ensures clientsInUse == old(clientsInUse) + 1
      ensures Snap() == old(Snap())
    {
      clientsInUse := clientsInUse + 1;
    }

    /** `client.release()`. */
    method Release()
      requires clientsInUse > 0
      modifies this
      ensures clientsInUse == old(clientsInUse) - 1
      ensures Snap() == old(Snap())
    {
      clientsInUse := clientsInUse - 1;
    }

    /** `ROLLBACK`: every table back to what it held at `BEGIN`. */
    method Rollback(begin: Snapshot)
      modifies this
      ensures Snap() == begin
      ensures clientsInUse == old(clientsInUse)
    {
      users, profiles, availability, appointments := begin.users, begin.profiles, begin.availability, begin.appointments;
      clock, nextUserId, nextAppointmentId := begin.clock, begin.nextUserId, begin.nextAppointmentId;
    }

    // ------------------------------------------------------------- statements

    /** `INSERT INTO users (name, email, password, role, city, country)`: the
        id comes from the SERIAL counter, `created_at` from the clock, and the
        verification flag takes its default, false. */
    method InsertUser(name: string, email: string, passwordHash: string, role: string,
                      city: Option<string>, country: Option<string>) returns (n: User)
      requires Valid()
      requires FindUserByEmail(users, email).None?
      modifies this
      ensures Valid() && clientsInUse == old(clientsInUse)
      ensures n == User(old(nextUserId), name, email, passwordHash, role, city, country, false, old(clock))
      ensures Snap() == old(Snap()).(users := old(users) + [n], clock := old(clock) + 1, nextUserId := old(nextUserId) + 1)
    {
      n := User(nextUserId, name, email, passwordHash, role, city, country, false, clock);
      RegisterKeeps(Snap(), n);
      users, clock, nextUserId := users + [n], clock + 1, nextUserId + 1;
    }

    /** `INSERT INTO appointments (patient_id, doctor_id, request_message)`:
        status takes its default, pending, and the date is NULL. */
    method InsertAppointment(patientId: int, doctorId: int, message: string) returns (a: Appointment)
      requires Valid()
      requires UserIs(users, patientId, PATIENT) && VerifiedDoctor(users, doctorId)
      modifies this
      ensures Valid() && clientsInUse == old(clientsInUse)
      ensures a == Appointment(old(nextAppointmentId), patientId, doctorId, Pending, message, None, old(clock))
      ensures Snap() == Requested(old(Snap()), a)
    {
      a := Appointment(nextAppointmentId, patientId, doctorId, Pending, message, None, clock);
      var after := Requested(Snap(), a);
      CreateKeeps(Snap(), a);
      appointments, clock, nextAppointmentId := after.appointments, after.clock, after.nextAppointmentId;
    }

    /** `UPDATE appointments SET status = ... WHERE id = $id AND doctor_id = $doctor`. */
    method UpdateAppointment(id: int, doctorId: int, d: Decision)
      requires Valid()
      requires d.Accept? ==> d.date != ""
      modifies this
      ensures Valid() && clientsInUse == old(clientsInUse)
      ensures Snap() == old(Snap()).(appointments := DecideOwned(old(appointments), id, doctorId, d))
    {
      DecideKeeps(Snap(), id, doctorId, d);
      appointments := DecideOwned(appointments, id, doctorId, d);
    }

    /** `DELETE FROM appointments WHERE id = $id AND doctor_id = $doctor`. */
    method DeleteAppointment(id: int, doctorId: int)
      requires Valid()
      modifies this
      ensures Valid() && clientsInUse == old(clientsInUse)
      ensures Snap() == old(Snap()).(appointments := DeleteOwned(old(appointments), id, doctorId))
    {
      DeleteOwnedKeeps(Snap(), id, doctorId);
      appointments := DeleteOwned(appointments, id, doctorId);
    }

    /** The profile `INSERT ... ON CONFLICT (user_id) DO UPDATE`. */
    method UpsertDoctorProfile(userId: int, profession: string, clinicAddress: string)
      requires Valid()
      requires UserIs(users, userId, DOCTOR)
      modifies this
      ensures Valid() && clientsInUse == old(clientsInUse)
      ensures Snap() == old(Snap()).(profiles := UpsertProfile(old(profiles), userId, profession, clinicAddress))
    {
      UpsertKeeps(Snap(), userId, profession, clinicAddress);
      profiles := UpsertProfile(profiles, userId, profession, clinicAddress);
    }

    /** `DELETE FROM doctor_availability WHERE doctor_id = $1`. */
    method DeleteAvailabilityOf(doctorId: int)
      requires Valid()
      modifies this
      ensures Valid() && clientsInUse == old(clientsInUse)
      ensures Snap() == old(Snap()).(availability := WithoutBlocksOf(old(availability), doctorId))
    {
      DeleteBlocksKeeps(Snap(), doctorId);
      availability := WithoutBlocksOf(availability, doctorId);
    }

    /** `INSERT INTO doctor_availability (doctor_id, day_of_week, start_time, end_time)`. */
    method InsertAvailability(b: AvailabilityRow)
      requires Valid()
      requires UserIs(users, b.doctorId, DOCTOR)
      modifies this
      ensures Valid() && clientsInUse == old(clientsInUse)
      ensures Snap() == old(Snap()).(availability := old(availability) + [b])
    {
      InsertBlockKeeps(Snap(), b);
      availability := availability + [b];
    }

    /** `UPDATE users SET is_doctor_verified = true WHERE id = $2 AND role = 'doctor'`. */
    method SetDoctorVerified(id: int)
      requires Valid()
      modifies this
      ensures Valid() && clientsInUse == old(clientsInUse)
      ensures Snap() == old(Snap()).(users := SetVerified(old(users), id))
    {
      VerifyKeeps(Snap(), id);
      users := SetVerified(users, id);
    }

    /** `DELETE FROM appointments WHERE patient_id = $1 OR doctor_id = $1`. */
    method DeleteAppointmentsOf(id: int)
      requires Valid()
      modifies this
      ensures Valid() && clientsInUse == old(clientsInUse)
      ensures Snap() == old(Snap()).(appointments := WithoutAppointmentsOf(old(appointments), id))
    {
      DeleteAppointmentsOfKeeps(Snap(), id);
      appointments := WithoutAppointmentsOf(appointments, id);
    }

    /** `DELETE FROM doctor_profiles WHERE user_id = $1`. */
    method DeleteProfileOf(id: int)
      requires Valid()
      modifies this
      ensures Valid() && clientsInUse == old(clientsInUse)
      ensures Snap() == old(Snap()).(profiles := WithoutProfileOf(old(profiles), id))
    {
      DeleteProfileOfKeeps(Snap(), id);
      profiles := WithoutProfileOf(profiles, id);
    }

    /** `DELETE FROM users WHERE id = $1 RETURNING id`, once no row refers to
        the user; `found` tells whether a row was returned. */
    method DeleteUser(id: int) returns (found: bool)
      requires Valid() && Unreferenced(Snap(), id)
      modifies this
      ensures Valid() && clientsInUse == old(clientsInUse)
      ensures found <==> FindUser(old(users), id).Some?
      ensures Snap() == old(Snap()).(users := WithoutUser(old(users), id))
    {
      found := FindUser(users, id).Some?;
      DeleteUserRowKeeps(Snap(), id);
      users := WithoutUser(users, id);
    }
  }
}
