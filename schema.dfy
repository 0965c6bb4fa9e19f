/**
 * The four tables of the booking store (users, doctor_profiles,
 * doctor_availability, appointments), the role names the handlers compare
 * against, and the HTTP outcome every handler produces.
 */
module Schema {
  import opened Wrappers

  // ------------------------------------------------------------------- roles

  /** Roles are stored as text and compared as text. */
  const PATIENT: string := "patient"
  const DOCTOR: string := "doctor"
  const ADMIN: string := "admin"

  // ------------------------------------------------------------------ tables

  /** A row of `users`. `createdAt` is the value of the store's clock at insertion. */
  datatype User = User(
    id: int,
    name: string,
    email: string,
    passwordHash: string,
    role: string,
    city: Option<string>,
    country: Option<string>,
    verified: bool,          // is_doctor_verified
    createdAt: nat)

  /** The columns `protect` selects and attaches to the request as `req.user`;
      the same columns `/me` returns. It has no password column. */
  datatype PublicUser = PublicUser(
    id: int,
    name: string,
    email: string,
    role: string,
    city: Option<string>,
    country: Option<string>,
    verified: bool)

  function Public(u: User): (p: PublicUser)
    ensures p.id == u.id && p.role == u.role && p.verified == u.verified
  {
    PublicUser(u.id, u.name, u.email, u.role, u.city, u.country, u.verified)
  }

  /** Appointment status; deleting is removal of the row, not a status. */
  datatype Status = Pending | Accepted | Rejected

  /** The text stored in the status column. */
  function StatusName(s: Status): string {
    match s
    case Pending => "pending"
    case Accepted => "accepted"
    case Rejected => "rejected"
  }

  /** A row of `appointments`. */
  datatype Appointment = Appointment(
    id: int,
    patientId: int,
    doctorId: int,
    status: Status,
    requestMessage: string,
    appointmentDate: Option<string>,
    createdAt: nat)

  /** A row of `doctor_profiles`; `userId` is unique in the table. */
  datatype ProfileRow = ProfileRow(userId: int, profession: string, clinicAddress: string)

  /** A row of `doctor_availability`: one weekly time block of one doctor. */
  datatype AvailabilityRow = AvailabilityRow(doctorId: int, dayOfWeek: string, startTime: string, endTime: string)

  // --------------------------------------------------------------- responses

  /** What a handler sends: a success status with a body, or an error status
      with the JSON `message`. */
  datatype Response<T> = Ok(code: int, body: T) | Fail(code: int, message: string)

  /** The `isDoctor` helper's refusal (backend/routes/main.js). */
  const DOCTOR_REQUIRED: string := "Access denied. Doctor access required."
  /** The `adminProtect` middleware's refusal (backend/routes/admin.js). */
  const ADMIN_REQUIRED: string := "Access denied. Admin privileges required."
}
