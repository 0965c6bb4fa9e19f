/**
 * The account routes (backend/routes/auth.js): register, login, `/me` and
 * logout. Password hashing and token signing are opaque here: the hash of
 * the submitted password is passed in, and `sign`/`compare` stand for
 * `jwt.sign` and `bcrypt.compare`.
 */
module AuthRoutes {
  import opened Wrappers
  import opened Collections
  import opened Strings
  import opened Schema
  import opened Tables
  import opened Consistency
  import opened Db
  import opened Middleware

  /** `res.cookie(name, value, { ..., maxAge })`; the other options are fixed. */
  datatype Cookie = Cookie(name: string, value: string, maxAgeMs: int)

  /** 30 days, the `maxAge` of the login cookie. */
  const TOKEN_MAX_AGE_MS: int := 30 * 24 * 60 * 60 * 1000

  /** A response together with the cookie it sets, if any. */
  datatype Reply<T> = Reply(response: Response<T>, cookie: Option<Cookie>)

  const MISSING_FIELDS: string := "Please provide all required fields"
  const INVALID_CREDENTIALS: string := "Invalid credentials"

  // ---------------------------------------------------------------- register

  /** The JSON body of `POST /register`; an absent field is `None`. */
  datatype RegisterForm = RegisterForm(
    name: Option<string>, email: Option<string>, password: Option<string>,
    role: Option<string>, city: Option<string>, country: Option<string>)

  /** The row `RETURNING` gives back: a doctor's insert returns the location
      and the verification flag, a patient's only id, name, email and role. */
  datatype Registered =
    | DoctorRegistered(doctor: PublicUser)
    | PatientRegistered(id: int, name: string, email: string, role: string)

  /** `role === 'doctor' ? 'doctor' : 'patient'`. */
  function NormaliseRole(role: Option<string>): (r: string)
    ensures r == DOCTOR || r == PATIENT
    ensures r == DOCTOR <==> role == Some(DOCTOR)
  {
    if role == Some(DOCTOR) then DOCTOR else PATIENT
  }

  /** Nobody can register as an administrator: asking for it gives a patient. */
  lemma NoSelfMadeAdmin(role: Option<string>)
    ensures NormaliseRole(role) != ADMIN
    ensures NormaliseRole(Some(ADMIN)) == PATIENT
  {
  }

  /**
   * `POST /register`. `hash` is `bcrypt.hash(password, 10)`; `sign` is
   * `generateToken`. The checks run in the source's order: missing fields,
   * then a taken email, then a doctor's missing location.
   */
  method Register(db: Store, form: RegisterForm, hash: string, sign: int -> string) returns (r: Reply<Registered>)
    requires db.Valid()
    modifies db
    ensures db.Valid()
    ensures db.clientsInUse == old(db.clientsInUse)
    ensures !Truthy(form.name) || !Truthy(form.email) || !Truthy(form.password) ==>
      r == Reply(Fail(400, MISSING_FIELDS), None)
    ensures Truthy(form.name) && Truthy(form.email) && Truthy(form.password) &&
            FindUserByEmail(old(db.users), form.email.value).Some? ==>
      r == Reply(Fail(400, "User already exists"), None)
    ensures Truthy(form.name) && Truthy(form.email) && Truthy(form.password) &&
            FindUserByEmail(old(db.users), form.email.value).None? &&
            NormaliseRole(form.role) == DOCTOR && (!Truthy(form.city) || !Truthy(form.country)) ==>
      r == Reply(Fail(400, "Doctors must provide city and country."), None)
    ensures r.response.Ok? <==>
      && Truthy(form.name) && Truthy(form.email) && Truthy(form.password)
      && FindUserByEmail(old(db.users), form.email.value).None?
      && (NormaliseRole(form.role) == DOCTOR ==> Truthy(form.city) && Truthy(form.country))
    ensures r.response.Fail? ==> db.Snap() == old(db.Snap())
    ensures r.response.Ok? ==>
      var role := NormaliseRole(form.role);
      var doctor := role == DOCTOR;
      var n := User(old(db.nextUserId), form.name.value, form.email.value, hash, role,
                    if doctor then form.city else None, if doctor then form.country else None,
                    false, old(db.clock));
      && db.users == old(db.users) + [n]
      && db.Snap() == old(db.Snap()).(users := db.users, clock := old(db.clock) + 1, nextUserId := old(db.nextUserId) + 1)
      && r.response.code == 201
      && r.response.body == (if doctor then DoctorRegistered(Public(n)) else PatientRegistered(n.id, n.name, n.email, role))
      && r.cookie == Some(Cookie("token", sign(n.id), TOKEN_MAX_AGE_MS))
  {
    var role := NormaliseRole(form.role);
    if !Truthy(form.name) || !Truthy(form.email) || !Truthy(form.password) {
      return Reply(Fail(400, MISSING_FIELDS), None);
    }
    var email := form.email.value;
    if FindUserByEmail(db.users, email).Some? {
      return Reply(Fail(400, "User already exists"), None);
    }
    if role == DOCTOR && (!Truthy(form.city) || !Truthy(form.country)) {
      return Reply(Fail(400, "Doctors must provide city and country."), None);
    }
    var doctor := role == DOCTOR;
    var n := db.InsertUser(form.name.value, email, hash, role,
                           if doctor then form.city else None, if doctor then form.country else None);
    var body := if doctor then DoctorRegistered(Public(n)) else PatientRegistered(n.id, n.name, n.email, role);
    r := Reply(Ok(201, body), Some(Cookie("token", sign(n.id), TOKEN_MAX_AGE_MS)));
  }

  // ------------------------------------------------------------------- login

  /**
   * `POST /login`. `compare(password, hash)` is `bcrypt.compare`; `sign` is
   * `generateToken`. The body is the public record: it has no password column.
   */
  function Login(users: seq<User>, email: Option<string>, password: Option<string>,
                 compare: (string, string) -> bool, sign: int -> string): (r: Reply<PublicUser>)
    ensures r.response.Fail? ==> r.cookie.None? && r.response.code == 400
    ensures r.response.Ok? <==>
      && Truthy(email) && Truthy(password)
      && FindUserByEmail(users, email.value).Some?
      && compare(password.value, FindUserByEmail(users, email.value).value.passwordHash)
    ensures r.response.Ok? ==>
      var u := FindUserByEmail(users, email.value).value;
      r.response == Ok(200, Public(u)) && r.cookie == Some(Cookie("token", sign(u.id), TOKEN_MAX_AGE_MS))
  {
    if !Truthy(email) || !Truthy(password) then Reply(Fail(400, MISSING_FIELDS), None)
    else
      match FindUserByEmail(users, email.value)
      case None => Reply(Fail(400, INVALID_CREDENTIALS), None)
      case Some(u) =>
        if !compare(password.value, u.passwordHash) then Reply(Fail(400, INVALID_CREDENTIALS), None)
        else Reply(Ok(200, Public(u)), Some(Cookie("token", sign(u.id), TOKEN_MAX_AGE_MS)))
  }

  /** An unknown email and a wrong password get the very same reply, so the
      reply does not tell which emails are registered. */
  lemma LoginDoesNotRevealAccounts(users: seq<User>, unknown: string, known: string, password: string,
                                   compare: (string, string) -> bool, sign: int -> string)
    requires unknown != "" && known != "" && password != ""
    requires FindUserByEmail(users, unknown).None?
    requires FindUserByEmail(users, known).Some? && !compare(password, FindUserByEmail(users, known).value.passwordHash)
    ensures Login(users, Some(unknown), Some(password), compare, sign) == Login(users, Some(known), Some(password), compare, sign)
    ensures Login(users, Some(unknown), Some(password), compare, sign) == Reply(Fail(400, INVALID_CREDENTIALS), None)
  {
  }

  /** With unique emails, login succeeds exactly for a stored row with that
      email whose hash matches, and answers with that row's public record. */
  lemma LoginFindsTheAccount(users: seq<User>, u: User, password: string,
                             compare: (string, string) -> bool, sign: int -> string)
    requires Pairwise(users, UsersBefore)
    requires u in users && u.email != "" && password != ""
    ensures Login(users, Some(u.email), Some(password), compare, sign).response ==
      if compare(password, u.passwordHash) then Ok(200, Public(u)) else Fail(400, INVALID_CREDENTIALS)
  {
    FindByEmailUnique(users, u);
  }

  /** With unique emails, the lookup by email finds the very row. */
  lemma {:induction false} FindByEmailUnique(users: seq<User>, u: User)
    requires Pairwise(users, UsersBefore)
    requires u in users
    ensures FindUserByEmail(users, u.email) == Some(u)
  {
    if users[0] != u {
      assert users[0].email != u.email by {
        var j :| 0 <= j < |users| && users[j] == u;
        assert UsersBefore(users[0], users[j]);
      }
      assert Pairwise(users[1..], UsersBefore) by {
        forall i, j | 0 <= i < j < |users[1..]| ensures UsersBefore(users[1..][i], users[1..][j]) {
          assert users[1..][i] == users[i + 1] && users[1..][j] == users[j + 1];
        }
      }
      FindByEmailUnique(users[1..], u);
    }
  }

  // --------------------------------------------------------------------- /me

  /** `GET /me`: the stored record of the user behind the request. */
  function Me(users: seq<User>, actor: PublicUser): (r: Response<PublicUser>)
    ensures r.Ok? <==> FindUser(users, actor.id).Some?
    ensures r.Ok? ==> r == Ok(200, Public(FindUser(users, actor.id).value))
    ensures r.Fail? ==> r == Fail(404, "User not found")
  {
    match FindUser(users, actor.id)
    case None => Fail(404, "User not found")
    case Some(u) => Ok(200, Public(u))
  }

  /** Behind `protect`, `/me` always answers with the record `protect` attached. */
  lemma MeAfterProtect(users: seq<User>, token: Option<string>, verify: string -> Option<int>)
    requires Authenticate(users, token, verify).Pass?
    ensures Me(users, Authenticate(users, token, verify).user) == Ok(200, Authenticate(users, token, verify).user)
  {
  }

  // ------------------------------------------------------------------ logout

  /** `POST /logout`: always succeeds and overwrites the cookie with an empty
      token that expires after one millisecond. */
  function Logout(): (r: Reply<string>)
    ensures r.response.Ok? && r.cookie.Some?
    ensures r.cookie.value.name == "token" && r.cookie.value.value == ""
  {
    Reply(Ok(200, "Logged out successfully"), Some(Cookie("token", "", 1)))
  }

  /** A request carrying the cookie logout leaves behind is refused by `protect`
      exactly like one without a cookie. */
  lemma LoggedOutIsRefused(users: seq<User>, verify: string -> Option<int>)
    ensures Authenticate(users, Some(Logout().cookie.value.value), verify) == Refuse(401, NO_TOKEN)
  {
  }
}
