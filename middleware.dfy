/**
 * The `protect` middleware (backend/middleware/auth.js): a request passes
 * only with a token cookie that verifies and names an existing user, and
 * then carries that user's stored record as `req.user`.
 */
module Middleware {
  import opened Wrappers
  import opened Strings
  import opened Schema
  import opened Tables

  const NO_TOKEN: string := "Not authorized, no token"
  const TOKEN_FAILED: string := "Not authorized, token failed"
  const USER_NOT_FOUND: string := "Not authorized, user not found"

  /** The decision of the guard chain. */
  datatype Gate = Pass(user: PublicUser) | Refuse(code: int, message: string)

  /** `actor` is what the store holds for its id right now: the only kind of
      `req.user` the handlers behind `protect` ever see. */
  predicate SessionUser(users: seq<User>, actor: PublicUser) {
    FindUser(users, actor.id).Some? && Public(FindUser(users, actor.id).value) == actor
  }

  /**
   * The guard chain of `protect`. `token` is the `token` cookie; `verify`
   * stands for `jwt.verify` with the server secret followed by reading the
   * `id` claim, `None` when it throws.
   */
  function Authenticate(users: seq<User>, token: Option<string>, verify: string -> Option<int>): (g: Gate)
    ensures g.Refuse? ==> g.code == 401
    ensures !Truthy(token) ==> g == Refuse(401, NO_TOKEN)
    ensures Truthy(token) && verify(token.value).None? ==> g == Refuse(401, TOKEN_FAILED)
    ensures g.Pass? <==>
      Truthy(token) && verify(token.value).Some? && FindUser(users, verify(token.value).value).Some?
    ensures g.Pass? ==> g.user.id == verify(token.value).value && SessionUser(users, g.user)
  {
    if !Truthy(token) then Refuse(401, NO_TOKEN)
    else
      match verify(token.value)
      case None => Refuse(401, TOKEN_FAILED)
      case Some(id) =>
        match FindUser(users, id)
        case None => Refuse(401, USER_NOT_FOUND)
        case Some(u) => Pass(Public(u))
  }

  /** The role a later check reads is the role stored for the token's id at
      request time: the token carries the id and nothing else. */
  lemma RoleIsStoredRole(users: seq<User>, token: Option<string>, verify: string -> Option<int>)
    requires Authenticate(users, token, verify).Pass?
    ensures Authenticate(users, token, verify).user.role == FindUser(users, verify(token.value).value).value.role
    ensures Authenticate(users, token, verify).user.verified == FindUser(users, verify(token.value).value).value.verified
  {
  }

  /** Two stores that agree on the record for the token's id give the same
      decision, whatever else they hold. */
  lemma DecisionDependsOnlyOnRecord(a: seq<User>, b: seq<User>, token: Option<string>, verify: string -> Option<int>)
    requires Truthy(token) && verify(token.value).Some?
    requires FindUser(a, verify(token.value).value) == FindUser(b, verify(token.value).value)
    ensures Authenticate(a, token, verify) == Authenticate(b, token, verify)
  {
  }

  /** An Express request as `protect` and the handlers after it see it. */
  class Request {
    /** `req.user`, set by `protect`. */
    var user: Option<PublicUser>
    /** How often `next()` has been called. */
    var nextCalls: nat
    /** The response sent, if one was. */
    var sent: Option<Response<PublicUser>>

    constructor ()
      ensures user.None? && nextCalls == 0 && sent.None?
    {
      user, nextCalls, sent := None, 0, None;
    }

    /** `protect(req, res, next)`: on success `req.user` is the stored record
        and `next` runs once; otherwise a 401 goes out and `next` never runs. */
    method Protect(users: seq<User>, token: Option<string>, verify: string -> Option<int>)
      requires user.None? && nextCalls == 0 && sent.None?
      modifies this
      ensures Authenticate(users, token, verify).Pass? ==>
        user == Some(Authenticate(users, token, verify).user) && nextCalls == 1 && sent.None?
      ensures Authenticate(users, token, verify).Refuse? ==>
        user.None? && nextCalls == 0 &&
        sent == Some(Fail(401, Authenticate(users, token, verify).message))
    {
      var g := Authenticate(users, token, verify);
      match g
      case Pass(u) =>
        user := Some(u);
        nextCalls := nextCalls + 1;
      case Refuse(code, message) =>
        sent := Some(Fail(code, message));
    }
  }
}
