/**
 * Registration (app/api/auth/register/route.js, with createUser and
 * createAuthToken from lib/auth.js).
 *
 * The handler checks the email, the password, the name and the role, in
 * that order; inserts the user; and only then signs a token. Every
 * exception lands in one catch block, which answers 409 when the message
 * mentions a duplicate key and 500 otherwise. Hashing, the insert's error
 * message and signing are inputs.
 */
module RegisterRoute {
  import opened Wrappers
  import opened Strings
  import opened Js
  import opened Http
  import Validation

  datatype Body = Body(email: Value, password: Value, name: Value, role: Value)

  /** A users row, with the password hash. */
  datatype User = User(id: string, email: Value, passwordHash: string, name: Value, role: Value)

  /** What `RETURNING id, email, name, role` gives back: the row without its hash. */
  datatype UserInfo = UserInfo(id: string, email: Value, name: Value, role: Value)

  datatype Registered = Registered(user: UserInfo, token: string)

  const Roles: seq<string> := ["admin", "manager", "employee"]

  /** `role = 'employee'`: the default applies to a missing role only. */
  function RoleOf(role: Value): Value {
    if role == Undefined then Str("employee") else role
  }

  /** The checks' verdict: the role to store, a 400 message, or the TypeError `name.trim` raises. */
  datatype Checked = Accepted(role: Value) | Rejected(message: string) | Throws

  function CheckBody(body: Body): (r: Checked)
    ensures !Validation.ValidateEmail(body.email) ==> r == Rejected("Invalid email address")
    ensures Validation.ValidateEmail(body.email) && !Validation.ValidatePassword(body.password) ==>
              r == Rejected("Password must be at least 8 characters")
    ensures Validation.ValidateEmail(body.email) && Validation.ValidatePassword(body.password) ==>
              (!Truthy(body.name) || (body.name.Str? && IsBlank(body.name.s)) ==> r == Rejected("Name is required"))
              && (Truthy(body.name) && !body.name.Str? ==> r == Throws)
    ensures r.Accepted? <==>
              Validation.ValidateEmail(body.email) && Validation.ValidatePassword(body.password)
              && body.name.Str? && !IsBlank(body.name.s) && RoleOf(body.role).Str? && RoleOf(body.role).s in Roles
    ensures r.Accepted? ==> r.role == RoleOf(body.role)
  {
    if !Validation.ValidateEmail(body.email) then Rejected("Invalid email address")
    else if !Validation.ValidatePassword(body.password) then Rejected("Password must be at least 8 characters")
    else if !Truthy(body.name) then Rejected("Name is required")
    else if !body.name.Str? then Throws
    else
      TrimEmptyIffBlank(body.name.s);
      if |Trim(body.name.s)| == 0 then Rejected("Name is required")
      else
        var role := RoleOf(body.role);
        Validation.IncludesMeaning(Roles, role);
        if !Validation.Includes(Roles, role) then Rejected("Invalid role")
        else Accepted(role)
  }

  /** With the other checks passed, a missing role registers an employee. */
  lemma RoleDefaultsToEmployee(email: Value, password: Value, name: Value)
    requires CheckBody(Body(email, password, name, Str("employee"))).Accepted?
    ensures CheckBody(Body(email, password, name, Undefined)) == Accepted(Str("employee"))
  {
  }

  /** The whitelist is matched exactly: "Admin" is refused where "admin" passes. */
  lemma RoleIsCaseSensitive(email: Value, password: Value, name: Value)
    requires CheckBody(Body(email, password, name, Str("admin"))).Accepted?
    ensures CheckBody(Body(email, password, name, Str("Admin"))) == Rejected("Invalid role")
  {
    assert "Admin" != Roles[0] && "Admin" != Roles[1] && "Admin" != Roles[2];
  }

  const Generic := "Failed to register user"

  /** The catch block: a message mentioning a duplicate key is 409, anything else 500. */
  function ErrorReply(message: string): (r: Reply<Registered>)
    ensures r.data.None?
    ensures r.status == 409 <==> Contains(message, "duplicate key")
    ensures r.status == 409 ==> r.error == "Email already registered"
    ensures r.status != 409 ==> r.status == 500 && r.error == Generic
  {
    if Contains(message, "duplicate key") then Fail(409, "Email already registered") else Fail(500, Generic)
  }

  /** The unique-violation message of the users table maps to 409; the hashing failure to 500. */
  lemma ErrorMapping(rest: string)
    ensures ErrorReply("duplicate key" + rest).status == 409
    ensures ErrorReply("Failed to hash password").status == 500
  {
    assert OccursAt("duplicate key" + rest, "duplicate key", 0);
    var m := "Failed to hash password";
    forall i | 0 <= i <= |m| - 13
      ensures !OccursAt(m, "duplicate key", i)
    {
      assert m[i..i + 13][0] != 'd' || m[i..i + 13][1] != 'u';
    }
  }

  function Info(u: User): (i: UserInfo)
    ensures i.id == u.id && i.email == u.email && i.name == u.name && i.role == u.role
  {
    UserInfo(u.id, u.email, u.name, u.role)
  }

  class Users {
    var rows: seq<User>

    constructor ()
      ensures rows == []
    {
      rows := [];
    }

    /**
     * POST /api/auth/register. `body` is None when request.json() throws;
     * `hash` is None when hashing fails; `insertError` is the message of the
     * error the INSERT raises, if it raises one; `token` is None when
     * signing fails.
     */
    method Register(body: Option<Body>, uuid: string, hash: Option<string>, insertError: Option<string>,
                    token: Option<string>)
      returns (reply: Reply<Registered>)
      modifies this
      ensures body.None? ==> reply == Fail(500, Generic) && rows == old(rows)
      ensures body.Some? && CheckBody(body.value).Rejected? ==>
                reply == Fail(400, CheckBody(body.value).message) && rows == old(rows)
      ensures body.Some? && CheckBody(body.value).Throws? ==> reply == Fail(500, Generic) && rows == old(rows)
      ensures body.Some? && CheckBody(body.value).Accepted? ==>
                var b := body.value;
                if hash.None? then reply == ErrorReply("Failed to hash password") && rows == old(rows)
                else if insertError.Some? then reply == ErrorReply(insertError.value) && rows == old(rows)
                else
                  var u := User(uuid, b.email, hash.value, b.name, CheckBody(b).role);
                  rows == old(rows) + [u]
                  && reply == if token.None? then Fail(500, Generic) else Ok(201, Registered(Info(u), token.value))
      // a token is issued only for a row that is now in the table
      ensures reply.status == 201 ==> |rows| == |old(rows)| + 1 && reply.data.value.user == Info(rows[|rows| - 1])
    {
      if body.None? {
        return Fail(500, Generic);
      }
      var b := body.value;
      var checked := CheckBody(b);
      if checked.Rejected? {
        return Fail(400, checked.message);
      }
      if checked.Throws? {
        return Fail(500, Generic);
      }
      if hash.None? {
        return ErrorReply("Failed to hash password");
      }
      if insertError.Some? {
        return ErrorReply(insertError.value);
      }
      var u := User(uuid, b.email, hash.value, b.name, checked.role);
      rows := rows + [u];
      if token.None? {
        return Fail(500, Generic);
      }
      return Ok(201, Registered(Info(u), token.value));
    }
  }
}
