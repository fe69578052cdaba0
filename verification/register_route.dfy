/** `POST /api/auth/register` (app/api/auth/register/route.ts): calls `registerUser`
    without a role and maps its outcome to a response. */
module RegisterRoute {
  import opened Wrappers
  import Json
  import AuthDb

  datatype Body = UserBody(user: AuthDb.PublicUser) | Message(text: string)
  datatype Response = Response(status: int, body: Body)

  const InternalError := "Error interno del servidor"

  /** The try/catch of the route: the created user with 200, the duplicate-email message
      with 409, any other failure as a generic 500. */
  function Respond(outcome: Result<AuthDb.PublicUser, string>): (r: Response)
    ensures outcome.Ok? <==> r.status == 200
    ensures outcome.Ok? ==> r.body == UserBody(outcome.value)
    ensures r.status == 409 <==> outcome == Err(AuthDb.EmailInUse)
    ensures r.status == 409 ==> r.body == Message(AuthDb.EmailInUse)
    ensures outcome.Err? && outcome.error != AuthDb.EmailInUse ==> r == Response(500, Message(InternalError))
  {
    match outcome
    case Ok(u) => Response(200, UserBody(u))
    case Err(m) =>
      if m == AuthDb.EmailInUse then Response(409, Message(m))
      else Response(500, Message(InternalError))
  }

  /** The status alone tells the client which of the three outcomes happened. */
  lemma StatusDeterminesOutcomeKind(a: Result<AuthDb.PublicUser, string>, b: Result<AuthDb.PublicUser, string>)
    requires Respond(a).status == Respond(b).status
    ensures a.Ok? <==> b.Ok?
    ensures a == Err(AuthDb.EmailInUse) <==> b == Err(AuthDb.EmailInUse)
  {
  }

  /** `POST(request)`. `request` is the parsed body (None when `request.json()` throws).
      An absent field reaches the driver or bcrypt as `undefined` and throws: a missing
      email fails the duplicate lookup, a missing password fails the hash, a missing name
      fails the insert; each ends in the generic 500 with the table untouched. */
  method Post(table: AuthDb.UsersTable, request: Option<Json.Object>, salt: nat, now: int)
    returns (resp: Response)
    requires table.Valid()
    modifies table
    ensures table.Valid()
    ensures request.None? || "email" !in request.value ==>
              resp == Response(500, Message(InternalError)) && table.rows == old(table.rows)
    ensures request.Some? && "email" in request.value && AuthDb.HasEmail(old(table.rows), request.value["email"]) ==>
              resp == Response(409, Message(AuthDb.EmailInUse)) && table.rows == old(table.rows)
    ensures resp.status == 200 ==>
              && request.Some? && "name" in request.value && "email" in request.value && "password" in request.value
              && resp.body.UserBody? && resp.body.user.role == "user" && resp.body.user.status == "active"
              && resp.body.user.email == request.value["email"] && resp.body.user.name == request.value["name"]
              && table.rows == old(table.rows) + [AuthDb.UserRow(old(table.nextId), request.value["name"],
                   request.value["email"], AuthDb.Hash(request.value["password"], salt), "user", "active", now)]
    ensures request.Some? && "name" in request.value && "email" in request.value && "password" in request.value
            && !AuthDb.HasEmail(old(table.rows), request.value["email"]) ==>
              resp == Response(200, UserBody(AuthDb.PublicUser(old(table.nextId), request.value["name"],
                                                               request.value["email"], "user", "active", None)))
    ensures request.Some? && "email" in request.value && !AuthDb.HasEmail(old(table.rows), request.value["email"])
            && ("name" !in request.value || "password" !in request.value) ==>
              resp == Response(500, Message(InternalError))
    ensures resp.status != 200 ==> table.rows == old(table.rows)
  {
    if request.None? || "email" !in request.value {
      return Response(500, Message(InternalError));
    }
    var body := request.value;
    if AuthDb.HasEmail(table.rows, body["email"]) || ("name" in body && "password" in body) {
      var outcome := table.RegisterUser(if "name" in body then body["name"] else "", body["email"],
                                        if "password" in body then body["password"] else "", None, salt, now);
      resp := Respond(outcome);
    } else {
      resp := Respond(Err("Illegal arguments"));
    }
  }
}
