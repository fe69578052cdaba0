/** `POST /api/auth/login` (app/api/auth/login/route.ts): two literal credential pairs,
    a 401 for anything else, and on success an httpOnly `user` cookie holding the JSON of
    the returned user. The users table is not consulted. */
module LoginRoute {
  import opened Wrappers
  import Json
  import AuthDb
  import AuthSession

  const AdminEmail := "admin@ecosoft.com"
  const AdminPassword := "Admin@123456!"
  const UserEmail := "usuario@ecosoft.com"
  const UserPassword := "Usuario@123456!"

  const AdminUser: Json.Object :=
    map["id" := "1", "name" := "Admin", "email" := AdminEmail, "role" := "admin", "status" := "active"]
  const RegularUser: Json.Object :=
    map["id" := "2", "name" := "Usuario", "email" := UserEmail, "role" := "user", "status" := "active"]

  const OneDay := 60 * 60 * 24

  datatype SameSite = Strict | Lax | NoRestriction
  datatype Cookie = Cookie(value: Json.Text, path: string, maxAge: int, httpOnly: bool,
                           secure: bool, sameSite: SameSite)

  datatype Response = Response(status: int, body: Json.Object)

  /** The if/else chain of lines 11-27: exact, case-sensitive equality on both fields.
      A request field that is absent never equals a literal. */
  function MatchCredentials(request: Json.Object): (r: Option<Json.Object>)
    ensures r == Some(AdminUser) <==>
              Json.FieldIs(request, "email", AdminEmail) && Json.FieldIs(request, "password", AdminPassword)
    ensures r == Some(RegularUser) <==>
              Json.FieldIs(request, "email", UserEmail) && Json.FieldIs(request, "password", UserPassword)
    ensures r.None? <==>
              !(Json.FieldIs(request, "email", AdminEmail) && Json.FieldIs(request, "password", AdminPassword)) &&
              !(Json.FieldIs(request, "email", UserEmail) && Json.FieldIs(request, "password", UserPassword))
  {
    assert AdminUser["id"] != RegularUser["id"];
    if Json.FieldIs(request, "email", AdminEmail) && Json.FieldIs(request, "password", AdminPassword) then
      Some(AdminUser)
    else if Json.FieldIs(request, "email", UserEmail) && Json.FieldIs(request, "password", UserPassword) then
      Some(RegularUser)
    else None
  }

  /** A known email with any other password is refused. */
  lemma WrongPasswordRefused(request: Json.Object)
    requires Json.FieldIs(request, "email", AdminEmail) || Json.FieldIs(request, "email", UserEmail)
    requires !Json.FieldIs(request, "password", AdminPassword) && !Json.FieldIs(request, "password", UserPassword)
    ensures MatchCredentials(request).None?
  {
  }

  /** Only the email and password fields matter: extra fields in the request change nothing. */
  lemma MatchDependsOnlyOnCredentials(request: Json.Object, other: Json.Object)
    requires ("email" in request <==> "email" in other) && ("password" in request <==> "password" in other)
    requires "email" in request ==> request["email"] == other["email"]
    requires "password" in request ==> request["password"] == other["password"]
    ensures MatchCredentials(request) == MatchCredentials(other)
  {
  }

  /** The browser's cookie jar for this site, as the route handler writes it. */
  class CookieStore {
    var user: Option<Cookie>

    constructor (initial: Option<Cookie>)
      ensures user == initial
    {
      user := initial;
    }

    /** `POST(request)`. `request` is the parsed body, None when `request.json()` throws;
        `production` is `NODE_ENV === "production"`. */
    method Post(request: Option<Json.Object>, production: bool) returns (resp: Response)
      modifies this
      ensures request.None? ==>
                resp == Response(500, map["message" := "Error interno del servidor"]) && user == old(user)
      ensures request.Some? && MatchCredentials(request.value).None? ==>
                resp == Response(401, map["message" := "Credenciales incorrectas"]) && user == old(user)
      ensures request.Some? && MatchCredentials(request.value).Some? ==>
                var u := MatchCredentials(request.value).value;
                && resp == Response(200, u)
                && user == Some(Cookie(Json.Stringify(u), "/", OneDay, true, production, Strict))
    {
      if request.None? {
        return Response(500, map["message" := "Error interno del servidor"]);
      }
      var u := MatchCredentials(request.value);
      if u.None? {
        return Response(401, map["message" := "Credenciales incorrectas"]);
      }
      user := Some(Cookie(Json.Stringify(u.value), "/", OneDay, true, production, Strict));
      resp := Response(200, u.value);
    }
  }

  /** The cookie the login route sets carries exactly the user it returned: parsing it
      gives back the response body. */
  lemma CookieCarriesResponse(request: Json.Object, production: bool)
    requires MatchCredentials(request).Some?
    ensures var u := MatchCredentials(request).value;
            Json.Parse(Cookie(Json.Stringify(u), "/", OneDay, true, production, Strict).value) == Some(u)
  {
  }

  /** The login route never looks at the users table, so a session built from its cookie
      still needs a row with the literal email: without one, `getSession` rejects the
      freshly logged-in user. */
  lemma {:induction false} LoginStillNeedsRow(request: Json.Object, rows: seq<AuthDb.UserRow>)
    requires MatchCredentials(request).Some?
    ensures var u := MatchCredentials(request).value;
            AuthSession.GetSession(Some(Json.Stringify(u)), rows, true).Some? <==> AuthDb.HasEmail(rows, u["email"])
    ensures var u := MatchCredentials(request).value;
            AuthSession.GetSession(Some(Json.Stringify(u)), rows, true).Some? ==>
              AuthSession.GetSession(Some(Json.Stringify(u)), rows, true).value ==
                AuthSession.Session(u["id"], u["name"], u["email"], u["role"])
  {
    var u := MatchCredentials(request).value;
    assert "email" in u && "id" in u && "name" in u && "role" in u;
    assert u["id"] != "" && u["name"] != "" && u["email"] != "" && u["role"] != "";
  }

  /** Logging in as the admin pair yields admin access exactly when the users table has
      a row for admin@ecosoft.com. */
  lemma AdminLoginGrantsAccessIffRow(rows: seq<AuthDb.UserRow>)
    ensures AuthSession.CheckAdminAccess(Some(Json.Stringify(AdminUser)), rows, true) <==>
              AuthDb.HasEmail(rows, AdminEmail)
  {
  }
}
