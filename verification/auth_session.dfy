/** Server-side session resolution (lib/auth.ts): the `user` cookie holds the JSON of a
    user token; a session exists when the token parses and its email still has a row in
    the users table. */
module AuthSession {
  import opened Wrappers
  import Json
  import AuthDb

  datatype Session = Session(id: string, name: string, email: string, role: string)

  const DefaultId := "0"
  const DefaultName := "Usuario"
  const DefaultEmail := "usuario@example.com"
  const DefaultRole := "user"

  /** `getSession()`. `cookie` is the value of the `user` cookie (None when there is
      none); `dbUp` is false when the users query throws, which the catch turns into null.
      A token without an `email` field makes the query's bind parameter undefined, which
      the driver rejects: that is a thrown query too. */
  function GetSession(cookie: Option<Json.Text>, rows: seq<AuthDb.UserRow>, dbUp: bool): (r: Option<Session>)
    ensures cookie.None? ==> r.None?
    ensures cookie.Some? && cookie.value.Other? ==> r.None?
    ensures r.Some? <==> cookie.Some? && cookie.value.Encoded? && dbUp && "email" in cookie.value.obj &&
                         AuthDb.HasEmail(rows, cookie.value.obj["email"])
    ensures r.Some? ==> var token := cookie.value.obj;
              && r.value.id == Json.FieldOr(token, "id", DefaultId)
              && r.value.name == Json.FieldOr(token, "name", DefaultName)
              && r.value.email == Json.FieldOr(token, "email", DefaultEmail)
              && r.value.role == Json.FieldOr(token, "role", DefaultRole)
  {
    if cookie.None? then None
    else match Json.Parse(cookie.value)
      case None => None
      case Some(token) =>
        if !dbUp || "email" !in token then None
        else if AuthDb.GetUserByEmail(rows, token["email"]).None? then None
        else Some(Session(Json.FieldOr(token, "id", DefaultId),
                          Json.FieldOr(token, "name", DefaultName),
                          Json.FieldOr(token, "email", DefaultEmail),
                          Json.FieldOr(token, "role", DefaultRole)))
  }

  /** Every field of a resolved session is a nonempty string: falsy token fields fall back
      to their defaults. */
  lemma SessionFieldsNonEmpty(cookie: Option<Json.Text>, rows: seq<AuthDb.UserRow>, dbUp: bool)
    requires GetSession(cookie, rows, dbUp).Some?
    ensures var s := GetSession(cookie, rows, dbUp).value;
            s.id != "" && s.name != "" && s.email != "" && s.role != ""
  {
  }

  /** The session's fields are the token's, never the row's: the row only has to exist. */
  lemma SessionIgnoresRowValues(token: Json.Object, rows1: seq<AuthDb.UserRow>, rows2: seq<AuthDb.UserRow>)
    requires "email" in token
    requires AuthDb.HasEmail(rows1, token["email"]) && AuthDb.HasEmail(rows2, token["email"])
    ensures GetSession(Some(Json.Encoded(token)), rows1, true) == GetSession(Some(Json.Encoded(token)), rows2, true)
    ensures GetSession(Some(Json.Encoded(token)), rows1, true).Some?
  {
  }

  /** `checkAdminAccess()`. */
  function CheckAdminAccess(cookie: Option<Json.Text>, rows: seq<AuthDb.UserRow>, dbUp: bool): (r: bool)
    ensures GetSession(cookie, rows, dbUp).None? ==> !r
    ensures r <==> GetSession(cookie, rows, dbUp).Some? && GetSession(cookie, rows, dbUp).value.role == "admin"
  {
    match GetSession(cookie, rows, dbUp)
    case None => false
    case Some(s) => s.role == "admin"
  }

  /** Admin access comes from the token's own `role` field, exactly "admin"; a token
      without one resolves to "user". */
  lemma AdminIffTokenRole(token: Json.Object, rows: seq<AuthDb.UserRow>)
    requires "email" in token && AuthDb.HasEmail(rows, token["email"])
    ensures CheckAdminAccess(Some(Json.Encoded(token)), rows, true) <==> Json.FieldIs(token, "role", "admin")
    ensures "role" !in token ==> !CheckAdminAccess(Some(Json.Encoded(token)), rows, true)
  {
  }

  /** The cookie is not signed and the row's role is never consulted: a token naming any
      registered email with role "admin" passes the admin check, even when that row's
      role is "user". */
  lemma {:induction false} TokenRoleOverridesRow(rows: seq<AuthDb.UserRow>, k: nat)
    requires k < |rows| && rows[k].role == "user"
    ensures CheckAdminAccess(Some(Json.Encoded(map["email" := rows[k].email, "role" := "admin"])), rows, true)
  {
    var token := map["email" := rows[k].email, "role" := "admin"];
    assert token["email"] == rows[k].email;
    assert AuthDb.HasEmail(rows, token["email"]);
  }
}
