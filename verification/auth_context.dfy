/** The client-side session holder (context/auth-context.tsx): the current `user`, a
    `loading` flag and the localStorage `user` slot. The fetches to the auth routes are
    inputs: either the request itself fails or a reply arrives with its `ok` flag and body. */
module AuthContext {
  import opened Wrappers
  import Json
  import LoginRoute

  datatype Reply = NetworkError | Reply(ok: bool, body: Json.Text)

  /** What a rejected call throws: an Error with a message, the SyntaxError of an
      unreadable body, or the fetch's own failure. */
  datatype Failure = Rejected(message: string) | UnreadableBody | NetworkFailure

  datatype Navigation = Nowhere | PushedTo(path: string)

  const LoginFallback := "Credenciales incorrectas"
  const RegisterFallback := "Error al registrar usuario"
  const OutsideProvider := "useAuth debe ser usado dentro de un AuthProvider"

  /** How `login` and `register` read a reply: a non-ok reply throws the body's `message`
      (or the fallback when it is missing or empty), an ok reply yields the body. Reading
      the body throws when it is not JSON. */
  function ReadReply(reply: Reply, fallback: string): (r: Result<Json.Object, Failure>)
    ensures reply.NetworkError? ==> r == Err(NetworkFailure)
    ensures reply.Reply? && reply.body.Other? ==> r == Err(UnreadableBody)
    ensures r.Ok? <==> reply.Reply? && reply.ok && reply.body.Encoded?
    ensures r.Ok? ==> r.value == reply.body.obj
    ensures reply.Reply? && !reply.ok && reply.body.Encoded? && Json.FieldOr(reply.body.obj, "message", "") != "" ==>
              r == Err(Rejected(reply.body.obj["message"]))
    ensures reply.Reply? && !reply.ok && reply.body.Encoded? && Json.FieldOr(reply.body.obj, "message", "") == "" ==>
              r == Err(Rejected(fallback))
  {
    match reply
    case NetworkError => Err(NetworkFailure)
    case Reply(ok, body) =>
      match Json.Parse(body)
      case None => Err(UnreadableBody)
      case Some(o) =>
        if ok then Ok(o) else Err(Rejected(Json.FieldOr(o, "message", fallback)))
  }

  /** `user?.role === "admin"`, the admin test every dashboard component repeats. */
  predicate IsAdmin(user: Option<Json.Object>) {
    user.Some? && Json.FieldIs(user.value, "role", "admin")
  }

  class AuthProvider {
    var user: Option<Json.Object>
    var loading: bool
    var stored: Option<Json.Text>
    var navigation: Navigation

    /** First render: no user, loading, the storage slot as the browser holds it. */
    constructor (slot: Option<Json.Text>)
      ensures user.None? && loading && stored == slot && navigation == Nowhere
      ensures !RendersChildren()
    {
      user := None;
      loading := true;
      stored := slot;
      navigation := Nowhere;
    }

    /** `{!loading && children}`. */
    predicate RendersChildren()
      reads this
    {
      !loading
    }

    /** The mount effect: a truthy stored entry that parses becomes the user; one that does
        not is removed; an empty or absent entry is left alone. Loading ends in every case. */
    method Init()
      requires user.None?
      modifies this
      ensures RendersChildren() && navigation == old(navigation)
      ensures old(stored).Some? && old(stored).value.Encoded? ==>
                user == Some(old(stored).value.obj) && stored == old(stored)
      ensures old(stored).Some? && old(stored).value.Other? && old(stored).value.raw != "" ==>
                user.None? && stored.None?
      ensures old(stored).None? || old(stored) == Some(Json.Other("")) ==>
                user.None? && stored == old(stored)
    {
      if stored.Some? && stored.value.Truthy() {
        match Json.Parse(stored.value)
        case Some(parsed) => user := Some(parsed);
        case None => stored := None;
      }
      loading := false;
    }

    /** `login(email, password)` once the reply to `POST /api/auth/login` is in. */
    method Login(reply: Reply) returns (r: Result<Json.Object, Failure>)
      modifies this
      ensures r == ReadReply(reply, LoginFallback)
      ensures r.Ok? ==> user == Some(r.value) && stored == Some(Json.Stringify(r.value))
      ensures r.Err? ==> user == old(user) && stored == old(stored)
      ensures loading == old(loading) && navigation == old(navigation)
    {
      r := ReadReply(reply, LoginFallback);
      if r.Ok? {
        stored := Some(Json.Stringify(r.value));
        user := Some(r.value);
      }
    }

    /** `logout()`: once `POST /api/auth/logout` answers, whatever its status, the user
        and the stored entry are cleared and the router goes to /login; if the fetch
        itself throws, the catch rethrows before anything is cleared. */
    method Logout(reply: Reply) returns (r: Result<(), Failure>)
      modifies this
      ensures reply.NetworkError? ==> r == Err(NetworkFailure) && user == old(user) &&
                                      stored == old(stored) && navigation == old(navigation)
      ensures reply.Reply? ==> r.Ok? && user.None? && stored.None? && navigation == PushedTo("/login")
      ensures loading == old(loading)
    {
      if reply.NetworkError? {
        return Err(NetworkFailure);
      }
      user := None;
      stored := None;
      navigation := PushedTo("/login");
      r := Ok(());
    }

    /** `register(name, email, password)`: reads the reply and changes no state at all. */
    method Register(reply: Reply) returns (r: Result<Json.Object, Failure>)
      ensures r == ReadReply(reply, RegisterFallback)
      ensures reply.Reply? && !reply.ok ==> r.Err?
    {
      r := ReadReply(reply, RegisterFallback);
    }
  }

  /** `useAuth()`: the provider's value, or the error thrown outside one. */
  function UseAuth(context: Option<AuthProvider>): (r: Result<AuthProvider, string>)
    ensures context.None? <==> r == Err(OutsideProvider)
    ensures context.Some? ==> r == Ok(context.value)
  {
    if context.None? then Err(OutsideProvider) else Ok(context.value)
  }

  /** A 401 from the login route reaches the caller as its own message. */
  lemma LoginRefusalMessage()
    ensures ReadReply(Reply(false, Json.Encoded(map["message" := "Credenciales incorrectas"])), LoginFallback) ==
              Err(Rejected("Credenciales incorrectas"))
  {
  }

  /** A successful login reply from the route becomes the client's user, and what is
      stored is read back as that same user by the next mount. */
  lemma {:induction false} LoginThenReload(request: Json.Object)
    requires LoginRoute.MatchCredentials(request).Some?
    ensures var u := LoginRoute.MatchCredentials(request).value;
            && ReadReply(Reply(true, Json.Stringify(u)), LoginFallback) == Ok(u)
            && Json.Parse(Json.Stringify(u)) == Some(u)
            && Json.Stringify(u).Truthy()
  {
    var u := LoginRoute.MatchCredentials(request).value;
    Json.ParseStringify(u);
  }

  /** The stored user logged in as admin is seen as admin after a reload. */
  lemma AdminLoginIsAdmin()
    ensures IsAdmin(Some(LoginRoute.AdminUser)) && !IsAdmin(Some(LoginRoute.RegularUser)) && !IsAdmin(None)
  {
  }
}
