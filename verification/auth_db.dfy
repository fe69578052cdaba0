/** The users table and its queries (lib/auth-db.ts). The MySQL table is a sequence of
    rows in table order; bcrypt is an ideal one-way digest. */
module AuthDb {
  import opened Wrappers
  import ListOps

  /** A bcrypt digest, standing for an ideal one-way function of a password and a salt:
      `source` names the password it was made from and is read only by `Matches`, never
      handed out or stored as text. */
  datatype Digest = Bcrypt(salt: nat, source: string)

  /** `bcrypt.hash(password, 10)` with the salt drawn by bcrypt as a parameter. */
  function Hash(password: string, salt: nat): Digest {
    Bcrypt(salt, password)
  }

  /** `bcrypt.compare(candidate, digest)`. */
  predicate Matches(candidate: string, digest: Digest) {
    digest.source == candidate
  }

  /** bcrypt's contract as the code relies on it: a digest matches the password it was made
      from, whatever the salt, and no other. */
  lemma HashContract(password: string, candidate: string, salt: nat)
    ensures Matches(password, Hash(password, salt))
    ensures Matches(candidate, Hash(password, salt)) ==> candidate == password
  {
  }

  /** A row of the `users` table. */
  datatype UserRow = UserRow(id: nat, name: string, email: string, password: Digest,
                             role: string, status: string, createdAt: int)

  /** A user as handed out of this module: every column except the password. */
  datatype PublicUser = PublicUser(id: nat, name: string, email: string, role: string,
                                   status: string, createdAt: Option<int>)

  const EmailInUse := "El email ya está en uso"

  /** `const { password: _, ...rest } = row`. */
  function Stripped(row: UserRow): (u: PublicUser)
    ensures u.id == row.id && u.name == row.name && u.email == row.email
    ensures u.role == row.role && u.status == row.status && u.createdAt == Some(row.createdAt)
  {
    PublicUser(row.id, row.name, row.email, row.role, row.status, Some(row.createdAt))
  }

  predicate HasEmail(rows: seq<UserRow>, email: string) {
    exists i :: 0 <= i < |rows| && rows[i].email == email
  }

  /** `SELECT * FROM users WHERE email = ? LIMIT 1`: the first row with that email, or null. */
  function GetUserByEmail(rows: seq<UserRow>, email: string): (r: Option<UserRow>)
    ensures r.None? <==> !HasEmail(rows, email)
    ensures r.Some? ==> exists i :: 0 <= i < |rows| && rows[i] == r.value && r.value.email == email &&
                                    forall j :: 0 <= j < i ==> rows[j].email != email
  {
    if rows == [] then None
    else if rows[0].email == email then Some(rows[0])
    else
      var rest := GetUserByEmail(rows[1..], email);
      assert forall i :: 1 <= i < |rows| ==> rows[i] == rows[1..][i - 1];
      rest
  }

  /** `verifyUserCredentials`: the stripped row when the email exists and the password
      matches its digest, null otherwise. */
  function VerifyUserCredentials(rows: seq<UserRow>, email: string, password: string): (r: Option<PublicUser>)
    ensures r.Some? <==> HasEmail(rows, email) && Matches(password, GetUserByEmail(rows, email).value.password)
    ensures r.Some? ==> r.value == Stripped(GetUserByEmail(rows, email).value)
  {
    match GetUserByEmail(rows, email)
    case None => None
    case Some(row) => if Matches(password, row.password) then Some(Stripped(row)) else None
  }

  /** An unknown email and a wrong password give the same answer, so a caller cannot tell
      which one failed. */
  lemma CredentialFailureIsUniform(rows: seq<UserRow>, email: string, password: string)
    requires !HasEmail(rows, email) || !Matches(password, GetUserByEmail(rows, email).value.password)
    ensures VerifyUserCredentials(rows, email, password) == None
  {
  }

  /** A successful check returns the row's own values for every column but the password. */
  lemma {:induction false} VerifiedUserIsRow(rows: seq<UserRow>, email: string, password: string)
    requires VerifyUserCredentials(rows, email, password).Some?
    ensures var u := VerifyUserCredentials(rows, email, password).value;
            exists i :: 0 <= i < |rows| && rows[i].email == email && Matches(password, rows[i].password) &&
                        u == Stripped(rows[i])
  {
    var row := GetUserByEmail(rows, email).value;
    var i :| 0 <= i < |rows| && rows[i] == row && row.email == email &&
             forall j :: 0 <= j < i ==> rows[j].email != email;
    assert rows[i].email == email && Matches(password, rows[i].password);
  }

  /** No two rows share an email. The register path keeps this; updateUser does not check it. */
  predicate UniqueEmails(rows: seq<UserRow>) {
    forall i, j :: 0 <= i < j < |rows| ==> rows[i].email != rows[j].email
  }

  /** With unique emails, the lookup finds the one row carrying the email, wherever it is. */
  lemma {:induction false} LookupFindsUniqueRow(rows: seq<UserRow>, k: nat)
    requires UniqueEmails(rows) && k < |rows|
    ensures GetUserByEmail(rows, rows[k].email) == Some(rows[k])
  {
    var row := GetUserByEmail(rows, rows[k].email).value;
    var i :| 0 <= i < |rows| && rows[i] == row && row.email == rows[k].email &&
             forall j :: 0 <= j < i ==> rows[j].email != rows[k].email;
    if i != k {
      assert false;
    }
  }

  /** The users table as the queries of lib/auth-db.ts see it. `nextId` is MySQL's
      auto-increment counter. */
  class UsersTable {
    var rows: seq<UserRow>
    var nextId: nat

    ghost predicate Valid()
      reads this
    {
      (forall i :: 0 <= i < |rows| ==> rows[i].id < nextId) &&
      (forall i, j :: 0 <= i < j < |rows| ==> rows[i].id != rows[j].id)
    }

    constructor (initial: seq<UserRow>, counter: nat)
      requires forall i :: 0 <= i < |initial| ==> initial[i].id < counter
      requires forall i, j :: 0 <= i < j < |initial| ==> initial[i].id != initial[j].id
      ensures Valid() && rows == initial && nextId == counter
    {
      rows := initial;
      nextId := counter;
    }

    /** `registerUser(name, email, password, role = "user")`; `role` None stands for the
        argument left out, `salt` for bcrypt's random salt, `now` for the created_at default. */
    method RegisterUser(name: string, email: string, password: string, role: Option<string>,
                        salt: nat, now: int) returns (r: Result<PublicUser, string>)
      requires Valid()
      modifies this
      ensures Valid()
      ensures HasEmail(old(rows), email) ==>
                r == Err(EmailInUse) && rows == old(rows) && nextId == old(nextId)
      ensures !HasEmail(old(rows), email) ==>
                var newRole := role.GetOr("user");
                && rows == old(rows) + [UserRow(old(nextId), name, email, Hash(password, salt), newRole, "active", now)]
                && nextId == old(nextId) + 1
                && r == Ok(PublicUser(old(nextId), name, email, newRole, "active", None))
      ensures UniqueEmails(old(rows)) ==> UniqueEmails(rows)
    {
      var existing := GetUserByEmail(rows, email);
      if existing.Some? {
        return Err(EmailInUse);
      }
      var newRole := role.GetOr("user");
      var id := nextId;
      rows := rows + [UserRow(id, name, email, Hash(password, salt), newRole, "active", now)];
      nextId := nextId + 1;
      r := Ok(PublicUser(id, name, email, newRole, "active", None));
    }

    /** `updateUser(id, {name, email, role, status})`: rewrites those four columns of the
        rows with that id and echoes the arguments back. */
    method UpdateUser(id: nat, name: string, email: string, role: string, status: string)
      returns (r: PublicUser)
      requires Valid()
      modifies this
      ensures Valid() && nextId == old(nextId) && |rows| == |old(rows)|
      ensures forall i :: 0 <= i < |rows| && old(rows)[i].id != id ==> rows[i] == old(rows)[i]
      ensures forall i :: 0 <= i < |rows| && old(rows)[i].id == id ==>
                rows[i] == old(rows)[i].(name := name, email := email, role := role, status := status)
      ensures r == PublicUser(id, name, email, role, status, None)
    {
      rows := ListOps.UpdateWhere(rows, (row: UserRow) => row.id == id,
                                  (row: UserRow) => row.(name := name, email := email, role := role, status := status));
      r := PublicUser(id, name, email, role, status, None);
    }

    /** `deleteUser(id)`: removes the rows with that id and answers true. */
    method DeleteUser(id: nat) returns (ok: bool)
      requires Valid()
      modifies this
      ensures Valid() && nextId == old(nextId) && ok
      ensures rows == ListOps.RemoveById(old(rows), (row: UserRow) => row.id, id)
      ensures forall i :: 0 <= i < |rows| ==> rows[i].id != id && rows[i] in old(rows)
      ensures forall i :: 0 <= i < |old(rows)| && old(rows)[i].id != id ==> old(rows)[i] in rows
    {
      ListOps.RemoveByIdKeepsDistinct(rows, (row: UserRow) => row.id, id);
      rows := ListOps.RemoveById(rows, (row: UserRow) => row.id, id);
      ok := true;
    }

    /** `SELECT id, name, email, role, status, created_at FROM users`. */
    function GetAllUsers(): (r: seq<PublicUser>)
      reads this
      ensures |r| == |rows|
      ensures forall i :: 0 <= i < |rows| ==> r[i] == Stripped(rows[i])
    {
      seq(|rows|, i requires 0 <= i < |rows| reads this => Stripped(rows[i]))
    }
  }

  /** Registering the same email twice: the second attempt fails with the duplicate-email
      error and leaves the table as the first left it. */
  method RegisterTwice(table: UsersTable, name: string, email: string, password: string, salt1: nat, salt2: nat, now: int)
    returns (first: Result<PublicUser, string>, second: Result<PublicUser, string>)
    requires table.Valid()
    modifies table
    ensures first.Ok? <==> !HasEmail(old(table.rows), email)
    ensures second == Err(EmailInUse)
    ensures first.Ok? ==> first.value.role == "user" && first.value.status == "active"
  {
    first := table.RegisterUser(name, email, password, None, salt1, now);
    if first.Ok? {
      assert table.rows[|table.rows| - 1].email == email;
    }
    second := table.RegisterUser(name, email, password, None, salt2, now);
  }
}
