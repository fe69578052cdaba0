/** The users table (components/users/user-table.tsx): search, view/edit dialog, delete
    after confirmation. */
module UserTable {
  import opened Wrappers
  import Text
  import ListOps
  import Search

  /** A row of the table. The sample rows carry both dates; a row written back from the
      edit dialog has neither, since the dialog's schema keeps only its five fields. */
  datatype User = User(id: string, name: string, email: string, role: string, status: string,
                       lastLogin: Option<string>, createdAt: Option<string>)

  /** What the edit dialog hands to `onSave`: the object its zod schema parsed, which holds
      id, name, e-mail, role and status and drops every other key. */
  datatype UserFormValues = UserFormValues(id: string, name: string, email: string, role: string, status: string)

  /** The row `handleSave` stores for the dialog's values: the parsed object itself. */
  function SavedRow(data: UserFormValues): (u: User)
    ensures u.id == data.id && u.name == data.name && u.email == data.email
    ensures u.role == data.role && u.status == data.status
    ensures u.lastLogin.None? && u.createdAt.None?
  {
    User(data.id, data.name, data.email, data.role, data.status, None, None)
  }

  /** A row whose two date cells `formatDate` can render; an absent date makes
      `Intl.DateTimeFormat.format` throw on the invalid date. */
  predicate Renderable(u: User) {
    u.lastLogin.Some? && u.createdAt.Some?
  }

  datatype DialogMode = View | Edit

  function IdOf(u: User): string { u.id }

  /** The search looks at name and e-mail. */
  function Searched(u: User): seq<string> {
    [u.name, u.email]
  }

  predicate Matches(u: User, term: string) {
    Search.AnyFieldContains(Searched(u), term)
  }

  function MatchesTerm(term: string): User -> bool {
    Search.Keep(Searched, term)
  }

  /** `filteredUsers`. */
  function FilteredUsers(users: seq<User>, term: string): (r: seq<User>)
    ensures forall i :: 0 <= i < |r| ==> r[i] in users && Matches(r[i], term)
    ensures forall i :: 0 <= i < |users| && Matches(users[i], term) ==> users[i] in r
  {
    Search.Rows(users, Searched, term)
  }

  /** An empty search box lists every user. */
  lemma EmptySearchListsAll(users: seq<User>)
    ensures FilteredUsers(users, "") == users
  {
    forall i | 0 <= i < |users| ensures MatchesTerm("")(users[i]) {
      Text.EmptyTermMatches(users[i].name);
      assert Searched(users[i])[0] == users[i].name;
      assert Matches(users[i], "");
    }
    ListOps.FilterKeepingAll(users, MatchesTerm(""));
  }

  class UsersPage {
    var users: seq<User>
    var selectedUser: Option<User>
    var isDialogOpen: bool
    var dialogMode: DialogMode
    var searchTerm: string
    var deleteDialogOpen: bool
    var userToDelete: Option<string>

    constructor (initial: seq<User>)
      ensures users == initial && selectedUser == None && !isDialogOpen && dialogMode == View
      ensures searchTerm == "" && !deleteDialogOpen && userToDelete == None
    {
      users := initial;
      selectedUser := None;
      isDialogOpen := false;
      dialogMode := View;
      searchTerm := "";
      deleteDialogOpen := false;
      userToDelete := None;
    }

    /** `handleView` / `handleEdit`: open the dialog on a user in the given mode. */
    method Open(user: User, mode: DialogMode)
      modifies this
      ensures selectedUser == Some(user) && dialogMode == mode && isDialogOpen
      ensures users == old(users) && searchTerm == old(searchTerm)
      ensures deleteDialogOpen == old(deleteDialogOpen) && userToDelete == old(userToDelete)
    {
      selectedUser := Some(user);
      dialogMode := mode;
      isDialogOpen := true;
    }

    /** `handleDeleteClick(userId)`: unlike the other tables there is no role check. */
    method HandleDeleteClick(userId: string)
      modifies this
      ensures userToDelete == Some(userId) && deleteDialogOpen
      ensures users == old(users) && searchTerm == old(searchTerm) && isDialogOpen == old(isDialogOpen)
      ensures selectedUser == old(selectedUser) && dialogMode == old(dialogMode)
    {
      userToDelete := Some(userId);
      deleteDialogOpen := true;
    }

    /** `confirmDelete`: removes the users with the pending (non-empty) id; without one
        nothing happens. */
    method ConfirmDelete()
      modifies this
      ensures old(userToDelete).None? || old(userToDelete).value == "" ==> unchanged(this)
      ensures old(userToDelete).Some? && old(userToDelete).value != "" ==>
                && users == ListOps.RemoveById(old(users), IdOf, old(userToDelete).value)
                && (forall u :: u in users ==> u.id != old(userToDelete).value)
                && (forall u :: u in old(users) && u.id != old(userToDelete).value ==> u in users)
                && !deleteDialogOpen && userToDelete == None
                && isDialogOpen == old(isDialogOpen) && selectedUser == old(selectedUser)
                && searchTerm == old(searchTerm) && dialogMode == old(dialogMode)
    {
      if userToDelete.Some? && userToDelete.value != "" {
        users := ListOps.RemoveById(users, IdOf, userToDelete.value);
        deleteDialogOpen := false;
        userToDelete := None;
      }
    }

    /** `handleSave(updatedUser)` with the dialog's parsed values: every user with the
        edited id is replaced by the saved row, which has no dates, the others and the
        length are unchanged, and the dialog closes. */
    method HandleSave(data: UserFormValues)
      modifies this
      ensures users == ListOps.ReplaceById(old(users), IdOf, SavedRow(data))
      ensures |users| == |old(users)|
      ensures forall i :: 0 <= i < |users| ==> users[i] == (if old(users)[i].id == data.id then SavedRow(data) else old(users)[i])
      ensures (forall u :: u in old(users) ==> u.id != data.id) ==> users == old(users)
      ensures forall i :: 0 <= i < |users| && old(users)[i].id == data.id ==> !Renderable(users[i])
      ensures !isDialogOpen && selectedUser == old(selectedUser) && dialogMode == old(dialogMode)
      ensures searchTerm == old(searchTerm) && deleteDialogOpen == old(deleteDialogOpen) && userToDelete == old(userToDelete)
    {
      ghost var before := users;
      var updated := SavedRow(data);
      users := ListOps.ReplaceById(users, IdOf, updated);
      if forall u :: u in before ==> u.id != updated.id {
        ListOps.ReplaceUnknownId(before, IdOf, updated);
      }
      isDialogOpen := false;
    }
  }
}
