/** The team screen: an add/edit dialog and a delete confirmation over the team
    list. The list edits are value-level (edit by id, append, remove by id); the
    dialog and the pending deletion form a small state machine. Saving hands the
    new list to the application; editing the logged-in member also updates the
    current-user selection; deleting the logged-in member is refused. */
module UserAdmin {
  import opened Types
  import Backend

  /** The characters JavaScript's `trim` removes: white space and line terminators. */
  predicate IsSpace(c: char)
  {
    c == '\t' || c == '\n' || c == '\U{000B}' || c == '\U{000C}' || c == '\r' || c == ' ' ||
    c == '\U{00A0}' || c == '\U{1680}' || ('\U{2000}' <= c <= '\U{200A}') ||
    c == '\U{2028}' || c == '\U{2029}' || c == '\U{202F}' || c == '\U{205F}' ||
    c == '\U{3000}' || c == '\U{FEFF}'
  }

  /** The name is empty once trimmed: it has no character besides white space. */
  predicate IsBlank(name: string)
  {
    forall i :: 0 <= i < |name| ==> IsSpace(name[i])
  }

  /** The string without its leading white space. */
  function TrimStart(s: string): (r: string)
    ensures |r| <= |s| && r == s[|s| - |r|..]
    ensures r != [] ==> !IsSpace(r[0])
    ensures forall i :: 0 <= i < |s| - |r| ==> IsSpace(s[i])
  {
    if s != [] && IsSpace(s[0]) then TrimStart(s[1..]) else s
  }

  /** The string without its trailing white space. */
  function TrimEnd(s: string): (r: string)
    ensures |r| <= |s| && r == s[..|r|]
    ensures r != [] ==> !IsSpace(r[|r| - 1])
    ensures forall i :: |r| <= i < |s| ==> IsSpace(s[i])
  {
    if s != [] && IsSpace(s[|s| - 1]) then TrimEnd(s[..|s| - 1]) else s
  }

  /** The string without white space at either end. */
  function Trim(s: string): string
  {
    TrimEnd(TrimStart(s))
  }

  /** A name trims to the empty string exactly when it is blank, so the
      empty-name guard of the form refuses precisely the blank names. */
  lemma TrimmedEmptyIffBlank(name: string)
    ensures Trim(name) == [] <==> IsBlank(name)
  {
  }

  /** The list with the member of that id renamed and given the role; ids, order
      and every other member are kept. */
  function EditUser(users: seq<User>, id: string, name: string, role: Role): (r: seq<User>)
    ensures |r| == |users|
    ensures forall i :: 0 <= i < |users| ==> r[i].id == users[i].id
    ensures forall i :: 0 <= i < |users| && users[i].id == id ==> r[i].name == name && r[i].role == role
    ensures forall i :: 0 <= i < |users| && users[i].id != id ==> r[i] == users[i]
  {
    seq(|users|, i requires 0 <= i < |users| =>
      if users[i].id == id then users[i].(name := name, role := role) else users[i])
  }

  /** The id given to a member added on this screen: "user" and a time stamp. */
  function NewUserId(stamp: string): (id: string)
    ensures |id| == 4 + |stamp| && id[..4] == "user" && id[4..] == stamp
  {
    "user" + stamp
  }

  /** The team screen's own state, together with the team list and current-user
      selection that it reads from and hands back to the application. */
  class UserManager {
    var users: seq<User>
    var currentUser: User
    var isModalOpen: bool
    var editingUser: Option<User>
    var userName: string
    var userRole: Role
    var userToDelete: Option<User>
    /** Whether the last action was refused with a message to the operator. */
    var alerted: bool

    /** A pending deletion never targets the logged-in member. */
    ghost predicate Valid()
      reads this
    {
      userToDelete.Some? ==> userToDelete.value.id != currentUser.id
    }

    constructor (users: seq<User>, currentUser: User)
      ensures Valid()
      ensures this.users == users && this.currentUser == currentUser
      ensures !isModalOpen && editingUser.None? && userName == "" && userRole == Separator
      ensures userToDelete.None? && !alerted
    {
      this.users := users;
      this.currentUser := currentUser;
      isModalOpen := false;
      editingUser := None;
      userName := "";
      userRole := Separator;
      userToDelete := None;
      alerted := false;
    }

    /** Opens the dialog: blank with role separator for a new member, or filled
        with the member's name and role for an edit. */
    method OpenModal(user: Option<User>)
      modifies this`isModalOpen, this`editingUser, this`userName, this`userRole
      ensures isModalOpen && editingUser == user
      ensures user.None? ==> userName == "" && userRole == Separator
      ensures user.Some? ==> userName == user.value.name && userRole == user.value.role
    {
      editingUser := user;
      userName := if user.Some? then user.value.name else "";
      userRole := if user.Some? then user.value.role else Separator;
      isModalOpen := true;
    }

    /** Closes the dialog and resets it. */
    method CloseModal()
      modifies this`isModalOpen, this`editingUser, this`userName, this`userRole
      ensures !isModalOpen && editingUser.None? && userName == "" && userRole == Separator
    {
      isModalOpen := false;
      editingUser := None;
      userName := "";
      userRole := Separator;
    }

    /** Saves the dialog. A blank name is refused and nothing changes. An edit
        renames the member with the edited id (and the current selection when it
        is that member); otherwise one new member is appended. The dialog closes. */
    method SaveUser(stamp: string)
      requires Valid()
      modifies this
      ensures Valid()
      ensures currentUser.id == old(currentUser).id
      ensures userToDelete == old(userToDelete)
      ensures IsBlank(old(userName)) ==>
        alerted && users == old(users) && currentUser == old(currentUser) &&
        isModalOpen == old(isModalOpen) && editingUser == old(editingUser) &&
        userName == old(userName) && userRole == old(userRole)
      ensures !IsBlank(old(userName)) ==>
        !alerted && !isModalOpen && editingUser.None? && userName == "" && userRole == Separator
      ensures !IsBlank(old(userName)) && old(editingUser).Some? ==>
        users == EditUser(old(users), old(editingUser).value.id, old(userName), old(userRole)) &&
        currentUser == (if old(currentUser).id == old(editingUser).value.id
                        then old(editingUser).value.(name := old(userName), role := old(userRole))
                        else old(currentUser))
      ensures !IsBlank(old(userName)) && old(editingUser).None? ==>
        users == old(users) + [User(NewUserId(stamp), old(userName), old(userRole))] &&
        currentUser == old(currentUser)
    {
      if IsBlank(userName) {
        alerted := true;
        return;
      }
      alerted := false;
      var updatedUsers: seq<User>;
      if editingUser.Some? {
        var edited := editingUser.value;
        updatedUsers := EditUser(users, edited.id, userName, userRole);
        if currentUser.id == edited.id {
          currentUser := edited.(name := userName, role := userRole);
        }
      } else {
        var newUser := User(NewUserId(stamp), userName, userRole);
        updatedUsers := users + [newUser];
      }
      users := updatedUsers;
      CloseModal();
    }

    /** Asks to delete a member; the logged-in member is refused. */
    method DeleteClick(user: User)
      requires Valid()
      modifies this`userToDelete, this`alerted
      ensures Valid()
      ensures user.id == currentUser.id ==> alerted && userToDelete == old(userToDelete)
      ensures user.id != currentUser.id ==> !alerted && userToDelete == Some(user)
    {
      if user.id == currentUser.id {
        alerted := true;
        return;
      }
      alerted := false;
      userToDelete := Some(user);
    }

    /** Carries out the pending deletion: every member with that id leaves the
        list, the others keep their order. Nothing pending, nothing happens. */
    method ConfirmDelete()
      requires Valid()
      modifies this`users, this`userToDelete
      ensures Valid()
      ensures forall u :: u in old(users) && u.id == currentUser.id ==> u in users
      ensures old(userToDelete).None? ==> users == old(users) && userToDelete.None?
      ensures old(userToDelete).Some? ==>
        users == Backend.UsersWithoutId(old(users), old(userToDelete).value.id) && userToDelete.None?
    {
      if userToDelete.None? {
        return;
      }
      users := Backend.UsersWithoutId(users, userToDelete.value.id);
      userToDelete := None;
    }
  }
}
