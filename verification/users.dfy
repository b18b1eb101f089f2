/** User administration: password changes, the last-administrator guard on deletion, and
    the validation of new accounts. Each action updates the shell's state and logs through
    the shell's activity log. */
module UserAdmin {
  import opened Wrappers
  import opened Types
  import opened Text
  import opened Lists
  import opened Inventory
  import opened PasswordForm

  /** `k` is the first position holding a user with identifier `userId`. */
  predicate IsFirstUserWithId(users: seq<User>, userId: string, k: int) {
    0 <= k < |users| && users[k].id == userId && forall j :: 0 <= j < k ==> users[j].id != userId
  }

  /** Sets the password of every user with identifier `userId`, nothing else; the change is
      logged with the user's name when such a user exists. */
  function HandleSavePassword(s: State, userId: string, newPassword: string, now: int): (r: State)
    ensures r == s.(users := r.users, logs := r.logs)
    ensures |r.users| == |s.users|
    ensures forall i :: 0 <= i < |s.users| && s.users[i].id == userId ==>
      r.users[i] == s.users[i].(password := newPassword)
    ensures forall i :: 0 <= i < |s.users| && s.users[i].id != userId ==> r.users[i] == s.users[i]
    ensures |r.logs| == |s.logs| + (if s.currentUser.Some? && (exists i :: 0 <= i < |s.users| && s.users[i].id == userId) then 1 else 0)
    ensures (forall i :: 0 <= i < |s.users| ==> s.users[i].id != userId) ==> r.logs == s.logs
    ensures forall k :: IsFirstUserWithId(s.users, userId, k) ==>
      RecordsOne(s, r, UpdateUserPassword, s.users[k].username)
  {
    var updated := seq(|s.users|, i requires 0 <= i < |s.users| =>
      if s.users[i].id == userId then s.users[i].(password := newPassword) else s.users[i]);
    var s1 := s.(users := updated);
    match FindFirst(s.users, (u: User) => u.id == userId)
    case Some(k) => LogActivity(s1, UpdateUserPassword, s.users[k].username, None, None, now)
    case None => s1
  }

  /** The password dialog feeding the save handler: whatever it lets through leaves the
      target user with a password of at least six code units equal to its confirmation. */
  lemma PasswordChangeIsValidated(s: State, user: User, password: string, confirmation: string, now: int)
    requires HandleSave(password, confirmation).Success?
    ensures var r := HandleSavePassword(s, user.id, HandleSave(password, confirmation).value, now);
      forall i :: 0 <= i < |r.users| && r.users[i].id == user.id ==>
        Utf16Length(r.users[i].password) >= MinPasswordLength && r.users[i].password == confirmation
  {
  }

  function AdminCount(users: seq<User>): nat {
    Count(users, (u: User) => u.role == Admin)
  }

  const LastAdminMessage: string := "Não é possível deletar o único administrador do sistema."

  /** What the delete button leads to: a confirmation dialog, or a refusal. */
  datatype DeleteRequest = AskConfirmation(user: User) | Refused(message: string)

  /** Deleting the only administrator is refused before any confirmation is asked. */
  function HandleDeleteUser(users: seq<User>, user: User): (r: DeleteRequest)
    ensures r.Refused? <==> user.role == Admin && AdminCount(users) == 1
    ensures r.AskConfirmation? ==> r.user == user
  {
    if user.role == Admin && AdminCount(users) == 1 then Refused(LastAdminMessage)
    else AskConfirmation(user)
  }

  /** Confirms the pending deletion: the deletion is logged and every user with that
      identifier is removed; the others stay, in order. */
  function ConfirmDeleteUser(s: State, pending: Option<User>, now: int): (r: State)
    ensures pending.None? ==> r == s
    ensures pending.Some? ==>
      && r == s.(users := r.users, logs := r.logs)
      && (forall i :: 0 <= i < |r.users| ==> r.users[i].id != pending.value.id && r.users[i] in s.users)
      && (forall i :: 0 <= i < |s.users| && s.users[i].id != pending.value.id ==> s.users[i] in r.users)
      && r.users == Filter(s.users, (x: User) => x.id != pending.value.id)
      && RecordsOne(s, r, DeleteUser, pending.value.username)
  {
    match pending
    case None => s
    case Some(u) =>
      var s1 := LogActivity(s, DeleteUser, u.username, None, None, now);
      s1.(users := Filter(s.users, (x: User) => x.id != u.id))
  }

  /** No two users share an identifier (identifiers come from the clock). */
  ghost predicate UniqueIds(users: seq<User>) {
    forall i, j :: 0 <= i < j < |users| ==> users[i].id != users[j].id
  }

  /** The delete flow never removes the last administrator: when the guard lets a
      deletion through and it is confirmed, an administrator remains. */
  lemma DeletionKeepsAnAdmin(s: State, k: nat, now: int)
    requires k < |s.users| && UniqueIds(s.users)
    requires AdminCount(s.users) >= 1
    requires HandleDeleteUser(s.users, s.users[k]).AskConfirmation?
    ensures AdminCount(ConfirmDeleteUser(s, Some(s.users[k]), now).users) >= 1
  {
    var r := ConfirmDeleteUser(s, Some(s.users[k]), now);
    var j := OtherAdmin(s.users, k);
    assert s.users[j] in r.users;
    var m :| 0 <= m < |r.users| && r.users[m] == s.users[j];
    CountPositive(r.users, (u: User) => u.role == Admin, m);
  }

  /** When the guard passes, some administrator has an identifier other than the target's. */
  lemma OtherAdmin(users: seq<User>, k: nat) returns (j: nat)
    requires k < |users| && UniqueIds(users)
    requires AdminCount(users) >= 1
    requires !(users[k].role == Admin && AdminCount(users) == 1)
    ensures j < |users| && users[j].role == Admin && users[j].id != users[k].id
  {
    var isAdmin := (u: User) => u.role == Admin;
    CountWitnesses(users, isAdmin);
    if users[k].role == Admin {
      // at least two administrators: one of them is not the target
      var a, b :| 0 <= a < b < |users| && isAdmin(users[a]) && isAdmin(users[b]);
      j := if a != k then a else b;
    } else {
      j :| 0 <= j < |users| && isAdmin(users[j]);
    }
  }

  // ---------------------------------------------------------------- adding users

  datatype AddUserError = MissingFields | DuplicateUsername | PasswordTooShort

  function AddUserErrorMessage(e: AddUserError): string {
    match e
    case MissingFields => "Nome de usuário e senha são obrigatórios."
    case DuplicateUsername => "Este nome de usuário já existe."
    case PasswordTooShort => "A senha deve ter pelo menos 6 caracteres."
  }

  /** A stored username equals the typed one, trimmed, ignoring case. The stored name is
      compared as stored, without trimming. */
  predicate UsernameTaken(users: seq<User>, username: string) {
    exists i :: 0 <= i < |users| && Lower(users[i].username) == Lower(Trim(username))
  }

  /** The checks of the add-user form, in order; only the first failing one is reported. */
  function ValidateNewUser(users: seq<User>, username: string, password: string): (r: Option<AddUserError>)
    ensures r == Some(MissingFields) <==> IsBlank(username) || IsBlank(password)
    ensures r == Some(DuplicateUsername) <==>
      !IsBlank(username) && !IsBlank(password) && UsernameTaken(users, username)
    ensures r == Some(PasswordTooShort) <==>
      !IsBlank(username) && !IsBlank(password) && !UsernameTaken(users, username) && Utf16Length(password) < MinPasswordLength
    ensures r.None? <==>
      !IsBlank(username) && !IsBlank(password) && !UsernameTaken(users, username) && Utf16Length(password) >= MinPasswordLength
  {
    if IsBlank(username) || IsBlank(password) then Some(MissingFields)
    else if UsernameTaken(users, username) then Some(DuplicateUsername)
    else if Utf16Length(password) < MinPasswordLength then Some(PasswordTooShort)
    else None
  }

  /** Submits the add-user form. On any failure the state is unchanged and the error is
      reported; on success exactly one user, with the trimmed name and the chosen role, is
      appended and the addition is logged. */
  function HandleAddUser(s: State, username: string, password: string, role: Role, now: int): (r: Result<State, AddUserError>)
    ensures r.Failure? <==> ValidateNewUser(s.users, username, password).Some?
    ensures r.Failure? ==> r.error == ValidateNewUser(s.users, username, password).value
    ensures r.Success? ==>
      && r.value.users == s.users + [User(MakeId("user-", now), Trim(username), password, role)]
      && r.value == s.(users := r.value.users, logs := r.value.logs)
      && RecordsOne(s, r.value, AddUser, Trim(username))
  {
    match ValidateNewUser(s.users, username, password)
    case Some(e) => Failure(e)
    case None =>
      var created := User(MakeId("user-", now), Trim(username), password, role);
      Success(LogActivity(s.(users := s.users + [created]), AddUser, created.username, None, None, now))
  }

  /** A user added through the form can be told apart from every user that existed before:
      no earlier username equals the new one ignoring case. */
  lemma AddedUsernameIsNew(s: State, username: string, password: string, role: Role, now: int)
    requires ValidateNewUser(s.users, username, password).None?
    ensures var users := HandleAddUser(s, username, password, role, now).value.users;
      forall i :: 0 <= i < |s.users| ==> !SameIgnoringCase(users[i].username, users[|users| - 1].username)
  {
  }
}
