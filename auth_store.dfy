/**
 * The authentication store: who is signed in, and the bootstrap, login,
 * account creation and refresh actions over the hosted `users` table. The
 * table is passed in as the sequence of its rows (and handed back when an
 * action writes to it); each call's connectivity is a parameter `link`,
 * `None` when the call reaches the table.
 */
module AuthStore {
  import opened Wrappers
  import opened Text
  import opened Seqs
  import opened AuthTypes
  import opened Remote

  /** The administrator account created on first start. */
  const AdminUser := User("admin", "admin", "admin123", Admin)

  const InitFailed := "Erreur lors de l'initialisation de la base de données"
  const BadCredentials := "Identifiants incorrects"
  const LoginFailed := "Erreur lors de la connexion"
  const AddUserFailed := "Erreur lors de l'ajout de l'utilisateur"

  /** The rows selected by `.eq('username', username)`. */
  function WithUsername(rows: seq<User>, username: string): seq<User> {
    Filter(rows, (u: User) => u.username == username)
  }

  /** The rows selected by `.eq('username', username).eq('password', password)`. */
  function WithCredentials(rows: seq<User>, username: string, password: string): seq<User> {
    Filter(rows, (u: User) => u.username == username && u.password == password)
  }

  /** `.single()` over the selected rows: the row when exactly one matched, an error otherwise. */
  function Single(matches: seq<User>, link: Option<Failure>): (r: Reply<User>)
    ensures r.Ok? <==> link.None? && |matches| == 1
    ensures r.Ok? ==> r.data == Some(matches[0])
    ensures r.Err? && link.Some? ==> r.failure == link.value
  {
    if link.Some? then Err(link.value)
    else if |matches| == 1 then Ok(Some(matches[0]))
    else Err(Returned)
  }

  /** An insert is refused when the link fails, or when the row's id or username is already taken. */
  predicate InsertRefused(rows: seq<User>, row: User, link: Option<Failure>) {
    link.Some? || exists u :: u in rows && (u.id == row.id || u.username == row.username)
  }

  function Insert(rows: seq<User>, row: User, link: Option<Failure>): Write {
    if link.Some? then Failed(link.value)
    else if InsertRefused(rows, row, link) then Failed(Returned)
    else Done
  }

  /** Whether the lookup in `initialize` hands back no row, so that the administrator is inserted. */
  predicate AdminMissing(rows: seq<User>, lookupLink: Option<Failure>) {
    var found := Single(WithUsername(rows, AdminUser.username), lookupLink);
    !(found.Ok? && found.data.Some?)
  }

  /**
   * How `initialize` ends: a thrown lookup fails it at once; a lookup that
   * returns no row (an error included) leads to the insert, which may fail.
   */
  function Bootstrap(rows: seq<User>, lookupLink: Option<Failure>, insertLink: Option<Failure>): Write {
    if lookupLink == Some(Thrown) then Failed(Thrown)
    else if AdminMissing(rows, lookupLink) then Insert(rows, AdminUser, insertLink)
    else Done
  }

  /** The `users` table after `initialize`: the administrator appended exactly when it was missing and the insert went through. */
  function AfterBootstrap(rows: seq<User>, lookupLink: Option<Failure>, insertLink: Option<Failure>): (after: seq<User>)
    ensures after == rows || after == rows + [AdminUser]
    ensures after != rows ==> Bootstrap(rows, lookupLink, insertLink) == Done
    ensures Bootstrap(rows, lookupLink, insertLink).Failed? ==> after == rows
  {
    if lookupLink != Some(Thrown) && AdminMissing(rows, lookupLink) && Insert(rows, AdminUser, insertLink).Done?
    then rows + [AdminUser]
    else rows
  }

  function AdminCount(rows: seq<User>): nat {
    |WithUsername(rows, AdminUser.username)|
  }

  /** Starting from an empty table, `initialize` leaves exactly one administrator row. */
  lemma BootstrapOnEmptyTable()
    ensures Bootstrap([], None, None) == Done
    ensures AdminCount(AfterBootstrap([], None, None)) == 1
  {
    assert AfterBootstrap([], None, None) == [AdminUser];
  }

  /**
   * `initialize` never creates a second administrator row: with at most one
   * before, there is at most one after, whatever fails; and once there is one
   * and the lookup gets through, the table is left as it was.
   */
  lemma BootstrapAddsNoDuplicate(rows: seq<User>, lookupLink: Option<Failure>, insertLink: Option<Failure>)
    requires AdminCount(rows) <= 1
    ensures AdminCount(AfterBootstrap(rows, lookupLink, insertLink)) <= 1
    ensures AdminCount(rows) == 1 && lookupLink.None? ==> AfterBootstrap(rows, lookupLink, insertLink) == rows
  {
    var keep := (u: User) => u.username == AdminUser.username;
    if AfterBootstrap(rows, lookupLink, insertLink) != rows {
      assert forall i :: 0 <= i < |rows| ==> rows[i] in rows && !keep(rows[i]);
      FilterDropsAll(rows, keep);
      FilterAppend(rows, [AdminUser], keep);
    }
  }

  /** Once `initialize` has succeeded, calling it again, with any faults, changes nothing. */
  lemma SecondBootstrapChangesNothing(rows: seq<User>, l1: Option<Failure>, i1: Option<Failure>, l2: Option<Failure>, i2: Option<Failure>)
    requires AdminCount(rows) <= 1
    requires Bootstrap(rows, l1, i1) == Done
    ensures AfterBootstrap(AfterBootstrap(rows, l1, i1), l2, i2) == AfterBootstrap(rows, l1, i1)
  {
    var keep := (u: User) => u.username == AdminUser.username;
    var once := AfterBootstrap(rows, l1, i1);
    if AdminMissing(rows, l1) {
      FilterAppend(rows, [AdminUser], keep);
      assert AdminUser in once;
    } else {
      assert WithUsername(rows, AdminUser.username)[0] in rows;
    }
    assert exists u :: u in once && u.username == AdminUser.username;
  }

  /** The lookup `login` performs: the lower-cased username and the password, matched exactly. */
  function LoginLookup(rows: seq<User>, username: string, password: string, link: Option<Failure>): (r: Reply<User>)
    ensures r.Ok? ==> r.data.Some? && r.data.value in rows
    ensures r.Ok? ==> r.data.value.username == ToLower(username) && r.data.value.password == password
  {
    Single(WithCredentials(rows, ToLower(username), password), link)
  }

  predicate UniqueUsernames(rows: seq<User>) {
    forall i, j :: 0 <= i < j < |rows| ==> rows[i].username != rows[j].username
  }

  /** With unique usernames, a stored user logs in with its password and any casing of its name. */
  lemma LoginFindsStoredUser(rows: seq<User>, i: nat, username: string, password: string)
    requires UniqueUsernames(rows)
    requires i < |rows| && rows[i].username == ToLower(username) && rows[i].password == password
    ensures LoginLookup(rows, username, password, None) == Ok(Some(rows[i]))
  {
    FilterSingle(rows, (u: User) => u.username == ToLower(username) && u.password == password, i);
  }

  /** Two seeded accounts: a differently cased name logs in, a wrong password or an unknown name does not. */
  lemma LoginExamples()
    ensures var rows := ExampleRows();
      && LoginLookup(rows, "ALICE", "p1", None) == Ok(Some(rows[0]))
      && LoginLookup(rows, "alice", "wrong", None).Err?
      && LoginLookup(rows, "carol", "x", None).Err?
  {
    ExampleNamesLowerCased();
    ExampleLogin(ExampleRows());
    ExampleNoLogin(ExampleRows(), "alice", "wrong");
    ExampleNoLogin(ExampleRows(), "carol", "x");
  }

  function ExampleRows(): seq<User> {
    [User("1", "alice", "p1", NurseRole), User("2", "bob", "p2", NurseRole)]
  }

  lemma ExampleLogin(rows: seq<User>)
    requires rows == ExampleRows() && ToLower("ALICE") == "alice"
    ensures LoginLookup(rows, "ALICE", "p1", None) == Ok(Some(rows[0]))
  {
    LoginFindsStoredUser(rows, 0, "ALICE", "p1");
  }

  lemma ExampleNoLogin(rows: seq<User>, name: string, password: string)
    requires rows == ExampleRows() && ToLower(name) == name
    requires name != "bob" && (name == "alice" ==> password != "p1")
    ensures LoginLookup(rows, name, password, None).Err?
  {
    FilterDropsAll(rows, (u: User) => u.username == name && u.password == password);
  }

  lemma ExampleNamesLowerCased()
    ensures ToLower("ALICE") == "alice" && ToLower("alice") == "alice" && ToLower("carol") == "carol"
  {
    assert ToLower("ALICE") == "alice";
    assert ToLower("alice") == "alice";
  }

  /** The record `addUser` stores: a generated id `user_<now>`, the lower-cased username; the caller's id is ignored. */
  function NewUserRecord(candidate: User, now: nat): (u: User)
    ensures |u.id| > 5 && u.id[..5] == "user_" && u.id[5..] == NatToString(now)
    ensures u.username == ToLower(candidate.username)
    ensures u.password == candidate.password && u.role == candidate.role
  {
    User("user_" + NatToString(now), ToLower(candidate.username), candidate.password, candidate.role)
  }

  /** A generated account id never equals a purely numeric id such as the nurse ids the roster uses. */
  lemma NewUserIdIsNotNumeric(candidate: User, now: nat, t: nat)
    ensures NewUserRecord(candidate, now).id != NatToString(t)
  {
    assert NewUserRecord(candidate, now).id[0] == 'u';
    assert IsDigit(NatToString(t)[0]);
  }

  /** An account that `addUser` stored then logs in with its password and any casing of its name. */
  lemma AddedUserCanLogIn(rows: seq<User>, candidate: User, now: nat, typed: string)
    requires UniqueUsernames(rows)
    requires Insert(rows, NewUserRecord(candidate, now), None) == Done
    requires ToLower(typed) == ToLower(candidate.username)
    ensures LoginLookup(rows + [NewUserRecord(candidate, now)], typed, candidate.password, None)
      == Ok(Some(NewUserRecord(candidate, now)))
  {
    var u := NewUserRecord(candidate, now);
    var after := rows + [u];
    forall i, j | 0 <= i < j < |after| ensures after[i].username != after[j].username {
      if j == |rows| {
        assert after[i] in rows;
      }
    }
    LoginFindsStoredUser(after, |rows|, typed, candidate.password);
  }

  /** `data.find(u => u.id === id)`: the first row with that id, if any. */
  function FindById(rows: seq<User>, id: string): (r: Option<User>)
    ensures r.Some? ==> r.value in rows && r.value.id == id
    ensures r.Some? ==> exists i :: 0 <= i < |rows| && rows[i] == r.value && forall j :: 0 <= j < i ==> rows[j].id != id
    ensures r.None? <==> forall u :: u in rows ==> u.id != id
  {
    if rows == [] then None
    else if rows[0].id == id then Some(rows[0])
    else FindById(rows[1..], id)
  }

  /** The signed-in user after `refreshUsers` receives `listed`. */
  function Refreshed(current: Option<User>, listed: Reply<seq<User>>): Option<User> {
    if current.Some? && listed.Ok? && listed.data.Some? then
      match FindById(listed.data.value, current.value.id)
      case Some(row) => Some(row)
      case None => current
    else current
  }

  /**
   * A refresh never signs anyone in or out and never switches to another
   * account: it can only replace the signed-in user by a listed row with the
   * same id, and it does so whenever the list holds one.
   */
  lemma RefreshKeepsIdentity(current: Option<User>, listed: Reply<seq<User>>)
    ensures Refreshed(current, listed).Some? <==> current.Some?
    ensures current.Some? ==> Refreshed(current, listed).value.id == current.value.id
    ensures current.Some? && listed.Ok? && listed.data.Some? && Refreshed(current, listed) != current ==>
      Refreshed(current, listed).value in listed.data.value
    ensures (current.Some? && listed.Ok? && listed.data.Some?
      && exists u :: u in listed.data.value && u.id == current.value.id) ==>
      Refreshed(current, listed).value in listed.data.value
  {
  }

  /** The client-side authentication store (`useAuthStore`). */
  class Store {
    var user: Option<User>
    var loading: bool
    var error: Option<string>
    var initialized: bool

    constructor ()
      ensures user == None && !loading && error == None && !initialized
    {
      user := None;
      loading := false;
      error := None;
      initialized := false;
    }

    /**
     * `initialize`: looks the administrator up (ignoring an error the lookup
     * returns) and inserts it only when no row came back; `initialized`
     * becomes true unless the lookup threw or the insert failed, in which
     * case `error` is set and `initialized` keeps its value.
     */
    method Initialize(remote: seq<User>, lookupLink: Option<Failure>, insertLink: Option<Failure>)
      returns (remoteAfter: seq<User>)
      modifies this
      ensures remoteAfter == AfterBootstrap(remote, lookupLink, insertLink)
      ensures Bootstrap(remote, lookupLink, insertLink).Done? ==> initialized && error == None
      ensures Bootstrap(remote, lookupLink, insertLink).Failed? ==>
        initialized == old(initialized) && error == Some(InitFailed)
      ensures user == old(user) && !loading
    {
      loading, error := true, None;
      remoteAfter := AfterBootstrap(remote, lookupLink, insertLink);
      if Bootstrap(remote, lookupLink, insertLink).Failed? {
        error := Some(InitFailed);
      } else {
        initialized := true;
      }
      loading := false;
    }

    /**
     * `login`: succeeds exactly when the lookup hands back a row, which becomes
     * the signed-in user; otherwise `user` is left as it was and `error` says
     * why (a thrown call has its own message).
     */
    method Login(username: string, password: string, remote: seq<User>, link: Option<Failure>)
      returns (ok: bool)
      modifies this
      ensures ok <==> LoginLookup(remote, username, password, link).Ok?
      ensures ok ==> user == LoginLookup(remote, username, password, link).data && error == None
      ensures !ok ==> user == old(user)
      ensures !ok ==> error == Some(if link == Some(Thrown) then LoginFailed else BadCredentials)
      ensures !loading && initialized == old(initialized)
    {
      loading, error := true, None;
      if link == Some(Thrown) {
        error, ok := Some(LoginFailed), false;
      } else {
        var found := LoginLookup(remote, username, password, link);
        if found.Err? || found.data.None? {
          error, ok := Some(BadCredentials), false;
        } else {
          user, ok := found.data, true;
        }
      }
      loading := false;
    }

    /** `logout`: clears the signed-in user and nothing else. */
    method Logout()
      modifies this`user
      ensures user == None
    {
      user := None;
    }

    /**
     * `addUser`: inserts the record built from the candidate; on failure sets
     * `error` and rethrows. The signed-in user is never touched.
     */
    method AddUser(candidate: User, now: nat, remote: seq<User>, link: Option<Failure>)
      returns (remoteAfter: seq<User>, thrown: Option<Failure>)
      modifies this
      ensures Insert(remote, NewUserRecord(candidate, now), link).Done? ==>
        remoteAfter == remote + [NewUserRecord(candidate, now)] && thrown == None && error == None
      ensures Insert(remote, NewUserRecord(candidate, now), link).Failed? ==>
        && remoteAfter == remote && error == Some(AddUserFailed)
        && thrown == Some(Insert(remote, NewUserRecord(candidate, now), link).failure)
      ensures user == old(user) && initialized == old(initialized) && !loading
    {
      loading, error := true, None;
      var row := NewUserRecord(candidate, now);
      var inserted := Insert(remote, row, link);
      if inserted.Failed? {
        remoteAfter, thrown := remote, Some(inserted.failure);
        error := Some(AddUserFailed);
      } else {
        remoteAfter, thrown := remote + [row], None;
      }
      loading := false;
    }

    /** `refreshUsers`: replaces the signed-in user by its listed row; failures are swallowed. */
    method RefreshUsers(listed: Reply<seq<User>>)
      modifies this`user
      ensures user == Refreshed(old(user), listed)
    {
      if listed.Ok? && listed.data.Some? && user.Some? {
        var found := FindById(listed.data.value, user.value.id);
        if found.Some? {
          user := found;
        }
      }
    }
  }
}
