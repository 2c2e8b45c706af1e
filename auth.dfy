/**
 * The mock authentication provider: a users list kept under one storage key,
 * the signed-in user kept in memory and under a second key, and `login`,
 * `register`, `logout` over them. Passwords are accepted and ignored. The
 * store is modelled as fields holding what each key would read back as.
 */
module Auth {
  import opened Common
  import opened Exams

  /** What the current-user key reads back as. */
  datatype SavedUser = NoSavedUser | UnreadableUser | Saved(user: User)

  /** `users.find(u => u.username === username)` */
  function FindByUsername(users: seq<User>, username: string): (r: Option<User>)
    ensures r.None? <==> forall i :: 0 <= i < |users| ==> users[i].username != username
    ensures r.Some? ==> exists i :: 0 <= i < |users| && users[i] == r.value && r.value.username == username
                                    && forall j :: 0 <= j < i ==> users[j].username != username
  {
    if |users| == 0 then None
    else if users[0].username == username then Some(users[0])
    else
      var r := FindByUsername(users[1..], username);
      if r.Some? then
        var i :| 0 <= i < |users[1..]| && users[1..][i] == r.value && r.value.username == username
                 && forall j :: 0 <= j < i ==> users[1..][j].username != username;
        assert users[i + 1] == r.value;
        r
      else r
  }

  /** No two users share a username. */
  predicate UniqueUsernames(users: seq<User>)
  {
    forall i, j :: 0 <= i < j < |users| ==> users[i].username != users[j].username
  }

  /**
   * Appending a user under a name nobody has keeps the names unique, and a
   * search for that name then finds exactly the new user.
   */
  lemma {:induction false} AppendFresh(users: seq<User>, u: User)
    requires UniqueUsernames(users)
    requires FindByUsername(users, u.username).None?
    ensures UniqueUsernames(users + [u])
    ensures FindByUsername(users + [u], u.username) == Some(u)
  {
    var us := users + [u];
    forall i, j | 0 <= i < j < |us| ensures us[i].username != us[j].username {
      if j < |users| { assert us[i] == users[i] && us[j] == users[j]; }
      else { assert us[i] == users[i] && us[j] == u; }
    }
    FindFreshAtEnd(users, u);
  }

  lemma {:induction false} FindFreshAtEnd(users: seq<User>, u: User)
    requires forall i :: 0 <= i < |users| ==> users[i].username != u.username
    ensures FindByUsername(users + [u], u.username) == Some(u)
  {
    if |users| > 0 {
      assert (users + [u])[1..] == users[1..] + [u];
      FindFreshAtEnd(users[1..], u);
    }
  }

  /** A search that succeeds in a list still succeeds, with the same user, once the list grows at its end. */
  lemma {:induction false} FindStableUnderAppend(users: seq<User>, u: User, username: string)
    requires FindByUsername(users, username).Some?
    ensures FindByUsername(users + [u], username) == FindByUsername(users, username)
  {
    assert (users + [u])[0] == users[0];
    if users[0].username != username {
      assert (users + [u])[1..] == users[1..] + [u];
      FindStableUnderAppend(users[1..], u, username);
    }
  }

  class AuthState {
    /** The users key: missing (read as `[]`), unparsable, or a list. */
    var users: Blob<User>
    var currentUser: Option<User>
    var savedUser: SavedUser
    var isLoading: bool

    /** `!!currentUser` */
    predicate IsAuthenticated()
      reads this
    {
      currentUser.Some?
    }

    /** Usernames in the stored list are unique. */
    predicate Valid()
      reads this
    {
      users.Present? ==> UniqueUsernames(users.items)
    }

    constructor (storedUsers: Blob<User>, stored: SavedUser)
      ensures users == storedUsers && savedUser == stored
      ensures currentUser == None && isLoading
    {
      users := storedUsers;
      savedUser := stored;
      currentUser := None;
      isLoading := true;
    }

    /** `loadUserFromStorage`: a readable saved user becomes the current user; otherwise it stays as it was. */
    method LoadUserFromStorage()
      modifies this
      ensures savedUser.Saved? ==> currentUser == Some(savedUser.user)
      ensures !savedUser.Saved? ==> currentUser == old(currentUser)
      ensures IsAuthenticated() <==> savedUser.Saved? || old(IsAuthenticated())
      ensures users == old(users) && savedUser == old(savedUser) && !isLoading
    {
      isLoading := true;
      if savedUser.Saved? {
        currentUser := Some(savedUser.user);
      }
      isLoading := false;
    }

    /**
     * `login`: succeeds exactly when the stored list is readable and some
     * user has the name; the first such user signs in and is saved. A
     * failure changes nothing. The users list never changes.
     */
    method Login(username: string, password: string) returns (ok: bool)
      modifies this
      ensures ok <==> !users.Unreadable? && FindByUsername(ItemsOrEmpty(users), username).Some?
      ensures ok ==> currentUser == FindByUsername(ItemsOrEmpty(users), username)
                     && savedUser == Saved(currentUser.value)
      ensures ok ==> IsAuthenticated()
      ensures !ok ==> currentUser == old(currentUser) && savedUser == old(savedUser)
      ensures users == old(users) && !isLoading
    {
      isLoading := true;
      if users.Unreadable? {
        isLoading := false;
        return false;
      }
      var list := ItemsOrEmpty(users);
      var user := FindByUsername(list, username);
      if user.Some? {
        currentUser := user;
        savedUser := Saved(user.value);
        isLoading := false;
        return true;
      }
      isLoading := false;
      return false;
    }

    /**
     * `register`: an unreadable list or a taken name fails and changes
     * nothing; otherwise `{id, username}` is appended, signed in and saved.
     * The usernames stay unique.
     */
    method Register(username: string, password: string, newId: string) returns (ok: bool)
      modifies this
      ensures old(Valid()) ==> Valid()
      ensures ok <==> !old(users).Unreadable? && FindByUsername(ItemsOrEmpty(old(users)), username).None?
      ensures ok ==> && users == Present(ItemsOrEmpty(old(users)) + [User(newId, username)])
                     && currentUser == Some(User(newId, username))
                     && savedUser == Saved(User(newId, username))
                     && FindByUsername(users.items, username) == Some(User(newId, username))
      ensures ok ==> IsAuthenticated()
      ensures !ok ==> users == old(users) && currentUser == old(currentUser) && savedUser == old(savedUser)
      ensures !isLoading
    {
      isLoading := true;
      if users.Unreadable? {
        isLoading := false;
        return false;
      }
      var list := ItemsOrEmpty(users);
      if FindByUsername(list, username).Some? {
        isLoading := false;
        return false;
      }
      var newUser := User(newId, username);
      if Valid() {
        AppendFresh(list, newUser);
      }
      FindFreshAtEnd(list, newUser);
      list := list + [newUser];
      users := Present(list);
      currentUser := Some(newUser);
      savedUser := Saved(newUser);
      isLoading := false;
      return true;
    }

    /** `logout`: nobody is signed in and the saved user is removed. */
    method Logout()
      modifies this
      ensures currentUser == None && !IsAuthenticated()
      ensures savedUser == NoSavedUser
      ensures users == old(users) && !isLoading
    {
      isLoading := true;
      currentUser := None;
      savedUser := NoSavedUser;
      isLoading := false;
    }
  }

  /** A successful register followed by a login under the same name signs in the new user. */
  method RegisterThenLogin(a: AuthState, username: string, newId: string) returns (registered: bool, loggedIn: bool)
    modifies a
    ensures registered ==> loggedIn && a.currentUser == Some(User(newId, username))
  {
    registered := a.Register(username, "", newId);
    loggedIn := a.Login(username, "");
  }
}
