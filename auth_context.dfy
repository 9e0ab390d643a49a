/**
 * The mock authentication layer: a table of registered users and a session
 * record, both kept in local storage. Passwords are stored Base64-encoded;
 * the session is mirrored under `currentUser` and reloaded when another tab
 * changes that key.
 */
module AuthContext {
  import opened Records
  import opened Storage
  import opened Base64

  const DUPLICATE_EMAIL_MESSAGE: string := "User with this email already exists."
  const REGISTERED_MESSAGE: string := "Registration successful! You are now logged in."
  const INVALID_LOGIN_MESSAGE: string := "Invalid email or password."
  const LOGGED_IN_MESSAGE: string := "Login successful!"

  /** What `register` and `login` give their caller: `{success, message}`, or an exception. */
  datatype Outcome = Returned(success: bool, message: string) | Threw

  /** `users.some(u => u.email === email)` */
  predicate HasEmail(users: seq<UserRecord>, email: JsString) {
    exists i :: 0 <= i < |users| && users[i].email == email
  }

  /** Appending a record adds exactly its email to the ones the table holds. */
  lemma HasEmailAppend(users: seq<UserRecord>, u: UserRecord, email: JsString)
    ensures HasEmail(users + [u], email) <==> HasEmail(users, email) || u.email == email
  {
    var t := users + [u];
    if HasEmail(users, email) {
      var i :| 0 <= i < |users| && users[i].email == email;
      assert t[i] == users[i];
    }
    if u.email == email {
      assert t[|users|] == u;
    }
    if HasEmail(t, email) {
      var i :| 0 <= i < |t| && t[i].email == email;
      if i < |users| { assert t[i] == users[i]; }
    }
  }

  /** No two records of the table share an email. */
  predicate UniqueEmails(users: seq<UserRecord>) {
    forall i, j :: 0 <= i < j < |users| ==> users[i].email != users[j].email
  }

  /** The position `users.find(u => u.email === email)` stops at. */
  function FirstWithEmail(users: seq<UserRecord>, email: JsString): (r: Option<nat>)
    ensures r.None? <==> !HasEmail(users, email)
    ensures r.Some? ==> r.value < |users| && users[r.value].email == email
    ensures r.Some? ==> forall j :: 0 <= j < r.value ==> users[j].email != email
  {
    if users == [] then None
    else if users[0].email == email then Some(0)
    else match FirstWithEmail(users[1..], email)
      case None => None
      case Some(k) => Some(k + 1)
  }

  /** The decision `register` takes on the table it has read. */
  datatype RegisterResult =
    | Added(users: seq<UserRecord>, session: Session)
    | DuplicateEmail
    | EncodeThrew

  function CheckRegister(users: seq<UserRecord>, username: JsString, password: JsString, email: JsString): (r: RegisterResult)
    ensures r.DuplicateEmail? <==> HasEmail(users, email)
    ensures r.EncodeThrew? <==> !HasEmail(users, email) && !IsLatin1(password)
    ensures r.Added? ==> |r.users| == |users| + 1 && r.users[..|users|] == users
    ensures r.Added? ==> r.users[|users|] == UserRecord(username, email, Btoa(password).value)
    ensures r.Added? ==> r.session == Session(username, email)
  {
    if HasEmail(users, email) then DuplicateEmail
    else match Btoa(password)
      case None => EncodeThrew
      case Some(encoded) =>
        Added(users + [UserRecord(username, email, encoded)], Session(username, email))
  }

  /** The decision `login` takes on the table it has read. */
  datatype LoginResult = LoggedIn(session: Session) | Rejected | DecodeThrew

  /**
   * The first record with the email decides. The first and last clauses
   * follow from the middle one and `FirstWithEmail`'s contract; they are
   * kept so that callers' proofs need not unfold `FirstWithEmail`.
   */
  function CheckLogin(users: seq<UserRecord>, email: JsString, password: JsString): (r: LoginResult)
    ensures !HasEmail(users, email) ==> r == Rejected
    ensures var f := FirstWithEmail(users, email);
      && (r.LoggedIn? <==> f.Some? && Atob(users[f.value].password) == Some(password))
      && (r.DecodeThrew? <==> f.Some? && Atob(users[f.value].password).None?)
      && (r.LoggedIn? ==> f.Some? && r.session == Session(users[f.value].username, users[f.value].email))
    ensures r.LoggedIn? ==>
      (exists i :: 0 <= i < |users| && users[i].email == email &&
         Atob(users[i].password) == Some(password) && r.session == Session(users[i].username, email))
  {
    match FirstWithEmail(users, email)
    case None => Rejected
    case Some(i) =>
      match Atob(users[i].password)
      case None => DecodeThrew
      case Some(decrypted) =>
        if decrypted == password then LoggedIn(Session(users[i].username, users[i].email))
        else Rejected
  }

  /** Registering a new email and then logging in with the same password succeeds. */
  lemma RegisterThenLogin(users: seq<UserRecord>, username: JsString, password: JsString, email: JsString)
    requires CheckRegister(users, username, password, email).Added?
    ensures CheckLogin(CheckRegister(users, username, password, email).users, email, password)
            == LoggedIn(Session(username, email))
  {
    var after := CheckRegister(users, username, password, email).users;
    assert after[|users|].email == email;
    var i := FirstWithEmail(after, email).value;
    assert i == |users|;
    BtoaAtobRoundTrip(password);
  }

  /** Both writers of the table refuse a known email, so emails stay unique. */
  lemma RegisterKeepsEmailsUnique(users: seq<UserRecord>, username: JsString, password: JsString, email: JsString)
    requires UniqueEmails(users)
    ensures CheckRegister(users, username, password, email).Added? ==>
            UniqueEmails(CheckRegister(users, username, password, email).users)
  {
    var r := CheckRegister(users, username, password, email);
    if r.Added? {
      forall i, j | 0 <= i < j < |r.users| ensures r.users[i].email != r.users[j].email {
        assert r.users[i] == users[i];
        if j < |users| {
          assert r.users[j] == users[j];
        } else {
          assert r.users[j].email == email;
        }
      }
    }
  }

  /** With unique emails, the account `login` checks is the only one with that email. */
  lemma LoginChecksTheAccount(users: seq<UserRecord>, email: JsString, password: JsString, k: nat)
    requires UniqueEmails(users)
    requires k < |users| && users[k].email == email
    ensures CheckLogin(users, email, password).LoggedIn? <==> Atob(users[k].password) == Some(password)
  {
    var i := FirstWithEmail(users, email).value;
    assert i == k;
  }

  class AuthProvider {
    const storage: LocalStorage
    var user: Option<Session>

    /** The stored session reads back as the session in memory. */
    ghost predicate Mirrored()
      reads this, storage
    {
      ReadCurrentUser(storage.items) == user
    }

    /** `isAuthenticated: !!user` */
    function IsAuthenticated(): bool
      reads this
    {
      user.Some?
    }

    /** Mounting the provider: the session starts as the stored one, and the sync effect runs once. */
    constructor (storage: LocalStorage)
      modifies storage
      ensures this.storage == storage
      ensures user == ReadCurrentUser(old(storage.items))
      ensures storage.items == PersistSession(old(storage.items), user)
      ensures Mirrored()
    {
      this.storage := storage;
      user := ReadCurrentUser(storage.items);
      new;
      UpdateLocalStorage(user);
    }

    method UpdateLocalStorage(newUser: Option<Session>)
      modifies storage
      ensures storage.items == PersistSession(old(storage.items), newUser)
    {
      if newUser.Some? {
        storage.SetItem(CURRENT_USER_KEY, CurrentUser(newUser.value));
      } else {
        storage.RemoveItem(CURRENT_USER_KEY);
      }
    }

    /**
     * `setUser(newUser)` followed by the effect that syncs storage. Setting
     * null while the session is already null changes nothing, so the
     * effect does not run; any session object is new and always re-syncs.
     */
    method SetUser(newUser: Option<Session>)
      modifies this, storage
      ensures old(user).None? && newUser.None? ==> user == old(user) && storage.items == old(storage.items)
      ensures old(user).Some? || newUser.Some? ==>
              user == newUser && storage.items == PersistSession(old(storage.items), newUser)
      ensures old(Mirrored()) ==> Mirrored()
      ensures newUser.Some? ==> Mirrored()
    {
      if user.None? && newUser.None? {
        return;
      }
      user := newUser;
      UpdateLocalStorage(newUser);
    }

    /**
     * The `storage` event another tab raises after it wrote `key` (absent
     * for `localStorage.clear()`): only the `currentUser` key reloads.
     */
    method HandleStorageChange(key: Option<string>)
      modifies this, storage
      ensures key != Some(CURRENT_USER_KEY) ==> user == old(user) && storage.items == old(storage.items)
      ensures key == Some(CURRENT_USER_KEY) ==> user == ReadCurrentUser(old(storage.items)) && Mirrored()
      ensures key == Some(CURRENT_USER_KEY) && (old(user).Some? || user.Some?) ==>
              storage.items == PersistSession(old(storage.items), user)
      ensures key == Some(CURRENT_USER_KEY) && old(user).None? && user.None? ==>
              storage.items == old(storage.items)
    {
      if key == Some(CURRENT_USER_KEY) {
        SetUser(ReadCurrentUser(storage.items));
      }
    }

    method Register(username: JsString, password: JsString, email: JsString) returns (r: Outcome)
      modifies this, storage
      ensures old(LoadUsers(storage.items)).None? ==>
              r == Threw && user == old(user) && storage.items == old(storage.items)
      ensures old(LoadUsers(storage.items)).Some? ==>
              var d := CheckRegister(old(LoadUsers(storage.items)).value, username, password, email);
              && (d.DuplicateEmail? ==>
                   r == Returned(false, DUPLICATE_EMAIL_MESSAGE) && user == old(user) && storage.items == old(storage.items))
              && (d.EncodeThrew? ==> r == Threw && user == old(user) && storage.items == old(storage.items))
              && (d.Added? ==>
                   && r == Returned(true, REGISTERED_MESSAGE)
                   && user == Some(d.session)
                   && storage.items == PersistSession(old(storage.items)[USER_STORAGE_KEY := Users(d.users)], user))
      ensures r == Returned(true, REGISTERED_MESSAGE) ==> IsAuthenticated() && Mirrored()
    {
      var stored := LoadUsers(storage.items);
      if stored.None? {
        return Threw;
      }
      var storedUsers := stored.value;
      if HasEmail(storedUsers, email) {
        return Returned(false, DUPLICATE_EMAIL_MESSAGE);
      }
      var encoded := Btoa(password);
      if encoded.None? {
        return Threw;
      }
      storedUsers := storedUsers + [UserRecord(username, email, encoded.value)];
      storage.SetItem(USER_STORAGE_KEY, Users(storedUsers));
      SetUser(Some(Session(username, email)));
      r := Returned(true, REGISTERED_MESSAGE);
    }

    method Login(email: JsString, password: JsString) returns (r: Outcome)
      modifies this, storage
      ensures old(LoadUsers(storage.items)).None? ==>
              r == Threw && user == old(user) && storage.items == old(storage.items)
      ensures old(LoadUsers(storage.items)).Some? ==>
              var d := CheckLogin(old(LoadUsers(storage.items)).value, email, password);
              && (d.Rejected? ==>
                   r == Returned(false, INVALID_LOGIN_MESSAGE) && user == old(user) && storage.items == old(storage.items))
              && (d.DecodeThrew? ==> r == Threw && user == old(user) && storage.items == old(storage.items))
              && (d.LoggedIn? ==>
                   && r == Returned(true, LOGGED_IN_MESSAGE)
                   && user == Some(d.session)
                   && storage.items == PersistSession(old(storage.items), user))
      ensures r.Returned? && r.success ==> IsAuthenticated() && Mirrored()
      ensures r.Returned? && !r.success ==> r.message == INVALID_LOGIN_MESSAGE && user == old(user)
    {
      var stored := LoadUsers(storage.items);
      if stored.None? {
        return Threw;
      }
      var storedUsers := stored.value;
      var found := FirstWithEmail(storedUsers, email);
      if found.None? {
        return Returned(false, INVALID_LOGIN_MESSAGE);
      }
      var foundUser := storedUsers[found.value];
      var decrypted := Atob(foundUser.password);
      if decrypted.None? {
        return Threw;
      }
      if decrypted.value == password {
        SetUser(Some(Session(foundUser.username, foundUser.email)));
        r := Returned(true, LOGGED_IN_MESSAGE);
      } else {
        r := Returned(false, INVALID_LOGIN_MESSAGE);
      }
    }

    method Logout()
      modifies this, storage
      ensures user.None? && !IsAuthenticated()
      ensures old(user).Some? ==> storage.items == PersistSession(old(storage.items), None)
      ensures old(user).None? ==> storage.items == old(storage.items)
      ensures old(Mirrored()) || old(user).Some? ==> Mirrored()
    {
      SetUser(None);
    }
  }
}
