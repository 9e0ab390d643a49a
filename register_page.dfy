/**
 * The registration page: a form that appends to the same `registeredUsers`
 * table the auth provider writes, after its own password-length check, and
 * that sends the user to the login page instead of opening a session.
 */
module RegisterPage {
  import opened Records
  import opened Storage
  import opened AuthContext

  const MIN_PASSWORD_LENGTH: nat := 6
  const SHORT_PASSWORD_MESSAGE: string := "Password must be at least 6 characters long."
  const EMAIL_TAKEN_MESSAGE: string := "A user with this email is already registered."
  const FAILURE_MESSAGE: string := "An error occurred during registration. Please try again."
  const SUCCESS_MESSAGE: string := "Registration successful! You can now log in."
  const LOGIN_ROUTE: string := "/login"

  class RegisterForm {
    const storage: LocalStorage
    var username: JsString
    var email: JsString
    var password: JsString
    var error: Option<string>
    var message: Option<string>
    /** The route the form's two-second timer will navigate to. */
    var pendingRedirect: Option<string>

    constructor (storage: LocalStorage)
      ensures this.storage == storage
      ensures username == [] && email == [] && password == []
      ensures error.None? && message.None? && pendingRedirect.None?
    {
      this.storage := storage;
      username := [];
      email := [];
      password := [];
      error := None;
      message := None;
      pendingRedirect := None;
    }

    method SetUsername(value: JsString)
      modifies this
      ensures username == value && email == old(email) && password == old(password)
      ensures error == old(error) && message == old(message) && pendingRedirect == old(pendingRedirect)
    {
      username := value;
    }

    method SetEmail(value: JsString)
      modifies this
      ensures email == value && username == old(username) && password == old(password)
      ensures error == old(error) && message == old(message) && pendingRedirect == old(pendingRedirect)
    {
      email := value;
    }

    method SetPassword(value: JsString)
      modifies this
      ensures password == value && username == old(username) && email == old(email)
      ensures error == old(error) && message == old(message) && pendingRedirect == old(pendingRedirect)
    {
      password := value;
    }

    /**
     * Submitting the form. The decision on a table that could be read is the
     * one `register` takes (a known email, a password `btoa` refuses, or the
     * new record appended); only the messages and what follows differ.
     */
    method HandleSubmit()
      modifies this, storage
      ensures |old(password)| < MIN_PASSWORD_LENGTH ==>
                && error == Some(SHORT_PASSWORD_MESSAGE)
                && storage.items == old(storage.items)
                && username == old(username) && email == old(email) && password == old(password)
                && message == old(message) && pendingRedirect == old(pendingRedirect)
      ensures |old(password)| >= MIN_PASSWORD_LENGTH && old(LoadUsers(storage.items)).None? ==>
                && error == Some(FAILURE_MESSAGE)
                && storage.items == old(storage.items)
                && username == old(username) && email == old(email) && password == old(password)
                && message == old(message) && pendingRedirect == old(pendingRedirect)
      ensures |old(password)| >= MIN_PASSWORD_LENGTH && old(LoadUsers(storage.items)).Some? ==>
                var d := CheckRegister(old(LoadUsers(storage.items)).value, old(username), old(password), old(email));
                && (d.DuplicateEmail? || d.EncodeThrew? ==>
                     && error == Some(if d.DuplicateEmail? then EMAIL_TAKEN_MESSAGE else FAILURE_MESSAGE)
                     && storage.items == old(storage.items)
                     && username == old(username) && email == old(email) && password == old(password)
                     && message == old(message) && pendingRedirect == old(pendingRedirect))
                && (d.Added? ==>
                     && error.None?
                     && storage.items == old(storage.items)[USER_STORAGE_KEY := Users(d.users)]
                     && username == [] && email == [] && password == []
                     && message == Some(SUCCESS_MESSAGE) && pendingRedirect == Some(LOGIN_ROUTE))
      ensures ReadCurrentUser(storage.items) == old(ReadCurrentUser(storage.items))
    {
      error := None;
      if |password| < MIN_PASSWORD_LENGTH {
        error := Some(SHORT_PASSWORD_MESSAGE);
        return;
      }
      var stored := LoadUsers(storage.items);
      if stored.None? {
        error := Some(FAILURE_MESSAGE);
        return;
      }
      var existingUsers := stored.value;
      if HasEmail(existingUsers, email) {
        error := Some(EMAIL_TAKEN_MESSAGE);
        return;
      }
      var encoded := Base64.Btoa(password);
      if encoded.None? {
        error := Some(FAILURE_MESSAGE);
        return;
      }
      existingUsers := existingUsers + [UserRecord(username, email, encoded.value)];
      storage.SetItem(USER_STORAGE_KEY, Users(existingUsers));
      message := Some(SUCCESS_MESSAGE);
      username := [];
      email := [];
      password := [];
      pendingRedirect := Some(LOGIN_ROUTE);
    }
  }
}
