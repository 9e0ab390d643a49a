/**
 * Browser local storage, as the pages use it: a key-value area shared by
 * the auth provider, the registration form and the movie list. Values are
 * kept already decoded; `Unparsable` stands for text that `JSON.parse`
 * rejects.
 */
module Storage {
  import opened Records

  const USER_STORAGE_KEY: string := "registeredUsers"
  const CURRENT_USER_KEY: string := "currentUser"
  const VIEWED_MOVIES_KEY: string := "viewedMovies"

  datatype StoredValue =
    | Users(users: seq<UserRecord>)
    | CurrentUser(session: Session)
    | ViewedMovies(entries: seq<Movie>)
    | Unparsable

  class LocalStorage {
    var items: map<string, StoredValue>

    constructor (initial: map<string, StoredValue>)
      ensures items == initial
    {
      items := initial;
    }

    method SetItem(key: string, value: StoredValue)
      modifies this
      ensures items == old(items)[key := value]
    {
      items := items[key := value];
    }

    method RemoveItem(key: string)
      modifies this
      ensures items == old(items) - {key}
    {
      items := items - {key};
    }
  }

  /**
   * `JSON.parse(localStorage.getItem('registeredUsers') || '[]')`, as both
   * writers of the user table read it: an absent key is the empty table,
   * and `None` is the exception a value that is not a user list raises.
   */
  function LoadUsers(items: map<string, StoredValue>): (r: Option<seq<UserRecord>>)
    ensures USER_STORAGE_KEY !in items ==> r == Some([])
    ensures r.Some? && USER_STORAGE_KEY in items ==> items[USER_STORAGE_KEY] == Users(r.value)
    ensures r.None? <==> USER_STORAGE_KEY in items && !items[USER_STORAGE_KEY].Users?
  {
    if USER_STORAGE_KEY !in items then Some([])
    else match items[USER_STORAGE_KEY]
      case Users(us) => Some(us)
      case _ => None
  }

  /**
   * `readUserFromLocalStorage`: the session stored under `currentUser`, or
   * null when the key is absent or its value cannot be parsed.
   */
  function ReadCurrentUser(items: map<string, StoredValue>): (r: Option<Session>)
    ensures CURRENT_USER_KEY !in items ==> r.None?
    ensures r.Some? <==> CURRENT_USER_KEY in items && items[CURRENT_USER_KEY].CurrentUser?
    ensures r.Some? ==> items[CURRENT_USER_KEY] == CurrentUser(r.value)
  {
    if CURRENT_USER_KEY in items && items[CURRENT_USER_KEY].CurrentUser? then
      Some(items[CURRENT_USER_KEY].session)
    else None
  }

  /**
   * The storage after `updateLocalStorage(user)`: a session is written under
   * `currentUser`, null removes that key; no other key is touched, and the
   * session reads back unchanged.
   */
  function PersistSession(items: map<string, StoredValue>, user: Option<Session>): (r: map<string, StoredValue>)
    ensures ReadCurrentUser(r) == user
    ensures user.None? <==> CURRENT_USER_KEY !in r
    ensures r.Keys - {CURRENT_USER_KEY} == items.Keys - {CURRENT_USER_KEY}
    ensures forall k :: k in items && k != CURRENT_USER_KEY ==> k in r && r[k] == items[k]
  {
    match user
    case Some(s) => items[CURRENT_USER_KEY := CurrentUser(s)]
    case None => items - {CURRENT_USER_KEY}
  }

  /**
   * `JSON.parse(localStorage.getItem('viewedMovies')) || []`: an absent key
   * is the empty history; `None` is a value that fails to parse.
   */
  function LoadViewed(items: map<string, StoredValue>): (r: Option<seq<Movie>>)
    ensures VIEWED_MOVIES_KEY !in items ==> r == Some([])
    ensures r.Some? && VIEWED_MOVIES_KEY in items ==> items[VIEWED_MOVIES_KEY] == ViewedMovies(r.value)
    ensures r.None? <==> VIEWED_MOVIES_KEY in items && !items[VIEWED_MOVIES_KEY].ViewedMovies?
  {
    if VIEWED_MOVIES_KEY !in items then Some([])
    else match items[VIEWED_MOVIES_KEY]
      case ViewedMovies(ms) => Some(ms)
      case _ => None
  }
}
