/**
 * The values the movie catalog front end passes around: JavaScript strings,
 * movie records from the bundled dataset, registered-user records and the
 * session record of the mock authentication layer.
 */
module Records {

  datatype Option<+T> = None | Some(value: T)

  /** One UTF-16 code unit: the element type of a JavaScript string. */
  type CodeUnit = c: int | 0 <= c < 0x1_0000

  /** A JavaScript string; `s.length` in JavaScript is `|s|` here. */
  type JsString = seq<CodeUnit>

  /** The JavaScript string whose code units are the characters of `s`
      (used for the few string literals the pages compare against). */
  function Js(s: string): (r: JsString)
    requires forall i :: 0 <= i < |s| ==> s[i] as int < 0x1_0000
    ensures |r| == |s|
    ensures forall i :: 0 <= i < |r| ==> r[i] == s[i] as int
  {
    if s == [] then [] else [s[0] as int as CodeUnit] + Js(s[1..])
  }

  /**
   * A movie of the static dataset. `rating` stands for `vote_average`
   * (compared, never printed, by the logic modelled here); `viewedAt` is
   * the field the view history adds with an object spread.
   */
  datatype Movie = Movie(
    id: int,
    title: JsString,
    overview: JsString,
    posterPath: JsString,
    releaseDate: Option<JsString>,
    rating: int,
    imdbLink: Option<JsString>,
    viewedAt: Option<JsString>)

  /** An entry of the `registeredUsers` table: the password is stored Base64-encoded. */
  datatype UserRecord = UserRecord(username: JsString, email: JsString, password: JsString)

  /** The session record `{username, email}`: it never carries a password. */
  datatype Session = Session(username: JsString, email: JsString)
}
