# Movie catalog front end — verified model

A Dafny model of the logic under the JSX of a React movie catalog: the mock
authentication layer (a table of registered users and a session, both kept in
local storage, passwords Base64-encoded with `btoa`/`atob`), the registration
form that writes the same table, the movie list page's search filter and view
history, the home page's partition of the dataset into a carousel, a sidebar
and two sections, and the hook that loads the dataset.

Modules, one per source file plus shared ones:

- `Records` — JavaScript strings (`JsString`, sequences of UTF-16 code units)
  and the movie, user and session records.
- `Sequences` — `filter`, `slice`, and "keeps the order of" (`IsSubsequence`).
- `Storage` — local storage as a class holding a map from key to an
  already-decoded value; the readers of the three keys the pages use.
- `Base64` — `btoa` as the encoding of section 4 of RFC 4648 on strings whose
  code units are at most 255, `atob` as the forgiving decoder browsers
  implement, and the proof that the second undoes the first.
- `AuthContext` — the decisions `register` and `login` take on the user table
  (pure functions), and the provider as a class whose session field is
  mirrored under `currentUser`.
- `RegisterPage` — the registration form as a class; its submit handler.
- `MoviesPage` — the search query, the filter, the move-to-front history and
  the page's state as a class.
- `HomePage` — the rating sort, the mount effect's partition, the year label,
  and the carousel as a class.
- `UseMovies` — the loader's `movies`/`loading`/`error` state machine.

React's `setState` calls are modelled as field assignments that take effect at
once. The provider's effect that copies the session to storage runs inside the
same step as the `setUser` that triggers it. Setting `null` over `null` changes
nothing, so the effect does not run then. Timers, the confirmation dialog,
the clock and the shuffle are parameters or explicit step methods.

## Model

| member | source | states |
|---|---|---|
| Base64.Btoa | src/contexts/AuthContext.jsx:10 | `btoa` succeeds exactly on strings whose code units are all at most 255; the encoding's length is `4 * ceil(n / 3)`, a multiple of four |
| Base64.Unpadded | src/contexts/AuthContext.jsx:10 | the unpadded encoding has four alphabet characters per full group of three bytes, plus two or three for a leftover of one or two bytes |
| Base64.SextetValue | src/contexts/AuthContext.jsx:11 | decoding an alphabet character gives the 6-bit value that encodes back to that character |
| Base64.SextetCharInverse | src/contexts/AuthContext.jsx:10-11 | every 6-bit value encodes to an alphabet character that decodes back to it |
| Base64.GroupRoundTrip | src/contexts/AuthContext.jsx:10-11 | splitting one to three bytes into 6-bit values and joining them again gives the bytes back |
| Base64.ToChars | src/contexts/AuthContext.jsx:10 | mapping 6-bit values to characters gives alphabet characters, each decoding to its value |
| Base64.ToValues | src/contexts/AuthContext.jsx:11 | mapping alphabet characters to their values gives 6-bit values, one per character |
| Base64.SextetsOf | src/contexts/AuthContext.jsx:10 | a group of n bytes (1 to 3) gives n + 1 six-bit values |
| Base64.BytesOf | src/contexts/AuthContext.jsx:11 | n six-bit values (2 to 4) give n - 1 bytes |
| Base64.PaddedLength | src/contexts/AuthContext.jsx:10 | the unpadded length plus the padding is `4 * ceil(n / 3)`, a multiple of four |
| Base64.Atob | src/contexts/AuthContext.jsx:11 | whatever `atob` decodes is a string of code units at most 255 |
| Base64.StripWhitespace | src/contexts/AuthContext.jsx:11 | the decoder's input without ASCII whitespace is no longer and has none |
| Base64.DropPadding | src/contexts/AuthContext.jsx:11 | dropping padding leaves a prefix of the input |
| Base64.DecodeSextets | src/contexts/AuthContext.jsx:11 | decoding alphabet characters gives code units at most 255 |
| Base64.StripWhitespaceKeeps | src/contexts/AuthContext.jsx:11 | a string with no ASCII whitespace passes the whitespace filter unchanged |
| Base64.DecodeUnpadded | src/contexts/AuthContext.jsx:10-11 | decoding the unpadded encoding of a Latin-1 string gives the string back |
| Base64.DropPaddingOfEncoding | src/contexts/AuthContext.jsx:10-11 | the decoder removes exactly the padding the encoder adds |
| Base64.EncodingHasNoWhitespace | src/contexts/AuthContext.jsx:10 | the encoding contains no ASCII whitespace |
| Base64.UnpaddedLength | src/contexts/AuthContext.jsx:10-11 | the unpadded encoding never has a length of 1 modulo 4, which the decoder would reject |
| Base64.BtoaAtobRoundTrip | src/contexts/AuthContext.jsx:10-11 | for every string `btoa` accepts, `atob(btoa(p)) == p` |
| Sequences.Filter | src/pages/Movies.jsx:33-36 | `filter` keeps exactly the elements the predicate accepts, in their order, and no more than the input has |
| Sequences.FilterCount | src/pages/Movies.jsx:33-36 | `filter` keeps every copy of an accepted element and no copy of a rejected one |
| Sequences.FilterCons | src/pages/Movies.jsx:33-36 | the head of the array is kept exactly when the predicate accepts it, and the rest is filtered the same way |
| Sequences.FilterConsShift | src/pages/Home.jsx:75 | putting the same head on two arrays keeps the difference between their filtered results |
| Sequences.FilterAppend | src/pages/Home.jsx:75 | filtering two joined arrays gives the two filtered parts, joined |
| Sequences.FilterNone | src/pages/Movies.jsx:45 | nothing is left after filtering when the predicate rejects every element |
| Sequences.Slice | src/pages/Home.jsx:80 | `slice(start, end)` has length `min(end, n) - start` (0 when empty) and holds the elements from `start` on |
| Sequences.SubsequenceMembers | src/pages/Movies.jsx:45 | every element of a subsequence is an element of the whole |
| Sequences.SubsequenceKeepsDistinct | src/pages/Movies.jsx:43-46 | leaving elements out keeps keys distinct |
| Sequences.PrefixIsSubsequence | src/pages/Home.jsx:85 | a prefix keeps the order of the whole |
| Sequences.SubsequenceTransitive | src/pages/Home.jsx:85 | a subsequence of a subsequence is a subsequence |
| Storage.LocalStorage.SetItem | src/contexts/AuthContext.jsx:35 | `setItem` overwrites one key and leaves the rest |
| Storage.LocalStorage.RemoveItem | src/contexts/AuthContext.jsx:37 | `removeItem` deletes one key and leaves the rest |
| Storage.LoadUsers | src/contexts/AuthContext.jsx:61 | an absent table reads as empty; a stored table reads as itself; any other stored value makes the read throw |
| Storage.ReadCurrentUser | src/contexts/AuthContext.jsx:14-22 | the session is the stored `currentUser` value, and null exactly when the key is absent or its value does not parse as a session |
| Storage.PersistSession | src/contexts/AuthContext.jsx:33-39 | after the sync a session reads back unchanged; null removes the key; every other key keeps its value |
| Storage.LoadViewed | src/pages/Movies.jsx:24-29 | an absent history reads as empty; a stored history reads as itself; anything else fails to load |
| AuthContext.HasEmailAppend | src/contexts/AuthContext.jsx:62 | after a record is appended, `some(u => u.email === email)` holds exactly when it held before or the new record has that email |
| AuthContext.FirstWithEmail | src/contexts/AuthContext.jsx:77 | `find` stops at the first record with the email, and finds none exactly when no record has it |
| AuthContext.CheckRegister | src/contexts/AuthContext.jsx:60-73 | a known email is refused; otherwise a password `btoa` refuses throws; otherwise exactly one record with the encoded password is appended after the unchanged table and the session is `{username, email}` |
| AuthContext.CheckLogin | src/contexts/AuthContext.jsx:75-91 | only the first record with the email is checked. An unknown email is rejected. The login succeeds exactly when that record's stored password decodes to the one given, with that record's username and email as the session. It throws exactly when the stored password does not decode |
| AuthContext.RegisterThenLogin | src/contexts/AuthContext.jsx:60-91 | after a successful registration, logging in with the same email and password succeeds with the new session |
| AuthContext.RegisterKeepsEmailsUnique | src/contexts/AuthContext.jsx:62-67 | a table without duplicate emails keeps none after a registration |
| AuthContext.LoginChecksTheAccount | src/contexts/AuthContext.jsx:77-84 | when emails are unique, login succeeds exactly when that account's stored password decodes to the one given |
| AuthContext.AuthProvider.constructor | src/contexts/AuthContext.jsx:30-44 | the session starts as the stored one, and the mount effect leaves it mirrored in storage |
| AuthContext.AuthProvider.UpdateLocalStorage | src/contexts/AuthContext.jsx:33-39 | the storage becomes the synced storage for the given session |
| AuthContext.AuthProvider.SetUser | src/contexts/AuthContext.jsx:30-44 | a new session is stored and mirrored; null over null changes nothing; mirroring is preserved |
| AuthContext.AuthProvider.HandleStorageChange | src/contexts/AuthContext.jsx:48-52 | only a change to `currentUser` reloads the session from storage; any other key, or none, changes nothing; reloading null over null leaves storage unchanged |
| AuthContext.AuthProvider.Register | src/contexts/AuthContext.jsx:60-73 | the result, session and storage follow `CheckRegister` on the stored table: refusal leaves table and session unchanged, success writes the grown table and logs the new user in |
| AuthContext.AuthProvider.Login | src/contexts/AuthContext.jsx:75-91 | the result, session and storage follow `CheckLogin`; both failures give the same message and keep the session |
| AuthContext.AuthProvider.Logout | src/contexts/AuthContext.jsx:93-103 | the session becomes null, so the user is not authenticated; `currentUser` is removed when a session existed, and otherwise storage is unchanged |
| RegisterPage.RegisterForm.constructor | src/pages/Register.jsx:11-16 | the form starts with empty fields and no error, message or redirect |
| RegisterPage.RegisterForm.SetUsername | src/pages/Register.jsx:11 | an edit changes the username field only |
| RegisterPage.RegisterForm.SetEmail | src/pages/Register.jsx:12 | an edit changes the email field only |
| RegisterPage.RegisterForm.SetPassword | src/pages/Register.jsx:13 | an edit changes the password field only |
| RegisterPage.RegisterForm.HandleSubmit | src/pages/Register.jsx:18-59 | the error is cleared first; a password under 6 code units is refused before the table is read; an unreadable table or a password `btoa` refuses gives the generic error; a known email is refused with the table unchanged; success appends exactly the encoded record, clears the fields, sets the message, schedules `/login` and never touches the session |
| MoviesPage.LeadingWhitespace | src/pages/Movies.jsx:22 | counts exactly the whitespace the string starts with |
| MoviesPage.TrailingWhitespaceStart | src/pages/Movies.jsx:22 | finds exactly where the whitespace the string ends with begins |
| MoviesPage.Trim | src/pages/Movies.jsx:22 | `trim` gives a middle part of the string with whitespace only around it and none at its ends |
| MoviesPage.ToLower | src/pages/Movies.jsx:22-35 | lowercasing keeps the length, maps each upper-case letter to its lower-case one and keeps every other code unit |
| MoviesPage.SearchQuery | src/pages/Movies.jsx:20-22 | the query is empty when the parameter is absent; otherwise it is the lowercased parameter, trimmed: a contiguous part of it with only whitespace before and after, and no whitespace at its own ends. It has no upper-case letter |
| MoviesPage.TrimKeeps | src/pages/Movies.jsx:22 | a string with no whitespace at either end is its own trim |
| MoviesPage.SearchQueryIdempotent | src/pages/Movies.jsx:20-22 | normalising an already normalised query changes nothing |
| MoviesPage.IncludesBounds | src/pages/Movies.jsx:34-35 | `includes` finds the empty string and the text itself, and never a pattern longer than the text |
| MoviesPage.EmptyQueryMatches | src/pages/Movies.jsx:33-36 | every movie matches the empty query |
| MoviesPage.UppercaseQueryMatchesNothing | src/pages/Movies.jsx:33-36 | title and overview are lowercased before the search, so a query with an upper-case letter matches no movie |
| MoviesPage.LowercaseExcludes | src/pages/Movies.jsx:34-35 | a text without upper-case letters never includes a pattern that has one |
| MoviesPage.LowerKeeps | src/pages/Movies.jsx:22 | lowercasing a string without upper-case letters gives it back |
| MoviesPage.FilterMovies | src/pages/Movies.jsx:33-36 | keeps exactly the movies whose lowercased title or overview contains the query, in order |
| MoviesPage.FilterMoviesCount | src/pages/Movies.jsx:33-36 | the search keeps every copy of a matching movie and no copy of another |
| MoviesPage.EmptyQueryKeepsAll | src/pages/Movies.jsx:33-36 | the empty query keeps every movie, in order |
| MoviesPage.WithoutId | src/pages/Movies.jsx:45 | removes exactly the entries with the id, keeping the order of the rest |
| MoviesPage.WithoutIdCount | src/pages/Movies.jsx:45 | every copy of an entry with another id is kept, and no entry with the id |
| MoviesPage.MoveToFront | src/pages/Movies.jsx:40-46 | the clicked movie, stamped, is first; its id occurs nowhere else; the other entries keep their order; none is lost; the length grows by at most one |
| MoviesPage.MoveToFrontCount | src/pages/Movies.jsx:43-46 | behind the clicked movie, each entry of another id appears as often as in the old history, and none with its id |
| MoviesPage.MoveToFrontKeepsIdsUnique | src/pages/Movies.jsx:43-46 | a history with unique ids keeps unique ids |
| MoviesPage.WithoutAbsentId | src/pages/Movies.jsx:45 | removing an id not in the history changes nothing |
| MoviesPage.WithoutPresentId | src/pages/Movies.jsx:45 | removing an id held once shortens the history by one |
| MoviesPage.MoveToFrontLength | src/pages/Movies.jsx:43-46 | revisiting a movie keeps the length; a new movie is put in front of the unchanged history |
| MoviesPage.MoviesView.constructor | src/pages/Movies.jsx:13-15 | empty history, list mode, empty query |
| MoviesPage.MoviesView.DisplayedMovies | src/pages/Movies.jsx:38 | the history in history mode; otherwise exactly the movies matching the query, in order |
| MoviesPage.MoviesView.DisplayedCount | src/pages/Movies.jsx:33-38 | in list mode every copy of a matching movie is shown, and no copy of another |
| MoviesPage.MoviesView.OnLocationChange | src/pages/Movies.jsx:19-31 | the query is re-derived from the URL; the history is reloaded, or kept when the stored value fails to load |
| MoviesPage.MoviesView.ToggleView | src/pages/Movies.jsx:154 | the mode flips and nothing else changes |
| MoviesPage.MoviesView.HandleClick | src/pages/Movies.jsx:40-49 | the history becomes the move-to-front update and the stored `viewedMovies` equals it |
| MoviesPage.MoviesView.HandleClearHistory | src/pages/Movies.jsx:56-65 | only when confirmed does the history become empty and `viewedMovies` get removed; otherwise nothing changes |
| HomePage.InsertByRating | src/pages/Home.jsx:75 | inserting a movie adds exactly that movie |
| HomePage.InsertKeepsSorted | src/pages/Home.jsx:75 | inserting into a list sorted by rating keeps it sorted |
| HomePage.SortByRating | src/pages/Home.jsx:75 | the sorted copy is ordered by non-increasing rating and is a permutation of the dataset |
| HomePage.RatedAs | src/pages/Home.jsx:75 | picks out the movies of one rating, in their order |
| HomePage.InsertRatedAs | src/pages/Home.jsx:75 | inserting into a sorted list puts the movie behind every movie of its rating and moves no other movie of any rating |
| HomePage.InsertInFront | src/pages/Home.jsx:75 | a movie rated above the head of a sorted list is rated above all of it, so its rating has no movies there yet |
| HomePage.SortIsStable | src/pages/Home.jsx:75 | the sort is stable: for every rating, the movies with that rating keep their dataset order |
| HomePage.PlanLayoutSizes | src/pages/Home.jsx:75-93 | the slider holds min(6, n) movies, the sidebar at most 5, top rated min(4, m) and trending min(8, m) - min(4, m), where n is the dataset's length and m the shuffle's |
| HomePage.SliderIds | src/pages/Home.jsx:78-81 | the loop collects exactly the ids of the slider |
| HomePage.ComputeLayout | src/pages/Home.jsx:72-95 | an empty dataset returns early with nothing; otherwise the four lists of the partition |
| HomePage.SliderIsTopRated | src/pages/Home.jsx:75-80 | the slider holds min(6, n) movies of the dataset, sorted, and no movie left out is rated above one taken |
| HomePage.SortedPrefixIsTop | src/pages/Home.jsx:75-80 | in a sorted list no entry after a cut is rated above one before it |
| HomePage.SidebarAvoidsSlider | src/pages/Home.jsx:78-87 | the sidebar has at most 5 movies, in shuffle order, and none shares an id with a slider movie |
| HomePage.SectionsSplitShuffle | src/pages/Home.jsx:89-93 | top rated and trending have at most 4 movies each and together are the first eight places of the shuffle, so they never overlap in position and hold only dataset movies |
| HomePage.BeforeFirstDash | src/pages/Home.jsx:58 | `split('-')[0]`: the longest prefix without `-` |
| HomePage.YearLabel | src/pages/Home.jsx:58 | `N/A` when the release date is absent or empty; otherwise the prefix before its first `-` |
| HomePage.HomeView.constructor | src/pages/Home.jsx:65-95 | after mounting, an empty dataset leaves everything empty and nothing featured; otherwise the lists are the partition and the first slide is featured |
| HomePage.HomeView.Tick | src/pages/Home.jsx:97-109 | with no slides nothing happens; otherwise the index goes from i to (i + 1) mod the slider length, keeping featured equal to the slide at the index |
| HomePage.HomeView.SelectDot | src/pages/Home.jsx:186-190 | a dot click features that slide and moves the index to it, keeping featured equal to the slide at the index |
| UseMovies.MovieLoader.constructor | src/Data/UseMovies.js:6-8 | no movies, loading, no error |
| UseMovies.MovieLoader.StartFetch | src/Data/UseMovies.js:13-14 | loading again, error cleared, movies kept |
| UseMovies.MovieLoader.Complete | src/Data/UseMovies.js:17-31 | loading ends either way; missing or empty data sets the error and keeps the movies; other data becomes the movies; after a fresh start, there is an error exactly when there are no movies |
| UseMovies.MovieLoader.Load | src/Data/UseMovies.js:5-41 | mounting and letting the timer fire ends settled: the data without an error, or no movies with the error |

## Left out

- Rendering, animation variants, styling, links and `window.open` (presentation only).
- Timers: the carousel interval, the loader's 500 ms delay and the form's 2 s delay before navigating are explicit steps (`Tick`, `Complete`, the `pendingRedirect` field). Cancelling a timer on unmount is not modelled.
- The router: the URL's `search` parameter is a parameter of `OnLocationChange`, and navigation to `/login` is recorded, not performed.
- `window.confirm` is the boolean parameter of `HandleClearHistory`; `new Date().toISOString()` is the `now` parameter of `HandleClick`.
- `Math.random` shuffling: the shuffle is a parameter; lemmas that need it to be a permutation of the dataset require so.
- Cross-tab `storage` event delivery: only the handler's key filter is modelled (`HandleStorageChange`).
- JSON text: storage holds decoded values. A stored value of the wrong shape is treated like one that does not parse (`Unparsable`). In the source such a value can instead reach the state, or fail later.
- Storage quota errors from `setItem` are not modelled.
- `vote_average` is an integer `rating`, not a floating-point number; `toFixed` display and a missing rating (`NaN` in the comparator) are left out.
- MoviesPage.ToLower: lowercases ASCII letters only, where `toLowerCase` folds all of Unicode.
- The `loading`/`error` screens of the movie page, `About.jsx`, `Contact.jsx`, `Login.jsx` (form glue around `login`), `App.jsx` and `main.jsx` are not part of this model.
- `eslint.config.js` is not part of this model: it holds a stale copy of the home page, not used by the application.
- The home page's second `forEach` that adds sidebar ids to the used-id set (src/pages/Home.jsx:86) is left out: nothing reads the set afterwards.
- The sort copies the dataset (`[...moviesData]`): the model's functions take the dataset as a value, so it is unchanged by construction.
- AuthContext.AuthProvider.IsAuthenticated has no contract of its own; `Register`, `Login` and `Logout` state what it returns after each.
