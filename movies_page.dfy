/**
 * The movie list page: a free-text search over the loaded movies, taken
 * from the `search` URL parameter, and a most-recent-first view history
 * kept in local storage under `viewedMovies`.
 */
module MoviesPage {
  import opened Records
  import opened Sequences
  import opened Storage

  /** The code units `String.prototype.trim` removes: ECMAScript WhiteSpace and LineTerminator. */
  predicate IsJsWhitespace(c: CodeUnit) {
    c == 0x09 || c == 0x0A || c == 0x0B || c == 0x0C || c == 0x0D || c == 0x20 ||
    c == 0xA0 || c == 0x1680 || (0x2000 <= c <= 0x200A) || c == 0x2028 || c == 0x2029 ||
    c == 0x202F || c == 0x205F || c == 0x3000 || c == 0xFEFF
  }

  /** How many whitespace code units `s` starts with. */
  function LeadingWhitespace(s: JsString): (n: nat)
    ensures n <= |s|
    ensures forall k :: 0 <= k < n ==> IsJsWhitespace(s[k])
    ensures n == |s| || !IsJsWhitespace(s[n])
  {
    if s != [] && IsJsWhitespace(s[0]) then 1 + LeadingWhitespace(s[1..]) else 0
  }

  /** Where the whitespace `s` ends with begins. */
  function TrailingWhitespaceStart(s: JsString): (n: nat)
    ensures n <= |s|
    ensures forall k :: n <= k < |s| ==> IsJsWhitespace(s[k])
    ensures n == 0 || !IsJsWhitespace(s[n - 1])
  {
    if s != [] && IsJsWhitespace(s[|s| - 1]) then TrailingWhitespaceStart(s[..|s| - 1]) else |s|
  }

  /** `s.trim()`: the longest middle part of `s` with no whitespace at either end. */
  function Trim(s: JsString): (r: JsString)
    ensures r == [] || (!IsJsWhitespace(r[0]) && !IsJsWhitespace(r[|r| - 1]))
    ensures exists i :: 0 <= i <= |s| && TrimmedAt(s, r, i)
  {
    var i := LeadingWhitespace(s);
    var j := TrailingWhitespaceStart(s);
    if j <= i then
      assert TrimmedAt(s, [], i);
      []
    else
      var r := s[i..j];
      assert TrimmedAt(s, r, i);
      r
  }

  /** `r` is the part of `s` that starts at `i`, with only whitespace before and after it. */
  predicate TrimmedAt(s: JsString, r: JsString, i: nat) {
    && i + |r| <= |s|
    && (forall k :: 0 <= k < |r| ==> r[k] == s[i + k])
    && (forall k :: 0 <= k < i ==> IsJsWhitespace(s[k]))
    && (forall k :: i + |r| <= k < |s| ==> IsJsWhitespace(s[k]))
  }

  predicate IsAsciiUpper(c: CodeUnit) {
    'A' as int <= c <= 'Z' as int
  }

  /** `toLowerCase`, restricted to the ASCII letters. */
  function ToLower(s: JsString): (r: JsString)
    ensures |r| == |s|
    ensures forall i :: 0 <= i < |r| ==> !IsAsciiUpper(r[i])
    ensures forall i :: 0 <= i < |r| ==> r[i] == s[i] || (IsAsciiUpper(s[i]) && r[i] == s[i] + 32)
  {
    seq(|s|, i requires 0 <= i < |s| => if IsAsciiUpper(s[i]) then s[i] + 32 else s[i])
  }

  /**
   * The search query: the `search` parameter (or the empty string when it
   * is absent), lowercased and trimmed.
   */
  function SearchQuery(param: Option<JsString>): (q: JsString)
    ensures param.None? ==> q == []
    ensures forall i :: 0 <= i < |q| ==> !IsAsciiUpper(q[i])
    ensures q == [] || (!IsJsWhitespace(q[0]) && !IsJsWhitespace(q[|q| - 1]))
    ensures param.Some? ==> exists i :: 0 <= i <= |param.value| && TrimmedAt(ToLower(param.value), q, i)
  {
    var raw := match param case Some(p) => p case None => [];
    Trim(ToLower(raw))
  }

  /** A string with no whitespace at either end is its own trim. */
  lemma TrimKeeps(s: JsString)
    requires s == [] || (!IsJsWhitespace(s[0]) && !IsJsWhitespace(s[|s| - 1]))
    ensures Trim(s) == s
  {
    var i := LeadingWhitespace(s);
    var j := TrailingWhitespaceStart(s);
    assert i == 0 && j == |s|;
  }

  /** Normalising a query that is already normalised changes nothing. */
  lemma SearchQueryIdempotent(param: Option<JsString>)
    ensures SearchQuery(Some(SearchQuery(param))) == SearchQuery(param)
  {
    var q := SearchQuery(param);
    LowerKeeps(q);
    TrimKeeps(q);
    SearchQueryOfPresent(q);
  }

  lemma SearchQueryOfPresent(p: JsString)
    ensures SearchQuery(Some(p)) == Trim(ToLower(p))
  {
  }

  /** A string with no upper-case letter is its own lowercase. */
  lemma LowerKeeps(s: JsString)
    requires forall i :: 0 <= i < |s| ==> !IsAsciiUpper(s[i])
    ensures ToLower(s) == s
  {
    assert forall i :: 0 <= i < |s| ==> ToLower(s)[i] == s[i];
  }

  /** `text.includes(pattern)` */
  predicate Includes(text: JsString, pattern: JsString) {
    exists i :: 0 <= i <= |text| - |pattern| && OccursAt(text, pattern, i)
  }

  predicate OccursAt(text: JsString, pattern: JsString, i: nat) {
    i + |pattern| <= |text| && text[i..i + |pattern|] == pattern
  }

  predicate MatchesQuery(m: Movie, query: JsString) {
    Includes(ToLower(m.title), query) || Includes(ToLower(m.overview), query)
  }

  /** Every string includes the empty string and itself; a pattern it includes is no longer than it. */
  lemma IncludesBounds(text: JsString, pattern: JsString)
    ensures Includes(text, [])
    ensures Includes(text, text)
    ensures Includes(text, pattern) ==> |pattern| <= |text|
  {
    assert OccursAt(text, [], 0);
    assert OccursAt(text, text, 0);
  }

  /** The empty query matches every movie. */
  lemma EmptyQueryMatches(m: Movie)
    ensures MatchesQuery(m, [])
  {
    IncludesBounds(ToLower(m.title), []);
  }

  /** Titles and overviews are lowercased before the search, so a query with an upper-case letter matches nothing. */
  lemma UppercaseQueryMatchesNothing(m: Movie, query: JsString, k: nat)
    requires k < |query| && IsAsciiUpper(query[k])
    ensures !MatchesQuery(m, query)
  {
    LowercaseExcludes(ToLower(m.title), query, k);
    LowercaseExcludes(ToLower(m.overview), query, k);
  }

  lemma LowercaseExcludes(text: JsString, query: JsString, k: nat)
    requires forall i :: 0 <= i < |text| ==> !IsAsciiUpper(text[i])
    requires k < |query| && IsAsciiUpper(query[k])
    ensures !Includes(text, query)
  {
    forall i | 0 <= i <= |text| - |query| ensures !OccursAt(text, query, i) {
      if i + |query| <= |text| {
        assert text[i..i + |query|][k] == text[i + k];
      }
    }
  }

  /** `filteredMovies`: the movies whose lowercased title or overview contains the query, in order. */
  function FilterMovies(movies: seq<Movie>, query: JsString): (r: seq<Movie>)
    ensures forall i :: 0 <= i < |r| ==> r[i] in movies && MatchesQuery(r[i], query)
    ensures forall i :: 0 <= i < |movies| && MatchesQuery(movies[i], query) ==> movies[i] in r
    ensures IsSubsequence(r, movies)
  {
    Filter(movies, (m: Movie) => MatchesQuery(m, query))
  }

  /** Every copy of a matching movie survives the search; no copy of another does. */
  lemma FilterMoviesCount(movies: seq<Movie>, query: JsString, m: Movie)
    ensures multiset(FilterMovies(movies, query))[m] ==
            if MatchesQuery(m, query) then multiset(movies)[m] else 0
  {
    FilterCount(movies, (m: Movie) => MatchesQuery(m, query), m);
  }

  /** The empty query keeps every movie, in order. */
  lemma {:induction false} EmptyQueryKeepsAll(movies: seq<Movie>)
    ensures FilterMovies(movies, []) == movies
  {
    if movies != [] {
      var m := movies[0];
      assert OccursAt(ToLower(m.title), [], 0);
      EmptyQueryKeepsAll(movies[1..]);
      assert movies == [m] + movies[1..];
    }
  }

  /** `history.filter(m => m.id !== id)` */
  function WithoutId(history: seq<Movie>, id: int): (r: seq<Movie>)
    ensures forall i :: 0 <= i < |r| ==> r[i].id != id && r[i] in history
    ensures forall i :: 0 <= i < |history| && history[i].id != id ==> history[i] in r
    ensures IsSubsequence(r, history)
  {
    Filter(history, (m: Movie) => m.id != id)
  }

  /** Every copy of an entry with another id survives; no entry with the id does. */
  lemma WithoutIdCount(history: seq<Movie>, id: int, m: Movie)
    ensures multiset(WithoutId(history, id))[m] == if m.id != id then multiset(history)[m] else 0
  {
    FilterCount(history, (m: Movie) => m.id != id, m);
  }

  /** The history after `handleClick(movie)`: the movie, stamped, in front of every other entry. */
  function MoveToFront(history: seq<Movie>, movie: Movie, now: JsString): (r: seq<Movie>)
    ensures 1 <= |r| <= |history| + 1
    ensures r[0] == movie.(viewedAt := Some(now))
    ensures forall i :: 1 <= i < |r| ==> r[i].id != movie.id
    ensures IsSubsequence(r[1..], history)
    ensures forall i :: 0 <= i < |history| && history[i].id != movie.id ==> history[i] in r[1..]
  {
    var r := [movie.(viewedAt := Some(now))] + WithoutId(history, movie.id);
    assert r[1..] == WithoutId(history, movie.id);
    r
  }

  /** Behind the clicked movie, the old history keeps every entry of another id, as often as before. */
  lemma MoveToFrontCount(history: seq<Movie>, movie: Movie, now: JsString, m: Movie)
    ensures multiset(MoveToFront(history, movie, now)[1..])[m] ==
            if m.id != movie.id then multiset(history)[m] else 0
  {
    assert MoveToFront(history, movie, now)[1..] == WithoutId(history, movie.id);
    WithoutIdCount(history, movie.id, m);
  }

  function MovieId(m: Movie): (r: int) {
    m.id
  }

  /** If the history held each id once, so does the updated history. */
  lemma MoveToFrontKeepsIdsUnique(history: seq<Movie>, movie: Movie, now: JsString)
    requires DistinctBy(history, MovieId)
    ensures DistinctBy(MoveToFront(history, movie, now), MovieId)
  {
    var r := MoveToFront(history, movie, now);
    SubsequenceKeepsDistinct(r[1..], history, MovieId);
    forall i, j | 0 <= i < j < |r| ensures r[i].id != r[j].id {
      if i > 0 {
        assert r[i] == r[1..][i - 1] && r[j] == r[1..][j - 1];
      }
    }
  }

  lemma {:induction false} WithoutAbsentId(history: seq<Movie>, id: int)
    requires forall i :: 0 <= i < |history| ==> history[i].id != id
    ensures WithoutId(history, id) == history
  {
    if history != [] {
      WithoutAbsentId(history[1..], id);
      assert history == [history[0]] + history[1..];
    }
  }

  lemma {:induction false} WithoutPresentId(history: seq<Movie>, id: int, k: nat)
    requires DistinctBy(history, MovieId)
    requires k < |history| && history[k].id == id
    ensures |WithoutId(history, id)| == |history| - 1
  {
    if k == 0 {
      WithoutAbsentId(history[1..], id);
    } else {
      WithoutPresentId(history[1..], id, k - 1);
    }
  }

  /** A movie already in the history moves; a new one makes the history one longer. */
  lemma MoveToFrontLength(history: seq<Movie>, movie: Movie, now: JsString)
    requires DistinctBy(history, MovieId)
    ensures (exists k :: 0 <= k < |history| && history[k].id == movie.id) ==>
            |MoveToFront(history, movie, now)| == |history|
    ensures (forall k :: 0 <= k < |history| ==> history[k].id != movie.id) ==>
            MoveToFront(history, movie, now) == [movie.(viewedAt := Some(now))] + history
  {
    var r := MoveToFront(history, movie, now);
    assert r[1..] == WithoutId(history, movie.id);
    if k :| 0 <= k < |history| && history[k].id == movie.id {
      WithoutPresentId(history, movie.id, k);
    } else {
      WithoutAbsentId(history, movie.id);
    }
  }

  class MoviesView {
    const storage: LocalStorage
    var history: seq<Movie>
    var viewingHistory: bool
    var searchQuery: JsString

    constructor (storage: LocalStorage)
      ensures this.storage == storage
      ensures history == [] && !viewingHistory && searchQuery == []
    {
      this.storage := storage;
      history := [];
      viewingHistory := false;
      searchQuery := [];
    }

    /** `displayedMovies`: the history in history mode, the search result otherwise. */
    function DisplayedMovies(allMovies: seq<Movie>): (r: seq<Movie>)
      reads this
      ensures viewingHistory ==> r == history
      ensures !viewingHistory ==> IsSubsequence(r, allMovies)
      ensures !viewingHistory ==> forall i :: 0 <= i < |allMovies| ==>
                (allMovies[i] in r <==> MatchesQuery(allMovies[i], searchQuery))
    {
      if viewingHistory then history else FilterMovies(allMovies, searchQuery)
    }

    /** In list mode every copy of a matching movie is shown, and no copy of another. */
    lemma DisplayedCount(allMovies: seq<Movie>, m: Movie)
      ensures !viewingHistory ==>
        multiset(DisplayedMovies(allMovies))[m] == if MatchesQuery(m, searchQuery) then multiset(allMovies)[m] else 0
    {
      FilterMoviesCount(allMovies, searchQuery, m);
    }

    /** The effect that runs when the URL's query string changes. */
    method OnLocationChange(searchParam: Option<JsString>)
      modifies this
      ensures searchQuery == SearchQuery(searchParam)
      ensures history == match LoadViewed(storage.items) case Some(h) => h case None => old(history)
      ensures viewingHistory == old(viewingHistory)
    {
      searchQuery := SearchQuery(searchParam);
      var stored := LoadViewed(storage.items);
      if stored.Some? {
        history := stored.value;
      }
    }

    /** The history button. */
    method ToggleView()
      modifies this
      ensures viewingHistory == !old(viewingHistory)
      ensures history == old(history) && searchQuery == old(searchQuery)
    {
      viewingHistory := !viewingHistory;
    }

    method HandleClick(movie: Movie, now: JsString)
      modifies this, storage
      ensures history == MoveToFront(old(history), movie, now)
      ensures storage.items == old(storage.items)[VIEWED_MOVIES_KEY := ViewedMovies(history)]
      ensures LoadViewed(storage.items) == Some(history)
      ensures viewingHistory == old(viewingHistory) && searchQuery == old(searchQuery)
    {
      var updatedHistory := [movie.(viewedAt := Some(now))] + WithoutId(history, movie.id);
      history := updatedHistory;
      storage.SetItem(VIEWED_MOVIES_KEY, ViewedMovies(updatedHistory));
    }

    /** Clear history; `confirmed` is the user's answer to the confirmation dialog. */
    method HandleClearHistory(confirmed: bool)
      modifies this, storage
      ensures confirmed ==> history == [] && storage.items == old(storage.items) - {VIEWED_MOVIES_KEY}
      ensures confirmed ==> LoadViewed(storage.items) == Some([])
      ensures !confirmed ==> history == old(history) && storage.items == old(storage.items)
      ensures viewingHistory == old(viewingHistory) && searchQuery == old(searchQuery)
    {
      if confirmed {
        history := [];
        storage.RemoveItem(VIEWED_MOVIES_KEY);
      }
    }
  }
}
