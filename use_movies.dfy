/**
 * The dataset hook: a `movies`/`loading`/`error` state machine. Mounting
 * starts a fetch; the simulated network delay ends in one completion step
 * that either publishes the data or records that it is missing.
 */
module UseMovies {
  import opened Records

  const EMPTY_DATA_MESSAGE: string := "Movie data is empty or corrupted."

  class MovieLoader {
    var movies: seq<Movie>
    var loading: bool
    var error: Option<string>

    /** A finished load: not loading, and an error exactly when there are no movies. */
    ghost predicate Settled()
      reads this
    {
      !loading && (error.Some? <==> movies == [])
    }

    /** The hook's initial state. */
    constructor ()
      ensures movies == [] && loading && error.None?
    {
      movies := [];
      loading := true;
      error := None;
    }

    /** The start of `fetchData`: loading again, with no error. */
    method StartFetch()
      modifies this
      ensures loading && error.None?
      ensures movies == old(movies)
    {
      loading := true;
      error := None;
    }

    /**
     * The timeout's callback. `data` is the imported dataset, `None` when it
     * is missing; missing or empty data raises the error the callback catches.
     */
    method Complete(data: Option<seq<Movie>>)
      modifies this
      ensures !loading
      ensures data.None? || data.value == [] ==> error == Some(EMPTY_DATA_MESSAGE) && movies == old(movies)
      ensures data.Some? && data.value != [] ==> movies == data.value && error == old(error)
      ensures old(movies) == [] && old(error).None? ==> Settled()
    {
      if data.None? || |data.value| == 0 {
        error := Some(EMPTY_DATA_MESSAGE);
        loading := false;
        return;
      }
      movies := data.value;
      loading := false;
    }

    /** Mounting the hook and letting its timer fire: the first load, start to end. */
    static method Load(data: Option<seq<Movie>>) returns (loader: MovieLoader)
      ensures fresh(loader)
      ensures loader.Settled()
      ensures data.Some? && data.value != [] ==> loader.movies == data.value && loader.error.None?
      ensures data.None? || data.value == [] ==> loader.movies == [] && loader.error == Some(EMPTY_DATA_MESSAGE)
    {
      loader := new MovieLoader();
      loader.StartFetch();
      loader.Complete(data);
    }
  }
}
