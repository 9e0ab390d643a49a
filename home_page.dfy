/**
 * The home page: on mount it splits the dataset into a carousel of the
 * best-rated movies, a sidebar of other picks, and "top rated" and
 * "trending" sections; a timer then rotates the carousel, and its dots
 * select a slide directly.
 */
module HomePage {
  import opened Records
  import opened Sequences

  const SLIDER_SIZE: nat := 6
  const SIDEBAR_SIZE: nat := 5
  const SECTION_SIZE: nat := 4
  const DASH: CodeUnit := '-' as int

  predicate SortedByRating(s: seq<Movie>) {
    forall i, j :: 0 <= i < j < |s| ==> s[i].rating >= s[j].rating
  }

  /** Places `m` after every movie rated at least as high, where a stable sort puts it. */
  function InsertByRating(m: Movie, s: seq<Movie>): (r: seq<Movie>)
    ensures |r| == |s| + 1
    ensures multiset(r) == multiset(s) + multiset{m}
  {
    if s == [] then [m]
    else if s[0].rating >= m.rating then
      assert s == [s[0]] + s[1..];
      [s[0]] + InsertByRating(m, s[1..])
    else [m] + s
  }

  lemma {:induction false} InsertKeepsSorted(m: Movie, s: seq<Movie>)
    requires SortedByRating(s)
    ensures SortedByRating(InsertByRating(m, s))
  {
    if s != [] && s[0].rating >= m.rating {
      InsertKeepsSorted(m, s[1..]);
      var rest := InsertByRating(m, s[1..]);
      forall x | x in multiset(s[1..]) + multiset{m} ensures x.rating <= s[0].rating {
        if x != m {
          var k :| 0 <= k < |s| - 1 && s[1..][k] == x;
          assert s[k + 1] == x;
        }
      }
      RatedAtMost(rest, multiset(s[1..]) + multiset{m}, s[0].rating);
      ConsSorted(s[0], rest);
    } else if s != [] {
      ConsSorted(m, s);
    }
  }

  /** Every movie of `rest` comes from `pool`, where none is rated above `bound`. */
  lemma RatedAtMost(rest: seq<Movie>, pool: multiset<Movie>, bound: int)
    requires multiset(rest) == pool
    requires forall x :: x in pool ==> x.rating <= bound
    ensures forall k :: 0 <= k < |rest| ==> rest[k].rating <= bound
  {
    forall k | 0 <= k < |rest| ensures rest[k].rating <= bound {
      assert rest[k] in multiset(rest);
    }
  }

  lemma ConsSorted(x: Movie, rest: seq<Movie>)
    requires SortedByRating(rest)
    requires forall k :: 0 <= k < |rest| ==> rest[k].rating <= x.rating
    ensures SortedByRating([x] + rest)
  {
    var r := [x] + rest;
    forall i, j | 0 <= i < j < |r| ensures r[i].rating >= r[j].rating {
      assert r[j] == rest[j - 1];
      if i > 0 {
        assert r[i] == rest[i - 1];
      }
    }
  }

  /** `[...movies].sort((a, b) => b.vote_average - a.vote_average)`: a stable sort, best first. */
  function SortByRating(s: seq<Movie>): (r: seq<Movie>)
    ensures |r| == |s|
    ensures SortedByRating(r)
    ensures multiset(r) == multiset(s)
  {
    if s == [] then []
    else
      assert s == s[..|s| - 1] + [s[|s| - 1]];
      var sorted := SortByRating(s[..|s| - 1]);
      InsertKeepsSorted(s[|s| - 1], sorted);
      InsertByRating(s[|s| - 1], sorted)
  }

  /** The movies of `s` rated exactly `v`, in their order in `s`. */
  function RatedAs(s: seq<Movie>, v: int): (r: seq<Movie>)
    ensures forall i :: 0 <= i < |r| ==> r[i].rating == v
  {
    Filter(s, HasRating(v))
  }

  function HasRating(v: int): (r: Movie -> bool) {
    (m: Movie) => m.rating == v
  }

  /** Inserting `m` into a sorted list puts it behind every movie rated as it is. */
  lemma {:induction false} InsertRatedAs(m: Movie, s: seq<Movie>, v: int)
    requires SortedByRating(s)
    ensures RatedAs(InsertByRating(m, s), v) == RatedAs(s, v) + (if m.rating == v then [m] else [])
  {
    if s == [] {
      FilterCons(m, [], HasRating(v));
    } else if s[0].rating >= m.rating {
      InsertRatedAs(m, s[1..], v);
      assert InsertByRating(m, s) == [s[0]] + InsertByRating(m, s[1..]);
      assert s == [s[0]] + s[1..];
      FilterConsShift(s[0], s[1..], InsertByRating(m, s[1..]), if m.rating == v then [m] else [], HasRating(v));
    } else {
      InsertInFront(m, s, v);
    }
  }

  /** When `m` outranks the head of a sorted list, it outranks every movie in it. */
  lemma InsertInFront(m: Movie, s: seq<Movie>, v: int)
    requires SortedByRating(s) && s != [] && s[0].rating < m.rating
    ensures RatedAs(InsertByRating(m, s), v) == RatedAs(s, v) + (if m.rating == v then [m] else [])
  {
    var p := HasRating(v);
    assert InsertByRating(m, s) == [m] + s;
    FilterCons(m, s, p);
    if m.rating == v {
      forall i | 0 <= i < |s| ensures !p(s[i]) {
        assert s[0].rating >= s[i].rating;
      }
      FilterNone(s, p);
    }
  }

  /**
   * The sort is stable: movies of equal rating keep the order they had in
   * the dataset.
   */
  lemma {:induction false} SortIsStable(s: seq<Movie>, v: int)
    ensures RatedAs(SortByRating(s), v) == RatedAs(s, v)
  {
    if s != [] {
      var init, last := s[..|s| - 1], s[|s| - 1];
      assert s == init + [last];
      SortIsStable(init, v);
      InsertRatedAs(last, SortByRating(init), v);
      FilterAppend(init, [last], HasRating(v));
      FilterCons(last, [], HasRating(v));
    }
  }

  function IdsOf(s: seq<Movie>): (r: set<int>) {
    set m | m in s :: m.id
  }

  datatype Layout = Layout(slider: seq<Movie>, sidebar: seq<Movie>, topRated: seq<Movie>, trending: seq<Movie>)

  /** The lists the mount effect computes from the dataset and one shuffle of it. */
  function PlanLayout(data: seq<Movie>, shuffled: seq<Movie>): (r: Layout)
  {
    var slider := Slice(SortByRating(data), 0, SLIDER_SIZE);
    var sidebar := Slice(Filter(shuffled, (m: Movie) => m.id !in IdsOf(slider)), 0, SIDEBAR_SIZE);
    Layout(slider, sidebar, Slice(shuffled, 0, SECTION_SIZE), Slice(shuffled, SECTION_SIZE, 2 * SECTION_SIZE))
  }

  /** The carousel holds six movies or the whole dataset, the sidebar at most five, each section at most four. */
  lemma PlanLayoutSizes(data: seq<Movie>, shuffled: seq<Movie>)
    ensures var l := PlanLayout(data, shuffled);
      && |l.slider| == Min(SLIDER_SIZE, |data|)
      && |l.sidebar| <= SIDEBAR_SIZE
      && |l.topRated| == Min(SECTION_SIZE, |shuffled|)
      && |l.trending| == Min(2 * SECTION_SIZE, |shuffled|) - Min(SECTION_SIZE, |shuffled|)
  {
  }

  /** `topSliderMovies.forEach(m => usedMovieIds.add(m.id))` */
  method SliderIds(slider: seq<Movie>) returns (used: set<int>)
    ensures used == IdsOf(slider)
  {
    used := {};
    for i := 0 to |slider|
      invariant forall k :: 0 <= k < i ==> slider[k].id in used
      invariant forall id :: id in used ==> exists k :: 0 <= k < i && slider[k].id == id
    {
      used := used + {slider[i].id};
    }
    forall id | id in used ensures id in IdsOf(slider) {
      var k :| 0 <= k < |slider| && slider[k].id == id;
      assert slider[k] in slider;
    }
  }

  /**
   * The mount effect's computation. An empty dataset returns early with
   * nothing set; otherwise the four lists.
   */
  method ComputeLayout(data: seq<Movie>, shuffled: seq<Movie>) returns (layout: Option<Layout>)
    ensures data == [] ==> layout.None?
    ensures data != [] ==> layout == Some(PlanLayout(data, shuffled))
  {
    if |data| == 0 {
      return None;
    }
    var sortedByRating := SortByRating(data);
    var topSliderMovies := Slice(sortedByRating, 0, SLIDER_SIZE);
    var usedMovieIds := SliderIds(topSliderMovies);
    var sidebarMovies := Slice(Filter(shuffled, (m: Movie) => m.id !in usedMovieIds), 0, SIDEBAR_SIZE);
    var topRatedList := Slice(shuffled, 0, SECTION_SIZE);
    var trendingList := Slice(shuffled, SECTION_SIZE, 2 * SECTION_SIZE);
    layout := Some(Layout(topSliderMovies, sidebarMovies, topRatedList, trendingList));
  }

  /** The slider holds the best-rated movies: none left out is rated above one taken. */
  lemma SliderIsTopRated(data: seq<Movie>, shuffled: seq<Movie>)
    ensures var slider := PlanLayout(data, shuffled).slider;
      && |slider| == Min(SLIDER_SIZE, |data|)
      && SortedByRating(slider)
      && multiset(slider) <= multiset(data)
      && forall m, s :: m in multiset(data) - multiset(slider) && s in slider ==> m.rating <= s.rating
  {
    var sorted := SortByRating(data);
    var slider := PlanLayout(data, shuffled).slider;
    PlanLayoutSizes(data, shuffled);
    var k := |slider|;
    assert slider == sorted[..k];
    assert sorted == slider + sorted[k..];
    assert multiset(data) - multiset(slider) == multiset(sorted[k..]);
    SortedPrefixIsTop(sorted, k);
  }

  lemma SortedPrefixIsTop(sorted: seq<Movie>, k: nat)
    requires SortedByRating(sorted) && k <= |sorted|
    ensures SortedByRating(sorted[..k])
    ensures forall m, s :: m in multiset(sorted[k..]) && s in sorted[..k] ==> m.rating <= s.rating
  {
    forall m, s | m in multiset(sorted[k..]) && s in sorted[..k]
      ensures m.rating <= s.rating
    {
      var j :| 0 <= j < |sorted| - k && sorted[k..][j] == m;
      var i :| 0 <= i < k && sorted[..k][i] == s;
      assert sorted[i] == s && sorted[k + j] == m;
    }
  }

  /** The sidebar: at most five movies of the shuffle, in its order, none on the slider. */
  lemma SidebarAvoidsSlider(data: seq<Movie>, shuffled: seq<Movie>)
    ensures var l := PlanLayout(data, shuffled);
      && |l.sidebar| <= SIDEBAR_SIZE
      && (forall i, j :: 0 <= i < |l.sidebar| && 0 <= j < |l.slider| ==> l.sidebar[i].id != l.slider[j].id)
      && IsSubsequence(l.sidebar, shuffled)
  {
    var l := PlanLayout(data, shuffled);
    var kept := Filter(shuffled, (m: Movie) => m.id !in IdsOf(l.slider));
    assert l.sidebar == kept[..|l.sidebar|];
    PrefixIsSubsequence(l.sidebar, kept);
    SubsequenceTransitive(l.sidebar, kept, shuffled);
    forall i, j | 0 <= i < |l.sidebar| && 0 <= j < |l.slider| ensures l.sidebar[i].id != l.slider[j].id {
      assert l.sidebar[i] == kept[i];
      assert l.slider[j].id in IdsOf(l.slider);
    }
  }

  /**
   * "Top rated" and "trending" are the first eight places of the shuffle,
   * four and four, so each shows movies of the dataset.
   */
  lemma SectionsSplitShuffle(data: seq<Movie>, shuffled: seq<Movie>)
    requires multiset(shuffled) == multiset(data)
    ensures var l := PlanLayout(data, shuffled);
      && |l.topRated| <= SECTION_SIZE && |l.trending| <= SECTION_SIZE
      && l.topRated + l.trending == shuffled[..Min(2 * SECTION_SIZE, |shuffled|)]
      && (forall m :: m in l.topRated + l.trending ==> m in data)
  {
    var l := PlanLayout(data, shuffled);
    forall m | m in l.topRated + l.trending ensures m in data {
      assert m in multiset(shuffled);
    }
  }

  /** The text before the first `-`: `"2010-07-16".split('-')[0]` */
  function BeforeFirstDash(s: JsString): (r: JsString)
    ensures r <= s
    ensures forall i :: 0 <= i < |r| ==> r[i] != DASH
    ensures |r| == |s| || s[|r|] == DASH
  {
    if s == [] || s[0] == DASH then [] else [s[0]] + BeforeFirstDash(s[1..])
  }

  /** The card's year: the release date up to its first `-`, or `N/A` when there is no date. */
  function YearLabel(releaseDate: Option<JsString>): (r: JsString)
    ensures releaseDate.None? || releaseDate.value == [] ==> r == Js("N/A")
    ensures releaseDate.Some? && releaseDate.value != [] ==>
      && r <= releaseDate.value
      && (forall i :: 0 <= i < |r| ==> r[i] != DASH)
      && (|r| == |releaseDate.value| || releaseDate.value[|r|] == DASH)
  {
    match releaseDate
    case Some(d) => if d != [] then BeforeFirstDash(d) else Js("N/A")
    case None => Js("N/A")
  }

  class HomeView {
    var featured: Option<Movie>
    var otherMovies: seq<Movie>
    var trending: seq<Movie>
    var topRated: seq<Movie>
    var slider: seq<Movie>
    var currentIndex: int

    /** The featured movie is the slide the carousel index points at. */
    ghost predicate CarouselInvariant()
      reads this
    {
      && (slider == [] ==> featured.None? && currentIndex == 0)
      && (slider != [] ==> 0 <= currentIndex < |slider| && featured == Some(slider[currentIndex]))
    }

    /** Mounting the page: the initial state, then the partition effect over `data` and its shuffle. */
    constructor (data: seq<Movie>, shuffled: seq<Movie>)
      ensures data == [] ==> featured.None? && slider == [] && otherMovies == [] && topRated == [] && trending == []
      ensures data != [] ==>
        var l := PlanLayout(data, shuffled);
        && slider == l.slider && otherMovies == l.sidebar && topRated == l.topRated && trending == l.trending
        && featured == Some(l.slider[0])
      ensures currentIndex == 0
      ensures CarouselInvariant()
    {
      featured := None;
      otherMovies := [];
      trending := [];
      topRated := [];
      slider := [];
      currentIndex := 0;
      new;
      var layout := ComputeLayout(data, shuffled);
      if layout.Some? {
        var l := layout.value;
        PlanLayoutSizes(data, shuffled);
        slider := l.slider;
        featured := Some(l.slider[0]);
        otherMovies := l.sidebar;
        topRated := l.topRated;
        trending := l.trending;
      }
    }

    /** One firing of the six-second interval; no interval runs while the slider is empty. */
    method Tick()
      requires CarouselInvariant()
      modifies this
      ensures slider == old(slider) && otherMovies == old(otherMovies)
      ensures topRated == old(topRated) && trending == old(trending)
      ensures old(slider) == [] ==> currentIndex == old(currentIndex) && featured == old(featured)
      ensures old(slider) != [] ==> currentIndex == (old(currentIndex) + 1) % |slider|
      ensures CarouselInvariant()
    {
      if |slider| == 0 {
        return;
      }
      var nextIndex := (currentIndex + 1) % |slider|;
      featured := Some(slider[nextIndex]);
      currentIndex := nextIndex;
    }

    /** A click on the dot of slide `index`. */
    method SelectDot(index: nat)
      requires index < |slider|
      modifies this
      ensures slider == old(slider) && otherMovies == old(otherMovies)
      ensures featured == Some(slider[index]) && currentIndex == index
      ensures topRated == old(topRated) && trending == old(trending)
      ensures CarouselInvariant()
    {
      featured := Some(slider[index]);
      currentIndex := index;
    }
  }
}
