/** views/Discovery.tsx: the home page (type and genre filter, hero pick, rows), the
    community feed's "following" tab and the title search. All of it selects from the
    catalogue or from a posts snapshot, keeping the input order. */
module Discovery {
  import opened Wrappers
  import opened JsText
  import opened Types
  import opened Sequences

  // ---------------------------------------------------------------------------------
  // Home filter

  /** The value of either filter that lets every movie through. */
  const All: string := "All"

  /** The type buttons of the home page. */
  const Categories: seq<string> := ["All", "Movie", "Web Series", "TV Show"]

  /** The genre buttons of the home page. */
  const Genres: seq<string> := ["All", "Action", "Sci-Fi", "Drama", "Horror", "Comedy", "Thriller"]

  /** The home filter's test for one movie: its type matches the type filter and its
      genres include the genre filter, either filter being passed by "All". */
  predicate HomeMatch(m: Movie, filterType: string, filterGenre: string) {
    && (filterType == All || m.kind.Label() == filterType)
    && (filterGenre == All || filterGenre in m.genre)
  }

  function HomeTest(filterType: string, filterGenre: string): Movie -> bool {
    (m: Movie) => HomeMatch(m, filterType, filterGenre)
  }

  /** The movies the home page shows, in catalogue order. */
  function HomeFilter(movies: seq<Movie>, filterType: string, filterGenre: string): seq<Movie> {
    Filter(movies, HomeTest(filterType, filterGenre))
  }

  /** A movie is shown exactly when it is in the catalogue, its type is the one chosen
      (or "All" is chosen) and its genres include the one chosen (or "All" is chosen). */
  lemma HomeFilterMembership(movies: seq<Movie>, filterType: string, filterGenre: string, m: Movie)
    ensures m in HomeFilter(movies, filterType, filterGenre) <==>
      && m in movies
      && (filterType == All || m.kind.Label() == filterType)
      && (filterGenre == All || filterGenre in m.genre)
  {
    FilterMembership(movies, HomeTest(filterType, filterGenre), m);
  }

  /** With both filters on "All" the home page shows the whole catalogue, in order. */
  lemma HomeFilterAllAll(movies: seq<Movie>)
    ensures HomeFilter(movies, All, All) == movies
  {
    FilterKeepsAll(movies, HomeTest(All, All));
  }

  /** The home filter keeps catalogue order, and filtering its result again with the same
      buttons changes nothing. */
  lemma HomeFilterOrder(movies: seq<Movie>, filterType: string, filterGenre: string)
    ensures IsSubsequence(HomeFilter(movies, filterType, filterGenre), movies)
    ensures HomeFilter(HomeFilter(movies, filterType, filterGenre), filterType, filterGenre)
            == HomeFilter(movies, filterType, filterGenre)
  {
    FilterIsSubsequence(movies, HomeTest(filterType, filterGenre));
    FilterIdempotent(movies, HomeTest(filterType, filterGenre));
  }

  /** The type buttons offer no "Anime": once a type other than "All" is chosen from
      them, no anime title is shown. */
  lemma AnimeNeverCategorised(movies: seq<Movie>, filterType: string, filterGenre: string)
    requires filterType in Categories && filterType != All
    ensures forall i :: 0 <= i < |HomeFilter(movies, filterType, filterGenre)| ==>
      HomeFilter(movies, filterType, filterGenre)[i].kind != Anime
  {
    var r := HomeFilter(movies, filterType, filterGenre);
    forall i | 0 <= i < |r|
      ensures r[i].kind != Anime
    {
      assert HomeTest(filterType, filterGenre)(r[i]);
    }
  }

  // ---------------------------------------------------------------------------------
  // Hero

  predicate IsUpcoming(m: Movie) {
    m.status == Some("Upcoming")
  }

  /** The hero: the first upcoming movie of the filtered list, else its first movie, and
      none (no hero section) when the list is empty. */
  function Hero(filtered: seq<Movie>): (h: Option<Movie>)
    ensures h.None? <==> filtered == []
    ensures h.Some? ==> h.value in filtered
    ensures (exists k :: 0 <= k < |filtered| && IsUpcoming(filtered[k])) ==>
      h.Some? && IsUpcoming(h.value)
      && exists k :: 0 <= k < |filtered| && filtered[k] == h.value
           && forall j :: 0 <= j < k ==> !IsUpcoming(filtered[j])
    ensures (forall k :: 0 <= k < |filtered| ==> !IsUpcoming(filtered[k])) && filtered != [] ==>
      h == Some(filtered[0])
  {
    match FindIndex(filtered, IsUpcoming)
    case Some(k) => Some(filtered[k])
    case None => if filtered == [] then None else Some(filtered[0])
  }

  // ---------------------------------------------------------------------------------
  // Rows

  /** "Trending Now": rated above 4.5. */
  predicate Trending(m: Movie) {
    m.rating > 4.5
  }

  /** "New Releases": released in 2024 or later. */
  predicate NewRelease(m: Movie) {
    m.year >= 2024
  }

  /** "Action Thrillers": tagged with the genre "Action". */
  predicate ActionGenre(m: Movie) {
    "Action" in m.genre
  }

  /** A row the home page renders: its heading and its movies. */
  datatype Row = Row(title: string, movies: seq<Movie>)

  /** `renderRow`: nothing for an empty selection. */
  function RenderRow(title: string, data: seq<Movie>): Option<Row> {
    if |data| == 0 then None else Some(Row(title, data))
  }

  /** The three rows under the hero, in page order, each present only when non-empty. */
  function Rows(filtered: seq<Movie>): seq<Option<Row>> {
    [ RenderRow("Trending Now", Filter(filtered, Trending)),
      RenderRow("New Releases", Filter(filtered, NewRelease)),
      RenderRow("Action Thrillers", Filter(filtered, ActionGenre)) ]
  }

  /** A movie appears in a rendered row exactly when it is in the filtered list and meets
      that row's test; a row is missing exactly when no filtered movie meets its test. */
  lemma RowsSound(filtered: seq<Movie>, m: Movie)
    ensures var rows := Rows(filtered);
      && (rows[0].Some? ==> (m in rows[0].value.movies <==> m in filtered && Trending(m)))
      && (rows[1].Some? ==> (m in rows[1].value.movies <==> m in filtered && NewRelease(m)))
      && (rows[2].Some? ==> (m in rows[2].value.movies <==> m in filtered && ActionGenre(m)))
      && (rows[0].None? ==> forall k :: 0 <= k < |filtered| ==> !Trending(filtered[k]))
      && (rows[1].None? ==> forall k :: 0 <= k < |filtered| ==> !NewRelease(filtered[k]))
      && (rows[2].None? ==> forall k :: 0 <= k < |filtered| ==> !ActionGenre(filtered[k]))
  {
    FilterMembership(filtered, Trending, m);
    FilterMembership(filtered, NewRelease, m);
    FilterMembership(filtered, ActionGenre, m);
    forall k | 0 <= k < |filtered|
      ensures Trending(filtered[k]) ==> Filter(filtered, Trending) != []
      ensures NewRelease(filtered[k]) ==> Filter(filtered, NewRelease) != []
      ensures ActionGenre(filtered[k]) ==> Filter(filtered, ActionGenre) != []
    {
      FilterMembership(filtered, Trending, filtered[k]);
      FilterMembership(filtered, NewRelease, filtered[k]);
      FilterMembership(filtered, ActionGenre, filtered[k]);
    }
  }

  /** Each row keeps the order of the filtered list. */
  lemma RowsOrder(filtered: seq<Movie>)
    ensures IsSubsequence(Filter(filtered, Trending), filtered)
    ensures IsSubsequence(Filter(filtered, NewRelease), filtered)
    ensures IsSubsequence(Filter(filtered, ActionGenre), filtered)
  {
    FilterIsSubsequence(filtered, Trending);
    FilterIsSubsequence(filtered, NewRelease);
    FilterIsSubsequence(filtered, ActionGenre);
  }

  // ---------------------------------------------------------------------------------
  // Search

  /** The search test: the lowered title contains the lowered query. */
  predicate SearchMatch(m: Movie, query: string) {
    Includes(Lower(m.title), Lower(query))
  }

  function SearchTest(query: string): Movie -> bool {
    (m: Movie) => SearchMatch(m, query)
  }

  /** The search page's results, in catalogue order. */
  function SearchResults(query: string, movies: seq<Movie>): seq<Movie> {
    Filter(movies, SearchTest(query))
  }

  /** A movie is a result exactly when it is in the catalogue and its lowered title
      contains the lowered query; keeping catalogue order; searching the results again
      finds them all. */
  lemma SearchResultsSound(query: string, movies: seq<Movie>, m: Movie)
    ensures m in SearchResults(query, movies) <==> m in movies && Includes(Lower(m.title), Lower(query))
    ensures IsSubsequence(SearchResults(query, movies), movies)
    ensures SearchResults(query, SearchResults(query, movies)) == SearchResults(query, movies)
  {
    FilterMembership(movies, SearchTest(query), m);
    FilterIsSubsequence(movies, SearchTest(query));
    FilterIdempotent(movies, SearchTest(query));
  }

  /** The empty query finds the whole catalogue. */
  lemma SearchEmptyQuery(movies: seq<Movie>)
    ensures SearchResults([], movies) == movies
  {
    assert Lower([]) == [];
    forall i | 0 <= i < |movies|
      ensures SearchTest([])(movies[i])
    {
      assert Includes(Lower(movies[i].title), []);
    }
    FilterKeepsAll(movies, SearchTest([]));
  }

  /** A title containing the query exactly as typed is always found, whatever the case of
      either. */
  lemma SearchFindsExactSubstring(query: string, movies: seq<Movie>, m: Movie)
    requires m in movies && Includes(m.title, query)
    ensures m in SearchResults(query, movies)
  {
    IncludesLower(m.title, query);
    FilterMembership(movies, SearchTest(query), m);
  }

  // ---------------------------------------------------------------------------------
  // Feed

  /** The following list of the signed-in user's own record, `[]` when the users list
      has no record with that uid. */
  function MyFollowing(uid: string, users: seq<UserProfile>): seq<string> {
    match Find(users, (u: UserProfile) => u.uid == uid)
    case Some(u) => u.following
    case None => []
  }

  function ByAuthorIn(following: seq<string>): Post -> bool {
    (p: Post) => p.uid in following
  }

  /** The posts the feed shows, from a snapshot already ordered newest first: on the
      "following" tab with a signed-in user only the posts of authors that user follows,
      otherwise all of them. */
  function FeedPosts(tab: string, user: Option<AuthUser>, users: seq<UserProfile>, all: seq<Post>): seq<Post> {
    if tab == "following" && user.Some? then
      Filter(all, ByAuthorIn(MyFollowing(user.value.uid, users)))
    else all
  }

  /** On the "following" tab with a user, a post is shown exactly when it is in the
      snapshot and its author is followed, in snapshot order; otherwise the snapshot is
      shown unchanged. */
  lemma FeedPostsSound(tab: string, user: Option<AuthUser>, users: seq<UserProfile>, all: seq<Post>, p: Post)
    ensures tab == "following" && user.Some? ==>
      && (p in FeedPosts(tab, user, users, all) <==> p in all && p.uid in MyFollowing(user.value.uid, users))
      && IsSubsequence(FeedPosts(tab, user, users, all), all)
    ensures !(tab == "following" && user.Some?) ==> FeedPosts(tab, user, users, all) == all
  {
    if tab == "following" && user.Some? {
      var f := MyFollowing(user.value.uid, users);
      FilterMembership(all, ByAuthorIn(f), p);
      FilterIsSubsequence(all, ByAuthorIn(f));
    }
  }

  /** A user with no record of their own in the users list sees no posts on the
      "following" tab. */
  lemma {:induction false} FeedWithoutRecord(user: AuthUser, users: seq<UserProfile>, all: seq<Post>)
    requires forall k :: 0 <= k < |users| ==> users[k].uid != user.uid
    ensures FeedPosts("following", Some(user), users, all) == []
  {
    assert MyFollowing(user.uid, users) == [];
    EmptyFollowingFilter(all);
  }

  lemma {:induction false} EmptyFollowingFilter(all: seq<Post>)
    ensures Filter(all, ByAuthorIn([])) == []
  {
    if all != [] {
      EmptyFollowingFilter(all[1..]);
    }
  }

  /** The following list found is the one of the user's own record: the first record in
      the users list carrying their uid. */
  lemma MyFollowingIsOwnRecord(uid: string, users: seq<UserProfile>, k: nat)
    requires k < |users| && users[k].uid == uid
    requires forall j :: 0 <= j < k ==> users[j].uid != uid
    ensures MyFollowing(uid, users) == users[k].following
  {
    var found := FindIndex(users, (u: UserProfile) => u.uid == uid);
    assert found.Some?;
    assert found.value == k;
  }
}
