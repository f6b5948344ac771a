/** The records of the catalogue and the social layer (types.ts), plus the signed-in
    account the authentication service hands to the components. Optional fields are
    `Option`s; `any`-typed timestamps are `Timestamp`s. */
module Types {
  import opened Wrappers
  import opened JsText

  datatype CastMember = CastMember(name: string, image: Option<string>, role: Option<string>)

  datatype BoxOffice = BoxOffice(budget: string, collection: string, verdict: string)

  datatype Availability = Availability(platform: string, kind: string)

  /** `'Movie' | 'Web Series' | 'TV Show' | 'Anime'`. */
  datatype MovieType = Film | WebSeries | TvShow | Anime {
    /** The string the type is stored and compared as. */
    function Label(): string {
      match this
      case Film => "Movie"
      case WebSeries => "Web Series"
      case TvShow => "TV Show"
      case Anime => "Anime"
    }
  }

  /** A catalogue title. `rating` is a real number (shown as e.g. 4.8). */
  datatype Movie = Movie(
    id: string,
    title: string,
    kind: MovieType,
    genre: seq<string>,
    language: string,
    availableLanguages: seq<string>,
    year: int,
    rating: real,
    ageRating: string,
    poster: string,
    backdrop: string,
    about: string,
    trailerId: string,
    director: string,
    cast: seq<CastMember>,
    availability: Availability,
    releaseDate: Option<string>,
    ottDate: Option<string>,
    boxOffice: Option<BoxOffice>,
    status: Option<string>)

  /** A document-store timestamp: written by the server (`serverTimestamp()`), so a
      snapshot may hold it before the server has filled it in. */
  datatype Timestamp = Pending | At(seconds: int)

  /** `createdAt?.seconds || 0`: the seconds of a timestamp, 0 when there are none. */
  function SecondsOrZero(t: Timestamp): int {
    match t
    case Pending => 0
    case At(s) => s
  }

  datatype Comment = Comment(uid: string, name: string, text: string, createdAt: int)

  /** A multiple-choice question. `correct` is what `parseInt` made of the reply's last
      field, so it may be NaN or lie outside the option indices. */
  datatype Quiz = Quiz(question: string, options: seq<string>, correct: JsNumber)

  datatype PostType = Normal | QuizType

  datatype Post = Post(
    id: string,
    uid: string,
    name: string,
    channel: string,
    text: Option<string>,
    mediaUrl: Option<string>,
    kind: PostType,
    quiz: Option<Quiz>,
    likes: seq<string>,
    comments: seq<Comment>,
    createdAt: Timestamp)

  datatype Playlist = Playlist(id: string, name: string, items: seq<string>)

  datatype UserProfile = UserProfile(
    uid: string,
    name: string,
    email: string,
    role: string,
    followers: seq<string>,
    following: seq<string>,
    watchLater: seq<string>,
    likedMovies: seq<string>,
    playlists: seq<Playlist>,
    bio: string,
    createdAt: Timestamp)

  datatype NotificationType = LikeNotice | FollowNotice

  datatype Notification = Notification(
    id: string,
    kind: NotificationType,
    fromName: string,
    toUserId: string,
    createdAt: Timestamp)

  /** The signed-in account as the authentication service reports it. */
  datatype AuthUser = AuthUser(
    uid: string,
    isAnonymous: bool,
    displayName: Option<string>,
    email: Option<string>)

  /** What became of a write the handler sent to the document store: there was no
      database configured (the handler skips the write), the write was applied, or the
      store rejected it and the awaited promise threw. */
  datatype WriteOutcome = NoDatabase | Written | Rejected

  /** `user.displayName || "User"`: the display name, unless missing or empty. */
  function DisplayNameOrUser(u: AuthUser): (r: string)
    ensures r != []
    ensures u.displayName.Some? && u.displayName.value != [] ==> r == u.displayName.value
    ensures !(u.displayName.Some? && u.displayName.value != []) ==> r == "User"
  {
    match u.displayName
    case Some(n) => if n != [] then n else "User"
    case None => "User"
  }
}
