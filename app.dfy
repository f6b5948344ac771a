/** App.tsx: the shell of the site. It holds the current view, the sidebar and the search
    box, chooses the catalogue, creates a user's document on first sign-in and renders
    the screen the view names. */
module App {
  import opened Wrappers
  import opened Types

  // ---------------------------------------------------------------------------------
  // Views and navigation

  /** What a view carries: nothing, a user id (profile), a title (movie page) or a
      person (cast page). */
  datatype Payload = NoData | UidData(uid: string) | MovieData(movie: Movie) | PersonData(person: CastMember)

  /** `{ type, data }`. */
  datatype View = View(kind: string, data: Payload)

  /** The shell's state: the view, whether the sidebar is open and the search box text. */
  class AppState {
    var view: View
    var sidebarOpen: bool
    var searchQuery: string

    /** The search screen is up only while the search box holds text. */
    predicate SearchConsistent()
      reads this
    {
      view.kind == "search" ==> searchQuery != []
    }

    constructor ()
      ensures view == View("home", NoData) && !sidebarOpen && searchQuery == []
      ensures SearchConsistent()
    {
      view := View("home", NoData);
      sidebarOpen := false;
      searchQuery := [];
    }

    /** `navigate(type, data)`: the view becomes exactly `{type, data}`, the sidebar
        closes, and the search box is cleared unless the target is the search screen. */
    method Navigate(kind: string, data: Payload)
      modifies this
      ensures view == View(kind, data) && !sidebarOpen
      ensures searchQuery == if kind == "search" then old(searchQuery) else []
      ensures kind != "search" ==> SearchConsistent()
    {
      view := View(kind, data);
      sidebarOpen := false;
      if kind != "search" {
        searchQuery := [];
      }
    }

    /** Typing in the search box: the box takes the new text; non-empty text opens the
        search screen, and emptying the box while on it goes home. Emptying it elsewhere
        leaves the view alone. Afterwards the search screen is up only with text in the
        box, whatever came before. */
    method OnSearchChange(value: string)
      modifies this
      ensures searchQuery == value
      ensures value != [] ==> view == View("search", NoData) && !sidebarOpen
      ensures value == [] && old(view.kind) == "search" ==> view == View("home", NoData) && !sidebarOpen
      ensures value == [] && old(view.kind) != "search" ==>
        view == old(view) && sidebarOpen == old(sidebarOpen)
      ensures SearchConsistent()
    {
      searchQuery := value;
      if value != [] {
        Navigate("search", NoData);
      } else if view.kind == "search" {
        Navigate("home", NoData);
      }
    }
  }

  // ---------------------------------------------------------------------------------
  // The catalogue

  /** Where the catalogue stands: no database configured (the bundled list is set at
      once), a database whose subscription has not delivered yet, a snapshot, or a read
      error. */
  datatype CatalogueSource = NoDatabaseSource | Awaiting | Snapshot(movies: seq<Movie>) | ReadError

  /** The catalogue the site shows, `bundled` being the list shipped with the site. */
  function Catalogue(src: CatalogueSource, bundled: seq<Movie>): seq<Movie> {
    match src
    case NoDatabaseSource => bundled
    case Awaiting => []
    case ReadError => bundled
    case Snapshot(ms) => if |ms| == 0 then bundled else ms
  }

  /** Until the subscription delivers, the catalogue is the initial empty list. After
      that, the bundled list is shown exactly when there is no database, the read failed,
      or the collection is empty; otherwise the snapshot is shown as delivered. So once
      anything has been delivered, the site never shows an empty catalogue while the
      bundled list has titles. */
  lemma CatalogueSound(src: CatalogueSource, bundled: seq<Movie>)
    ensures src.Awaiting? ==> Catalogue(src, bundled) == []
    ensures src.Snapshot? && src.movies != [] ==> Catalogue(src, bundled) == src.movies
    ensures !src.Awaiting? && !(src.Snapshot? && src.movies != []) ==> Catalogue(src, bundled) == bundled
    ensures !src.Awaiting? && bundled != [] ==> Catalogue(src, bundled) != []
    ensures Catalogue(src, bundled) == [] || Catalogue(src, bundled) == bundled
            || (src.Snapshot? && Catalogue(src, bundled) == src.movies)
  {
  }

  // ---------------------------------------------------------------------------------
  // First sign-in

  /** The name a new user document gets: "Guest" for an anonymous account, else the
      display name, else "User". */
  function NewUserName(u: AuthUser): string {
    if u.isAnonymous then "Guest" else DisplayNameOrUser(u)
  }

  /** The document written for an account that has none yet. */
  function DefaultUserDoc(u: AuthUser): UserProfile {
    UserProfile(u.uid, NewUserName(u), u.email.GetOr([]), "user", [], [], [], [], [], "CineSphere Viewer", Pending)
  }

  /** What reading the account's document gave: it exists, it is missing, or the read
      threw (the listener catches that and writes nothing). */
  datatype DocRead = DocExists | DocMissing | DocReadFailed

  /** The write the sign-in listener makes: with a signed-in account and a database, a
      default document exactly when the read found none. A document that exists, and a
      read that failed, both leave the store alone. */
  function FirstSignInWrite(u: Option<AuthUser>, databasePresent: bool, read: DocRead): (w: Option<UserProfile>)
    ensures w.Some? <==> u.Some? && databasePresent && read == DocMissing
    ensures w.Some? ==> w.value == DefaultUserDoc(u.value)
  {
    if u.Some? && databasePresent && read == DocMissing then Some(DefaultUserDoc(u.value)) else None
  }

  /** A new document belongs to the account, is named "Guest" for an anonymous account and
      otherwise by the display name or "User", never with an empty name; its email is the
      account's or empty, its role "user", its bio "CineSphere Viewer", every list empty,
      and its creation time left to the server. */
  lemma DefaultUserDocSound(u: AuthUser)
    ensures var d := DefaultUserDoc(u);
      && d.uid == u.uid
      && d.name != []
      && (u.isAnonymous ==> d.name == "Guest")
      && (!u.isAnonymous && u.displayName.Some? && u.displayName.value != [] ==> d.name == u.displayName.value)
      && (!u.isAnonymous && (u.displayName.None? || u.displayName.value == []) ==> d.name == "User")
      && d.email == (if u.email.Some? then u.email.value else [])
      && d.role == "user" && d.bio == "CineSphere Viewer"
      && d.followers == [] && d.following == [] && d.watchLater == [] && d.likedMovies == []
      && d.playlists == [] && d.createdAt == Pending
  {
  }

  // ---------------------------------------------------------------------------------
  // Rendering the view

  datatype Screen =
    | HomeScreen | LibraryScreen | FeedScreen | UploadScreen | NotificationsScreen
    | CineGenieScreen | SearchScreen | ProfileScreen | MovieScreen | CastScreen

  /** The view types the shell knows, and the screen each one renders. */
  const ViewKinds: seq<string> :=
    ["home", "library", "feed", "upload", "notifications", "cinegenie", "search", "profile", "movie", "cast"]
  const Screens: seq<Screen> :=
    [HomeScreen, LibraryScreen, FeedScreen, UploadScreen, NotificationsScreen,
     CineGenieScreen, SearchScreen, ProfileScreen, MovieScreen, CastScreen]

  /** The screens the main area renders for a view type: each screen has its own
      conditional and renders when the view's type is its own. */
  function RenderedScreens(kind: string): set<Screen> {
    set j | 0 <= j < |ViewKinds| && ViewKinds[j] == kind :: Screens[j]
  }

  /** At most one screen renders for any view type: the one listed for it, and none for
      a type the shell does not know. */
  lemma RenderedScreensSound(kind: string)
    ensures |RenderedScreens(kind)| <= 1
    ensures RenderedScreens(kind) == {} <==> kind !in ViewKinds
    ensures forall i :: 0 <= i < |ViewKinds| && kind == ViewKinds[i] ==> RenderedScreens(kind) == {Screens[i]}
  {
    var r := RenderedScreens(kind);
    if kind in ViewKinds {
      var i :| 0 <= i < |ViewKinds| && ViewKinds[i] == kind;
      KindsDistinct();
      assert Screens[i] in r;
      assert r == {Screens[i]};
    } else {
      assert r == {};
    }
  }

  /** No view type is listed twice. */
  lemma KindsDistinct()
    ensures forall i, j :: 0 <= i < j < |ViewKinds| ==> ViewKinds[i] != ViewKinds[j]
  {
  }
}
