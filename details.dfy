/** views/Details.tsx: the title page (MovieDetail: watch-later and like toggles, AI
    insights, related posts, star rating), the profile page (UserProfile: owner-only
    settings) and the person page (CastProfile: filmography). */
module Details {
  import opened Wrappers
  import opened Types
  import opened Sequences
  import opened ArrayField

  // ---------------------------------------------------------------------------------
  // Watch-later and like toggles

  /** The update a toggle sends, chosen from the flag as it was before the click: add
      the title when the flag was off, remove it when it was on. */
  function ToggleWrite(wasOn: bool, movieId: string): ArrayWrite<string> {
    if !wasOn then Union(movieId) else Remove(movieId)
  }

  /** Whatever the stored list held, once the update lands the title is in it exactly
      when the flag is now on, and no other title's membership changes. */
  lemma ToggleWriteLands(wasOn: bool, stored: seq<string>, movieId: string, other: string)
    requires other != movieId
    ensures movieId in Apply(ToggleWrite(wasOn, movieId), stored) <==> !wasOn
    ensures other in Apply(ToggleWrite(wasOn, movieId), stored) <==> other in stored
  {
    ApplyMembership(ToggleWrite(wasOn, movieId), stored, movieId);
    ApplyMembership(ToggleWrite(wasOn, movieId), stored, other);
  }

  /** The flags start off whatever the stored lists hold, so the first click on a title
      already saved sends an add that leaves the list as it was. */
  lemma FirstClickMayBeNoOp(stored: seq<string>, movieId: string)
    requires movieId in stored
    ensures ToggleWrite(false, movieId) == Union(movieId)
    ensures Apply(ToggleWrite(false, movieId), stored) == stored
  {
  }

  /** The user document after a watch-later update: only `watchLater` is touched. */
  function WithWatchLater(doc: UserProfile, w: ArrayWrite<string>): UserProfile {
    doc.(watchLater := Apply(w, doc.watchLater))
  }

  /** The user document after a like update: only `likedMovies` is touched. */
  function WithLikedMovies(doc: UserProfile, w: ArrayWrite<string>): UserProfile {
    doc.(likedMovies := Apply(w, doc.likedMovies))
  }

  /** Each toggle's update leaves the other list, and the rest of the document, as it was;
      the title is then in the list concerned exactly when that flag is on. */
  lemma TogglesTouchOwnField(doc: UserProfile, wasOn: bool, movieId: string)
    ensures var d := WithWatchLater(doc, ToggleWrite(wasOn, movieId));
      && d.likedMovies == doc.likedMovies
      && d.(watchLater := doc.watchLater) == doc
      && (movieId in d.watchLater <==> !wasOn)
    ensures var d := WithLikedMovies(doc, ToggleWrite(wasOn, movieId));
      && d.watchLater == doc.watchLater
      && d.(likedMovies := doc.likedMovies) == doc
      && (movieId in d.likedMovies <==> !wasOn)
  {
    ApplyMembership(ToggleWrite(wasOn, movieId), doc.watchLater, movieId);
    ApplyMembership(ToggleWrite(wasOn, movieId), doc.likedMovies, movieId);
  }

  // ---------------------------------------------------------------------------------
  // Related posts

  /** `createdAt?.seconds || 0` of a post. */
  function PostSeconds(p: Post): int {
    SecondsOrZero(p.createdAt)
  }

  function OnChannel(movieId: string): Post -> bool {
    (p: Post) => p.channel == movieId
  }

  /** The posts of a title's channel as the page lists them: the posts the channel query
      returns, newest first, a post without a timestamp counting as 0. */
  method RelatedPostsOf(movieId: string, posts: seq<Post>) returns (r: seq<Post>)
    ensures forall i :: 0 <= i < |r| ==> r[i].channel == movieId
    ensures multiset(r) == multiset(Filter(posts, OnChannel(movieId)))
    ensures NonIncreasing(r, PostSeconds)
  {
    var all := Filter(posts, OnChannel(movieId));
    r := SortedCopy(all, PostSeconds);
    forall i | 0 <= i < |r|
      ensures r[i].channel == movieId
    {
      assert r[i] in multiset(all);
      assert OnChannel(movieId)(r[i]);
    }
  }

  // ---------------------------------------------------------------------------------
  // Stars

  /** The five stars, numbered from 1. */
  const Stars: seq<int> := [1, 2, 3, 4, 5]

  /** Star `star` is drawn filled when it is at most the rating chosen. */
  predicate StarFilled(star: int, userRating: int) {
    star <= userRating
  }

  /** The stars drawn filled for a rating, in order. */
  function FilledStars(userRating: int): seq<int> {
    Filter(Stars, (star: int) => StarFilled(star, userRating))
  }

  /** For a rating of 0 (none chosen) up to 5 the filled stars are exactly the first
      `userRating` ones. */
  lemma FilledStarsArePrefix(userRating: int)
    requires 0 <= userRating <= 5
    ensures FilledStars(userRating) == Stars[..userRating]
  {
    var p := (star: int) => StarFilled(star, userRating);
    assert Filter(Stars[4..], p) == if 5 <= userRating then [5] else [];
    assert Filter(Stars[3..], p) == (if 4 <= userRating then [4] else []) + Filter(Stars[4..], p);
    assert Filter(Stars[2..], p) == (if 3 <= userRating then [3] else []) + Filter(Stars[3..], p);
    assert Filter(Stars[1..], p) == (if 2 <= userRating then [2] else []) + Filter(Stars[2..], p);
    assert Filter(Stars, p) == (if 1 <= userRating then [1] else []) + Filter(Stars[1..], p);
  }

  // ---------------------------------------------------------------------------------
  // The title page's state

  class MovieDetail {
    var isInWatchLater: bool
    var isLiked: bool
    var aiInsights: string
    var loadingAi: bool
    var relatedPosts: seq<Post>
    var userRating: int
    var speedometerValue: int

    /** The page opens with both flags off, whatever the user's lists hold, no insights,
        no related posts, no stars and the speedometer on "Good". */
    constructor ()
      ensures !isInWatchLater && !isLiked && aiInsights == [] && !loadingAi
      ensures relatedPosts == [] && userRating == 0 && speedometerValue == 4
    {
      isInWatchLater := false;
      isLiked := false;
      aiInsights := [];
      loadingAi := false;
      relatedPosts := [];
      userRating := 0;
      speedometerValue := 4;
    }

    /** `toggleWatchLater`: nothing without a user; otherwise the flag flips, even when
        there is no database, and with a database the update chosen from the old flag is
        sent. A failed update is never rolled back. */
    method ToggleWatchLater(user: Option<AuthUser>, databasePresent: bool, movieId: string)
      returns (sent: Option<ArrayWrite<string>>)
      modifies this
      ensures user.None? ==> sent == None && isInWatchLater == old(isInWatchLater)
      ensures user.Some? ==> isInWatchLater == !old(isInWatchLater)
      ensures user.Some? && databasePresent ==> sent == Some(ToggleWrite(old(isInWatchLater), movieId))
      ensures !databasePresent ==> sent == None
      ensures isLiked == old(isLiked) && aiInsights == old(aiInsights) && loadingAi == old(loadingAi)
      ensures relatedPosts == old(relatedPosts) && userRating == old(userRating)
      ensures speedometerValue == old(speedometerValue)
    {
      sent := None;
      if user.None? {
        return;
      }
      var wasOn := isInWatchLater;
      isInWatchLater := !wasOn;
      if databasePresent {
        sent := Some(ToggleWrite(wasOn, movieId));
      }
    }

    /** `toggleLike`: the same rule on the like flag and `likedMovies`. */
    method ToggleLike(user: Option<AuthUser>, databasePresent: bool, movieId: string)
      returns (sent: Option<ArrayWrite<string>>)
      modifies this
      ensures user.None? ==> sent == None && isLiked == old(isLiked)
      ensures user.Some? ==> isLiked == !old(isLiked)
      ensures user.Some? && databasePresent ==> sent == Some(ToggleWrite(old(isLiked), movieId))
      ensures !databasePresent ==> sent == None
      ensures isInWatchLater == old(isInWatchLater) && aiInsights == old(aiInsights)
      ensures loadingAi == old(loadingAi) && relatedPosts == old(relatedPosts)
      ensures userRating == old(userRating) && speedometerValue == old(speedometerValue)
    {
      sent := None;
      if user.None? {
        return;
      }
      var wasOn := isLiked;
      isLiked := !wasOn;
      if databasePresent {
        sent := Some(ToggleWrite(wasOn, movieId));
      }
    }

    /** `getInsights`, given the text the generator returns: when insights are already
        shown nothing is requested; otherwise the reply becomes the insights. */
    method GetInsights(reply: string) returns (requested: bool)
      modifies this
      ensures requested <==> old(aiInsights) == []
      ensures aiInsights == if requested then reply else old(aiInsights)
      ensures requested ==> !loadingAi
      ensures !requested ==> loadingAi == old(loadingAi)
      ensures isInWatchLater == old(isInWatchLater) && isLiked == old(isLiked)
      ensures relatedPosts == old(relatedPosts) && userRating == old(userRating)
      ensures speedometerValue == old(speedometerValue)
    {
      if aiInsights != [] {
        return false;
      }
      loadingAi := true;
      aiInsights := reply;
      loadingAi := false;
      return true;
    }

    /** The related-posts subscription: it runs only with a signed-in user and a
        database, and then shows the channel's posts newest first. */
    method LoadRelatedPosts(user: Option<AuthUser>, databasePresent: bool, movieId: string, posts: seq<Post>)
      modifies this
      ensures user.None? || !databasePresent ==> relatedPosts == old(relatedPosts)
      ensures user.Some? && databasePresent ==>
        && (forall i :: 0 <= i < |relatedPosts| ==> relatedPosts[i].channel == movieId)
        && multiset(relatedPosts) == multiset(Filter(posts, OnChannel(movieId)))
        && NonIncreasing(relatedPosts, PostSeconds)
      ensures isInWatchLater == old(isInWatchLater) && isLiked == old(isLiked)
      ensures aiInsights == old(aiInsights) && loadingAi == old(loadingAi)
      ensures userRating == old(userRating) && speedometerValue == old(speedometerValue)
    {
      if user.None? || !databasePresent {
        return;
      }
      relatedPosts := RelatedPostsOf(movieId, posts);
    }

    /** Clicking star `star`. */
    method Rate(star: int)
      requires star in Stars
      modifies this
      ensures userRating == star
      ensures FilledStars(userRating) == Stars[..star]
      ensures isInWatchLater == old(isInWatchLater) && isLiked == old(isLiked)
      ensures aiInsights == old(aiInsights) && loadingAi == old(loadingAi)
      ensures relatedPosts == old(relatedPosts) && speedometerValue == old(speedometerValue)
    {
      userRating := star;
      FilledStarsArePrefix(star);
    }
  }

  /** The insights generator always answers with some text (its fallbacks are fixed
      messages), so after one request the page never requests again. */
  method InsightsAtMostOnce(page: MovieDetail, first: string, second: string)
      returns (r1: bool, r2: bool)
    requires first != []
    modifies page
    ensures !r2
    ensures page.aiInsights == if r1 then first else old(page.aiInsights)
  {
    r1 := page.GetInsights(first);
    r2 := page.GetInsights(second);
  }

  // ---------------------------------------------------------------------------------
  // Profile page

  /** `currentUser?.uid === targetUserId`. The target is never `undefined`. Every route
      to the page goes through `navigate`, whose `data` defaults to `null`. So for a
      signed-out viewer the sidebar's `user?.uid` arrives as `null`, and `None` stands
      for that `null`. A signed-out viewer then compares `undefined === null`, which is
      false. */
  predicate IsOwner(currentUser: Option<AuthUser>, targetUserId: Option<string>) {
    currentUser.Some? && targetUserId == Some(currentUser.value.uid)
  }

  /** The owner test by itself keeps a signed-out viewer out, whatever the target. */
  lemma SignedOutNeverOwner(targetUserId: Option<string>)
    ensures !IsOwner(None, targetUserId)
    ensures forall u: AuthUser :: IsOwner(Some(u), targetUserId) <==> targetUserId == Some(u.uid)
  {
  }

  /** The profile a freshly mounted page holds once its effect has run: the document is
      fetched only with a database and a truthy target id, and kept only when it exists. */
  function LoadedProfile(databasePresent: bool, targetUserId: Option<string>, stored: Option<UserProfile>): (r: Option<UserProfile>)
    ensures r.Some? <==> databasePresent && targetUserId.Some? && targetUserId.value != [] && stored.Some?
    ensures r.Some? ==> r == stored
  {
    if databasePresent && targetUserId.Some? && targetUserId.value != [] then stored else None
  }

  datatype ProfileBody = LoadingProfile | SettingsPanel | PostsGrid

  /** What the profile page shows: "Loading Profile..." until a document is held; then
      the settings panel on the "settings" tab for the owner, and the posts grid in every
      other case. */
  function ProfileBodyFor(activeTab: string, currentUser: Option<AuthUser>, targetUserId: Option<string>,
                          profile: Option<UserProfile>): (b: ProfileBody)
    ensures b == LoadingProfile <==> profile.None?
    ensures b == SettingsPanel ==> activeTab == "settings" && currentUser.Some?
  {
    if profile.None? then LoadingProfile
    else if activeTab == "settings" && IsOwner(currentUser, targetUserId) then SettingsPanel
    else PostsGrid
  }

  /** The `UserProfile` component. The shell renders it at the same place for every
      "profile" view, so moving from one profile to another keeps this instance: the new
      target arrives with the old `profile` and `activeTab`. The posts list is fed by a
      snapshot subscription and is not a field here. */
  class ProfilePage {
    var targetUserId: Option<string>
    var profile: Option<UserProfile>
    var activeTab: string

    /** A page mounts with no profile, on the "videos" tab. */
    constructor (targetUserId: Option<string>)
      ensures this.targetUserId == targetUserId && profile == None && activeTab == "videos"
    {
      this.targetUserId := targetUserId;
      profile := None;
      activeTab := "videos";
    }

    /** The effect that runs for each new `targetUserId`. With no database or a falsy
        target it returns early. Otherwise it reads the document and stores it when it
        exists. The profile is never cleared. */
    method FetchProfile(databasePresent: bool, stored: Option<UserProfile>)
      modifies this
      ensures profile == if LoadedProfile(databasePresent, targetUserId, stored).Some?
                         then LoadedProfile(databasePresent, targetUserId, stored) else old(profile)
      ensures targetUserId == old(targetUserId) && activeTab == old(activeTab)
    {
      if !databasePresent || targetUserId.None? || targetUserId.value == [] {
        return;
      }
      if stored.Some? {
        profile := stored;
      }
    }

    /** The shell renders the mounted page with a new `view.data`. */
    method Retarget(newTarget: Option<string>)
      modifies this
      ensures targetUserId == newTarget && profile == old(profile) && activeTab == old(activeTab)
    {
      targetUserId := newTarget;
    }

    /** A tab button, or "Manage", sets the active tab. */
    method SelectTab(tab: string)
      modifies this
      ensures activeTab == tab && targetUserId == old(targetUserId) && profile == old(profile)
    {
      activeTab := tab;
    }

    /** What the page shows to `currentUser` in its current state. */
    function Body(currentUser: Option<AuthUser>): (b: ProfileBody)
      reads this
      ensures b == SettingsPanel <==>
                profile.Some? && activeTab == "settings" && currentUser.Some?
                && targetUserId == Some(currentUser.value.uid)
    {
      ProfileBodyFor(activeTab, currentUser, targetUserId, profile)
    }
  }

  /** Whatever profile the page holds, the settings panel shows on the settings tab
      exactly for the signed-in viewer whose uid is the target. On a freshly mounted page
      it also needs a database, a non-empty uid and a stored document. */
  lemma SettingsOnlyForOwner(currentUser: Option<AuthUser>, databasePresent: bool,
                             targetUserId: Option<string>, profile: Option<UserProfile>,
                             stored: Option<UserProfile>)
    ensures ProfileBodyFor("settings", currentUser, targetUserId, profile) == SettingsPanel <==>
              profile.Some? && currentUser.Some? && targetUserId == Some(currentUser.value.uid)
    ensures currentUser.None? ==> ProfileBodyFor("settings", currentUser, targetUserId, profile) != SettingsPanel
    ensures ProfileBodyFor("settings", currentUser, targetUserId,
                           LoadedProfile(databasePresent, targetUserId, stored)) == SettingsPanel <==>
              currentUser.Some? && targetUserId == Some(currentUser.value.uid) && currentUser.value.uid != []
              && databasePresent && stored.Some?
  {
    SignedOutNeverOwner(targetUserId);
  }

  /** A fresh page, once its effect has run, holds `LoadedProfile`. */
  method OpenProfile(targetUserId: Option<string>, databasePresent: bool, stored: Option<UserProfile>)
      returns (page: ProfilePage)
    ensures fresh(page)
    ensures page.targetUserId == targetUserId && page.activeTab == "videos"
    ensures page.profile == LoadedProfile(databasePresent, targetUserId, stored)
  {
    page := new ProfilePage(targetUserId);
    page.FetchProfile(databasePresent, stored);
  }

  /** A signed-out viewer opens another user's profile and then "My Channel", whose target
      is `null`. The effect returns early, so the page goes on showing that user's profile
      and posts grid instead of "Loading Profile...". */
  method SignedOutKeepsLastProfile(x: string, xDoc: UserProfile) returns (page: ProfilePage)
    requires x != []
    ensures page.targetUserId == None && page.profile == Some(xDoc)
    ensures page.Body(None) == PostsGrid
  {
    page := OpenProfile(Some(x), true, Some(xDoc));
    page.Retarget(None);
    page.FetchProfile(true, Some(xDoc));
  }

  /** A signed-in viewer whose own document is missing goes from another user's settings
      tab to "My Channel". The read finds nothing, so the other user's profile stays, the
      owner test now passes, and the settings panel shows with no stored document of the
      viewer's own. */
  method OwnChannelKeepsOtherProfile(a: AuthUser, x: string, xDoc: UserProfile) returns (page: ProfilePage)
    requires x != []
    ensures page.targetUserId == Some(a.uid) && page.profile == Some(xDoc)
    ensures page.Body(Some(a)) == SettingsPanel
  {
    page := OpenProfile(Some(x), true, Some(xDoc));
    page.SelectTab("settings");
    page.Retarget(Some(a.uid));
    page.FetchProfile(true, None);
  }

  // ---------------------------------------------------------------------------------
  // Person page

  /** The person acted in or directed the movie. */
  predicate Credited(m: Movie, person: string) {
    (exists k :: 0 <= k < |m.cast| && m.cast[k].name == person) || m.director == person
  }

  function CreditedTest(person: string): Movie -> bool {
    (m: Movie) => Credited(m, person)
  }

  /** The person's filmography, in catalogue order. */
  function Filmography(person: string, movies: seq<Movie>): seq<Movie> {
    Filter(movies, CreditedTest(person))
  }

  /** A movie is in the filmography exactly when it is in the catalogue and some cast
      member bears the person's name or the person directed it; catalogue order is kept. */
  lemma FilmographySound(person: string, movies: seq<Movie>, m: Movie)
    ensures m in Filmography(person, movies) <==>
      m in movies && ((exists k :: 0 <= k < |m.cast| && m.cast[k].name == person) || m.director == person)
    ensures IsSubsequence(Filmography(person, movies), movies)
  {
    FilterMembership(movies, CreditedTest(person), m);
    FilterIsSubsequence(movies, CreditedTest(person));
  }
}
