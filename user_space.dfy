/** views/UserSpace.tsx: the creator studio (CreatorStudio: assembling and publishing a
    post or an AI quiz), the library (LibraryView: saved titles and playlists), the
    activity list (NotificationsView) and the movie assistant chat (CineGenieView). */
module UserSpace {
  import opened Wrappers
  import opened JsText
  import opened Types
  import opened Sequences
  import opened ArrayField
  import opened Content

  // ---------------------------------------------------------------------------------
  // Creator studio: assembling a post

  /** The studio's form: caption, attached image (a data URL) or none, tagged channel
      and quiz topic. */
  datatype Form = Form(text: string, media: Option<string>, tag: string, quizTopic: string)

  /** The form as the studio opens and as a successful publish leaves it. */
  const DefaultForm: Form := Form([], None, "general", [])

  /** The studio's two tabs; any mode other than the quiz tab publishes a plain post. */
  datatype Mode = PostMode | QuizMode

  /** The document `handleUpload` adds to the posts collection. Fields the code does not
      set are `None`; `name` is the account's display name as it stands, which may be
      missing. */
  datatype NewPost = NewPost(
    uid: string,
    name: Option<string>,
    channel: string,
    likes: seq<string>,
    comments: seq<Comment>,
    createdAt: Timestamp,
    kind: PostType,
    text: string,
    mediaUrl: Option<string>,
    quiz: Option<Quiz>)

  /** The caption of a quiz post. */
  function QuizCaption(topic: string): string {
    "Trivia Challenge: " + topic
  }

  /** The post `handleUpload` would add for this form, given the generator's reply in
      quiz mode: none when that reply is rejected. */
  function AssemblePost(user: AuthUser, form: Form, mode: Mode, reply: string): Option<NewPost> {
    if mode == QuizMode then
      match ParseQuizReply(reply)
      case None => None
      case Some(q) =>
        Some(NewPost(user.uid, user.displayName, form.tag, [], [], Pending, QuizType,
                     QuizCaption(form.quizTopic), None, Some(q)))
    else
      Some(NewPost(user.uid, user.displayName, form.tag, [], [], Pending, Normal,
                   form.text, form.media, None))
  }

  /** Every post starts with no likes and no comments, in the tagged channel, authored by
      the account. A plain post carries the caption and image; a quiz post exists exactly
      when the reply has five separators and then carries the topic caption and the quiz
      parsed from the reply: its question, its four options and, as index, `parseInt` of
      the last field. */
  lemma AssemblePostSound(user: AuthUser, form: Form, mode: Mode, reply: string)
    ensures var p := AssemblePost(user, form, mode, reply);
      && (p.Some? ==> p.value.likes == [] && p.value.comments == [] && p.value.channel == form.tag
                      && p.value.uid == user.uid && p.value.name == user.displayName)
      && (mode == PostMode ==> p.Some? && p.value.kind == Normal && p.value.text == form.text
                               && p.value.mediaUrl == form.media && p.value.quiz == None)
      && (mode == QuizMode ==> (p.Some? <==> Count(reply, QuizSeparator) == 5))
      && (mode == QuizMode && p.Some? ==>
            && p.value.kind == QuizType && p.value.text == QuizCaption(form.quizTopic)
            && p.value.quiz == ParseQuizReply(reply)
            && p.value.quiz.Some? && |p.value.quiz.value.options| == 4
            && p.value.quiz.value.correct == ParseInt(Split(reply, QuizSeparator)[5]))
  {
    QuizReplyAcceptedIff(reply);
  }

  /** JavaScript truthiness of an optional string: present and non-empty. */
  predicate Truthy(s: Option<string>) {
    s.Some? && s.value != []
  }

  /** The Publish button is disabled while publishing, for a plain post with neither
      caption nor image, and for a quiz without a topic. */
  predicate PublishDisabled(loading: bool, mode: Mode, form: Form) {
    || loading
    || (mode == PostMode && form.text == [] && !Truthy(form.media))
    || (mode == QuizMode && form.quizTopic == [])
  }

  /** The form as it opens (and as a successful publish leaves it) cannot be published in
      either mode; once not publishing, a plain post can be published exactly when it has
      a caption or an image, a quiz exactly when it has a topic. */
  lemma PublishDisabledSound(form: Form)
    ensures PublishDisabled(false, PostMode, DefaultForm) && PublishDisabled(false, QuizMode, DefaultForm)
    ensures !PublishDisabled(false, PostMode, form) <==> form.text != [] || Truthy(form.media)
    ensures !PublishDisabled(false, QuizMode, form) <==> form.quizTopic != []
    ensures forall m: Mode :: PublishDisabled(true, m, form)
  {
  }

  /** The creator studio's state. */
  class CreatorStudio {
    var form: Form
    var loading: bool
    var mode: Mode

    constructor ()
      ensures form == DefaultForm && !loading && mode == PostMode
    {
      form := DefaultForm;
      loading := false;
      mode := PostMode;
    }

    /** `handleUpload`, given the generator's reply (used in quiz mode) and what became
        of the add. Without a user nothing happens. A rejected quiz reply aborts with no
        write. Otherwise the assembled post is sent when there is a database; only when
        the add succeeds is the form reset and the feed opened. Publishing is over in
        every case that started. */
    method HandleUpload(user: Option<AuthUser>, reply: string, store: WriteOutcome)
      returns (sent: Option<NewPost>, openFeed: bool)
      modifies this
      ensures mode == old(mode)
      ensures user.None? ==> sent == None && !openFeed && form == old(form) && loading == old(loading)
      ensures user.Some? ==> !loading
      ensures user.Some? && AssemblePost(user.value, old(form), old(mode), reply).None? ==>
        sent == None && !openFeed && form == old(form)
      ensures user.Some? && AssemblePost(user.value, old(form), old(mode), reply).Some? ==>
        && sent == (if store == NoDatabase then None else AssemblePost(user.value, old(form), old(mode), reply))
        && (openFeed <==> store == Written)
        && form == (if store == Written then DefaultForm else old(form))
    {
      sent, openFeed := None, false;
      if user.None? {
        return;
      }
      loading := true;
      var post := AssemblePost(user.value, form, mode, reply);
      if post.None? {
        loading := false;
        return;
      }
      if store != NoDatabase {
        sent := post;
        if store == Written {
          form := DefaultForm;
          openFeed := true;
        }
      }
      loading := false;
    }
  }

  // ---------------------------------------------------------------------------------
  // Library

  /** `ids?.includes(id)`: an absent list includes nothing. */
  predicate IdListed(ids: Option<seq<string>>, id: string) {
    ids.Some? && id in ids.value
  }

  function ListedTest(ids: Option<seq<string>>): Movie -> bool {
    (m: Movie) => IdListed(ids, m.id)
  }

  /** `getMoviesByIds`: the catalogue movies whose id is listed, in catalogue order. */
  function MoviesByIds(ids: Option<seq<string>>, movies: seq<Movie>): seq<Movie> {
    Filter(movies, ListedTest(ids))
  }

  /** A movie is shown exactly when it is in the catalogue and its id is listed, in
      catalogue order; listed ids of titles no longer in the catalogue show nothing. */
  lemma MoviesByIdsSound(ids: Option<seq<string>>, movies: seq<Movie>, m: Movie)
    ensures m in MoviesByIds(ids, movies) <==> m in movies && ids.Some? && m.id in ids.value
    ensures IsSubsequence(MoviesByIds(ids, movies), movies)
    ensures ids.None? ==> MoviesByIds(ids, movies) == []
  {
    FilterMembership(movies, ListedTest(ids), m);
    FilterIsSubsequence(movies, ListedTest(ids));
    if ids.None? {
      NothingListed(movies);
    }
  }

  lemma {:induction false} NothingListed(movies: seq<Movie>)
    ensures MoviesByIds(None, movies) == []
  {
    if movies != [] {
      NothingListed(movies[1..]);
    }
  }

  /** Only which ids are listed matters, not their order or repetitions: the shelf is
      always in catalogue order. */
  lemma {:induction false} MoviesByIdsIgnoresListOrder(a: seq<string>, b: seq<string>, movies: seq<Movie>)
    requires forall id :: id in a <==> id in b
    ensures MoviesByIds(Some(a), movies) == MoviesByIds(Some(b), movies)
  {
    if movies != [] {
      MoviesByIdsIgnoresListOrder(a, b, movies[1..]);
      assert ListedTest(Some(a))(movies[0]) == ListedTest(Some(b))(movies[0]);
    }
  }

  /** The library's playlist form. */
  class LibraryView {
    var newPlaylistName: string
    var isCreating: bool

    constructor ()
      ensures newPlaylistName == [] && !isCreating
    {
      newPlaylistName := [];
      isCreating := false;
    }

    /** `createPlaylist`, `now` standing for the clock reading that names the playlist:
        nothing for a blank name or without a database; otherwise a playlist with that
        name and no items is sent as an array union, and once the update has not thrown
        the form is cleared and closed. */
    method CreatePlaylist(now: nat, store: WriteOutcome) returns (sent: Option<ArrayWrite<Playlist>>)
      modifies this
      ensures IsBlank(old(newPlaylistName)) || store == NoDatabase ==>
        sent == None && newPlaylistName == old(newPlaylistName) && isCreating == old(isCreating)
      ensures !IsBlank(old(newPlaylistName)) && store != NoDatabase ==>
        && sent == Some(Union(Playlist(NatToString(now), old(newPlaylistName), [])))
        && (store == Written ==> newPlaylistName == [] && !isCreating)
        && (store == Rejected ==> newPlaylistName == old(newPlaylistName) && isCreating == old(isCreating))
    {
      TrimEmptyIffBlank(newPlaylistName);
      if Trim(newPlaylistName) == [] || store == NoDatabase {
        return None;
      }
      sent := Some(Union(Playlist(NatToString(now), newPlaylistName, [])));
      if store == Rejected {
        return;
      }
      newPlaylistName := [];
      isCreating := false;
    }
  }

  /** A new playlist (its id being fresh, it differs from every stored one) lands as
      exactly one more playlist at the end, with no items. */
  lemma PlaylistAppended(playlists: seq<Playlist>, p: Playlist)
    requires p.items == []
    requires forall k :: 0 <= k < |playlists| ==> playlists[k].id != p.id
    ensures Apply(Union(p), playlists) == playlists + [p]
    ensures |Apply(Union(p), playlists)| == |playlists| + 1
    ensures Apply(Union(p), playlists)[|playlists|].items == []
  {
    assert p !in playlists;
  }

  // ---------------------------------------------------------------------------------
  // Activity

  /** `createdAt?.seconds || 0` of a notification. */
  function NoticeSeconds(n: Notification): int {
    SecondsOrZero(n.createdAt)
  }

  function AddressedTo(uid: string): Notification -> bool {
    (n: Notification) => n.toUserId == uid
  }

  /** The activity list: with a user and a database, the notifications addressed to that
      user, newest first (no timestamp counting as 0); otherwise it stays empty. */
  method NotificationsFor(user: Option<AuthUser>, databasePresent: bool, all: seq<Notification>)
    returns (notifs: seq<Notification>)
    ensures user.None? || !databasePresent ==> notifs == []
    ensures user.Some? && databasePresent ==>
      && (forall i :: 0 <= i < |notifs| ==> notifs[i].toUserId == user.value.uid)
      && multiset(notifs) == multiset(Filter(all, AddressedTo(user.value.uid)))
      && NonIncreasing(notifs, NoticeSeconds)
  {
    if user.None? || !databasePresent {
      return [];
    }
    var mine := Filter(all, AddressedTo(user.value.uid));
    notifs := SortedCopy(mine, NoticeSeconds);
    forall i | 0 <= i < |notifs|
      ensures notifs[i].toUserId == user.value.uid
    {
      assert notifs[i] in multiset(mine);
      assert AddressedTo(user.value.uid)(notifs[i]);
    }
  }

  // ---------------------------------------------------------------------------------
  // Movie assistant chat

  datatype Role = UserRole | AiRole

  datatype Message = Message(role: Role, text: string)

  /** The assistant's opening message. */
  const Greeting: Message := Message(AiRole,
    "\U{1F44B} Hi! I'm CineGenie. I can recommend movies, explain endings, or find where to watch your favorite shows. Ask me anything!")

  /** A chat log as it can be: an assistant message (the greeting), then questions and
      answers in turn. */
  ghost predicate ChatLog(messages: seq<Message>) {
    && |messages| % 2 == 1
    && forall i :: 0 <= i < |messages| ==> messages[i].role == (if i % 2 == 1 then UserRole else AiRole)
  }

  /** A question followed by its answer keeps a log in turn. */
  lemma ExchangeKeepsChatLog(messages: seq<Message>, question: Message, answer: Message)
    requires ChatLog(messages)
    requires question.role == UserRole && answer.role == AiRole
    ensures ChatLog(messages + [question, answer])
  {
    var log := messages + [question, answer];
    forall i | 0 <= i < |log|
      ensures log[i].role == (if i % 2 == 1 then UserRole else AiRole)
    {
      if i < |messages| {
        assert log[i] == messages[i];
      } else if i == |messages| {
        assert log[i] == question;
      } else {
        assert log[i] == answer;
      }
    }
  }

  /** The chat's state: the message log, the input box and whether a reply is awaited. */
  class CineGenie {
    var messages: seq<Message>
    var input: string
    var loading: bool

    /** The log alternates assistant and user messages, the assistant's first: the
        constructor puts the greeting there and sending only appends. */
    ghost predicate Valid()
      reads this
    {
      ChatLog(messages)
    }

    constructor ()
      ensures Valid()
      ensures messages == [Greeting] && input == [] && !loading
    {
      messages := [Greeting];
      input := [];
      loading := false;
    }

    /** `handleSend`, given the assistant's reply: blank input is ignored; otherwise the
        log grows by the question as typed and then the reply, and the box is cleared. */
    method HandleSend(reply: string)
      requires Valid()
      modifies this
      ensures Valid()
      ensures IsBlank(old(input)) ==>
        messages == old(messages) && input == old(input) && loading == old(loading)
      ensures !IsBlank(old(input)) ==>
        && messages == old(messages) + [Message(UserRole, old(input)), Message(AiRole, reply)]
        && input == [] && !loading
    {
      TrimEmptyIffBlank(input);
      if Trim(input) == [] {
        return;
      }
      var question, answer := Message(UserRole, input), Message(AiRole, reply);
      var before := messages;
      ExchangeKeepsChatLog(before, question, answer);
      messages := before + [question];
      input := [];
      loading := true;
      messages := messages + [answer];
      loading := false;
      assert messages == before + [question, answer];
    }
  }
}
