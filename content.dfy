/** components/Content.tsx: the trivia module under a title (AIQuizModule), the post card
    (PostCard: likes, comments, mention highlighting) and the rating stepper
    (RatingSpeedometer). */
module Content {
  import opened Wrappers
  import opened JsText
  import opened Types
  import opened ArrayField

  // ---------------------------------------------------------------------------------
  // Quiz replies

  /** The field separator of a quiz reply, `Question|Option1|Option2|Option3|Option4|Index`. */
  const QuizSeparator: char := '|'

  /** The quiz a text-generation reply carries: accepted only when splitting on `|` gives
      exactly six pieces; then the question, four options in order and `parseInt` of the
      last piece. Shared by the trivia module and the creator studio. */
  function ParseQuizReply(reply: string): Option<Quiz> {
    var parts := Split(reply, QuizSeparator);
    if |parts| == 6 then
      Some(Quiz(parts[0], [parts[1], parts[2], parts[3], parts[4]], ParseInt(parts[5])))
    else None
  }

  /** The locally generated question used when a reply is rejected: which year the title
      came out, with the year before it, the year itself and the two after as options. */
  function FallbackQuiz(title: string, year: int): Quiz {
    Quiz("In which year was " + title + " released?",
         [IntToString(year - 1), IntToString(year), IntToString(year + 1), IntToString(year + 2)],
         Num(1))
  }

  /** The quiz `startQuiz` shows for a title, given the reply it received. */
  function QuizFor(title: string, year: int, reply: string): Quiz {
    match ParseQuizReply(reply)
    case Some(q) => q
    case None => FallbackQuiz(title, year)
  }

  /** A reply is accepted exactly when it contains five separators. Replies without any
      `|` (such as the text service's fixed "unavailable" and error messages) are never
      accepted. */
  lemma QuizReplyAcceptedIff(reply: string)
    ensures ParseQuizReply(reply).Some? <==> Count(reply, QuizSeparator) == 5
  {
    SplitLength(reply, QuizSeparator);
  }

  /** A reply without any separator is rejected. */
  lemma ReplyWithoutSeparatorRejected(reply: string)
    requires QuizSeparator !in reply
    ensures ParseQuizReply(reply) == None
  {
    CountAbsent(reply, QuizSeparator);
    QuizReplyAcceptedIff(reply);
  }

  /** The text generator's fixed reply when no key is configured is rejected. */
  lemma UnavailableReplyRejected(reply: string)
    requires reply == "AI Unavailable: " + "API Key not configured."
    ensures ParseQuizReply(reply) == None
  {
    ReplyWithoutSeparatorRejected(reply);
  }

  /** The text generator's fixed reply for an empty answer is rejected. */
  lemma EmptyReplyRejected(reply: string)
    requires reply == "No response generated."
    ensures ParseQuizReply(reply) == None
  {
    ReplyWithoutSeparatorRejected(reply);
  }

  /** The text generator's fixed reply for a failed call is rejected. */
  lemma FailedReplyRejected(reply: string)
    requires reply == "Error contacting AI service." + " Please try again later."
    ensures ParseQuizReply(reply) == None
  {
    ReplyWithoutSeparatorRejected(reply);
  }

  /** A reply written in the requested format is read back field by field: the question,
      the four options in order, and `parseInt` of the index field, whatever that is. */
  lemma QuizReplyRoundTrip(question: string, o1: string, o2: string, o3: string, o4: string, index: string)
    requires QuizSeparator !in question && QuizSeparator !in o1 && QuizSeparator !in o2
    requires QuizSeparator !in o3 && QuizSeparator !in o4 && QuizSeparator !in index
    ensures ParseQuizReply(Join([question, o1, o2, o3, o4, index], QuizSeparator))
            == Some(Quiz(question, [o1, o2, o3, o4], ParseInt(index)))
  {
    var pieces := [question, o1, o2, o3, o4, index];
    SplitJoin(pieces, QuizSeparator);
  }

  /** parseInt of a letter is NaN; of a digit, that digit. */
  lemma ParseIntSamples()
    ensures ParseInt("x") == NaN
    ensures ParseInt("9") == Num(9)
  {
    assert TrimStart("x") == "x";
    assert ParseUnsigned("x") == ParseDigits("x", 10);
    assert DigitRun("x", 10) == 0;
    assert "9" == NatToString(9);
    ParseIntNatToString(9);
  }

  /** The accepted path checks nothing about the index: a reply whose last field is not a
      number gives NaN, and one whose last field is 9 names no option. */
  lemma AcceptedIndexUnchecked(notNumber: string, outOfRange: string)
    requires notNumber == "Q|a|b|c|d|x" && outOfRange == "Q|a|b|c|d|9"
    ensures ParseQuizReply(notNumber) == Some(Quiz("Q", ["a", "b", "c", "d"], NaN))
    ensures ParseQuizReply(outOfRange) == Some(Quiz("Q", ["a", "b", "c", "d"], Num(9)))
  {
    ParseIntSamples();
    ReplySample("x");
    ReplySample("9");
    assert notNumber == "Q|a|b|c|d|" + "x";
    assert outOfRange == "Q|a|b|c|d|" + "9";
  }

  /** The reply `Q|a|b|c|d|z` for a one-character index field `z`. */
  lemma ReplySample(z: string)
    requires |z| == 1 && z[0] != QuizSeparator
    ensures ParseQuizReply("Q|a|b|c|d|" + z) == Some(Quiz("Q", ["a", "b", "c", "d"], ParseInt(z)))
  {
    var pieces := ["Q", "a", "b", "c", "d", z];
    assert Join(pieces[5..], QuizSeparator) == z;
    assert Join(pieces[4..], QuizSeparator) == "d|" + z;
    assert Join(pieces[3..], QuizSeparator) == "c|d|" + z;
    assert Join(pieces[2..], QuizSeparator) == "b|c|d|" + z;
    assert Join(pieces[1..], QuizSeparator) == "a|b|c|d|" + z;
    assert Join(pieces, QuizSeparator) == "Q|a|b|c|d|" + z;
    QuizReplyRoundTrip("Q", "a", "b", "c", "d", z);
  }

  /** The label at index `i` is the year `year - 1 + i`. */
  lemma FallbackLabelAt(year: int, labels: seq<string>, i: int)
    requires labels == [IntToString(year - 1), IntToString(year), IntToString(year + 1), IntToString(year + 2)]
    requires 0 <= i < 4
    ensures labels[i] == IntToString(year - 1 + i)
  {
    if i == 0 {
      assert year - 1 + i == year - 1;
    } else if i == 1 {
      assert year - 1 + i == year;
    } else if i == 2 {
      assert year - 1 + i == year + 1;
    } else {
      assert year - 1 + i == year + 2;
    }
  }

  /** A label printed by `toString` reads back as its year. */
  lemma LabelReadsBack(printed: string, n: int)
    requires printed == IntToString(n)
    ensures ParseInt(printed) == Num(n)
  {
    ParseIntToString(n);
  }

  /** The four year labels read back, in order, as the year before the release, the
      release year and the two years after. */
  lemma FallbackLabelsReadBack(year: int, labels: seq<string>)
    requires labels == [IntToString(year - 1), IntToString(year), IntToString(year + 1), IntToString(year + 2)]
    ensures forall i :: 0 <= i < 4 ==> ParseInt(labels[i]) == Num(year - 1 + i)
  {
    forall i | 0 <= i < 4
      ensures ParseInt(labels[i]) == Num(year - 1 + i)
    {
      FallbackLabelAt(year, labels, i);
      LabelReadsBack(labels[i], year - 1 + i);
    }
  }

  /** Labels that read back as four consecutive years are pairwise distinct. */
  lemma FallbackLabelsDistinct(year: int, labels: seq<string>)
    requires |labels| == 4
    requires forall i :: 0 <= i < 4 ==> ParseInt(labels[i]) == Num(year - 1 + i)
    ensures forall i, j :: 0 <= i < j < 4 ==> labels[i] != labels[j]
  {
    forall i, j | 0 <= i < j < 4
      ensures labels[i] != labels[j]
    {
      assert ParseInt(labels[i]) != ParseInt(labels[j]);
    }
  }

  /** The fallback question has four distinct options which read back, in order, as the
      year before the release, the release year and the two years after; its answer is
      index 1, and the option at an index shows the release year exactly when that index
      is the answer. */
  lemma FallbackQuizSound(title: string, year: int)
    ensures var q := FallbackQuiz(title, year);
      && |q.options| == 4
      && q.correct == Num(1)
      && (forall i :: 0 <= i < 4 ==> ParseInt(q.options[i]) == Num(year - 1 + i))
      && (forall i, j :: 0 <= i < j < 4 ==> q.options[i] != q.options[j])
      && q.options[q.correct.value] == IntToString(year)
      && forall i :: 0 <= i < 4 ==> (q.options[i] == IntToString(year) <==> i == q.correct.value)
  {
    var q := FallbackQuiz(title, year);
    FallbackLabelsReadBack(year, q.options);
    FallbackLabelsDistinct(year, q.options);
  }

  // ---------------------------------------------------------------------------------
  // Answering

  datatype Verdict = Correct | Incorrect

  /** The verdict on choosing option `index`: correct when `index === quiz.correct`. */
  function Judge(q: Quiz, index: int): Verdict {
    if q.correct == Num(index) then Correct else Incorrect
  }

  /** On the fallback question, an answer is correct exactly when the option chosen shows
      the release year. */
  lemma JudgeFallback(title: string, year: int, index: int)
    requires 0 <= index < 4
    ensures Judge(FallbackQuiz(title, year), index) == Correct
            <==> FallbackQuiz(title, year).options[index] == IntToString(year)
  {
    FallbackQuizSound(title, year);
  }

  /** When the accepted index is NaN or outside 0..3, none of the four options shown can
      be judged correct. */
  lemma JudgeUncheckedIndex(q: Quiz, index: int)
    requires q.correct.NaN? || q.correct.value < 0 || q.correct.value > 3
    requires 0 <= index < 4
    ensures Judge(q, index) == Incorrect
  {
  }

  /** The trivia module's state: the question shown, whether a reply is awaited, the
      option chosen and the verdict. */
  class AIQuizModule {
    var quiz: Option<Quiz>
    var loading: bool
    var selectedOption: Option<int>
    var result: Option<Verdict>

    /** A verdict exists exactly when an option was chosen, and neither without a question. */
    ghost predicate Valid()
      reads this
    {
      && (selectedOption.Some? <==> result.Some?)
      && (quiz.None? ==> selectedOption.None?)
    }

    constructor ()
      ensures Valid()
      ensures quiz == None && !loading && selectedOption == None && result == None
    {
      quiz := None;
      loading := false;
      selectedOption := None;
      result := None;
    }

    /** `startQuiz` once the reply has arrived: the quiz parsed from it, or the fallback
        question; loading is over. */
    method StartQuiz(title: string, year: int, reply: string)
      requires Valid()
      modifies this
      ensures Valid()
      ensures quiz == Some(QuizFor(title, year, reply)) && !loading
      ensures selectedOption == old(selectedOption) && result == old(result)
    {
      loading := true;
      quiz := Some(QuizFor(title, year, reply));
      loading := false;
    }

    /** `handleAnswer`: the first answer wins; once an option is chosen further calls
        change nothing. */
    method HandleAnswer(index: int)
      requires Valid() && quiz.Some?
      modifies this
      ensures Valid()
      ensures quiz == old(quiz) && loading == old(loading)
      ensures old(selectedOption).Some? ==> selectedOption == old(selectedOption) && result == old(result)
      ensures old(selectedOption).None? ==>
        selectedOption == Some(index) && result == Some(Judge(quiz.value, index))
    {
      if selectedOption.Some? {
        return;
      }
      selectedOption := Some(index);
      result := Some(Judge(quiz.value, index));
    }

    /** "Play Again": back to the start screen. */
    method PlayAgain()
      requires Valid()
      modifies this
      ensures Valid()
      ensures quiz == None && selectedOption == None && result == None && loading == old(loading)
    {
      quiz := None;
      selectedOption := None;
      result := None;
    }
  }

  // ---------------------------------------------------------------------------------
  // Likes

  /** The update `handleLike` sends, decided from the post's `likes` as last rendered:
      remove the user when present, add them otherwise. */
  function LikeWrite(likes: seq<string>, uid: string): ArrayWrite<string> {
    if uid in likes then Remove(uid) else Union(uid)
  }

  /** `handleLike`: nothing without a signed-in user or a database, else the write above. */
  function HandleLike(user: Option<AuthUser>, databasePresent: bool, likes: seq<string>): (w: Option<ArrayWrite<string>>)
    ensures w.Some? <==> user.Some? && databasePresent
    ensures w.Some? ==> w.value.elem == user.value.uid
    ensures w.Some? ==> w.value == LikeWrite(likes, user.value.uid)
  {
    if user.Some? && databasePresent then Some(LikeWrite(likes, user.value.uid)) else None
  }

  /** Whatever the stored list holds when the write lands, afterwards the user's like is
      the opposite of what the rendered list showed; no other user's like changes. */
  lemma LikeToggleFlips(likes: seq<string>, stored: seq<string>, uid: string, other: string)
    requires other != uid
    ensures uid in Apply(LikeWrite(likes, uid), stored) <==> uid !in likes
    ensures other in Apply(LikeWrite(likes, uid), stored) <==> other in stored
  {
    ApplyMembership(LikeWrite(likes, uid), stored, uid);
    ApplyMembership(LikeWrite(likes, uid), stored, other);
  }

  // ---------------------------------------------------------------------------------
  // Comments

  /** A post card's local state: the comments shown and the reply being typed. */
  class PostCard {
    var commentList: seq<Comment>
    var newComment: string
    var voteSubmitted: bool

    constructor (post: Post)
      ensures commentList == post.comments && newComment == [] && !voteSubmitted
    {
      commentList := post.comments;
      newComment := [];
      voteSubmitted := false;
    }

    /** Choosing an option of a quiz post: the buttons are disabled once a vote is in, so
        only the first click counts, and it only records that a vote was cast. */
    method Vote()
      modifies this
      ensures voteSubmitted
      ensures commentList == old(commentList) && newComment == old(newComment)
    {
      if !voteSubmitted {
        voteSubmitted := true;
      }
    }

    /** `handleComment`: without a user, or with a blank draft, nothing happens. Otherwise
        the comment (stamped `now`) is sent as an array union; once that write has not
        thrown, the list grows by exactly that comment at the end and the draft is
        cleared. */
    method HandleComment(user: Option<AuthUser>, now: int, store: WriteOutcome)
      returns (sent: Option<ArrayWrite<Comment>>)
      modifies this
      ensures user.None? || IsBlank(old(newComment)) ==>
        sent == None && commentList == old(commentList) && newComment == old(newComment)
      ensures voteSubmitted == old(voteSubmitted)
      ensures user.Some? && !IsBlank(old(newComment)) ==>
        var c := Comment(user.value.uid, DisplayNameOrUser(user.value), old(newComment), now);
        && sent == (if store == NoDatabase then None else Some(Union(c)))
        && (if store == Rejected then commentList == old(commentList) && newComment == old(newComment)
            else commentList == old(commentList) + [c] && newComment == [])
    {
      if user.None? {
        return None;
      }
      TrimEmptyIffBlank(newComment);
      if Trim(newComment) == [] {
        return None;
      }
      var c := Comment(user.value.uid, DisplayNameOrUser(user.value), newComment, now);
      sent := None;
      if store != NoDatabase {
        sent := Some(Union(c));
        if store == Rejected {
          return;
        }
      }
      commentList := commentList + [c];
      newComment := [];
    }
  }

  /** The mark beside option `i` of a quiz post: "Correct" once a vote is in and `i` is
      the quiz's index, nothing otherwise. */
  function VoteMark(q: Quiz, voteSubmitted: bool, i: int): string {
    if voteSubmitted && q.correct == Num(i) then "Correct" else ""
  }

  /** Before a vote no option is marked; after it, option `i` is marked exactly when the
      quiz module would judge it correct, so an index that is NaN or outside 0..3 marks
      none of the four options. */
  lemma VoteMarkSound(q: Quiz, voteSubmitted: bool, i: int)
    ensures !voteSubmitted ==> VoteMark(q, voteSubmitted, i) == ""
    ensures voteSubmitted ==> (VoteMark(q, voteSubmitted, i) == "Correct" <==> Judge(q, i) == Correct)
    ensures voteSubmitted && 0 <= i < 4 && (q.correct.NaN? || q.correct.value < 0 || q.correct.value > 3) ==>
      VoteMark(q, voteSubmitted, i) == ""
  {
  }

  // ---------------------------------------------------------------------------------
  // Mentions: `text.split(/(@\w+)/g)`

  /** A character of the regular-expression class `\w`. */
  predicate IsWordChar(c: char) {
    ('a' <= c <= 'z') || ('A' <= c <= 'Z') || ('0' <= c <= '9') || c == '_'
  }

  /** A whole match of `@\w+`. */
  predicate IsMention(p: string) {
    |p| >= 2 && p[0] == '@' && forall k :: 1 <= k < |p| ==> IsWordChar(p[k])
  }

  /** A match of `@\w+` starts at position `i` of `s`. */
  predicate MentionAt(s: string, i: nat) {
    i + 1 < |s| && s[i] == '@' && IsWordChar(s[i + 1])
  }

  /** The end of the run of word characters that starts at `i`. */
  function WordEnd(s: string, i: nat): (e: nat)
    requires i <= |s|
    ensures i <= e <= |s|
    ensures forall k :: i <= k < e ==> IsWordChar(s[k])
    ensures e < |s| ==> !IsWordChar(s[e])
    decreases |s| - i
  {
    if i < |s| && IsWordChar(s[i]) then WordEnd(s, i + 1) else i
  }

  /** The split from position `i` on, the current plain piece having started at `seg`:
      plain text and captured mentions alternate, plain first and last. */
  function SplitFrom(s: string, seg: nat, i: nat): (parts: seq<string>)
    requires seg <= i <= |s|
    ensures |parts| % 2 == 1
    decreases |s| - i
  {
    if i == |s| then [s[seg..]]
    else if MentionAt(s, i) then
      var e := WordEnd(s, i + 1);
      [s[seg..i], s[i..e]] + SplitFrom(s, e, e)
    else SplitFrom(s, seg, i + 1)
  }

  /** `text.split(/(@\w+)/g)`. */
  function MentionSplit(s: string): seq<string> {
    SplitFrom(s, 0, 0)
  }

  /** The concatenation of a list of strings. */
  function Concat(parts: seq<string>): string {
    if parts == [] then [] else parts[0] + Concat(parts[1..])
  }

  lemma {:induction false} ConcatAppend(a: seq<string>, b: seq<string>)
    ensures Concat(a + b) == Concat(a) + Concat(b)
  {
    if a != [] {
      ConcatAppend(a[1..], b);
      assert (a + b)[1..] == a[1..] + b;
    } else {
      assert a + b == b;
    }
  }

  lemma {:induction false} SplitFromConcat(s: string, seg: nat, i: nat)
    requires seg <= i <= |s|
    ensures Concat(SplitFrom(s, seg, i)) == s[seg..]
    decreases |s| - i
  {
    if i < |s| {
      if MentionAt(s, i) {
        var e := WordEnd(s, i + 1);
        SplitFromConcat(s, e, e);
        ConcatAppend([s[seg..i], s[i..e]], SplitFrom(s, e, e));
        assert Concat([s[seg..i], s[i..e]]) == s[seg..i] + s[i..e];
        assert s[seg..] == s[seg..i] + s[i..e] + s[e..];
      } else {
        SplitFromConcat(s, seg, i + 1);
      }
    } else {
      assert Concat([s[seg..]]) == s[seg..] + [];
    }
  }

  /** The pieces of the split, put back together, are the original text. */
  lemma MentionSplitConcat(s: string)
    ensures Concat(MentionSplit(s)) == s
  {
    SplitFromConcat(s, 0, 0);
  }

  /** Exactly the odd-numbered pieces are mentions. */
  predicate Alternates(parts: seq<string>) {
    forall j :: 0 <= j < |parts| ==> (IsMention(parts[j]) <==> j % 2 == 1)
  }

  /** Odd-numbered pieces are the captured mentions; even-numbered pieces are plain text
      in which no mention starts. */
  lemma {:induction false} SplitFromShape(s: string, seg: nat, i: nat)
    requires seg <= i <= |s|
    requires forall k :: seg <= k < i ==> !MentionAt(s, k)
    ensures Alternates(SplitFrom(s, seg, i))
    decreases |s| - i
  {
    var parts := SplitFrom(s, seg, i);
    if i == |s| {
      PlainIsNoMention(s, seg, i);
      assert parts == [s[seg..]];
      assert s[seg..] == s[seg..i];
    } else if MentionAt(s, i) {
      var e := WordEnd(s, i + 1);
      SplitFromShape(s, e, e);
      PlainIsNoMention(s, seg, i);
      var rest := SplitFrom(s, e, e);
      assert parts == [s[seg..i], s[i..e]] + rest;
      assert e > i + 1;
      assert forall k :: 1 <= k < e - i ==> s[i..e][k] == s[i + k];
      assert IsMention(s[i..e]);
      assert |parts| == 2 + |rest|;
      forall j | 0 <= j < |parts|
        ensures IsMention(parts[j]) <==> j % 2 == 1
      {
        if j >= 2 {
          assert parts[j] == rest[j - 2];
          assert IsMention(rest[j - 2]) <==> (j - 2) % 2 == 1;
          assert (j - 2) % 2 == j % 2;
        } else if j == 1 {
          assert parts[j] == s[i..e];
          assert IsMention(parts[j]);
        } else {
          assert parts[j] == s[seg..i];
          assert !IsMention(parts[j]);
        }
      }
    } else {
      SplitFromShape(s, seg, i + 1);
      assert parts == SplitFrom(s, seg, i + 1);
    }
  }

  /** A stretch of text in which no mention starts is not itself a mention. */
  lemma PlainIsNoMention(s: string, seg: nat, i: nat)
    requires seg <= i <= |s|
    requires forall k :: seg <= k < i ==> !MentionAt(s, k)
    requires i < |s| ==> s[i] == '@'
    ensures !IsMention(s[seg..i])
  {
    if IsMention(s[seg..i]) {
      assert s[seg] == '@' && IsWordChar(s[seg + 1]);
      assert MentionAt(s, seg);
    }
  }

  /** A piece of rendered text: shown plain or highlighted as a mention. */
  datatype Piece = Plain(text: string) | Highlighted(text: string)

  /** `renderText` as written: nothing for missing or empty text; otherwise every piece of
      the split that starts with `@` is highlighted. */
  function RenderText(text: Option<string>): Option<seq<Piece>> {
    if text.None? || text.value == [] then None
    else
      var parts := MentionSplit(text.value);
      Some(seq(|parts|, j requires 0 <= j < |parts| =>
        if StartsWith(parts[j], "@") then Highlighted(parts[j]) else Plain(parts[j])))
  }

  /** `renderText` as intended: highlight exactly the captured mentions, which are the
      odd-numbered pieces of the split. */
  function RenderTextIntended(text: Option<string>): Option<seq<Piece>> {
    if text.None? || text.value == [] then None
    else
      var parts := MentionSplit(text.value);
      Some(seq(|parts|, j requires 0 <= j < |parts| =>
        if j % 2 == 1 then Highlighted(parts[j]) else Plain(parts[j])))
  }

  /** As written, plain text that happens to begin with `@` is highlighted too: in
      "@ hi" no mention occurs, yet the whole text is shown as one. */
  lemma RenderTextHighlightsNonMention()
    ensures RenderText(Some("@ hi")) == Some([Highlighted("@ hi")])
    ensures !IsMention("@ hi")
  {
    var s := "@ hi";
    assert s[1] == ' ' && !IsWordChar(s[1]);
    assert SplitFrom(s, 0, 4) == [s[0..]] == [s];
    assert !MentionAt(s, 3);
    assert SplitFrom(s, 0, 3) == [s];
    assert !MentionAt(s, 2);
    assert SplitFrom(s, 0, 2) == [s];
    assert !MentionAt(s, 1);
    assert SplitFrom(s, 0, 1) == [s];
    assert !MentionAt(s, 0);
    assert MentionSplit(s) == [s];
    assert StartsWith(s, "@");
    var pieces := RenderText(Some(s)).value;
    assert |pieces| == 1;
    assert pieces[0] == Highlighted(s);
    assert pieces == [Highlighted(s)];
  }

  /** As intended, a piece is highlighted exactly when it is a mention, and the pieces'
      texts put together are the original text. */
  lemma RenderTextIntendedSound(text: string)
    requires text != []
    ensures var pieces := RenderTextIntended(Some(text)).value;
      && (forall j :: 0 <= j < |pieces| ==> (pieces[j].Highlighted? <==> IsMention(pieces[j].text)))
      && Concat(seq(|pieces|, j requires 0 <= j < |pieces| => pieces[j].text)) == text
  {
    var parts := MentionSplit(text);
    SplitFromShape(text, 0, 0);
    MentionSplitConcat(text);
    var pieces := RenderTextIntended(Some(text)).value;
    forall j | 0 <= j < |pieces|
      ensures pieces[j].text == parts[j]
      ensures pieces[j].Highlighted? <==> IsMention(pieces[j].text)
    {
      assert pieces[j] == if j % 2 == 1 then Highlighted(parts[j]) else Plain(parts[j]);
      assert IsMention(parts[j]) <==> j % 2 == 1;
    }
    assert seq(|pieces|, j requires 0 <= j < |pieces| => pieces[j].text) == parts;
  }

  // ---------------------------------------------------------------------------------
  // Rating stepper

  /** The eight verdict segments of the speedometer, worst first. */
  const SegmentLabels: seq<string> :=
    ["Very Bad", "Bad", "Normal", "Good", "Very Good", "Excellent", "Go for it", "Perfect"]

  /** The left arrow: `Math.max(0, value - 1)`. */
  function StepDown(v: int): (r: int)
    ensures r >= 0
    ensures 0 < v ==> r == v - 1
    ensures v <= 0 ==> r == 0
  {
    if v - 1 > 0 then v - 1 else 0
  }

  /** The right arrow: `Math.min(7, value + 1)`. */
  function StepUp(v: int): (r: int)
    ensures r <= 7
    ensures v < 7 ==> r == v + 1
    ensures v >= 7 ==> r == 7
  {
    if v + 1 < 7 then v + 1 else 7
  }

  /** The label under the speedometer: the segment's, or "Select Rating" when there is none. */
  function VerdictLabel(v: int): string {
    if 0 <= v < |SegmentLabels| then SegmentLabels[v] else "Select Rating"
  }

  /** From any segment, both arrows and a click on any segment stay on a segment, so a
      verdict label is always shown. */
  lemma StepperStaysOnSegments(v: int, clicked: int)
    requires 0 <= v < |SegmentLabels| && 0 <= clicked < |SegmentLabels|
    ensures 0 <= StepDown(v) < |SegmentLabels| && 0 <= StepUp(v) < |SegmentLabels|
    ensures VerdictLabel(StepDown(v)) in SegmentLabels && VerdictLabel(StepUp(v)) in SegmentLabels
    ensures VerdictLabel(clicked) in SegmentLabels
  {
  }
}
