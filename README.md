# CineSphere front end: a Dafny model of its decision logic

CineSphere is a movie catalogue and community site built with React on top of Firebase.
This project models the logic behind its screens and proves what that logic promises.
The screens are the home, search and feed views; the movie, profile and cast pages; the
creator studio, library, notifications and CineGenie chat; and the application shell.

The model covers these decisions:
- which titles the home filters keep, which title is the hero, and which rows appear;
- how a trivia reply from the AI service is split into a quiz, and when the built-in
  fallback quiz is used instead;
- how a quiz answer is judged, and how often it can be;
- which Firestore array write (`arrayUnion` / `arrayRemove`) a like, watch-later,
  comment or playlist action sends, and what it does to the stored list;
- how post text is split around `@mentions`;
- how related posts and notifications are filtered and ordered, newest first;
- what a new user's document holds, and which screen the shell renders for a view.

The model is laid out as follows:
- React components whose state changes step by step are classes. The `useState` slots
  that the modelled handlers read or write are fields of the class, and each handler is
  a method with a `modifies` clause. The slots left out are listed under "Left out".
- Pure helpers are functions.
- JavaScript string behaviour that the code relies on is written out in `JsText`:
  `split`, `join`, `trim`, `parseInt` (section 19.2.5 of ECMA-262), `toString`,
  `toLowerCase` and `includes`.
- Firestore array writes are written out in `ArrayField`.
- The generic filter, find and sort are in `Sequences`.
- The replies of the AI service, the clock (`Date.now()`) and the outcome of a database
  write are parameters.

## Model

| member | source | states |
|---|---|---|
| Types.DisplayNameOrUser | components/Content.tsx:168 | the name shown for a user is the display name when set and non-empty, and "User" otherwise |
| JsText.TrimEmptyIffBlank | components/Content.tsx:164 | `trim()` yields the empty string exactly when the text is all white space |
| JsText.SplitLength | components/Content.tsx:79 | `split` on a character yields one more piece than the separator occurs |
| JsText.SplitPiecesFree | components/Content.tsx:79 | no piece of a `split` contains the separator |
| JsText.JoinSplit | components/Content.tsx:79 | joining the pieces of a `split` with the same separator gives back the text |
| JsText.SplitJoin | components/Content.tsx:79 | splitting a join of separator-free pieces gives back the pieces |
| JsText.ParseIntToString | components/Content.tsx:90 | `parseInt` reads back every integer that `toString` writes |
| JsText.IntToStringInjective | components/Content.tsx:90 | distinct years give distinct option labels |
| JsText.IncludesLower | views/Discovery.tsx:121 | a substring stays a substring after lower-casing both texts |
| JsText.LowerIdempotent | views/Discovery.tsx:121 | lower-casing twice is lower-casing once |
| Sequences.FilterMembership | views/Discovery.tsx:15-19 | an element survives `filter` exactly when it was there and passes the test |
| Sequences.FilterIsSubsequence | views/Discovery.tsx:15-19 | `filter` keeps the original order |
| Sequences.FilterIdempotent | views/Discovery.tsx:15-19 | filtering twice by the same test changes nothing |
| Sequences.FilterFilter | views/Discovery.tsx:76-78 | filtering by one test and then another equals filtering by both |
| Sequences.FindIndex | views/Discovery.tsx:38 | `find` returns the first element that passes, or nothing when none does |
| Sequences.SortNonIncreasing | views/Details.tsx:26 | the in-place sort by a descending key leaves the array ordered newest first and a permutation of its input |
| Sequences.InsertInto | views/Details.tsx:26 | one insertion step extends the ordered prefix by one element and keeps the contents |
| Sequences.SortedCopy | views/UserSpace.tsx:252 | a sorted copy is ordered by the key, newest first, and holds the same elements |
| ArrayField.ArrayUnion | components/Content.tsx:175 | `arrayUnion` keeps the stored list as a prefix, appends the element only when it is absent |
| ArrayField.ArrayRemove | components/Content.tsx:186 | `arrayRemove` leaves no copy of the element |
| ArrayField.ApplyMembership | components/Content.tsx:185-189 | after a union the element is present, after a remove it is absent, and every other element is as before |
| ArrayField.ArrayRemoveCounts | components/Content.tsx:186 | `arrayRemove` removes every copy of the element and nothing else |
| ArrayField.ArrayRemoveOrder | components/Content.tsx:186 | `arrayRemove` keeps the order of the remaining elements |
| ArrayField.ApplyIdempotent | components/Content.tsx:185-189 | sending the same array write twice has the effect of sending it once |
| Content.QuizReplyAcceptedIff | components/Content.tsx:79-80 | a reply becomes a quiz exactly when it contains five separators, i.e. six pieces |
| Content.ReplyWithoutSeparatorRejected | components/Content.tsx:79-80 | a reply with no vertical bar never becomes a quiz |
| Content.UnavailableReplyRejected | services/gemini.ts:17 | the "AI Unavailable" reply of an unconfigured service falls back |
| Content.EmptyReplyRejected | services/gemini.ts:25 | the "No response generated." reply falls back |
| Content.FailedReplyRejected | services/gemini.ts:28 | the error reply of a failed call falls back |
| Content.QuizReplyRoundTrip | components/Content.tsx:79-85 | a reply written as question, four options and an index, joined by vertical bars, parses back into exactly those parts |
| Content.AcceptedIndexUnchecked | components/Content.tsx:84 | a non-numeric or out-of-range index is accepted as is (NaN, 9) |
| Content.ReplySample | components/Content.tsx:81-85 | a sample: for "Q", options "a" to "d" and any one-character index piece, the quiz's index is `parseInt` of that piece |
| Content.FallbackQuizSound | components/Content.tsx:86-92 | the fallback has four pairwise distinct options that read back as year-1, year, year+1 and year+2; its answer is index 1, the only option showing the release year |
| Content.JudgeFallback | components/Content.tsx:103 | on the fallback quiz, an answer is judged correct exactly when the chosen option shows the release year |
| Content.JudgeUncheckedIndex | components/Content.tsx:103 | when the parsed index is NaN or outside 0..3, every option is judged incorrect |
| Content.AIQuizModule.StartQuiz | components/Content.tsx:72-98 | starting shows the parsed quiz or the fallback and ends loading, leaving any earlier answer |
| Content.AIQuizModule.HandleAnswer | components/Content.tsx:100-104 | the first answer is recorded and judged against the quiz's index; later answers change nothing |
| Content.AIQuizModule.PlayAgain | components/Content.tsx:144 | "Play Again" clears the quiz, the answer and the verdict |
| Content.HandleLike | components/Content.tsx:181-191 | a like write is sent exactly when someone is signed in and a database exists, and it is the toggle write for that user |
| Content.LikeToggleFlips | components/Content.tsx:185-189 | the write removes the user's like when the post shows it and adds it otherwise, leaving other users' likes |
| Content.PostCard.HandleComment | components/Content.tsx:161-179 | a blank draft or no user sends nothing; otherwise the comment is sent with `arrayUnion`, appended to the list and the draft cleared, unless the write throws |
| Content.PostCard.Vote | components/Content.tsx:237-238 | voting on a quiz post records that a vote is in; the buttons are then disabled, so later clicks change nothing |
| Content.VoteMarkSound | components/Content.tsx:242-245 | no option is marked before a vote; afterwards an option is marked "Correct" exactly when the quiz module would judge it correct, and an unchecked index marks none |
| Content.WordEnd | components/Content.tsx:197 | the `\w+` run after `@` is maximal |
| Content.SplitFromConcat | components/Content.tsx:197 | the pieces of the mention split concatenate back to the text |
| Content.MentionSplitConcat | components/Content.tsx:197 | `text.split(/(@\w+)/g)` loses no character of the text |
| Content.SplitFromShape | components/Content.tsx:197 | the pieces alternate: odd positions are exactly the mentions |
| Content.PlainIsNoMention | components/Content.tsx:197 | text between two mentions is not itself a mention |
| Content.RenderTextHighlightsNonMention | components/Content.tsx:195-201 | as written, a piece such as "@ hi" that merely starts with `@` is highlighted though it is no mention |
| Content.RenderTextIntendedSound | components/Content.tsx:195-201 | with highlighting by position, exactly the mentions are highlighted and the pieces spell the text |
| Content.StepDown | components/Content.tsx:362 | the left arrow lowers the value by one, stopping at 0 |
| Content.StepUp | components/Content.tsx:366 | the right arrow raises the value by one, stopping at 7 |
| Content.StepperStaysOnSegments | components/Content.tsx:308-317 | from a value on the dial, stepping or clicking lands on one of the eight labelled segments |
| Discovery.HomeFilterMembership | views/Discovery.tsx:15-19 | a title is kept exactly when its type matches (or "All") and its genres include the chosen one (or "All") |
| Discovery.HomeFilterAllAll | views/Discovery.tsx:9-10 | with both filters at "All" every title is shown |
| Discovery.HomeFilterOrder | views/Discovery.tsx:15-19 | the filter keeps the catalogue order and applying it twice changes nothing |
| Discovery.AnimeNeverCategorised | views/Discovery.tsx:12 | no category button selects anime, so a chosen category never shows an anime title |
| Discovery.Hero | views/Discovery.tsx:38 | the hero is the first upcoming title, else the first title, and there is none only for an empty list |
| Discovery.RowsSound | views/Discovery.tsx:76-78 | the three rows hold exactly the trending (rating above 4.5), new (2024 on) and action titles |
| Discovery.RowsOrder | views/Discovery.tsx:76-78 | each row keeps the order of the filtered list |
| Discovery.SearchResultsSound | views/Discovery.tsx:121 | a title matches exactly when its lower-cased title contains the lower-cased query, in catalogue order, idempotently |
| Discovery.SearchEmptyQuery | views/Discovery.tsx:121 | the empty query matches every title |
| Discovery.SearchFindsExactSubstring | views/Discovery.tsx:121 | a title containing the query verbatim is always found |
| Discovery.FeedPostsSound | views/Discovery.tsx:93-98 | the "following" tab keeps exactly the posts by authors the user follows; otherwise all posts are shown |
| Discovery.FeedWithoutRecord | views/Discovery.tsx:94 | a user with no user document sees an empty "following" feed |
| Discovery.MyFollowingIsOwnRecord | views/Discovery.tsx:94 | the followed list is the one in the first document with the user's id |
| Details.ToggleWriteLands | views/Details.tsx:37-38 | a toggle adds the title when the flag was off and removes it when on, leaving other titles |
| Details.FirstClickMayBeNoOp | views/Details.tsx:12 | the flag starts off whatever is stored, so the first click on a stored title sends a union that changes nothing |
| Details.TogglesTouchOwnField | views/Details.tsx:32-50 | watch-later writes touch only `watchLater`, like writes only `likedMovies` |
| Details.RelatedPostsOf | views/Details.tsx:21-30 | related posts are exactly the movie's posts, newest first |
| Details.FilledStarsArePrefix | views/Details.tsx:141-143 | the filled stars are the first `userRating` stars |
| Details.MovieDetail.ToggleWatchLater | views/Details.tsx:32-40 | without a user nothing happens; otherwise the flag flips and, with a database, the write for the old flag is sent; no other field changes |
| Details.MovieDetail.ToggleLike | views/Details.tsx:42-50 | the same for the like flag and `likedMovies` |
| Details.MovieDetail.GetInsights | views/Details.tsx:52-59 | trivia is requested only while none is shown; then the reply is shown and loading ends |
| Details.MovieDetail.LoadRelatedPosts | views/Details.tsx:21-30 | with a user and a database the related list is replaced by the movie's posts, newest first; otherwise left alone |
| Details.MovieDetail.Rate | views/Details.tsx:144 | clicking a star sets the rating and fills exactly that many stars |
| Details.InsightsAtMostOnce | views/Details.tsx:53 | once trivia is shown, a second request is refused and the text stays |
| Details.SignedOutNeverOwner | views/Details.tsx:194 | the owner test fails for a signed-out viewer whatever the target, because every route hands the page `null` rather than `undefined`; a signed-in viewer passes exactly when the target is their uid |
| Details.LoadedProfile | views/Details.tsx:181-186 | on a freshly mounted page the profile is held exactly when there is a database, a non-empty target id and a stored document |
| Details.ProfileBodyFor | views/Details.tsx:193-221 | the page shows "Loading Profile..." exactly while no profile is held, and the settings panel only on the settings tab to a signed-in viewer |
| Details.ProfilePage.constructor | views/Details.tsx:177-178 | a page mounts with no profile, on the "videos" tab |
| Details.ProfilePage.FetchProfile | views/Details.tsx:181-191 | the effect replaces the profile only when it reads an existing document for a truthy target with a database; otherwise the profile held before stays |
| Details.ProfilePage.Retarget | App.tsx:150 | a new profile target reaches the mounted page with its profile and tab unchanged |
| Details.ProfilePage.SelectTab | views/Details.tsx:210-216 | "Manage" and the tab buttons set the active tab and nothing else |
| Details.ProfilePage.Body | views/Details.tsx:193-221 | in every state, the settings panel shows exactly on the settings tab with a profile held, to the signed-in viewer whose uid is the target |
| Details.SettingsOnlyForOwner | views/Details.tsx:193-221 | whatever profile is held, the settings panel shows exactly for the signed-in owner and never to a signed-out viewer; on a fresh page it also needs a database, a non-empty uid and a stored document |
| Details.OpenProfile | views/Details.tsx:176-191 | a freshly mounted page, once its effect has run, holds the loaded profile on the "videos" tab |
| Details.SignedOutKeepsLastProfile | views/Details.tsx:182 | a signed-out viewer who moves from another user's profile to "My Channel" keeps seeing that user's posts grid, not "Loading Profile..." |
| Details.OwnChannelKeepsOtherProfile | views/Details.tsx:185 | a signed-in viewer without a stored document who moves from another user's settings tab to "My Channel" sees the settings panel over the other user's profile |
| Details.FilmographySound | views/Details.tsx:246 | a title is listed exactly when the person is in its cast or directed it, in catalogue order |
| UserSpace.AssemblePostSound | views/UserSpace.tsx:24-65 | a normal post carries the form's text and media; a quiz post is built only from a six-piece reply, captioned by the topic, with the parsed quiz; both carry the user, the tag and empty likes and comments |
| UserSpace.PublishDisabledSound | views/UserSpace.tsx:148 | "Publish" is disabled while loading, for a post with no text and no media, and for a quiz with no topic, and only then |
| UserSpace.CreatorStudio.HandleUpload | views/UserSpace.tsx:24-78 | without a user nothing happens; a rejected quiz reply sends nothing; otherwise the post is sent when a database exists, and only a stored post resets the form and opens the feed; publishing ends in every started case |
| UserSpace.MoviesByIdsSound | views/UserSpace.tsx:189 | a title is listed exactly when its id is in the list, in catalogue order, and a missing list lists nothing |
| UserSpace.MoviesByIdsIgnoresListOrder | views/UserSpace.tsx:189 | lists with the same ids give the same titles, whatever their order and repeats |
| UserSpace.LibraryView.CreatePlaylist | views/UserSpace.tsx:176-184 | a blank name or no database sends nothing; otherwise an empty playlist named as typed, with the clock as id, is sent with `arrayUnion`, and the form is cleared and closed once the update is stored |
| UserSpace.PlaylistAppended | views/UserSpace.tsx:180 | a playlist with a fresh id is appended as the last, empty playlist |
| UserSpace.NotificationsFor | views/UserSpace.tsx:246-256 | the list holds exactly the user's notifications, newest first, and is empty without a user or a database |
| UserSpace.ExchangeKeepsChatLog | views/UserSpace.tsx:288-305 | a question followed by an answer keeps the chat alternating, opening and closing with the assistant |
| UserSpace.CineGenie.HandleSend | views/UserSpace.tsx:288-305 | a blank input changes nothing; otherwise the question and the reply are appended in that order, the input cleared and loading ended |
| App.AppState.Navigate | App.tsx:84-88 | the view becomes the target, the sidebar closes, and the search text is cleared unless the target is search |
| App.AppState.OnSearchChange | App.tsx:109-113 | the box takes the text; text opens search, clearing it on search goes home; the search screen shows only with text |
| App.CatalogueSound | App.tsx:56-75 | the catalogue is empty until the subscription delivers; after that the bundled list is shown with no database, after a read error or for an empty collection, otherwise the snapshot |
| App.FirstSignInWrite | App.tsx:30-51 | a user document is written exactly for a signed-in account, with a database, whose read found no document, and it is the default document; a failed read writes nothing |
| App.DefaultUserDocSound | App.tsx:34-47 | the new document is named "Guest", the display name or "User", with role "user", bio "CineSphere Viewer" and empty lists |
| App.RenderedScreensSound | App.tsx:143-152 | at most one screen renders: the one for a known view type, none for an unknown one |

## Left out

- Firebase itself is not modelled: authentication, snapshot subscriptions and their unsubscription, and document paths. A read is a parameter of the operation that uses it. A write is returned as the `ArrayWrite` (or document) it would send, with a `WriteOutcome` saying whether it was stored, thrown, or not attempted.
- `services/gemini.ts` is reduced to the reply string it returns. The operations that call it take that string as a parameter. The three fixed replies it can return are checked against the quiz parser.
- `Date.now()` is a parameter. `serverTimestamp()` is the value `Pending`, and a pending timestamp counts as 0 seconds, as the sort comparators do.
- `FileReader` media uploads, `alert`, `console` logging, scrolling and CSS are left out.
- The intermediate `loading` states between the two halves of an `await` are left out. Each handler is modelled as one step from before the call to after it.
- The speedometer needle angle is floating point and is left out. The dial value and its steps are modelled.
- `Lower` folds only ASCII letters. `toLowerCase` also folds other Unicode letters.
- `ParseInt` reads every decimal and hexadecimal digit run exactly. JavaScript loses precision beyond 2^53.
- `IntToString` writes plain digits. JavaScript switches to exponent notation at 10^21.
- Sequences.SortNonIncreasing: its contracts state the order and the contents only. Its insertion step swaps only strictly out-of-order neighbours, so equal timestamps keep their order as with `Array.prototype.sort`, but no contract states that stability.
- `constants.ts` is not part of this model, so the bundled catalogue is a parameter of `App.Catalogue`.
- `components/UI.tsx` (sidebar, auth modal, cards) is presentation and is not part of this model.
- These `useState` slots are not fields of the model, because no modelled decision reads them. `user`, `movies` and `users` in `App.tsx` are subscription results and become parameters. `isAuthOpen`, `showComments` and `showTrailer` only open and close panels. The library's `activeTab` only chooses which list to render, and its `profileData` is the document read, so it is a parameter of `UserSpace.MoviesByIds`.
- The library's "Please login" gate is left out.
- The profile page's `posts` list is left out. It is the snapshot of the target's posts, which no modelled decision reads, and its subscription is Firebase.
- A failed `toggleWatchLater` or `toggleLike` write does not roll the flag back. The model keeps that behaviour, as the source does.
- UserSpace.CineGenie.Valid: states that the chat alternates and opens with the assistant. The constructor states that it opens with the greeting; the invariant leaves the greeting text out to keep the proof small.
- UserSpace.CineGenie.HandleSend: requires the chat invariant, which every instance has from its constructor onwards.

## Findings

| source | as written | input that shows it | evidently intended | confidence | as-written member | corrected member |
|---|---|---|---|---|---|---|
| components/Content.tsx:195-201 | every piece of `text.split(/(@\w+)/g)` that starts with `@` is highlighted | the post text "@ hi": the split gives one piece, "@ hi", which starts with `@` and is highlighted though `@` is not followed by a word character | only the captured mentions, at odd positions of the split, are highlighted | not executed | Content.RenderTextHighlightsNonMention | Content.RenderTextIntendedSound |
