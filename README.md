# Forum view state machine (MusicFanZone)

This project models the forum view of MusicFanZone, a web app for music fans,
in Dafny and proves properties of that model. The forum view is a React
component with topics and their comments. Without React, HTTP and the browser,
the component is a sequential state machine. It has ten state hooks: the topic
list, the topic draft, the topic being edited, a per-topic comment cache, the
comment draft, the id and text of the comment being edited, the selected topic
id, the error message and the current user. Its handlers patch those hooks
with the server's reply.

The model has these modules:

- `ForumView.ForumView` is a class with one field per hook and one method per handler.
  - Each method takes the server's reply as an input `Result`. Deletions also take the user's answer to the confirmation prompt as a `bool`.
  - Each method returns the request it issues, or `None` when a guard stops it before any request.
  - Each `ensures` gives the whole new state as `State() == old(State()).(…)`, one clause per branch of the source.
- `IdLists` holds the list patches: replace-where-id-matches (`map`), filter-out-by-id (`filter`) and `find`. Lemmas cover order, multiplicity, idempotence and unique ids.
- `CommentCache` holds the object-spread patches of the comment map.
- `Text` holds the `trim()` guard. `IsBlank` is the reference predicate and is proved equal to "`trim` yields the empty string". White space is the WhiteSpace and LineTerminator set of ECMA-262.
- `Visibility` holds the markup's conditions for the owner-only controls, as predicates on the state.
- `Scenarios` holds verified sessions that walk through the handlers on the class, starting at mount.

## Model

| member | source | states |
|---|---|---|
| `Text.TrimStart` | Client/Client/src/Components/Forum.js:45 | the result is a suffix of the input that does not start with white space; everything cut off is white space |
| `Text.TrimEnd` | Client/Client/src/Components/Forum.js:45 | the result is a prefix of the input that does not end with white space; everything cut off is white space |
| `Text.Trim` | Client/Client/src/Components/Forum.js:45 | `s.trim()`: no longer than `s`, and a non-empty result neither starts nor ends with white space |
| `Text.TrimIsSlice` | Client/Client/src/Components/Forum.js:45 | `s.trim()` is the slice of `s` that starts after its leading white space (`t` being `s` with that cut off); everything of `s` before and after the slice is white space, so trimming removes white space and only white space from both ends |
| `Text.IsBlank` | Client/Client/src/Components/Forum.js:109 | the `!s.trim()` guard of lines 45, 50, 109 and 123 (its meaning is proved by the two lemmas below) |
| `Text.BlankIffAllWhiteSpace` | Client/Client/src/Components/Forum.js:109 | a draft is blank exactly when every character is white space |
| `Text.BlankIffTrimEmpty` | Client/Client/src/Components/Forum.js:45-53 | the guard `!s.trim()` holds exactly for blank strings (both directions) |
| `IdLists.ReplaceById` | Client/Client/src/Components/Forum.js:59 | same length; every item with the target id becomes the new value; every other item stays at its place |
| `IdLists.ReplaceByIdAbsent` | Client/Client/src/Components/Forum.js:59 | an update whose id is not in the list leaves the list unchanged |
| `IdLists.ReplaceByIdUnique` | Client/Client/src/Components/Forum.js:59 | replacing with a value that keeps the target id keeps ids unique |
| `IdLists.ReplaceByIdLeavesOne` | Client/Client/src/Components/Forum.js:59 | with unique ids and a reply keeping the id, exactly one topic has that id afterwards: the reply, at the old position |
| `IdLists.RemoveById` | Client/Client/src/Components/Forum.js:85 | no item with the id remains; every remaining item came from the list; every item with another id is kept |
| `IdLists.RemoveByIdKeepsOrder` | Client/Client/src/Components/Forum.js:85 | the result is a subsequence of the list, so the other items keep their relative order |
| `IdLists.RemoveByIdCounts` | Client/Client/src/Components/Forum.js:85 | every item with another id occurs as often as before; items with the id occur zero times |
| `IdLists.RemoveByIdIdempotent` | Client/Client/src/Components/Forum.js:85 | deleting the same id twice equals deleting it once |
| `IdLists.RemoveByIdAbsent` | Client/Client/src/Components/Forum.js:149 | deleting an id no item carries leaves the list unchanged |
| `IdLists.RemoveByIdUnique` | Client/Client/src/Components/Forum.js:85 | deleting keeps ids unique |
| `IdLists.AppendUnique` | Client/Client/src/Components/Forum.js:64 | appending keeps ids unique exactly when the new id is not already in the list |
| `IdLists.IndexOf` | Client/Client/src/Components/Forum.js:219 | the position of the first item with the id (the length when there is none): that item has the id, and no earlier item does |
| `IdLists.FindById` | Client/Client/src/Components/Forum.js:219 | `find` returns something exactly when some item has the id, and then it returns the FIRST item with that id (the one at `IndexOf`) |
| `IdLists.FindAfterRemove` | Client/Client/src/Components/Forum.js:85 | deleting one id does not change what `find` returns for any other id |
| `IdLists.FindAfterReplace` | Client/Client/src/Components/Forum.js:59 | for a reply that keeps the target id: after the update, `find` on the target id returns the reply (if the id was present), and other ids find what they found before |
| `CommentCache.Put` | Client/Client/src/Components/Forum.js:101 | key `k` is overwritten; every other key keeps its list; the key set gains only `k` |
| `CommentCache.Push` | Client/Client/src/Components/Forum.js:113 | exactly one comment is appended to entry `k` (a missing entry counts as empty); the old entry is a prefix; every other key is unchanged |
| `ForumTypes.ReplaceEdited` | Client/Client/src/Components/Forum.js:130 | same length; the comment whose id equals the edit id becomes the reply; a null edit id matches no comment |
| `ForumView.ForumView.constructor` | Client/Client/src/Components/Forum.js:25-30 | on mount, the state is the initial state with the user taken from the stored token |
| `ForumView.ForumView.FetchTopics` | Client/Client/src/Components/Forum.js:34-42 | issues the topic list request; a reply replaces the list; a failure only sets the load error |
| `ForumView.ForumView.SetDraftTitle` | Client/Client/src/Components/Forum.js:189 | only the draft title changes |
| `ForumView.ForumView.SetDraftDescription` | Client/Client/src/Components/Forum.js:195 | only the draft description changes |
| `ForumView.ForumView.SetNewComment` | Client/Client/src/Components/Forum.js:285 | only the comment draft changes |
| `ForumView.ForumView.SetEditingCommentContent` | Client/Client/src/Components/Forum.js:298 | only the comment edit text changes |
| `ForumView.ForumView.CreateOrUpdateTopic` | Client/Client/src/Components/Forum.js:44-73 | a blank title sets the title error and nothing else, with no request; the description is checked only after the title. Otherwise it sends the draft tagged with `currentUser?.username`: as an update of the edit target, or as a create. An update replaces the target's id in the list and clears the edit target. A create appends the reply and selects its id. Both reset the draft and clear the error. A failure only sets the error. Ids stay unique when the reply keeps the target id, or (on create) exactly when the new id is fresh |
| `ForumView.ForumView.DeleteTopic` | Client/Client/src/Components/Forum.js:75-95 | a declined prompt changes nothing and sends nothing. On success the id is filtered out and the error cleared. Selection and draft are reset only if the deleted id was the selected one; the edit target and the cache are untouched. A failure only sets the error. Unique ids stay unique |
| `ForumView.ForumView.FetchComments` | Client/Client/src/Components/Forum.js:98-106 | issues the comment request; a reply overwrites only that topic's entry; a failure only sets the error |
| `ForumView.ForumView.CreateComment` | Client/Client/src/Components/Forum.js:108-120 | a blank draft is a silent no-op with no request. Otherwise it posts the draft under `currentUser?.username`. On success the reply is pushed onto that topic's entry and the draft and error are cleared. A failure only sets the error |
| `ForumView.ForumView.UpdateComment` | Client/Client/src/Components/Forum.js:122-139 | blank edit text is a silent no-op. Otherwise it sends the text for the edited id. On success that topic's list has the edited comment replaced, with the length kept, and the edit id, edit text and error are cleared. A failure only sets the error |
| `ForumView.ForumView.DeleteComment` | Client/Client/src/Components/Forum.js:141-156 | a declined prompt changes nothing. On success every comment with the id is filtered out of that topic's list only, and the error cleared. A failure only sets the error |
| `ForumView.ForumView.HandleTopicChange` | Client/Client/src/Components/Forum.js:158-168 | the selection becomes the id. The empty id clears the whole cache, resets the draft and keeps the edit target. A non-empty id clears the edit target and fetches that topic's comments, overwriting only that entry |
| `ForumView.ForumView.HandleTopicChangeCorrected` | Client/Client/src/Components/Forum.js:158-168 | same as the handler above, except that the empty id also clears the edit target; afterwards there is never an edit target |
| `ForumView.ForumView.HandleEditClick` | Client/Client/src/Components/Forum.js:170-173 | the topic becomes the edit target and its title and description are copied into the draft; nothing else changes |
| `ForumView.ForumView.CancelTopicEdit` | Client/Client/src/Components/Forum.js:243 | only the edit target is cleared; the draft is kept |
| `ForumView.ForumView.HandleCommentEditClick` | Client/Client/src/Components/Forum.js:313-316 | the comment's id and content become the edit id and edit text; nothing else changes |
| `ForumView.ForumView.CancelCommentEdit` | Client/Client/src/Components/Forum.js:302 | only the edit id is cleared; the edit text is kept |
| `ForumTypes.UrlSegment` | Client/Client/src/Components/Forum.js:125 | `${editingCommentId}` in the URL: the edit id, or the text "null" when there is none (used in the `UpdateComment` request) |
| `Visibility.ForumControlsVisible` | Client/Client/src/Components/Forum.js:181 | the create form, the topic selector and everything under them render only while there is a current user |
| `Visibility.IsTopicOwner` | Client/Client/src/Components/Forum.js:270 | the owner test as written, `currentUser?.username === createdBy`, on optional values |
| `Visibility.TopicControlsVisible` | Client/Client/src/Components/Forum.js:216-273 | Delete Topic / Edit Topic render when there is a user (181), a selection (216), the selected topic is found (219), no edit is in progress (221) and the owner test holds (270) |
| `Visibility.IsCommentOwner` | Client/Client/src/Components/Forum.js:311 | `currentUser && currentUser.username === comment.username` |
| `Visibility.CommentControlsVisible` | Client/Client/src/Components/Forum.js:291-317 | a comment's Edit / Delete render when there is a user, a selection, the comment is in the selected topic's cached list (291), it is not the one being edited (294) and the user wrote it (311) |
| `Visibility.SelectedTopic` | Client/Client/src/Components/Forum.js:219 | the topic shown is the FIRST list topic with the selected id, and there is one exactly when some topic has that id |
| `Visibility.AnonymousMatchesCreatorless` | Client/Client/src/Components/Forum.js:270 | the test as written holds between no user and a topic with no recorded creator; only the user guard at line 181 excludes that case |
| `Visibility.TopicControlsIff` | Client/Client/src/Components/Forum.js:216-273 | topic edit/delete controls show exactly when there is a user, a selection, no edit in progress, and the first topic with the selected id has `createdBy` equal to that username |
| `Visibility.TopicControlsOwnerOnly` | Client/Client/src/Components/Forum.js:270 | a viewer whose username differs from the topic's creator never sees its controls |
| `Visibility.CommentControlsIff` | Client/Client/src/Components/Forum.js:291-317 | comment edit/delete controls show exactly to a user whose username equals the comment's, while the comment is cached under the selected topic and is not being edited |
| `Visibility.OwnerControlsNeedUser` | Client/Client/src/Components/Forum.js:181 | no owner-only control shows without a current user |
| `Visibility.DeleteOtherKeepsSelectedTopic` | Client/Client/src/Components/Forum.js:85-89 | deleting a topic other than the selected one leaves the shown topic unchanged |
| `Visibility.UpdateShowsReply` | Client/Client/src/Components/Forum.js:59 | for a reply that keeps the selected topic's id: after a successful update of the selected topic, the shown topic is the server's reply |
| `Scenarios.AliceCreatesVinyl` | Client/Client/src/Components/Forum.js:44-73 | "alice" creating {Vinyl, Best pressings?} posts it under her name; it is appended and selected, and she sees its controls |
| `Scenarios.BobViewsVinyl` | Client/Client/src/Components/Forum.js:270 | "bob" selecting alice's topic sees no edit/delete controls |
| `Scenarios.AliceCommentsOnVinyl` | Client/Client/src/Components/Forum.js:108-120 | "alice" commenting "Try Discogs" posts it under her name, and the topic's list gains one entry with username "alice" |
| `Scenarios.BobViewsDiscogs` | Client/Client/src/Components/Forum.js:311 | "bob" sees no edit/delete controls on alice's comment |
| `Scenarios.CreateAfterDeselectAsWritten` | Client/Client/src/Components/Forum.js:158-168 | as written: edit a topic, deselect, then submit the Create form. The submit is sent as an update of the old topic and overwrites it; no topic is created |
| `Scenarios.CreateAfterDeselectCorrected` | Client/Client/src/Components/Forum.js:158-168 | with the corrected handler the same session creates a second topic and leaves the first unchanged |

## Findings

| source | as written | input that shows it | evidently intended | confidence | as-written member | corrected member |
|---|---|---|---|---|---|---|
| Client/Client/src/Components/Forum.js:164-167 | choosing "Select a topic" (the empty id) clears the comment cache and the draft but keeps `editingTopic` | select topic t1, press Edit Topic, choose "Select a topic", fill in the Create form, press Create Topic: the submit goes out as `PUT /api/topics/t1` and overwrites t1 | deselecting also ends the edit, so Create Topic creates a topic | medium, not executed | `Scenarios.CreateAfterDeselectAsWritten` | `ForumView.ForumView.HandleTopicChangeCorrected` |

The component's own handler is kept as `HandleTopicChange`, and the sessions that describe the program as written use it. The corrected handler agrees with it on every non-empty id; `Scenarios.CreateAfterDeselectCorrected` uses it and proves the intended behaviour on the input above. The root of the problem is wider: the one `newTopic` draft serves both forms, and the Create Topic button (line 198) sends an update whenever an edit target is set.

## Notes on the code

- A topic is rejected when its title or description is blank after trimming, not only when it is empty (Forum.js:45, 50).
- An update replaces every topic carrying the edit target's id by the reply, whatever the reply's own id (Forum.js:59). `IdLists.ReplaceByIdLeavesOne` shows that exactly one topic then has that id, equal to the reply, when ids are unique and the reply keeps the id.
- Choosing "Select a topic" resets the draft and the comment cache but keeps the edit target (Forum.js:164-167); see the finding above.

## Left out

- HTTP calls (axios), URLs and `Authorization` headers: each reply is an input `Result`, and each handler returns the request it would issue. Whether a call attaches the bearer token is not modelled.
- `getUserFromToken` (localStorage, `atob`, `JSON.parse`): the current user is a constructor parameter. A payload without a username is not modelled; a user always has a string name. A malformed token makes `atob` or `JSON.parse` throw at Forum.js:19 inside the mount effect, so `fetchTopics` (line 31) is never reached; the model does not capture that failure and always lets `FetchTopics` be called.
- `window.confirm`: a `bool` parameter of `DeleteTopic` and `DeleteComment`.
- Asynchrony: each handler runs to completion before the next starts. The model therefore does not capture two things: updates computed from a captured `topics` racing each other (Forum.js:59, 64), and the difference between those and the `prev =>` updater form.
- `ForumView.ForumView.UpdateComment` and `ForumView.ForumView.DeleteComment`: `prev[topicId].map` / `.filter` throws outside the `try` when the topic has no cache entry (Forum.js:130, 149). The model does not model the crash. It requires the entry to be present, but only on the path that reads it: a non-blank edit with a successful reply, and a confirmed delete with a successful reply.
- `console.log` / `console.error` output.
- JSX rendering, styling, `Date` parsing and `toLocaleString`: `createdAt` is an opaque string. Only the render conditions behind the controls are modelled (`Visibility`).
- JavaScript strings are UTF-16 and Dafny strings are sequences of Unicode scalar values. Every white-space code point `trim` removes is in the Basic Multilingual Plane, so the blank test is the same.
- Client/src/Components/Navbar.js: display-only markup built on the external `jwtDecode` call. Client/src/Components/Navbar.js is not part of this model.
- Backend/models/Comment.js: a declarative Mongoose schema whose `required` / `trim` / `default` rules live in the Mongoose library, outside this repository. Backend/models/Comment.js is not part of this model.
