# Community forum backend: a Dafny model

This project models the request-handling core of a small community forum
backend: users sign up, log in with a bearer token, and write posts and
comments that are screened by a toxicity classifier; posts can be liked and
carry one image. Everything lives in process-wide dictionaries, sets and
counters; every failure reaches the client in one JSON error shape.

One Dafny module per source file:

| module | source file | form |
|---|---|---|
| `Storage` | storage.py | class `Store` whose fields are the global maps, sets and counters; validity predicates over them |
| `PostsModel` | modelsPosts.py | methods that update the store in place, with the snapshot functions that specify them |
| `AuthModel` | modelsAuth.py | methods that update the user tables; the session clean-up loop is a `while` loop |
| `PostControllers` | controllersPosts.py | pure guards (`RequirePost`, `EnsureNotToxic`) and methods that call the store |
| `PostDbControllers` | controllers/posts.py | the body-only screening variant, over the same store |
| `PostRoutes` | routersPosts.py | the route bodies that change the store directly |
| `AuthControllers` | controllers/auth.py | sign-up, login, update and delete sequencing |
| `AuthRoutes` | routers/auth.py | login, the availability checks, avatar, password change, account deletion |
| `Deps` | deps.py | bearer-header parsing and session lookup |
| `Utils` | utils.py | the error raisers and the three validators |
| `ErrorHandlers` | main.py | the exception-to-response mapping |
| `Toxicity` | ai.py | the moderation decision over an abstract classifier |
| `Schemas` | schemas.py | the request-body length bounds |
| `Errors`, `Text`, `Collections`, `Basics` | (shared) | exceptions and results, Python string operations, `sorted`, `Option` |

How the model is set up:
- Exceptions are values: `Raised` is an `HTTPException` (status and detail),
  a request-validation error, or a `KeyError`. Operations return
  `Result`/`Outcome`.
- The counters are kept apart as the code keeps them. `global` in
  modelsPosts.py and modelsAuth.py rebinds each module's own copy of the
  counter, while routersPosts.py advances `storage.commentSeq`. So `Store`
  holds six counters.
- The comment counters can therefore hand out the same id twice.
  `commentsCount` tracking the comment map is stated as a separate
  predicate, `CommentCountsTrack`. Every operation that must keep it does so.
  `PostsModel.CollidingIdBreaksCount` shows how a colliding id breaks it.
- The operations change the store through `Store`'s setter methods. Each
  setter replaces a few tables or counters and leaves every other field alone.
  `Valid` is split into a user half (`UsersOk`) and a post half (`PostsOk`).
  Each setter keeps its half when the new tables satisfy it.
- The classifier, the password hasher, the token generator and the clock are
  parameters: `Classifier`, `PasswordContext`, `token`, `now`.
- Routes that depend on `getCurrentUser` take the user it resolved as
  `current`. `Deps.CurrentUserIsStored` shows that in a valid store this user
  is the stored record under its own id.
- controllers/auth.py imports its store operations from `models.auth`. That
  module is not part of this model; its operations are modelled by the
  modelsAuth.py ones, which have the same names and signatures.
- A toxic text is rejected with code `BAD_REQUEST` (utils.py `badRequest`).

## Model

| member | source | states |
|---|---|---|
| Storage.Store.constructor | storage.py:4-14 | every map starts empty and every counter at 0; the empty store is valid |
| Storage.ReplaceUserValid | storage.py:4-7 | replacing a user record by one with the same id, e-mail and nickname keeps the user tables and their indices consistent |
| Storage.ReplacePostValid | storage.py:8-13 | replacing a post by one with the same id and like count keeps the post tables consistent |
| Storage.ReplacePostTracks | storage.py:8-12 | replacing a post by one with the same comment count keeps `commentsCount` in step with the comment map |
| Storage.ReplaceLikesValid | storage.py:8-13 | a new like set for a post, with `likesCount` its size, keeps the post tables consistent |
| Storage.StrayLikesValid | storage.py:13 | a like set under a key that is no post leaves the post tables consistent |
| Storage.AddCommentValid | storage.py:12 | filing a comment whose id is within the counter keeps the nested comment map consistent |
| Storage.RemoveCommentValid | storage.py:12 | removing a comment keeps the nested comment map consistent |
| Storage.NewPostValid | storage.py:8-13 | a post with the next id, zero counters, an empty like set and an empty comment map keeps the post tables consistent under the raised counter; every older id is smaller |
| Storage.RemovePostValid | storage.py:8-13 | dropping a post id from posts, likes and comments keeps the post tables consistent and the comment counts in step |
| Storage.RaiseBounds | storage.py:9-14 | raising the post or comment counter keeps the post tables consistent |
| Storage.RaiseUserBound | storage.py:4-9 | raising the user counter keeps the user tables consistent |
| Storage.Store.SetUserTables | storage.py:4-6 | the user table and its two indices are replaced and nothing else changes; the user tables stay consistent when the new ones are |
| Storage.Store.SetSessions | storage.py:7 | the session table is replaced and nothing else changes; the user tables stay consistent when the new sessions are |
| Storage.Store.SetUserSeq | storage.py:9 | the user counter is set and nothing else changes; the user tables stay consistent when they are under the new bound |
| Storage.Store.SetPostTables | storage.py:8-13 | posts, likes and comments are replaced and nothing else changes; the post tables stay consistent when the new ones are |
| Storage.Store.SetPostCounters | storage.py:10-14 | the post and comment counters are set and nothing else changes; the post tables stay consistent when they are under the new bounds |
| Toxicity.CheckToxicity | ai.py:17-47 | toxic iff the score is at least 0.7 and the lower-cased label contains "tox"; a blank text is ("non_toxic", 0.0, false); otherwise the label and score are the classifier's, passed through; the score is in [0, 1] |
| Toxicity.BlankIgnoresClassifier | ai.py:19-21 | a blank text gets the same verdict whatever the classifier is, so the classifier is not consulted |
| Toxicity.StripInsensitive | ai.py:19 | surrounding whitespace does not change the verdict |
| Toxicity.ThresholdBoundary | ai.py:41 | score 0.7 with label "toxic" is toxic; any score below 0.7 is never toxic |
| Toxicity.LabelWithoutToxNeverToxic | ai.py:41 | a label without "tox" in any letter case is never toxic, whatever the score |
| Toxicity.UnnamedClassNeverToxic | ai.py:39-41 | a class index missing from `id2label` is labelled with its decimal digits and is never toxic |
| Utils.BadRequest | utils.py:10-11 | status 400, code `BAD_REQUEST`, the caller's message and fields |
| Utils.AuthRequired | utils.py:13-14 | status 401, code `AUTH_REQUIRED`, the fixed message, no fields |
| Utils.InvalidToken | utils.py:16-17 | status 401, code `INVALID_TOKEN`, the fixed message, no fields |
| Utils.Forbidden | utils.py:19-20 | status 403, code `FORBIDDEN`, the given message, no fields |
| Utils.NotFound | utils.py:22-23 | status 404, code `NOT_FOUND`, the given message, no fields |
| Utils.PayloadTooLarge | utils.py:25-26 | status 413, code `PAYLOAD_TOO_LARGE`, the given message, no fields |
| Utils.NormalizeEmailSpec | utils.py:28-34 | succeeds iff the stripped, lower-cased address is non-empty, has an `@` and a `.` after its last `@`; the result is that address; otherwise the format error |
| Utils.NormalizeEmailIdempotent | utils.py:28-34 | normalising a normalised address returns it unchanged |
| Utils.ValidatePassword | utils.py:36-41 | passes iff 8 to 20 characters with an upper-case letter, a lower-case letter, a digit and a character neither word nor whitespace; an empty password gets its own message |
| Utils.ValidateNickname | utils.py:43-51 | passes iff not blank, no space and at most 10 characters; the failures come in that order with their three messages |
| ErrorHandlers.ErrorPayload | main.py:516-522 | `ok` is false, code and message are the arguments, and `fields` is present iff the argument is truthy (neither None nor empty) |
| ErrorHandlers.HttpExceptionHandler | main.py:524-535 | the status is kept; a dict detail supplies code, message and fields with their defaults; any other detail gives `HTTP_ERROR` and its text, or the generic message when it is empty |
| ErrorHandlers.LocKey | main.py:542-543 | the key of an error item is never empty ("body" stands in) |
| ErrorHandlers.ValidationFieldsKeys | main.py:541-543 | every error item has an entry under its location key, and every entry comes from an item |
| ErrorHandlers.ValidationFieldsLastWins | main.py:541-543 | the entry under a key is the message of the last item with that key |
| ErrorHandlers.ValidationExceptionHandler | main.py:537-548 | the loop builds the same fields as the fold; status 422, code `VALIDATION_ERROR`; `fields` present iff there is an error item |
| ErrorHandlers.UnhandledExceptionHandler | main.py:550-555 | status 500, code `INTERNAL_ERROR`, the fixed message, no fields |
| ErrorHandlers.Respond | main.py:524-555 | an `HTTPException` keeps its status, a validation error is 422, anything else 500; the body is never `ok` |
| ErrorHandlers.TaxonomyResponse | main.py:524-535 | an error raised by a `utils.py` helper reaches the client with its own status, code and message, and `fields` only when non-empty |
| Deps.BearerToken | deps.py:12 | the token is the text after the first space, that is after "Bearer ", stripped |
| Deps.GetCurrentUser | deps.py:8-18 | `AUTH_REQUIRED` iff no header or no "Bearer " prefix; a user iff the token has a truthy session whose user exists, and then that user; in a valid store the only errors are `AUTH_REQUIRED` and `INVALID_TOKEN` |
| Deps.CurrentUserIsStored | deps.py:18 | in a valid store the resolved user is the stored record under its own id |
| Deps.IssuedTokenAuthenticates | deps.py:12-18 | a session's own token sent as "Bearer token" signs in that session's user |
| Deps.PaddedTokenAuthenticates | deps.py:12 | trailing whitespace after the token does not change who is signed in |
| Deps.SameTokenSameUser | deps.py:12-18 | two bearer headers whose stripped tokens agree resolve to the same outcome |
| PostsModel.FilterPosts | modelsPosts.py:8-10 | a post is kept iff it is listed and its lower-cased title or body contains the stripped, lower-cased query |
| PostsModel.SearchSpec | modelsPosts.py:6-11 | the search lists only stored, matching posts, newest first; in a valid store it lists every matching post, and none twice |
| PostsModel.FilterDistinct | modelsPosts.py:10 | the filtering comprehension keeps a list without repeats free of repeats |
| PostsModel.ListPosts | modelsPosts.py:6-12 | the page is the slice `[skip:skip + limit]` of the matching posts sorted newest first: at most `limit` posts, each stored and matching, in descending `createdAt`, none twice in a valid store |
| PostsModel.BlankQueryListsAll | modelsPosts.py:8 | with no query or a blank one and a large enough limit, every stored post is listed |
| PostsModel.GetPost | modelsPosts.py:29-30 | the stored post iff there is one |
| PostsModel.CreatePost | modelsPosts.py:14-27 | the id is the module counter plus 1 and larger than every existing id; stripped title and body, zero counters, `createdAt == updatedAt`, an empty like set and comment map; nothing else changes |
| PostsModel.UpdatePost | modelsPosts.py:32-37 | only title, body (stripped) and `updatedAt` change; a missing post is a `KeyError` with nothing changed |
| PostsModel.DeletePost | modelsPosts.py:39-44 | the id leaves posts, comments, likes and images; always true; deleting twice is deleting once |
| PostsModel.RemoveAbsentPost | modelsPosts.py:39-44 | popping an id that no table holds leaves the store as it was |
| PostsModel.IncView | modelsPosts.py:46-49 | one more view, returned; a missing post is a `KeyError` |
| PostsModel.Flip | modelsPosts.py:54-61 | the user's membership flips and no other user's changes |
| PostsModel.FlipCount | modelsPosts.py:56-60 | when the count was the set's size, the floored or raised count is the new set's size |
| PostsModel.FlipTwice | modelsPosts.py:54-60 | flipping a user twice restores the like set, and the count follows it back |
| PostsModel.ToggleLike | modelsPosts.py:51-62 | the store becomes the toggled snapshot; `liked` is the new membership and `likesCount` the new set size; a missing post is a `KeyError` after the like set was created |
| PostsModel.ToggleLikeTwiceRestores | modelsPosts.py:51-62 | toggling twice restores the store exactly |
| PostsModel.ListComments | modelsPosts.py:64-67 | only the post's comments, oldest first; in a valid store all of them, each exactly once |
| PostsModel.OldestFirstListing | modelsPosts.py:64-67 | the sorted listing of one comment map holds only its comments, all of them when every id is within the counter, none twice when each comment carries its own id, in `createdAt` order |
| PostsModel.WithCommentValid | modelsPosts.py:69-78 | filing a comment with an id within the counter keeps the post tables valid and, for a fresh id, the comment counts in step |
| PostsModel.CollidingIdBreaksCount | modelsPosts.py:76-77 | filing a comment under an id the post already uses leaves `commentsCount` one above the number of comments |
| PostsModel.AddComment | modelsPosts.py:74-78 | the comment (stripped text) is filed under its post and `commentsCount` goes up; a missing post is a `KeyError` after the comment was filed |
| PostsModel.CreateComment | modelsPosts.py:69-78 | the id is the module comment counter plus 1; then as `AddComment`; the counts stay in step while that counter bounds the ids |
| PostsModel.NextCommentIdFresh | modelsPosts.py:70-76 | when every comment id is at most the counter, the next id is unused under the post, and afterwards every id is at most the new one |
| PostsModel.UpdateComment | modelsPosts.py:80-84 | only text (stripped) and `updatedAt` change; a missing comment is a `KeyError` |
| PostsModel.WithoutCommentValid | modelsPosts.py:86-91 | removing a comment keeps the post tables valid and the counts in step |
| PostsModel.DeleteComment | modelsPosts.py:86-91 | true, the comment removed and `commentsCount` down by one (floored) iff the comment existed; false and nothing changed otherwise |
| PostsModel.PutImage | modelsPosts.py:93-95 | the image is stored and `getImage` returns the same filename and bytes |
| PostsModel.GetImage | modelsPosts.py:97-98 | the stored image iff there is one |
| PostsModel.DeleteImage | modelsPosts.py:100-102 | always true; afterwards there is no image; without an image nothing changes |
| PostControllers.EnsureNotToxic | controllersPosts.py:121-131 | passes iff the verdict is not toxic; otherwise 400 with fields reason "toxic_language", score, label and the caller's field name; a blank text passes |
| PostControllers.RequirePost | controllersPosts.py:11-17 | the stored post, or 404 with the post-not-found message |
| PostControllers.CtrlCreatePost | controllersPosts.py:22-26 | the title is screened before the body; the first toxic field is the error and nothing is created; otherwise the post of `createPost` |
| PostControllers.CtrlIncView | controllersPosts.py:31-33 | 404 for a missing post, otherwise one more view |
| PostControllers.CtrlUpdatePost | controllersPosts.py:35-44 | 404, then 403 for anyone but the author before any screening, then title and body screening; the post changes only when all pass |
| PostControllers.CtrlDeletePost | controllersPosts.py:46-52 | 404, then 403 for anyone but the author, with nothing removed; the author's post is deleted |
| PostControllers.CtrlListComments | controllersPosts.py:54-57 | 404 iff the post is missing, otherwise its comments |
| PostControllers.IndexByIdSpec | controllersPosts.py:71 | the id index has an entry for exactly the listed ids, each a listed comment with that id |
| PostControllers.FindCommentSpec | controllersPosts.py:71-72 | in a valid store, looking a comment up through the listed comments finds exactly the stored comment |
| PostControllers.CtrlCreateComment | controllersPosts.py:59-67 | a blank text is 400 with fields `{"text": "required"}`; then screening; only then 404 for a missing post; nothing changes on any error |
| PostControllers.CtrlUpdateComment | controllersPosts.py:69-82 | 404 for a missing post or comment and 403 for anyone but the author, both before screening; then only text and `updatedAt` change |
| PostControllers.CtrlDeleteComment | controllersPosts.py:84-95 | 404 for a missing post or comment, 403 for anyone but the author, with nothing removed; otherwise the comment is deleted |
| PostControllers.CtrlUploadImage | controllersPosts.py:97-103 | 404, then 403 for anyone but the author; the author's image is stored |
| PostControllers.CtrlGetImage | controllersPosts.py:105-111 | the stored image, or 404 with the no-image message |
| PostControllers.CtrlDeleteImage | controllersPosts.py:113-119 | 404, then 403 for anyone but the author; the author's image is removed |
| PostControllers.UploadThenGet | controllersPosts.py:97-119 | after the author uploads and deletes an image, getting it is 404 |
| PostDbControllers.CtrlCreatePost | controllers/posts.py:25-28 | only the body is screened: a toxic body is the error with nothing created, and a toxic title alone does not block creation |
| PostDbControllers.CtrlGetPost | controllers/posts.py:30-43 | 404 for a missing post; otherwise views rises by exactly one and the returned post carries the new count |
| PostDbControllers.CtrlUpdatePost | controllers/posts.py:49-57 | 404, then 403, then body screening, then the update; nothing changes on an error |
| PostDbControllers.CtrlDeletePost | controllers/posts.py:59-65 | 404, then 403 with nothing deleted; the author's post is deleted |
| PostRoutes.QueryErrors | routersPosts.py:18 | no error iff `skip >= 0` and `1 <= limit <= 1000` |
| PostRoutes.ListPostsRoute | routersPosts.py:17-19 | a page iff the bounds hold (defaults 0 and 20), and then the slice `[skip:skip + limit]` of the matching posts, newest first, none twice in a valid store; otherwise a 422 with its error items |
| PostRoutes.GetPostRoute | routersPosts.py:25-30 | 404 for a missing post; otherwise views rises by one and the stored post is returned |
| PostRoutes.ToggleLikeRoute | routersPosts.py:36-51 | 404 with nothing changed for a missing post; otherwise the toggled snapshot, with `liked` and `likesCount` the new membership and set size |
| PostRoutes.ListCommentsRoute | routersPosts.py:60-66 | 404 for a missing post, otherwise its comments oldest first |
| PostRoutes.CreateCommentRoute | routersPosts.py:68-85 | 404 for a missing post; otherwise the id is `storage.commentSeq + 1`, the text stripped, unscreened, and `commentsCount` goes up |
| PostRoutes.UpdateCommentRoute | routersPosts.py:87-102 | 404 for a missing post or comment, 403 for anyone but the author; otherwise only text and `updatedAt` change |
| PostRoutes.DeleteCommentRoute | routersPosts.py:104-119 | 404, then 403 with nothing changed; otherwise the comment is removed and `commentsCount` goes down, floored at 0 |
| PostRoutes.DeletePostImageRoute | routersPosts.py:144-153 | 404, then 403 with nothing changed; the author's image is removed, and deleting a missing image changes nothing |
| AuthModel.CreateUser | modelsAuth.py:6-21 | the id is the module counter plus 1 and unused; the e-mail and lower-cased nickname index it; no avatar; the store stays valid for a free address and nickname |
| AuthModel.CreateUserValid | modelsAuth.py:18-20 | a user with the next id, a free address and a free non-empty nickname keeps the user tables valid |
| AuthModel.GetUserByEmailNormSpec | modelsAuth.py:23-25 | in a valid store the lookup finds a user iff some user has the address, and then that user |
| AuthModel.GetUserByEmailNorm | modelsAuth.py:23-25 | a user is returned only when the address is indexed to a stored user, and it is that user |
| AuthModel.GetUser | modelsAuth.py:27-28 | the stored user iff there is one |
| AuthModel.IsEmailTakenSpec | modelsAuth.py:30-31 | in a valid store an address is taken iff some user has it |
| AuthModel.IsNicknameTakenSpec | modelsAuth.py:33-35 | in a valid store a nickname is taken iff a user other than the excluded one has it in any letter case |
| AuthModel.UpdateNickname | modelsAuth.py:37-44 | `KeyError` for an unknown user; otherwise the old lower-cased key is dropped and the new one maps to the user; other index entries are untouched |
| AuthModel.UpdateNicknameValid | modelsAuth.py:37-44 | renaming to a non-empty nickname nobody else holds keeps the user tables valid |
| AuthModel.IssueToken | modelsAuth.py:46-50 | exactly one session `token -> uid` is added; every other session is unchanged |
| AuthModel.IssueSessionValid | modelsAuth.py:46-50 | a non-empty token mapped to an existing user keeps the user tables valid |
| AuthModel.RemoveSessionsOf | modelsAuth.py:54-56 | the loop drops exactly the sessions of the user |
| AuthModel.DeleteUser | modelsAuth.py:52-63 | no session of the user is left, and its e-mail key, nickname key and record are gone; true even for an absent user; the store stays valid |
| AuthModel.DeleteUserValid | modelsAuth.py:52-63 | dropping a user with its sessions and index entries keeps the user tables valid |
| AuthControllers.InvalidCredentials | controllers/auth.py:31 | status 401, code `INVALID_CREDENTIALS`, the fixed message |
| AuthControllers.SignupCheck | controllers/auth.py:11-20 | passes iff the address is well formed and free, the password and nickname pass their rules and the nickname is free in any letter case; otherwise the first failing check, in source order, is the error |
| AuthControllers.CtrlSignup | controllers/auth.py:11-24 | the checks come in order: e-mail format, password, nickname, duplicate e-mail, duplicate nickname (any letter case); a user is created only when all pass |
| AuthControllers.CtrlLogin | controllers/auth.py:26-33 | an unknown address and a wrong password fail alike with `INVALID_CREDENTIALS`; success registers the token to that user |
| AuthControllers.CtrlGetUser | controllers/auth.py:35-41 | the stored user, or 404 with the user-not-found message |
| AuthControllers.CtrlUpdateUser | controllers/auth.py:43-49 | a nickname held by another user is 400; a user may keep or re-case their own nickname |
| AuthControllers.CtrlDeleteMe | controllers/auth.py:51-52 | as `deleteUser`: no session of the user is left and the user is gone |
| AuthRoutes.Login | routers/auth.py:19-23 | `{accessToken: token, tokenType: "bearer"}` after a successful login; the login's errors otherwise |
| AuthRoutes.CheckEmail | routers/auth.py:29-41 | unavailable with the format message for a malformed address, unavailable with the duplicate message for a taken one, available with "" otherwise |
| AuthRoutes.NicknameAvailability | routers/auth.py:52-64 | after the validator passed, the repeated checks cannot fail: unavailable iff the nickname is taken in any letter case |
| AuthRoutes.CheckNickname | routers/auth.py:43-64 | available iff the nickname is valid and not taken; for an invalid one the message is the whole error detail |
| AuthRoutes.CheckNicknameSendsDetail | routers/auth.py:50 | for the empty nickname the message is the detail object, not the text |
| AuthRoutes.CheckNicknameFixed | routers/auth.py:45-50 | the corrected check: same availability, and the message is always text, the validator's own for an invalid nickname |
| AuthRoutes.CheckNicknameFixedAgreesWithSignup | routers/auth.py:43-64 | in a valid store the corrected check says available iff the nickname is valid and no user has it in any letter case |
| AuthRoutes.UploadAvatar | routers/auth.py:78-83 | the signed-in user's record gets the file as its avatar; nothing else changes |
| AuthRoutes.DeleteAvatar | routers/auth.py:85-89 | the signed-in user's avatar is cleared; nothing else changes |
| AuthRoutes.ChangePassword | routers/auth.py:91-100 | a wrong current password is 400 whatever the new password; then the new password is validated; the hash is replaced only when both pass, and nothing changes on a failure |
| AuthRoutes.DeleteMe | routers/auth.py:102-114 | every session of the user, its e-mail and nickname index entries and its record are removed; the store stays valid |
| Schemas.SignUpIn | schemas.py:7-10 | admits exactly passwords of 8 to 20 characters with nicknames of 1 to 10 |
| Schemas.UserUpdate | schemas.py:22-23 | admits exactly nicknames of 1 to 10 characters |
| Schemas.PostCreate | schemas.py:25-27 | admits exactly titles of 1 to 26 characters with bodies of 5 to 20000 |
| Schemas.CommentCreate | schemas.py:40-41 | admits exactly texts of 1 to 1000 characters |
| Schemas.PasswordChangeIn | schemas.py:51-53 | admits exactly new passwords of 8 to 20 characters |
| Schemas.BlankTitleWithinSchema | schemas.py:26 | a title of one space fits the post schema, and the title stored for it is empty |
| Schemas.PasswordRuleWithinSchema | schemas.py:9 | every password the rule accepts fits both password fields |
| Schemas.SchemaAdmitsWeakPassword | schemas.py:53 | eight lower-case letters fit the schema yet fail the rule |
| Schemas.PasswordRequiredUnreachable | schemas.py:53 | behind the schema the empty-password message is never sent |
| Schemas.NicknameValidatorWithinSchema | schemas.py:23 | every nickname the validator accepts fits the nickname field |
| Schemas.NicknameLengthUnreachable | schemas.py:10 | behind the schema the validator's length message is never sent |
| Schemas.BlankNicknameWithinSchema | schemas.py:23 | a single space fits the nickname field yet is rejected as missing |
| Schemas.BlankCommentWithinSchema | schemas.py:41 | a comment of spaces fits the comment field, so only the controller's blank check rejects it |
| Text.Strip | utils.py:29 | `strip()`: the result has no surrounding whitespace, is empty iff the input is blank, and leaves a stripped string alone |
| Text.TrimStartSpec | utils.py:29 | `lstrip()` keeps a suffix that does not start with whitespace and drops only whitespace |
| Text.TrimEndSpec | utils.py:29 | `rstrip()` keeps a prefix that does not end with whitespace and drops only whitespace |
| Text.StripIdempotent | utils.py:29 | stripping twice is stripping once |
| Text.Lower | utils.py:29 | `lower()` maps each character on its own and keeps the length |
| Text.ContainsIff | ai.py:41 | `in` on strings holds iff the needle occurs at some index |
| Text.AfterLast | utils.py:31 | `split("@")[-1]`: the suffix after the last separator, containing none |
| Text.NatToString | ai.py:39 | `str(idx)`: non-empty decimal digits |
| Collections.InsertPerm | modelsPosts.py:11 | inserting adds exactly the new element to the multiset of elements |
| Collections.InsertSpec | modelsPosts.py:11 | inserting into a sorted sequence keeps it sorted by the key and adds exactly the new element |
| Collections.SortBySpec | modelsPosts.py:11 | `sort(key=...)` orders by the key and is a permutation |
| Collections.ValuesUpToSpec | modelsPosts.py:7 | the values under the keys `1..n`, and only those |
| Collections.ValuesUpToDistinct | modelsPosts.py:7 | when no value sits under two keys, `list(d.values())` has no repeats |
| Collections.DistinctCount | modelsPosts.py:11 | in a list without repeats every element occurs at most once |
| Collections.CountTwice | modelsPosts.py:11 | an element at two positions occurs at least twice |
| Collections.DistinctPerm | modelsPosts.py:11 | a permutation (such as `sort`'s result) of a list without repeats has no repeats |

## Left out

- Model inference (tokenizer, truncation to 256 tokens, softmax and argmax over floats) is foreign library code. The classifier is an abstract function from the stripped text to a class index and a probability.
- Password hashing and verification (passlib) are the two functions of `PasswordContext`. Access tokens (`secrets.token_urlsafe`) are supplied by the caller.
- `datetime.now` is the parameter `now`; timestamps are integers.
- Python's `str.lower()` is modelled on ASCII letters only. `str.isspace()` is modelled with its full set of whitespace characters.
- Utils.ValidatePassword: the regular expression's `\d` is taken as the ASCII digits `0`-`9`, while Python's `\d` also matches every other Unicode decimal digit (such as `٣`), so a password whose only digit is a non-ASCII one passes in Python and fails here. `\w` is taken as ASCII letters, digits, `_` and every non-ASCII non-space character. It does not model that `.` excludes a newline or that `$` also matches before a final newline.
- `EmailStr` parsing and every other pydantic check other than the string length bounds are left out. CORS, OpenAPI customisation, router wiring and server start-up are also left out.
- File uploads are taken as their filename and bytes. Reading the upload, `mimetypes` and the streamed image response (routersPosts.py:121-142) are I/O. The upload route itself has the same guards as `ctrlUploadImage`.
- The string-literal blocks in main.py (lines 39-514) are not live code.
- `ctrlIncView` in controllers/posts.py (lines 45-47) calls `_requirePost` with the wrong number of arguments and is never called.
- The SQLAlchemy persistence behind controllers/posts.py (models/posts.py, db_models.py) is replaced by the same map store.
- models/auth.py is not part of this model.
- The routes that only delegate to a controller are not modelled separately: sign-up, `/auth/check`, `getMe`, `updateMe`, and post create, update and delete. The same goes for the response projections to `UserOut`/`PostOut`.
- Concurrency: the store is used by one request at a time.
- PostsModel.ListPosts and PostsModel.ListComments: posts and comments are gathered in id order before the stable sort. Entries with equal `createdAt` may therefore come out in a different order than dictionary insertion order. Their order by `createdAt`, their contents (each entry exactly once, in a valid store) and the page window are stated in full.
- PostsModel.ToggleLike, PostsModel.AddComment and the methods over the store: records are values in maps, so the aliasing of a post dict that is both stored and returned is not modelled. A later update through the returned dict is instead a new map update.
- Deps.GetCurrentUser: a session whose user is gone raises `KeyError`. Such a session cannot exist in a valid store.

## Findings

| source | as written | input that shows it | evidently intended | confidence | as-written member | corrected member |
|---|---|---|---|---|---|---|
| routers/auth.py:50 | `checkNickname` answers an invalid nickname with the whole error detail as `message`; the extracted text in `msg` is unused | `GET /auth/check-nickname?nickname=` gets `message` = `{code: "BAD_REQUEST", message: "*닉네임을 입력해주세요.", fields: None}` | the text, as `checkEmail` sends it: `"*닉네임을 입력해주세요."` | not executed | AuthRoutes.CheckNicknameSendsDetail | AuthRoutes.CheckNicknameFixed |
