# Family feed: verified model of the feed data layer

This project models the server core of a small family feed app in Dafny. Users sign in with Firebase, then write posts (typed or transcribed from voice), comment on them and like them.

The model covers these parts:

- **The four Postgres tables** and their key constraints: users, posts, comments and likes (`Schema`).
  - Primary keys are unique.
  - A non-null email is unique.
  - Likes are keyed by `(userId, postId)`.
  - Every foreign key resolves.
- **The read queries** of the storage layer (`Queries`):
  - the newest-first post lists, with a comment count and a like count per post;
  - the oldest-first comment list;
  - the lookups by id.
- **The write operations** of `DatabaseStorage` (`Storage`). The class holds the tables as sequences, and a method changes them in place. Each method's postcondition ties the new tables to a pure function of the old ones, and the properties are proved as lemmas about those functions. The operations are:
  - upsert user;
  - create, update and delete post (the delete cascades over comments and likes);
  - create comment;
  - like and unlike.
- **The HTTP handlers** for posts, comments and likes (`Routes`):
  - the order of checks: 401, then a bad id, then 404, then 403;
  - the caller's uid overrides any `userId` sent in the body;
  - like and unlike always report success;
  - storage errors become 500.
- **The Firebase middleware** (`FirebaseAuth`):
  - bearer header parsing;
  - construction of the request user;
  - splitting the display name into first and last name;
  - syncing the user row, with its `''` defaults and swallowed errors;
  - the verify-token endpoint.
- **The client helpers** (`Utils`, `Recording`):
  - the user's full name, text truncation and the branch of the count formatting;
  - the `m:ss` duration display;
  - the recording hook's state machine.

Supporting modules are `Wrappers` (Option and JavaScript truthiness), `Decimal` (integer-to-decimal text and back, `padStart`) and `Sequences` (`Filter`, a stable insertion sort, uniqueness by key).

Modelling choices:

- **Request bodies.** A JSON key of a request body is a `Field`: `Absent` (key missing), `Null`, or `Present(v)`. This distinction decides whether Postgres uses a column default, stores NULL (or rejects NULL), or stores a value.
- **Database errors.** A database error is a `DbError`: NOT NULL, unique or foreign key.
- **Timestamps.** They come from an abstract clock that every timestamped write advances.
- **Serials.**
  - The posts serial is consumed only when the body carries no `id`. It is consumed even when the insert then fails.
  - The comments serial is consumed on every insert.
- **Faithful oddities.** The model keeps these behaviours of the code as they are:
  - A PUT body is applied as the patch unfiltered. A patch can therefore move a post to another owner (`Storage.OwnerNotImmutable`).
  - The middleware stores a missing email as `''`. Email is unique, so a second user without an email fails to sync, and the failure is swallowed (`FirebaseAuth.MissingEmailCollision`, `FirebaseAuth.SecondUserWithoutEmail`).
  - A recorder stop event that arrives after a cancel re-populates the audio (`Recording.CancelThenStopEvent`).
  - `createComment` accepts an empty comment text: only a missing or null `content` is rejected (the NOT NULL column).

## Model

| member | source | states |
|---|---|---|
| Schema.InsertPost.AsBody | shared/schema.ts:112-117 | the post insert schema carries no id and no userId; the content is passed through |
| Queries.GetUser | server/storage.ts:49-52 | a user is found iff its id is in the table, and the found row has that id |
| Queries.GetPostById | server/storage.ts:166-169 | a post is found iff its id is in the table, and the found row has that id |
| Queries.PostsOf | server/storage.ts:118-125 | the posts kept are exactly the table's posts whose userId matches |
| Queries.CommentsOf | server/storage.ts:200-205 | the comments kept are exactly those whose postId matches |
| Queries.LikesOf | server/storage.ts:95-102 | the likes kept are exactly those whose postId matches |
| Queries.CheckIfUserLikedPost | server/storage.ts:230-236 | the answer is true iff some like row has both that userId and that postId |
| Queries.GroupCountCounts | server/storage.ts:106-113 | the grouped count map gives each key its number of occurrences; a key is in the map iff it occurs, and a missing key reads as 0 |
| Queries.CommentKeysCount | server/storage.ts:86-93 | the grouped count for a listed post id equals the number of comment rows on that post |
| Queries.LikeKeysCount | server/storage.ts:95-102 | the grouped count for a listed post id equals the number of like rows on that post |
| Queries.PostIdList | server/storage.ts:79 | the id list has one entry per post and names exactly the ids of the found posts |
| Queries.WithUserAndCounts | server/storage.ts:109-115 | one view per found post |
| Queries.ViewsOfFound | server/storage.ts:109-115 | each view holds the found post, its author looked up by userId, and its comment and like counts |
| Queries.NewestFirstViews | server/storage.ts:75 | views built over posts sorted newest first keep that order and carry each post's author and counts |
| Queries.GetAllPosts | server/storage.ts:70-116 | one view per stored post; its ordering, authors and counts are stated by GetAllPostsCorrect |
| Queries.GetPostsByUserId | server/storage.ts:118-164 | one view per post of that user; the rest is stated by GetPostsByUserIdCorrect |
| Queries.GetCommentsByPostId | server/storage.ts:200-208 | one view per comment on that post; the rest is stated by GetCommentsByPostIdCorrect |
| Queries.GetAllPostsCorrect | server/storage.ts:70-116 | getAllPosts returns every post exactly once (a permutation), newest first, each with its author and exact comment and like counts |
| Queries.GetPostsByUserIdCorrect | server/storage.ts:118-164 | getPostsByUserId returns exactly the user's posts, each once, newest first, with the user and exact counts |
| Queries.OwnViews | server/storage.ts:118-125 | views that permute one user's posts hold exactly that user's posts, each paired with that user |
| Queries.GetCommentsByPostIdCorrect | server/storage.ts:200-208 | getCommentsByPostId returns exactly the post's comments, each once, oldest first, each with its author |
| Queries.AllPostsHaveAuthors | shared/schema.ts:48 | when the foreign keys hold, every listed post has an author row whose id is the post's userId |
| Queries.ViewsHaveAuthors | shared/schema.ts:48 | views of the stored posts, each with the author looked up by userId, all have their author when the foreign keys hold |
| Queries.CommentsHaveAuthors | shared/schema.ts:71 | when the foreign keys hold, every listed comment has an author row whose id is the comment's userId |
| Storage.UpsertRows | server/storage.ts:54-67 | the only failure is a unique violation; on success the id is in the table, which grew by at most one row |
| Storage.UpsertUserSpec | server/storage.ts:54-67 | the upsert fails iff another user holds the email; otherwise exactly one row has the id, the ids stay unique, the row is either inserted or refreshed with the new fields and a new updatedAt (createdAt kept), and other users are unchanged |
| Storage.UpsertInsertCase | server/storage.ts:56-57 | with no row for the id, appending the new user keeps ids and emails unique, adds exactly the id, and leaves other users as they were |
| Storage.UpsertRefreshCase | server/storage.ts:58-65 | on an id conflict, refreshing that row keeps ids and emails unique, and the refreshed row is what a lookup of the id returns |
| Storage.RefreshKeepsIds | server/storage.ts:58-65 | refreshing a row without changing its id keeps the id set, its uniqueness, and every other user |
| Storage.RefreshKeepsEmails | shared/schema.ts:32 | refreshing a row with an email no other user holds keeps non-null emails unique |
| Storage.UpsertKeepsConstraints | shared/schema.ts:30-38 | a successful upsert preserves every table constraint |
| Storage.UpsertTwice | server/storage.ts:54-67 | repeating the same upsert succeeds and changes only that row's updatedAt |
| Storage.GetUserOfUnique | server/storage.ts:49-52 | with unique ids, looking up a stored row's id returns that row |
| Storage.UniqueEmailsAppend | shared/schema.ts:32 | appending a user whose non-null email is new keeps emails unique |
| Storage.UniqueEmailsReplace | shared/schema.ts:32 | replacing a row by one whose non-null email no other row holds keeps emails unique |
| Storage.NewPostRow | server/storage.ts:171-174 | an inserted post has a fresh id (the serial when none is given) and an existing author, takes userId and content from the body, and defaults isVoiceTranscription to false |
| Storage.CreatePostSpec | shared/schema.ts:46-57 | the insert succeeds iff userId and content are present and non-null, the id is free and the author exists; the appended table keeps every constraint |
| Storage.PatchedFields | server/storage.ts:176-186 | the patch overwrites exactly the fields present in the body (null clears a nullable field), keeps createdAt, and sets updatedAt to now |
| Storage.GetPostOfUnique | server/storage.ts:166-169 | with unique ids, looking up a stored post's id returns that post |
| Storage.ReferencesSurviveReplace | shared/schema.ts:72 | replacing a post keeps every comment and like reference valid when the id is kept or the old id is unreferenced |
| Storage.UpdateRows | server/storage.ts:176-186 | on success the table keeps its length; with no row returned it is unchanged, and a returned row is in the new table |
| Storage.UpdatePostSpec | server/storage.ts:176-186 | a missing post gives no row and no change; a null required field is a NOT NULL error; on success only the row with that id becomes the patched row, and all constraints hold |
| Storage.UpdateKeepsConsistent | server/storage.ts:176-186 | a successful update keeps every constraint and the comment serial invariant |
| Storage.OwnerNotImmutable | server/storage.ts:179-182 | a patch carrying userId moves a post to another owner |
| Storage.DeletedTables | server/storage.ts:188-197 | users are unchanged, and no post, comment or like with that post id is left |
| Storage.DeleteCommentsKeepsConsistent | server/storage.ts:190 | deleting a post's comments keeps every constraint and the comment serial invariant |
| Storage.DeleteLikesKeepsConsistent | server/storage.ts:193 | deleting a post's likes keeps every constraint and the comment serial invariant |
| Storage.DeletePostRowKeepsConsistent | shared/schema.ts:71-72 | deleting a post that no comment or like refers to keeps every constraint |
| Storage.CascadeUnreferences | server/storage.ts:190-193 | once its comments and likes are deleted, no row refers to the post |
| Storage.DeletePostCascade | server/storage.ts:188-197 | after the delete no post, comment or like has the id; every other row is kept, and the comments and likes of other posts are unchanged |
| Storage.DeletePostKeepsConstraints | server/storage.ts:188-197 | the cascade delete preserves every constraint and the comment serial invariant |
| Storage.NewCommentRow | server/storage.ts:210-213 | an inserted comment takes the serial as id, the clock as createdAt, and the author, post and content from the request |
| Storage.CreateCommentSpec | shared/schema.ts:69-76 | the insert succeeds iff content is non-null, and author and post exist (an empty text is accepted); the new comment is listed under its post and all constraints are kept |
| Storage.LikeRows | server/storage.ts:216-222 | the only failure is a foreign key violation; on success the pair is liked and every earlier like is kept |
| Storage.UnlikeRows | server/storage.ts:224-228 | afterwards the pair is not liked, and every other like is kept or absent exactly as before |
| Storage.LikePostSpec | server/storage.ts:216-222 | the like fails iff the pair is not yet liked and the user or post is missing; an existing like gives back the table unchanged; on success the pair is liked with exactly one row, other counts are unchanged, liking again changes nothing, and constraints hold |
| Storage.UnlikePostSpec | server/storage.ts:224-228 | afterwards the pair is not liked; exactly its row is removed (a no-op when absent), other likes are kept, and constraints hold |
| Storage.DatabaseStorage.constructor | shared/schema.ts:30-95 | the tables start empty, both serials start at 1, and all constraints hold |
| Storage.DatabaseStorage.UpsertUser | server/storage.ts:54-67 | the users table becomes the upsert result (unchanged on error); the other tables and the serials are unchanged |
| Storage.DatabaseStorage.CreatePost | server/storage.ts:171-174 | the new post is appended on success; the posts serial advances only when no id was given; the other tables are unchanged |
| Storage.DatabaseStorage.UpdatePost | server/storage.ts:176-186 | the posts table becomes the update result and the updated row is returned; the other tables are unchanged |
| Storage.DatabaseStorage.DeletePost | server/storage.ts:188-197 | the tables become the cascade-deleted tables and the invariant is kept; the final row delete never hits a foreign key |
| Storage.DatabaseStorage.DeleteCommentsOn | server/storage.ts:190 | the comments table loses exactly the rows on that post, the invariant is kept, and nothing else changes |
| Storage.DatabaseStorage.DeleteLikesOn | server/storage.ts:193 | the likes table loses exactly the rows on that post, the invariant is kept, and nothing else changes |
| Storage.DatabaseStorage.DeletePostRow | server/storage.ts:196 | a foreign key violation, with nothing changed, iff a comment or like still refers to the post; otherwise the posts table loses exactly that row; the invariant is kept |
| Storage.DatabaseStorage.CreateComment | server/storage.ts:210-213 | the new comment is appended on success; the comment serial always advances; the other tables are unchanged |
| Storage.DatabaseStorage.LikePost | server/storage.ts:216-222 | the like is checked and then inserted as the pure like step says; the other tables are unchanged |
| Storage.DatabaseStorage.UnlikePost | server/storage.ts:224-228 | the likes table becomes the unlike result; the other tables are unchanged |
| FirebaseAuth.IndexOf | server/firebaseAuth.ts:44 | the result is the first occurrence of the separator at or after the start, or none |
| FirebaseAuth.SecondPiece | server/firebaseAuth.ts:44 | the header starts with "Bearer " followed by the extracted piece |
| FirebaseAuth.ParseAuthorization | server/firebaseAuth.ts:38-48 | an accepted token is non-empty and the header is "Bearer " followed by it |
| FirebaseAuth.HeaderRejections | server/firebaseAuth.ts:40-48 | a missing header or one without the prefix gives "no token", and the bare prefix gives "invalid format" |
| FirebaseAuth.BearerToken | server/firebaseAuth.ts:44 | "Bearer " followed by a token gives that token |
| FirebaseAuth.BearerTokenCut | server/firebaseAuth.ts:44 | the token stops at a second "Bearer " |
| FirebaseAuth.SplitOnSpace | server/firebaseAuth.ts:91-92 | splitting on spaces gives at least one piece, and no piece contains a space |
| FirebaseAuth.JoinSplit | server/firebaseAuth.ts:91-92 | joining the pieces with spaces gives back the name |
| FirebaseAuth.SplitPieces | server/firebaseAuth.ts:91-92 | there is more than one piece iff the name contains a space |
| FirebaseAuth.FirstName | server/firebaseAuth.ts:91 | the first name contains no space, and is the whole name when the name has none |
| FirebaseAuth.LastName | server/firebaseAuth.ts:92 | the last name is empty when the name has no space |
| FirebaseAuth.NameSplit | server/firebaseAuth.ts:91-92 | the first name has no space; first + " " + last is the name when it has a space; otherwise the last name is empty |
| FirebaseAuth.SyncData | server/firebaseAuth.ts:88-94 | the row's id is the token's uid and no column of the row is left undefined or null |
| FirebaseAuth.SyncDataDefaults | server/firebaseAuth.ts:88-94 | the synced row has the uid; a missing email, picture or name becomes ""; a name with a space splits back into itself |
| FirebaseAuth.MissingEmailCollision | server/firebaseAuth.ts:90 | a user without an email fails to sync when another user already holds "" |
| FirebaseAuth.SecondUserWithoutEmail | server/firebaseAuth.ts:85-98 | of two new users without an email, the second sync fails and leaves that user with no row |
| FirebaseAuth.SyncFirebaseUser | server/firebaseAuth.ts:85-98 | the users table becomes the upsert result, or stays unchanged when it fails; the error never escapes |
| FirebaseAuth.RequestUser | server/firebaseAuth.ts:54-69 | the request user's uid and claims.sub both equal the decoded uid |
| FirebaseAuth.IsAuthenticated | server/firebaseAuth.ts:32-79 | each failure gives 401 with its own message and no storage change; the call proceeds iff the token is well formed and verifies; on proceeding, the user is built from the token and the sync is applied |
| FirebaseAuth.VerifyTokenEndpoint | server/firebaseAuth.ts:115-137 | no token gives 400; a bad token gives 401 with authenticated false; otherwise 200 with authenticated true and the uid |
| Routes.OwnerGuard | server/routes.ts:77-95 | no caller gives 401, a non-numeric id 500, a missing post 404, a non-owner 403, in that order; proceeding implies the post exists |
| Routes.GuardAdmitsOnlyOwner | server/routes.ts:84-95 | the guard lets the request through iff the caller is present and owns the post |
| Routes.GetPostsRoute | server/routes.ts:38-46 | 200 with every post exactly once |
| Routes.GetUserPostsRoute | server/routes.ts:48-57 | 200 with exactly that user's posts |
| Routes.WithCaller | server/routes.ts:66-69 | the stored userId is the caller's, whatever the body sent |
| Routes.CreatePostRoute | server/routes.ts:59-75 | no caller gives 401 and no change; otherwise 201 with the inserted post or 500; a created post belongs to the caller |
| Routes.UpdatePostRoute | server/routes.ts:77-102 | a denying guard leaves storage untouched; otherwise the body is the patch, giving 200 or 500 |
| Routes.DeletePostRoute | server/routes.ts:104-128 | a denying guard leaves storage untouched; otherwise the cascade delete and 204 |
| Routes.GetCommentsRoute | server/routes.ts:131-140 | a non-numeric id gives 500; otherwise 200 with the post's comments |
| Routes.CreateCommentRoute | server/routes.ts:142-161 | no caller gives 401; otherwise the author is the caller, the post comes from the URL and the content from the body, with no existence pre-check; 201 or 500 |
| Routes.LikeRoute | server/routes.ts:164-179 | no caller gives 401; otherwise 201 whether or not the post was liked, or 500 on a storage error |
| Routes.UnlikeRoute | server/routes.ts:181-196 | no caller gives 401; otherwise 204 even when there was no like |
| Routes.AuthUserRoute | server/routes.ts:22-35 | no caller gives 401; otherwise 200 with the caller's row, which is absent iff the caller has no user row |
| Routes.TranscribeRoute | server/routes.ts:199-219 | no file gives 400 before any transcription; a failed transcription gives 500 |
| Routes.UnsyncedCallerCannotPost | server/routes.ts:59-75 | a caller with no user row cannot create a post (foreign key) |
| Utils.GetUserFullName | client/src/lib/utils.ts:35-46 | "first last" when both are non-empty, either alone when only one is, "Anonymous User" otherwise; never empty |
| Utils.TruncateText | client/src/lib/utils.ts:48-53 | unchanged when short enough; otherwise the first maxLength characters plus "...", of length maxLength + 3 |
| Utils.TruncateTextIdempotent | client/src/lib/utils.ts:48-53 | for a non-negative maxLength, truncating twice equals truncating once |
| Utils.FormatCount | client/src/lib/utils.ts:56-66 | the count is shown as plain text iff it is below 1000, and that text is the count's decimal form (also for 0); a scaled label keeps the count and a divisor no larger than it |
| Utils.FormatCountSmall | client/src/lib/utils.ts:57-60 | below 1000, the count is shown as its decimal digits (0 as "0"), which read back as the count |
| Utils.FormatCountScaled | client/src/lib/utils.ts:61-65 | from 1000, the suffix is "k" below a million and "m" from a million, with the matching divisor |
| Decimal.IntToString | client/src/lib/utils.ts:60 | the text is non-empty, starts with '-' iff the number is negative, and its digits read back as the number's magnitude |
| Recording.JsRemainder | client/src/hooks/useRecording.ts:162 | JavaScript's `%` differs from the dividend by a multiple of the divisor, has the dividend's sign and a smaller magnitude; it is Euclidean for a non-negative dividend |
| Recording.FormatDuration | client/src/hooks/useRecording.ts:160-164 | the display has at least four characters and starts with '-' iff the duration is negative |
| Recording.FormatDurationParts | client/src/hooks/useRecording.ts:160-164 | the display is the minutes, ":", then two digits of seconds below 60, and minutes * 60 + seconds is the input |
| Recording.FormatDurationShape | client/src/hooks/useRecording.ts:160-164 | a non-negative duration is shown as the minutes' digits, ":", and the seconds padded to two digits |
| Recording.ShapeRoundTrip | client/src/hooks/useRecording.ts:160-164 | minutes, ":" and seconds below 60 padded to two digits read back as minutes * 60 + seconds |
| Recording.FormatDurationRoundTrip | client/src/hooks/useRecording.ts:160-164 | parsing the display of a non-negative duration gives the duration back |
| Recording.PaddedSeconds | client/src/hooks/useRecording.ts:163 | seconds below 60 padded to two digits are two characters that read back as the seconds |
| Recording.RecordingHook.constructor | client/src/hooks/useRecording.ts:14-25 | the hook starts with the cleared state, no recorder, no chunks and no timer |
| Recording.RecordingHook.StartRecording | client/src/hooks/useRecording.ts:27-79 | a denied microphone changes nothing; otherwise the recorder is active, the timer runs, the chunks are empty, and the state is recording with duration 0 and no audio |
| Recording.RecordingHook.OnDataAvailable | client/src/hooks/useRecording.ts:35-39 | only chunks of non-zero size are appended |
| Recording.RecordingHook.Tick | client/src/hooks/useRecording.ts:59-62 | a running timer sets the duration; otherwise the state is unchanged |
| Recording.RecordingHook.OnStop | client/src/hooks/useRecording.ts:41-54 | recording stops, and the blob of the chunks and the URL are stored; the duration is kept |
| Recording.RecordingHook.StopRecording | client/src/hooks/useRecording.ts:81-90 | an inactive or missing recorder changes nothing; otherwise the recorder stops and the timer is cleared |
| Recording.RecordingHook.CancelRecording | client/src/hooks/useRecording.ts:92-110 | an inactive or missing recorder changes nothing; otherwise everything returns to the cleared state |
| Recording.RecordingHook.ResetRecording | client/src/hooks/useRecording.ts:112-124 | the state always returns to the cleared record |
| Recording.CancelThenStopEvent | client/src/hooks/useRecording.ts:41-54 | a stop event delivered after a cancel leaves the state not recording, with duration 0, but with an (empty) blob and a URL |
| Sequences.SortBy | server/storage.ts:75 | the sort result is ordered by the key and is a permutation of the input |
| Sequences.Filter | server/storage.ts:205 | the filter keeps exactly the elements that satisfy the condition |
| Sequences.FilterCounts | server/storage.ts:205 | each kept element keeps its multiplicity, and a dropped one has none |

## Left out

- `formatDate` (client/src/lib/utils.ts:9-33) depends on the current time and on date-fns, so it is not modelled.
- Utils.TruncateText: lengths and slices count Unicode characters, while JavaScript's `length` and `slice` count UTF-16 code units. Text with characters outside the Basic Multilingual Plane (emoji) is therefore cut at a different place: two emoji with maxLength 3 have length 4 in JavaScript and are cut, but length 2 in the model and are kept. The model agrees with the source on text that uses only the Basic Multilingual Plane.
- Storage.UpsertRows: the upsert body's fields are `Option`s, so the model covers only bodies whose keys are all present (a value or null). On an id conflict Drizzle leaves a column alone when its key is undefined, but writes NULL when it is null; the model cannot express the undefined case. The one caller, `syncFirebaseUser`, always passes every field as a string (FirebaseAuth.SyncData).
- Utils.FormatCountScaled: states the branch, the suffix and the divisor, but not the digits of `toFixed(1)` and the `.0` removal. Those use floating-point division.
- Timestamps are an abstract counter. `createdAt` and `updatedAt` values supplied in a request body are ignored; the model always uses the column default or the clock.
- Integer widths are not modelled: Postgres `serial`/`integer` are 32-bit, but the model's ids are unbounded.
- Routes: the `parseInt` of a URL id is reduced to "a number or NaN" (`Option<int>`). NaN reaches storage as an invalid parameter and is modelled as a 500. Partial parses such as `"12abc"` are not distinguished.
- Concurrency is not modelled. The check-then-insert in `likePost` and the three-statement delete run as single sequential steps. The racing duplicate like that would hit the primary key is left out.
- The SQL text that joins ids into `IN (...)` is modelled as a filter over the rows.
- Firebase token verification is a function parameter: a trusted oracle that returns the decoded token or fails. Its cryptography is not modelled.
- The speech-to-text call in server/openai.ts is an oracle parameter of `Routes.TranscribeRoute`.
- Routes.GetPostsRoute and Routes.GetUserPostsRoute: Postgres leaves the order of posts with equal `createdAt` unspecified. The model uses a stable sort and claims only ordering and permutation.
- MediaRecorder, getUserMedia, Blob and object URLs are reduced to an active/inactive recorder, byte chunks and a URL string passed in. Timers are a running flag plus `Tick`.
- Recording.RecordingHook.StartRecording: a second start while recording leaks the first interval timer in the source; the model keeps a single timer flag and does not capture the leak.
- `/api/auth/status`, `/api/logout`, the session table and `server/db.ts` are plumbing outside the feed logic and are not modelled.
- Routes.UpdatePostRoute: when the post disappears between the check and the update, the source answers with an undefined JSON body. The model returns the `Option` row as is.
- An upsert whose email is held by another row fails with a unique violation and changes nothing; database failures other than constraint violations (connection loss, timeouts) are not modelled.
- The React pages and components, the client auth and fetch wrappers, and the transcription on the client are user interface, not part of this model.
