/**
 * The handlers of server/routes.ts behind `isAuthenticated`: the caller is the
 * uid the middleware put on `req.user` (absent or "" when it is missing), a
 * path id is the result of `parseInt` (None for NaN), and the storage is a
 * `DatabaseStorage`. A statement the database rejects, and a NaN id reaching
 * the database, become the handler's 500 answer.
 */
module Routes {
  import opened Wrappers
  import opened Schema
  import opened Storage
  import opened Queries

  /** The JSON body of a response. */
  datatype Payload =
    | Message(text: string)
    | PostJson(post: Post)
    | UpdatedJson(updated: Option<Post>)
    | CommentJson(comment: Comment)
    | PostsJson(posts: seq<PostWithUser>)
    | CommentsJson(comments: seq<CommentWithUser>)
    | UserJson(user: Option<User>)
    | TranscriptJson(text: string)
    | NoContent

  datatype Response = Response(status: int, body: Payload)

  const Unauthorized: Response := Response(401, Message("User ID not found"))

  /** The two owner-only operations on `/api/posts/:id`. */
  datatype PostAction = Edit | Delete

  function FailureMessage(a: PostAction): string {
    match a
    case Edit => "Failed to update post"
    case Delete => "Failed to delete post"
  }

  function ForbiddenMessage(a: PostAction): string {
    match a
    case Edit => "You can only edit your own posts"
    case Delete => "You can only delete your own posts"
  }

  /** A guard's verdict: go on to storage, or answer with this response. */
  datatype Guard = Proceed | Deny(response: Response)

  /**
   * The checks PUT and DELETE `/api/posts/:id` make before they write, in
   * their order: no caller gives 401, a NaN id fails in the lookup (500), an
   * absent post gives 404 and another user's post 403.
   */
  function OwnerGuard(a: PostAction, caller: Option<string>, id: Option<int>, posts: seq<Post>): (g: Guard)
    ensures !Truthy(caller) ==> g == Deny(Unauthorized)
    ensures Truthy(caller) && id.None? ==> g == Deny(Response(500, Message(FailureMessage(a))))
    ensures Truthy(caller) && id.Some? && id.value !in PostIds(posts) ==>
              g == Deny(Response(404, Message("Post not found")))
    ensures Truthy(caller) && id.Some? && id.value in PostIds(posts) &&
            GetPostById(posts, id.value).value.userId != caller.value ==>
              g == Deny(Response(403, Message(ForbiddenMessage(a))))
    ensures g == Proceed ==> Truthy(caller) && id.Some? && id.value in PostIds(posts)
  {
    if !Truthy(caller) then Deny(Unauthorized)
    else if id.None? then Deny(Response(500, Message(FailureMessage(a))))
    else match GetPostById(posts, id.value)
      case None => Deny(Response(404, Message("Post not found")))
      case Some(post) =>
        if post.userId != caller.value then Deny(Response(403, Message(ForbiddenMessage(a))))
        else Proceed
  }

  /**
   * With unique post ids the guard lets through exactly the caller who owns
   * the post, whichever operation it guards.
   */
  lemma GuardAdmitsOnlyOwner(a: PostAction, caller: Option<string>, id: Option<int>, posts: seq<Post>)
    requires UniquePostIds(posts)
    ensures OwnerGuard(a, caller, id, posts) == Proceed <==>
              Truthy(caller) && id.Some? &&
              exists p | p in posts :: p.id == id.value && p.userId == caller.value
  {
    if Truthy(caller) && id.Some? {
      if p :| p in posts && p.id == id.value && p.userId == caller.value {
        var i :| 0 <= i < |posts| && posts[i] == p;
        GetPostOfUnique(posts, i);
      }
    }
  }

  // ---------------------------------------------------------------- posts

  /** `GET /api/posts`. */
  function GetPostsRoute(t: Tables): (res: Response)
    ensures res.status == 200 && res.body.PostsJson?
    ensures multiset(PostsIn(res.body.posts)) == multiset(t.posts)
  {
    GetAllPostsCorrect(t);
    Response(200, PostsJson(GetAllPosts(t)))
  }

  /** `GET /api/posts/user/:userId`. */
  function GetUserPostsRoute(t: Tables, userId: string): (res: Response)
    ensures res.status == 200 && res.body.PostsJson?
    ensures forall p :: p in PostsIn(res.body.posts) <==> p in t.posts && p.userId == userId
  {
    GetPostsByUserIdCorrect(t, userId);
    Response(200, PostsJson(GetPostsByUserId(t, userId)))
  }

  /** `{ ...req.body, userId }`: the caller's uid replaces any `userId` in the body. */
  function WithCaller(body: PostBody, uid: string): (b: PostBody)
    ensures b.userId == Present(uid)
  {
    body.(userId := Present(uid))
  }

  /**
   * `POST /api/posts`: 401 without a caller and storage untouched; otherwise
   * the body is inserted with the caller as author, answering 201 with the new
   * row, or 500 when the database rejects it.
   */
  method CreatePostRoute(db: DatabaseStorage, caller: Option<string>, body: PostBody) returns (res: Response)
    requires db.Valid()
    modifies db
    ensures db.Valid()
    ensures !Truthy(caller) ==> res == Unauthorized && unchanged(db)
    ensures Truthy(caller) ==>
      var spec := NewPostRow(old(db.Snapshot()), WithCaller(body, caller.value), old(db.postIdSeq), old(db.clock));
      && db.posts == (if spec.Ok? then old(db.posts) + [spec.value] else old(db.posts))
      && (spec.Ok? ==> res == Response(201, PostJson(spec.value)))
      && (spec.Err? ==> res == Response(500, Message("Failed to create post")))
    ensures res.status == 201 ==> res.body.PostJson? && res.body.post.userId == caller.value
    ensures db.users == old(db.users) && db.comments == old(db.comments) && db.likes == old(db.likes)
  {
    if !Truthy(caller) {
      return Unauthorized;
    }
    var r := db.CreatePost(WithCaller(body, caller.value));
    match r
    case Ok(post) => res := Response(201, PostJson(post));
    case Err(_) => res := Response(500, Message("Failed to create post"));
  }

  /**
   * `PUT /api/posts/:id`: the guard's answer with storage untouched, or the
   * body applied as the patch (200 with the returned row, 500 when the
   * database rejects it).
   */
  method UpdatePostRoute(db: DatabaseStorage, caller: Option<string>, id: Option<int>, body: PostBody)
    returns (res: Response)
    requires db.Valid()
    modifies db
    ensures db.Valid()
    ensures var g := OwnerGuard(Edit, caller, id, old(db.posts));
      && (g.Deny? ==> res == g.response && unchanged(db))
      && (g == Proceed ==>
            var spec := UpdateRows(old(db.Snapshot()), id.value, body, old(db.clock));
            && (spec.Ok? ==> res == Response(200, UpdatedJson(spec.value.1)) && db.posts == spec.value.0)
            && (spec.Err? ==> res == Response(500, Message("Failed to update post")) && db.posts == old(db.posts)))
    ensures db.users == old(db.users) && db.comments == old(db.comments) && db.likes == old(db.likes)
  {
    var g := OwnerGuard(Edit, caller, id, db.posts);
    if g.Deny? {
      return g.response;
    }
    var r := db.UpdatePost(id.value, body);
    match r
    case Ok(updated) => res := Response(200, UpdatedJson(updated));
    case Err(_) => res := Response(500, Message("Failed to update post"));
  }

  /**
   * `DELETE /api/posts/:id`: the guard's answer with storage untouched, or the
   * cascade delete and 204.
   */
  method DeletePostRoute(db: DatabaseStorage, caller: Option<string>, id: Option<int>) returns (res: Response)
    requires db.Valid()
    modifies db
    ensures db.Valid()
    ensures var g := OwnerGuard(Delete, caller, id, old(db.posts));
      && (g.Deny? ==> res == g.response && unchanged(db))
      && (g == Proceed ==>
            res == Response(204, NoContent) && db.Snapshot() == DeletedTables(old(db.Snapshot()), id.value))
  {
    var g := OwnerGuard(Delete, caller, id, db.posts);
    if g.Deny? {
      return g.response;
    }
    db.DeletePost(id.value);
    res := Response(204, NoContent);
  }

  // ---------------------------------------------------------------- comments

  /** `GET /api/posts/:postId/comments`: 500 for a NaN id, else the comments of that post. */
  function GetCommentsRoute(t: Tables, postId: Option<int>): (res: Response)
    ensures postId.None? ==> res == Response(500, Message("Failed to fetch comments"))
    ensures postId.Some? ==>
              && res.status == 200 && res.body.CommentsJson?
              && forall c :: c in CommentsIn(res.body.comments) <==> c in t.comments && c.postId == postId.value
  {
    if postId.None? then Response(500, Message("Failed to fetch comments"))
    else
      GetCommentsByPostIdCorrect(t, postId.value);
      Response(200, CommentsJson(GetCommentsByPostId(t, postId.value)))
  }

  /**
   * `POST /api/posts/:postId/comments`: author from the caller, post from the
   * path, content from the body; no ownership or existence check before the
   * insert, so a missing post or content is the database's 500.
   */
  method CreateCommentRoute(db: DatabaseStorage, caller: Option<string>, postId: Option<int>, content: Field<string>)
    returns (res: Response)
    requires db.Valid()
    modifies db
    ensures db.Valid()
    ensures !Truthy(caller) ==> res == Unauthorized && unchanged(db)
    ensures Truthy(caller) && postId.None? ==> res == Response(500, Message("Failed to create comment")) && unchanged(db)
    ensures Truthy(caller) && postId.Some? ==>
      var spec := NewCommentRow(old(db.Snapshot()), NewComment(content, caller.value, postId.value),
                                old(db.commentIdSeq), old(db.clock));
      && db.comments == (if spec.Ok? then old(db.comments) + [spec.value] else old(db.comments))
      && (spec.Ok? ==> res == Response(201, CommentJson(spec.value)))
      && (spec.Err? ==> res == Response(500, Message("Failed to create comment")))
    ensures res.status == 201 ==>
      && res.body.CommentJson?
      && res.body.comment.userId == caller.value && res.body.comment.postId == postId.value
      && content == Present(res.body.comment.content)
    ensures db.users == old(db.users) && db.posts == old(db.posts) && db.likes == old(db.likes)
  {
    if !Truthy(caller) {
      return Unauthorized;
    }
    if postId.None? {
      return Response(500, Message("Failed to create comment"));
    }
    var r := db.CreateComment(NewComment(content, caller.value, postId.value));
    match r
    case Ok(comment) => res := Response(201, CommentJson(comment));
    case Err(_) => res := Response(500, Message("Failed to create comment"));
  }

  // ---------------------------------------------------------------- likes

  /**
   * `POST /api/posts/:postId/like`: 201 whether or not the post was liked
   * already (a repeated like changes nothing); 500 only when the database
   * rejects a new like row or the id is NaN.
   */
  method LikeRoute(db: DatabaseStorage, caller: Option<string>, postId: Option<int>) returns (res: Response)
    requires db.Valid()
    modifies db
    ensures db.Valid()
    ensures !Truthy(caller) ==> res == Unauthorized && unchanged(db)
    ensures Truthy(caller) && postId.None? ==> res == Response(500, Message("Failed to like post")) && unchanged(db)
    ensures Truthy(caller) && postId.Some? ==>
      var spec := LikeRows(old(db.Snapshot()), caller.value, postId.value);
      && (spec.Ok? ==> res == Response(201, Message("Post liked successfully")) && db.likes == spec.value)
      && (spec.Err? ==> res == Response(500, Message("Failed to like post")) && db.likes == old(db.likes))
    ensures Truthy(caller) && postId.Some? && CheckIfUserLikedPost(old(db.likes), caller.value, postId.value) ==>
      res.status == 201 && db.likes == old(db.likes)
    ensures db.users == old(db.users) && db.posts == old(db.posts) && db.comments == old(db.comments)
  {
    if !Truthy(caller) {
      return Unauthorized;
    }
    if postId.None? {
      return Response(500, Message("Failed to like post"));
    }
    var r := db.LikePost(caller.value, postId.value);
    if r.Ok? {
      res := Response(201, Message("Post liked successfully"));
    } else {
      res := Response(500, Message("Failed to like post"));
    }
  }

  /** `DELETE /api/posts/:postId/like`: 204 whether or not a like row existed. */
  method UnlikeRoute(db: DatabaseStorage, caller: Option<string>, postId: Option<int>) returns (res: Response)
    requires db.Valid()
    modifies db
    ensures db.Valid()
    ensures !Truthy(caller) ==> res == Unauthorized && unchanged(db)
    ensures Truthy(caller) && postId.None? ==> res == Response(500, Message("Failed to unlike post")) && unchanged(db)
    ensures Truthy(caller) && postId.Some? ==>
      res == Response(204, NoContent) && db.likes == UnlikeRows(old(db.likes), caller.value, postId.value)
    ensures db.users == old(db.users) && db.posts == old(db.posts) && db.comments == old(db.comments)
  {
    if !Truthy(caller) {
      return Unauthorized;
    }
    if postId.None? {
      return Response(500, Message("Failed to unlike post"));
    }
    db.UnlikePost(caller.value, postId.value);
    res := Response(204, NoContent);
  }

  // ---------------------------------------------------------------- the rest

  /** `GET /api/auth/user`: 401 without a caller, else the caller's row (none if it was never synced). */
  function AuthUserRoute(t: Tables, caller: Option<string>): (res: Response)
    ensures !Truthy(caller) ==> res == Unauthorized
    ensures Truthy(caller) ==>
              && res.status == 200 && res.body.UserJson?
              && (res.body.user.Some? <==> caller.value in UserIds(t.users))
              && (res.body.user.Some? ==> res.body.user.value.id == caller.value)
  {
    if !Truthy(caller) then Unauthorized
    else Response(200, UserJson(GetUser(t.users, caller.value)))
  }

  /** The uploaded audio file. */
  datatype AudioFile = AudioFile(buffer: seq<bv8>, originalName: string)

  /**
   * `POST /api/transcribe`: 400 without a file, before any transcription;
   * otherwise the text from the speech-to-text oracle, or 500 when it fails.
   */
  function TranscribeRoute(file: Option<AudioFile>, language: Option<string>,
                           transcribe: (AudioFile, Option<string>) -> Option<string>): (res: Response)
    ensures file.None? ==> res == Response(400, Message("No audio file provided"))
    ensures file.Some? && transcribe(file.value, language).Some? ==>
              res == Response(200, TranscriptJson(transcribe(file.value, language).value))
    ensures file.Some? && transcribe(file.value, language).None? ==> res.status == 500
  {
    if file.None? then Response(400, Message("No audio file provided"))
    else match transcribe(file.value, language)
      case None => Response(500, Message("Failed to transcribe audio"))
      case Some(text) => Response(200, TranscriptJson(text))
  }

  /**
   * A caller whose row was never stored (for example a second user without an
   * email, whose sync was rejected) cannot create a post: the author
   * reference fails, whatever the body holds.
   */
  lemma UnsyncedCallerCannotPost(t: Tables, body: PostBody, uid: string, serial: int, now: Timestamp)
    requires GetUser(t.users, uid).None?
    ensures NewPostRow(t, WithCaller(body, uid), serial, now).Err?
  {
  }
}
