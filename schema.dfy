/**
 * The tables of shared/schema.ts (users, posts, comments, likes), the shapes of
 * the request bodies that reach them, the joined views the reads return, and the
 * key constraints the database enforces.
 */
module Schema {
  import opened Wrappers
  import opened Sequences

  /** A key of a JSON request body: missing, explicitly null, or carrying a value. */
  datatype Field<+T> = Absent | Null | Present(value: T)

  /** The constraint a rejected statement violates; the statement then changes nothing. */
  datatype DbError = NotNullViolation | UniqueViolation | ForeignKeyViolation

  datatype Result<+T> = Ok(value: T) | Err(error: DbError)

  /** `defaultNow()` / `new Date()`, as an abstract increasing counter. */
  type Timestamp = nat

  /** A row of `users`; the id is the identity provider's subject id. */
  datatype User = User(
    id: string,
    email: Option<string>,
    firstName: Option<string>,
    lastName: Option<string>,
    profileImageUrl: Option<string>,
    createdAt: Timestamp,
    updatedAt: Timestamp)

  /** The values an upsert writes into a `users` row (`UpsertUser`). */
  datatype UpsertUser = UpsertUser(
    id: string,
    email: Option<string>,
    firstName: Option<string>,
    lastName: Option<string>,
    profileImageUrl: Option<string>)

  /**
   * A row of `posts`. `content` is NOT NULL, so it is a plain string;
   * `isVoiceTranscription` has a default but no NOT NULL, so it can be null.
   */
  datatype Post = Post(
    id: int,
    userId: string,
    content: string,
    isVoiceTranscription: Option<bool>,
    imageUrl: Option<string>,
    linkUrl: Option<string>,
    linkTitle: Option<string>,
    linkDescription: Option<string>,
    createdAt: Timestamp,
    updatedAt: Timestamp)

  /**
   * A post-shaped JSON body: what `createPost` inserts and what `updatePost`
   * sets. Nothing validates it, so every column may be missing or null.
   */
  datatype PostBody = PostBody(
    id: Field<int>,
    userId: Field<string>,
    content: Field<string>,
    isVoiceTranscription: Field<bool>,
    imageUrl: Field<string>,
    linkUrl: Field<string>,
    linkTitle: Field<string>,
    linkDescription: Field<string>)

  /** A row of `comments`. */
  datatype Comment = Comment(
    id: int,
    userId: string,
    postId: int,
    content: string,
    createdAt: Timestamp,
    updatedAt: Timestamp)

  /** The object `createComment` inserts: content from the body, author and post from the request. */
  datatype NewComment = NewComment(content: Field<string>, userId: string, postId: int)

  /** A row of `likes`; the pair is the composite primary key. */
  datatype Like = Like(userId: string, postId: int)

  /**
   * `insertPostSchema`: the post columns a client may send. It has no id,
   * userId, createdAt or updatedAt; content is required.
   */
  datatype InsertPost = InsertPost(
    content: string,
    isVoiceTranscription: Field<bool>,
    imageUrl: Field<string>,
    linkUrl: Field<string>,
    linkTitle: Field<string>,
    linkDescription: Field<string>)
  {
    /** The request body such a value makes. */
    function AsBody(): (b: PostBody)
      ensures b.id.Absent? && b.userId.Absent? && b.content == Present(content)
    {
      PostBody(Absent, Absent, Present(content), isVoiceTranscription,
               imageUrl, linkUrl, linkTitle, linkDescription)
    }
  }

  /** `insertCommentSchema`: post and content only; id, author and timestamps are the server's. */
  datatype InsertComment = InsertComment(postId: int, content: string)

  /** `PostWithUser`: a post, its author (`with: { user: true }`) and its `_count`. */
  datatype PostWithUser = PostWithUser(post: Post, user: Option<User>, commentCount: nat, likeCount: nat)

  /** `CommentWithUser`: a comment and its author. */
  datatype CommentWithUser = CommentWithUser(comment: Comment, user: Option<User>)

  /** The four tables of the feed. */
  datatype Tables = Tables(users: seq<User>, posts: seq<Post>, comments: seq<Comment>, likes: seq<Like>)

  function UserIds(users: seq<User>): set<string> {
    set u | u in users :: u.id
  }

  function PostIds(posts: seq<Post>): set<int> {
    set p | p in posts :: p.id
  }

  function CommentIds(comments: seq<Comment>): set<int> {
    set c | c in comments :: c.id
  }

  /** The primary key of each table. */
  function UserKey(u: User): string { u.id }
  function PostKey(p: Post): int { p.id }
  function CommentKey(c: Comment): int { c.id }
  function LikeKey(l: Like): Like { l }

  /** `users.id` is the primary key. */
  predicate UniqueUserIds(users: seq<User>) {
    UniqueBy(users, UserKey)
  }

  /** `users.email` is UNIQUE; as in SQL, any number of rows may hold null. */
  predicate UniqueEmails(users: seq<User>) {
    forall i, j | 0 <= i < j < |users| && users[i].email.Some? :: users[i].email != users[j].email
  }

  /** `posts.id` is the (serial) primary key. */
  predicate UniquePostIds(posts: seq<Post>) {
    UniqueBy(posts, PostKey)
  }

  /** `comments.id` is the (serial) primary key. */
  predicate UniqueCommentIds(comments: seq<Comment>) {
    UniqueBy(comments, CommentKey)
  }

  /** `(likes.userId, likes.postId)` is the composite primary key. */
  predicate UniqueLikes(likes: seq<Like>) {
    UniqueBy(likes, LikeKey)
  }

  /** Every `references(...)` of the schema holds. */
  predicate ForeignKeysHold(t: Tables) {
    && (forall p | p in t.posts :: p.userId in UserIds(t.users))
    && (forall c | c in t.comments :: c.userId in UserIds(t.users) && c.postId in PostIds(t.posts))
    && (forall l | l in t.likes :: l.userId in UserIds(t.users) && l.postId in PostIds(t.posts))
  }

  /** All key constraints of the schema. */
  predicate Constraints(t: Tables) {
    && UniqueUserIds(t.users)
    && UniqueEmails(t.users)
    && UniquePostIds(t.posts)
    && UniqueCommentIds(t.comments)
    && UniqueLikes(t.likes)
    && ForeignKeysHold(t)
  }
}
