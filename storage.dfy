/**
 * The write side of server/storage.ts. Each statement the storage issues
 * (`INSERT ... ON CONFLICT`, `INSERT`, `UPDATE ... SET`, `DELETE ... WHERE`) is
 * first given as a pure function from the tables before to the tables after (or
 * to the constraint the database rejects it with); class `DatabaseStorage` then
 * holds the tables and applies those statements in place.
 */
module Storage {
  import opened Wrappers
  import opened Schema
  import opened Sequences
  import opened Queries

  // ---------------------------------------------------------------- users

  /** Another user already holds this (non-null) email. */
  predicate EmailTakenByOther(users: seq<User>, email: Option<string>, id: string) {
    email.Some? && exists u | u in users :: u.id != id && u.email == email
  }

  /** The row `.values(userData)` inserts; both timestamps take their default. */
  function InsertedUser(d: UpsertUser, now: Timestamp): User {
    User(d.id, d.email, d.firstName, d.lastName, d.profileImageUrl, now, now)
  }

  /** The conflict path: `set: { ...userData, updatedAt: new Date() }`; createdAt is kept. */
  function Refreshed(u: User, d: UpsertUser, now: Timestamp): User {
    u.(email := d.email, firstName := d.firstName, lastName := d.lastName,
       profileImageUrl := d.profileImageUrl, updatedAt := now)
  }

  /**
   * `insert(users).values(d).onConflictDoUpdate({ target: users.id, ... })`.
   * A conflict on the id takes the update path; a clash with another user's
   * email is a unique violation on either path.
   */
  function UpsertRows(users: seq<User>, d: UpsertUser, now: Timestamp): (r: Result<seq<User>>)
    ensures r.Err? ==> r.error == UniqueViolation
    ensures r.Ok? ==> d.id in UserIds(r.value)
    ensures r.Ok? ==> |users| <= |r.value| <= |users| + 1
  {
    if EmailTakenByOther(users, d.email, d.id) then Err(UniqueViolation)
    else match FindKey(users, UserKey, d.id)
      case None =>
        var after := users + [InsertedUser(d, now)];
        assert after[|users|].id == d.id;
        Ok(after)
      case Some(i) =>
        var after := users[i := Refreshed(users[i], d, now)];
        assert after[i].id == d.id;
        Ok(after)
  }

  /** Under a unique primary key, `getUser` finds the one row with that id. */
  lemma GetUserOfUnique(users: seq<User>, i: nat)
    requires UniqueUserIds(users) && i < |users|
    ensures GetUser(users, users[i].id) == Some(users[i])
  {
    var r := GetUser(users, users[i].id);
    var j :| 0 <= j < |users| && users[j] == r.value;
    assert UserKey(users[j]) == UserKey(users[i]);
  }

  lemma UniqueEmailsAppend(users: seq<User>, x: User)
    requires UniqueEmails(users)
    requires x.email.Some? ==> forall u | u in users :: u.email != x.email
    ensures UniqueEmails(users + [x])
  {
    var r := users + [x];
    forall i, j | 0 <= i < j < |r| && r[i].email.Some? ensures r[i].email != r[j].email {
      assert r[i] == users[i];
      if j < |users| {
        assert r[j] == users[j];
      } else {
        assert users[i] in users;
      }
    }
  }

  lemma UniqueEmailsReplace(users: seq<User>, k: nat, x: User)
    requires UniqueEmails(users) && k < |users|
    requires x.email.Some? ==> forall j | 0 <= j < |users| && j != k :: users[j].email != x.email
    ensures UniqueEmails(users[k := x])
  {
    var r := users[k := x];
    forall i, j | 0 <= i < j < |r| && r[i].email.Some? ensures r[i].email != r[j].email {
      if i != k && j != k {
        assert r[i] == users[i] && r[j] == users[j];
      }
    }
  }

  /**
   * What a successful upsert leaves in the users table: ids and emails stay
   * unique, exactly one row has the id (the old row refreshed with the new
   * fields, or a new row), and every other user is unchanged.
   */
  ghost predicate UpsertedAs(users: seq<User>, d: UpsertUser, now: Timestamp, after: seq<User>) {
    && UniqueUserIds(after) && UniqueEmails(after)
    && UserIds(after) == UserIds(users) + {d.id}
    && GetUser(after, d.id) ==
         Some(match GetUser(users, d.id)
              case None => InsertedUser(d, now)
              case Some(u) => Refreshed(u, d, now))
    && (forall u: User | u.id != d.id :: u in after <==> u in users)
  }

  /** The insert path of the upsert: no row has the id yet. */
  lemma UpsertInsertCase(users: seq<User>, d: UpsertUser, now: Timestamp)
    requires UniqueUserIds(users) && UniqueEmails(users)
    requires !EmailTakenByOther(users, d.email, d.id) && FindKey(users, UserKey, d.id).None?
    ensures UpsertedAs(users, d, now, users + [InsertedUser(d, now)])
  {
    var x := InsertedUser(d, now);
    UniqueByAppend(users, x, UserKey);
    UniqueEmailsAppend(users, x);
    GetUserOfUnique(users + [x], |users|);
  }

  /** Refreshing row `i` keeps its id, so the set of ids and their uniqueness are kept. */
  lemma RefreshKeepsIds(users: seq<User>, i: nat, x: User)
    requires UniqueUserIds(users) && i < |users| && x.id == users[i].id
    ensures UniqueUserIds(users[i := x]) && UserIds(users[i := x]) == UserIds(users)
    ensures GetUser(users[i := x], x.id) == Some(x)
    ensures forall u: User | u.id != x.id :: u in users[i := x] <==> u in users
  {
    var after := users[i := x];
    UniqueByReplace(users, i, x, UserKey);
    GetUserOfUnique(after, i);
    forall u: User | u.id != x.id ensures u in after <==> u in users {
      if u in users {
        var j :| 0 <= j < |users| && users[j] == u;
        assert after[j] == u;
      }
    }
    forall k | k in UserIds(users) ensures k in UserIds(after) {
      var j :| 0 <= j < |users| && users[j].id == k;
      assert after[j].id == k;
    }
  }

  /** Refreshing row `i` with an email no other user holds keeps emails unique. */
  lemma RefreshKeepsEmails(users: seq<User>, i: nat, x: User)
    requires UniqueUserIds(users) && UniqueEmails(users) && i < |users| && x.id == users[i].id
    requires !EmailTakenByOther(users, x.email, x.id)
    ensures UniqueEmails(users[i := x])
  {
    forall j | 0 <= j < |users| && j != i ensures users[j].email != x.email || x.email.None? {
      assert UserKey(users[j]) != UserKey(users[i]);
      assert users[j] in users;
    }
    UniqueEmailsReplace(users, i, x);
  }

  /** The conflict path of the upsert: row `i` has the id and is refreshed. */
  lemma UpsertRefreshCase(users: seq<User>, d: UpsertUser, now: Timestamp, i: nat)
    requires UniqueUserIds(users) && UniqueEmails(users)
    requires !EmailTakenByOther(users, d.email, d.id) && FindKey(users, UserKey, d.id) == Some(i)
    ensures UpsertedAs(users, d, now, users[i := Refreshed(users[i], d, now)])
  {
    assert users[i].id == d.id;
    var x := Refreshed(users[i], d, now);
    var after := users[i := x];
    RefreshKeepsIds(users, i, x);
    RefreshKeepsEmails(users, i, x);
    GetUserOfUnique(users, i);
    assert d.id in UserIds(users) by {
      assert users[i] in users;
    }
    assert UserIds(after) == UserIds(users) + {d.id};
    assert GetUser(after, d.id) == Some(x);
  }

  /**
   * The upsert fails only on another user's email, with a unique violation;
   * otherwise it leaves the table as `UpsertedAs` describes.
   */
  lemma UpsertUserSpec(users: seq<User>, d: UpsertUser, now: Timestamp)
    requires UniqueUserIds(users) && UniqueEmails(users)
    ensures var r := UpsertRows(users, d, now);
      && (r.Err? <==> EmailTakenByOther(users, d.email, d.id))
      && (r.Err? ==> r.error == UniqueViolation)
      && (r.Ok? ==> UpsertedAs(users, d, now, r.value))
  {
    if !EmailTakenByOther(users, d.email, d.id) {
      match FindKey(users, UserKey, d.id)
      case None => UpsertInsertCase(users, d, now);
      case Some(i) => UpsertRefreshCase(users, d, now, i);
    }
  }

  /** An upsert that succeeds keeps every constraint of the tables. */
  lemma UpsertKeepsConstraints(t: Tables, d: UpsertUser, now: Timestamp)
    requires Constraints(t) && UpsertRows(t.users, d, now).Ok?
    ensures Constraints(t.(users := UpsertRows(t.users, d, now).value))
  {
    UpsertUserSpec(t.users, d, now);
  }

  /**
   * Upserting the same data again only refreshes `updatedAt` of that user's
   * row: every row keeps its place and every other row is unchanged.
   */
  lemma UpsertTwice(users: seq<User>, d: UpsertUser, t1: Timestamp, t2: Timestamp)
    requires UniqueUserIds(users) && UniqueEmails(users)
    requires UpsertRows(users, d, t1).Ok?
    ensures var first := UpsertRows(users, d, t1).value;
      && UpsertRows(first, d, t2).Ok?
      && var second := UpsertRows(first, d, t2).value;
      && |second| == |first|
      && forall j | 0 <= j < |first| ::
           second[j] == if first[j].id == d.id then first[j].(updatedAt := t2) else first[j]
  {
    var first := UpsertRows(users, d, t1).value;
    UpsertUserSpec(users, d, t1);
    assert !EmailTakenByOther(first, d.email, d.id);
    var i := FindKey(first, UserKey, d.id);
    assert i.Some? by {
      assert GetUser(first, d.id).Some?;
    }
    forall j | 0 <= j < |first| && j != i.value ensures first[j].id != d.id {
      assert UserKey(first[j]) != UserKey(first[i.value]);
    }
  }

  // ---------------------------------------------------------------- posts

  /** A nullable column after an INSERT: a missing or null key stores null. */
  function Stored<T>(f: Field<T>): Option<T> {
    if f.Present? then Some(f.value) else None
  }

  /** A column with `.default(v)`: a missing key takes the default, an explicit null stays null. */
  function StoredOr<T>(f: Field<T>, default: T): Option<T> {
    match f
    case Absent => Some(default)
    case Null => None
    case Present(v) => Some(v)
  }

  /** A NOT NULL column of the body was missing or null (or, for the serial id, explicitly null). */
  predicate MissesRequired(input: PostBody) {
    input.id.Null? || !input.userId.Present? || !input.content.Present?
  }

  /** The id an INSERT gives a post: the body's own, else the next value of `posts_id_seq`. */
  function InsertedPostId(input: PostBody, serial: int): int {
    if input.id.Present? then input.id.value else serial
  }

  /** `posts_id_seq` is advanced whenever the default is evaluated, even if the INSERT then fails. */
  function PostSerialAfter(input: PostBody, serial: int): int {
    if input.id.Absent? then serial + 1 else serial
  }

  /**
   * `db.insert(posts).values(post).returning()`: the new row, or the constraint
   * that rejects it (NOT NULL, then the primary key, then the user reference).
   */
  function NewPostRow(t: Tables, input: PostBody, serial: int, now: Timestamp): (r: Result<Post>)
    ensures r.Ok? ==> r.value.id !in PostIds(t.posts) && r.value.userId in UserIds(t.users)
    ensures r.Ok? ==> input.userId == Present(r.value.userId) && input.content == Present(r.value.content)
    ensures r.Ok? && input.id.Absent? ==> r.value.id == serial
    ensures r.Ok? && input.isVoiceTranscription.Absent? ==> r.value.isVoiceTranscription == Some(false)
  {
    if MissesRequired(input) then Err(NotNullViolation)
    else
      var id := InsertedPostId(input, serial);
      if id in PostIds(t.posts) then Err(UniqueViolation)
      else if input.userId.value !in UserIds(t.users) then Err(ForeignKeyViolation)
      else Ok(Post(id, input.userId.value, input.content.value,
                   StoredOr(input.isVoiceTranscription, false),
                   Stored(input.imageUrl), Stored(input.linkUrl),
                   Stored(input.linkTitle), Stored(input.linkDescription),
                   now, now))
  }

  /**
   * An insert succeeds exactly when the body has its NOT NULL columns, a fresh
   * id and an existing author, and the new row keeps every constraint.
   */
  lemma CreatePostSpec(t: Tables, input: PostBody, serial: int, now: Timestamp)
    requires Constraints(t)
    ensures var r := NewPostRow(t, input, serial, now);
      && (r.Ok? <==>
            && !MissesRequired(input)
            && InsertedPostId(input, serial) !in PostIds(t.posts)
            && input.userId.value in UserIds(t.users))
      && (r.Ok? ==> Constraints(t.(posts := t.posts + [r.value])))
  {
    var r := NewPostRow(t, input, serial, now);
    if r.Ok? {
      var t' := t.(posts := t.posts + [r.value]);
      UniqueByAppend(t.posts, r.value, PostKey);
      assert PostIds(t.posts) <= PostIds(t'.posts);
    }
  }

  /** A nullable column after `.set({...patch})`: a missing key keeps it, null clears it. */
  function SetNullable<T>(f: Field<T>, current: Option<T>): Option<T> {
    match f
    case Absent => current
    case Null => None
    case Present(v) => Some(v)
  }

  /** A NOT NULL column after the set (a null there is rejected before the row is built). */
  function SetRequired<T>(f: Field<T>, current: T): T {
    if f.Present? then f.value else current
  }

  /** The row `.set({ ...postData, updatedAt: new Date() })` makes of `p`. */
  function Patched(p: Post, patch: PostBody, now: Timestamp): Post {
    Post(SetRequired(patch.id, p.id), SetRequired(patch.userId, p.userId),
         SetRequired(patch.content, p.content),
         SetNullable(patch.isVoiceTranscription, p.isVoiceTranscription),
         SetNullable(patch.imageUrl, p.imageUrl), SetNullable(patch.linkUrl, p.linkUrl),
         SetNullable(patch.linkTitle, p.linkTitle),
         SetNullable(patch.linkDescription, p.linkDescription),
         p.createdAt, now)
  }

  /** The patch sets a NOT NULL column to null. */
  predicate NullsRequired(patch: PostBody) {
    patch.id.Null? || patch.userId.Null? || patch.content.Null?
  }

  /** Some comment or like references post `id`. */
  predicate PostReferenced(t: Tables, id: int) {
    (exists c | c in t.comments :: c.postId == id) || (exists l | l in t.likes :: l.postId == id)
  }

  /**
   * `db.update(posts).set(...).where(eq(posts.id, id)).returning()`: the new
   * posts table and the returned row (none when no row has that id), or the
   * constraint the changed row breaks.
   */
  function UpdateRows(t: Tables, id: int, patch: PostBody, now: Timestamp): (r: Result<(seq<Post>, Option<Post>)>)
    ensures r.Ok? ==> |r.value.0| == |t.posts|
    ensures r.Ok? && r.value.1.None? ==> r.value.0 == t.posts
    ensures r.Ok? && r.value.1.Some? ==> r.value.1.value in r.value.0
  {
    match FindKey(t.posts, PostKey, id)
    case None => Ok((t.posts, None))
    case Some(i) =>
      if NullsRequired(patch) then Err(NotNullViolation)
      else
        var row := Patched(t.posts[i], patch, now);
        if row.id != id && row.id in PostIds(t.posts) then Err(UniqueViolation)
        else if row.userId !in UserIds(t.users) then Err(ForeignKeyViolation)
        else if row.id != id && PostReferenced(t, id) then Err(ForeignKeyViolation)
        else
          assert t.posts[i := row][i] == row;
          Ok((t.posts[i := row], Some(row)))
  }

  /**
   * Exactly the keys present in the patch overwrite their columns, null
   * clearing a nullable one; absent keys keep theirs. createdAt is kept and
   * updatedAt refreshed.
   */
  lemma PatchedFields(p: Post, patch: PostBody, now: Timestamp)
    requires !NullsRequired(patch)
    ensures var r := Patched(p, patch, now);
      && r.createdAt == p.createdAt && r.updatedAt == now
      && (if patch.id.Present? then r.id == patch.id.value else r.id == p.id)
      && (if patch.userId.Present? then r.userId == patch.userId.value else r.userId == p.userId)
      && (if patch.content.Present? then r.content == patch.content.value else r.content == p.content)
      && (patch.isVoiceTranscription.Absent? ==> r.isVoiceTranscription == p.isVoiceTranscription)
      && (!patch.isVoiceTranscription.Absent? ==> r.isVoiceTranscription == Stored(patch.isVoiceTranscription))
      && (patch.imageUrl.Absent? ==> r.imageUrl == p.imageUrl)
      && (!patch.imageUrl.Absent? ==> r.imageUrl == Stored(patch.imageUrl))
      && (patch.linkUrl.Absent? ==> r.linkUrl == p.linkUrl)
      && (!patch.linkUrl.Absent? ==> r.linkUrl == Stored(patch.linkUrl))
      && (patch.linkTitle.Absent? ==> r.linkTitle == p.linkTitle)
      && (!patch.linkTitle.Absent? ==> r.linkTitle == Stored(patch.linkTitle))
      && (patch.linkDescription.Absent? ==> r.linkDescription == p.linkDescription)
      && (!patch.linkDescription.Absent? ==> r.linkDescription == Stored(patch.linkDescription))
  {
  }

  /** Under a unique primary key, `getPostById` finds the one row with that id. */
  lemma GetPostOfUnique(posts: seq<Post>, i: nat)
    requires UniquePostIds(posts) && i < |posts|
    ensures GetPostById(posts, posts[i].id) == Some(posts[i])
  {
    var r := GetPostById(posts, posts[i].id);
    var j :| 0 <= j < |posts| && posts[j] == r.value;
    assert PostKey(posts[j]) == PostKey(posts[i]);
  }

  /** Every reference to a post other than `id` still resolves once row `i` (post `id`) is replaced. */
  lemma ReferencesSurviveReplace(t: Tables, i: nat, row: Post)
    requires Constraints(t) && i < |t.posts|
    requires row.id == t.posts[i].id || !PostReferenced(t, t.posts[i].id)
    ensures forall c | c in t.comments :: c.postId in PostIds(t.posts[i := row])
    ensures forall l | l in t.likes :: l.postId in PostIds(t.posts[i := row])
  {
    var id := t.posts[i].id;
    var ps := t.posts[i := row];
    forall k | k in PostIds(t.posts) && k != id ensures k in PostIds(ps) {
      var j :| 0 <= j < |t.posts| && t.posts[j].id == k;
      assert ps[j] == t.posts[j];
    }
    assert ps[i] == row;
  }

  /**
   * An update of post `id` replaces that one row by the patched row, leaves
   * every other row where and as it was, and keeps every constraint; with no
   * such post it changes nothing and returns no row.
   */
  lemma UpdatePostSpec(t: Tables, id: int, patch: PostBody, now: Timestamp)
    requires Constraints(t)
    ensures var r := UpdateRows(t, id, patch, now);
      && (GetPostById(t.posts, id).None? ==> r == Ok((t.posts, None)))
      && (GetPostById(t.posts, id).Some? && NullsRequired(patch) ==> r == Err(NotNullViolation))
      && (r.Ok? && GetPostById(t.posts, id).Some? ==>
            var row := Patched(GetPostById(t.posts, id).value, patch, now);
            && r.value.1 == Some(row)
            && |r.value.0| == |t.posts|
            && (forall j | 0 <= j < |t.posts| ::
                  r.value.0[j] == if t.posts[j].id == id then row else t.posts[j])
            && Constraints(t.(posts := r.value.0)))
  {
    var r := UpdateRows(t, id, patch, now);
    match FindKey(t.posts, PostKey, id)
    case None =>
    case Some(i) =>
      GetPostOfUnique(t.posts, i);
      if r.Ok? {
        var row := Patched(t.posts[i], patch, now);
        var ps := t.posts[i := row];
        forall j | 0 <= j < |t.posts| && j != i ensures t.posts[j].id != id {
          assert PostKey(t.posts[j]) != PostKey(t.posts[i]);
        }
        UniqueByReplace(t.posts, i, row, PostKey);
        ReferencesSurviveReplace(t, i, row);
        forall p | p in ps ensures p.userId in UserIds(t.users) {
          var j :| 0 <= j < |ps| && ps[j] == p;
          if j != i {
            assert t.posts[j] in t.posts;
          }
        }
      }
  }

  /**
   * The owner of a post is not immutable: a patch carrying another user's id
   * moves the post to that user.
   */
  lemma OwnerNotImmutable()
    ensures
      var alice := User("alice", None, None, None, None, 0, 0);
      var bob := User("bob", None, None, None, None, 0, 0);
      var post := Post(1, "alice", "hello", Some(false), None, None, None, None, 0, 0);
      var t := Tables([alice, bob], [post], [], []);
      var patch := PostBody(Absent, Present("bob"), Absent, Absent, Absent, Absent, Absent, Absent);
      && Constraints(t)
      && UpdateRows(t, 1, patch, 1) == Ok(([post.(userId := "bob", updatedAt := 1)], Some(post.(userId := "bob", updatedAt := 1))))
  {
    var alice := User("alice", None, None, None, None, 0, 0);
    var bob := User("bob", None, None, None, None, 0, 0);
    var post := Post(1, "alice", "hello", Some(false), None, None, None, None, 0, 0);
    var t := Tables([alice, bob], [post], [], []);
    var patch := PostBody(Absent, Present("bob"), Absent, Absent, Absent, Absent, Absent, Absent);
    assert "bob" in UserIds(t.users) by { assert bob in t.users; }
    assert "alice" in UserIds(t.users) by { assert alice in t.users; }
    assert UniqueUserIds(t.users) by { assert "alice" != "bob"; }
    assert FindKey(t.posts, PostKey, 1) == Some(0);
    assert Patched(post, patch, 1) == post.(userId := "bob", updatedAt := 1);
    assert Constraints(t);
    assert t.posts[0 := post.(userId := "bob", updatedAt := 1)] == [post.(userId := "bob", updatedAt := 1)];
    assert UpdateRows(t, 1, patch, 1) == Ok(([post.(userId := "bob", updatedAt := 1)], Some(post.(userId := "bob", updatedAt := 1))));
  }

  /**
   * `deletePost`: delete the post's comments, then its likes, then the post;
   * every other row keeps its place.
   */
  function DeletedTables(t: Tables, id: int): (r: Tables)
    ensures r.users == t.users
    ensures forall p | p in r.posts :: p.id != id
    ensures forall c | c in r.comments :: c.postId != id
    ensures forall l | l in r.likes :: l.postId != id
  {
    Tables(t.users, PostsWithout(t.posts, id), CommentsNotOn(t.comments, id), LikesNotOn(t.likes, id))
  }

  /** `delete(posts).where(eq(posts.id, id))`. */
  function PostsWithout(posts: seq<Post>, id: int): seq<Post> {
    Filter(posts, (p: Post) => p.id != id)
  }

  /** `delete(comments).where(eq(comments.postId, id))`. */
  function CommentsNotOn(comments: seq<Comment>, id: int): seq<Comment> {
    Filter(comments, (c: Comment) => c.postId != id)
  }

  /** `delete(likes).where(eq(likes.postId, id))`. */
  function LikesNotOn(likes: seq<Like>, id: int): seq<Like> {
    Filter(likes, (l: Like) => l.postId != id)
  }

  /** A successful update keeps the tables consistent with the comment serial. */
  lemma UpdateKeepsConsistent(t: Tables, id: int, patch: PostBody, now: Timestamp, commentSerial: int)
    requires Consistent(t, commentSerial)
    ensures UpdateRows(t, id, patch, now).Ok? ==>
              Consistent(t.(posts := UpdateRows(t, id, patch, now).value.0), commentSerial)
  {
    UpdatePostSpec(t, id, patch, now);
  }

  /**
   * After the cascade no post, comment or like with that post id remains,
   * every other row of every table is still there, and the comments and likes
   * of every other post are listed exactly as before.
   */
  lemma DeletePostCascade(t: Tables, id: int)
    ensures var d := DeletedTables(t, id);
      && d.users == t.users
      && (forall p :: p in d.posts <==> p in t.posts && p.id != id)
      && (forall c :: c in d.comments <==> c in t.comments && c.postId != id)
      && (forall l :: l in d.likes <==> l in t.likes && l.postId != id)
      && GetPostById(d.posts, id).None?
      && CommentsOf(d.comments, id) == [] && LikesOf(d.likes, id) == []
      && (forall q | q != id ::
            CommentsOf(d.comments, q) == CommentsOf(t.comments, q) &&
            LikesOf(d.likes, q) == LikesOf(t.likes, q))
  {
    var d := DeletedTables(t, id);
    FilterKeepsNone(d.comments, (c: Comment) => c.postId == id);
    FilterKeepsNone(d.likes, (l: Like) => l.postId == id);
    forall q | q != id
      ensures CommentsOf(d.comments, q) == CommentsOf(t.comments, q)
      ensures LikesOf(d.likes, q) == LikesOf(t.likes, q)
    {
      FilterOfFilter(t.comments, (c: Comment) => c.postId != id, (c: Comment) => c.postId == q);
      FilterOfFilter(t.likes, (l: Like) => l.postId != id, (l: Like) => l.postId == q);
    }
  }

  /** The cascade keeps every constraint: nothing left refers to the deleted post. */
  lemma DeletePostKeepsConstraints(t: Tables, id: int, commentSerial: int)
    requires Consistent(t, commentSerial)
    ensures Consistent(DeletedTables(t, id), commentSerial)
  {
    var t1 := t.(comments := CommentsNotOn(t.comments, id));
    DeleteCommentsKeepsConsistent(t, id, commentSerial);
    var t2 := t1.(likes := LikesNotOn(t1.likes, id));
    DeleteLikesKeepsConsistent(t1, id, commentSerial);
    CascadeUnreferences(t, id);
    DeletePostRowKeepsConsistent(t2, id, commentSerial);
    assert t2.(posts := PostsWithout(t2.posts, id)) == DeletedTables(t, id);
  }

  /** Deleting the comments on a post keeps every constraint. */
  lemma DeleteCommentsKeepsConsistent(t: Tables, id: int, commentSerial: int)
    requires Consistent(t, commentSerial)
    ensures Consistent(t.(comments := CommentsNotOn(t.comments, id)), commentSerial)
  {
    FilterKeepsUnique(t.comments, (c: Comment) => c.postId != id, CommentKey);
  }

  /** Deleting the likes of a post keeps every constraint. */
  lemma DeleteLikesKeepsConsistent(t: Tables, id: int, commentSerial: int)
    requires Consistent(t, commentSerial)
    ensures Consistent(t.(likes := LikesNotOn(t.likes, id)), commentSerial)
  {
    FilterKeepsUnique(t.likes, (l: Like) => l.postId != id, LikeKey);
  }

  /** Deleting a post no comment or like refers to keeps every constraint. */
  lemma DeletePostRowKeepsConsistent(t: Tables, id: int, commentSerial: int)
    requires Consistent(t, commentSerial) && !PostReferenced(t, id)
    ensures Consistent(t.(posts := PostsWithout(t.posts, id)), commentSerial)
  {
    var kept := PostsWithout(t.posts, id);
    FilterKeepsUnique(t.posts, (p: Post) => p.id != id, PostKey);
    forall k | k in PostIds(t.posts) && k != id ensures k in PostIds(kept) {
      var p :| p in t.posts && p.id == k;
      assert p in kept;
    }
  }

  /** Once its comments and likes are gone, nothing refers to the post any more. */
  lemma CascadeUnreferences(t: Tables, id: int)
    ensures !PostReferenced(t.(comments := CommentsNotOn(t.comments, id), likes := LikesNotOn(t.likes, id)), id)
  {
  }

  // ---------------------------------------------------------------- comments


  /**
   * `db.insert(comments).values(comment).returning()` with the next value of
   * `comments_id_seq`: the new row, or the constraint that rejects it.
   */
  function NewCommentRow(t: Tables, c: NewComment, serial: int, now: Timestamp): (r: Result<Comment>)
    ensures r.Ok? ==> r.value.id == serial && r.value.createdAt == now
    ensures r.Ok? ==> r.value.userId == c.userId && r.value.postId == c.postId
    ensures r.Ok? ==> c.content == Present(r.value.content)
  {
    if !c.content.Present? then Err(NotNullViolation)
    else if serial in CommentIds(t.comments) then Err(UniqueViolation)
    else if c.userId !in UserIds(t.users) || c.postId !in PostIds(t.posts) then Err(ForeignKeyViolation)
    else Ok(Comment(serial, c.userId, c.postId, c.content.value, now, now))
  }

  /** Every comment id lies below the next value of the serial. */
  predicate SerialAhead(comments: seq<Comment>, serial: int) {
    forall c | c in comments :: c.id < serial
  }

  /** The schema's constraints hold and the comment serial is ahead of every comment id. */
  predicate Consistent(t: Tables, commentSerial: int) {
    Constraints(t) && SerialAhead(t.comments, commentSerial)
  }

  /**
   * With the serial ahead of every id, an insert succeeds exactly when the
   * content is there (an empty string is accepted) and both the author and
   * the post exist; the new comment is then listed under its post, and the
   * constraints hold with the serial still ahead.
   */
  lemma CreateCommentSpec(t: Tables, c: NewComment, serial: int, now: Timestamp)
    requires Constraints(t) && SerialAhead(t.comments, serial)
    ensures var r := NewCommentRow(t, c, serial, now);
      && (r.Ok? <==> c.content.Present? && c.userId in UserIds(t.users) && c.postId in PostIds(t.posts))
      && (r.Ok? ==>
            var t' := t.(comments := t.comments + [r.value]);
            && Constraints(t')
            && SerialAhead(t'.comments, serial + 1)
            && r.value in CommentsOf(t'.comments, c.postId))
  {
    var r := NewCommentRow(t, c, serial, now);
    assert serial !in CommentIds(t.comments);
    if r.Ok? {
      UniqueByAppend(t.comments, r.value, CommentKey);
    }
  }

  // ---------------------------------------------------------------- likes

  /** `likePost`: check for the row, and insert it only when it is missing. */
  function LikeRows(t: Tables, userId: string, postId: int): (r: Result<seq<Like>>)
    ensures r.Err? ==> r.error == ForeignKeyViolation
    ensures r.Ok? ==> CheckIfUserLikedPost(r.value, userId, postId)
    ensures r.Ok? ==> forall l | l in t.likes :: l in r.value
  {
    if CheckIfUserLikedPost(t.likes, userId, postId) then Ok(t.likes)
    else if userId !in UserIds(t.users) || postId !in PostIds(t.posts) then Err(ForeignKeyViolation)
    else Ok(t.likes + [Like(userId, postId)])
  }

  /** `unlikePost`: delete the `(userId, postId)` row, if there is one. */
  function UnlikeRows(likes: seq<Like>, userId: string, postId: int): (r: seq<Like>)
    ensures !CheckIfUserLikedPost(r, userId, postId)
    ensures forall l | l != Like(userId, postId) :: l in r <==> l in likes
  {
    Filter(likes, (l: Like) => l != Like(userId, postId))
  }

  /**
   * Liking is idempotent: afterwards exactly one `(userId, postId)` row
   * exists, no other row changed, and liking again changes nothing. It fails
   * only for a missing user or post that was not liked already.
   */
  lemma LikePostSpec(t: Tables, userId: string, postId: int)
    requires Constraints(t)
    ensures var r := LikeRows(t, userId, postId);
      && (r.Err? <==>
            !CheckIfUserLikedPost(t.likes, userId, postId) &&
            (userId !in UserIds(t.users) || postId !in PostIds(t.posts)))
      && (CheckIfUserLikedPost(t.likes, userId, postId) ==> r == Ok(t.likes))
      && (r.Ok? ==>
            && CheckIfUserLikedPost(r.value, userId, postId)
            && multiset(r.value)[Like(userId, postId)] == 1
            && (forall l | l != Like(userId, postId) :: multiset(r.value)[l] == multiset(t.likes)[l])
            && Constraints(t.(likes := r.value))
            && LikeRows(t.(likes := r.value), userId, postId) == r)
  {
    var r := LikeRows(t, userId, postId);
    var x := Like(userId, postId);
    if r.Ok? {
      if !CheckIfUserLikedPost(t.likes, userId, postId) {
        assert forall y | y in t.likes :: LikeKey(y) != LikeKey(x);
        UniqueByAppend(t.likes, x, LikeKey);
      }
      UniqueByOnce(r.value, LikeKey, x);
    }
  }

  /**
   * Unliking removes the `(userId, postId)` row if present, is a no-op when it
   * is absent, leaves every other row as it was and keeps the constraints.
   */
  lemma UnlikePostSpec(t: Tables, userId: string, postId: int)
    requires Constraints(t)
    ensures var r := UnlikeRows(t.likes, userId, postId);
      && !CheckIfUserLikedPost(r, userId, postId)
      && multiset(r) == multiset(t.likes)[Like(userId, postId) := 0]
      && (!CheckIfUserLikedPost(t.likes, userId, postId) ==> r == t.likes)
      && Constraints(t.(likes := r))
  {
    var keep := (l: Like) => l != Like(userId, postId);
    var r := UnlikeRows(t.likes, userId, postId);
    if !CheckIfUserLikedPost(t.likes, userId, postId) {
      FilterKeepsAll(t.likes, keep);
    }
    forall l ensures multiset(r)[l] == multiset(t.likes)[Like(userId, postId) := 0][l] {
      FilterCounts(t.likes, keep, l);
    }
    FilterKeepsUnique(t.likes, keep, LikeKey);
  }

  // ---------------------------------------------------------------- the storage

  /**
   * `DatabaseStorage` together with the database it writes to: the four
   * tables, the next values of the two serial sequences, and the clock that
   * stamps `defaultNow()` and `new Date()`. Each write is one statement, or for
   * `deletePost` three, applied in place.
   */
  class DatabaseStorage {
    var users: seq<User>
    var posts: seq<Post>
    var comments: seq<Comment>
    var likes: seq<Like>
    var postIdSeq: int
    var commentIdSeq: int
    var clock: Timestamp

    function Snapshot(): Tables
      reads this
    {
      Tables(users, posts, comments, likes)
    }

    ghost predicate Valid()
      reads this
    {
      Consistent(Snapshot(), commentIdSeq)
    }

    constructor ()
      ensures Valid()
      ensures Snapshot() == Tables([], [], [], [])
      ensures postIdSeq == 1 && commentIdSeq == 1 && clock == 0
    {
      users, posts, comments, likes := [], [], [], [];
      postIdSeq, commentIdSeq, clock := 1, 1, 0;
    }

    /** `upsertUser`: insert the user, or refresh the row with that id. */
    method UpsertUser(d: Schema.UpsertUser) returns (r: Result<User>)
      requires Valid()
      modifies this
      ensures Valid()
      ensures var spec := UpsertRows(old(users), d, old(clock));
        && (spec.Ok? ==> users == spec.value && r.Ok? && GetUser(users, d.id) == Some(r.value))
        && (spec.Err? ==> users == old(users) && r == Err(spec.error))
      ensures posts == old(posts) && comments == old(comments) && likes == old(likes)
      ensures postIdSeq == old(postIdSeq) && commentIdSeq == old(commentIdSeq)
      ensures clock == old(clock) + 1
    {
      ghost var before := Snapshot();
      var now := clock;
      clock := clock + 1;
      if EmailTakenByOther(users, d.email, d.id) {
        r := Err(UniqueViolation);
      } else {
        UpsertKeepsConstraints(before, d, now);
        var row;
        match FindKey(users, UserKey, d.id) {
          case None =>
            UpsertInsertCase(users, d, now);
            row := InsertedUser(d, now);
            users := users + [row];
          case Some(i) =>
            UpsertRefreshCase(users, d, now, i);
            GetUserOfUnique(users, i);
            row := Refreshed(users[i], d, now);
            users := users[i := row];
        }
        r := Ok(row);
        assert users == UpsertRows(before.users, d, now).value;
      }
    }

    /** `createPost`: insert the body as a new post. */
    method CreatePost(input: PostBody) returns (r: Result<Post>)
      requires Valid()
      modifies this
      ensures Valid()
      ensures r == NewPostRow(old(Snapshot()), input, old(postIdSeq), old(clock))
      ensures posts == if r.Ok? then old(posts) + [r.value] else old(posts)
      ensures postIdSeq == PostSerialAfter(input, old(postIdSeq))
      ensures users == old(users) && comments == old(comments) && likes == old(likes)
      ensures commentIdSeq == old(commentIdSeq) && clock == old(clock) + 1
    {
      var now := clock;
      clock := clock + 1;
      var serial := postIdSeq;
      if input.id.Absent? {
        postIdSeq := postIdSeq + 1;
      }
      CreatePostSpec(Snapshot(), input, serial, now);
      r := NewPostRow(Snapshot(), input, serial, now);
      if r.Ok? {
        posts := posts + [r.value];
      }
    }

    /** `updatePost`: set the patch on the post with that id; no row means no result. */
    method UpdatePost(id: int, patch: PostBody) returns (r: Result<Option<Post>>)
      requires Valid()
      modifies this
      ensures Valid()
      ensures var spec := UpdateRows(old(Snapshot()), id, patch, old(clock));
        && (spec.Ok? ==> posts == spec.value.0 && r == Ok(spec.value.1))
        && (spec.Err? ==> posts == old(posts) && r == Err(spec.error))
      ensures users == old(users) && comments == old(comments) && likes == old(likes)
      ensures postIdSeq == old(postIdSeq) && commentIdSeq == old(commentIdSeq)
      ensures clock == old(clock) + 1
    {
      var now := clock;
      clock := clock + 1;
      UpdateKeepsConsistent(Snapshot(), id, patch, now, commentIdSeq);
      match UpdateRows(Snapshot(), id, patch, now)
      case Ok(result) =>
        posts := result.0;
        r := Ok(result.1);
      case Err(e) =>
        r := Err(e);
    }

    /** `deletePost`: the post's comments, then its likes, then the post. */
    method DeletePost(id: int)
      requires Valid()
      modifies this
      ensures Valid()
      ensures Snapshot() == DeletedTables(old(Snapshot()), id)
      ensures postIdSeq == old(postIdSeq) && commentIdSeq == old(commentIdSeq) && clock == old(clock)
    {
      DeleteCommentsOn(id);
      DeleteLikesOn(id);
      CascadeUnreferences(old(Snapshot()), id);
      var r := DeletePostRow(id);
      assert r.Ok?;
    }

    /**
     * `delete(comments).where(eq(comments.postId, id))`: comments reference
     * nothing that refers back to them, so the delete always succeeds.
     */
    method DeleteCommentsOn(id: int)
      requires Valid()
      modifies this
      ensures Valid()
      ensures comments == CommentsNotOn(old(comments), id)
      ensures users == old(users) && posts == old(posts) && likes == old(likes)
      ensures postIdSeq == old(postIdSeq) && commentIdSeq == old(commentIdSeq) && clock == old(clock)
    {
      DeleteCommentsKeepsConsistent(Snapshot(), id, commentIdSeq);
      comments := CommentsNotOn(comments, id);
    }

    /** `delete(likes).where(eq(likes.postId, id))`: like rows are never referenced either. */
    method DeleteLikesOn(id: int)
      requires Valid()
      modifies this
      ensures Valid()
      ensures likes == LikesNotOn(old(likes), id)
      ensures users == old(users) && posts == old(posts) && comments == old(comments)
      ensures postIdSeq == old(postIdSeq) && commentIdSeq == old(commentIdSeq) && clock == old(clock)
    {
      DeleteLikesKeepsConsistent(Snapshot(), id, commentIdSeq);
      likes := LikesNotOn(likes, id);
    }

    /**
     * `delete(posts).where(eq(posts.id, id))`: the foreign keys of `comments`
     * and `likes` reject the delete while a row still refers to the post, and
     * the tables are then left as they were.
     */
    method DeletePostRow(id: int) returns (r: Result<()>)
      requires Valid()
      modifies this
      ensures Valid()
      ensures r.Err? <==> PostReferenced(old(Snapshot()), id)
      ensures r.Err? ==> r.error == ForeignKeyViolation && posts == old(posts)
      ensures r.Ok? ==> posts == PostsWithout(old(posts), id)
      ensures users == old(users) && comments == old(comments) && likes == old(likes)
      ensures postIdSeq == old(postIdSeq) && commentIdSeq == old(commentIdSeq) && clock == old(clock)
    {
      if PostReferenced(Snapshot(), id) {
        r := Err(ForeignKeyViolation);
      } else {
        DeletePostRowKeepsConsistent(Snapshot(), id, commentIdSeq);
        posts := PostsWithout(posts, id);
        r := Ok(());
      }
    }

    /** `createComment`: insert the comment with the next comment id. */
    method CreateComment(c: NewComment) returns (r: Result<Comment>)
      requires Valid()
      modifies this
      ensures Valid()
      ensures r == NewCommentRow(old(Snapshot()), c, old(commentIdSeq), old(clock))
      ensures comments == if r.Ok? then old(comments) + [r.value] else old(comments)
      ensures commentIdSeq == old(commentIdSeq) + 1
      ensures users == old(users) && posts == old(posts) && likes == old(likes)
      ensures postIdSeq == old(postIdSeq) && clock == old(clock) + 1
    {
      var now := clock;
      clock := clock + 1;
      var serial := commentIdSeq;
      commentIdSeq := commentIdSeq + 1;
      CreateCommentSpec(Snapshot(), c, serial, now);
      r := NewCommentRow(Snapshot(), c, serial, now);
      if r.Ok? {
        comments := comments + [r.value];
      }
    }

    /** `likePost`: insert the like unless `checkIfUserLikedPost` already finds it. */
    method LikePost(userId: string, postId: int) returns (r: Result<()>)
      requires Valid()
      modifies this
      ensures Valid()
      ensures var spec := LikeRows(old(Snapshot()), userId, postId);
        && (spec.Ok? ==> likes == spec.value && r.Ok?)
        && (spec.Err? ==> likes == old(likes) && r == Err(spec.error))
      ensures users == old(users) && posts == old(posts) && comments == old(comments)
      ensures postIdSeq == old(postIdSeq) && commentIdSeq == old(commentIdSeq) && clock == old(clock)
    {
      LikePostSpec(Snapshot(), userId, postId);
      var alreadyLiked := CheckIfUserLikedPost(likes, userId, postId);
      if alreadyLiked {
        r := Ok(());
      } else if userId !in UserIds(users) || postId !in PostIds(posts) {
        r := Err(ForeignKeyViolation);
      } else {
        likes := likes + [Like(userId, postId)];
        r := Ok(());
      }
    }

    /** `unlikePost`: delete the `(userId, postId)` row, if any. */
    method UnlikePost(userId: string, postId: int)
      requires Valid()
      modifies this
      ensures Valid()
      ensures likes == UnlikeRows(old(likes), userId, postId)
      ensures users == old(users) && posts == old(posts) && comments == old(comments)
      ensures postIdSeq == old(postIdSeq) && commentIdSeq == old(commentIdSeq) && clock == old(clock)
    {
      UnlikePostSpec(Snapshot(), userId, postId);
      likes := UnlikeRows(likes, userId, postId);
    }
  }
}
