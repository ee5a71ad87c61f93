/**
 * The read side of server/storage.ts: lookups, the newest-first post lists with
 * their comment and like counts, the oldest-first comment list and the like check,
 * as functions of the tables.
 */
module Queries {
  import opened Wrappers
  import opened Schema
  import Sequences

  /**
   * `getUser`: the row with that id, if any. It takes the first match; the
   * writes locate a row by its last match (`Sequences.FindKey`). The primary
   * key makes ids unique, so there is never more than one match to choose from.
   */
  function GetUser(users: seq<User>, id: string): (r: Option<User>)
    ensures r.Some? <==> id in UserIds(users)
    ensures r.Some? ==> r.value in users && r.value.id == id
  {
    if |users| == 0 then None
    else if users[0].id == id then Some(users[0])
    else
      assert forall u | u in users :: u == users[0] || u in users[1..];
      GetUser(users[1..], id)
  }

  /** `getPostById`: the row with that id, if any. */
  function GetPostById(posts: seq<Post>, id: int): (r: Option<Post>)
    ensures r.Some? <==> id in PostIds(posts)
    ensures r.Some? ==> r.value in posts && r.value.id == id
  {
    if |posts| == 0 then None
    else if posts[0].id == id then Some(posts[0])
    else
      assert forall p | p in posts :: p == posts[0] || p in posts[1..];
      GetPostById(posts[1..], id)
  }

  /**
   * `checkIfUserLikedPost`: whether the `(userId, postId)` row exists. The
   * ensures is the query's `where userId = ? and postId = ?` over the rows;
   * the like and unlike steps state their effects in terms of it.
   */
  function CheckIfUserLikedPost(likes: seq<Like>, userId: string, postId: int): (b: bool)
    ensures b <==> exists i | 0 <= i < |likes| :: likes[i].userId == userId && likes[i].postId == postId
  {
    Like(userId, postId) in likes
  }

  /** The posts owned by `userId` (`where: eq(posts.userId, userId)`), in table order. */
  function PostsOf(posts: seq<Post>, userId: string): (r: seq<Post>)
    ensures forall p :: p in r <==> p in posts && p.userId == userId
  {
    Sequences.Filter(posts, (p: Post) => p.userId == userId)
  }

  /** The comments on post `postId` (`where: eq(comments.postId, postId)`), in table order. */
  function CommentsOf(comments: seq<Comment>, postId: int): (r: seq<Comment>)
    ensures forall c :: c in r <==> c in comments && c.postId == postId
  {
    Sequences.Filter(comments, (c: Comment) => c.postId == postId)
  }

  /** The like rows of post `postId`, in table order. */
  function LikesOf(likes: seq<Like>, postId: int): (r: seq<Like>)
    ensures forall l :: l in r <==> l in likes && l.postId == postId
  {
    Sequences.Filter(likes, (l: Like) => l.postId == postId)
  }

  /** `SELECT post_id FROM comments WHERE post_id IN (ids)`, one entry per row. */
  function CommentPostIdsIn(comments: seq<Comment>, ids: seq<int>): seq<int> {
    if |comments| == 0 then []
    else
      var last := comments[|comments| - 1];
      CommentPostIdsIn(comments[..|comments| - 1], ids) + if last.postId in ids then [last.postId] else []
  }

  /** `SELECT post_id FROM likes WHERE post_id IN (ids)`, one entry per row. */
  function LikePostIdsIn(likes: seq<Like>, ids: seq<int>): seq<int> {
    if |likes| == 0 then []
    else
      var last := likes[|likes| - 1];
      LikePostIdsIn(likes[..|likes| - 1], ids) + if last.postId in ids then [last.postId] else []
  }

  /** `GROUP BY post_id` with `count()`, collected into a `Map` from post id to count. */
  function GroupCount(keys: seq<int>): map<int, nat> {
    if |keys| == 0 then map[]
    else
      var counts := GroupCount(keys[..|keys| - 1]);
      var k := keys[|keys| - 1];
      counts[k := CountOr0(counts, k) + 1]
  }

  /** `countMap.get(id) || 0`: a post without a group has count zero. */
  function CountOr0(counts: map<int, nat>, k: int): nat {
    if k in counts then counts[k] else 0
  }

  /** How many entries of `keys` equal `k`. */
  function Occurrences(keys: seq<int>, k: int): nat {
    if |keys| == 0 then 0
    else Occurrences(keys[..|keys| - 1], k) + if keys[|keys| - 1] == k then 1 else 0
  }

  /** Looking a key up in the grouped counts gives its number of rows, and zero for no rows. */
  lemma {:induction false} GroupCountCounts(keys: seq<int>, k: int)
    ensures CountOr0(GroupCount(keys), k) == Occurrences(keys, k)
    ensures k in GroupCount(keys) <==> Occurrences(keys, k) > 0
  {
    if |keys| > 0 {
      GroupCountCounts(keys[..|keys| - 1], k);
    }
  }

  lemma {:induction false} CommentKeysCount(comments: seq<Comment>, ids: seq<int>, k: int)
    requires k in ids
    ensures Occurrences(CommentPostIdsIn(comments, ids), k) == |CommentsOf(comments, k)|
  {
    if |comments| > 0 {
      var init := comments[..|comments| - 1];
      CommentKeysCount(init, ids, k);
      var last := comments[|comments| - 1];
      var keys := CommentPostIdsIn(comments, ids);
      if last.postId in ids {
        assert keys == CommentPostIdsIn(init, ids) + [last.postId];
        assert keys[..|keys| - 1] == CommentPostIdsIn(init, ids);
      } else {
        assert keys == CommentPostIdsIn(init, ids);
        assert CommentsOf(comments, k) == CommentsOf(init, k);
      }
    }
  }

  lemma {:induction false} LikeKeysCount(likes: seq<Like>, ids: seq<int>, k: int)
    requires k in ids
    ensures Occurrences(LikePostIdsIn(likes, ids), k) == |LikesOf(likes, k)|
  {
    if |likes| > 0 {
      var init := likes[..|likes| - 1];
      LikeKeysCount(init, ids, k);
      var last := likes[|likes| - 1];
      var keys := LikePostIdsIn(likes, ids);
      if last.postId in ids {
        assert keys == LikePostIdsIn(init, ids) + [last.postId];
        assert keys[..|keys| - 1] == LikePostIdsIn(init, ids);
      } else {
        assert keys == LikePostIdsIn(init, ids);
        assert LikesOf(likes, k) == LikesOf(init, k);
      }
    }
  }

  /** `postsWithUsers.map(post => post.id)`. */
  function PostIdList(posts: seq<Post>): (ids: seq<int>)
    ensures |ids| == |posts|
    ensures forall k :: k in ids <==> k in PostIds(posts)
  {
    var ids := seq(|posts|, i requires 0 <= i < |posts| => posts[i].id);
    assert forall k | k in PostIds(posts) :: k in ids by {
      forall k | k in PostIds(posts) ensures k in ids {
        var p :| p in posts && p.id == k;
        var i :| 0 <= i < |posts| && posts[i] == p;
        assert ids[i] == k;
      }
    }
    ids
  }

  /**
   * The tail shared by `getAllPosts` and `getPostsByUserId`: each found post with
   * its author and the two counts, grouped over the found ids only when there are any.
   */
  function WithUserAndCounts(t: Tables, found: seq<Post>): (r: seq<PostWithUser>)
    ensures |r| == |found|
  {
    var ids := PostIdList(found);
    var commentCounts := if |ids| > 0 then GroupCount(CommentPostIdsIn(t.comments, ids)) else map[];
    var likeCounts := if |ids| > 0 then GroupCount(LikePostIdsIn(t.likes, ids)) else map[];
    seq(|found|, i requires 0 <= i < |found| =>
      PostWithUser(found[i], GetUser(t.users, found[i].userId),
                   CountOr0(commentCounts, found[i].id), CountOr0(likeCounts, found[i].id)))
  }

  /** `orderBy: [desc(posts.createdAt)]`. */
  function NewestFirst(p: Post): int {
    -(p.createdAt as int)
  }

  /** `orderBy: [comments.createdAt]`. */
  function OldestFirst(c: Comment): int {
    c.createdAt
  }

  /** `getAllPosts`. */
  function GetAllPosts(t: Tables): (r: seq<PostWithUser>)
    ensures |r| == |t.posts|
  {
    WithUserAndCounts(t, Sequences.SortBy(t.posts, NewestFirst))
  }

  /** `getPostsByUserId`. */
  function GetPostsByUserId(t: Tables, userId: string): (r: seq<PostWithUser>)
    ensures |r| == |PostsOf(t.posts, userId)|
  {
    WithUserAndCounts(t, Sequences.SortBy(PostsOf(t.posts, userId), NewestFirst))
  }

  /** `getCommentsByPostId`. */
  function GetCommentsByPostId(t: Tables, postId: int): (r: seq<CommentWithUser>)
    ensures |r| == |CommentsOf(t.comments, postId)|
  {
    var found := Sequences.SortBy(CommentsOf(t.comments, postId), OldestFirst);
    seq(|found|, i requires 0 <= i < |found| =>
      CommentWithUser(found[i], GetUser(t.users, found[i].userId)))
  }

  function PostsIn(views: seq<PostWithUser>): seq<Post> {
    seq(|views|, i requires 0 <= i < |views| => views[i].post)
  }

  function CommentsIn(views: seq<CommentWithUser>): seq<Comment> {
    seq(|views|, i requires 0 <= i < |views| => views[i].comment)
  }

  /**
   * Each view carries its own post, the author row (when it exists), and the
   * numbers of comment and like rows that reference that post, zero when none do.
   */
  lemma ViewsOfFound(t: Tables, found: seq<Post>)
    ensures var r := WithUserAndCounts(t, found);
            && PostsIn(r) == found
            && (forall i | 0 <= i < |r| :: r[i].user == GetUser(t.users, found[i].userId))
            && (forall i | 0 <= i < |r| ::
                  r[i].commentCount == |CommentsOf(t.comments, found[i].id)| &&
                  r[i].likeCount == |LikesOf(t.likes, found[i].id)|)
  {
    var r := WithUserAndCounts(t, found);
    var ids := PostIdList(found);
    forall i | 0 <= i < |r|
      ensures r[i].commentCount == |CommentsOf(t.comments, found[i].id)|
      ensures r[i].likeCount == |LikesOf(t.likes, found[i].id)|
    {
      var k := found[i].id;
      assert k in ids by { assert ids[i] == k; }
      CommentKeysCount(t.comments, ids, k);
      LikeKeysCount(t.likes, ids, k);
      GroupCountCounts(CommentPostIdsIn(t.comments, ids), k);
      GroupCountCounts(LikePostIdsIn(t.likes, ids), k);
    }
  }

  /**
   * Views built over posts already sorted newest first keep that order, and each
   * carries its author and its counts.
   */
  lemma NewestFirstViews(t: Tables, found: seq<Post>)
    requires Sequences.SortedBy(found, NewestFirst)
    ensures var r := WithUserAndCounts(t, found);
            && PostsIn(r) == found
            && (forall i, j | 0 <= i < j < |r| :: r[i].post.createdAt >= r[j].post.createdAt)
            && (forall i | 0 <= i < |r| :: r[i].user == GetUser(t.users, r[i].post.userId))
            && (forall i | 0 <= i < |r| ::
                  r[i].commentCount == |CommentsOf(t.comments, r[i].post.id)| &&
                  r[i].likeCount == |LikesOf(t.likes, r[i].post.id)|)
  {
    ViewsOfFound(t, found);
    var r := WithUserAndCounts(t, found);
    forall i, j | 0 <= i < j < |r| ensures r[i].post.createdAt >= r[j].post.createdAt {
      assert r[i].post == found[i] && r[j].post == found[j];
      assert NewestFirst(found[i]) <= NewestFirst(found[j]);
    }
  }

  /**
   * `getAllPosts` lists every post exactly as often as the table holds it,
   * newest first, each with its author and its comment and like counts.
   */
  lemma GetAllPostsCorrect(t: Tables)
    ensures var r := GetAllPosts(t);
            && multiset(PostsIn(r)) == multiset(t.posts)
            && (forall i, j | 0 <= i < j < |r| :: r[i].post.createdAt >= r[j].post.createdAt)
            && (forall i | 0 <= i < |r| :: r[i].user == GetUser(t.users, r[i].post.userId))
            && (forall i | 0 <= i < |r| ::
                  r[i].commentCount == |CommentsOf(t.comments, r[i].post.id)| &&
                  r[i].likeCount == |LikesOf(t.likes, r[i].post.id)|)
  {
    NewestFirstViews(t, Sequences.SortBy(t.posts, NewestFirst));
  }

  /**
   * `getPostsByUserId` lists exactly the posts owned by that user, newest
   * first, each with its author and counts.
   */
  lemma GetPostsByUserIdCorrect(t: Tables, userId: string)
    ensures var r := GetPostsByUserId(t, userId);
            && multiset(PostsIn(r)) == multiset(PostsOf(t.posts, userId))
            && (forall p :: p in PostsIn(r) <==> p in t.posts && p.userId == userId)
            && (forall i, j | 0 <= i < j < |r| :: r[i].post.createdAt >= r[j].post.createdAt)
            && (forall i | 0 <= i < |r| :: r[i].user == GetUser(t.users, userId))
            && (forall i | 0 <= i < |r| ::
                  r[i].commentCount == |CommentsOf(t.comments, r[i].post.id)| &&
                  r[i].likeCount == |LikesOf(t.likes, r[i].post.id)|)
  {
    var owned := PostsOf(t.posts, userId);
    var found := Sequences.SortBy(owned, NewestFirst);
    NewestFirstViews(t, found);
    OwnViews(t, userId, WithUserAndCounts(t, found), owned);
  }

  /**
   * Views whose posts are a permutation of one user's posts hold exactly that
   * user's posts, each paired with that user.
   */
  lemma OwnViews(t: Tables, userId: string, views: seq<PostWithUser>, owned: seq<Post>)
    requires owned == PostsOf(t.posts, userId)
    requires multiset(PostsIn(views)) == multiset(owned)
    requires forall i | 0 <= i < |views| :: views[i].user == GetUser(t.users, views[i].post.userId)
    ensures forall p :: p in PostsIn(views) <==> p in t.posts && p.userId == userId
    ensures forall i | 0 <= i < |views| :: views[i].user == GetUser(t.users, userId)
  {
    var found := PostsIn(views);
    forall p ensures p in found <==> p in owned {
      assert p in found <==> p in multiset(found);
      assert p in owned <==> p in multiset(owned);
    }
    forall i | 0 <= i < |views| ensures views[i].user == GetUser(t.users, userId) {
      assert found[i] in found;
    }
  }

  /**
   * `getCommentsByPostId` lists exactly the comments on that post, oldest
   * first, each with its author.
   */
  lemma GetCommentsByPostIdCorrect(t: Tables, postId: int)
    ensures var r := GetCommentsByPostId(t, postId);
            && multiset(CommentsIn(r)) == multiset(CommentsOf(t.comments, postId))
            && (forall c :: c in CommentsIn(r) <==> c in t.comments && c.postId == postId)
            && (forall i, j | 0 <= i < j < |r| :: r[i].comment.createdAt <= r[j].comment.createdAt)
            && (forall i | 0 <= i < |r| :: r[i].user == GetUser(t.users, r[i].comment.userId))
  {
    var matching := CommentsOf(t.comments, postId);
    var found := Sequences.SortBy(matching, OldestFirst);
    var r := GetCommentsByPostId(t, postId);
    assert CommentsIn(r) == found;
    forall c ensures c in CommentsIn(r) <==> c in t.comments && c.postId == postId {
      assert c in found <==> c in multiset(found);
      assert c in matching <==> c in multiset(matching);
    }
    forall i, j | 0 <= i < j < |r| ensures r[i].comment.createdAt <= r[j].comment.createdAt {
      assert OldestFirst(found[i]) <= OldestFirst(found[j]);
    }
  }

  /** Under the foreign keys every post of the feed has its author row. */
  lemma AllPostsHaveAuthors(t: Tables)
    requires ForeignKeysHold(t)
    ensures forall v | v in GetAllPosts(t) :: v.user.Some? && v.user.value.id == v.post.userId
  {
    GetAllPostsCorrect(t);
    ViewsHaveAuthors(t, GetAllPosts(t));
  }

  /** Views of stored posts, each with the author looked up by userId, all have their author. */
  lemma ViewsHaveAuthors(t: Tables, views: seq<PostWithUser>)
    requires ForeignKeysHold(t)
    requires multiset(PostsIn(views)) == multiset(t.posts)
    requires forall i | 0 <= i < |views| :: views[i].user == GetUser(t.users, views[i].post.userId)
    ensures forall v | v in views :: v.user.Some? && v.user.value.id == v.post.userId
  {
    forall v | v in views ensures v.user.Some? && v.user.value.id == v.post.userId {
      var i :| 0 <= i < |views| && views[i] == v;
      assert PostsIn(views)[i] == v.post;
      assert v.post in multiset(PostsIn(views));
    }
  }

  /** Under the foreign keys every listed comment has its author row. */
  lemma CommentsHaveAuthors(t: Tables, postId: int)
    requires ForeignKeysHold(t)
    ensures forall v | v in GetCommentsByPostId(t, postId) ::
              v.user.Some? && v.user.value.id == v.comment.userId
  {
    var matching := CommentsOf(t.comments, postId);
    var found := Sequences.SortBy(matching, OldestFirst);
    var cs := GetCommentsByPostId(t, postId);
    forall v | v in cs ensures v.user.Some? && v.user.value.id == v.comment.userId {
      var i :| 0 <= i < |cs| && cs[i] == v;
      assert v.comment == found[i];
      assert found[i] in multiset(matching);
    }
  }
}
