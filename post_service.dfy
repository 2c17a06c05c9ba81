/**
 * The post service: likes, like counts, report lookups on a post, the
 * followed-categories feed and a post's comment thread.
 */
module PostService {
  import opened Domain
  import opened Seqs
  import opened Ordering
  import opened Store
  import opened Membership

  /** A like is identified by the pair (post, user). */
  function LikeKey(l: PostLike): (int, string) {
    (l.postId, l.userId)
  }

  ghost predicate IsLiked(likes: seq<PostLike>, postId: int, userId: string) {
    Has(likes, LikeKey, (postId, userId))
  }

  /** `ToggleLikeAsync`: removes the user's like and answers false, or adds one and answers true. */
  method ToggleLike(db: Store, postId: int, userId: string, now: Time) returns (liked: bool)
    modifies db`likes
    ensures (db.likes, liked) == Toggle(old(db.likes), LikeKey, (postId, userId), PostLike(postId, userId, now))
    ensures liked <==> !IsLiked(old(db.likes), postId, userId)
  {
    var existing := FindKey(db.likes, LikeKey, (postId, userId));
    if existing.Some? {
      db.likes := RemoveAt(db.likes, existing.value);
      liked := false;
    } else {
      db.likes := db.likes + [PostLike(postId, userId, now)];
      liked := true;
    }
  }

  predicate OnPost(postId: int, l: PostLike) {
    l.postId == postId
  }

  /** `GetLikeCountAsync`: the number of likes on the post. */
  function LikeCount(likes: seq<PostLike>, postId: int): (n: nat)
    ensures n <= |likes|
    ensures n == 0 <==> forall i :: 0 <= i < |likes| ==> likes[i].postId != postId
  {
    Count(likes, (l: PostLike) => OnPost(postId, l))
  }

  /**
   * A like toggle, on a table without duplicate (post, user) pairs: the
   * user's like is there afterwards exactly when the toggle answered true,
   * no duplicate appears, every other pair keeps its state, the post's count
   * moves by one in the answer's direction, and other posts keep their count.
   */
  lemma ToggleLikeEffects(likes: seq<PostLike>, postId: int, userId: string, now: Time, otherPost: int)
    requires UniqueKeys(likes, LikeKey)
    ensures var r := Toggle(likes, LikeKey, (postId, userId), PostLike(postId, userId, now));
      && IsLiked(r.0, postId, userId) == r.1
      && UniqueKeys(r.0, LikeKey)
      && KeySet(r.0, LikeKey) == (if r.1 then KeySet(likes, LikeKey) + {(postId, userId)}
                                  else KeySet(likes, LikeKey) - {(postId, userId)})
      && LikeCount(r.0, postId) == (if r.1 then LikeCount(likes, postId) + 1 else LikeCount(likes, postId) - 1)
      && (otherPost != postId ==> LikeCount(r.0, otherPost) == LikeCount(likes, otherPost))
  {
    var row := PostLike(postId, userId, now);
    ToggleKeySet(likes, LikeKey, (postId, userId), row);
    ToggleCount(likes, LikeKey, (postId, userId), row, (l: PostLike) => OnPost(postId, l));
    ToggleCount(likes, LikeKey, (postId, userId), row, (l: PostLike) => OnPost(otherPost, l));
  }

  /** Liking and unliking (in either order) restores the set of liked pairs. */
  lemma ToggleLikeTwice(likes: seq<PostLike>, postId: int, userId: string, t1: Time, t2: Time)
    requires UniqueKeys(likes, LikeKey)
    ensures var once := Toggle(likes, LikeKey, (postId, userId), PostLike(postId, userId, t1));
      var twice := Toggle(once.0, LikeKey, (postId, userId), PostLike(postId, userId, t2));
      KeySet(twice.0, LikeKey) == KeySet(likes, LikeKey) && twice.1 == !once.1
  {
    ToggleTwice(likes, LikeKey, (postId, userId), PostLike(postId, userId, t1), PostLike(postId, userId, t2));
  }

  predicate ReportedBy(postId: int, userId: string, r: Report) {
    r.postId == Some(postId) && r.reporterId == userId
  }

  /** `HasUserReportedAsync`. */
  function HasUserReported(rs: seq<Report>, postId: int, userId: string): (b: bool)
    ensures b <==> exists i :: 0 <= i < |rs| && rs[i].postId == Some(postId) && rs[i].reporterId == userId
  {
    FirstIndex(rs, (r: Report) => ReportedBy(postId, userId, r)).Some?
  }

  predicate DismissedOn(postId: int, r: Report) {
    r.postId == Some(postId) && r.status == DISMISSED
  }

  /** `IsReportDismissedAsync`. */
  function IsReportDismissed(rs: seq<Report>, postId: int): (b: bool)
    ensures b <==> exists i :: 0 <= i < |rs| && rs[i].postId == Some(postId) && rs[i].status == DISMISSED
  {
    FirstIndex(rs, (r: Report) => DismissedOn(postId, r)).Some?
  }

  function PostDate(p: Post): int { p.dateCreated }

  predicate InFeed(followed: seq<int>, p: Post) {
    p.categoryId in followed
  }

  /** `GetUserFeedPostsAsync`: the posts of the followed categories, newest first. */
  function UserFeedPosts(posts: seq<Post>, followed: seq<int>): (r: seq<Post>)
    ensures forall p :: p in r <==> p in posts && p.categoryId in followed
    ensures multiset(r) == multiset(Filter(posts, (p: Post) => InFeed(followed, p)))
    ensures SortedDesc(r, PostDate)
  {
    SortDesc(Filter(posts, (p: Post) => InFeed(followed, p)), PostDate)
  }

  /** A negated timestamp: sorting by it descending is `OrderBy(DateCreated)`. */
  function CommentAge(c: Comment): int { -c.dateCreated }

  predicate OnPostComment(postId: int, c: Comment) {
    c.postId == postId
  }

  /** `GetPostCommentsAsync`: the post's comments, oldest first. */
  function PostComments(comments: seq<Comment>, postId: int): (r: seq<Comment>)
    ensures forall c :: c in r <==> c in comments && c.postId == postId
    ensures forall c :: multiset(r)[c] == if c.postId == postId then multiset(comments)[c] else 0
    ensures forall i, j :: 0 <= i < j < |r| ==> r[i].dateCreated <= r[j].dateCreated
  {
    var sorted := SortDesc(Filter(comments, (c: Comment) => OnPostComment(postId, c)), CommentAge);
    assert forall i, j :: 0 <= i < j < |sorted| ==> CommentAge(sorted[i]) >= CommentAge(sorted[j]);
    sorted
  }
}
