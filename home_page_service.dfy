/**
 * The home page's service: reporting a post, searching posts and users, and
 * refreshing the likes of a loaded post.
 */
module HomePageService {
  import opened Domain
  import opened Seqs
  import opened Text
  import opened Ordering
  import opened Store
  import opened PostService

  const REASON_SEPARATOR := ": "

  /** The stored reason: the details are appended after ": " unless they are null or blank. */
  function ComposeReason(reason: string, details: Option<string>): string {
    if IsNullOrWhiteSpace(details) then reason else reason + REASON_SEPARATOR + details.value
  }

  /**
   * The stored text is the reason alone exactly for null or blank details;
   * otherwise the reason and the details can be read back from it.
   */
  lemma ComposeReasonRecoverable(reason: string, details: Option<string>)
    ensures IsNullOrWhiteSpace(details) <==> ComposeReason(reason, details) == reason
    ensures |reason| <= |ComposeReason(reason, details)| && ComposeReason(reason, details)[..|reason|] == reason
    ensures !IsNullOrWhiteSpace(details) ==>
      |ComposeReason(reason, details)| == |reason| + 2 + |details.value|
      && ComposeReason(reason, details)[|reason|..|reason| + 2] == REASON_SEPARATOR
      && ComposeReason(reason, details)[|reason| + 2..] == details.value
  {
    if !IsNullOrWhiteSpace(details) {
      var r := reason + REASON_SEPARATOR + details.value;
      assert r[..|reason|] == reason;
      assert r[|reason| + 2..] == details.value;
    }
  }

  /** The report row a successful post report stores. */
  function PostReport(id: int, postId: int, userId: string, reason: string, details: Option<string>, now: Time): Report {
    Report(id, ComposeReason(reason, details), PENDING, now, userId, Some(postId), None, None, None)
  }

  /**
   * `SubmitReportAsync`: refused, changing nothing, when the user already
   * reported the post; otherwise one Pending report on the post is stored.
   */
  method SubmitReport(db: Store, postId: int, userId: string, reason: string, details: Option<string>, now: Time)
    returns (submitted: bool)
    requires db.Valid()
    modifies db`reports, db`nextReportId
    ensures db.Valid()
    ensures submitted <==> !HasUserReported(old(db.reports), postId, userId)
    ensures db.nextReportId == old(db.nextReportId) + (if submitted then 1 else 0)
    ensures !submitted ==> db.reports == old(db.reports)
    ensures submitted ==>
      db.reports == old(db.reports) + [PostReport(old(db.nextReportId), postId, userId, reason, details, now)]
  {
    var existing := FirstIndex(db.reports, (r: Report) => ReportedBy(postId, userId, r));
    if existing.Some? {
      return false;
    }
    var id := db.AddReport(PostReport(0, postId, userId, reason, details, now));
    submitted := true;
  }

  /** After a successful report, a second one by the same user on the same post is refused. */
  lemma SecondReportRefused(rs: seq<Report>, id: int, postId: int, userId: string, reason: string,
                            details: Option<string>, now: Time)
    ensures HasUserReported(rs + [PostReport(id, postId, userId, reason, details, now)], postId, userId)
  {
    var s := rs + [PostReport(id, postId, userId, reason, details, now)];
    assert s[|rs|].postId == Some(postId) && s[|rs|].reporterId == userId;
  }

  const SEARCH_LIMIT := 10

  function Min(a: int, b: int): int { if a < b then a else b }

  /** A post matches when its content or its author's user name contains the lower-cased term. */
  predicate PostMatches(users: seq<User>, term: string, p: Post) {
    || Contains(ToLower(p.content), term)
    || (match FindUser(users, p.userId)
        case None => false
        case Some(i) => Contains(ToLower(users[i].userName), term))
  }

  /** `SearchPostsAsync`: nothing for a blank term; otherwise the ten newest matching posts. */
  function SearchPosts(posts: seq<Post>, users: seq<User>, searchTerm: string): (r: seq<Post>)
    ensures IsBlank(searchTerm) ==> r == []
    ensures |r| <= SEARCH_LIMIT
    ensures !IsBlank(searchTerm) ==>
      |r| == Min(SEARCH_LIMIT, Count(posts, (p: Post) => PostMatches(users, ToLower(searchTerm), p)))
    ensures forall p :: p in r ==> p in posts && PostMatches(users, ToLower(searchTerm), p)
    ensures SortedDesc(r, PostDate)
    ensures !IsBlank(searchTerm) ==>
      forall p, q :: p in posts && PostMatches(users, ToLower(searchTerm), p) && p !in r && q in r ==>
        q.dateCreated >= p.dateCreated
  {
    if IsBlank(searchTerm) then []
    else TopN(posts, (p: Post) => PostMatches(users, ToLower(searchTerm), p), PostDate, SEARCH_LIMIT)
  }

  /**
   * The search never repeats a post in place of another: each matching post
   * is kept at most as often as it is stored, and with at most ten matches
   * every one of them is kept.
   */
  lemma SearchPostsMultiplicity(posts: seq<Post>, users: seq<User>, searchTerm: string)
    ensures forall p :: multiset(SearchPosts(posts, users, searchTerm))[p]
                        <= if PostMatches(users, ToLower(searchTerm), p) then multiset(posts)[p] else 0
    ensures !IsBlank(searchTerm) && Count(posts, (p: Post) => PostMatches(users, ToLower(searchTerm), p)) <= SEARCH_LIMIT ==>
      forall p :: multiset(SearchPosts(posts, users, searchTerm))[p]
                  == if PostMatches(users, ToLower(searchTerm), p) then multiset(posts)[p] else 0
  {
    if !IsBlank(searchTerm) {
      TopNMultiplicity(posts, (p: Post) => PostMatches(users, ToLower(searchTerm), p), PostDate, SEARCH_LIMIT);
    }
  }

  /** A user matches on the user name or, when there is one, the display name. */
  predicate UserMatches(term: string, u: User) {
    Contains(ToLower(u.userName), term) || (u.displayName.Some? && Contains(ToLower(u.displayName.value), term))
  }

  /** `SearchUsersAsync`: nothing for a blank term; otherwise at most ten matching users. */
  function SearchUsers(users: seq<User>, searchTerm: string): (r: seq<User>)
    ensures IsBlank(searchTerm) ==> r == []
    ensures |r| <= SEARCH_LIMIT
    ensures !IsBlank(searchTerm) ==>
      |r| == Min(SEARCH_LIMIT, Count(users, (u: User) => UserMatches(ToLower(searchTerm), u)))
    ensures forall u :: u in r ==> u in users && UserMatches(ToLower(searchTerm), u)
    ensures !IsBlank(searchTerm) && Count(users, (u: User) => UserMatches(ToLower(searchTerm), u)) <= SEARCH_LIMIT ==>
      forall u :: u in users && UserMatches(ToLower(searchTerm), u) ==> u in r
    ensures forall u :: multiset(r)[u] <= if UserMatches(ToLower(searchTerm), u) then multiset(users)[u] else 0
    ensures !IsBlank(searchTerm) && Count(users, (u: User) => UserMatches(ToLower(searchTerm), u)) <= SEARCH_LIMIT ==>
      forall u :: multiset(r)[u] == if UserMatches(ToLower(searchTerm), u) then multiset(users)[u] else 0
  {
    if IsBlank(searchTerm) then []
    else
      var matching := Filter(users, (u: User) => UserMatches(ToLower(searchTerm), u));
      var r := Take(matching, SEARCH_LIMIT);
      assert forall u :: u in r ==> u in matching;
      assert matching == r + matching[|r|..];
      r
  }

  /** A loaded post with the likes fetched alongside it. */
  datatype PostView = PostView(post: Post, likes: seq<PostLike>)

  /** The first loaded entry for the post (`posts.FirstOrDefault(p => p.Id == postId)`). */
  function FindView(views: seq<PostView>, postId: int): Option<nat> {
    FirstIndex(views, (v: PostView) => v.post.id == postId)
  }

  /**
   * `RefreshPostLikesAsync`: the first loaded post with the id gets the
   * post's current likes; every other entry, and every post itself, stays.
   */
  function RefreshPostLikes(views: seq<PostView>, postId: int, likes: seq<PostLike>): (r: seq<PostView>)
    ensures |r| == |views|
    ensures forall i :: 0 <= i < |views| ==> r[i].post == views[i].post
    ensures FindView(views, postId).None? ==> r == views
    ensures FindView(views, postId).Some? ==>
      var i := FindView(views, postId).value;
      && (forall l :: l in r[i].likes <==> l in likes && l.postId == postId)
      && (forall l :: multiset(r[i].likes)[l] == if l.postId == postId then multiset(likes)[l] else 0)
      && |r[i].likes| == LikeCount(likes, postId)
      && (forall j :: 0 <= j < |views| && j != i ==> r[j] == views[j])
  {
    match FindView(views, postId)
    case None => views
    case Some(i) => views[i := views[i].(likes := Filter(likes, (l: PostLike) => OnPost(postId, l)))]
  }
}
