/**
 * The persistent store the services reach through their data context: one
 * table per entity, each a sequence of records, plus the identity counters
 * the database uses to number new rows.
 */
module Store {
  import opened Domain
  import opened Seqs

  /** Keys are positive, below the identity counter, and pairwise distinct. */
  ghost predicate KeysValid<T>(s: seq<T>, key: T -> int, next: int) {
    1 <= next
    && (forall i :: 0 <= i < |s| ==> 1 <= key(s[i]) < next)
    && (forall i, j :: 0 <= i < j < |s| ==> key(s[i]) != key(s[j]))
  }

  function ReportKey(r: Report): int { r.id }
  function RequestKey(r: AccessRequest): int { r.id }
  function PostKey(p: Post): int { p.id }
  function CommentKey(c: Comment): int { c.id }
  function CategoryKey(c: Category): int { c.id }

  /** `FindAsync(id)` on each table: the position of the row with that key. */
  function FindReport(rs: seq<Report>, id: int): Option<nat> { FirstIndex(rs, (r: Report) => r.id == id) }
  function FindRequest(rs: seq<AccessRequest>, id: int): Option<nat> { FirstIndex(rs, (r: AccessRequest) => r.id == id) }
  function FindPost(ps: seq<Post>, id: int): Option<nat> { FirstIndex(ps, (p: Post) => p.id == id) }
  function FindComment(cs: seq<Comment>, id: int): Option<nat> { FirstIndex(cs, (c: Comment) => c.id == id) }
  function FindCategory(cs: seq<Category>, id: int): Option<nat> { FirstIndex(cs, (c: Category) => c.id == id) }
  function FindUser(us: seq<User>, id: string): Option<nat> { FirstIndex(us, (u: User) => u.id == id) }

  /** `s` without the row at `i`, or unchanged when nothing was found. */
  function RemoveFound<T>(s: seq<T>, i: Option<nat>): (r: seq<T>)
    requires i.Some? ==> i.value < |s|
    ensures i.None? ==> r == s
    ensures i.Some? ==> r == RemoveAt(s, i.value)
  {
    if i.Some? then RemoveAt(s, i.value) else s
  }

  class Store {
    var reports: seq<Report>
    var posts: seq<Post>
    var comments: seq<Comment>
    var likes: seq<PostLike>
    var follows: seq<CategoryFollow>
    var requests: seq<AccessRequest>
    var categories: seq<Category>
    var users: seq<User>

    /** Identity counters: the key the next inserted row receives. */
    var nextReportId: int
    var nextRequestId: int
    var nextPostId: int
    var nextCommentId: int

    ghost predicate Valid()
      reads this
    {
      && KeysValid(reports, ReportKey, nextReportId)
      && KeysValid(requests, RequestKey, nextRequestId)
      && KeysValid(posts, PostKey, nextPostId)
      && KeysValid(comments, CommentKey, nextCommentId)
      && (forall i, j :: 0 <= i < j < |categories| ==> categories[i].id != categories[j].id)
      && (forall i, j :: 0 <= i < j < |users| ==> users[i].id != users[j].id)
    }

    constructor ()
      ensures Valid()
      ensures reports == [] && posts == [] && comments == [] && likes == [] && follows == []
      ensures requests == [] && categories == [] && users == []
    {
      reports, posts, comments, likes, follows := [], [], [], [], [];
      requests, categories, users := [], [], [];
      nextReportId, nextRequestId, nextPostId, nextCommentId := 1, 1, 1, 1;
    }

    /** `Reports.Add` + `SaveChanges`: the row is stored under the next identity key. */
    method AddReport(r: Report) returns (id: int)
      requires Valid()
      modifies this`reports, this`nextReportId
      ensures Valid()
      ensures id == old(nextReportId) && nextReportId == id + 1
      ensures reports == old(reports) + [r.(id := id)]
    {
      id := nextReportId;
      reports := reports + [r.(id := id)];
      nextReportId := nextReportId + 1;
    }

    /** `CategoryAccessRequests.Add` + `SaveChanges`. */
    method AddRequest(r: AccessRequest) returns (id: int)
      requires Valid()
      modifies this`requests, this`nextRequestId
      ensures Valid()
      ensures id == old(nextRequestId) && nextRequestId == id + 1
      ensures requests == old(requests) + [r.(id := id)]
    {
      id := nextRequestId;
      requests := requests + [r.(id := id)];
      nextRequestId := nextRequestId + 1;
    }

    /** An in-place update of a tracked request row followed by `SaveChanges`; the key is kept. */
    method SetRequest(i: nat, r: AccessRequest)
      requires Valid()
      requires i < |requests| && r.id == requests[i].id
      modifies this`requests
      ensures Valid()
      ensures requests == old(requests)[i := r]
    {
      requests := requests[i := r];
      assert forall j :: 0 <= j < |requests| ==> RequestKey(requests[j]) == RequestKey(old(requests)[j]);
    }

    /** `Posts.Add` + `SaveChanges`. */
    method AddPost(p: Post) returns (id: int)
      requires Valid()
      modifies this`posts, this`nextPostId
      ensures Valid()
      ensures id == old(nextPostId) && nextPostId == id + 1
      ensures posts == old(posts) + [p.(id := id)]
    {
      id := nextPostId;
      posts := posts + [p.(id := id)];
      nextPostId := nextPostId + 1;
    }

    /** `Comments.Add` + `SaveChanges`. */
    method AddComment(c: Comment) returns (id: int)
      requires Valid()
      modifies this`comments, this`nextCommentId
      ensures Valid()
      ensures id == old(nextCommentId) && nextCommentId == id + 1
      ensures comments == old(comments) + [c.(id := id)]
    {
      id := nextCommentId;
      comments := comments + [c.(id := id)];
      nextCommentId := nextCommentId + 1;
    }
  }
}
