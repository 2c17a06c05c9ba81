/**
 * The category page's service: reporting a post (the same rule as the home
 * page's) and submitting an access request unless one is already pending.
 */
module CategoryDetailsService {
  import opened Domain
  import opened Store
  import opened PostService
  import opened CategoryService
  import HomePageService

  /**
   * `SubmitReportAsync`: the category page applies the home page's rule,
   * refusing a second report on a post by one user and otherwise storing one
   * Pending report with the composed reason.
   */
  method SubmitReport(db: Store, postId: int, userId: string, reason: string, details: Option<string>, now: Time)
    returns (submitted: bool)
    requires db.Valid()
    modifies db`reports, db`nextReportId
    ensures db.Valid()
    ensures submitted <==> !HasUserReported(old(db.reports), postId, userId)
    ensures db.nextReportId == old(db.nextReportId) + (if submitted then 1 else 0)
    ensures !submitted ==> db.reports == old(db.reports)
    ensures submitted ==>
      db.reports == old(db.reports) + [HomePageService.PostReport(old(db.nextReportId), postId, userId, reason, details, now)]
  {
    submitted := HomePageService.SubmitReport(db, postId, userId, reason, details, now);
  }

  /** The row a successful `SubmitAccessRequestAsync` stores: no document, no creator, no updater. */
  function NewAccessRequest(id: int, userId: string, categoryId: int, reason: string, now: Time): AccessRequest {
    AccessRequest(id, userId, categoryId, reason, PENDING, None, now, now, None, None)
  }

  /**
   * `SubmitAccessRequestAsync`: refused, changing nothing, while the user has
   * a Pending request for the category; otherwise one new Pending request.
   */
  method SubmitAccessRequest(db: Store, userId: string, categoryId: int, reason: string, now: Time)
    returns (submitted: bool)
    requires db.Valid()
    modifies db`requests, db`nextRequestId
    ensures db.Valid()
    ensures submitted <==> !HasPendingAccessRequest(old(db.requests), userId, categoryId)
    ensures db.nextRequestId == old(db.nextRequestId) + (if submitted then 1 else 0)
    ensures !submitted ==> db.requests == old(db.requests)
    ensures submitted ==>
      db.requests == old(db.requests) + [NewAccessRequest(old(db.nextRequestId), userId, categoryId, reason, now)]
  {
    if HasPendingAccessRequest(db.requests, userId, categoryId) {
      return false;
    }
    var id := CreateAccessRequest(db, NewAccessRequest(0, userId, categoryId, reason, now));
    submitted := true;
  }

  /**
   * A submission leaves the pair with a Pending request whichever way it
   * went, so an immediate second submission is refused.
   */
  lemma SubmissionLeavesPending(rs: seq<AccessRequest>, id: int, userId: string, categoryId: int, reason: string, now: Time)
    ensures var after := if HasPendingAccessRequest(rs, userId, categoryId) then rs
                         else rs + [NewAccessRequest(id, userId, categoryId, reason, now)];
      HasPendingAccessRequest(after, userId, categoryId)
  {
    if !HasPendingAccessRequest(rs, userId, categoryId) {
      var after := rs + [NewAccessRequest(id, userId, categoryId, reason, now)];
      assert after[|rs|].userId == userId && after[|rs|].categoryId == categoryId && after[|rs|].status == PENDING;
    }
  }
}
