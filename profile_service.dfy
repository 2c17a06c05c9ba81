/**
 * The profile page's service: the follower count of a user and reporting a
 * user.
 */
module ProfileService {
  import opened Domain
  import AdminService
  import opened Store

  /** The ids of the categories the user created. */
  function OwnedCategoryIds(cs: seq<Category>, userId: string): set<int> {
    set c | c in cs && c.createdBy == userId :: c.id
  }

  /** The distinct users following any category in `owned`. */
  function Followers(owned: set<int>, follows: seq<CategoryFollow>): set<string> {
    set f | f in follows && f.categoryId in owned :: f.userId
  }

  /**
   * `GetFollowerCountAsync`: the number of distinct users following at least
   * one category the user created.
   */
  function FollowerCount(cs: seq<Category>, follows: seq<CategoryFollow>, userId: string): (n: nat)
    ensures n <= |follows|
    ensures n == 0 <==> forall f :: f in follows ==> f.categoryId !in OwnedCategoryIds(cs, userId)
    ensures (forall c :: c in cs ==> c.createdBy != userId) ==> n == 0
  {
    var owned := OwnedCategoryIds(cs, userId);
    FollowersBound(owned, follows);
    FollowersEmpty(owned, follows);
    |Followers(owned, follows)|
  }

  /** Nobody follows exactly when no follow row is on an owned category. */
  lemma FollowersEmpty(owned: set<int>, follows: seq<CategoryFollow>)
    ensures Followers(owned, follows) == {} <==> forall f :: f in follows ==> f.categoryId !in owned
  {
    forall f | f in follows && f.categoryId in owned ensures f.userId in Followers(owned, follows) { }
  }

  /** There are no more distinct followers than follow rows. */
  lemma {:induction false} FollowersBound(owned: set<int>, follows: seq<CategoryFollow>)
    ensures |Followers(owned, follows)| <= |follows|
  {
    if |follows| > 0 {
      var init := follows[..|follows| - 1];
      var last := follows[|follows| - 1];
      FollowersBound(owned, init);
      FollowersAppend(owned, init, last);
      assert follows == init + [last];
    }
  }

  /** One more follow row adds its user when it is on an owned category, and nothing otherwise. */
  lemma FollowersAppend(owned: set<int>, follows: seq<CategoryFollow>, f: CategoryFollow)
    ensures Followers(owned, follows + [f])
            == Followers(owned, follows) + (if f.categoryId in owned then {f.userId} else {})
  {
    var lhs := Followers(owned, follows + [f]);
    var rhs := Followers(owned, follows) + (if f.categoryId in owned then {f.userId} else {});
    forall u | u in lhs ensures u in rhs {
      var g :| g in follows + [f] && g.categoryId in owned && g.userId == u;
      if g != f { assert g in follows; }
    }
    forall u | u in rhs ensures u in lhs {
      if u in Followers(owned, follows) {
        var g :| g in follows && g.categoryId in owned && g.userId == u;
        assert g in follows + [f];
      } else {
        assert f in follows + [f];
      }
    }
  }

  /**
   * A follower is counted once: another follow by someone who already follows
   * one of the owner's categories leaves the count alone, while a first follow
   * of an owned category adds one and a follow elsewhere adds nothing.
   */
  lemma FollowerCountedOnce(cs: seq<Category>, follows: seq<CategoryFollow>, userId: string, f: CategoryFollow)
    ensures var owned := OwnedCategoryIds(cs, userId);
      FollowerCount(cs, follows + [f], userId)
      == if f.categoryId in owned && f.userId !in Followers(owned, follows)
         then FollowerCount(cs, follows, userId) + 1
         else FollowerCount(cs, follows, userId)
  {
    var owned := OwnedCategoryIds(cs, userId);
    FollowersAppend(owned, follows, f);
    if f.categoryId in owned && f.userId !in Followers(owned, follows) {
      assert |Followers(owned, follows) + {f.userId}| == |Followers(owned, follows)| + 1;
    } else if f.categoryId in owned {
      assert Followers(owned, follows) + {f.userId} == Followers(owned, follows);
    }
  }

  /** Some report by `reporterId` targets the user (the duplicate check of `SubmitUserReportAsync`). */
  predicate ReportedUserBy(targetUserId: string, reporterId: string, r: Report) {
    r.targetUserId == Some(targetUserId) && r.reporterId == reporterId
  }

  function HasReportedUser(rs: seq<Report>, targetUserId: string, reporterId: string): (b: bool)
    ensures b <==> exists i :: 0 <= i < |rs| && rs[i].targetUserId == Some(targetUserId) && rs[i].reporterId == reporterId
  {
    Seqs.FirstIndex(rs, (r: Report) => ReportedUserBy(targetUserId, reporterId, r)).Some?
  }

  /** The row a successful user report stores: Pending, targeting only the user. */
  function UserReport(id: int, targetUserId: string, reporterId: string, reason: string, now: Time): Report {
    Report(id, reason, PENDING, now, reporterId, None, None, None, Some(targetUserId))
  }

  /**
   * `SubmitUserReportAsync`: refused, changing nothing, when the reporter
   * already reported the user; otherwise one Pending report on the user.
   */
  method SubmitUserReport(db: Store, targetUserId: string, reporterId: string, reason: string, now: Time)
    returns (submitted: bool)
    requires db.Valid()
    modifies db`reports, db`nextReportId
    ensures db.Valid()
    ensures submitted <==> !HasReportedUser(old(db.reports), targetUserId, reporterId)
    ensures db.nextReportId == old(db.nextReportId) + (if submitted then 1 else 0)
    ensures !submitted ==> db.reports == old(db.reports)
    ensures submitted ==>
      db.reports == old(db.reports) + [UserReport(old(db.nextReportId), targetUserId, reporterId, reason, now)]
  {
    if HasReportedUser(db.reports, targetUserId, reporterId) {
      return false;
    }
    var id := db.AddReport(UserReport(0, targetUserId, reporterId, reason, now));
    submitted := true;
  }

  /**
   * The stored user report has the user as its only target, so the
   * moderation console's dismiss and undo group it with an anchor exactly
   * when the anchor targets the same user, and a second report by the same
   * reporter is refused.
   */
  lemma UserReportTargetsOnlyUser(rs: seq<Report>, id: int, targetUserId: string, reporterId: string, reason: string, now: Time)
    ensures var r := UserReport(id, targetUserId, reporterId, reason, now);
      r.postId.None? && r.commentId.None? && r.categoryId.None? && r.targetUserId == Some(targetUserId)
    ensures forall anchor: Report :: AdminService.InGroup(anchor, UserReport(id, targetUserId, reporterId, reason, now))
                                     <==> anchor.targetUserId == Some(targetUserId)
    ensures HasReportedUser(rs + [UserReport(id, targetUserId, reporterId, reason, now)], targetUserId, reporterId)
  {
    var s := rs + [UserReport(id, targetUserId, reporterId, reason, now)];
    assert s[|rs|].targetUserId == Some(targetUserId) && s[|rs|].reporterId == reporterId;
  }
}
