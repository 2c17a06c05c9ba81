/**
 * The category service: following, access-request lookups, the verified and
 * recent category lists, lookup by name, and storing a new access request.
 */
module CategoryService {
  import opened Domain
  import opened Seqs
  import opened Text
  import opened Ordering
  import opened Store
  import opened Membership
  import AdminService

  /** A follow is identified by the pair (user, category). */
  function FollowKey(f: CategoryFollow): (string, int) {
    (f.userId, f.categoryId)
  }

  /** `IsUserFollowingAsync`. */
  function IsUserFollowing(follows: seq<CategoryFollow>, userId: string, categoryId: int): (b: bool)
    ensures b <==> exists i :: 0 <= i < |follows| && follows[i].userId == userId && follows[i].categoryId == categoryId
  {
    FindKey(follows, FollowKey, (userId, categoryId)).Some?
  }

  /** `ToggleFollowAsync`: removes the user's follow of the category, or adds one. */
  method ToggleFollow(db: Store, userId: string, categoryId: int, now: Time)
    modifies db`follows
    ensures db.follows == Toggle(old(db.follows), FollowKey, (userId, categoryId), CategoryFollow(userId, categoryId, now)).0
  {
    var existing := FindKey(db.follows, FollowKey, (userId, categoryId));
    if existing.Some? {
      db.follows := RemoveAt(db.follows, existing.value);
    } else {
      db.follows := db.follows + [CategoryFollow(userId, categoryId, now)];
    }
  }

  /**
   * On a table without duplicate pairs, a follow toggle negates
   * `IsUserFollowing` for that pair, keeps the pairs unique, and leaves every
   * other pair as it was.
   */
  lemma ToggleFollowNegates(follows: seq<CategoryFollow>, userId: string, categoryId: int, now: Time)
    requires UniqueKeys(follows, FollowKey)
    ensures var after := Toggle(follows, FollowKey, (userId, categoryId), CategoryFollow(userId, categoryId, now)).0;
      && IsUserFollowing(after, userId, categoryId) == !IsUserFollowing(follows, userId, categoryId)
      && UniqueKeys(after, FollowKey)
      && KeySet(after, FollowKey) - {(userId, categoryId)} == KeySet(follows, FollowKey) - {(userId, categoryId)}
  {
    var k := (userId, categoryId);
    var after := Toggle(follows, FollowKey, k, CategoryFollow(userId, categoryId, now)).0;
    ToggleKeySet(follows, FollowKey, k, CategoryFollow(userId, categoryId, now));
    assert IsUserFollowing(after, userId, categoryId) == Has(after, FollowKey, k);
    assert IsUserFollowing(follows, userId, categoryId) == Has(follows, FollowKey, k);
  }

  /** Following and unfollowing (in either order) restores the follow set. */
  lemma ToggleFollowTwice(follows: seq<CategoryFollow>, userId: string, categoryId: int, t1: Time, t2: Time)
    requires UniqueKeys(follows, FollowKey)
    ensures var once := Toggle(follows, FollowKey, (userId, categoryId), CategoryFollow(userId, categoryId, t1));
      var twice := Toggle(once.0, FollowKey, (userId, categoryId), CategoryFollow(userId, categoryId, t2));
      KeySet(twice.0, FollowKey) == KeySet(follows, FollowKey)
  {
    ToggleTwice(follows, FollowKey, (userId, categoryId), CategoryFollow(userId, categoryId, t1),
                CategoryFollow(userId, categoryId, t2));
  }

  predicate RequestFor(userId: string, categoryId: int, status: string, r: AccessRequest) {
    r.userId == userId && r.categoryId == categoryId && r.status == status
  }

  /** Some request of the user for the category has the status. */
  function HasRequestWithStatus(rs: seq<AccessRequest>, userId: string, categoryId: int, status: string): (b: bool)
    ensures b <==> exists i :: 0 <= i < |rs| && rs[i].userId == userId && rs[i].categoryId == categoryId
                               && rs[i].status == status
  {
    FirstIndex(rs, (r: AccessRequest) => RequestFor(userId, categoryId, status, r)).Some?
  }

  /** `HasPendingAccessRequestAsync`. */
  function HasPendingAccessRequest(rs: seq<AccessRequest>, userId: string, categoryId: int): bool {
    HasRequestWithStatus(rs, userId, categoryId, PENDING)
  }

  /** `HasApprovedAccessAsync`. */
  function HasApprovedAccess(rs: seq<AccessRequest>, userId: string, categoryId: int): bool {
    HasRequestWithStatus(rs, userId, categoryId, APPROVED)
  }

  /**
   * Approving a request grants its user access to its category; rejecting it
   * removes that request's own Pending status (another Pending request of the
   * same pair may remain).
   */
  lemma ApproveGrantsAccess(rs: seq<AccessRequest>, requestId: int, now: Time)
    requires FindRequest(rs, requestId).Some?
    ensures var r := rs[FindRequest(rs, requestId).value];
      HasApprovedAccess(AdminService.SetRequestStatus(rs, requestId, APPROVED, now), r.userId, r.categoryId)
    ensures var i := FindRequest(rs, requestId).value;
      AdminService.SetRequestStatus(rs, requestId, REJECTED, now)[i].status != PENDING
  {
    var i := FindRequest(rs, requestId).value;
    var out := AdminService.SetRequestStatus(rs, requestId, APPROVED, now);
    assert out[i].userId == rs[i].userId && out[i].categoryId == rs[i].categoryId && out[i].status == APPROVED;
  }

  function CategoryDate(c: Category): int { c.dateCreated }

  predicate IsVerifiedCategory(c: Category) { c.isVerified }

  /** `GetVerifiedCategoriesAsync(take)`: the newest verified categories, at most `take` of them. */
  function VerifiedCategories(cs: seq<Category>, take: int): (r: seq<Category>)
    ensures 0 <= take ==> |r| == if take < Count(cs, IsVerifiedCategory) then take else Count(cs, IsVerifiedCategory)
    ensures forall c :: c in r ==> c in cs && c.isVerified
    ensures SortedDesc(r, CategoryDate)
    ensures forall c, d :: c in cs && c.isVerified && c !in r && d in r ==> d.dateCreated >= c.dateCreated
    ensures forall c :: multiset(r)[c] <= if c.isVerified then multiset(cs)[c] else 0
    ensures 0 <= take && Count(cs, IsVerifiedCategory) <= take ==>
      forall c :: multiset(r)[c] == if c.isVerified then multiset(cs)[c] else 0
  {
    TopNMultiplicity(cs, IsVerifiedCategory, CategoryDate, take);
    TopN(cs, IsVerifiedCategory, CategoryDate, take)
  }

  predicate CreatedBy(userId: string, c: Category) { c.createdBy == userId }

  /** `GetRecentCategoriesAsync(userId, take)`: the user's newest categories, at most `take` of them. */
  function RecentCategories(cs: seq<Category>, userId: string, take: int): (r: seq<Category>)
    ensures 0 <= take ==> |r| == if take < Count(cs, (c: Category) => CreatedBy(userId, c)) then take
                                 else Count(cs, (c: Category) => CreatedBy(userId, c))
    ensures forall c :: c in r ==> c in cs && c.createdBy == userId
    ensures SortedDesc(r, CategoryDate)
    ensures forall c, d :: c in cs && c.createdBy == userId && c !in r && d in r ==> d.dateCreated >= c.dateCreated
    ensures forall c :: multiset(r)[c] <= if c.createdBy == userId then multiset(cs)[c] else 0
    ensures 0 <= take && Count(cs, (c: Category) => CreatedBy(userId, c)) <= take ==>
      forall c :: multiset(r)[c] == if c.createdBy == userId then multiset(cs)[c] else 0
  {
    var mine := (c: Category) => CreatedBy(userId, c);
    TopNMultiplicity(cs, mine, CategoryDate, take);
    TopN(cs, mine, CategoryDate, take)
  }

  predicate SameName(name: string, c: Category) {
    ToLower(c.name) == ToLower(name)
  }

  /** `GetCategoryByNameAsync`: the first category whose name equals `name` ignoring case. */
  function CategoryByName(cs: seq<Category>, name: string): (r: Option<Category>)
    ensures r.Some? ==> r.value in cs && ToLower(r.value.name) == ToLower(name)
    ensures r.None? <==> forall i :: 0 <= i < |cs| ==> ToLower(cs[i].name) != ToLower(name)
  {
    match FirstIndex(cs, (c: Category) => SameName(name, c))
    case None => None
    case Some(i) => Some(cs[i])
  }

  /** The lookup ignores case: a name and its lower-case form find the same category. */
  lemma CategoryByNameIgnoresCase(cs: seq<Category>, name: string)
    ensures CategoryByName(cs, ToLower(name)) == CategoryByName(cs, name)
  {
    ToLowerIdempotent(name);
    var p := (c: Category) => SameName(name, c);
    var q := (c: Category) => SameName(ToLower(name), c);
    assert forall i :: 0 <= i < |cs| ==> p(cs[i]) == q(cs[i]);
    FirstIndexAgrees(cs, p, q);
  }

  /** `CreateAccessRequestAsync`: the row is stored as given, under a new key. */
  method CreateAccessRequest(db: Store, request: AccessRequest) returns (id: int)
    requires db.Valid()
    modifies db`requests, db`nextRequestId
    ensures db.Valid()
    ensures id == old(db.nextRequestId) && db.nextRequestId == id + 1
    ensures db.requests == old(db.requests) + [request.(id := id)]
  {
    id := db.AddRequest(request);
  }
}
