/**
 * The admin console's state: the delete-confirmation modal with its pending
 * target, the carousel positions, the loaded reports, and the badge count of
 * report groups that still need attention.
 */
module AdminState {
  import opened Domain
  import opened Seqs

  /** The group key of the notification count: all four target fields together. */
  datatype TargetKey = TargetKey(postId: Option<int>, commentId: Option<int>,
                                 categoryId: Option<int>, targetUserId: Option<string>)

  function KeyOf(r: Report): TargetKey {
    TargetKey(r.postId, r.commentId, r.categoryId, r.targetUserId)
  }

  predicate Closed(r: Report) {
    r.status == RESOLVED || r.status == DISMISSED
  }

  /** A group is still open when none of its reports is Resolved or Dismissed. */
  ghost predicate GroupOpen(rs: seq<Report>, k: TargetKey) {
    forall i :: 0 <= i < |rs| && KeyOf(rs[i]) == k ==> !Closed(rs[i])
  }

  /** The distinct group keys, in order of first occurrence (the groups of `GroupBy`). */
  function GroupKeys(rs: seq<Report>): (ks: seq<TargetKey>)
    ensures forall a, b :: 0 <= a < b < |ks| ==> ks[a] != ks[b]
    ensures forall k :: k in ks <==> exists i :: 0 <= i < |rs| && KeyOf(rs[i]) == k
  {
    if |rs| == 0 then []
    else
      var prefix := rs[..|rs| - 1];
      var ks := GroupKeys(prefix);
      assert forall i :: 0 <= i < |prefix| ==> prefix[i] == rs[i];
      if KeyOf(rs[|rs| - 1]) in ks then ks else ks + [KeyOf(rs[|rs| - 1])]
  }

  predicate PendingIn(k: TargetKey, r: Report) {
    KeyOf(r) == k && r.status == PENDING
  }

  /** `g.Count(r => r.Status == "Pending")` for the group with key `k`. */
  function GroupPending(rs: seq<Report>, k: TargetKey): nat {
    Count(rs, (r: Report) => PendingIn(k, r))
  }

  /** Whether the group has a Resolved or Dismissed member: the negation of the `Where` filter. */
  function GroupHasClosed(rs: seq<Report>, k: TargetKey): (b: bool)
    ensures b <==> !GroupOpen(rs, k)
  {
    Count(rs, (r: Report) => KeyOf(r) == k && Closed(r)) != 0
  }

  function SumOpenGroups(ks: seq<TargetKey>, rs: seq<Report>): nat {
    if |ks| == 0 then 0
    else (if GroupHasClosed(rs, ks[0]) then 0 else GroupPending(rs, ks[0])) + SumOpenGroups(ks[1..], rs)
  }

  /** `PendingNotificationCount`: the Pending reports summed over the groups with no closed member. */
  function PendingNotificationCount(rs: seq<Report>): nat {
    SumOpenGroups(GroupKeys(rs), rs)
  }

  /** The reference per-report reading: a report counts when it is Pending and its group is open. */
  ghost predicate CountsTowardBadge(rs: seq<Report>, r: Report) {
    r.status == PENDING && GroupOpen(rs, KeyOf(r))
  }

  ghost predicate CountsWithin(rs: seq<Report>, ks: seq<TargetKey>, r: Report) {
    CountsTowardBadge(rs, r) && KeyOf(r) in ks
  }

  lemma {:induction false} SumOpenGroupsIsCount(ks: seq<TargetKey>, rs: seq<Report>)
    requires forall a, b :: 0 <= a < b < |ks| ==> ks[a] != ks[b]
    ensures SumOpenGroups(ks, rs) == Count(rs, (r: Report) => CountsWithin(rs, ks, r))
  {
    var within := (r: Report) => CountsWithin(rs, ks, r);
    if |ks| == 0 {
      assert forall i :: 0 <= i < |rs| ==> !within(rs[i]);
    } else {
      var k := ks[0];
      var rest := ks[1..];
      SumOpenGroupsIsCount(rest, rs);
      SplitFirstGroup(ks, rs);
      FirstGroupCount(rs, k);
    }
  }

  /** The reports counted within `ks` are those of its first key and those of the rest, never both. */
  lemma SplitFirstGroup(ks: seq<TargetKey>, rs: seq<Report>)
    requires |ks| > 0
    requires forall a, b :: 0 <= a < b < |ks| ==> ks[a] != ks[b]
    ensures Count(rs, (r: Report) => CountsWithin(rs, ks, r))
            == Count(rs, (r: Report) => CountsWithin(rs, [ks[0]], r)) + Count(rs, (r: Report) => CountsWithin(rs, ks[1..], r))
  {
    var k := ks[0];
    var rest := ks[1..];
    assert forall x :: x in ks <==> x == k || x in rest by {
      assert ks == [k] + rest;
    }
    assert k !in rest by {
      forall j | 0 <= j < |rest| ensures rest[j] != k {
        assert rest[j] == ks[j + 1];
      }
    }
    CountSplit(rs, (r: Report) => CountsWithin(rs, ks, r), (r: Report) => CountsWithin(rs, [k], r),
               (r: Report) => CountsWithin(rs, rest, r));
  }

  /** The reports counted for one key: none when its group has a closed member, its Pending reports otherwise. */
  lemma FirstGroupCount(rs: seq<Report>, k: TargetKey)
    ensures Count(rs, (r: Report) => CountsWithin(rs, [k], r)) == if GroupHasClosed(rs, k) then 0 else GroupPending(rs, k)
  {
    var head := (r: Report) => CountsWithin(rs, [k], r);
    var pend := (r: Report) => PendingIn(k, r);
    if GroupHasClosed(rs, k) {
      assert forall i :: 0 <= i < |rs| ==> !head(rs[i]);
    } else {
      assert forall i :: 0 <= i < |rs| ==> head(rs[i]) == pend(rs[i]);
      CountEquiv(rs, head, pend);
    }
  }

  /**
   * The grouped count equals the per-report reading: the number of Pending
   * reports whose group (same four targets) has no Resolved or Dismissed member.
   */
  lemma {:induction false} NotificationCountIsPerReport(rs: seq<Report>)
    ensures PendingNotificationCount(rs) == Count(rs, (r: Report) => CountsTowardBadge(rs, r))
  {
    var ks := GroupKeys(rs);
    SumOpenGroupsIsCount(ks, rs);
    var within := (r: Report) => CountsWithin(rs, ks, r);
    var whole := (r: Report) => CountsTowardBadge(rs, r);
    assert forall i :: 0 <= i < |rs| ==> KeyOf(rs[i]) in ks;
    CountEquiv(rs, within, whole);
  }

  /** The badge never exceeds the number of Pending reports, and an empty list shows 0. */
  lemma {:induction false} NotificationCountBounds(rs: seq<Report>)
    ensures PendingNotificationCount(rs) <= Count(rs, (r: Report) => r.status == PENDING)
    ensures |rs| == 0 ==> PendingNotificationCount(rs) == 0
  {
    NotificationCountIsPerReport(rs);
    CountMono(rs, (r: Report) => CountsTowardBadge(rs, r), (r: Report) => r.status == PENDING);
  }

  /** A Pending report in a group with a Resolved or Dismissed member is never counted. */
  lemma ClosedGroupContributesNothing(rs: seq<Report>, i: nat, j: nat)
    requires i < |rs| && j < |rs|
    requires KeyOf(rs[i]) == KeyOf(rs[j]) && Closed(rs[j])
    ensures !CountsTowardBadge(rs, rs[i])
  {
  }

  class AdminState {
    var showDeleteConfirmation: bool
    var pendingDeleteReportId: int
    var pendingDeleteCategoryId: int
    var carouselIndices: map<int, int>
    var allReports: seq<Report>

    /** The modal holds at most one pending target, and only while it is shown. */
    ghost predicate Valid()
      reads this
    {
      && (pendingDeleteReportId == 0 || pendingDeleteCategoryId == 0)
      && (!showDeleteConfirmation ==> pendingDeleteReportId == 0 && pendingDeleteCategoryId == 0)
    }

    constructor ()
      ensures Valid()
      ensures !showDeleteConfirmation && pendingDeleteReportId == 0 && pendingDeleteCategoryId == 0
      ensures carouselIndices == map[] && allReports == []
    {
      showDeleteConfirmation := false;
      pendingDeleteReportId := 0;
      pendingDeleteCategoryId := 0;
      carouselIndices := map[];
      allReports := [];
    }

    method CloseDeleteModal()
      modifies this`showDeleteConfirmation, this`pendingDeleteReportId, this`pendingDeleteCategoryId
      ensures Valid()
      ensures !showDeleteConfirmation && pendingDeleteReportId == 0 && pendingDeleteCategoryId == 0
    {
      showDeleteConfirmation := false;
      pendingDeleteReportId := 0;
      pendingDeleteCategoryId := 0;
    }
  }
}
