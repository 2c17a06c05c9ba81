/**
 * The access-request lifecycle both request forms (the home page's and the
 * category page's) apply: only the FIRST request a user has for a category
 * is consulted. Pending and Approved refuse; Rejected refuses during the
 * seven-day cooldown after its last update and is reused afterwards; any
 * other status, or no request at all, leads to a new row.
 */
module AccessLifecycle {
  import opened Domain
  import opened Seqs

  predicate ForPair(userId: string, categoryId: int, r: AccessRequest) {
    r.userId == userId && r.categoryId == categoryId
  }

  /** `FirstOrDefaultAsync(r => r.UserId == userId && r.CategoryId == categoryId)`. */
  function FirstRequest(rs: seq<AccessRequest>, userId: string, categoryId: int): Option<nat> {
    FirstIndex(rs, (r: AccessRequest) => ForPair(userId, categoryId, r))
  }

  /** What a submission does, decided from the first request of the pair. */
  datatype Decision =
    | RefusePending
    | RefuseApproved
    | RefuseCooldown(resubmitAt: Time)
    | Reuse(index: nat)
    | Insert

  /** The refusal messages both forms show. */
  const PENDING_REQUEST_MESSAGE := "You already have a pending request for this category."
  const HAS_ACCESS_MESSAGE := "You already have access to this category."
  /** The fixed opening of the cooldown message; the dates and day count after it are not modelled. */
  const COOLDOWN_PREFIX := "Your previous request was rejected on "
  /** The success messages both forms show, for a reused and for a new request. */
  const RESUBMITTED_MESSAGE := "Request resubmitted successfully!"
  const SUBMITTED_MESSAGE := "Request submitted successfully!"

  predicate Refused(d: Decision) {
    d.RefusePending? || d.RefuseApproved? || d.RefuseCooldown?
  }

  /**
   * The decision. The cooldown test is `daysRemaining > 0` with
   * `daysRemaining = (dateUpdated + 7 days) - now`, so a resubmission
   * exactly seven days after the rejection goes through.
   */
  function Decide(rs: seq<AccessRequest>, userId: string, categoryId: int, now: Time): (d: Decision)
    ensures d.Insert? <==>
      FirstRequest(rs, userId, categoryId).None?
      || rs[FirstRequest(rs, userId, categoryId).value].status !in {PENDING, APPROVED, REJECTED}
    ensures d.RefusePending? <==>
      FirstRequest(rs, userId, categoryId).Some? && rs[FirstRequest(rs, userId, categoryId).value].status == PENDING
    ensures d.RefuseApproved? <==>
      FirstRequest(rs, userId, categoryId).Some? && rs[FirstRequest(rs, userId, categoryId).value].status == APPROVED
    ensures d.RefuseCooldown? ==>
      var i := FirstRequest(rs, userId, categoryId).value;
      FirstRequest(rs, userId, categoryId).Some? && rs[i].status == REJECTED
      && d.resubmitAt == rs[i].dateUpdated + RESUBMIT_COOLDOWN && now < d.resubmitAt
    ensures d.Reuse? ==>
      FirstRequest(rs, userId, categoryId) == Some(d.index) && d.index < |rs|
      && rs[d.index].status == REJECTED && rs[d.index].dateUpdated + RESUBMIT_COOLDOWN <= now
  {
    match FirstRequest(rs, userId, categoryId)
    case None => Insert
    case Some(i) =>
      if rs[i].status == PENDING then RefusePending
      else if rs[i].status == APPROVED then RefuseApproved
      else if rs[i].status == REJECTED then
        (if rs[i].dateUpdated + RESUBMIT_COOLDOWN - now > 0 then RefuseCooldown(rs[i].dateUpdated + RESUBMIT_COOLDOWN)
         else Reuse(i))
      else Insert
  }

  /**
   * The cooldown boundary: for a first request rejected at `t`, a submission
   * one second before `t` + 7 days is refused and one exactly at it reuses
   * the row; in general the row is reused exactly when the cooldown is over.
   */
  lemma CooldownBoundary(rs: seq<AccessRequest>, userId: string, categoryId: int, now: Time)
    requires FirstRequest(rs, userId, categoryId).Some?
    requires rs[FirstRequest(rs, userId, categoryId).value].status == REJECTED
    ensures var t := rs[FirstRequest(rs, userId, categoryId).value].dateUpdated;
      && Decide(rs, userId, categoryId, t + RESUBMIT_COOLDOWN - 1).RefuseCooldown?
      && Decide(rs, userId, categoryId, t + RESUBMIT_COOLDOWN).Reuse?
      && (Decide(rs, userId, categoryId, now).Reuse? <==> t + RESUBMIT_COOLDOWN <= now)
      && (Decide(rs, userId, categoryId, now).RefuseCooldown? <==> now < t + RESUBMIT_COOLDOWN)
  {
  }

  /** The reused row: new reason, Pending, updated now, the updater cleared. */
  function Resubmitted(r: AccessRequest, reason: string, now: Time): AccessRequest {
    r.(reason := reason, status := PENDING, dateUpdated := now, updatedBy := None)
  }

  /**
   * Replacing the first row of a pair by a row of the same pair leaves it
   * the first row of that pair.
   */
  lemma {:induction false} FirstRequestKept(rs: seq<AccessRequest>, userId: string, categoryId: int, i: nat, r: AccessRequest)
    requires FirstRequest(rs, userId, categoryId) == Some(i)
    requires ForPair(userId, categoryId, r)
    ensures i < |rs| && FirstRequest(rs[i := r], userId, categoryId) == Some(i)
  {
    var after := rs[i := r];
    var f := FirstRequest(after, userId, categoryId);
    assert ForPair(userId, categoryId, after[i]);
    assert forall j :: 0 <= j < i ==> after[j] == rs[j];
  }

  /**
   * After a reuse the pair's first request is Pending, so a second
   * submission is refused, whatever document path the reused row was given.
   */
  lemma ReuseLeavesPending(rs: seq<AccessRequest>, userId: string, categoryId: int, now: Time, reason: string,
                           doc: Option<string>, later: Time)
    requires Decide(rs, userId, categoryId, now).Reuse?
    ensures var i := Decide(rs, userId, categoryId, now).index;
      Decide(rs[i := Resubmitted(rs[i], reason, now).(supportingDocumentPath := doc)], userId, categoryId, later)
      == RefusePending
  {
    var i := Decide(rs, userId, categoryId, now).index;
    FirstRequestKept(rs, userId, categoryId, i, Resubmitted(rs[i], reason, now).(supportingDocumentPath := doc));
  }

  /**
   * A new Pending row for a pair that had no request becomes its first
   * request, so the next submission is refused.
   */
  lemma InsertLeavesPending(rs: seq<AccessRequest>, userId: string, categoryId: int, row: AccessRequest, later: Time)
    requires FirstRequest(rs, userId, categoryId).None?
    requires ForPair(userId, categoryId, row) && row.status == PENDING
    ensures Decide(rs + [row], userId, categoryId, later) == RefusePending
  {
    var after := rs + [row];
    assert ForPair(userId, categoryId, after[|rs|]);
    assert forall j :: 0 <= j < |rs| ==> after[j] == rs[j];
  }
}
