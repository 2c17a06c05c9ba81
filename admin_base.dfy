/**
 * The admin page's handlers: arming and confirming the delete modal, the
 * per-post carousel, and the status badge.
 */
module AdminBase {
  import opened Domain
  import opened Seqs
  import opened Store
  import opened PageDicts
  import AdminService
  import opened AdminState

  method RequestDelete(state: AdminState, reportId: int)
    modifies state`pendingDeleteReportId, state`pendingDeleteCategoryId, state`showDeleteConfirmation
    ensures state.pendingDeleteReportId == reportId && state.pendingDeleteCategoryId == 0
    ensures state.showDeleteConfirmation
    ensures state.Valid()
  {
    state.pendingDeleteReportId := reportId;
    state.pendingDeleteCategoryId := 0;
    state.showDeleteConfirmation := true;
  }

  method RequestDeleteCategory(state: AdminState, categoryId: int)
    modifies state`pendingDeleteReportId, state`pendingDeleteCategoryId, state`showDeleteConfirmation
    ensures state.pendingDeleteCategoryId == categoryId && state.pendingDeleteReportId == 0
    ensures state.showDeleteConfirmation
    ensures state.Valid()
  {
    state.pendingDeleteCategoryId := categoryId;
    state.pendingDeleteReportId := 0;
    state.showDeleteConfirmation := true;
  }

  /**
   * `ConfirmDelete`: at most one deletion, the report's content when a report
   * id is pending, else the category when a category id is pending; the modal
   * always ends closed.
   */
  method ConfirmDelete(state: AdminState, db: Store)
    requires db.Valid()
    modifies state`pendingDeleteReportId, state`pendingDeleteCategoryId, state`showDeleteConfirmation
    modifies db`reports, db`posts, db`comments, db`categories
    ensures db.Valid()
    ensures state.Valid()
    ensures !state.showDeleteConfirmation && state.pendingDeleteReportId == 0 && state.pendingDeleteCategoryId == 0
    ensures old(state.pendingDeleteReportId) != 0 ==>
      && (db.reports, db.posts, db.comments)
         == AdminService.AfterDeleteContent(old(db.reports), old(db.posts), old(db.comments), old(state.pendingDeleteReportId))
      && db.categories == old(db.categories)
    ensures old(state.pendingDeleteReportId) == 0 && old(state.pendingDeleteCategoryId) != 0 ==>
      && db.categories == RemoveFound(old(db.categories), FindCategory(old(db.categories), old(state.pendingDeleteCategoryId)))
      && db.reports == old(db.reports) && db.posts == old(db.posts) && db.comments == old(db.comments)
    ensures old(state.pendingDeleteReportId) == 0 && old(state.pendingDeleteCategoryId) == 0 ==>
      && db.categories == old(db.categories)
      && db.reports == old(db.reports) && db.posts == old(db.posts) && db.comments == old(db.comments)
  {
    if state.pendingDeleteReportId != 0 {
      AdminService.DeleteReportedContent(db, state.pendingDeleteReportId);
    } else if state.pendingDeleteCategoryId != 0 {
      AdminService.DeleteCategory(db, state.pendingDeleteCategoryId);
    }
    state.CloseDeleteModal();
  }

  /** `GetCurrentIndex`: stores 0 for an unseen post and returns the stored position. */
  method GetCurrentIndex(state: AdminState, postId: int) returns (index: int)
    modifies state`carouselIndices
    ensures state.carouselIndices == WithIndex(old(state.carouselIndices), postId)
    ensures index == if postId in old(state.carouselIndices) then old(state.carouselIndices)[postId] else 0
  {
    if postId !in state.carouselIndices {
      state.carouselIndices := state.carouselIndices[postId := 0];
    }
    index := state.carouselIndices[postId];
  }

  /**
   * `NextSlide`; a zero count makes `%` throw after the position was
   * initialised, which the result reports.
   */
  method NextSlide(state: AdminState, postId: int, totalCount: int) returns (divideByZero: bool)
    modifies state`carouselIndices
    ensures divideByZero <==> totalCount == 0
    ensures var seen := WithIndex(old(state.carouselIndices), postId);
      state.carouselIndices == if totalCount == 0 then seen else seen[postId := NextIndex(seen[postId], totalCount)]
  {
    var current := GetCurrentIndex(state, postId);
    if totalCount == 0 {
      return true;
    }
    state.carouselIndices := state.carouselIndices[postId := CsRem(current + 1, totalCount)];
    divideByZero := false;
  }

  /** `PrevSlide`, with the same zero-count behaviour as `NextSlide`. */
  method PrevSlide(state: AdminState, postId: int, totalCount: int) returns (divideByZero: bool)
    modifies state`carouselIndices
    ensures divideByZero <==> totalCount == 0
    ensures var seen := WithIndex(old(state.carouselIndices), postId);
      state.carouselIndices == if totalCount == 0 then seen else seen[postId := PrevIndex(seen[postId], totalCount)]
  {
    var current := GetCurrentIndex(state, postId);
    if totalCount == 0 {
      return true;
    }
    state.carouselIndices := state.carouselIndices[postId := CsRem(current - 1 + totalCount, totalCount)];
    divideByZero := false;
  }

  /** `GetStatusBadgeClass`: resolved and dismissed have their own badge; every other string shows as pending. */
  function StatusBadgeClass(status: string): (c: string)
    ensures status == RESOLVED <==> c == "badge-resolved"
    ensures status == DISMISSED <==> c == "badge-dismissed"
    ensures status != RESOLVED && status != DISMISSED <==> c == "badge-pending"
  {
    if status == RESOLVED then "badge-resolved"
    else if status == DISMISSED then "badge-dismissed"
    else "badge-pending"
  }
}
