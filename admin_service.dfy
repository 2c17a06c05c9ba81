/**
 * The moderation workflow of the admin service: dismissing and un-dismissing a
 * report group, deleting reported content while resolving and detaching its
 * reports, deleting categories, the verification and ban toggles, and
 * approving or rejecting access requests.
 */
module AdminService {
  import opened Domain
  import opened Seqs
  import opened Store

  // ---------- report groups ----------

  /**
   * The selection of DismissReportGroupAsync and UndoDismissAsync: `r` shares
   * at least one of the anchor's non-null target fields.
   */
  predicate InGroup(anchor: Report, r: Report) {
    || (anchor.postId.Some? && r.postId == anchor.postId)
    || (anchor.commentId.Some? && r.commentId == anchor.commentId)
    || (anchor.categoryId.Some? && r.categoryId == anchor.categoryId)
    || (anchor.targetUserId.Some? && r.targetUserId == anchor.targetUserId)
  }

  predicate NoTarget(r: Report) {
    r.postId.None? && r.commentId.None? && r.categoryId.None? && r.targetUserId.None?
  }

  /** Two reports carry the same four target fields. */
  predicate SameTargets(a: Report, b: Report) {
    a.postId == b.postId && a.commentId == b.commentId
    && a.categoryId == b.categoryId && a.targetUserId == b.targetUserId
  }

  /** Every group member becomes Dismissed, whatever it was; nothing else changes. */
  function DismissGroup(rs: seq<Report>, anchor: Report): (out: seq<Report>)
    ensures |out| == |rs|
    ensures forall i :: 0 <= i < |rs| && InGroup(anchor, rs[i]) ==> out[i].status == DISMISSED
    ensures forall i :: 0 <= i < |rs| && !InGroup(anchor, rs[i]) ==> out[i] == rs[i]
    ensures forall i :: 0 <= i < |rs| ==> out[i] == rs[i].(status := out[i].status)
  {
    seq(|rs|, i requires 0 <= i < |rs| =>
      if InGroup(anchor, rs[i]) then rs[i].(status := DISMISSED) else rs[i])
  }

  /** Group members that are Dismissed go back to Pending; every other report is untouched. */
  function UndoGroup(rs: seq<Report>, anchor: Report): (out: seq<Report>)
    ensures |out| == |rs|
    ensures forall i :: 0 <= i < |rs| && InGroup(anchor, rs[i]) && rs[i].status == DISMISSED ==>
      out[i] == rs[i].(status := PENDING)
    ensures forall i :: 0 <= i < |rs| && !(InGroup(anchor, rs[i]) && rs[i].status == DISMISSED) ==>
      out[i] == rs[i]
  {
    seq(|rs|, i requires 0 <= i < |rs| =>
      if InGroup(anchor, rs[i]) && rs[i].status == DISMISSED then rs[i].(status := PENDING) else rs[i])
  }

  /** The reports table after DismissReportGroupAsync(reportId). */
  function AfterDismiss(rs: seq<Report>, reportId: int): seq<Report> {
    match FindReport(rs, reportId)
    case None => rs
    case Some(i) => DismissGroup(rs, rs[i])
  }

  /** The reports table after UndoDismissAsync(reportId). */
  function AfterUndoDismiss(rs: seq<Report>, reportId: int): seq<Report> {
    match FindReport(rs, reportId)
    case None => rs
    case Some(i) => UndoGroup(rs, rs[i])
  }

  /** Changing statuses only keeps every id and target, so the keys stay valid. */
  lemma SameIdsKeepKeys(old_: seq<Report>, new_: seq<Report>, next: int)
    requires KeysValid(old_, ReportKey, next)
    requires |new_| == |old_|
    requires forall i :: 0 <= i < |old_| ==> new_[i].id == old_[i].id
    ensures KeysValid(new_, ReportKey, next)
  {
    assert forall i :: 0 <= i < |old_| ==> ReportKey(new_[i]) == ReportKey(old_[i]);
  }

  method DismissReportGroup(db: Store, reportId: int)
    requires db.Valid()
    modifies db`reports
    ensures db.Valid()
    ensures db.reports == AfterDismiss(old(db.reports), reportId)
  {
    var found := FindReport(db.reports, reportId);
    if found.None? {
      return;
    }
    var anchor := db.reports[found.value];
    ghost var before := db.reports;
    var i := 0;
    while i < |db.reports|
      invariant 0 <= i <= |db.reports| == |before|
      invariant forall k :: 0 <= k < i ==>
        db.reports[k] == if InGroup(anchor, before[k]) then before[k].(status := DISMISSED) else before[k]
      invariant forall k :: i <= k < |db.reports| ==> db.reports[k] == before[k]
    {
      if InGroup(anchor, db.reports[i]) {
        db.reports := db.reports[i := db.reports[i].(status := DISMISSED)];
      }
      i := i + 1;
    }
    assert db.reports == DismissGroup(before, anchor);
    SameIdsKeepKeys(before, db.reports, db.nextReportId);
  }

  method UndoDismiss(db: Store, reportId: int)
    requires db.Valid()
    modifies db`reports
    ensures db.Valid()
    ensures db.reports == AfterUndoDismiss(old(db.reports), reportId)
  {
    var found := FindReport(db.reports, reportId);
    if found.None? {
      return;
    }
    var anchor := db.reports[found.value];
    ghost var before := db.reports;
    var i := 0;
    while i < |db.reports|
      invariant 0 <= i <= |db.reports| == |before|
      invariant forall k :: 0 <= k < i ==>
        db.reports[k] == if InGroup(anchor, before[k]) && before[k].status == DISMISSED
                         then before[k].(status := PENDING) else before[k]
      invariant forall k :: i <= k < |db.reports| ==> db.reports[k] == before[k]
    {
      if InGroup(anchor, db.reports[i]) && db.reports[i].status == DISMISSED {
        db.reports := db.reports[i := db.reports[i].(status := PENDING)];
      }
      i := i + 1;
    }
    assert db.reports == UndoGroup(before, anchor);
    SameIdsKeepKeys(before, db.reports, db.nextReportId);
  }

  /** An absent anchor leaves the table as it was, for both operations. */
  lemma AbsentAnchorNoChange(rs: seq<Report>, reportId: int)
    requires forall i :: 0 <= i < |rs| ==> rs[i].id != reportId
    ensures AfterDismiss(rs, reportId) == rs
    ensures AfterUndoDismiss(rs, reportId) == rs
  {
  }

  /** An anchor with no target selects nothing: not even the anchor itself changes. */
  lemma NoTargetSelectsNothing(rs: seq<Report>, anchor: Report)
    requires NoTarget(anchor)
    ensures DismissGroup(rs, anchor) == rs
    ensures UndoGroup(rs, anchor) == rs
  {
  }

  /** The anchor always belongs to its own group when it has a target. */
  lemma AnchorInOwnGroup(anchor: Report)
    ensures InGroup(anchor, anchor) <==> !NoTarget(anchor)
  {
  }

  /** Dismissing keeps ids and targets, so the same id finds an anchor with the same group. */
  lemma {:induction false} DismissKeepsAnchor(rs: seq<Report>, anchor: Report, reportId: int)
    ensures FindReport(DismissGroup(rs, anchor), reportId) == FindReport(rs, reportId)
  {
    FirstIndexSameKeys(rs, DismissGroup(rs, anchor), reportId);
  }

  lemma {:induction false} FirstIndexSameKeys(a: seq<Report>, b: seq<Report>, id: int)
    requires |a| == |b|
    requires forall i :: 0 <= i < |a| ==> a[i].id == b[i].id
    ensures FindReport(a, id) == FindReport(b, id)
  {
    var pa := (r: Report) => r.id == id;
    assert forall i :: 0 <= i < |a| ==> pa(a[i]) == pa(b[i]);
    match FindReport(a, id)
    case None =>
    case Some(i) =>
  }

  /**
   * Dismiss followed by undo on the same anchor id leaves every group member
   * Pending (a Resolved member was overwritten by the dismiss) and every other
   * report as it was.
   */
  lemma DismissThenUndo(rs: seq<Report>, reportId: int)
    ensures FindReport(rs, reportId).Some? ==>
      var anchor := rs[FindReport(rs, reportId).value];
      var out := AfterUndoDismiss(AfterDismiss(rs, reportId), reportId);
      |out| == |rs|
      && (forall i :: 0 <= i < |rs| && InGroup(anchor, rs[i]) ==> out[i] == rs[i].(status := PENDING))
      && (forall i :: 0 <= i < |rs| && !InGroup(anchor, rs[i]) ==> out[i] == rs[i])
    ensures FindReport(rs, reportId).None? ==>
      AfterUndoDismiss(AfterDismiss(rs, reportId), reportId) == rs
  {
    match FindReport(rs, reportId)
    case None =>
    case Some(k) =>
      var anchor := rs[k];
      var mid := DismissGroup(rs, anchor);
      DismissKeepsAnchor(rs, anchor, reportId);
      assert mid[k] == anchor.(status := mid[k].status);
      assert forall i :: 0 <= i < |rs| ==> InGroup(mid[k], mid[i]) == InGroup(anchor, rs[i]);
  }

  // ---------- deleting reported content ----------

  /** Every report on post `postId` becomes Resolved and loses its post reference. */
  function ResolvePostReports(rs: seq<Report>, postId: int): (out: seq<Report>)
    ensures |out| == |rs|
    ensures forall i :: 0 <= i < |rs| && rs[i].postId == Some(postId) ==>
      out[i] == rs[i].(status := RESOLVED, postId := None)
    ensures forall i :: 0 <= i < |rs| && rs[i].postId != Some(postId) ==> out[i] == rs[i]
  {
    seq(|rs|, i requires 0 <= i < |rs| =>
      if rs[i].postId == Some(postId) then rs[i].(status := RESOLVED, postId := None) else rs[i])
  }

  /** Every report on comment `commentId` becomes Resolved and loses its comment reference. */
  function ResolveCommentReports(rs: seq<Report>, commentId: int): (out: seq<Report>)
    ensures |out| == |rs|
    ensures forall i :: 0 <= i < |rs| && rs[i].commentId == Some(commentId) ==>
      out[i] == rs[i].(status := RESOLVED, commentId := None)
    ensures forall i :: 0 <= i < |rs| && rs[i].commentId != Some(commentId) ==> out[i] == rs[i]
  {
    seq(|rs|, i requires 0 <= i < |rs| =>
      if rs[i].commentId == Some(commentId) then rs[i].(status := RESOLVED, commentId := None) else rs[i])
  }

  /** After resolving, no report references the post any more, and none was lost. */
  lemma ResolvePostDetaches(rs: seq<Report>, postId: int)
    ensures forall i :: 0 <= i < |rs| ==> ResolvePostReports(rs, postId)[i].postId != Some(postId)
    ensures forall i :: 0 <= i < |rs| ==> ResolvePostReports(rs, postId)[i].id == rs[i].id
    ensures forall i :: 0 <= i < |rs| && rs[i].postId == Some(postId) ==>
      ResolvePostReports(rs, postId)[i].status == RESOLVED
  {
  }

  /** After resolving, no report references the comment any more, and none was lost. */
  lemma ResolveCommentDetaches(rs: seq<Report>, commentId: int)
    ensures forall i :: 0 <= i < |rs| ==> ResolveCommentReports(rs, commentId)[i].commentId != Some(commentId)
    ensures forall i :: 0 <= i < |rs| ==> ResolveCommentReports(rs, commentId)[i].id == rs[i].id
    ensures forall i :: 0 <= i < |rs| && rs[i].commentId == Some(commentId) ==>
      ResolveCommentReports(rs, commentId)[i].status == RESOLVED
  {
  }

  /** With distinct keys, removing the post found by id leaves no post with that id. */
  lemma {:induction false} RemovedPostGone(ps: seq<Post>, postId: int, next: int)
    requires KeysValid(ps, PostKey, next)
    ensures FindPost(RemoveFound(ps, FindPost(ps, postId)), postId).None?
    ensures |RemoveFound(ps, FindPost(ps, postId))| == |ps| - (if FindPost(ps, postId).Some? then 1 else 0)
  {
    match FindPost(ps, postId)
    case None =>
    case Some(k) =>
      var out := RemoveAt(ps, k);
      forall j | 0 <= j < |out| ensures out[j].id != postId {
        if j < k {
          assert PostKey(ps[j]) != PostKey(ps[k]);
        } else {
          assert PostKey(ps[j + 1]) != PostKey(ps[k]);
        }
      }
  }

  /** With distinct keys, removing the comment found by id leaves no comment with that id. */
  lemma {:induction false} RemovedCommentGone(cs: seq<Comment>, commentId: int, next: int)
    requires KeysValid(cs, CommentKey, next)
    ensures FindComment(RemoveFound(cs, FindComment(cs, commentId)), commentId).None?
  {
    match FindComment(cs, commentId)
    case None =>
    case Some(k) =>
      var out := RemoveAt(cs, k);
      forall j | 0 <= j < |out| ensures out[j].id != commentId {
        if j < k {
          assert CommentKey(cs[j]) != CommentKey(cs[k]);
        } else {
          assert CommentKey(cs[j + 1]) != CommentKey(cs[k]);
        }
      }
  }

  lemma {:induction false} RemoveKeepsKeys<T>(s: seq<T>, i: Option<nat>, key: T -> int, next: int)
    requires i.Some? ==> i.value < |s|
    requires KeysValid(s, key, next)
    ensures KeysValid(RemoveFound(s, i), key, next)
  {
    if i.Some? {
      var out := RemoveFound(s, i);
      forall a, b | 0 <= a < b < |out| ensures key(out[a]) != key(out[b]) {
        var a' := if a < i.value then a else a + 1;
        var b' := if b < i.value then b else b + 1;
        assert out[a] == s[a'] && out[b] == s[b'] && a' < b';
      }
    }
  }

  /**
   * The reports, posts and comments after DeleteReportedContentAsync(reportId):
   * a report with a post resolves every report on that post and removes the
   * post; otherwise a report with a comment does the same for the comment;
   * otherwise, or when the report does not exist, nothing changes.
   */
  function AfterDeleteContent(rs: seq<Report>, ps: seq<Post>, cs: seq<Comment>, reportId: int)
    : (seq<Report>, seq<Post>, seq<Comment>)
  {
    match FindReport(rs, reportId)
    case None => (rs, ps, cs)
    case Some(i) =>
      var r := rs[i];
      if r.postId.Some? then
        (ResolvePostReports(rs, r.postId.value), RemoveFound(ps, FindPost(ps, r.postId.value)), cs)
      else if r.commentId.Some? then
        (ResolveCommentReports(rs, r.commentId.value), ps, RemoveFound(cs, FindComment(cs, r.commentId.value)))
      else (rs, ps, cs)
  }

  /**
   * Deleting a post report leaves no report on that post and no post with that
   * id, keeps every other post, and leaves the comments alone; the post branch
   * wins when the report names both a post and a comment.
   */
  lemma {:induction false} DeletePostContentEffects(rs: seq<Report>, ps: seq<Post>, cs: seq<Comment>,
                                                     reportId: int, nextPost: int)
    requires KeysValid(ps, PostKey, nextPost)
    requires FindReport(rs, reportId).Some? && rs[FindReport(rs, reportId).value].postId.Some?
    ensures var postId := rs[FindReport(rs, reportId).value].postId.value;
      var after := AfterDeleteContent(rs, ps, cs, reportId);
      && |after.0| == |rs|
      && (forall i :: 0 <= i < |rs| ==> after.0[i].postId != Some(postId))
      && (forall i :: 0 <= i < |rs| && rs[i].postId != Some(postId) ==> after.0[i] == rs[i])
      && FindPost(after.1, postId).None?
      && (forall p :: p in ps && p.id != postId ==> p in after.1)
      && after.2 == cs
  {
    var postId := rs[FindReport(rs, reportId).value].postId.value;
    RemovedPostGone(ps, postId, nextPost);
    var found := FindPost(ps, postId);
    if found.Some? {
      var out := RemoveAt(ps, found.value);
      forall p | p in ps && p.id != postId ensures p in out {
        assert p in multiset(ps);
        assert p != ps[found.value];
      }
    }
  }

  /** The comment branch, taken only when the report names no post. */
  lemma {:induction false} DeleteCommentContentEffects(rs: seq<Report>, ps: seq<Post>, cs: seq<Comment>,
                                                        reportId: int, nextComment: int)
    requires KeysValid(cs, CommentKey, nextComment)
    requires FindReport(rs, reportId).Some?
    requires var r := rs[FindReport(rs, reportId).value]; r.postId.None? && r.commentId.Some?
    ensures var commentId := rs[FindReport(rs, reportId).value].commentId.value;
      var after := AfterDeleteContent(rs, ps, cs, reportId);
      && |after.0| == |rs|
      && (forall i :: 0 <= i < |rs| ==> after.0[i].commentId != Some(commentId))
      && (forall i :: 0 <= i < |rs| && rs[i].commentId != Some(commentId) ==> after.0[i] == rs[i])
      && FindComment(after.2, commentId).None?
      && after.1 == ps
  {
    var commentId := rs[FindReport(rs, reportId).value].commentId.value;
    RemovedCommentGone(cs, commentId, nextComment);
  }

  /** A report naming neither a post nor a comment deletes nothing. */
  lemma DeleteWithoutContentNoChange(rs: seq<Report>, ps: seq<Post>, cs: seq<Comment>, reportId: int)
    requires FindReport(rs, reportId).None? ||
      (rs[FindReport(rs, reportId).value].postId.None? && rs[FindReport(rs, reportId).value].commentId.None?)
    ensures AfterDeleteContent(rs, ps, cs, reportId) == (rs, ps, cs)
  {
  }

  method DeleteReportedContent(db: Store, reportId: int)
    requires db.Valid()
    modifies db`reports, db`posts, db`comments
    ensures db.Valid()
    ensures (db.reports, db.posts, db.comments)
         == AfterDeleteContent(old(db.reports), old(db.posts), old(db.comments), reportId)
  {
    var found := FindReport(db.reports, reportId);
    if found.None? {
      return;
    }
    var report := db.reports[found.value];
    if report.postId.Some? {
      DeletePostAndResolve(db, report.postId.value);
    } else if report.commentId.Some? {
      DeleteCommentAndResolve(db, report.commentId.value);
    }
  }

  /** The post branch: its reports are resolved and detached, then the post is removed. */
  method DeletePostAndResolve(db: Store, postId: int)
    requires db.Valid()
    modifies db`reports, db`posts
    ensures db.Valid()
    ensures db.reports == ResolvePostReports(old(db.reports), postId)
    ensures db.posts == RemoveFound(old(db.posts), FindPost(old(db.posts), postId))
  {
    ResolvePostReportsInStore(db, postId);
    var post := FindPost(db.posts, postId);
    RemoveKeepsKeys(db.posts, post, PostKey, db.nextPostId);
    db.posts := RemoveFound(db.posts, post);
  }

  /** The comment branch: its reports are resolved and detached, then the comment is removed. */
  method DeleteCommentAndResolve(db: Store, commentId: int)
    requires db.Valid()
    modifies db`reports, db`comments
    ensures db.Valid()
    ensures db.reports == ResolveCommentReports(old(db.reports), commentId)
    ensures db.comments == RemoveFound(old(db.comments), FindComment(old(db.comments), commentId))
  {
    ResolveCommentReportsInStore(db, commentId);
    var comment := FindComment(db.comments, commentId);
    RemoveKeepsKeys(db.comments, comment, CommentKey, db.nextCommentId);
    db.comments := RemoveFound(db.comments, comment);
  }

  /** The loop over the reports of a deleted post: each is resolved and detached. */
  method ResolvePostReportsInStore(db: Store, postId: int)
    requires db.Valid()
    modifies db`reports
    ensures db.Valid()
    ensures db.reports == ResolvePostReports(old(db.reports), postId)
  {
    ghost var before := db.reports;
    var i := 0;
    while i < |db.reports|
      invariant 0 <= i <= |db.reports| == |before|
      invariant forall k :: 0 <= k < i ==>
        db.reports[k] == if before[k].postId == Some(postId)
                         then before[k].(status := RESOLVED, postId := None) else before[k]
      invariant forall k :: i <= k < |db.reports| ==> db.reports[k] == before[k]
    {
      if db.reports[i].postId == Some(postId) {
        db.reports := db.reports[i := db.reports[i].(status := RESOLVED, postId := None)];
      }
      i := i + 1;
    }
    assert db.reports == ResolvePostReports(before, postId);
    SameIdsKeepKeys(before, db.reports, db.nextReportId);
  }

  /** The loop over the reports of a deleted comment: each is resolved and detached. */
  method ResolveCommentReportsInStore(db: Store, commentId: int)
    requires db.Valid()
    modifies db`reports
    ensures db.Valid()
    ensures db.reports == ResolveCommentReports(old(db.reports), commentId)
  {
    ghost var before := db.reports;
    var i := 0;
    while i < |db.reports|
      invariant 0 <= i <= |db.reports| == |before|
      invariant forall k :: 0 <= k < i ==>
        db.reports[k] == if before[k].commentId == Some(commentId)
                         then before[k].(status := RESOLVED, commentId := None) else before[k]
      invariant forall k :: i <= k < |db.reports| ==> db.reports[k] == before[k]
    {
      if db.reports[i].commentId == Some(commentId) {
        db.reports := db.reports[i := db.reports[i].(status := RESOLVED, commentId := None)];
      }
      i := i + 1;
    }
    assert db.reports == ResolveCommentReports(before, commentId);
    SameIdsKeepKeys(before, db.reports, db.nextReportId);
  }

  // ---------- categories and users ----------

  lemma {:induction false} RemoveKeepsDistinctCategories(cs: seq<Category>, i: Option<nat>)
    requires i.Some? ==> i.value < |cs|
    requires forall a, b :: 0 <= a < b < |cs| ==> cs[a].id != cs[b].id
    ensures var out := RemoveFound(cs, i); forall a, b :: 0 <= a < b < |out| ==> out[a].id != out[b].id
  {
    if i.Some? {
      var out := RemoveFound(cs, i);
      forall a, b | 0 <= a < b < |out| ensures out[a].id != out[b].id {
        var a' := if a < i.value then a else a + 1;
        var b' := if b < i.value then b else b + 1;
        assert out[a] == cs[a'] && out[b] == cs[b'] && a' < b';
      }
    }
  }

  /** DeleteCategoryAsync: a hard delete of the category, if it exists; reports are not reconciled. */
  method DeleteCategory(db: Store, categoryId: int)
    requires db.Valid()
    modifies db`categories
    ensures db.Valid()
    ensures db.categories == RemoveFound(old(db.categories), FindCategory(old(db.categories), categoryId))
  {
    var found := FindCategory(db.categories, categoryId);
    RemoveKeepsDistinctCategories(db.categories, found);
    db.categories := RemoveFound(db.categories, found);
  }

  /**
   * ToggleCategoryVerificationAsync on a table: the category's flag is negated
   * and stamped, and the new flag returned; an absent id returns false and
   * leaves the table unchanged.
   */
  function ToggleVerified(cs: seq<Category>, categoryId: int, now: Time): (r: (seq<Category>, bool))
    ensures |r.0| == |cs|
    ensures FindCategory(cs, categoryId).None? ==> r == (cs, false)
    ensures FindCategory(cs, categoryId).Some? ==>
      var i := FindCategory(cs, categoryId).value;
      r.1 == !cs[i].isVerified && r.0[i].isVerified == r.1
      && r.0 == cs[i := cs[i].(isVerified := r.1, dateUpdated := now)]
  {
    match FindCategory(cs, categoryId)
    case None => (cs, false)
    case Some(i) =>
      var flag := !cs[i].isVerified;
      (cs[i := cs[i].(isVerified := flag, dateUpdated := now)], flag)
  }

  /** Toggling verification twice restores every flag, and the second toggle reports the original flag. */
  lemma ToggleVerifiedTwice(cs: seq<Category>, categoryId: int, t1: Time, t2: Time)
    ensures var once := ToggleVerified(cs, categoryId, t1);
      var twice := ToggleVerified(once.0, categoryId, t2);
      |twice.0| == |cs|
      && (forall i :: 0 <= i < |cs| ==> twice.0[i].isVerified == cs[i].isVerified)
      && (FindCategory(cs, categoryId).Some? ==>
            twice.1 == cs[FindCategory(cs, categoryId).value].isVerified)
  {
    var once := ToggleVerified(cs, categoryId, t1);
    CategoryFindSameKeys(cs, once.0, categoryId);
  }

  lemma {:induction false} CategoryFindSameKeys(a: seq<Category>, b: seq<Category>, id: int)
    requires |a| == |b|
    requires forall i :: 0 <= i < |a| ==> a[i].id == b[i].id
    ensures FindCategory(a, id) == FindCategory(b, id)
  {
    var p := (c: Category) => c.id == id;
    assert forall i :: 0 <= i < |a| ==> p(a[i]) == p(b[i]);
    match FindCategory(a, id)
    case None =>
    case Some(i) =>
  }

  method ToggleCategoryVerification(db: Store, categoryId: int, now: Time) returns (verified: bool)
    requires db.Valid()
    modifies db`categories
    ensures db.Valid()
    ensures (db.categories, verified) == ToggleVerified(old(db.categories), categoryId, now)
  {
    var found := FindCategory(db.categories, categoryId);
    if found.None? {
      return false;
    }
    var i := found.value;
    db.categories := db.categories[i := db.categories[i].(isVerified := !db.categories[i].isVerified, dateUpdated := now)];
    verified := db.categories[i].isVerified;
  }

  /**
   * ToggleUserBanAsync on a table: the user's active flag is negated and
   * stamped, and the new flag returned; an absent id returns false and leaves
   * the table unchanged.
   */
  function ToggleActive(us: seq<User>, userId: string, now: Time): (r: (seq<User>, bool))
    ensures |r.0| == |us|
    ensures FindUser(us, userId).None? ==> r == (us, false)
    ensures FindUser(us, userId).Some? ==>
      var i := FindUser(us, userId).value;
      r.1 == !us[i].isActive && r.0[i].isActive == r.1
      && r.0 == us[i := us[i].(isActive := r.1, dateUpdated := now)]
  {
    match FindUser(us, userId)
    case None => (us, false)
    case Some(i) =>
      var flag := !us[i].isActive;
      (us[i := us[i].(isActive := flag, dateUpdated := now)], flag)
  }

  lemma {:induction false} UserFindSameKeys(a: seq<User>, b: seq<User>, id: string)
    requires |a| == |b|
    requires forall i :: 0 <= i < |a| ==> a[i].id == b[i].id
    ensures FindUser(a, id) == FindUser(b, id)
  {
    var p := (u: User) => u.id == id;
    assert forall i :: 0 <= i < |a| ==> p(a[i]) == p(b[i]);
    match FindUser(a, id)
    case None =>
    case Some(i) =>
  }

  /** Toggling a ban twice restores every active flag, and the second toggle reports the original flag. */
  lemma ToggleActiveTwice(us: seq<User>, userId: string, t1: Time, t2: Time)
    ensures var once := ToggleActive(us, userId, t1);
      var twice := ToggleActive(once.0, userId, t2);
      |twice.0| == |us|
      && (forall i :: 0 <= i < |us| ==> twice.0[i].isActive == us[i].isActive)
      && (FindUser(us, userId).Some? ==> twice.1 == us[FindUser(us, userId).value].isActive)
  {
    var once := ToggleActive(us, userId, t1);
    UserFindSameKeys(us, once.0, userId);
  }

  method ToggleUserBan(db: Store, userId: string, now: Time) returns (active: bool)
    requires db.Valid()
    modifies db`users
    ensures db.Valid()
    ensures (db.users, active) == ToggleActive(old(db.users), userId, now)
  {
    var found := FindUser(db.users, userId);
    if found.None? {
      return false;
    }
    var i := found.value;
    db.users := db.users[i := db.users[i].(isActive := !db.users[i].isActive, dateUpdated := now)];
    active := db.users[i].isActive;
  }

  // ---------- access requests ----------

  /**
   * ApproveAccessRequestAsync / RejectAccessRequestAsync on a table: the
   * request with that id gets the status and a fresh update time, whatever
   * its previous status; an absent id changes nothing.
   */
  function SetRequestStatus(rs: seq<AccessRequest>, requestId: int, status: string, now: Time): (out: seq<AccessRequest>)
    ensures |out| == |rs|
    ensures FindRequest(rs, requestId).None? ==> out == rs
    ensures FindRequest(rs, requestId).Some? ==>
      var i := FindRequest(rs, requestId).value;
      out[i].status == status && out[i].dateUpdated == now
      && out[i] == rs[i].(status := status, dateUpdated := now)
      && (forall j :: 0 <= j < |rs| && j != i ==> out[j] == rs[j])
  {
    match FindRequest(rs, requestId)
    case None => rs
    case Some(i) => rs[i := rs[i].(status := status, dateUpdated := now)]
  }

  lemma SetStatusKeepsKeys(rs: seq<AccessRequest>, requestId: int, status: string, now: Time, next: int)
    requires KeysValid(rs, RequestKey, next)
    ensures KeysValid(SetRequestStatus(rs, requestId, status, now), RequestKey, next)
  {
    var out := SetRequestStatus(rs, requestId, status, now);
    assert forall i :: 0 <= i < |rs| ==> RequestKey(out[i]) == RequestKey(rs[i]);
  }

  method ApproveAccessRequest(db: Store, requestId: int, now: Time)
    requires db.Valid()
    modifies db`requests
    ensures db.Valid()
    ensures db.requests == SetRequestStatus(old(db.requests), requestId, APPROVED, now)
  {
    SetStatusKeepsKeys(db.requests, requestId, APPROVED, now, db.nextRequestId);
    var found := FindRequest(db.requests, requestId);
    if found.Some? {
      var i := found.value;
      db.requests := db.requests[i := db.requests[i].(status := APPROVED, dateUpdated := now)];
    }
  }

  method RejectAccessRequest(db: Store, requestId: int, now: Time)
    requires db.Valid()
    modifies db`requests
    ensures db.Valid()
    ensures db.requests == SetRequestStatus(old(db.requests), requestId, REJECTED, now)
  {
    SetStatusKeepsKeys(db.requests, requestId, REJECTED, now, db.nextRequestId);
    var found := FindRequest(db.requests, requestId);
    if found.Some? {
      var i := found.value;
      db.requests := db.requests[i := db.requests[i].(status := REJECTED, dateUpdated := now)];
    }
  }
}
