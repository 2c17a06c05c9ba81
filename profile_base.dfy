/**
 * The profile page's handlers: reporting the shown user, liking, the comment
 * and reply boxes with their drafts, and the per-post carousel. Every action
 * except the reply toggle, the drafts and the carousel needs a signed-in user;
 * without one the page navigates away (not modelled) and changes nothing.
 */
module ProfileBase {
  import opened Domain
  import opened Text
  import opened Store
  import opened PageDicts
  import Membership
  import PostService
  import ProfileService
  import opened HomePageService

  class ProfileState {
    /** The signed-in user's id; `None` when nobody is signed in. */
    var currentUser: Option<string>
    /** The id of the user whose profile is shown; `None` when not found. */
    var profileUser: Option<string>
    var userPosts: seq<PostView>
    var reportStatusMessage: string
    var showComments: map<int, bool>
    var postComments: map<int, seq<Comment>>
    var commentDrafts: map<int, string>
    var carouselIndices: map<int, int>
    var activeReplyBoxes: map<int, bool>
    var replyDrafts: map<int, string>

    constructor (currentUser: Option<string>, profileUser: Option<string>, userPosts: seq<PostView>)
      ensures this.currentUser == currentUser && this.profileUser == profileUser && this.userPosts == userPosts
      ensures reportStatusMessage == ""
      ensures showComments == map[] && postComments == map[] && commentDrafts == map[]
      ensures carouselIndices == map[] && activeReplyBoxes == map[] && replyDrafts == map[]
    {
      this.currentUser := currentUser;
      this.profileUser := profileUser;
      this.userPosts := userPosts;
      reportStatusMessage := "";
      showComments, postComments, commentDrafts := map[], map[], map[];
      carouselIndices, activeReplyBoxes, replyDrafts := map[], map[], map[];
    }
  }

  const REPORT_CANCELLED := "Report cancelled."
  const REPORT_SUBMITTED := "Report submitted successfully."
  const ALREADY_REPORTED := "You have already reported this user."

  /** How a press of the report button ended. */
  datatype ReportOutcome = NobodyToReport | Cancelled | UserReported | AlreadyReported

  /**
   * `ReportUserAsync`. `reason` is what the prompt answered (`None` when it
   * was dismissed). Without a shown user or a signed-in user nothing happens;
   * a null or blank reason cancels; otherwise the service decides, and the
   * status message says how it went.
   */
  method ReportUser(state: ProfileState, db: Store, reason: Option<string>, now: Time) returns (outcome: ReportOutcome)
    requires db.Valid()
    modifies state`reportStatusMessage, db`reports, db`nextReportId
    ensures db.Valid()
    ensures outcome == NobodyToReport <==> state.profileUser.None? || state.currentUser.None?
    ensures outcome == Cancelled <==>
      state.profileUser.Some? && state.currentUser.Some? && IsNullOrWhiteSpace(reason)
    ensures outcome != UserReported ==> db.reports == old(db.reports) && db.nextReportId == old(db.nextReportId)
    ensures outcome == NobodyToReport ==> state.reportStatusMessage == old(state.reportStatusMessage)
    ensures outcome == Cancelled ==> state.reportStatusMessage == REPORT_CANCELLED
    ensures outcome == AlreadyReported ==>
      && ProfileService.HasReportedUser(old(db.reports), state.profileUser.value, state.currentUser.value)
      && state.reportStatusMessage == ALREADY_REPORTED
    ensures outcome == UserReported ==>
      && state.profileUser.Some? && state.currentUser.Some? && reason.Some?
      && !ProfileService.HasReportedUser(old(db.reports), state.profileUser.value, state.currentUser.value)
      && db.reports == old(db.reports) + [ProfileService.UserReport(old(db.nextReportId), state.profileUser.value,
                                                                     state.currentUser.value, reason.value, now)]
      && db.nextReportId == old(db.nextReportId) + 1
      && state.reportStatusMessage == REPORT_SUBMITTED
  {
    if state.profileUser.None? || state.currentUser.None? {
      return NobodyToReport;
    }
    if IsNullOrWhiteSpace(reason) {
      state.reportStatusMessage := REPORT_CANCELLED;
      return Cancelled;
    }
    var submitted := ProfileService.SubmitUserReport(db, state.profileUser.value, state.currentUser.value, reason.value, now);
    if submitted {
      state.reportStatusMessage := REPORT_SUBMITTED;
      outcome := UserReported;
    } else {
      state.reportStatusMessage := ALREADY_REPORTED;
      outcome := AlreadyReported;
    }
  }

  /**
   * `ToggleLike`: nothing without a signed-in user (`None`); otherwise the
   * like is toggled and the first shown post with the id gets its current
   * likes (`Some` of whether the post is now liked).
   */
  method ToggleLike(state: ProfileState, db: Store, postId: int, now: Time) returns (liked: Option<bool>)
    modifies db`likes, state`userPosts
    ensures liked.None? <==> state.currentUser.None?
    ensures liked.None? ==> db.likes == old(db.likes) && state.userPosts == old(state.userPosts)
    ensures liked.Some? ==>
      && (db.likes, liked.value) == Membership.Toggle(old(db.likes), PostService.LikeKey, (postId, state.currentUser.value),
                                                     PostLike(postId, state.currentUser.value, now))
      && state.userPosts == RefreshPostLikes(old(state.userPosts), postId, db.likes)
  {
    if state.currentUser.None? {
      return None;
    }
    var l := PostService.ToggleLike(db, postId, state.currentUser.value, now);
    state.userPosts := RefreshPostLikes(state.userPosts, postId, db.likes);
    liked := Some(l);
  }

  /**
   * `ToggleComments`: nothing without a signed-in user; otherwise the flag
   * flips (a missing key reads as hidden) and a thread shown for the first
   * time is loaded, oldest comment first.
   */
  method ToggleComments(state: ProfileState, db: Store, postId: int)
    modifies state`showComments, state`postComments
    ensures state.currentUser.None? ==>
      state.showComments == old(state.showComments) && state.postComments == old(state.postComments)
    ensures state.currentUser.Some? ==> state.showComments == Toggled(old(state.showComments), postId)
    ensures state.currentUser.Some? ==>
      state.postComments == if Flag(state.showComments, postId) && postId !in old(state.postComments)
                            then old(state.postComments)[postId := PostService.PostComments(db.comments, postId)]
                            else old(state.postComments)
  {
    if state.currentUser.None? {
      return;
    }
    var shown := Toggled(state.showComments, postId);
    state.showComments := shown;
    if Flag(shown, postId) && postId !in state.postComments {
      state.postComments := state.postComments[postId := PostService.PostComments(db.comments, postId)];
    }
  }

  /** `UpdateCommentDraft`: a null text is ignored. */
  method UpdateCommentDraft(state: ProfileState, postId: int, content: Option<string>)
    modifies state`commentDrafts
    ensures state.commentDrafts == if content.None? then old(state.commentDrafts) else old(state.commentDrafts)[postId := content.value]
  {
    if content.Some? {
      state.commentDrafts := state.commentDrafts[postId := content.value];
    }
  }

  /** The draft under `key` exists and is not blank, so submitting it posts something. */
  predicate DraftReady(drafts: map<int, string>, key: int) {
    key in drafts && !IsBlank(drafts[key])
  }

  /** The thread after appending `c`: a thread not loaded yet starts empty (`EnsureCommentListExists`). */
  function Appended(threads: map<int, seq<Comment>>, postId: int, c: Comment): (r: map<int, seq<Comment>>)
    ensures r.Keys == threads.Keys + {postId}
    ensures r[postId] == (if postId in threads then threads[postId] else []) + [c]
    ensures forall k :: k in threads && k != postId ==> r[k] == threads[k]
  {
    threads[postId := (if postId in threads then threads[postId] else []) + [c]]
  }

  /**
   * `SubmitComment`: with a signed-in user and a non-blank draft, stores a
   * top-level comment with the draft's text, empties the draft and appends
   * the stored comment to the post's thread; otherwise changes nothing.
   */
  method SubmitComment(state: ProfileState, db: Store, postId: int, now: Time) returns (posted: bool)
    requires db.Valid()
    modifies state`commentDrafts, state`postComments, db`comments, db`nextCommentId
    ensures db.Valid()
    ensures posted <==> state.currentUser.Some? && DraftReady(old(state.commentDrafts), postId)
    ensures !posted ==>
      && state.commentDrafts == old(state.commentDrafts) && state.postComments == old(state.postComments)
      && db.comments == old(db.comments) && db.nextCommentId == old(db.nextCommentId)
    ensures posted ==>
      var c := Comment(old(db.nextCommentId), postId, state.currentUser.value, old(state.commentDrafts)[postId], None, now);
      && db.comments == old(db.comments) + [c]
      && db.nextCommentId == old(db.nextCommentId) + 1
      && state.commentDrafts == old(state.commentDrafts)[postId := ""]
      && !DraftReady(state.commentDrafts, postId)
      && state.postComments == Appended(old(state.postComments), postId, c)
  {
    if state.currentUser.None? || !DraftReady(state.commentDrafts, postId) {
      return false;
    }
    var c := Comment(0, postId, state.currentUser.value, state.commentDrafts[postId], None, now);
    var id := db.AddComment(c);
    state.commentDrafts := state.commentDrafts[postId := ""];
    state.postComments := Appended(state.postComments, postId, c.(id := id));
    posted := true;
  }

  /** `ToggleReplyBox`: the box flag flips and an empty draft is created if there is none. */
  method ToggleReplyBox(state: ProfileState, commentId: int)
    modifies state`activeReplyBoxes, state`replyDrafts
    ensures state.activeReplyBoxes == Toggled(old(state.activeReplyBoxes), commentId)
    ensures state.replyDrafts == WithDraft(old(state.replyDrafts), commentId)
  {
    state.activeReplyBoxes := Toggled(state.activeReplyBoxes, commentId);
    state.replyDrafts := WithDraft(state.replyDrafts, commentId);
  }

  /** `UpdateReplyDraft`: a null text is ignored. */
  method UpdateReplyDraft(state: ProfileState, commentId: int, content: Option<string>)
    modifies state`replyDrafts
    ensures state.replyDrafts == if content.None? then old(state.replyDrafts) else old(state.replyDrafts)[commentId := content.value]
  {
    if content.Some? {
      state.replyDrafts := state.replyDrafts[commentId := content.value];
    }
  }

  /**
   * `SubmitReply`: as `SubmitComment`, with the draft kept per parent
   * comment; a posted reply also closes the parent's reply box.
   */
  method SubmitReply(state: ProfileState, db: Store, postId: int, parentCommentId: int, now: Time) returns (posted: bool)
    requires db.Valid()
    modifies state`replyDrafts, state`activeReplyBoxes, state`postComments, db`comments, db`nextCommentId
    ensures db.Valid()
    ensures posted <==> state.currentUser.Some? && DraftReady(old(state.replyDrafts), parentCommentId)
    ensures !posted ==>
      && state.replyDrafts == old(state.replyDrafts) && state.activeReplyBoxes == old(state.activeReplyBoxes)
      && state.postComments == old(state.postComments)
      && db.comments == old(db.comments) && db.nextCommentId == old(db.nextCommentId)
    ensures posted ==>
      var c := Comment(old(db.nextCommentId), postId, state.currentUser.value, old(state.replyDrafts)[parentCommentId],
                       Some(parentCommentId), now);
      && db.comments == old(db.comments) + [c]
      && db.nextCommentId == old(db.nextCommentId) + 1
      && state.replyDrafts == old(state.replyDrafts)[parentCommentId := ""]
      && state.activeReplyBoxes == old(state.activeReplyBoxes)[parentCommentId := false]
      && !Flag(state.activeReplyBoxes, parentCommentId)
      && state.postComments == Appended(old(state.postComments), postId, c)
  {
    if state.currentUser.None? || !DraftReady(state.replyDrafts, parentCommentId) {
      return false;
    }
    var c := Comment(0, postId, state.currentUser.value, state.replyDrafts[parentCommentId], Some(parentCommentId), now);
    var id := db.AddComment(c);
    state.replyDrafts := state.replyDrafts[parentCommentId := ""];
    state.activeReplyBoxes := state.activeReplyBoxes[parentCommentId := false];
    state.postComments := Appended(state.postComments, postId, c.(id := id));
    posted := true;
  }

  /** `GetCurrentIndex`: stores 0 for an unseen post and returns the stored position. */
  method GetCurrentIndex(state: ProfileState, postId: int) returns (index: int)
    modifies state`carouselIndices
    ensures state.carouselIndices == WithIndex(old(state.carouselIndices), postId)
    ensures index == if postId in old(state.carouselIndices) then old(state.carouselIndices)[postId] else 0
  {
    if postId !in state.carouselIndices {
      state.carouselIndices := state.carouselIndices[postId := 0];
    }
    index := state.carouselIndices[postId];
  }

  /**
   * `NextSlide`; a zero count makes `%` throw after the position was
   * initialised, which the result reports.
   */
  method NextSlide(state: ProfileState, postId: int, totalCount: int) returns (divideByZero: bool)
    modifies state`carouselIndices
    ensures divideByZero <==> totalCount == 0
    ensures var seen := WithIndex(old(state.carouselIndices), postId);
      state.carouselIndices == if totalCount == 0 then seen else seen[postId := NextIndex(seen[postId], totalCount)]
  {
    var current := GetCurrentIndex(state, postId);
    if totalCount == 0 {
      return true;
    }
    state.carouselIndices := state.carouselIndices[postId := CsRem(current + 1, totalCount)];
    divideByZero := false;
  }

  /** `PrevSlide`, with the same zero-count behaviour as `NextSlide`. */
  method PrevSlide(state: ProfileState, postId: int, totalCount: int) returns (divideByZero: bool)
    modifies state`carouselIndices
    ensures divideByZero <==> totalCount == 0
    ensures var seen := WithIndex(old(state.carouselIndices), postId);
      state.carouselIndices == if totalCount == 0 then seen else seen[postId := PrevIndex(seen[postId], totalCount)]
  {
    var current := GetCurrentIndex(state, postId);
    if totalCount == 0 {
      return true;
    }
    state.carouselIndices := state.carouselIndices[postId := CsRem(current - 1 + totalCount, totalCount)];
    divideByZero := false;
  }
}
