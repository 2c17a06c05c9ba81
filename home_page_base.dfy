/**
 * The home page's handlers: the access-request form with its cooldown, the
 * comment and reply toggles, and the header post search.
 */
module HomePageBase {
  import opened Domain
  import opened Text
  import opened Store
  import opened PageDicts
  import opened AccessLifecycle
  import PostService
  import HomePageService

  /** The fields of the home page's state the modelled handlers read and write. */
  class HomePageState {
    /** The signed-in user's id; `None` when nobody is signed in. */
    var currentUser: Option<string>
    var showLoginOverlay: bool
    var selectedCategoryId: int
    var accessRequestReason: string
    var isAccessRequestSuccess: bool
    var accessRequestMessage: string
    var verificationDocumentPath: Option<string>
    var showComments: map<int, bool>
    var postComments: map<int, seq<Comment>>
    var activeReplyBoxes: map<int, bool>
    var replyDrafts: map<int, string>
    var headerSearchTerm: string
    var postSearchResults: seq<Post>
    var hasSearchedPosts: bool

    constructor (currentUser: Option<string>)
      ensures this.currentUser == currentUser
      ensures !showLoginOverlay && selectedCategoryId == 0 && accessRequestReason == "" && !isAccessRequestSuccess
      ensures accessRequestMessage == ""
      ensures verificationDocumentPath == None
      ensures showComments == map[] && postComments == map[] && activeReplyBoxes == map[] && replyDrafts == map[]
      ensures headerSearchTerm == "" && postSearchResults == [] && !hasSearchedPosts
    {
      this.currentUser := currentUser;
      showLoginOverlay := false;
      selectedCategoryId := 0;
      accessRequestReason := "";
      isAccessRequestSuccess := false;
      accessRequestMessage := "";
      verificationDocumentPath := None;
      showComments, postComments, activeReplyBoxes, replyDrafts := map[], map[], map[], map[];
      headerSearchTerm := "";
      postSearchResults := [];
      hasSearchedPosts := false;
    }
  }

  /** How a press of the request button ended. */
  datatype RequestOutcome = NotSignedIn | NoCategory | NoReason | Decided(decision: Decision)

  predicate Succeeded(o: RequestOutcome) {
    o.Decided? && (o.decision.Reuse? || o.decision.Insert?)
  }

  /** The outcome, from the form's contents and the request table. */
  function FormOutcome(user: Option<string>, categoryId: int, reason: string, rs: seq<AccessRequest>, now: Time): RequestOutcome {
    if user.None? then NotSignedIn
    else if categoryId == 0 then NoCategory
    else if IsBlank(reason) then NoReason
    else Decided(Decide(rs, user.value, categoryId, now))
  }

  const SELECT_CATEGORY_MESSAGE := "Please select a category."
  const NO_REASON_MESSAGE := "Please provide a reason for the request."

  /**
   * The `AccessRequestMessage` a press leaves behind (nobody signed in leaves
   * it alone): one message per guard and per refusal, and the two success
   * messages exactly for a reuse and an insert.
   */
  function FormMessage(o: RequestOutcome): (m: string)
    requires !o.NotSignedIn?
    ensures Succeeded(o) <==> m == RESUBMITTED_MESSAGE || m == SUBMITTED_MESSAGE
    ensures m == RESUBMITTED_MESSAGE <==> o.Decided? && o.decision.Reuse?
    ensures o.NoCategory? <==> m == SELECT_CATEGORY_MESSAGE
    ensures o.NoReason? <==> m == NO_REASON_MESSAGE
    ensures o == Decided(RefusePending) <==> m == PENDING_REQUEST_MESSAGE
    ensures o == Decided(RefuseApproved) <==> m == HAS_ACCESS_MESSAGE
    ensures o.Decided? && o.decision.RefuseCooldown? ==>
      |COOLDOWN_PREFIX| <= |m| && m[..|COOLDOWN_PREFIX|] == COOLDOWN_PREFIX
  {
    match o
    case NoCategory => SELECT_CATEGORY_MESSAGE
    case NoReason => NO_REASON_MESSAGE
    case Decided(d) =>
      match d
      case RefusePending => PENDING_REQUEST_MESSAGE
      case RefuseApproved => HAS_ACCESS_MESSAGE
      case RefuseCooldown(_) => COOLDOWN_PREFIX
      case Reuse(_) => RESUBMITTED_MESSAGE
      case Insert => SUBMITTED_MESSAGE
  }

  /** The row the home form inserts: it carries the document path and names its creator. */
  function NewHomeRequest(id: int, userId: string, categoryId: int, reason: string, doc: Option<string>, now: Time): AccessRequest {
    AccessRequest(id, userId, categoryId, reason, PENDING, doc, now, now, Some(userId), None)
  }

  /** The request table after a decision for the pair: reuse the row, insert one, or change nothing. */
  function RowsAfter(rs: seq<AccessRequest>, next: int, d: Decision, userId: string, categoryId: int, reason: string,
                     doc: Option<string>, now: Time): seq<AccessRequest>
    requires d.Reuse? ==> d.index < |rs|
  {
    match d
    case Reuse(i) => rs[i := Resubmitted(rs[i], reason, now).(supportingDocumentPath := doc)]
    case Insert => rs + [NewHomeRequest(next, userId, categoryId, reason, doc, now)]
    case _ => rs
  }

  /** The request table after the home form was submitted. */
  function HomeRequestRows(rs: seq<AccessRequest>, next: int, user: Option<string>, categoryId: int, reason: string,
                           doc: Option<string>, now: Time): seq<AccessRequest>
  {
    match FormOutcome(user, categoryId, reason, rs, now)
    case Decided(d) => RowsAfter(rs, next, d, user.value, categoryId, reason, doc, now)
    case _ => rs
  }

  /** The store side of a decision. */
  method ApplyDecision(db: Store, d: Decision, userId: string, categoryId: int, reason: string, doc: Option<string>, now: Time)
    requires db.Valid()
    requires d.Reuse? ==> d.index < |db.requests|
    modifies db`requests, db`nextRequestId
    ensures db.Valid()
    ensures db.requests == RowsAfter(old(db.requests), old(db.nextRequestId), d, userId, categoryId, reason, doc, now)
    ensures db.nextRequestId == old(db.nextRequestId) + (if d.Insert? then 1 else 0)
  {
    match d {
      case Reuse(i) =>
        db.SetRequest(i, Resubmitted(db.requests[i], reason, now).(supportingDocumentPath := doc));
      case Insert =>
        var id := db.AddRequest(NewHomeRequest(0, userId, categoryId, reason, doc, now));
      case _ =>
    }
  }

  /**
   * `HandleAccessRequest`. Nobody signed in opens the login overlay. A
   * missing category or a blank reason, and every refusal, mark the form
   * unsuccessful and change no request. Otherwise the pair's rejected row is
   * reused or a new row inserted, and the form is cleared.
   */
  method HandleAccessRequest(state: HomePageState, db: Store, now: Time) returns (outcome: RequestOutcome)
    requires db.Valid()
    modifies state`showLoginOverlay, state`isAccessRequestSuccess, state`selectedCategoryId
    modifies state`accessRequestReason, state`verificationDocumentPath, state`accessRequestMessage
    modifies db`requests, db`nextRequestId
    ensures db.Valid()
    ensures state.accessRequestMessage ==
      if outcome.NotSignedIn? then old(state.accessRequestMessage) else FormMessage(outcome)
    ensures outcome == FormOutcome(old(state.currentUser), old(state.selectedCategoryId), old(state.accessRequestReason),
                                   old(db.requests), now)
    ensures db.requests == HomeRequestRows(old(db.requests), old(db.nextRequestId), old(state.currentUser),
                                           old(state.selectedCategoryId), old(state.accessRequestReason),
                                           old(state.verificationDocumentPath), now)
    ensures db.nextRequestId == old(db.nextRequestId) + (if outcome == Decided(Insert) then 1 else 0)
    ensures state.showLoginOverlay == (old(state.showLoginOverlay) || outcome.NotSignedIn?)
    ensures outcome.NotSignedIn? ==> state.isAccessRequestSuccess == old(state.isAccessRequestSuccess)
    ensures !outcome.NotSignedIn? ==> state.isAccessRequestSuccess == Succeeded(outcome)
    ensures Succeeded(outcome) ==>
      state.selectedCategoryId == 0 && state.accessRequestReason == "" && state.verificationDocumentPath == None
    ensures !Succeeded(outcome) ==>
      && state.selectedCategoryId == old(state.selectedCategoryId)
      && state.accessRequestReason == old(state.accessRequestReason)
      && state.verificationDocumentPath == old(state.verificationDocumentPath)
  {
    if state.currentUser.None? {
      state.showLoginOverlay := true;
      return NotSignedIn;
    }
    if state.selectedCategoryId == 0 {
      state.accessRequestMessage := SELECT_CATEGORY_MESSAGE;
      state.isAccessRequestSuccess := false;
      return NoCategory;
    }
    if IsBlank(state.accessRequestReason) {
      state.accessRequestMessage := NO_REASON_MESSAGE;
      state.isAccessRequestSuccess := false;
      return NoReason;
    }
    var decision := SubmitCheckedForm(state, db, now);
    outcome := Decided(decision);
  }

  /** The part of `HandleAccessRequest` after the form passed its checks. */
  method SubmitCheckedForm(state: HomePageState, db: Store, now: Time) returns (d: Decision)
    requires db.Valid()
    requires state.currentUser.Some?
    modifies state`isAccessRequestSuccess, state`selectedCategoryId
    modifies state`accessRequestReason, state`verificationDocumentPath, state`accessRequestMessage
    modifies db`requests, db`nextRequestId
    ensures db.Valid()
    ensures state.accessRequestMessage == FormMessage(Decided(d))
    ensures d == Decide(old(db.requests), state.currentUser.value, old(state.selectedCategoryId), now)
    ensures db.requests == RowsAfter(old(db.requests), old(db.nextRequestId), d, state.currentUser.value,
                                     old(state.selectedCategoryId), old(state.accessRequestReason),
                                     old(state.verificationDocumentPath), now)
    ensures db.nextRequestId == old(db.nextRequestId) + (if d.Insert? then 1 else 0)
    ensures state.isAccessRequestSuccess == !Refused(d)
    ensures !Refused(d) ==>
      state.selectedCategoryId == 0 && state.accessRequestReason == "" && state.verificationDocumentPath == None
    ensures Refused(d) ==>
      && state.selectedCategoryId == old(state.selectedCategoryId)
      && state.accessRequestReason == old(state.accessRequestReason)
      && state.verificationDocumentPath == old(state.verificationDocumentPath)
  {
    var user, categoryId, reason, doc := state.currentUser.value, state.selectedCategoryId,
                                         state.accessRequestReason, state.verificationDocumentPath;
    d := Decide(db.requests, user, categoryId, now);
    if !Refused(d) {
      ApplyDecision(db, d, user, categoryId, reason, doc, now);
    }
    ShowFormDecision(state, d);
  }

  /** The form side of a checked request: the message, the success flag, and the reset after a success. */
  method ShowFormDecision(state: HomePageState, d: Decision)
    modifies state`isAccessRequestSuccess, state`selectedCategoryId
    modifies state`accessRequestReason, state`verificationDocumentPath, state`accessRequestMessage
    ensures state.accessRequestMessage == FormMessage(Decided(d))
    ensures state.isAccessRequestSuccess == !Refused(d)
    ensures !Refused(d) ==>
      state.selectedCategoryId == 0 && state.accessRequestReason == "" && state.verificationDocumentPath == None
    ensures Refused(d) ==>
      && state.selectedCategoryId == old(state.selectedCategoryId)
      && state.accessRequestReason == old(state.accessRequestReason)
      && state.verificationDocumentPath == old(state.verificationDocumentPath)
  {
    state.accessRequestMessage := FormMessage(Decided(d));
    if Refused(d) {
      state.isAccessRequestSuccess := false;
      return;
    }
    state.isAccessRequestSuccess := true;
    state.selectedCategoryId := 0;
    state.accessRequestReason := "";
    state.verificationDocumentPath := None;
  }

  /**
   * A second press right after a successful one, on the same category, is
   * refused as pending when the first press reused a rejected row or the pair
   * had no request before.
   */
  lemma SecondHomeRequestRefused(rs: seq<AccessRequest>, next: int, userId: string, categoryId: int, reason: string,
                                 doc: Option<string>, now: Time, reason2: string, later: Time)
    requires Succeeded(FormOutcome(Some(userId), categoryId, reason, rs, now))
    requires FirstRequest(rs, userId, categoryId).None? || Decide(rs, userId, categoryId, now).Reuse?
    requires !IsBlank(reason2)
    ensures FormOutcome(Some(userId), categoryId, reason2,
                        HomeRequestRows(rs, next, Some(userId), categoryId, reason, doc, now), later)
            == Decided(RefusePending)
  {
    if Decide(rs, userId, categoryId, now).Reuse? {
      ReuseLeavesPending(rs, userId, categoryId, now, reason, doc, later);
    } else {
      InsertLeavesPending(rs, userId, categoryId, NewHomeRequest(next, userId, categoryId, reason, doc, now), later);
    }
  }

  /**
   * A first request whose status is none of Pending, Approved and Rejected is
   * never replaced: every press inserts one more row and the next press
   * decides the same way.
   */
  lemma OtherStatusKeepsInserting(rs: seq<AccessRequest>, next: int, userId: string, categoryId: int, reason: string,
                                  doc: Option<string>, now: Time, later: Time)
    requires categoryId != 0 && !IsBlank(reason)
    requires FirstRequest(rs, userId, categoryId).Some?
    requires rs[FirstRequest(rs, userId, categoryId).value].status !in {PENDING, APPROVED, REJECTED}
    ensures var after := HomeRequestRows(rs, next, Some(userId), categoryId, reason, doc, now);
      |after| == |rs| + 1 && FormOutcome(Some(userId), categoryId, reason, after, later) == Decided(Insert)
  {
    var i := FirstRequest(rs, userId, categoryId).value;
    var after := rs + [NewHomeRequest(next, userId, categoryId, reason, doc, now)];
    assert forall j :: 0 <= j <= i ==> after[j] == rs[j];
    assert FirstRequest(after, userId, categoryId) == Some(i);
  }

  /**
   * `ToggleComments`: the post's visibility flag is negated (missing reads as
   * hidden); when it is now shown and the post's comments were never loaded,
   * they are loaded oldest first. Loaded comments are never reloaded.
   */
  method ToggleComments(state: HomePageState, db: Store, postId: int)
    modifies state`showComments, state`postComments
    ensures state.showComments == Toggled(old(state.showComments), postId)
    ensures state.postComments ==
      if Flag(state.showComments, postId) && postId !in old(state.postComments)
      then old(state.postComments)[postId := PostService.PostComments(db.comments, postId)]
      else old(state.postComments)
  {
    var shown := Toggled(state.showComments, postId);
    state.showComments := shown;
    if Flag(shown, postId) && postId !in state.postComments {
      state.postComments := state.postComments[postId := PostService.PostComments(db.comments, postId)];
    }
  }

  /** `ToggleReplyBox`: the reply box flag is negated and an empty draft exists afterwards, an existing one kept. */
  method ToggleReplyBox(state: HomePageState, commentId: int)
    modifies state`activeReplyBoxes, state`replyDrafts
    ensures state.activeReplyBoxes == Toggled(old(state.activeReplyBoxes), commentId)
    ensures state.replyDrafts == WithDraft(old(state.replyDrafts), commentId)
  {
    state.activeReplyBoxes := Toggled(state.activeReplyBoxes, commentId);
    state.replyDrafts := WithDraft(state.replyDrafts, commentId);
  }

  /**
   * `HandlePostSearch`: a blank header term clears the results and the
   * searched flag; any other term runs the post search.
   */
  method HandlePostSearch(state: HomePageState, db: Store)
    modifies state`postSearchResults, state`hasSearchedPosts
    ensures state.hasSearchedPosts == !IsBlank(state.headerSearchTerm)
    ensures state.postSearchResults ==
      if IsBlank(state.headerSearchTerm) then [] else HomePageService.SearchPosts(db.posts, db.users, state.headerSearchTerm)
  {
    if IsBlank(state.headerSearchTerm) {
      state.postSearchResults := [];
      state.hasSearchedPosts := false;
      return;
    }
    state.hasSearchedPosts := true;
    state.postSearchResults := HomePageService.SearchPosts(db.posts, db.users, state.headerSearchTerm);
  }
}
