/**
 * The category page's handlers: who may post, creating a post, selecting and
 * removing uploads, the access-request form with its cooldown, and the
 * per-post media carousel.
 */
module CategoryDetailsBase {
  import opened Domain
  import opened Seqs
  import opened Text
  import opened Store
  import opened PageDicts
  import opened AccessLifecycle
  import CategoryService
  import CategoryDetailsService

  /** Uploads are capped by count and by size (200 MiB). */
  const MAX_ALLOWED_FILES := 10
  const MAX_FILE_SIZE := 1024 * 1024 * 200

  const VERIFIED_ONLY_MESSAGE := "This category is verified. You must request access to post here."

  /** The category form's own error messages; the refusals' are shared with the home form. */
  const NO_REASON_MESSAGE := "Please provide a reason for your request."
  const ALREADY_PENDING_MESSAGE := "You already have a pending request."

  /** The notification type of a success; the modal's initial type. */
  const SUCCESS := "success"

  /** A file the browser offers: its name, its size, and the GUID its stored copy is named after. */
  datatype SelectedFile = SelectedFile(name: string, size: int, guid: string)

  /** An upload waiting for the post: the web path of the stored copy and its media type. */
  datatype PendingFile = PendingFile(savedPath: string, mediaType: string)

  /** The fields of the category page's state the modelled handlers read and write. */
  class CategoryDetailsState {
    /** The page's category id (the route parameter). */
    var pageCategoryId: int
    var currentCategory: Option<Category>
    var currentUserId: Option<string>
    var isAdmin: bool
    var hasApprovedAccess: bool
    var hasPendingRequest: bool
    var showLoginOverlay: bool
    var errorMessage: string
    var showPostModal: bool
    var newPostContent: string
    var pendingUploads: seq<PendingFile>
    var showRequestModal: bool
    var requestReason: string
    var carouselIndices: map<int, int>
    var showNotificationModal: bool
    var notificationMessage: string
    var notificationType: string

    constructor (pageCategoryId: int, currentCategory: Option<Category>, currentUserId: Option<string>, isAdmin: bool)
      ensures this.pageCategoryId == pageCategoryId && this.currentCategory == currentCategory
      ensures this.currentUserId == currentUserId && this.isAdmin == isAdmin
      ensures !hasApprovedAccess && !hasPendingRequest && !showLoginOverlay && errorMessage == ""
      ensures !showPostModal && newPostContent == "" && pendingUploads == []
      ensures !showRequestModal && requestReason == "" && carouselIndices == map[]
      ensures !showNotificationModal && notificationMessage == "" && notificationType == SUCCESS
    {
      this.pageCategoryId := pageCategoryId;
      this.currentCategory := currentCategory;
      this.currentUserId := currentUserId;
      this.isAdmin := isAdmin;
      hasApprovedAccess, hasPendingRequest, showLoginOverlay := false, false, false;
      errorMessage := "";
      showPostModal, newPostContent, pendingUploads := false, "", [];
      showRequestModal, requestReason := false, "";
      carouselIndices := map[];
      showNotificationModal, notificationMessage, notificationType := false, "", SUCCESS;
    }

    /** `ShowNotification`: the message and its type are shown in the notification modal. */
    method ShowNotification(message: string, kind: string)
      modifies this`notificationMessage, this`notificationType, this`showNotificationModal
      ensures notificationMessage == message && notificationType == kind && showNotificationModal
    {
      notificationMessage, notificationType, showNotificationModal := message, kind, true;
    }

    /** `CloseNotification`: the modal is hidden and its message cleared; the type stays. */
    method CloseNotification()
      modifies this`notificationMessage, this`showNotificationModal
      ensures !showNotificationModal && notificationMessage == ""
    {
      showNotificationModal, notificationMessage := false, "";
    }
  }

  /** `CurrentCategory?.IsVerified == true`: a missing category is not verified. */
  function IsVerified(c: Option<Category>): bool {
    c.Some? && c.value.isVerified
  }

  /**
   * `CanUserPost`: in a verified category only an admin or a user with
   * approved access; elsewhere anyone signed in.
   */
  function CanUserPost(category: Option<Category>, isAdmin: bool, hasApprovedAccess: bool, userId: Option<string>): (b: bool)
    ensures IsVerified(category) ==> (b <==> isAdmin || hasApprovedAccess)
    ensures !IsVerified(category) ==> (b <==> !IsNullOrEmpty(userId))
  {
    if IsVerified(category) then isAdmin || hasApprovedAccess else !IsNullOrEmpty(userId)
  }

  /** The media rows a post gets from the pending uploads. */
  function UploadMedia(ups: seq<PendingFile>): (m: seq<Media>)
    ensures |m| == |ups|
    ensures forall i :: 0 <= i < |ups| ==> m[i] == Media(ups[i].savedPath, ups[i].mediaType)
  {
    seq(|ups|, i requires 0 <= i < |ups| => Media(ups[i].savedPath, ups[i].mediaType))
  }

  /** The create-post `foreach` over the pending uploads. */
  method CollectMedia(ups: seq<PendingFile>) returns (media: seq<Media>)
    ensures media == UploadMedia(ups)
  {
    media := [];
    var i := 0;
    while i < |ups|
      invariant 0 <= i <= |ups|
      invariant media == UploadMedia(ups[..i])
    {
      assert ups[..i + 1] == ups[..i] + [ups[i]];
      media := media + [Media(ups[i].savedPath, ups[i].mediaType)];
      i := i + 1;
    }
    assert ups[..i] == ups;
  }

  /** How a press of the post button ended. */
  datatype PostOutcome = NothingToPost | SignInToPost | NeedsAccess | NeedsAccessInStore | Created(id: int)

  /**
   * The outcome, from the page's state and the request table: the checks in
   * `HandleCreatePost`'s order, the store's approval checked for the page's
   * category. `next` is the key a new post receives.
   */
  function PostOutcomeOf(content: string, ups: seq<PendingFile>, userId: Option<string>, category: Option<Category>,
                         isAdmin: bool, hasApprovedAccess: bool, pageCategoryId: int, rs: seq<AccessRequest>, next: int)
    : PostOutcome
  {
    if IsBlank(content) && |ups| == 0 then NothingToPost
    else if IsNullOrEmpty(userId) then SignInToPost
    else if IsVerified(category) && !isAdmin && !hasApprovedAccess then NeedsAccess
    else if IsVerified(category) && !isAdmin && !CategoryService.HasApprovedAccess(rs, userId.value, pageCategoryId)
    then NeedsAccessInStore
    else Created(next)
  }

  /** The post a successful create stores. */
  function NewPost(id: int, content: string, categoryId: int, userId: string, ups: seq<PendingFile>, now: Time): Post {
    Post(id, content, categoryId, userId, PUBLISHED, now, UploadMedia(ups))
  }

  /**
   * `HandleCreatePost`. Empty content without uploads does nothing; nobody
   * signed in opens the login overlay. In a verified category a non-admin
   * needs approved access twice: in the page's state, and again in the
   * store for the page's category. Otherwise one Published post with the
   * uploads as media is stored and the post modal is closed and cleared.
   */
  method HandleCreatePost(state: CategoryDetailsState, db: Store, now: Time) returns (outcome: PostOutcome)
    requires db.Valid()
    modifies state`showLoginOverlay, state`errorMessage, state`showPostModal, state`newPostContent, state`pendingUploads
    modifies db`posts, db`nextPostId
    ensures db.Valid()
    ensures outcome == PostOutcomeOf(old(state.newPostContent), old(state.pendingUploads), state.currentUserId,
                                     state.currentCategory, state.isAdmin, state.hasApprovedAccess, state.pageCategoryId,
                                     db.requests, old(db.nextPostId))
    ensures state.showLoginOverlay == (old(state.showLoginOverlay) || outcome.SignInToPost?)
    ensures outcome.NeedsAccess? || outcome.NeedsAccessInStore? ==> state.errorMessage == VERIFIED_ONLY_MESSAGE
    ensures outcome.NothingToPost? || outcome.SignInToPost? ==> state.errorMessage == old(state.errorMessage)
    ensures !outcome.Created? ==>
      && db.posts == old(db.posts) && db.nextPostId == old(db.nextPostId)
      && state.showPostModal == old(state.showPostModal) && state.newPostContent == old(state.newPostContent)
      && state.pendingUploads == old(state.pendingUploads)
    ensures outcome.Created? ==>
      && db.posts == old(db.posts) + [NewPost(outcome.id, old(state.newPostContent), state.pageCategoryId,
                                              state.currentUserId.value, old(state.pendingUploads), now)]
      && !state.showPostModal && state.newPostContent == "" && state.pendingUploads == [] && state.errorMessage == ""
      && db.nextPostId == old(db.nextPostId) + 1
  {
    if IsBlank(state.newPostContent) && |state.pendingUploads| == 0 {
      return NothingToPost;
    }
    if IsNullOrEmpty(state.currentUserId) {
      state.showLoginOverlay := true;
      return SignInToPost;
    }
    if IsVerified(state.currentCategory) && !state.isAdmin && !state.hasApprovedAccess {
      state.errorMessage := VERIFIED_ONLY_MESSAGE;
      return NeedsAccess;
    }
    var storeHasAccess := CategoryService.HasApprovedAccess(db.requests, state.currentUserId.value, state.pageCategoryId);
    if IsVerified(state.currentCategory) && !state.isAdmin && !storeHasAccess {
      state.errorMessage := VERIFIED_ONLY_MESSAGE;
      return NeedsAccessInStore;
    }
    var id := CreateCheckedPost(state, db, now);
    outcome := Created(id);
  }

  /** The part of `HandleCreatePost` after the checks: store the post, then `ClosePostModal`. */
  method CreateCheckedPost(state: CategoryDetailsState, db: Store, now: Time) returns (id: int)
    requires db.Valid() && state.currentUserId.Some?
    modifies state`errorMessage, state`showPostModal, state`newPostContent, state`pendingUploads
    modifies db`posts, db`nextPostId
    ensures db.Valid()
    ensures id == old(db.nextPostId) && db.nextPostId == id + 1
    ensures db.posts == old(db.posts) + [NewPost(id, old(state.newPostContent), state.pageCategoryId,
                                                 state.currentUserId.value, old(state.pendingUploads), now)]
    ensures !state.showPostModal && state.newPostContent == "" && state.pendingUploads == [] && state.errorMessage == ""
  {
    var media := CollectMedia(state.pendingUploads);
    id := db.AddPost(Post(0, state.newPostContent, state.pageCategoryId, state.currentUserId.value, PUBLISHED, now, media));
    state.showPostModal := false;
    state.newPostContent := "";
    state.pendingUploads := [];
    state.errorMessage := "";
  }

  /**
   * Nothing is posted without content or uploads, and a created post implies
   * the page's own `CanUserPost`; in a verified category a non-admin also
   * needs an Approved request in the store.
   */
  lemma CreatedImpliesCanPost(content: string, ups: seq<PendingFile>, userId: Option<string>, category: Option<Category>,
                              isAdmin: bool, hasApprovedAccess: bool, pageCategoryId: int, rs: seq<AccessRequest>, next: int)
    ensures var o := PostOutcomeOf(content, ups, userId, category, isAdmin, hasApprovedAccess, pageCategoryId, rs, next);
      && (o == NothingToPost <==> IsBlank(content) && |ups| == 0)
      && (o.Created? ==> CanUserPost(category, isAdmin, hasApprovedAccess, userId) && !IsNullOrEmpty(userId))
      && (o.Created? && IsVerified(category) && !isAdmin ==>
            exists i :: 0 <= i < |rs| && rs[i].userId == userId.value && rs[i].categoryId == pageCategoryId
                        && rs[i].status == APPROVED)
  {
  }

  /** The position of the extension's dot: the last `.` after the last `/`. */
  function LastDot(s: string): (r: Option<nat>)
    ensures r.Some? ==> r.value < |s| && s[r.value] == '.'
    ensures r.Some? ==> forall k :: r.value < k < |s| ==> s[k] != '.' && s[k] != '/'
    ensures r.None? ==> forall k :: 0 <= k < |s| && s[k] == '.' ==> exists j :: k < j < |s| && s[j] == '/'
  {
    if |s| == 0 then None
    else if s[|s| - 1] == '.' then Some(|s| - 1)
    else if s[|s| - 1] == '/' then None
    else
      var r := LastDot(s[..|s| - 1]);
      assert forall k :: 0 <= k < |s| - 1 ==> s[..|s| - 1][k] == s[k];
      r
  }

  /** `Path.GetExtension`: from the last dot to the end, or empty when there is none or it is the last character. */
  function Extension(name: string): (ext: string)
    ensures ext == "" || (ext[0] == '.' && 2 <= |ext| <= |name| && ext == name[|name| - |ext|..])
    ensures forall k :: 0 < k < |ext| ==> ext[k] != '.' && ext[k] != '/'
    ensures ext != "" <==>
      exists k :: 0 <= k < |name| - 1 && name[k] == '.' && forall j :: k < j < |name| ==> name[j] != '.' && name[j] != '/'
  {
    match LastDot(name)
    case None =>
      NoLastDot(name);
      ""
    case Some(i) =>
      LastDotUnique(name, i);
      if i == |name| - 1 then "" else name[i..]
  }

  /** Without a last dot, every dot has a '/' after it. */
  lemma NoLastDot(name: string)
    requires LastDot(name).None?
    ensures !exists k :: 0 <= k < |name| - 1 && name[k] == '.' && forall j :: k < j < |name| ==> name[j] != '.' && name[j] != '/'
  {
  }

  /** A dot with no dot or '/' after it is the last dot. */
  lemma LastDotUnique(name: string, i: nat)
    requires LastDot(name) == Some(i)
    ensures forall k :: 0 <= k < |name| && name[k] == '.' && (forall j :: k < j < |name| ==> name[j] != '.' && name[j] != '/')
                        ==> k == i
  {
  }

  predicate IsVideoExtension(ext: string) {
    ext == ".mp4" || ext == ".webm" || ext == ".mov"
  }

  /** The pending entry for an accepted file: stored under its GUID with its lower-cased extension. */
  function ToPending(f: SelectedFile): PendingFile {
    var ext := ToLower(Extension(f.name));
    PendingFile("/uploads/" + f.guid + ext, if IsVideoExtension(ext) then "Video" else "Image")
  }

  function TooLargeMessage(name: string): string {
    "File " + name + " is too large."
  }

  /**
   * The selection loop from the current file on: stop once the uploads are
   * full, add a file within the size limit, and report a larger one.
   */
  function Selected(ups: seq<PendingFile>, files: seq<SelectedFile>, err: string): (r: (seq<PendingFile>, string))
    decreases |files|
  {
    if |files| == 0 || |ups| >= MAX_ALLOWED_FILES then (ups, err)
    else if files[0].size <= MAX_FILE_SIZE then Selected(ups + [ToPending(files[0])], files[1..], err)
    else Selected(ups, files[1..], TooLargeMessage(files[0].name))
  }

  /** The entry came from a selected file within the size limit. */
  ghost predicate FromAcceptedFile(files: seq<SelectedFile>, p: PendingFile) {
    exists f :: f in files && f.size <= MAX_FILE_SIZE && p == ToPending(f)
  }

  /**
   * The selection only appends: the old uploads stay in front, in order,
   * and at most one entry is added per selected file.
   */
  lemma {:induction false} SelectedAppends(ups: seq<PendingFile>, files: seq<SelectedFile>, err: string)
    ensures var r := Selected(ups, files, err).0;
      |ups| <= |r| <= |ups| + |files| && r[..|ups|] == ups
    decreases |files|
  {
    if |files| == 0 || |ups| >= MAX_ALLOWED_FILES {
    } else if files[0].size <= MAX_FILE_SIZE {
      var ups' := ups + [ToPending(files[0])];
      SelectedAppends(ups', files[1..], err);
      var r := Selected(ups', files[1..], err).0;
      assert r[..|ups|] == r[..|ups'|][..|ups|];
    } else {
      SelectedAppends(ups, files[1..], TooLargeMessage(files[0].name));
    }
  }

  /**
   * The cap: a selection never takes the uploads past `MAX_ALLOWED_FILES`,
   * and adds nothing to uploads already at or over it.
   */
  lemma {:induction false} SelectedCap(ups: seq<PendingFile>, files: seq<SelectedFile>, err: string)
    ensures |Selected(ups, files, err).0| <= if |ups| < MAX_ALLOWED_FILES then MAX_ALLOWED_FILES else |ups|
    ensures |ups| >= MAX_ALLOWED_FILES ==> Selected(ups, files, err) == (ups, err)
    decreases |files|
  {
    if |files| == 0 || |ups| >= MAX_ALLOWED_FILES {
    } else if files[0].size <= MAX_FILE_SIZE {
      SelectedCap(ups + [ToPending(files[0])], files[1..], err);
    } else {
      SelectedCap(ups, files[1..], TooLargeMessage(files[0].name));
    }
  }

  /** A file accepted from the rest of the selection is accepted from the whole of it. */
  lemma AcceptedFromRest(files: seq<SelectedFile>)
    requires |files| > 0
    ensures forall p :: FromAcceptedFile(files[1..], p) ==> FromAcceptedFile(files, p)
  {
    forall p | FromAcceptedFile(files[1..], p) ensures FromAcceptedFile(files, p) {
      var f :| f in files[1..] && f.size <= MAX_FILE_SIZE && p == ToPending(f);
      assert f in files;
    }
  }

  /** Every added entry comes from a selected file within the size limit: a larger file is never added. */
  lemma {:induction false} SelectedOnlyAccepted(ups: seq<PendingFile>, files: seq<SelectedFile>, err: string)
    ensures forall k :: |ups| <= k < |Selected(ups, files, err).0| ==> FromAcceptedFile(files, Selected(ups, files, err).0[k])
    decreases |files|
  {
    if |files| == 0 || |ups| >= MAX_ALLOWED_FILES {
    } else {
      AcceptedFromRest(files);
      if files[0].size <= MAX_FILE_SIZE {
        FirstAccepted(ups, files, err);
      } else {
        SelectedOnlyAccepted(ups, files[1..], TooLargeMessage(files[0].name));
      }
    }
  }

  /** The accepting step of `SelectedOnlyAccepted`: the first file's entry, then the rest's. */
  lemma {:induction false} FirstAccepted(ups: seq<PendingFile>, files: seq<SelectedFile>, err: string)
    requires |files| > 0 && |ups| < MAX_ALLOWED_FILES && files[0].size <= MAX_FILE_SIZE
    ensures forall k :: |ups| <= k < |Selected(ups, files, err).0| ==> FromAcceptedFile(files, Selected(ups, files, err).0[k])
    decreases |files|, 0
  {
    var ups' := ups + [ToPending(files[0])];
    AcceptedFromRest(files);
    SelectedOnlyAccepted(ups', files[1..], err);
    SelectedAppends(ups', files[1..], err);
    var r := Selected(ups', files[1..], err).0;
    assert r[|ups|] == r[..|ups'|][|ups|] == ToPending(files[0]);
    assert files[0] in files;
  }

  /**
   * `HandleFilesSelected`. The message is cleared first. Offering more than
   * the cap makes `GetMultipleFiles` throw, so nothing is added (the result
   * reports it); otherwise the files are taken in order as `Selected` says.
   */
  method HandleFilesSelected(state: CategoryDetailsState, files: seq<SelectedFile>) returns (tooMany: bool)
    modifies state`errorMessage, state`pendingUploads
    ensures tooMany <==> |files| > MAX_ALLOWED_FILES
    ensures tooMany ==> state.pendingUploads == old(state.pendingUploads) && state.errorMessage == ""
    ensures !tooMany ==> (state.pendingUploads, state.errorMessage) == Selected(old(state.pendingUploads), files, "")
  {
    state.errorMessage := "";
    if |files| > MAX_ALLOWED_FILES {
      return true;
    }
    tooMany := false;
    var i := 0;
    while i < |files|
      invariant 0 <= i <= |files|
      invariant Selected(state.pendingUploads, files[i..], state.errorMessage) == Selected(old(state.pendingUploads), files, "")
      decreases |files| - i
    {
      if |state.pendingUploads| >= MAX_ALLOWED_FILES {
        break;
      }
      assert files[i..][1..] == files[i + 1..];
      if files[i].size <= MAX_FILE_SIZE {
        state.pendingUploads := state.pendingUploads + [ToPending(files[i])];
      } else {
        state.errorMessage := TooLargeMessage(files[i].name);
      }
      i := i + 1;
    }
  }

  /** `RemoveFile`: an index out of range changes nothing; otherwise exactly that entry goes, the rest keep their order. */
  method RemoveFile(state: CategoryDetailsState, index: int)
    modifies state`pendingUploads
    ensures !(0 <= index < |old(state.pendingUploads)|) ==> state.pendingUploads == old(state.pendingUploads)
    ensures 0 <= index < |old(state.pendingUploads)| ==>
      state.pendingUploads == old(state.pendingUploads)[..index] + old(state.pendingUploads)[index + 1..]
  {
    if 0 <= index < |state.pendingUploads| {
      state.pendingUploads := RemoveAt(state.pendingUploads, index);
    }
  }

  /** How a press of the request button ended. */
  datatype SubmitOutcome = SignInToRequest | NoReason | Declined(decision: Decision) | Reused | Submitted | AlreadyPending

  /** The outcome, from the form's contents and the request table. */
  function SubmitOutcomeOf(userId: Option<string>, categoryId: int, reason: string, rs: seq<AccessRequest>, now: Time): SubmitOutcome {
    if IsNullOrEmpty(userId) then SignInToRequest
    else if IsBlank(reason) then NoReason
    else match Decide(rs, userId.value, categoryId, now)
      case Reuse(_) => Reused
      case Insert =>
        if CategoryService.HasPendingAccessRequest(rs, userId.value, categoryId) then AlreadyPending else Submitted
      case d => Declined(d)
  }

  /**
   * The message a refused press leaves in `ErrorMessage`: the first request's
   * Pending or Approved status, the cooldown, or the service's late Pending
   * check each have their own; the cooldown's opens with its fixed words.
   */
  function RequestErrorMessage(o: SubmitOutcome): (m: string)
    requires (o.Declined? && Refused(o.decision)) || o.AlreadyPending?
    ensures o == Declined(RefusePending) <==> m == PENDING_REQUEST_MESSAGE
    ensures o == Declined(RefuseApproved) <==> m == HAS_ACCESS_MESSAGE
    ensures o.AlreadyPending? <==> m == ALREADY_PENDING_MESSAGE
    ensures o.Declined? && o.decision.RefuseCooldown? ==> |COOLDOWN_PREFIX| <= |m| && m[..|COOLDOWN_PREFIX|] == COOLDOWN_PREFIX
  {
    if o.AlreadyPending? then ALREADY_PENDING_MESSAGE
    else match o.decision
      case RefusePending => PENDING_REQUEST_MESSAGE
      case RefuseApproved => HAS_ACCESS_MESSAGE
      case _ => COOLDOWN_PREFIX
  }

  /** The request table after the category form was submitted. */
  function CategoryRequestRows(rs: seq<AccessRequest>, next: int, userId: Option<string>, categoryId: int,
                               reason: string, now: Time): seq<AccessRequest>
  {
    match SubmitOutcomeOf(userId, categoryId, reason, rs, now)
    case Reused =>
      var i := Decide(rs, userId.value, categoryId, now).index;
      rs[i := Resubmitted(rs[i], reason, now)]
    case Submitted => rs + [CategoryDetailsService.NewAccessRequest(next, userId.value, categoryId, reason, now)]
    case _ => rs
  }

  /**
   * `HandleSubmitRequest`. Unlike the home form it keeps the document path
   * of a reused row, and a new row goes through `SubmitAccessRequestAsync`,
   * which refuses when any request of the pair is Pending. Every outcome
   * after the checks closes the modal; success clears the reason and shows
   * its notification; success and the late refusal mark the page as having a
   * pending request.
   */
  method HandleSubmitRequest(state: CategoryDetailsState, db: Store, now: Time) returns (outcome: SubmitOutcome)
    requires db.Valid()
    modifies state`showLoginOverlay, state`showRequestModal, state`requestReason, state`hasPendingRequest
    modifies state`errorMessage, state`notificationMessage, state`notificationType, state`showNotificationModal
    modifies db`requests, db`nextRequestId
    ensures db.Valid()
    ensures outcome == SubmitOutcomeOf(state.currentUserId, state.pageCategoryId, old(state.requestReason), old(db.requests), now)
    ensures db.requests == CategoryRequestRows(old(db.requests), old(db.nextRequestId), state.currentUserId,
                                               state.pageCategoryId, old(state.requestReason), now)
    ensures db.nextRequestId == old(db.nextRequestId) + (if outcome.Submitted? then 1 else 0)
    ensures state.showLoginOverlay == (old(state.showLoginOverlay) || outcome.SignInToRequest?)
    ensures state.showRequestModal == (old(state.showRequestModal) && (outcome.SignInToRequest? || outcome.NoReason?))
    ensures state.requestReason == if outcome.Reused? || outcome.Submitted? then "" else old(state.requestReason)
    ensures state.hasPendingRequest ==
      (old(state.hasPendingRequest) || outcome.Reused? || outcome.Submitted? || outcome.AlreadyPending?)
    ensures outcome.NoReason? ==> state.errorMessage == NO_REASON_MESSAGE
    ensures outcome.SignInToRequest? || outcome.Reused? || outcome.Submitted? ==>
      state.errorMessage == old(state.errorMessage)
    ensures outcome.Declined? || outcome.AlreadyPending? ==> state.errorMessage == RequestErrorMessage(outcome)
    ensures outcome.Reused? ==> state.showNotificationModal && state.notificationMessage == RESUBMITTED_MESSAGE
    ensures outcome.Submitted? ==> state.showNotificationModal && state.notificationMessage == SUBMITTED_MESSAGE
    ensures outcome.Reused? || outcome.Submitted? ==> state.notificationType == SUCCESS
    ensures !outcome.Reused? && !outcome.Submitted? ==>
      && state.showNotificationModal == old(state.showNotificationModal)
      && state.notificationMessage == old(state.notificationMessage)
      && state.notificationType == old(state.notificationType)
  {
    if IsNullOrEmpty(state.currentUserId) {
      state.showLoginOverlay := true;
      return SignInToRequest;
    }
    if IsBlank(state.requestReason) {
      state.errorMessage := NO_REASON_MESSAGE;
      return NoReason;
    }
    outcome := SubmitCheckedRequest(state, db, now);
  }

  /** The part of `HandleSubmitRequest` after the form passed its checks. */
  method SubmitCheckedRequest(state: CategoryDetailsState, db: Store, now: Time) returns (outcome: SubmitOutcome)
    requires db.Valid()
    requires !IsNullOrEmpty(state.currentUserId) && !IsBlank(state.requestReason)
    modifies state`showRequestModal, state`requestReason, state`hasPendingRequest, state`errorMessage
    modifies state`notificationMessage, state`notificationType, state`showNotificationModal
    modifies db`requests, db`nextRequestId
    ensures db.Valid()
    ensures outcome == SubmitOutcomeOf(state.currentUserId, state.pageCategoryId, old(state.requestReason), old(db.requests), now)
    ensures db.requests == CategoryRequestRows(old(db.requests), old(db.nextRequestId), state.currentUserId,
                                               state.pageCategoryId, old(state.requestReason), now)
    ensures db.nextRequestId == old(db.nextRequestId) + (if outcome.Submitted? then 1 else 0)
    ensures !state.showRequestModal
    ensures state.requestReason == if outcome.Reused? || outcome.Submitted? then "" else old(state.requestReason)
    ensures state.hasPendingRequest == (old(state.hasPendingRequest) || !outcome.Declined?)
    ensures outcome.Reused? || outcome.Submitted? ==> state.errorMessage == old(state.errorMessage)
    ensures outcome.Declined? || outcome.AlreadyPending? ==> state.errorMessage == RequestErrorMessage(outcome)
    ensures outcome.Reused? ==> state.showNotificationModal && state.notificationMessage == RESUBMITTED_MESSAGE
    ensures outcome.Submitted? ==> state.showNotificationModal && state.notificationMessage == SUBMITTED_MESSAGE
    ensures outcome.Reused? || outcome.Submitted? ==> state.notificationType == SUCCESS
    ensures !outcome.Reused? && !outcome.Submitted? ==>
      && state.showNotificationModal == old(state.showNotificationModal)
      && state.notificationMessage == old(state.notificationMessage)
      && state.notificationType == old(state.notificationType)
  {
    outcome := StoreCategoryRequest(db, state.currentUserId.value, state.pageCategoryId, state.requestReason, now);
    ShowCheckedOutcome(state, outcome);
  }

  /** The page side of a checked request: modal, reason, pending flag, message and notification. */
  method ShowCheckedOutcome(state: CategoryDetailsState, outcome: SubmitOutcome)
    requires !outcome.SignInToRequest? && !outcome.NoReason?
    requires outcome.Declined? ==> Refused(outcome.decision)
    modifies state`showRequestModal, state`requestReason, state`hasPendingRequest, state`errorMessage
    modifies state`notificationMessage, state`notificationType, state`showNotificationModal
    ensures !state.showRequestModal
    ensures state.requestReason == if outcome.Reused? || outcome.Submitted? then "" else old(state.requestReason)
    ensures state.hasPendingRequest == (old(state.hasPendingRequest) || !outcome.Declined?)
    ensures outcome.Reused? || outcome.Submitted? ==> state.errorMessage == old(state.errorMessage)
    ensures outcome.Declined? || outcome.AlreadyPending? ==> state.errorMessage == RequestErrorMessage(outcome)
    ensures outcome.Reused? ==> state.showNotificationModal && state.notificationMessage == RESUBMITTED_MESSAGE
    ensures outcome.Submitted? ==> state.showNotificationModal && state.notificationMessage == SUBMITTED_MESSAGE
    ensures outcome.Reused? || outcome.Submitted? ==> state.notificationType == SUCCESS
    ensures !outcome.Reused? && !outcome.Submitted? ==>
      && state.showNotificationModal == old(state.showNotificationModal)
      && state.notificationMessage == old(state.notificationMessage)
      && state.notificationType == old(state.notificationType)
  {
    state.showRequestModal := false;
    if outcome.Declined? || outcome.AlreadyPending? {
      state.errorMessage := RequestErrorMessage(outcome);
    }
    if outcome.Declined? {
      return;
    }
    if outcome != AlreadyPending {
      state.requestReason := "";
    }
    state.hasPendingRequest := true;
    if outcome.Reused? {
      state.ShowNotification(RESUBMITTED_MESSAGE, SUCCESS);
    } else if outcome.Submitted? {
      state.ShowNotification(SUBMITTED_MESSAGE, SUCCESS);
    }
  }

  /** The store side of a checked category request. */
  method StoreCategoryRequest(db: Store, userId: string, categoryId: int, reason: string, now: Time)
    returns (outcome: SubmitOutcome)
    requires db.Valid()
    requires userId != "" && !IsBlank(reason)
    modifies db`requests, db`nextRequestId
    ensures db.Valid()
    ensures outcome == SubmitOutcomeOf(Some(userId), categoryId, reason, old(db.requests), now)
    ensures db.requests == CategoryRequestRows(old(db.requests), old(db.nextRequestId), Some(userId), categoryId, reason, now)
    ensures db.nextRequestId == old(db.nextRequestId) + (if outcome.Submitted? then 1 else 0)
  {
    var d := Decide(db.requests, userId, categoryId, now);
    match d {
      case Reuse(i) =>
        db.SetRequest(i, Resubmitted(db.requests[i], reason, now));
        outcome := Reused;
      case Insert =>
        var submitted := CategoryDetailsService.SubmitAccessRequest(db, userId, categoryId, reason, now);
        outcome := if submitted then Submitted else AlreadyPending;
      case _ =>
        outcome := Declined(d);
    }
  }

  /**
   * A second press after one that stored a request (`Reused` or
   * `Submitted`, the two cases the requires spell out) stores nothing: it is
   * refused as pending when the pair's first request is now Pending, and by
   * the service's own Pending check when the first request has some other
   * status (the new row then sits behind it).
   */
  lemma SecondCategoryRequestRefused(rs: seq<AccessRequest>, next: int, userId: string, categoryId: int,
                                     reason: string, now: Time, reason2: string, later: Time)
    requires userId != "" && !IsBlank(reason) && !IsBlank(reason2)
    requires Decide(rs, userId, categoryId, now).Reuse?
          || (Decide(rs, userId, categoryId, now).Insert? && !CategoryService.HasPendingAccessRequest(rs, userId, categoryId))
    ensures var o := SubmitOutcomeOf(Some(userId), categoryId, reason2,
                                     CategoryRequestRows(rs, next, Some(userId), categoryId, reason, now), later);
      o == Declined(RefusePending) || o == AlreadyPending
  {
    var d := Decide(rs, userId, categoryId, now);
    if d.Reuse? {
      var after := rs[d.index := Resubmitted(rs[d.index], reason, now)];
      assert CategoryRequestRows(rs, next, Some(userId), categoryId, reason, now) == after;
      ReusedThenRefused(rs, userId, categoryId, reason, now, later);
    } else {
      var after := rs + [CategoryDetailsService.NewAccessRequest(next, userId, categoryId, reason, now)];
      assert CategoryRequestRows(rs, next, Some(userId), categoryId, reason, now) == after;
      InsertedThenRefused(rs, next, userId, categoryId, reason, now, later);
    }
  }

  /** The reuse case of `SecondCategoryRequestRefused`: the reused row keeps its document path. */
  lemma ReusedThenRefused(rs: seq<AccessRequest>, userId: string, categoryId: int, reason: string, now: Time, later: Time)
    requires Decide(rs, userId, categoryId, now).Reuse?
    ensures var i := Decide(rs, userId, categoryId, now).index;
      Decide(rs[i := Resubmitted(rs[i], reason, now)], userId, categoryId, later) == RefusePending
  {
    var i := Decide(rs, userId, categoryId, now).index;
    ReuseLeavesPending(rs, userId, categoryId, now, reason, rs[i].supportingDocumentPath, later);
    assert Resubmitted(rs[i], reason, now).(supportingDocumentPath := rs[i].supportingDocumentPath)
        == Resubmitted(rs[i], reason, now);
  }

  /** The insert case of `SecondCategoryRequestRefused`. */
  lemma InsertedThenRefused(rs: seq<AccessRequest>, next: int, userId: string, categoryId: int, reason: string,
                            now: Time, later: Time)
    requires Decide(rs, userId, categoryId, now).Insert?
    ensures var after := rs + [CategoryDetailsService.NewAccessRequest(next, userId, categoryId, reason, now)];
      && CategoryService.HasPendingAccessRequest(after, userId, categoryId)
      && (Decide(after, userId, categoryId, later) == RefusePending || Decide(after, userId, categoryId, later).Insert?)
  {
    var row := CategoryDetailsService.NewAccessRequest(next, userId, categoryId, reason, now);
    var after := rs + [row];
    assert after[|rs|] == row;
    if FirstRequest(rs, userId, categoryId).None? {
      InsertLeavesPending(rs, userId, categoryId, row, later);
    } else {
      var i := FirstRequest(rs, userId, categoryId).value;
      assert forall j :: 0 <= j <= i ==> after[j] == rs[j];
      assert FirstRequest(after, userId, categoryId) == Some(i);
    }
  }

  /** `GetCurrentIndex`: stores 0 for an unseen post and returns the stored position. */
  method GetCurrentIndex(state: CategoryDetailsState, postId: int) returns (index: int)
    modifies state`carouselIndices
    ensures state.carouselIndices == WithIndex(old(state.carouselIndices), postId)
    ensures index == if postId in old(state.carouselIndices) then old(state.carouselIndices)[postId] else 0
  {
    if postId !in state.carouselIndices {
      state.carouselIndices := state.carouselIndices[postId := 0];
    }
    index := state.carouselIndices[postId];
  }

  /** `NextSlide`; a zero count makes `%` throw after the position was initialised. */
  method NextSlide(state: CategoryDetailsState, postId: int, totalCount: int) returns (divideByZero: bool)
    modifies state`carouselIndices
    ensures divideByZero <==> totalCount == 0
    ensures var seen := WithIndex(old(state.carouselIndices), postId);
      state.carouselIndices == if totalCount == 0 then seen else seen[postId := NextIndex(seen[postId], totalCount)]
  {
    var current := GetCurrentIndex(state, postId);
    if totalCount == 0 {
      return true;
    }
    state.carouselIndices := state.carouselIndices[postId := CsRem(current + 1, totalCount)];
    divideByZero := false;
  }

  /** `PrevSlide`, with the same zero-count behaviour as `NextSlide`. */
  method PrevSlide(state: CategoryDetailsState, postId: int, totalCount: int) returns (divideByZero: bool)
    modifies state`carouselIndices
    ensures divideByZero <==> totalCount == 0
    ensures var seen := WithIndex(old(state.carouselIndices), postId);
      state.carouselIndices == if totalCount == 0 then seen else seen[postId := PrevIndex(seen[postId], totalCount)]
  {
    var current := GetCurrentIndex(state, postId);
    if totalCount == 0 {
      return true;
    }
    state.carouselIndices := state.carouselIndices[postId := CsRem(current - 1 + totalCount, totalCount)];
    divideByZero := false;
  }
}
