# SoSuSaFsd moderation and page logic in Dafny

SoSuSaFsd is a category-based social feed: users post in categories, like, comment,
follow categories and report posts or users. Some categories are *verified*. Only admins,
or users whose access request was approved, may post in them. Admins work through a
moderation console.

This project models the parts of the system that have rules:

- the admin service's report groups (dismiss, undo, delete-and-resolve), its toggles and
  access-request decisions, and the console's notification count and delete modal;
- the duplicate-guarded inserts and membership toggles of the post, category, home-page,
  category-page and profile services (likes, follows, reports, access requests, the
  follower count);
- the access-request lifecycle with its seven-day cooldown, as each of the two request
  forms applies it;
- the category page's posting rule, post creation, upload selection with its cap, and
  file removal;
- the page classes' dictionary bookkeeping: comment and reply toggles, drafts, and the
  media carousel with C#'s `%`;
- the error-handling service's exception-to-message mapping and user label.

Layout:

- **The store.** The database is one `Store` class holding one `seq` per table and one
  identity counter per table. `Store.Valid()` keeps identities distinct and below the
  counter.
- **Services.** Each service is a module of methods on the store. Every method names
  exactly the fields it changes, and proves its new state equal to a function of the old
  one. Lemmas about those functions state the promised properties.
- **Pages.** Each page's state is a class (`HomePageState`, `CategoryDetailsState`,
  `ProfileState`, `AdminState`). Its handlers are methods in the page's module.
- **Time and statuses.** Time is a whole number of seconds, passed in as `now`. Statuses
  are the raw strings the code stores.

## Model

| member | source | states |
|---|---|---|
| AdminService.DismissGroup | SoSuSaFsd/Services/AdminService.cs:74-84 | every report sharing a non-null target field with the anchor becomes Dismissed, whatever its status; every other report is unchanged; only statuses change |
| AdminService.UndoGroup | SoSuSaFsd/Services/AdminService.cs:95-108 | exactly the Dismissed group members become Pending; Pending and Resolved members and non-members are untouched |
| AdminService.DismissReportGroup | SoSuSaFsd/Services/AdminService.cs:68-87 | the reports table becomes the anchor's group dismissed, and identities stay valid |
| AdminService.UndoDismiss | SoSuSaFsd/Services/AdminService.cs:89-111 | the reports table becomes the anchor's group un-dismissed |
| AdminService.AbsentAnchorNoChange | SoSuSaFsd/Services/AdminService.cs:71-72 | an absent anchor id changes nothing, for dismiss and for undo |
| AdminService.NoTargetSelectsNothing | SoSuSaFsd/Services/AdminService.cs:74-79 | an anchor with all four target fields null selects nothing, not even itself |
| AdminService.AnchorInOwnGroup | SoSuSaFsd/Services/AdminService.cs:74-79 | the anchor is in its own group exactly when it has a target |
| AdminService.DismissKeepsAnchor | SoSuSaFsd/Services/AdminService.cs:71 | after a dismiss the same id finds the same anchor position |
| AdminService.DismissThenUndo | SoSuSaFsd/Services/AdminService.cs:81-84 | dismiss then undo on one anchor leaves every group member Pending, including a formerly Resolved one, and every other report as it was |
| AdminService.ResolvePostReports | SoSuSaFsd/Services/AdminService.cs:121-127 | the reports on the post become Resolved with the post reference cleared; other reports are unchanged |
| AdminService.ResolveCommentReports | SoSuSaFsd/Services/AdminService.cs:135-141 | the reports on the comment become Resolved with the comment reference cleared; other reports are unchanged |
| AdminService.ResolvePostDetaches | SoSuSaFsd/Services/AdminService.cs:119-132 | afterwards no report names the post, no report is lost, and each former one is Resolved |
| AdminService.ResolveCommentDetaches | SoSuSaFsd/Services/AdminService.cs:133-148 | the same for the comment |
| AdminService.RemovedPostGone | SoSuSaFsd/Services/AdminService.cs:129-130 | with distinct identities, no post with the id remains and exactly one row goes when it existed |
| AdminService.RemovedCommentGone | SoSuSaFsd/Services/AdminService.cs:143-144 | with distinct identities, no comment with the id remains |
| AdminService.DeletePostContentEffects | SoSuSaFsd/Services/AdminService.cs:119-132 | deleting a post report leaves no report on the post and no post with the id, keeps other posts and every comment; the post branch wins when a comment is named too |
| AdminService.DeleteCommentContentEffects | SoSuSaFsd/Services/AdminService.cs:133-148 | the comment branch, taken only when no post is named, removes the comment and detaches its reports |
| AdminService.DeleteWithoutContentNoChange | SoSuSaFsd/Services/AdminService.cs:113-149 | a report naming neither a post nor a comment, or no report, deletes nothing |
| AdminService.DeleteReportedContent | SoSuSaFsd/Services/AdminService.cs:113-149 | reports, posts and comments become the delete-content function of the old tables |
| AdminService.ResolvePostReportsInStore | SoSuSaFsd/Services/AdminService.cs:121-127 | the loop over the post's reports computes the resolve function |
| AdminService.ResolveCommentReportsInStore | SoSuSaFsd/Services/AdminService.cs:135-141 | the loop over the comment's reports computes the resolve function |
| AdminService.DeletePostAndResolve | SoSuSaFsd/Services/AdminService.cs:119-132 | the post's reports are resolved and detached, and the post with the id (if any) is removed |
| AdminService.DeleteCommentAndResolve | SoSuSaFsd/Services/AdminService.cs:133-148 | the comment's reports are resolved and detached, and the comment with the id (if any) is removed |
| AdminService.DeleteCategory | SoSuSaFsd/Services/AdminService.cs:151-160 | the category with the id is removed if it exists; nothing else changes |
| AdminService.ToggleVerified | SoSuSaFsd/Services/AdminService.cs:162-172 | the category's flag is negated and stamped and the new flag returned; an absent id returns false with no change |
| AdminService.ToggleVerifiedTwice | SoSuSaFsd/Services/AdminService.cs:162-172 | toggling twice restores every flag, and the second answer is the original flag |
| AdminService.ToggleCategoryVerification | SoSuSaFsd/Services/AdminService.cs:162-172 | categories and answer are the toggle function of the old table |
| AdminService.ToggleActive | SoSuSaFsd/Services/AdminService.cs:198-209 | the user's active flag is negated and stamped and the new flag returned; an absent id returns false with no change |
| AdminService.ToggleActiveTwice | SoSuSaFsd/Services/AdminService.cs:198-209 | banning twice restores every active flag |
| AdminService.ToggleUserBan | SoSuSaFsd/Services/AdminService.cs:198-209 | users and answer are the ban-toggle function of the old table |
| AdminService.SetRequestStatus | SoSuSaFsd/Services/AdminService.cs:174-196 | the request with the id gets the status and a fresh update time, whatever it was; an absent id changes nothing |
| AdminService.ApproveAccessRequest | SoSuSaFsd/Services/AdminService.cs:174-184 | the requests table becomes the status update to Approved |
| AdminService.RejectAccessRequest | SoSuSaFsd/Services/AdminService.cs:186-196 | the requests table becomes the status update to Rejected |
| AdminState.GroupKeys | SoSuSaFsd/Components/Pages/AdminComponents/AdminState.cs:27 | the distinct group keys (all four target fields), each key of a report exactly once |
| AdminState.GroupHasClosed | SoSuSaFsd/Components/Pages/AdminComponents/AdminState.cs:28 | a group is excluded exactly when some member is Resolved or Dismissed |
| AdminState.NotificationCountIsPerReport | SoSuSaFsd/Components/Pages/AdminComponents/AdminState.cs:26-29 | the grouped sum equals the number of Pending reports whose group has no Resolved or Dismissed member |
| AdminState.NotificationCountBounds | SoSuSaFsd/Components/Pages/AdminComponents/AdminState.cs:26-29 | the count never exceeds the number of Pending reports, and is 0 for an empty list |
| AdminState.ClosedGroupContributesNothing | SoSuSaFsd/Components/Pages/AdminComponents/AdminState.cs:28 | a Pending report in a group with a closed member is never counted |
| AdminState.AdminState.CloseDeleteModal | SoSuSaFsd/Components/Pages/AdminComponents/AdminState.cs:33-38 | the modal closes and both pending ids become 0 |
| AdminBase.RequestDelete | SoSuSaFsd/Components/Pages/AdminComponents/AdminBase.cs:38-43 | the report id is armed, the category id zeroed, the confirmation opened |
| AdminBase.RequestDeleteCategory | SoSuSaFsd/Components/Pages/AdminComponents/AdminBase.cs:45-50 | the mirror image for a category |
| AdminBase.ConfirmDelete | SoSuSaFsd/Components/Pages/AdminComponents/AdminBase.cs:54-63 | at most one deletion, the report's content first, else the category, else none; the modal always ends closed with both ids 0 |
| AdminBase.GetCurrentIndex | SoSuSaFsd/Components/Pages/AdminComponents/AdminBase.cs:113-117 | an unseen post gets position 0; the stored position is returned |
| AdminBase.NextSlide | SoSuSaFsd/Components/Pages/AdminComponents/AdminBase.cs:119-123 | the position becomes `(i + 1) % total` with C#'s `%`; a zero total throws after the position was initialised |
| AdminBase.PrevSlide | SoSuSaFsd/Components/Pages/AdminComponents/AdminBase.cs:125-129 | the position becomes `(i - 1 + total) % total`; the same for a zero total |
| AdminBase.StatusBadgeClass | SoSuSaFsd/Components/Pages/AdminComponents/AdminBase.cs:131-137 | Resolved and Dismissed get their own badge, and every other string gets the pending badge, each as an if-and-only-if |
| PageDicts.CsRem | SoSuSaFsd/Components/Pages/AdminComponents/AdminBase.cs:122 | C#'s truncating `%`: the sign of the dividend, below the divisor's magnitude, and the dividend equals the truncated quotient times the divisor plus the remainder |
| PageDicts.CsDivision | SoSuSaFsd/Components/Pages/AdminComponents/AdminBase.cs:122 | the dividend is the truncated quotient times the divisor plus the truncated remainder |
| PageDicts.SlidesStayInRange | SoSuSaFsd/Components/Pages/ProfileComponents/ProfileBase.cs:304-314 | for a positive total, an in-range index stays in range both ways and wraps at the ends |
| PageDicts.PrevUndoesNext | SoSuSaFsd/Components/Pages/CategoryDetailsComponents/CategoryDetailsBase.cs:108-118 | back after forward, and forward after back, return to the same slide |
| PageDicts.WithIndex | SoSuSaFsd/Components/Pages/ProfileComponents/ProfileBase.cs:297-302 | an unseen key is added with 0, and every stored key keeps its value |
| PageDicts.Toggled | SoSuSaFsd/Components/Pages/ProfileComponents/ProfileBase.cs:238-241 | the key's flag reads as the negation of its old reading, where a missing key reads false |
| PageDicts.ToggledTwice | SoSuSaFsd/Components/Pages/HomeComponents/HomePageBase.cs:241-244 | toggling twice restores the reading of every key |
| PageDicts.WithDraft | SoSuSaFsd/Components/Pages/ProfileComponents/ProfileBase.cs:243-244 | a missing draft is created empty, and an existing one is kept |
| PostService.ToggleLike | SoSuSaFsd/Services/PostService.cs:86-110 | an existing (post, user) like is removed and false returned, otherwise one is added and true returned |
| PostService.ToggleLikeEffects | SoSuSaFsd/Services/PostService.cs:86-116 | without duplicates before: the like is present exactly when true was answered, no duplicate appears, the liked pairs gain or lose exactly that pair, the post's count moves by one, other posts' counts stay |
| PostService.ToggleLikeTwice | SoSuSaFsd/Services/PostService.cs:86-110 | liking twice restores the set of liked pairs and the answers alternate |
| PostService.LikeCount | SoSuSaFsd/Services/PostService.cs:112-116 | the number of likes on the post; 0 exactly when none is on it |
| PostService.HasUserReported | SoSuSaFsd/Services/PostService.cs:137-142 | true exactly when some report has the post and the reporter |
| PostService.IsReportDismissed | SoSuSaFsd/Services/PostService.cs:151-156 | true exactly when some report on the post is Dismissed |
| PostService.UserFeedPosts | SoSuSaFsd/Services/PostService.cs:52-63 | exactly the posts of the followed categories, a permutation of them, newest first |
| PostService.PostComments | SoSuSaFsd/Services/PostService.cs:119-127 | the post's comments, each as often as in the table and no other, oldest first |
| Store.Store.AddComment | SoSuSaFsd/Services/PostService.cs:129-134 | one comment appended under the next identity |
| Store.Store.AddReport | SoSuSaFsd/Services/PostService.cs:144-149 | one report appended under the next identity |
| Store.Store.AddPost | SoSuSaFsd/Services/PostService.cs:78-83 | one post appended under the next identity, identities kept valid |
| Store.Store.AddRequest | SoSuSaFsd/Services/CategoryService.cs:121-126 | one request appended under the next identity |
| Store.Store.SetRequest | SoSuSaFsd/Components/Pages/HomeComponents/HomePageBase.cs:464-470 | the row at the position is replaced by one with the same identity; every other row stays |
| Ordering.SortDesc | SoSuSaFsd/Services/PostService.cs:61 | `OrderByDescending`: a permutation of the input with keys non-increasing |
| Ordering.TopN | SoSuSaFsd/Services/CategoryService.cs:57-60 | `Where`, `OrderByDescending`, `Take`: `min(n, #matching)` matching elements, largest key first, and no larger-keyed match left out |
| Ordering.TopNMultiplicity | SoSuSaFsd/Services/CategoryService.cs:57-60 | each element is kept at most as often as the source holds it and only if it matches, so none replaces another; with at most `n` matches, every match as often as held |
| Membership.Toggle | SoSuSaFsd/Services/PostService.cs:86-110 | an existing row with the key is removed and false answered, otherwise the row is appended and true answered |
| Membership.ToggleKeySet | SoSuSaFsd/Services/CategoryService.cs:82-104 | with unique keys before, keys stay unique, the key set gains or loses exactly the key, and the answer says which |
| Membership.ToggleTwice | SoSuSaFsd/Services/PostService.cs:86-110 | two toggles of one key restore the key set and give opposite answers |
| Text.ToLower | SoSuSaFsd/Services/CategoryService.cs:41 | same length, each ASCII upper-case letter lowered and every other character kept |
| Text.ToLowerIdempotent | SoSuSaFsd/Services/CategoryService.cs:41 | lower-casing twice is lower-casing once |
| CategoryService.IsUserFollowing | SoSuSaFsd/Services/CategoryService.cs:75-80 | true exactly when a follow for the pair exists |
| CategoryService.ToggleFollow | SoSuSaFsd/Services/CategoryService.cs:82-104 | the pair's follow is removed, or one is added |
| CategoryService.ToggleFollowNegates | SoSuSaFsd/Services/CategoryService.cs:75-104 | without duplicates: following afterwards is the negation of before, pairs stay unique, other pairs are unchanged |
| CategoryService.ToggleFollowTwice | SoSuSaFsd/Services/CategoryService.cs:82-104 | toggling twice restores the followed pairs |
| CategoryService.HasRequestWithStatus | SoSuSaFsd/Services/CategoryService.cs:107-119 | true exactly when a request of the pair has the status |
| CategoryService.ApproveGrantsAccess | SoSuSaFsd/Services/AdminService.cs:174-196 | approving gives the request's user approved access to its category; rejecting removes that request's Pending status |
| CategoryService.VerifiedCategories | SoSuSaFsd/Services/CategoryService.cs:54-62 | `min(take, #verified)` verified categories, each at most as often as stored, newest first, none newer left out; every verified category when there are at most `take` |
| CategoryService.RecentCategories | SoSuSaFsd/Services/CategoryService.cs:64-72 | `min(take, #the user's categories)` of the user's categories, each at most as often as stored, newest first, none newer left out; all of them when there are at most `take` |
| CategoryService.CategoryByName | SoSuSaFsd/Services/CategoryService.cs:37-42 | a category whose lower-cased name equals the lower-cased name, or none exactly when there is no such category |
| CategoryService.CategoryByNameIgnoresCase | SoSuSaFsd/Services/CategoryService.cs:37-42 | a name and its lower-case form find the same category |
| CategoryService.CreateAccessRequest | SoSuSaFsd/Services/CategoryService.cs:121-126 | the row is appended as given under the next identity |
| HomePageService.ComposeReasonRecoverable | SoSuSaFsd/Components/Pages/HomeComponents/HomePageService.cs:213-217 | the stored text is the reason alone exactly for null or blank details; otherwise it is the reason, ": " and the details, each readable back |
| HomePageService.SubmitReport | SoSuSaFsd/Components/Pages/HomeComponents/HomePageService.cs:194-238 | refused with no insert when the user already reported the post; otherwise one Pending report on the post with the composed reason |
| HomePageService.SecondReportRefused | SoSuSaFsd/Components/Pages/HomeComponents/HomePageService.cs:203-210 | after a stored report, the same user's next report on the post is refused |
| HomePageService.SearchPosts | SoSuSaFsd/Components/Pages/HomeComponents/HomePageService.cs:122-155 | nothing for a blank term; otherwise `min(10, #matching)` matching posts, newest first, none newer left out |
| HomePageService.SearchPostsMultiplicity | SoSuSaFsd/Components/Pages/HomeComponents/HomePageService.cs:122-155 | each matching post at most as often as stored, so none replaces another; every match when there are at most 10 |
| HomePageService.SearchUsers | SoSuSaFsd/Components/Pages/HomeComponents/HomePageService.cs:160-189 | nothing for a blank term; otherwise `min(10, #matching)` matching users, each at most as often as stored, and every match, as often as stored, when there are at most 10 |
| HomePageService.RefreshPostLikes | SoSuSaFsd/Components/Pages/HomeComponents/HomePageService.cs:288-305 | only the first loaded post with the id changes: its likes become those of the post in the table, each as often as there, and their number is the like count; no match changes nothing |
| CategoryDetailsService.SubmitReport | SoSuSaFsd/Components/Pages/CategoryDetailsComponents/CategoryDetailsService.cs:94-133 | the home page's rule: a duplicate is refused with no insert, otherwise one Pending report with the composed reason |
| CategoryDetailsService.SubmitAccessRequest | SoSuSaFsd/Components/Pages/CategoryDetailsComponents/CategoryDetailsService.cs:150-180 | refused with no insert while a Pending request of the pair exists; otherwise one Pending request of the pair |
| CategoryDetailsService.SubmissionLeavesPending | SoSuSaFsd/Components/Pages/CategoryDetailsComponents/CategoryDetailsService.cs:154-173 | whichever way a submission went, the pair then has a Pending request, so the next one is refused |
| ProfileService.FollowerCount | SoSuSaFsd/Components/Pages/ProfileComponents/ProfileService.cs:60-86 | the number of distinct followers of the user's categories: at most the number of follows, 0 exactly when no follow is on them, 0 without categories |
| ProfileService.FollowersEmpty | SoSuSaFsd/Components/Pages/ProfileComponents/ProfileService.cs:73-77 | nobody follows exactly when no follow row is on one of the user's categories |
| ProfileService.FollowersBound | SoSuSaFsd/Components/Pages/ProfileComponents/ProfileService.cs:73-77 | there are no more distinct followers than follow rows |
| ProfileService.FollowersAppend | SoSuSaFsd/Components/Pages/ProfileComponents/ProfileService.cs:73-77 | a new follow adds its user to the follower set exactly when it is on one of the user's categories |
| ProfileService.FollowerCountedOnce | SoSuSaFsd/Components/Pages/ProfileComponents/ProfileService.cs:73-77 | a new follow raises the count by one exactly when it is on the user's categories and its user was not yet a follower, so a user following several of them counts once |
| ProfileService.HasReportedUser | SoSuSaFsd/Components/Pages/ProfileComponents/ProfileService.cs:102-105 | true exactly when a report by the reporter targets the user |
| ProfileService.SubmitUserReport | SoSuSaFsd/Components/Pages/ProfileComponents/ProfileService.cs:95-138 | refused with no insert on a duplicate; otherwise one Pending report on the user |
| ProfileService.UserReportTargetsOnlyUser | SoSuSaFsd/Components/Pages/ProfileComponents/ProfileService.cs:115-122 | the stored report's only target is the user; dismissing or undoing groups it with another report exactly when that report targets the same user; the reporter's next report on the user is refused |
| AccessLifecycle.Decide | SoSuSaFsd/Components/Pages/HomeComponents/HomePageBase.cs:434-482 | on the pair's first request: Pending refuses, Approved refuses, Rejected refuses before update + 7 days and is reused from then on, anything else or nothing inserts |
| AccessLifecycle.CooldownBoundary | SoSuSaFsd/Components/Pages/HomeComponents/HomePageBase.cs:454-462 | refused one second before update + 7 days, reused exactly at it; reused exactly when the cooldown is over |
| AccessLifecycle.FirstRequestKept | SoSuSaFsd/Components/Pages/HomeComponents/HomePageBase.cs:464-470 | updating the first row of the pair in place leaves it the first row |
| AccessLifecycle.ReuseLeavesPending | SoSuSaFsd/Components/Pages/HomeComponents/HomePageBase.cs:464-470 | after a reuse the next submission is refused as pending |
| AccessLifecycle.InsertLeavesPending | SoSuSaFsd/Components/Pages/HomeComponents/HomePageBase.cs:484-497 | a new Pending row for a pair without requests makes the next submission refused |
| HomePageBase.ApplyDecision | SoSuSaFsd/Components/Pages/HomeComponents/HomePageBase.cs:464-497 | the request table after a decision: the row reused, one row inserted, or no change |
| HomePageBase.HandleAccessRequest | SoSuSaFsd/Components/Pages/HomeComponents/HomePageBase.cs:412-513 | no user opens the login overlay and keeps the message; no category or a blank reason fails with no store change; refusals change nothing; success reuses or inserts and clears the form; the form's message is the one for the outcome |
| HomePageBase.SubmitCheckedForm | SoSuSaFsd/Components/Pages/HomeComponents/HomePageBase.cs:430-503 | after the checks: refusals change neither store nor form; a success reuses or inserts and clears category, reason and document; the form's message is the one for the decision |
| HomePageBase.ShowFormDecision | SoSuSaFsd/Components/Pages/HomeComponents/HomePageBase.cs:440-503 | the form side: the decision's message; success clears category, reason and document and sets the success flag; a refusal keeps the form |
| HomePageBase.FormMessage | SoSuSaFsd/Components/Pages/HomeComponents/HomePageBase.cs:418-500 | a success message exactly on success, the resubmitted one exactly on a reuse; the select-category, no-reason, pending and has-access messages each exactly for their outcome; a cooldown refusal's message opens with the cooldown words |
| HomePageBase.SecondHomeRequestRefused | SoSuSaFsd/Components/Pages/HomeComponents/HomePageBase.cs:438-451 | after a reuse or a first insert, the next press on the category is refused as pending |
| HomePageBase.OtherStatusKeepsInserting | SoSuSaFsd/Components/Pages/HomeComponents/HomePageBase.cs:434-497 | a first request of any other status is never replaced: each press inserts another row |
| HomePageBase.ToggleComments | SoSuSaFsd/Components/Pages/HomeComponents/HomePageBase.cs:194-213 | the flag flips; a thread shown for the first time is loaded oldest first and never reloaded |
| HomePageBase.ToggleReplyBox | SoSuSaFsd/Components/Pages/HomeComponents/HomePageBase.cs:239-250 | the box flag flips and a draft exists afterwards, an existing draft kept |
| HomePageBase.HandlePostSearch | SoSuSaFsd/Components/Pages/HomeComponents/HomePageBase.cs:135-148 | a blank term clears the results and the searched flag; any other term runs the search |
| CategoryDetailsBase.CategoryDetailsState.ShowNotification | SoSuSaFsd/Components/Pages/CategoryDetailsComponents/CategoryDetailsState.cs:65-70 | the modal shows the given message with the given type |
| CategoryDetailsBase.CategoryDetailsState.CloseNotification | SoSuSaFsd/Components/Pages/CategoryDetailsComponents/CategoryDetailsState.cs:72-76 | the modal is hidden and its message emptied |
| CategoryDetailsBase.CanUserPost | SoSuSaFsd/Components/Pages/CategoryDetailsComponents/CategoryDetailsBase.cs:298-303 | a verified category needs admin or approved access; elsewhere anyone signed in |
| CategoryDetailsBase.UploadMedia | SoSuSaFsd/Components/Pages/CategoryDetailsComponents/CategoryDetailsBase.cs:347-354 | one media row per upload, in order, with its path and type |
| CategoryDetailsBase.CollectMedia | SoSuSaFsd/Components/Pages/CategoryDetailsComponents/CategoryDetailsBase.cs:347-354 | the loop builds exactly those media rows |
| CategoryDetailsBase.HandleCreatePost | SoSuSaFsd/Components/Pages/CategoryDetailsComponents/CategoryDetailsBase.cs:305-364 | nothing for empty content without uploads; the login overlay with no user; in a verified category a non-admin is refused without access in the state or in the store; otherwise one Published post with the uploads under the next identity, the identity advanced, and the modal cleared |
| CategoryDetailsBase.CreateCheckedPost | SoSuSaFsd/Components/Pages/CategoryDetailsComponents/CategoryDetailsBase.cs:334-357 | one Published post with the content, category, user and uploads stored under the next identity, the identity advanced, then the post modal cleared |
| CategoryDetailsBase.CreatedImpliesCanPost | SoSuSaFsd/Components/Pages/CategoryDetailsComponents/CategoryDetailsBase.cs:307-332 | nothing is posted exactly for empty content without uploads; a created post implies `CanUserPost`, and in a verified category a non-admin has an Approved request in the store |
| CategoryDetailsBase.LastDot | SoSuSaFsd/Components/Pages/CategoryDetailsComponents/CategoryDetailsBase.cs:389 | the last dot after the last slash, or none |
| CategoryDetailsBase.Extension | SoSuSaFsd/Components/Pages/CategoryDetailsComponents/CategoryDetailsBase.cs:389 | empty, or a suffix of the name starting with its only dot; non-empty exactly when a dot that is not the last character has no later dot or slash |
| CategoryDetailsBase.LastDotUnique | SoSuSaFsd/Components/Pages/CategoryDetailsComponents/CategoryDetailsBase.cs:389 | the dot found is the only dot with no later dot or slash |
| CategoryDetailsBase.SelectedAppends | SoSuSaFsd/Components/Pages/CategoryDetailsComponents/CategoryDetailsBase.cs:380-414 | selection only appends: the old uploads stay in front and at most one entry is added per file |
| CategoryDetailsBase.SelectedCap | SoSuSaFsd/Components/Pages/CategoryDetailsComponents/CategoryDetailsBase.cs:382-383 | the uploads never grow past 10, and full uploads take nothing |
| CategoryDetailsBase.SelectedOnlyAccepted | SoSuSaFsd/Components/Pages/CategoryDetailsComponents/CategoryDetailsBase.cs:385-413 | every added entry comes from a selected file within 200 MiB |
| CategoryDetailsBase.HandleFilesSelected | SoSuSaFsd/Components/Pages/CategoryDetailsComponents/CategoryDetailsBase.cs:367-420 | the message is cleared; more than 10 files adds nothing; otherwise the loop computes the selection |
| CategoryDetailsBase.RemoveFile | SoSuSaFsd/Components/Pages/CategoryDetailsComponents/CategoryDetailsBase.cs:422-435 | an out-of-range index changes nothing; otherwise exactly that entry goes and the rest keep their order |
| CategoryDetailsBase.HandleSubmitRequest | SoSuSaFsd/Components/Pages/CategoryDetailsComponents/CategoryDetailsBase.cs:459-548 | no user opens the overlay; a blank reason stops with the no-reason message; otherwise the first request of the pair decides, a reuse keeps the document path, and an insert goes through the service's Pending check; a refusal sets its message and a stored request keeps the old one; a reuse or an insert shows its success notification, any other outcome leaves the notification as it was; the modal closes and the pending flag is set as the page sets it |
| CategoryDetailsBase.SubmitCheckedRequest | SoSuSaFsd/Components/Pages/CategoryDetailsComponents/CategoryDetailsBase.cs:473-542 | after the checks: the outcome and rows are those of the decision; a refusal sets its message, a stored request keeps the old one; a stored request shows the resubmitted or the submitted success notification, a refusal leaves the notification alone; the modal closes; the reason is cleared on a stored request; the pending flag is set unless refused by the first request |
| CategoryDetailsBase.ShowCheckedOutcome | SoSuSaFsd/Components/Pages/CategoryDetailsComponents/CategoryDetailsBase.cs:481-542 | the page side: the modal closes; a refusal sets its message; a stored request clears the reason, keeps the message and shows its success notification; the pending flag as the page sets it |
| CategoryDetailsBase.RequestErrorMessage | SoSuSaFsd/Components/Pages/CategoryDetailsComponents/CategoryDetailsBase.cs:481-541 | the pending, has-access and already-pending messages each exactly for their refusal; a cooldown refusal's message opens with the cooldown words |
| CategoryDetailsBase.StoreCategoryRequest | SoSuSaFsd/Components/Pages/CategoryDetailsComponents/CategoryDetailsBase.cs:478-527 | the store side: the reused row, the service's insert, or no change |
| CategoryDetailsBase.SecondCategoryRequestRefused | SoSuSaFsd/Components/Pages/CategoryDetailsComponents/CategoryDetailsBase.cs:481-542 | after a press that stored a request, the next press stores nothing: refused as pending, or by the service's check |
| CategoryDetailsBase.GetCurrentIndex | SoSuSaFsd/Components/Pages/CategoryDetailsComponents/CategoryDetailsBase.cs:101-106 | an unseen post gets position 0; the stored position is returned |
| CategoryDetailsBase.NextSlide | SoSuSaFsd/Components/Pages/CategoryDetailsComponents/CategoryDetailsBase.cs:108-112 | as the admin carousel |
| CategoryDetailsBase.PrevSlide | SoSuSaFsd/Components/Pages/CategoryDetailsComponents/CategoryDetailsBase.cs:114-118 | as the admin carousel |
| ProfileBase.ReportUser | SoSuSaFsd/Components/Pages/ProfileComponents/ProfileBase.cs:100-129 | nothing without a shown and a signed-in user; a null or blank reason cancels; otherwise the service stores or refuses, and the status message says which |
| ProfileBase.ToggleLike | SoSuSaFsd/Components/Pages/ProfileComponents/ProfileBase.cs:132-160 | nothing without a user; otherwise the like toggles and the shown post's likes are refreshed |
| ProfileBase.ToggleComments | SoSuSaFsd/Components/Pages/ProfileComponents/ProfileBase.cs:162-188 | nothing without a user; otherwise the flag flips and a first-shown thread is loaded |
| ProfileBase.UpdateCommentDraft | SoSuSaFsd/Components/Pages/ProfileComponents/ProfileBase.cs:190-194 | a null text is ignored, any other is stored |
| ProfileBase.Appended | SoSuSaFsd/Components/Pages/ProfileComponents/ProfileBase.cs:324-328 | the post's thread, started empty when missing, gains the comment at its end; other threads stay |
| ProfileBase.SubmitComment | SoSuSaFsd/Components/Pages/ProfileComponents/ProfileBase.cs:196-233 | posts exactly when signed in with a non-blank draft: one comment stored, the draft emptied, the thread appended; otherwise nothing changes |
| ProfileBase.ToggleReplyBox | SoSuSaFsd/Components/Pages/ProfileComponents/ProfileBase.cs:236-247 | the box flag flips and a draft exists, an existing one kept |
| ProfileBase.UpdateReplyDraft | SoSuSaFsd/Components/Pages/ProfileComponents/ProfileBase.cs:249-253 | a null text is ignored, any other is stored |
| ProfileBase.SubmitReply | SoSuSaFsd/Components/Pages/ProfileComponents/ProfileBase.cs:255-294 | as a comment, with the parent's draft; a posted reply also closes the parent's box |
| ProfileBase.GetCurrentIndex | SoSuSaFsd/Components/Pages/ProfileComponents/ProfileBase.cs:297-302 | an unseen post gets position 0; the stored position is returned |
| ProfileBase.NextSlide | SoSuSaFsd/Components/Pages/ProfileComponents/ProfileBase.cs:304-308 | as the admin carousel |
| ProfileBase.PrevSlide | SoSuSaFsd/Components/Pages/ProfileComponents/ProfileBase.cs:310-314 | as the admin carousel |
| ErrorHandling.FriendlyMessage | SoSuSaFsd/Services/ErrorHandlingService.cs:35-47 | the first matching type decides: permission, not found, invalid input (argument family), cannot complete, save error, timed out, otherwise unexpected |
| ErrorHandling.FriendlyMessageSeparatesFamilies | SoSuSaFsd/Services/ErrorHandlingService.cs:37-46 | the mapping is total onto the seven messages, and two exceptions share a message exactly when they fall in the same branch |
| ErrorHandling.UserLabel | SoSuSaFsd/Services/ErrorHandlingService.cs:20 | "Anonymous" exactly for a null or empty id, else "UserId: " and the id |
| ErrorHandling.UserLabelInjective | SoSuSaFsd/Services/ErrorHandlingService.cs:26 | different non-empty ids get different labels |

## Where the model follows the code rather than its description

- **Report groups.** The group of an anchor is an OR across all four of the anchor's
  non-null target fields, not one dimension (`AdminService.cs:74-79`). The notification
  count groups on the exact four-field tuple instead (`AdminState.cs:27`).
- **Dismiss overwrites Resolved.** A dismiss sets every group member to Dismissed,
  Resolved ones included (`AdminService.cs:81-84`). So dismiss followed by undo leaves
  every member Pending; a Resolved member does not survive the round trip.
- **Only the first request counts.** Both request forms look only at the pair's FIRST
  request (`FirstOrDefaultAsync`). One row per (user, category) pair is not enforced:
  - A first row with any status other than Pending, Approved or Rejected leads to a new
    row on every press (`HomePageBase.OtherStatusKeepsInserting`).
  - Approve and reject set the status whatever it was before.
- **The cooldown boundary.** The gate is `daysRemaining > 0`, measured from the last
  update. A resubmission at exactly seven days is allowed.
- **The two forms differ.** The category page's form leaves the reused row's document
  path alone, while the home form overwrites it. The category page's insert goes through
  `SubmitAccessRequestAsync`, which refuses while ANY request of the pair is Pending.
- **The verification document path.** `HomePageBase.cs` reads and writes
  `State.VerificationDocumentPath`. The state class `HomePageState.cs` does not declare
  that property. The model gives it a field: `HomePageState.verificationDocumentPath`.

## Left out

- Reads from the database into page state (`LoadData`, `LoadUserAndCategories`,
  `LoadCategoryDataAsync`, `LoadProfileData`, the reload after a post is created) are not
  modelled. The handlers read the state fields those loads would fill.
- The dates and day count inside the cooldown message are left out, because they need
  date and floating-point formatting. Its opening words and the other messages are
  modelled as constants only where a handler's contract mentions them.
- Exceptions from the database, and the `catch` blocks that log them, are left out:
  storage is modelled as never failing. `GetFollowerCountAsync`'s fallback to 0 on an
  exception is left out for the same reason.
- Navigation, `StateHasChanged`, JavaScript prompts and logging are left out. A prompt's
  answer is a parameter (`ProfileBase.ReportUser`'s `reason`). The signed-in user is a
  state field.
- File I/O in uploads is left out: the physical path, the stream copy, folder creation,
  `File.Delete` in `RemoveFile`, and the per-file "Error reading" catch. A file's GUID is
  a parameter of the selected file.
- CategoryDetailsBase.Extension: it splits the path only at `/`, not at the other
  separators `Path.GetExtension` knows, because browser file names carry no directory.
- HomePageService.SearchUsers: the order of the results (`OrderBy(DisplayName ??
  UserName)`) is not stated, because it depends on the database's collation. Which ten
  users are kept when more match is therefore not stated either. That no user is kept
  more often than stored is stated.
- Text.ToLower lower-cases ASCII letters only, not the full Unicode table.
- The like, comment and reply handlers are modelled on the profile page (`ProfileBase`).
  Those of the home page (`HomePageBase.ToggleLike`, `SubmitComment`, `SubmitReply`) and
  of the category page (`CategoryDetailsBase.ToggleLike`, `ToggleComments`,
  `LoadComments`, `SubmitComment`, `SubmitReply`) are not modelled, for brevity. They
  store the same like and comment rows as the profile handlers, through the same
  services. They differ from the profile handlers as follows:
  - Without a user they open the login overlay
    (`HomePageBase.cs:648-656`, `CategoryDetailsBase.cs:126-129, 166-169, 227-231, 272-275`).
    The profile handlers navigate away instead (`ProfileBase.cs:134-137`).
  - The home `ToggleLike` refreshes the likes in both the feed and the user's posts
    (`HomePageBase.cs:183-185`). The profile handler refreshes one list.
  - The category `ToggleComments` goes through `LoadComments`. That reloads a thread
    whose key is missing or whose list is null (`CategoryDetailsBase.cs:145`).
  Only the home page's `ToggleComments` and `ToggleReplyBox` are modelled
  (`HomePageBase`).
- CategoryDetailsBase.HandleSubmitRequest, HomePageBase.HandleAccessRequest: the cooldown
  refusal's message is pinned only by its fixed opening words
  (`AccessLifecycle.COOLDOWN_PREFIX`). The rejection date, the retry date and the day
  count that follow are not stated.
- The category page's report handlers (`OpenReportModal`, `SubmitReport`,
  `CategoryDetailsBase.cs:551-593`) are not modelled. Their store side is
  `CategoryDetailsService.SubmitReport`. The page handler only adds the notification for
  each result.
- Password and profile updates through the identity library, the account and posts
  controllers, the database seeder and the schema are left out.
- Concurrency is left out: every operation runs alone, so read-then-write races between
  requests are not modelled.
