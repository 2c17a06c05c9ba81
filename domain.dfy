/**
 * The records of the social-feed store: reports, access requests, categories,
 * users, posts, comments, likes and follows. Statuses stay raw strings, as the
 * services store them; time is a whole number of seconds.
 */
module Domain {

  datatype Option<+T> = None | Some(value: T)

  /** Report statuses. */
  const PENDING: string := "Pending"
  const RESOLVED: string := "Resolved"
  const DISMISSED: string := "Dismissed"

  /** Access-request statuses (a request also starts as PENDING). */
  const APPROVED: string := "Approved"
  const REJECTED: string := "Rejected"

  /** Post status written by the create-post handler. */
  const PUBLISHED: string := "Published"

  /** Timestamps, in seconds. */
  type Time = int

  const SECONDS_PER_DAY: int := 86400

  /** A rejected access request may be resubmitted this long after its last update. */
  const RESUBMIT_COOLDOWN: int := 7 * SECONDS_PER_DAY

  /**
   * A complaint. The four target fields are independent optional references;
   * nothing forces exactly one of them to be set.
   */
  datatype Report = Report(
    id: int,
    reason: string,
    status: string,
    dateCreated: Time,
    reporterId: string,
    postId: Option<int>,
    commentId: Option<int>,
    categoryId: Option<int>,
    targetUserId: Option<string>)

  datatype AccessRequest = AccessRequest(
    id: int,
    userId: string,
    categoryId: int,
    reason: string,
    status: string,
    supportingDocumentPath: Option<string>,
    dateCreated: Time,
    dateUpdated: Time,
    createdBy: Option<string>,
    updatedBy: Option<string>)

  datatype Category = Category(
    id: int,
    name: string,
    isVerified: bool,
    createdBy: string,
    dateCreated: Time,
    dateUpdated: Time)

  datatype User = User(
    id: string,
    userName: string,
    displayName: Option<string>,
    isActive: bool,
    dateUpdated: Time)

  datatype Media = Media(path: string, mediaType: string)

  datatype Post = Post(
    id: int,
    content: string,
    categoryId: int,
    userId: string,
    status: string,
    dateCreated: Time,
    media: seq<Media>)

  datatype Comment = Comment(
    id: int,
    postId: int,
    userId: string,
    content: string,
    parentCommentId: Option<int>,
    dateCreated: Time)

  datatype PostLike = PostLike(postId: int, userId: string, likedAt: Time)

  datatype CategoryFollow = CategoryFollow(userId: string, categoryId: int, dateCreated: Time)
}
