/** The documents the forum view handles, the requests it issues and the
    state it keeps (one field per state hook of the view). */
module ForumTypes {

  import opened Wrappers
  import IdLists

  /** A topic as the server returns it. `createdBy` is absent when the topic
      was created with no current user (`createdBy: undefined` is dropped). */
  datatype Topic = Topic(id: string, title: string, description: string,
                         createdBy: Option<string>, createdAt: string)

  /** A comment as the server returns it. */
  datatype Comment = Comment(id: string, username: string, content: string, createdAt: string)

  /** The identity read from the stored token. */
  datatype User = User(username: string, id: string)

  /** The topic form's draft fields. */
  datatype Draft = Draft(title: string, description: string)

  const EmptyDraft := Draft("", "")

  /** The body of a topic create or update: the draft tagged with its author. */
  datatype TopicPayload = TopicPayload(title: string, description: string, createdBy: Option<string>)

  /** The HTTP calls the view makes (URLs and headers left out). */
  datatype Request =
    | GetTopics
    | PostTopic(payload: TopicPayload)
    | PutTopic(topicId: string, payload: TopicPayload)
    | DeleteTopic(topicId: string)
    | GetComments(topicId: string)
    | PostComment(topicId: string, username: Option<string>, content: string)
    | PutComment(topicId: string, commentId: string, content: string)
    | DeleteComment(topicId: string, commentId: string)

  function TopicId(t: Topic): string { t.id }

  function CommentId(c: Comment): string { c.id }

  /** `list.map(c => c._id === editId ? v : c)` for the comment being
      edited: a null edit id matches no comment, so the list is unchanged. */
  function ReplaceEdited(list: seq<Comment>, editId: Option<string>, v: Comment): (r: seq<Comment>)
    ensures |r| == |list|
    ensures forall i :: 0 <= i < |list| ==> r[i] == if Some(list[i].id) == editId then v else list[i]
  {
    match editId
    case Some(id) => IdLists.ReplaceById(list, CommentId, id, v)
    case None => list
  }

  /** `currentUser?.username`. */
  function Username(user: Option<User>): Option<string> {
    match user
    case Some(u) => Some(u.username)
    case None => None
  }

  /** A possibly-null id interpolated into a URL template: `${null}` is "null". */
  function UrlSegment(id: Option<string>): string {
    GetOr(id, "null")
  }

  const LoadTopicsError := "Could not load topics. Please try again later."
  const TitleRequiredError := "Please provide a title for the topic."
  const DescriptionRequiredError := "Please provide a description for the topic."
  const SaveTopicError := "Failed to save topic. Please try again."
  const DeleteTopicError := "Failed to delete topic. Please try again."
  const LoadCommentsError := "Could not load comments. Please try again."
  const CreateCommentError := "Failed to create comment. Please try again."
  const UpdateCommentError := "Failed to update comment. Please try again."
  const DeleteCommentError := "Failed to delete comment. Please try again."

  /** The whole state of the forum view at one moment. */
  datatype ForumState = ForumState(
    topics: seq<Topic>,
    newTopic: Draft,
    editingTopic: Option<Topic>,
    comments: map<string, seq<Comment>>,
    newComment: string,
    editingCommentId: Option<string>,
    editingCommentContent: string,
    selectedTopicId: string,
    error: Option<string>,
    currentUser: Option<User>)

  /** The state on mount, once the stored token has been read. */
  function Initial(user: Option<User>): ForumState {
    ForumState([], EmptyDraft, None, map[], "", None, "", "", None, user)
  }
}
