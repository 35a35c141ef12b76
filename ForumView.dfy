/** The forum view's event handlers as a state machine. Each state hook of
    the component is a field; each handler is a method that takes the
    server's reply (and, for deletions, the user's answer to the
    confirmation prompt) as input, returns the request it issues, and patches
    the fields. A handler runs to completion before the next one starts. */
module ForumView {

  import opened Wrappers
  import opened Text
  import opened IdLists
  import opened CommentCache
  import opened ForumTypes

  class ForumView {
    var topics: seq<Topic>
    var newTopic: Draft
    var editingTopic: Option<Topic>
    var comments: map<string, seq<Comment>>
    var newComment: string
    var editingCommentId: Option<string>
    var editingCommentContent: string
    var selectedTopicId: string
    var error: Option<string>
    var currentUser: Option<User>

    /** All fields at once. */
    function State(): ForumState
      reads this
    {
      ForumState(topics, newTopic, editingTopic, comments, newComment,
                 editingCommentId, editingCommentContent, selectedTopicId, error, currentUser)
    }

    /** Mounting: every hook at its initial value, and the user read from
        the stored token (absent when there is no token). */
    constructor (user: Option<User>)
      ensures State() == Initial(user)
    {
      topics := [];
      newTopic := EmptyDraft;
      editingTopic := None;
      comments := map[];
      newComment := "";
      editingCommentId := None;
      editingCommentContent := "";
      selectedTopicId := "";
      error := None;
      currentUser := user;
    }

    /** `fetchTopics`: the reply replaces the topic list; a failure only sets
        the error and keeps the list. */
    method FetchTopics(reply: Result<seq<Topic>>) returns (req: Option<Request>)
      modifies this
      ensures req == Some(GetTopics)
      ensures reply.Ok? ==> State() == old(State()).(topics := reply.value)
      ensures reply.Failed? ==> State() == old(State()).(error := Some(LoadTopicsError))
    {
      req := Some(GetTopics);
      match reply
      case Ok(list) => topics := list;
      case Failed => error := Some(LoadTopicsError);
    }

    /** Typing into the topic title input. */
    method SetDraftTitle(title: string)
      modifies this
      ensures State() == old(State()).(newTopic := old(newTopic).(title := title))
    {
      newTopic := newTopic.(title := title);
    }

    /** Typing into the topic description textarea. */
    method SetDraftDescription(description: string)
      modifies this
      ensures State() == old(State()).(newTopic := old(newTopic).(description := description))
    {
      newTopic := newTopic.(description := description);
    }

    /** Typing into the new-comment textarea. */
    method SetNewComment(content: string)
      modifies this
      ensures State() == old(State()).(newComment := content)
    {
      newComment := content;
    }

    /** Typing into the comment edit textarea. */
    method SetEditingCommentContent(content: string)
      modifies this
      ensures State() == old(State()).(editingCommentContent := content)
    {
      editingCommentContent := content;
    }

    /** `createOrUpdateTopic`. A blank title, then a blank description, is
        rejected with its own message and nothing else changes. Otherwise the
        draft, tagged with the current username, is sent as an update of the
        edit target or as a new topic. An update replaces every topic with the
        target's id and ends the edit; a create appends the new topic and
        selects it; both clear the draft and the error. A failure only sets
        the error. */
    method CreateOrUpdateTopic(reply: Result<Topic>) returns (req: Option<Request>)
      modifies this
      ensures IsBlank(old(newTopic.title)) ==>
        req == None && State() == old(State()).(error := Some(TitleRequiredError))
      ensures !IsBlank(old(newTopic.title)) && IsBlank(old(newTopic.description)) ==>
        req == None && State() == old(State()).(error := Some(DescriptionRequiredError))
      ensures !IsBlank(old(newTopic.title)) && !IsBlank(old(newTopic.description)) ==>
        var payload := TopicPayload(old(newTopic.title), old(newTopic.description), Username(old(currentUser)));
        req == Some(if old(editingTopic).Some? then PutTopic(old(editingTopic).value.id, payload) else PostTopic(payload))
      ensures !IsBlank(old(newTopic.title)) && !IsBlank(old(newTopic.description)) && reply.Failed? ==>
        State() == old(State()).(error := Some(SaveTopicError))
      ensures !IsBlank(old(newTopic.title)) && !IsBlank(old(newTopic.description)) && reply.Ok? && old(editingTopic).Some? ==>
        State() == old(State()).(topics := ReplaceById(old(topics), TopicId, old(editingTopic).value.id, reply.value),
                                 editingTopic := None, newTopic := EmptyDraft, error := None)
      ensures !IsBlank(old(newTopic.title)) && !IsBlank(old(newTopic.description)) && reply.Ok? && old(editingTopic).None? ==>
        State() == old(State()).(topics := old(topics) + [reply.value], selectedTopicId := reply.value.id,
                                 newTopic := EmptyDraft, error := None)
      // What the list patches mean for the ids the list holds.
      ensures UniqueIds(old(topics), TopicId) && reply.Ok? && old(editingTopic).Some? && reply.value.id == old(editingTopic).value.id ==>
        UniqueIds(topics, TopicId)
      ensures UniqueIds(old(topics), TopicId) && reply.Ok? && old(editingTopic).None? && !IsBlank(old(newTopic.title)) && !IsBlank(old(newTopic.description)) ==>
        (UniqueIds(topics, TopicId) <==> forall i :: 0 <= i < |old(topics)| ==> old(topics)[i].id != reply.value.id)
    {
      if IsBlank(newTopic.title) {
        error := Some(TitleRequiredError);
        return None;
      }
      if IsBlank(newTopic.description) {
        error := Some(DescriptionRequiredError);
        return None;
      }
      var payload := TopicPayload(newTopic.title, newTopic.description, Username(currentUser));
      match editingTopic {
        case Some(target) =>
          req := Some(PutTopic(target.id, payload));
          if reply.Ok? {
            IdLists.ReplaceByIdUnique(topics, TopicId, target.id, reply.value);
            topics := ReplaceById(topics, TopicId, target.id, reply.value);
            editingTopic := None;
          }
        case None =>
          req := Some(PostTopic(payload));
          if reply.Ok? {
            if UniqueIds(topics, TopicId) {
              AppendUnique(topics, TopicId, reply.value);
            }
            topics := topics + [reply.value];
            selectedTopicId := reply.value.id;
          }
      }
      if reply.Ok? {
        newTopic := EmptyDraft;
        error := None;
      } else {
        error := Some(SaveTopicError);
      }
    }

    /** `deleteTopic`. Declining the prompt changes nothing and sends nothing.
        Otherwise, on success, every topic with that id is removed and the
        error cleared; the selection and the draft are reset only when the
        deleted topic was the selected one. A failure only sets the error. */
    method DeleteTopic(topicId: string, confirmed: bool, reply: Result<()>) returns (req: Option<Request>)
      modifies this
      ensures !confirmed ==> req == None && State() == old(State())
      ensures confirmed ==> req == Some(ForumTypes.DeleteTopic(topicId))
      ensures confirmed && reply.Failed? ==> State() == old(State()).(error := Some(DeleteTopicError))
      ensures confirmed && reply.Ok? && old(selectedTopicId) == topicId ==>
        State() == old(State()).(topics := RemoveById(old(topics), TopicId, topicId),
                                 selectedTopicId := "", newTopic := EmptyDraft, error := None)
      ensures confirmed && reply.Ok? && old(selectedTopicId) != topicId ==>
        State() == old(State()).(topics := RemoveById(old(topics), TopicId, topicId), error := None)
      ensures UniqueIds(old(topics), TopicId) ==> UniqueIds(topics, TopicId)
    {
      if !confirmed {
        return None;
      }
      req := Some(ForumTypes.DeleteTopic(topicId));
      match reply
      case Ok(_) =>
        if UniqueIds(topics, TopicId) {
          RemoveByIdUnique(topics, TopicId, topicId);
        }
        topics := RemoveById(topics, TopicId, topicId);
        if selectedTopicId == topicId {
          selectedTopicId := "";
          newTopic := EmptyDraft;
        }
        error := None;
      case Failed =>
        error := Some(DeleteTopicError);
    }

    /** `fetchComments`: the reply overwrites the cache entry of that topic
        only; a failure only sets the error. */
    method FetchComments(topicId: string, reply: Result<seq<Comment>>) returns (req: Option<Request>)
      modifies this
      ensures req == Some(GetComments(topicId))
      ensures reply.Ok? ==> State() == old(State()).(comments := Put(old(comments), topicId, reply.value))
      ensures reply.Failed? ==> State() == old(State()).(error := Some(LoadCommentsError))
    {
      req := Some(GetComments(topicId));
      match reply
      case Ok(list) => comments := Put(comments, topicId, list);
      case Failed => error := Some(LoadCommentsError);
    }

    /** `createComment`. A blank draft is a silent no-op. Otherwise the draft
        is posted under the current username; on success the returned comment
        is appended to that topic's entry (a missing entry read as empty), and
        the draft and the error are cleared. A failure only sets the error. */
    method CreateComment(topicId: string, reply: Result<Comment>) returns (req: Option<Request>)
      modifies this
      ensures IsBlank(old(newComment)) ==> req == None && State() == old(State())
      ensures !IsBlank(old(newComment)) ==>
        req == Some(PostComment(topicId, Username(old(currentUser)), old(newComment)))
      ensures !IsBlank(old(newComment)) && reply.Failed? ==>
        State() == old(State()).(error := Some(CreateCommentError))
      ensures !IsBlank(old(newComment)) && reply.Ok? ==>
        State() == old(State()).(comments := Push(old(comments), topicId, reply.value), newComment := "", error := None)
    {
      if IsBlank(newComment) {
        return None;
      }
      req := Some(PostComment(topicId, Username(currentUser), newComment));
      match reply
      case Ok(c) =>
        comments := Push(comments, topicId, c);
        newComment := "";
        error := None;
      case Failed =>
        error := Some(CreateCommentError);
    }

    /** `updateComment`. Blank edit content is a silent no-op. Otherwise the
        content is sent for the comment being edited; on success that topic's
        list has the comment with the edited id replaced by the reply (a null
        edit id matches no comment), and the edit state and the error are
        cleared. A failure only sets the error. */
    method UpdateComment(topicId: string, reply: Result<Comment>) returns (req: Option<Request>)
      requires !IsBlank(editingCommentContent) && reply.Ok? ==> topicId in comments
      modifies this
      ensures IsBlank(old(editingCommentContent)) ==> req == None && State() == old(State())
      ensures !IsBlank(old(editingCommentContent)) ==>
        req == Some(PutComment(topicId, UrlSegment(old(editingCommentId)), old(editingCommentContent)))
      ensures !IsBlank(old(editingCommentContent)) && reply.Failed? ==>
        State() == old(State()).(error := Some(UpdateCommentError))
      ensures !IsBlank(old(editingCommentContent)) && reply.Ok? ==>
        State() == old(State()).(
          comments := Put(old(comments), topicId, ReplaceEdited(old(comments)[topicId], old(editingCommentId), reply.value)),
          editingCommentId := None, editingCommentContent := "", error := None)
    {
      if IsBlank(editingCommentContent) {
        return None;
      }
      req := Some(PutComment(topicId, UrlSegment(editingCommentId), editingCommentContent));
      match reply
      case Ok(c) =>
        comments := Put(comments, topicId, ReplaceEdited(comments[topicId], editingCommentId, c));
        editingCommentId := None;
        editingCommentContent := "";
        error := None;
      case Failed =>
        error := Some(UpdateCommentError);
    }

    /** `deleteComment`. Declining the prompt changes nothing and sends
        nothing. Otherwise, on success, every comment with that id is removed
        from that topic's list only, and the error cleared. A failure only
        sets the error. */
    method DeleteComment(topicId: string, commentId: string, confirmed: bool, reply: Result<()>)
      returns (req: Option<Request>)
      requires confirmed && reply.Ok? ==> topicId in comments
      modifies this
      ensures !confirmed ==> req == None && State() == old(State())
      ensures confirmed ==> req == Some(ForumTypes.DeleteComment(topicId, commentId))
      ensures confirmed && reply.Failed? ==> State() == old(State()).(error := Some(DeleteCommentError))
      ensures confirmed && reply.Ok? ==>
        State() == old(State()).(comments := Put(old(comments), topicId, RemoveById(old(comments)[topicId], CommentId, commentId)),
                                 error := None)
    {
      if !confirmed {
        return None;
      }
      req := Some(ForumTypes.DeleteComment(topicId, commentId));
      match reply
      case Ok(_) =>
        comments := Put(comments, topicId, RemoveById(comments[topicId], CommentId, commentId));
        error := None;
      case Failed =>
        error := Some(DeleteCommentError);
    }

    /** `handleTopicChange`. The selection always becomes the chosen id. A
        non-empty id fetches that topic's comments and ends any topic edit;
        the empty id (the "Select a topic" option) clears the whole comment
        cache and resets the draft, and keeps the edit target. */
    method HandleTopicChange(topicId: string, fetchReply: Result<seq<Comment>>) returns (req: Option<Request>)
      modifies this
      ensures topicId == "" ==> (req == None &&
        State() == old(State()).(selectedTopicId := "", comments := map[], newTopic := EmptyDraft))
      ensures topicId != "" ==> req == Some(GetComments(topicId))
      ensures topicId != "" && fetchReply.Ok? ==>
        State() == old(State()).(selectedTopicId := topicId, editingTopic := None,
                                 comments := Put(old(comments), topicId, fetchReply.value))
      ensures topicId != "" && fetchReply.Failed? ==>
        State() == old(State()).(selectedTopicId := topicId, editingTopic := None, error := Some(LoadCommentsError))
    {
      selectedTopicId := topicId;
      if topicId != "" {
        req := FetchComments(topicId, fetchReply);
        editingTopic := None;
      } else {
        req := None;
        comments := map[];
        newTopic := EmptyDraft;
      }
    }

    /** `handleTopicChange` as it was evidently meant to be: deselecting also
        ends a topic edit, so the "Create Topic" form cannot turn into an
        update of a topic that is no longer shown. */
    method HandleTopicChangeCorrected(topicId: string, fetchReply: Result<seq<Comment>>) returns (req: Option<Request>)
      modifies this
      ensures topicId == "" ==> (req == None &&
        State() == old(State()).(selectedTopicId := "", comments := map[], newTopic := EmptyDraft, editingTopic := None))
      ensures topicId != "" ==> req == Some(GetComments(topicId))
      ensures topicId != "" && fetchReply.Ok? ==>
        State() == old(State()).(selectedTopicId := topicId, editingTopic := None,
                                 comments := Put(old(comments), topicId, fetchReply.value))
      ensures topicId != "" && fetchReply.Failed? ==>
        State() == old(State()).(selectedTopicId := topicId, editingTopic := None, error := Some(LoadCommentsError))
      ensures editingTopic.None?
    {
      req := HandleTopicChange(topicId, fetchReply);
      editingTopic := None;
    }

    /** `handleEditClick`: the topic becomes the edit target and its title
        and description are copied into the draft. */
    method HandleEditClick(topic: Topic)
      modifies this
      ensures State() == old(State()).(editingTopic := Some(topic), newTopic := Draft(topic.title, topic.description))
    {
      editingTopic := Some(topic);
      newTopic := Draft(topic.title, topic.description);
    }

    /** The Cancel button of the topic edit form: only the edit target is
        cleared; the draft keeps what was typed. */
    method CancelTopicEdit()
      modifies this
      ensures State() == old(State()).(editingTopic := None)
    {
      editingTopic := None;
    }

    /** The Edit button of a comment: it becomes the comment being edited,
        with its content as the edit text. */
    method HandleCommentEditClick(comment: Comment)
      modifies this
      ensures State() == old(State()).(editingCommentId := Some(comment.id), editingCommentContent := comment.content)
    {
      editingCommentId := Some(comment.id);
      editingCommentContent := comment.content;
    }

    /** The Cancel button of a comment edit: only the edit id is cleared;
        the edit text is kept. */
    method CancelCommentEdit()
      modifies this
      ensures State() == old(State()).(editingCommentId := None)
    {
      editingCommentId := None;
    }
  }
}
