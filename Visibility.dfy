/** Which controls the forum view renders for a given state: the
    conditions of the component's markup, as predicates. */
module Visibility {

  import opened Wrappers
  import opened IdLists
  import opened CommentCache
  import opened ForumTypes

  /** The create form, the topic selector and everything below them render
      only while there is a current user. */
  predicate ForumControlsVisible(s: ForumState) {
    s.currentUser.Some?
  }

  /** `topics.find(topic => topic._id === selectedTopicId)`: the topic whose
      details are shown, the first one carrying the selected id. */
  function SelectedTopic(s: ForumState): (r: Option<Topic>)
    ensures r.Some? ==> r.value in s.topics && r.value.id == s.selectedTopicId
    ensures r.Some? <==> exists i :: 0 <= i < |s.topics| && s.topics[i].id == s.selectedTopicId
    ensures r.Some? <==> IndexOf(s.topics, TopicId, s.selectedTopicId) < |s.topics|
    ensures r.Some? ==> r.value == s.topics[IndexOf(s.topics, TopicId, s.selectedTopicId)]
  {
    FindById(s.topics, TopicId, s.selectedTopicId)
  }

  /** The owner test on a topic as written: `currentUser?.username ===
      topic.createdBy`, which also holds between no user and a topic that
      records no creator. */
  predicate IsTopicOwner(user: Option<User>, t: Topic) {
    Username(user) == t.createdBy
  }

  /** The Delete Topic and Edit Topic buttons: a user is present, a topic is
      selected and found, it is not being edited, and the user owns it. */
  predicate TopicControlsVisible(s: ForumState) {
    && ForumControlsVisible(s)
    && s.selectedTopicId != ""
    && SelectedTopic(s).Some?
    && s.editingTopic.None?
    && IsTopicOwner(s.currentUser, SelectedTopic(s).value)
  }

  /** The owner test on a comment: `currentUser && currentUser.username ===
      comment.username`. */
  predicate IsCommentOwner(user: Option<User>, c: Comment) {
    user.Some? && user.value.username == c.username
  }

  /** The Edit and Delete buttons of comment `c`: a user is present, a topic
      is selected, `c` is in that topic's cached list, it is not the comment
      being edited, and the user wrote it. */
  predicate CommentControlsVisible(s: ForumState, c: Comment) {
    && ForumControlsVisible(s)
    && s.selectedTopicId != ""
    && c in Entry(s.comments, s.selectedTopicId)
    && s.editingCommentId != Some(c.id)
    && IsCommentOwner(s.currentUser, c)
  }

  /** Without the user guard the topic owner test would accept an anonymous
      viewer of a topic that records no creator. */
  lemma AnonymousMatchesCreatorless(t: Topic)
    ensures IsTopicOwner(None, t) <==> t.createdBy.None?
  {
  }

  /** Topic controls are shown exactly when a user is present, nothing is
      being edited, and the first topic with the selected id was created by
      that very username. */
  lemma TopicControlsIff(s: ForumState)
    ensures TopicControlsVisible(s) <==>
      && s.currentUser.Some?
      && s.selectedTopicId != ""
      && s.editingTopic.None?
      && IndexOf(s.topics, TopicId, s.selectedTopicId) < |s.topics|
      && s.topics[IndexOf(s.topics, TopicId, s.selectedTopicId)].createdBy == Some(s.currentUser.value.username)
  {
  }

  /** A user other than the creator never sees a topic's controls. */
  lemma TopicControlsOwnerOnly(s: ForumState)
    requires SelectedTopic(s).Some?
    requires SelectedTopic(s).value.createdBy != Username(s.currentUser)
    ensures !TopicControlsVisible(s)
  {
  }

  /** Comment controls are shown exactly to the comment's author, while the
      comment is listed under the selected topic and not being edited. */
  lemma CommentControlsIff(s: ForumState, c: Comment)
    ensures CommentControlsVisible(s, c) <==>
      && s.currentUser.Some? && s.currentUser.value.username == c.username
      && s.selectedTopicId != "" && s.selectedTopicId in s.comments
      && c in s.comments[s.selectedTopicId]
      && s.editingCommentId != Some(c.id)
  {
  }

  /** Every owner-only control requires a current user. */
  lemma OwnerControlsNeedUser(s: ForumState, c: Comment)
    ensures TopicControlsVisible(s) || CommentControlsVisible(s, c) ==> ForumControlsVisible(s)
  {
  }

  /** Deleting some other topic does not change the topic shown. */
  lemma DeleteOtherKeepsSelectedTopic(s: ForumState, id: string)
    requires id != s.selectedTopicId
    ensures SelectedTopic(s.(topics := RemoveById(s.topics, TopicId, id))) == SelectedTopic(s)
  {
    FindAfterRemove(s.topics, TopicId, id, s.selectedTopicId);
  }

  /** After a successful update of the selected topic (the reply keeping its
      id), the topic shown is the server's new value. */
  lemma UpdateShowsReply(s: ForumState, v: Topic)
    requires SelectedTopic(s).Some? && v.id == s.selectedTopicId
    ensures SelectedTopic(s.(topics := ReplaceById(s.topics, TopicId, s.selectedTopicId, v))) == Some(v)
  {
    FindAfterReplace(s.topics, TopicId, s.selectedTopicId, v, s.selectedTopicId);
  }
}
