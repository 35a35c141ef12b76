/** Verified sessions of the forum view: each walks through the handlers
    from mount to the last event and states what each user ends up seeing. */
module Scenarios {

  import opened Wrappers
  import opened ForumTypes
  import opened ForumView
  import opened Visibility
  import Text

  const Alice := User("alice", "u1")
  const Bob := User("bob", "u2")
  const Vinyl := Topic("t1", "Vinyl", "Best pressings?", Some("alice"), "2024-05-01T10:00:00Z")
  const Discogs := Comment("c1", "alice", "Try Discogs", "2024-05-01T10:05:00Z")

  /** Alice creates "Vinyl": the request carries her name, the topic is
      appended and selected, and she sees its owner controls. */
  method AliceCreatesVinyl() returns (req: Option<Request>, topics: seq<Topic>, selected: string, seesControls: bool)
    ensures req == Some(PostTopic(TopicPayload("Vinyl", "Best pressings?", Some("alice"))))
    ensures topics == [Vinyl] && selected == "t1"
    ensures seesControls
  {
    var alice := new ForumView(Some(Alice));
    var _ := alice.FetchTopics(Ok([]));
    alice.SetDraftTitle("Vinyl");
    alice.SetDraftDescription("Best pressings?");
    assert alice.newTopic == Draft("Vinyl", "Best pressings?") && alice.editingTopic == None;
    assert !Text.IsBlank("Vinyl") && !Text.IsBlank("Best pressings?");
    req := alice.CreateOrUpdateTopic(Ok(Vinyl));
    topics, selected := alice.topics, alice.selectedTopicId;
    assert SelectedTopic(alice.State()) == Some(Vinyl);
    seesControls := TopicControlsVisible(alice.State());
  }

  /** Bob loads the list holding Alice's "Vinyl" and selects it: he sees no
      owner controls. */
  method BobViewsVinyl() returns (seesControls: bool)
    ensures !seesControls
  {
    var bob := new ForumView(Some(Bob));
    var _ := bob.FetchTopics(Ok([Vinyl]));
    var _ := bob.HandleTopicChange("t1", Ok([]));
    assert SelectedTopic(bob.State()) == Some(Vinyl);
    seesControls := TopicControlsVisible(bob.State());
  }

  /** Alice comments "Try Discogs" on "Vinyl": the topic's list gains one
      entry, posted and stored under her name, and she may edit it. */
  method AliceCommentsOnVinyl() returns (req: Option<Request>, list: seq<Comment>, seesControls: bool)
    ensures req == Some(PostComment("t1", Some("alice"), "Try Discogs"))
    ensures |list| == 1 && list[0].username == "alice" && list[0].content == "Try Discogs"
    ensures seesControls
  {
    var alice := new ForumView(Some(Alice));
    var _ := alice.FetchTopics(Ok([Vinyl]));
    var _ := alice.HandleTopicChange("t1", Ok([]));
    alice.SetNewComment("Try Discogs");
    assert alice.comments == map["t1" := []];
    assert !Text.IsBlank("Try Discogs");
    req := alice.CreateComment("t1", Ok(Discogs));
    list := alice.comments["t1"];
    seesControls := CommentControlsVisible(alice.State(), Discogs);
  }

  /** Bob selects "Vinyl" with Alice's comment on it: he may not edit it. */
  method BobViewsDiscogs() returns (seesControls: bool)
    ensures !seesControls
  {
    var bob := new ForumView(Some(Bob));
    var _ := bob.HandleTopicChange("t1", Ok([Discogs]));
    seesControls := CommentControlsVisible(bob.State(), Discogs);
  }

  /** As written: Alice starts editing "Vinyl", picks "Select a topic", then
      fills in the Create form. The submit is sent as an update of "Vinyl",
      whose entry is overwritten; no topic is created. */
  method CreateAfterDeselectAsWritten() returns (req: Option<Request>, topics: seq<Topic>)
    ensures req == Some(PutTopic("t1", TopicPayload("Turntables", "Which one?", Some("alice"))))
    ensures |topics| == 1 && topics[0].title == "Turntables"
  {
    var alice := new ForumView(Some(Alice));
    var _ := alice.FetchTopics(Ok([Vinyl]));
    var _ := alice.HandleTopicChange("t1", Ok([]));
    alice.HandleEditClick(Vinyl);
    var _ := alice.HandleTopicChange("", Ok([]));
    assert alice.editingTopic == Some(Vinyl);
    alice.SetDraftTitle("Turntables");
    alice.SetDraftDescription("Which one?");
    assert alice.newTopic == Draft("Turntables", "Which one?");
    assert !Text.IsBlank("Turntables") && !Text.IsBlank("Which one?");
    var reply := Topic("t1", "Turntables", "Which one?", Some("alice"), "2024-05-01T10:00:00Z");
    req := alice.CreateOrUpdateTopic(Ok(reply));
    topics := alice.topics;
  }

  /** With the corrected selection handler the same session creates a second
      topic and leaves "Vinyl" as it was. */
  method CreateAfterDeselectCorrected() returns (req: Option<Request>, topics: seq<Topic>)
    ensures req == Some(PostTopic(TopicPayload("Turntables", "Which one?", Some("alice"))))
    ensures |topics| == 2 && topics[0] == Vinyl && topics[1].title == "Turntables"
  {
    var alice := new ForumView(Some(Alice));
    var _ := alice.FetchTopics(Ok([Vinyl]));
    var _ := alice.HandleTopicChangeCorrected("t1", Ok([]));
    alice.HandleEditClick(Vinyl);
    var _ := alice.HandleTopicChangeCorrected("", Ok([]));
    assert alice.editingTopic == None && alice.topics == [Vinyl];
    alice.SetDraftTitle("Turntables");
    alice.SetDraftDescription("Which one?");
    assert alice.newTopic == Draft("Turntables", "Which one?");
    assert !Text.IsBlank("Turntables") && !Text.IsBlank("Which one?");
    var reply := Topic("t2", "Turntables", "Which one?", Some("alice"), "2024-05-01T11:00:00Z");
    req := alice.CreateOrUpdateTopic(Ok(reply));
    topics := alice.topics;
  }
}
