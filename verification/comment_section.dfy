/** The comment section under a post: a collapsed view of the first two
    comments with a "View all N comments" control, and an input whose send
    button only fires on non-blank text. */
module CommentSection {
  import opened JsText

  datatype Comment = Comment(
    id: string,
    user: string,
    text: string,
    likes: int,
    timestamp: string,
    liked: bool)

  /** The component's own state: the input text and whether every comment
      is shown. */
  datatype Box = Box(commentText: string, showAllComments: bool)

  /** A user action on the component. */
  datatype Event = Edit(text: string) | ShowAll | Send

  const Initial: Box := Box("", false)

  /** The comments shown, `showAllComments ? comments : comments.slice(0, 2)`:
      always a prefix of the list, all of it when expanded, at most two when
      collapsed. */
  function DisplayComments(comments: seq<Comment>, showAll: bool): (r: seq<Comment>)
    ensures r <= comments
    ensures showAll ==> r == comments
    ensures !showAll ==> |r| == (if |comments| < 2 then |comments| else 2)
  {
    if showAll then comments else comments[..if |comments| < 2 then |comments| else 2]
  }

  /** The label of the show-more control, when it is rendered. */
  function ShowMoreLabel(comments: seq<Comment>, box: Box): (r: string)
    requires !box.showAllComments && |comments| > 2
    ensures |r| > 18 && r[..9] == "View all " && r[|r| - 9..] == " comments"
    ensures IsDecimal(r[9..|r| - 9]) && ParseDecimal(r[9..|r| - 9]) == |comments|
  {
    var digits := Decimal(|comments|);
    var r := "View all " + digits + " comments";
    assert r[9..|r| - 9] == digits;
    DecimalRoundTrip(|comments|);
    r
  }

  /** Whether the show-more control is rendered. */
  predicate ShowsMore(comments: seq<Comment>, box: Box) {
    !box.showAllComments && |comments| > 2
  }

  /** The send button is disabled when the trimmed text is empty. */
  predicate SendDisabled(box: Box) {
    Trim(box.commentText) == []
  }

  /** One event. `onAddComment` is optional; the list it returns holds the
      texts passed to it, at most one. */
  function Step(box: Box, e: Event, hasOnAddComment: bool): (r: (Box, seq<string>))
    ensures e.ShowAll? ==> r.0 == box.(showAllComments := true) && r.1 == []
    ensures e.Edit? ==> r.0 == box.(commentText := e.text) && r.1 == []
    ensures e.Send? && SendDisabled(box) ==> r == (box, [])
    ensures e.Send? && !SendDisabled(box) ==>
      && r.0 == box.(commentText := "")
      && r.1 == (if hasOnAddComment then [box.commentText] else [])
    ensures box.showAllComments ==> r.0.showAllComments
    ensures forall i | 0 <= i < |r.1| :: !AllSpace(r.1[i]) && r.1[i] == box.commentText
  {
    TrimEmptyIffAllSpace(box.commentText);
    match e
    case Edit(t) => (box.(commentText := t), [])
    case ShowAll => (box.(showAllComments := true), [])
    case Send =>
      if Trim(box.commentText) != [] then
        (box.(commentText := ""), if hasOnAddComment then [box.commentText] else [])
      else (box, [])
  }

  /** A run of events from a state: the final state and every text passed to
      `onAddComment`, in order. */
  function Run(box: Box, events: seq<Event>, hasOnAddComment: bool): (r: (Box, seq<string>))
    ensures box.showAllComments ==> r.0.showAllComments
    ensures forall i | 0 <= i < |r.1| :: !AllSpace(r.1[i])
    ensures !hasOnAddComment ==> r.1 == []
    decreases |events|
  {
    if events == [] then (box, [])
    else
      var (b1, out1) := Step(box, events[0], hasOnAddComment);
      var (b2, out2) := Run(b1, events[1..], hasOnAddComment);
      (b2, out1 + out2)
  }

  /** The send button is disabled exactly when the text is all white space
      (or empty). */
  lemma SendDisabledIffBlank(box: Box)
    ensures SendDisabled(box) <==> AllSpace(box.commentText)
  {
    TrimEmptyIffAllSpace(box.commentText);
  }

  /** The control is rendered exactly when the displayed list hides some
      comments. */
  lemma ShowsMoreIffHidden(comments: seq<Comment>, box: Box)
    ensures ShowsMore(comments, box) <==>
      |DisplayComments(comments, box.showAllComments)| < |comments|
  {
  }

  /** Sending blank text neither calls back nor clears the input; sending
      non-blank text passes it untrimmed and clears the input. */
  lemma SendGate(box: Box, hasOnAddComment: bool)
    ensures AllSpace(box.commentText) ==> Step(box, Send, hasOnAddComment) == (box, [])
    ensures !AllSpace(box.commentText) ==>
      && Step(box, Send, hasOnAddComment).0.commentText == []
      && (hasOnAddComment ==> Step(box, Send, hasOnAddComment).1 == [box.commentText])
  {
    TrimEmptyIffAllSpace(box.commentText);
  }
}
