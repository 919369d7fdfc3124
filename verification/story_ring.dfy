/** The ring around a story avatar: a two-stop gradient for an unviewed
    story, a plain border otherwise. */
module StoryRing {

  /** What is drawn around the avatar. */
  datatype Ring = Gradient(colors: seq<string>) | Plain(color: string, width: real)

  const NoStoryGrey := "#e0e0e0"
  const ViewedGrey := "#d0d0d0"
  const GradientStart := "#ff4458"
  const GradientEnd := "#fcb045"

  /** `getBorderColors`; `isViewed` defaults to false when the prop is left
      out. */
  function BorderColors(hasStory: bool, isViewed: bool := false): (r: seq<string>)
    ensures |r| == 2
    ensures !hasStory ==> r == [NoStoryGrey, NoStoryGrey]
    ensures hasStory && isViewed ==> r == [ViewedGrey, ViewedGrey]
    ensures hasStory && !isViewed ==> r == [GradientStart, GradientEnd]
  {
    if !hasStory then [NoStoryGrey, NoStoryGrey]
    else if isViewed then [ViewedGrey, ViewedGrey]
    else [GradientStart, GradientEnd]
  }

  /** The rendered ring: the gradient only for an unviewed story; otherwise
      a plain border in the first colour, 2 wide with a story and 1.5
      without. */
  function RingFor(hasStory: bool, isViewed: bool := false): (r: Ring)
    ensures r.Gradient? <==> hasStory && !isViewed
    ensures r.Gradient? ==> r.colors == BorderColors(hasStory, isViewed)
    ensures r.Plain? ==> r.color == BorderColors(hasStory, isViewed)[0]
    ensures r.Plain? ==> r.width == if hasStory then 2.0 else 1.5
  {
    var colors := BorderColors(hasStory, isViewed);
    if hasStory && !isViewed then Gradient(colors)
    else Plain(colors[0], if hasStory then 2.0 else 1.5)
  }

  /** The gradient is drawn exactly when the two colours differ, a
      story without content looks the same whether or not it is viewed, and a
      story whose `isViewed` is left out draws the gradient. */
  lemma GradientIffDistinctColors(hasStory: bool, isViewed: bool)
    ensures var c := BorderColors(hasStory, isViewed);
      RingFor(hasStory, isViewed).Gradient? <==> c[0] != c[1]
    ensures !hasStory ==> RingFor(hasStory, isViewed) == RingFor(hasStory)
    ensures hasStory ==> RingFor(hasStory).Gradient?
  {
  }
}
