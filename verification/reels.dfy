/** The reels screen: the reel list in component state, the like toggle on a
    reel, and the index of the reel currently in view. */
module Reels {

  datatype Reel = Reel(
    id: string,
    username: string,
    avatar: string,
    caption: string,
    likes: int,
    comments: int,
    shares: int,
    liked: bool)

  /** An entry of the list's viewable-items callback. */
  datatype ViewToken = ViewToken(index: int)

  datatype ReelsState = ReelsState(reels: seq<Reel>, activeReelIndex: int, isPlaying: bool)

  /** The state when the screen mounts. */
  function Init(reels: seq<Reel>): (s: ReelsState)
    ensures s.reels == reels && s.activeReelIndex == 0 && s.isPlaying
  {
    ReelsState(reels, 0, true)
  }

  /** `after` is `before` with only the like flag and count changed, the
      count by one step in the direction of the new flag. */
  predicate LikeFlipped(before: Reel, after: Reel) {
    && after.liked == !before.liked
    && after.likes == (if before.liked then before.likes - 1 else before.likes + 1)
    && after.id == before.id && after.username == before.username
    && after.avatar == before.avatar && after.caption == before.caption
    && after.comments == before.comments && after.shares == before.shares
  }

  /** One like toggle of a reel: the flag flips and the count moves one step
      in the direction of the new flag. */
  function Flip(r: Reel): Reel {
    r.(liked := !r.liked, likes := if r.liked then r.likes - 1 else r.likes + 1)
  }

  /** The list map of `handleLike`. */
  function HandleLikeIn(reels: seq<Reel>, id: string): (r: seq<Reel>)
    ensures |r| == |reels|
    ensures forall i | 0 <= i < |reels| && reels[i].id != id :: r[i] == reels[i]
    ensures forall i | 0 <= i < |reels| && reels[i].id == id :: LikeFlipped(reels[i], r[i])
  {
    if reels == [] then []
    else
      [if reels[0].id == id then Flip(reels[0]) else reels[0]] + HandleLikeIn(reels[1..], id)
  }

  /** `handleLike(reelId)`: only the list changes. */
  function HandleLike(s: ReelsState, id: string): (r: ReelsState)
    ensures r.reels == HandleLikeIn(s.reels, id)
    ensures r.activeReelIndex == s.activeReelIndex && r.isPlaying == s.isPlaying
  {
    s.(reels := HandleLikeIn(s.reels, id))
  }

  /** `onViewableItemsChanged`: the first viewable item becomes the active
      one; an empty report changes nothing. */
  function OnViewableItemsChanged(s: ReelsState, viewable: seq<ViewToken>): (r: ReelsState)
    ensures |viewable| > 0 ==> r.activeReelIndex == viewable[0].index
    ensures |viewable| == 0 ==> r == s
    ensures r.reels == s.reels && r.isPlaying == s.isPlaying
  {
    if |viewable| > 0 then s.(activeReelIndex := viewable[0].index) else s
  }

  /** Liking the same reel twice restores the list. */
  lemma {:induction false} HandleLikeTwice(reels: seq<Reel>, id: string)
    ensures HandleLikeIn(HandleLikeIn(reels, id), id) == reels
  {
    var once := HandleLikeIn(reels, id);
    var twice := HandleLikeIn(once, id);
    forall i | 0 <= i < |reels| ensures twice[i] == reels[i] {
      if reels[i].id == id {
        assert LikeFlipped(reels[i], once[i]);
        assert LikeFlipped(once[i], twice[i]);
      }
    }
  }

  /** An id no reel carries leaves the list as it is. */
  lemma UnknownReelKeepsList(reels: seq<Reel>, id: string)
    requires forall i | 0 <= i < |reels| :: reels[i].id != id
    ensures HandleLikeIn(reels, id) == reels
  {
  }
}
