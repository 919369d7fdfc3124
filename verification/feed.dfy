/** The home feed screen: the post list held in component state, the like
    toggle, the like-burst animation flags, liking a post by pressing its image, and the label
    under each story avatar. */
module Feed {

  datatype Post = Post(
    id: string,
    user: string,
    avatar: string,
    location: string,
    image: string,
    likes: int,
    caption: string,
    comments: int,
    time: string,
    liked: bool)

  /** The screen state: the posts and the map from post id to "show the like
      burst" flag. */
  datatype FeedState = FeedState(posts: seq<Post>, animateLike: map<string, bool>)

  function Init(posts: seq<Post>): (f: FeedState)
    ensures f.posts == posts && f.animateLike == map[]
  {
    FeedState(posts, map[])
  }

  /** `after` is `before` with the like flag flipped and the count moved one
      step in the matching direction; every other field is the same. */
  predicate LikeFlipped(before: Post, after: Post) {
    && after.liked == !before.liked
    && after.likes == (if before.liked then before.likes - 1 else before.likes + 1)
    && after == before.(liked := after.liked, likes := after.likes)
  }

  /** One like toggle of a post: the flag flips and the count moves one step
      in the direction of the new flag. */
  function Flip(p: Post): Post {
    p.(liked := !p.liked, likes := if p.liked then p.likes - 1 else p.likes + 1)
  }

  /** The list map of `toggleLike`: every post whose id matches is flipped,
      every other post is kept as it is, in place. */
  function ToggleLikeIn(posts: seq<Post>, id: string): (r: seq<Post>)
    ensures |r| == |posts|
    ensures forall i | 0 <= i < |posts| && posts[i].id != id :: r[i] == posts[i]
    ensures forall i | 0 <= i < |posts| && posts[i].id == id :: LikeFlipped(posts[i], r[i])
  {
    if posts == [] then []
    else [if posts[0].id == id then Flip(posts[0]) else posts[0]] + ToggleLikeIn(posts[1..], id)
  }

  /** `toggleLike(postId)`: the posts are toggled and the animation map is
      REPLACED by one holding only `postId`, so every other post's flag is
      dropped. */
  function ToggleLike(f: FeedState, id: string): (r: FeedState)
    ensures r.posts == ToggleLikeIn(f.posts, id)
    ensures r.animateLike.Keys == {id} && r.animateLike[id]
  {
    FeedState(ToggleLikeIn(f.posts, id), map[id := true])
  }

  /** The 500 ms timer of `toggleLike` firing: it too replaces the whole map,
      here by one that maps `id` to false. The posts are untouched. */
  function ClearBurst(f: FeedState, id: string): (r: FeedState)
    ensures r.posts == f.posts
    ensures r.animateLike.Keys == {id} && !r.animateLike[id]
  {
    f.(animateLike := map[id := false])
  }

  /** `animateLike[post.id] && …`: a missing key reads as falsy. */
  predicate ShowsBurst(f: FeedState, id: string) {
    id in f.animateLike && f.animateLike[id]
  }

  /** `handleDoubleTap` on the rendered post at index `i`. The handler is the
      image's press callback, so one call is one press; only an unliked post
      is toggled, so a press on the image never unlikes. */
  function DoubleTap(f: FeedState, i: nat): (r: FeedState)
    requires i < |f.posts|
    ensures |r.posts| == |f.posts| && r.posts[i].liked
    ensures f.posts[i].liked ==> r == f
    ensures !f.posts[i].liked ==> r == ToggleLike(f, f.posts[i].id)
  {
    if !f.posts[i].liked then ToggleLike(f, f.posts[i].id) else f
  }

  /** The label under a story avatar: names longer than ten characters are
      cut to ten and given an ellipsis. */
  function StoryLabel(user: string): (r: string)
    ensures |user| <= 10 ==> r == user
    ensures |user| > 10 ==> |r| == 13 && r[..10] == user[..10] && r[10..] == "..."
    ensures |r| <= 13
  {
    if |user| > 10 then user[..10] + "..." else user
  }

  predicate UniqueIds(posts: seq<Post>) {
    forall i, j | 0 <= i < j < |posts| :: posts[i].id != posts[j].id
  }

  /** Toggling the same id twice gives back the original list, whether or not
      ids are unique. */
  lemma {:induction false} ToggleLikeTwice(posts: seq<Post>, id: string)
    ensures ToggleLikeIn(ToggleLikeIn(posts, id), id) == posts
  {
    var once := ToggleLikeIn(posts, id);
    var twice := ToggleLikeIn(once, id);
    forall i | 0 <= i < |posts| ensures twice[i] == posts[i] {
      if posts[i].id == id {
        assert LikeFlipped(posts[i], once[i]);
        assert LikeFlipped(once[i], twice[i]);
      }
    }
  }

  /** An id that no post carries leaves the list as it is. */
  lemma UnknownIdKeepsPosts(posts: seq<Post>, id: string)
    requires forall i | 0 <= i < |posts| :: posts[i].id != id
    ensures ToggleLikeIn(posts, id) == posts
  {
  }

  /** With unique ids, toggling the id of the post at `j` changes that post
      and only that post. */
  lemma ToggleChangesExactlyOne(posts: seq<Post>, j: nat)
    requires UniqueIds(posts) && j < |posts|
    ensures var r := ToggleLikeIn(posts, posts[j].id);
      && LikeFlipped(posts[j], r[j]) && r[j] != posts[j]
      && forall i | 0 <= i < |posts| && i != j :: r[i] == posts[i]
  {
  }

  /** After a toggle the burst shows for the toggled post and for no other. */
  lemma BurstOnlyForToggled(f: FeedState, id: string, other: string)
    requires other != id
    ensures ShowsBurst(ToggleLike(f, id), id)
    ensures !ShowsBurst(ToggleLike(f, other), id)
  {
  }

  /** The timer is not keyed by trigger: the clear scheduled by an earlier
      toggle of `a` drops the flag set by a later toggle of `b`. */
  lemma StaleClearDropsLaterBurst(f: FeedState, a: string, b: string)
    requires a != b
    ensures var g := ClearBurst(ToggleLike(ToggleLike(f, a), b), a);
      !ShowsBurst(g, b) && !ShowsBurst(g, a)
  {
  }

  /** A second press on the same post's image changes nothing. */
  lemma DoubleTapIdempotent(f: FeedState, i: nat)
    requires i < |f.posts|
    ensures DoubleTap(DoubleTap(f, i), i) == DoubleTap(f, i)
  {
  }
}
