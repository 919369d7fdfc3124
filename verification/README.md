# instaui interaction logic, modelled in Dafny

instaui is the client side of a photo-sharing mobile app: a home feed with
stories, a reels pager, an image picker, comment sections, story rings and
follow buttons. Nearly all of it is layout and styling. This project models
the small pieces of behaviour it does have, as pure functions over immutable
values, and proves what they promise:

- the like toggle over the feed's post list and over the reel list, the
  feed's like-burst flag map and its timer clear, liking a post by pressing
  its image, and the
  story-name label (`Feed`, `Reels`);
- the image picker's selection, kept in insertion order like the
  component's JavaScript `Set`, its single/multi mode, the confirm step, and
  the confirm button (`ImagePicker`);
- the caption tokenizer `text.split(/(\s+|#\w+|@\w+)/)` and the styling of
  each part by its first character (`HashtagText`);
- the comment list's collapsed view, the show-more control, and the send
  gate (`CommentSection`);
- the story ring's colour table and its gradient-or-plain choice
  (`StoryRing`);
- the follow button's toggle, press callback and label (`FollowButton`).

`JsText` holds what these share from the JavaScript runtime: the `\s` and
`\w` character classes, `String.prototype.trim`, and the decimal rendering of
a count inside a template string.

Component state becomes a datatype. Each state setter becomes a function
from old state to new state. An optional callback prop becomes a boolean
"was it passed", and what the component does with it is returned: the
confirm step of the image picker (`ImagePicker.Confirm`) and a comment
event (`CommentSection.Step`) return the list of invocations in order, a
follow-button press (`FollowButton.Press`) returns how many times `onPress`
was called, and a tap on a caption part (`HashtagText.OnPress`) returns the
one callback it triggers, if any.
Rendering is left out, as are the animation driver and the 500 ms timer
itself; the timer's firing is modelled as an event (`Feed.ClearBurst`).

Facts about the code that shape the model:

- The like-burst clear is not keyed by trigger. The timer set by `toggleLike`
  replaces the whole flag map with `{[postId]: false}`, so a timer from an
  earlier toggle drops the flag of a later toggle of another post
  (`Feed.StaleClearDropsLaterBurst`).
- `handleDoubleTap` is the press callback of a post's image, and nothing
  detects a double tap. A single press on an unliked post's image likes it;
  `Feed.DoubleTap` is one call of that handler, that is, one press.
- The split keeps the empty strings between adjacent separators, one
  before a separator at the very start, and one after a separator at the
  very end. For example, `"#go @me!"` gives
  `["", "#go", "", " ", "", "@me", "!"]` (`HashtagText.CaptionExample`), and
  `"a "` gives `["a", " ", ""]` (`HashtagText.TrailingSpaceExample`).
- Bookmarks, adding a comment to a post, and a modal copy of a post have no
  implementing code.
- A post holds one `image` string.
- Both screens that use the follow button render it without `isFollowing`,
  so its initial state is `undefined`, which the label and the toggle treat
  as false. The model reads an omitted prop as false.

## Model

| member | source | states |
|---|---|---|
| Feed.Init | app/index.tsx:59-60 | the screen starts with the given posts and an empty flag map |
| Feed.ToggleLikeIn | app/index.tsx:64-74 | same length and order; a post whose id matches has `liked` flipped and `likes` moved by −1 if it was liked, +1 if not, every other field kept; every other post is unchanged |
| Feed.ToggleLike | app/index.tsx:63-77 | the posts are toggled and the flag map is replaced by one holding only the toggled id, set to true; flags of other posts are dropped |
| Feed.ClearBurst | app/index.tsx:78-80 | the timer's firing leaves the posts alone and replaces the flag map by one holding only that id, set to false |
| Feed.DoubleTap | app/index.tsx:102-140 | one press on a post's image (the handler is its `onPress`): the pressed post always ends up liked; a liked post leaves the whole state unchanged; an unliked one is a like toggle |
| Feed.StoryLabel | app/index.tsx:94 | names of at most 10 characters are shown unchanged; longer ones become their first 10 characters plus "...", so a label is never longer than 13 |
| Feed.ToggleLikeTwice | app/index.tsx:66-72 | with like counts as exact integers, toggling the same id twice restores the original list, even when ids repeat |
| Feed.UnknownIdKeepsPosts | app/index.tsx:65-73 | an id no post carries leaves the list unchanged |
| Feed.ToggleChangesExactlyOne | app/index.tsx:65-73 | with unique ids, exactly the post with that id changes |
| Feed.BurstOnlyForToggled | app/index.tsx:77 | after a toggle the burst shows for the toggled post and for no other |
| Feed.StaleClearDropsLaterBurst | app/index.tsx:77-80 | toggling a then b, then a's timer firing, leaves no burst for either post |
| Feed.DoubleTapIdempotent | app/index.tsx:118-120 | a second press on the same post's image changes nothing |
| Reels.Init | app/reels.tsx:45-47 | the active reel index starts at 0 and playback starts on |
| Reels.HandleLikeIn | app/reels.tsx:52-62 | same length and order; a matching reel has `liked` flipped and `likes` moved by ±1, with id, username, avatar, caption, comments and shares unchanged; other reels are unchanged |
| Reels.HandleLike | app/reels.tsx:51-63 | liking changes only the reel list, not the active index or playback |
| Reels.OnViewableItemsChanged | app/reels.tsx:65-69 | a non-empty report makes its first item's index active; an empty report changes nothing |
| Reels.HandleLikeTwice | app/reels.tsx:53-61 | with like counts as exact integers, liking the same reel twice restores the list |
| Reels.UnknownReelKeepsList | app/reels.tsx:53-61 | an unknown reel id leaves the list unchanged |
| ImagePicker.Remove | app/components/ui/ImagePickerModal.tsx:51-52 | deleting an id leaves exactly the other ids, still without duplicates, one shorter if it was there, and the list unchanged if it was not there |
| ImagePicker.RemoveAt | app/components/ui/ImagePickerModal.tsx:51-52 | on a duplicate-free selection, deleting the id at position k leaves the ids before it followed by the ids after it, in their order, which is what `Array.from` later reads |
| ImagePicker.ToggleSelect | app/components/ui/ImagePickerModal.tsx:49-60 | a selected id is removed and the rest kept; an unselected id becomes the whole selection in single mode and is appended in multi mode; in multi mode membership flips for that id only; no duplicates appear |
| ImagePicker.ToggleMode | app/components/ui/ImagePickerModal.tsx:104-106 | switching mode keeps the selection |
| ImagePicker.Lookup | app/components/ui/ImagePickerModal.tsx:63-66 | an id resolves to the URI of the first library image with that id, or to the empty string when none has it |
| ImagePicker.ResolveAll | app/components/ui/ImagePickerModal.tsx:63-66 | every selected id is resolved, in selection order |
| ImagePicker.NonEmpty | app/components/ui/ImagePickerModal.tsx:69 | exactly the non-empty URIs are kept; a list with no empty URI is kept whole |
| ImagePicker.NonEmptyAppend | app/components/ui/ImagePickerModal.tsx:69 | filtering works element by element: the filter of a concatenation is the concatenation of the filters, so order and repeats are kept |
| ImagePicker.NonEmptySingle | app/components/ui/ImagePickerModal.tsx:69 | a single URI is kept exactly when it is non-empty; with `NonEmptyAppend` this fixes the filter's output for every list |
| ImagePicker.Confirm | app/components/ui/ImagePickerModal.tsx:62-77 | the state resets to an empty single-mode selection, and the close callback is always called last; a select callback is called first exactly when multi mode has `onSelectMultiple` (which gets the non-empty URIs), or single mode has `onSelectImage` and a non-empty first URI (which it gets) |
| ImagePicker.ConfirmDeliversSelectedImages | app/components/ui/ImagePickerModal.tsx:62-71 | every URI handed to a callback is non-empty and belongs to a library image whose id is selected |
| ImagePicker.LookupFound | app/components/ui/ImagePickerModal.tsx:64-65 | a non-empty lookup result is the URI of a library image with that id |
| ImagePicker.ConfirmButton | app/components/ui/ImagePickerModal.tsx:160-166 | the button is disabled exactly when nothing is selected, and the number in its "Confirm (n)" title reads back as the selection size |
| ImagePicker.SingleModeKeepsAtMostOne | app/components/ui/ImagePickerModal.tsx:49-60 | in single mode, a selection of at most one id stays at most one after a tap |
| ImagePicker.SingleModeCanHoldTwo | app/components/ui/ImagePickerModal.tsx:104-106 | selecting two in multi mode and switching back leaves two selected in single mode, so the bound is not an invariant |
| ImagePicker.MultiToggleTwice | app/components/ui/ImagePickerModal.tsx:53-57 | in multi mode, tapping an unselected image twice restores the selection; tapping a selected one twice moves it to the end |
| ImagePicker.MockLibraryResolves | app/components/ui/ImagePickerModal.tsx:28-37 | every image of the demo library resolves to its own non-empty URI |
| HashtagText.Run | app/components/ui/HashtagText.tsx:25 | the greedy `+`: the longest prefix in the character class (`JsText.IsSpace` for `\s`, `JsText.IsWord` for `\w`), with the next character outside it |
| HashtagText.SeparatorLength | app/components/ui/HashtagText.tsx:25 | the match at a position is non-empty exactly when one of the three alternatives can start there |
| HashtagText.MatchShape | app/components/ui/HashtagText.tsx:25 | a match is a maximal white-space run, or `#`/`@` followed by a maximal non-empty run of word characters |
| HashtagText.Scan | app/components/ui/HashtagText.tsx:25 | the split loop, reading a gap up to the next match: it always yields an odd number of parts (the alternation of gaps and matches is proved by `HashtagText.ScanSeparators` and `HashtagText.ScanGaps`) |
| HashtagText.Split | app/components/ui/HashtagText.tsx:25 | the parts are odd in number and join back to the text exactly |
| HashtagText.ScanJoin | app/components/ui/HashtagText.tsx:25 | the split loop loses and adds nothing: its parts join to the text read |
| HashtagText.SplitShape | app/components/ui/HashtagText.tsx:25 | every odd part is the whole match at that point of the text, and no match starts inside an even part |
| HashtagText.ScanSeparators | app/components/ui/HashtagText.tsx:25 | the split loop puts whole matches at odd positions |
| HashtagText.ScanGaps | app/components/ui/HashtagText.tsx:25 | the split loop leaves no match start inside a between-matches part |
| HashtagText.Classify | app/components/ui/HashtagText.tsx:30-51 | a part is a hashtag iff it starts with `#`, a mention iff it starts with `@`, plain otherwise |
| HashtagText.SeparatorKinds | app/components/ui/HashtagText.tsx:25-40 | a match styled plain is white space; a match styled hashtag or mention is the sigil followed by word characters |
| HashtagText.GapSigilNotFollowedByWord | app/components/ui/HashtagText.tsx:25-30 | a between-matches part styled hashtag or mention has a sigil not followed by a word character |
| HashtagText.DoubleHashIsOnePartStyledHashtag | app/components/ui/HashtagText.tsx:25-30 | "##" matches nothing, so it stays one part, yet it is styled as a hashtag |
| HashtagText.CaptionExample | app/components/ui/HashtagText.tsx:25 | "#go @me!" splits into "", "#go", "", " ", "", "@me", "!" |
| HashtagText.TrailingSpaceExample | app/components/ui/HashtagText.tsx:25 | `"a "` splits into `["a", " ", ""]`: a separator at the very end leaves an empty last part |
| HashtagText.Render | app/components/ui/HashtagText.tsx:29-56 | the segments' texts are exactly the parts of `Split`, in order, so they join back to the caption, and each segment's style is its text's first-character class |
| HashtagText.OnPress | app/components/ui/HashtagText.tsx:30-49 | hashtag and mention callbacks get the part with its sigil; nothing is called for plain parts or for a callback that was not passed |
| CommentSection.DisplayComments | app/components/ui/CommentSection.tsx:37 | the shown comments are a prefix of the list: all of them when expanded, min(2, n) when collapsed |
| CommentSection.ShowsMoreIffHidden | app/components/ui/CommentSection.tsx:90 | the show-more control is rendered exactly when the shown list hides some comments |
| CommentSection.ShowMoreLabel | app/components/ui/CommentSection.tsx:98 | the label reads "View all N comments" with N reading back as the comment count |
| CommentSection.Step | app/components/ui/CommentSection.tsx:91-131 | show-more only sets the expanded flag, typing only sets the text, a blank send changes nothing, a non-blank send clears the input and passes the untrimmed text to the callback if it was passed; expanding is never undone |
| CommentSection.Run | app/components/ui/CommentSection.tsx:91-131 | over any run of events, expanded stays expanded, no blank text ever reaches the callback, and nothing is passed when it is absent |
| CommentSection.SendDisabledIffBlank | app/components/ui/CommentSection.tsx:132 | the send button is disabled exactly when the text is empty or all white space |
| CommentSection.SendGate | app/components/ui/CommentSection.tsx:126-131 | a blank send neither calls back nor changes the input; a non-blank send clears the input and passes the untrimmed text |
| JsText.Trim | app/components/ui/CommentSection.tsx:127 | the trimmed text is the middle of the input, neither starts nor ends with white space, and everything cut from either end is white space |
| JsText.TrimEmptyIffAllSpace | app/components/ui/CommentSection.tsx:127 | a text trims to nothing exactly when it is all white space |
| JsText.Decimal | app/components/ui/ImagePickerModal.tsx:161 | a count renders as decimal digits with no leading zero |
| JsText.DecimalRoundTrip | app/components/ui/ImagePickerModal.tsx:161 | the rendered count reads back as the count |
| StoryRing.BorderColors | app/components/ui/StoryRing.tsx:26-30 | no story gives two #e0e0e0 whatever `isViewed` is; a viewed story gives two #d0d0d0; an unviewed story gives #ff4458 to #fcb045 |
| StoryRing.RingFor | app/components/ui/StoryRing.tsx:40-63 | the gradient is drawn iff there is an unviewed story; otherwise the border uses the first colour, 2 wide with a story and 1.5 without |
| StoryRing.GradientIffDistinctColors | app/components/ui/StoryRing.tsx:23-40 | the gradient is drawn exactly when the two colours differ, without a story `isViewed` makes no difference, and a story whose `isViewed` is left out (default false) draws the gradient |
| FollowButton.Init | app/components/ui/FollowButton.tsx:20 | the following state starts as the prop |
| FollowButton.Press | app/components/ui/FollowButton.tsx:23-39 | each press flips the following state and calls `onPress` once if it was passed |
| FollowButton.PressTimes | app/components/ui/FollowButton.tsx:37-38 | after n presses the state is flipped iff n is odd, and `onPress` was called n times if it was passed |
| FollowButton.Label | app/components/ui/FollowButton.tsx:62 | the label is "Following" iff following, and "Follow" otherwise |
| FollowButton.PressTwiceRestores | app/components/ui/FollowButton.tsx:37 | two presses restore the state and the label |

## Left out

- Feed.ToggleLikeIn: like counts are exact integers. A JavaScript number is an IEEE double, exact only below 2^53; from there on `likes ± 1` rounds to the nearest double (ties to even), so one step can add or remove 0 or 2 instead of 1 (a like on 2^53 gives 2^53, a like on 2^53+2 gives 2^53+4).
- Feed.ToggleLikeTwice: proved for exact integer counts only. With IEEE doubles two toggles fail to restore some counts of 2^53 and more (an unliked post at 2^53 ends at 2^53 − 1; at 2^53+2 it ends at 2^53+4; a liked post at 2^53+2 ends at 2^53) and restore others (2^53+4, and every count from 2^54 on, where both steps round away).
- Reels.HandleLikeIn: like counts are exact integers, whereas the app's are IEEE doubles, exact only below 2^53; from there on `likes ± 1` rounds to the nearest double (ties to even), so one step can change the count by 0 or 2, as for the feed.
- Reels.HandleLikeTwice: proved for exact integer counts only. With IEEE doubles two toggles fail to restore some counts of 2^53 and more (2^53 unliked, 2^53+2 liked or unliked) and restore others (2^53+4, every count from 2^54 on), as for the feed.
- Rendering, styles, layout, icons and the `Animated` scale sequences: they belong to the UI framework.
- The 500 ms delay of the like-burst clear: the timer's firing is the event `Feed.ClearBurst`, and when it fires is not modelled.
- Stale closures: several handlers read state as it was last rendered. `handleDoubleTap` reads the post's `liked` flag, `handlePress` the following state, `toggleSelect` the selection it copies with `new Set(selected)` (ImagePickerModal.tsx:50), `handleConfirm` the selection it reads with `Array.from(selected)` (ImagePickerModal.tsx:63), and the send handler `commentText` (CommentSection.tsx:126-128). The model takes all of them from the current state. This assumes a render happens between two events.
- Feed.StoryLabel: lengths are counted in characters (code points), whereas JavaScript's `length` and `substring` count UTF-16 code units. A name with characters outside the Basic Multilingual Plane can therefore be cut at a different place.
- Reels.OnViewableItemsChanged: a view token's index is an integer; the framework's nullable index is not modelled.
- The `isPlaying` flag of the reels screen is only initialised; nothing in the screen changes it.
- `toLocaleString` of like counts: its output depends on the locale.
- The gallery index of the image gallery: it is a floating-point division and rounding.
- Navigation, theming, the other screens' tab state, and the presentational components (buttons, avatars, cards, post header, actions and stats, message bubbles): they carry no behaviour beyond the toggles modelled here.
- Comment liking, bookmarks and adding a comment: the components only forward these to optional callbacks, and no screen implements them.
- The mock data arrays, apart from the image picker's eight-image library (`ImagePicker.MockImages`), which its confirm step resolves ids against. `ImagePicker.Confirm` takes the library as a parameter.
