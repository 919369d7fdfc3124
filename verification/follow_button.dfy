/** The follow button: local following state seeded from a prop, flipped on
    every press, with an optional press callback. */
module FollowButton {

  datatype Button = Button(isFollowing: bool)

  /** `useState(initialFollowing)`. */
  function Init(initialFollowing: bool): (b: Button)
    ensures b.isFollowing == initialFollowing
  {
    Button(initialFollowing)
  }

  /** `handlePress`: the state flips; the result also counts the calls made
      to `onPress` (one when the prop is passed, none otherwise). */
  function Press(b: Button, hasOnPress: bool): (r: (Button, nat))
    ensures r.0.isFollowing != b.isFollowing
    ensures r.1 == if hasOnPress then 1 else 0
  {
    (Button(!b.isFollowing), if hasOnPress then 1 else 0)
  }

  /** `n` presses in a row, with the total number of `onPress` calls. */
  function PressTimes(b: Button, n: nat, hasOnPress: bool): (r: (Button, nat))
    ensures r.0.isFollowing == (b.isFollowing != (n % 2 == 1))
    ensures r.1 == if hasOnPress then n else 0
    decreases n
  {
    if n == 0 then (b, 0)
    else
      var (b1, c1) := Press(b, hasOnPress);
      var (b2, c2) := PressTimes(b1, n - 1, hasOnPress);
      (b2, c1 + c2)
  }

  /** The label. */
  function Label(b: Button): (r: string)
    ensures r == "Following" <==> b.isFollowing
    ensures r == "Follow" <==> !b.isFollowing
  {
    if b.isFollowing then "Following" else "Follow"
  }

  /** Two presses give back the original state and label. */
  lemma PressTwiceRestores(b: Button, hasOnPress: bool)
    ensures Press(Press(b, hasOnPress).0, hasOnPress).0 == b
    ensures Label(Press(Press(b, hasOnPress).0, hasOnPress).0) == Label(b)
  {
  }
}
