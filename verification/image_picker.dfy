/** The image picker modal: a selection of image ids kept in insertion order
    (the component keeps them in a JavaScript `Set`), a single/multi mode
    switch, and the confirm step that turns ids into URIs for the caller. */
module ImagePicker {
  import opened JsText

  datatype ImageItem = ImageItem(id: string, uri: string)

  /** The component's state: the selected ids, oldest first, and the mode. */
  datatype Picker = Picker(selected: seq<string>, multiSelect: bool)

  /** Which optional callback props the caller passed. */
  datatype Handlers = Handlers(onSelectImage: bool, onSelectMultiple: bool)

  /** A callback invocation made by the confirm step, in call order. */
  datatype Effect = SelectImage(uri: string) | SelectMultiple(uris: seq<string>) | Close

  datatype Confirmed = Confirmed(picker: Picker, effects: seq<Effect>)

  /** The button in the footer. */
  datatype Button = Button(title: string, disabled: bool)

  /** The eight-image demo library the component ships with. */
  const MockImages: seq<ImageItem> := [
    ImageItem("1", "https://placehold.co/150x150/FF6B6B/FFFFFF?text=1"),
    ImageItem("2", "https://placehold.co/150x150/4ECDC4/FFFFFF?text=2"),
    ImageItem("3", "https://placehold.co/150x150/FFD166/000000?text=3"),
    ImageItem("4", "https://placehold.co/150x150/6A0572/FFFFFF?text=4"),
    ImageItem("5", "https://placehold.co/150x150/1A535C/FFFFFF?text=5"),
    ImageItem("6", "https://placehold.co/150x150/2EC4B6/FFFFFF?text=6"),
    ImageItem("7", "https://placehold.co/150x150/FF006E/FFFFFF?text=7"),
    ImageItem("8", "https://placehold.co/150x150/8338EC/FFFFFF?text=8")
  ]

  /** The picker as it is when the modal first mounts. */
  const Initial: Picker := Picker([], false)

  predicate NoDup(xs: seq<string>) {
    forall i, j | 0 <= i < j < |xs| :: xs[i] != xs[j]
  }

  /** `Set.prototype.delete`: `x` is gone, everything else stays in order. */
  function Remove(xs: seq<string>, x: string): (r: seq<string>)
    ensures forall y :: y in r <==> y in xs && y != x
    ensures x !in xs ==> r == xs
    ensures NoDup(xs) ==> NoDup(r)
    ensures NoDup(xs) && x in xs ==> |r| == |xs| - 1
  {
    if xs == [] then []
    else if xs[0] == x then Remove(xs[1..], x)
    else
      var rest := Remove(xs[1..], x);
      assert NoDup(xs) ==> xs[0] !in xs[1..];
      [xs[0]] + rest
  }

  /** On a list without duplicates, removing the element at `k` leaves the
      elements before it and the elements after it, in order. */
  lemma {:induction false} RemoveAt(xs: seq<string>, k: nat)
    requires NoDup(xs) && k < |xs|
    ensures Remove(xs, xs[k]) == xs[..k] + xs[k + 1..]
  {
    if k == 0 {
      assert xs[0] !in xs[1..];
    } else {
      assert xs[1..][k - 1] == xs[k];
      assert NoDup(xs[1..]);
      RemoveAt(xs[1..], k - 1);
      assert xs[1..][..k - 1] + xs[1..][k..] == xs[1..k] + xs[k + 1..];
      assert xs[..k] + xs[k + 1..] == [xs[0]] + (xs[1..k] + xs[k + 1..]);
    }
  }

  /** Removing from a list with one more element at the end. */
  lemma {:induction false} RemoveAppend(xs: seq<string>, y: string, x: string)
    ensures Remove(xs + [y], x) == Remove(xs, x) + (if y == x then [] else [y])
  {
    if xs != [] {
      assert (xs + [y])[1..] == xs[1..] + [y];
      RemoveAppend(xs[1..], y, x);
    }
  }

  /** `toggleSelect(id)`: a selected id is removed; an unselected one is
      appended, after the selection is cleared when not in multi mode. */
  function ToggleSelect(p: Picker, id: string): (r: Picker)
    ensures r.multiSelect == p.multiSelect
    ensures NoDup(p.selected) ==> NoDup(r.selected)
    ensures id in p.selected ==> r.selected == Remove(p.selected, id)
    ensures id !in p.selected && !p.multiSelect ==> r.selected == [id]
    ensures id !in p.selected && p.multiSelect ==> r.selected == p.selected + [id]
    ensures p.multiSelect ==> forall x :: x in r.selected <==> (x in p.selected <==> x != id)
  {
    if id in p.selected then p.(selected := Remove(p.selected, id))
    else if !p.multiSelect then p.(selected := [id])
    else p.(selected := p.selected + [id])
  }

  /** The "Multi" header button: the mode flips and the selection is kept. */
  function ToggleMode(p: Picker): (r: Picker)
    ensures r.selected == p.selected && r.multiSelect != p.multiSelect
  {
    p.(multiSelect := !p.multiSelect)
  }

  /** `mockImages.find(...)?.uri || ''`: the URI of the first image with that
      id, or the empty string when there is none. */
  function Lookup(library: seq<ImageItem>, id: string): (r: string)
    ensures (forall k | 0 <= k < |library| :: library[k].id != id) ==> r == ""
    ensures forall k | 0 <= k < |library| && library[k].id == id && FirstWithId(library, k) ::
      r == library[k].uri
  {
    if library == [] then ""
    else if library[0].id == id then library[0].uri
    else Lookup(library[1..], id)
  }

  predicate FirstWithId(library: seq<ImageItem>, k: nat)
    requires k < |library|
  {
    forall j | 0 <= j < k :: library[j].id != library[k].id
  }

  /** The URI of every selected id, in selection order. */
  function ResolveAll(ids: seq<string>, library: seq<ImageItem>): (r: seq<string>)
    ensures |r| == |ids|
    ensures forall i | 0 <= i < |ids| :: r[i] == Lookup(library, ids[i])
  {
    if ids == [] then [] else [Lookup(library, ids[0])] + ResolveAll(ids[1..], library)
  }

  /** `filter(Boolean)` on strings: the empty strings are dropped, order is
      kept. */
  function NonEmpty(uris: seq<string>): (r: seq<string>)
    ensures |r| <= |uris|
    ensures forall u :: u in r <==> u in uris && u != ""
    ensures (forall i | 0 <= i < |uris| :: uris[i] != "") ==> r == uris
  {
    if uris == [] then []
    else if uris[0] == "" then NonEmpty(uris[1..])
    else [uris[0]] + NonEmpty(uris[1..])
  }

  /** `filter(Boolean)` works element by element: filtering a concatenation
      concatenates the filtered halves, so order and repeats are kept. */
  lemma {:induction false} NonEmptyAppend(a: seq<string>, b: seq<string>)
    ensures NonEmpty(a + b) == NonEmpty(a) + NonEmpty(b)
  {
    if a == [] {
      assert a + b == b;
    } else {
      assert (a + b)[1..] == a[1..] + b;
      NonEmptyAppend(a[1..], b);
    }
  }

  /** A single URI is kept exactly when it is non-empty. */
  lemma NonEmptySingle(u: string)
    ensures NonEmpty([u]) == (if u == "" then [] else [u])
  {
    assert [u][1..] == [];
  }

  /** `handleConfirm`: the selected ids are resolved to URIs; in multi mode
      the non-empty ones go to `onSelectMultiple`, in single mode the first
      one goes to `onSelectImage` if it is non-empty; then the state is reset
      and `onClose` is called. */
  function Confirm(p: Picker, library: seq<ImageItem>, h: Handlers): (r: Confirmed)
    ensures r.picker == Initial
    ensures |r.effects| in {1, 2} && r.effects[|r.effects| - 1] == Close
    ensures |r.effects| == 2 <==>
      (p.multiSelect && h.onSelectMultiple)
      || (!p.multiSelect && h.onSelectImage && |p.selected| > 0 && Lookup(library, p.selected[0]) != "")
    ensures |r.effects| == 2 && p.multiSelect ==>
      r.effects[0] == SelectMultiple(NonEmpty(ResolveAll(p.selected, library)))
    ensures |r.effects| == 2 && !p.multiSelect ==>
      r.effects[0] == SelectImage(Lookup(library, p.selected[0]))
  {
    var uris := ResolveAll(p.selected, library);
    var delivered :=
      if p.multiSelect && h.onSelectMultiple then [SelectMultiple(NonEmpty(uris))]
      else if !p.multiSelect && h.onSelectImage && |uris| > 0 && uris[0] != "" then [SelectImage(uris[0])]
      else [];
    Confirmed(Initial, delivered + [Close])
  }

  /** The confirm button: disabled exactly when nothing is selected, and its
      title "Confirm (n)" carries the size of the selection. */
  function ConfirmButton(p: Picker): (b: Button)
    ensures b.disabled <==> |p.selected| == 0
    ensures |b.title| > 10 && b.title[..9] == "Confirm (" && b.title[|b.title| - 1] == ')'
    ensures IsDecimal(b.title[9..|b.title| - 1])
    ensures ParseDecimal(b.title[9..|b.title| - 1]) == |p.selected|
  {
    var digits := Decimal(|p.selected|);
    var title := "Confirm (" + digits + ")";
    assert title[9..|title| - 1] == digits;
    DecimalRoundTrip(|p.selected|);
    Button(title, |p.selected| == 0)
  }

  /** Every URI handed to a callback is non-empty and is the URI of a library
      image whose id is selected. */
  lemma {:induction false} ConfirmDeliversSelectedImages(p: Picker, library: seq<ImageItem>, h: Handlers, u: string)
    requires var e := Confirm(p, library, h).effects[0];
      (e.SelectImage? && e.uri == u) || (e.SelectMultiple? && u in e.uris)
    ensures u != ""
    ensures exists i, k | 0 <= i < |p.selected| && 0 <= k < |library| ::
      library[k].id == p.selected[i] && library[k].uri == u
  {
    var uris := ResolveAll(p.selected, library);
    assert u in uris && u != "";
    var i :| 0 <= i < |uris| && uris[i] == u;
    LookupFound(library, p.selected[i]);
  }

  /** A non-empty lookup result comes from an image with that id. */
  lemma {:induction false} LookupFound(library: seq<ImageItem>, id: string)
    requires Lookup(library, id) != ""
    ensures exists k | 0 <= k < |library| :: library[k].id == id && library[k].uri == Lookup(library, id)
  {
    if library[0].id != id {
      LookupFound(library[1..], id);
      var k :| 0 <= k < |library[1..]| && library[1..][k].id == id && library[1..][k].uri == Lookup(library, id);
      assert library[k + 1] == library[1..][k];
    }
  }

  /** In single mode a selection of at most one id stays that way under any
      tap on an image. */
  lemma SingleModeKeepsAtMostOne(p: Picker, id: string)
    requires !p.multiSelect && |p.selected| <= 1
    ensures |ToggleSelect(p, id).selected| <= 1
  {
  }

  /** Switching modes does not clear the selection, so single mode can hold
      two ids: the bound above is not an invariant of the component. */
  lemma SingleModeCanHoldTwo()
    ensures var p := ToggleMode(ToggleSelect(ToggleSelect(ToggleMode(Initial), "1"), "2"));
      !p.multiSelect && p.selected == ["1", "2"]
  {
  }

  /** In multi mode, tapping an unselected image twice gives back the same
      selection; tapping a selected one twice moves it to the end. */
  lemma MultiToggleTwice(p: Picker, id: string)
    requires p.multiSelect && NoDup(p.selected)
    ensures id !in p.selected ==> ToggleSelect(ToggleSelect(p, id), id) == p
    ensures id in p.selected ==>
      ToggleSelect(ToggleSelect(p, id), id).selected == Remove(p.selected, id) + [id]
  {
    if id !in p.selected {
      RemoveAppend(p.selected, id, id);
    }
  }

  /** Every image of the demo library resolves to its own, non-empty URI. */
  lemma MockLibraryResolves(k: nat)
    requires k < |MockImages|
    ensures Lookup(MockImages, MockImages[k].id) == MockImages[k].uri != ""
  {
    assert FirstWithId(MockImages, k);
  }
}
