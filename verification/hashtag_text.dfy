/** Caption text with tappable hashtags and mentions. The text is cut by
    `text.split(/(\s+|#\w+|@\w+)/)`: because the pattern is one capture
    group, the result alternates between the text found between matches
    (possibly empty) and the matches themselves. Each part is then styled by
    its first character. */
module HashtagText {
  import opened JsText

  datatype CharClass = Space | Word

  predicate InClass(c: char, cls: CharClass) {
    match cls
    case Space => IsSpace(c)
    case Word => IsWord(c)
  }

  /** Length of the longest prefix of `s` in the class: the greedy `+`. */
  function Run(s: string, cls: CharClass): (n: nat)
    ensures n <= |s|
    ensures forall i | 0 <= i < n :: InClass(s[i], cls)
    ensures n < |s| ==> !InClass(s[n], cls)
  {
    if |s| > 0 && InClass(s[0], cls) then 1 + Run(s[1..], cls) else 0
  }

  /** Some alternative of the pattern matches at the start of `s`. */
  predicate StartsSeparator(s: string) {
    && |s| > 0
    && (IsSpace(s[0]) || ((s[0] == '#' || s[0] == '@') && |s| > 1 && IsWord(s[1])))
  }

  /** Length of the match of `\s+|#\w+|@\w+` at the start of `s`, 0 when
      there is none. `MatchShape` says what a match looks like. */
  function SeparatorLength(s: string): (n: nat)
    ensures n <= |s|
    ensures n == 0 <==> !StartsSeparator(s)
  {
    if |s| == 0 then 0
    else if IsSpace(s[0]) then Run(s, Space)
    else if s[0] == '#' || s[0] == '@' then
      var w := Run(s[1..], Word);
      if w == 0 then 0 else 1 + w
    else 0
  }

  /** A match is a maximal run of white space, or a `#` or `@` followed by a
      maximal, non-empty run of word characters. */
  lemma MatchShape(s: string)
    ensures var n := SeparatorLength(s);
      n > 0 && IsSpace(s[0]) ==>
        (forall i | 0 <= i < n :: IsSpace(s[i])) && (n == |s| || !IsSpace(s[n]))
    ensures var n := SeparatorLength(s);
      n > 0 && !IsSpace(s[0]) ==>
        && n >= 2 && (s[0] == '#' || s[0] == '@')
        && (forall i | 1 <= i < n :: IsWord(s[i])) && (n == |s| || !IsWord(s[n]))
  {
  }

  /** The concatenation of `parts[i..]`. */
  function Rest(parts: seq<string>, i: nat): (r: string)
    requires i <= |parts|
    ensures i < |parts| ==> |parts[i]| <= |r|
    decreases |parts| - i
  {
    if i == |parts| then [] else parts[i] + Rest(parts, i + 1)
  }

  function Join(parts: seq<string>): string {
    Rest(parts, 0)
  }

  /** The split loop from the current position on: `gap` is the text read
      since the last match, `s` what is still to be read. */
  function Scan(gap: string, s: string): (parts: seq<string>)
    ensures |parts| % 2 == 1
    decreases |s|
  {
    if |s| == 0 then [gap]
    else
      var n := SeparatorLength(s);
      if n == 0 then Scan(gap + [s[0]], s[1..])
      else [gap, s[..n]] + Scan([], s[n..])
  }

  /** `text.split(/(\s+|#\w+|@\w+)/)`: an odd number of parts that join back
      to the text exactly. */
  function Split(text: string): (parts: seq<string>)
    ensures |parts| % 2 == 1
    ensures Join(parts) == text
  {
    ScanJoin([], text);
    Scan([], text)
  }

  lemma {:induction false} RestSuffix(a: seq<string>, b: seq<string>, i: nat)
    requires i <= |b|
    ensures Rest(a + b, |a| + i) == Rest(b, i)
    decreases |b| - i
  {
    if i < |b| {
      RestSuffix(a, b, i + 1);
      assert (a + b)[|a| + i] == b[i];
    }
  }

  lemma JoinSeparatorStep(gap: string, sep: string, tail: seq<string>)
    ensures Join([gap, sep] + tail) == gap + sep + Join(tail)
  {
    var parts := [gap, sep] + tail;
    RestSuffix([gap, sep], tail, 0);
    assert Rest(parts, 1) == sep + Rest(parts, 2);
  }

  lemma {:induction false} ScanJoin(gap: string, s: string)
    ensures Join(Scan(gap, s)) == gap + s
    decreases |s|
  {
    if |s| == 0 {
      assert Rest([gap], 1) == [];
    } else if SeparatorLength(s) == 0 {
      ScanJoin(gap + [s[0]], s[1..]);
      ScanNoMatch(gap, s);
      MoveHead(gap, s);
    } else {
      var n := SeparatorLength(s);
      ScanJoin([], s[n..]);
      ScanStep(gap, s, n);
      JoinSeparatorStep(gap, s[..n], Scan([], s[n..]));
      SplitAt(gap, s, n);
    }
  }

  lemma MoveHead(gap: string, s: string)
    requires |s| > 0
    ensures gap + [s[0]] + s[1..] == gap + s
  {
  }

  lemma SplitAt(gap: string, s: string, n: nat)
    requires n <= |s|
    ensures gap + s[..n] + s[n..] == gap + s
  {
    assert s[..n] + s[n..] == s;
  }

  /** Where no match starts, the character joins the gap. */
  lemma ScanNoMatch(gap: string, s: string)
    requires |s| > 0 && SeparatorLength(s) == 0
    ensures Scan(gap, s) == Scan(gap + [s[0]], s[1..])
  {
  }

  /** Where a match starts, the gap and the match become two parts. */
  lemma ScanStep(gap: string, s: string, n: nat)
    requires 0 < n == SeparatorLength(s)
    ensures Scan(gap, s) == [gap, s[..n]] + Scan([], s[n..])
  {
  }

  /** Every odd part is exactly the match the pattern makes where that part
      starts in the text, so it is a whole, maximal separator. */
  predicate OddPartsAreMatches(parts: seq<string>) {
    forall i | 0 <= i < |parts| && i % 2 == 1 ::
      SeparatorLength(Rest(parts, i)) == |parts[i]| > 0
  }

  /** No match starts anywhere inside an even part, read in the context of
      the text that follows it; positions before `from` of the first part are
      not claimed. */
  predicate EvenPartsHoldNoMatch(parts: seq<string>, from: nat) {
    forall i, k | 0 <= i < |parts| && i % 2 == 0 && (i > 0 || from <= k) && 0 <= k < |parts[i]| ::
      !StartsSeparator(Rest(parts, i)[k..])
  }

  /** Part `i` of `head + tail`, for a head of one gap and one match, is
      part `i - 2` of `tail`, with the same parity and the same rest. */
  lemma ShiftPast(head: seq<string>, tail: seq<string>, i: nat)
    requires |head| == 2 && 2 <= i < |head + tail|
    ensures Rest(head + tail, i) == Rest(tail, i - 2)
    ensures (head + tail)[i] == tail[i - 2] && (i - 2) % 2 == i % 2
  {
    RestSuffix(head, tail, i - 2);
  }

  /** The rest from the match of a head of one gap and one match. */
  lemma MatchRest(head: seq<string>, tail: seq<string>)
    requires |head| == 2
    ensures Rest(head + tail, 1) == head[1] + Join(tail)
  {
    RestSuffix(head, tail, 0);
  }

  lemma {:induction false} ScanSeparators(gap: string, s: string)
    ensures OddPartsAreMatches(Scan(gap, s))
    decreases |s|
  {
    if |s| > 0 {
      var n := SeparatorLength(s);
      if n == 0 {
        ScanSeparators(gap + [s[0]], s[1..]);
        assert Scan(gap, s) == Scan(gap + [s[0]], s[1..]);
      } else {
        ScanSeparators([], s[n..]);
        ScanJoin([], s[n..]);
        assert s[..n] + Join(Scan([], s[n..])) == s;
        MatchThenScan(gap, s[..n], Scan([], s[n..]));
      }
    }
  }

  /** A match followed by parts whose odd parts are matches gives a list
      whose odd parts are matches. */
  lemma MatchThenScan(gap: string, sep: string, tail: seq<string>)
    requires SeparatorLength(sep + Join(tail)) == |sep| > 0
    requires OddPartsAreMatches(tail)
    ensures OddPartsAreMatches([gap, sep] + tail)
  {
    var head := [gap, sep];
    var parts := head + tail;
    MatchRest(head, tail);
    forall i | 2 <= i < |parts| && i % 2 == 1
      ensures SeparatorLength(Rest(parts, i)) == |parts[i]| > 0
    {
      ShiftPast(head, tail, i);
    }
  }

  lemma {:induction false} ScanGaps(gap: string, s: string)
    ensures EvenPartsHoldNoMatch(Scan(gap, s), |gap|)
    decreases |s|
  {
    if |s| > 0 {
      var n := SeparatorLength(s);
      if n == 0 {
        var parts := Scan(gap + [s[0]], s[1..]);
        assert Scan(gap, s) == parts;
        ScanGaps(gap + [s[0]], s[1..]);
        forall i, k | 0 <= i < |parts| && i % 2 == 0 && (i > 0 || |gap| <= k) && 0 <= k < |parts[i]|
          ensures !StartsSeparator(Rest(parts, i)[k..])
        {
          if i == 0 && k == |gap| {
            ScanJoin(gap, s);
            assert Rest(parts, 0)[k..] == (gap + s)[|gap|..] == s;
          }
        }
      } else {
        var head := [gap, s[..n]];
        var tail := Scan([], s[n..]);
        var parts := head + tail;
        assert Scan(gap, s) == parts;
        ScanGaps([], s[n..]);
        forall i, k | 2 <= i < |parts| && i % 2 == 0 && 0 <= k < |parts[i]|
          ensures !StartsSeparator(Rest(parts, i)[k..])
        {
          ShiftPast(head, tail, i);
        }
      }
    }
  }

  /** The shape of `Split`: odd parts are whole matches, and no match starts
      inside an even part. */
  lemma SplitShape(text: string)
    ensures OddPartsAreMatches(Split(text))
    ensures EvenPartsHoldNoMatch(Split(text), 0)
  {
    assert Split(text) == Scan([], text);
    ScanSeparators([], text);
    ScanGaps([], text);
  }

  datatype Kind = Hashtag | Mention | Plain

  /** The style of a part is chosen by `startsWith('#')`, then
      `startsWith('@')`: by the first character, not by the pattern. */
  function Classify(part: string): (k: Kind)
    ensures k == Hashtag <==> |part| > 0 && part[0] == '#'
    ensures k == Mention <==> |part| > 0 && part[0] == '@'
  {
    if |part| > 0 && part[0] == '#' then Hashtag
    else if |part| > 0 && part[0] == '@' then Mention
    else Plain
  }

  datatype Segment = Segment(kind: Kind, text: string)

  function Texts(segs: seq<Segment>): (r: seq<string>)
    ensures |r| == |segs| && forall i | 0 <= i < |segs| :: r[i] == segs[i].text
  {
    if segs == [] then [] else [segs[0].text] + Texts(segs[1..])
  }

  /** The rendered caption: one styled segment per part, in order; the
      segments' texts put together give back the caption exactly. */
  function Render(text: string): (segs: seq<Segment>)
    ensures Texts(segs) == Split(text)
    ensures Join(Texts(segs)) == text
    ensures forall i | 0 <= i < |segs| :: segs[i].kind == Classify(segs[i].text)
  {
    var parts := Split(text);
    var segs := seq(|parts|, i requires 0 <= i < |parts| => Segment(Classify(parts[i]), parts[i]));
    assert Texts(segs) == parts;
    segs
  }

  /** A tap on a segment, given which optional callbacks were passed. */
  datatype Press = HashtagPressed(hashtag: string) | MentionPressed(mention: string) | NoPress

  /** Hashtag and mention callbacks get the part with its sigil. */
  function OnPress(seg: Segment, hasHashtagHandler: bool, hasMentionHandler: bool): (p: Press)
    requires seg.kind == Classify(seg.text)
    ensures p.HashtagPressed? ==> p.hashtag == seg.text && |seg.text| > 0 && seg.text[0] == '#'
    ensures p.MentionPressed? ==> p.mention == seg.text && |seg.text| > 0 && seg.text[0] == '@'
    ensures p == NoPress <==>
      || seg.kind == Plain
      || (seg.kind == Hashtag && !hasHashtagHandler)
      || (seg.kind == Mention && !hasMentionHandler)
  {
    match seg.kind
    case Hashtag => if hasHashtagHandler then HashtagPressed(seg.text) else NoPress
    case Mention => if hasMentionHandler then MentionPressed(seg.text) else NoPress
    case Plain => NoPress
  }

  /** A separator part styled as a hashtag (mention) is a `#` (`@`) followed
      by word characters up to the next non-word character; a separator
      styled plain is a white-space run. */
  lemma SeparatorKinds(text: string, i: nat)
    requires var parts := Split(text); i < |parts| && i % 2 == 1
    ensures var parts := Split(text); var p := parts[i];
      && |p| > 0
      && (Classify(p) == Plain <==> forall j | 0 <= j < |p| :: IsSpace(p[j]))
      && (Classify(p) != Plain ==> |p| >= 2 && forall j | 1 <= j < |p| :: IsWord(p[j]))
  {
    var parts := Split(text);
    SplitShape(text);
    var r := Rest(parts, i);
    MatchShape(r);
    assert SeparatorLength(r) == |parts[i]|;
    assert r[..|parts[i]|] == parts[i];
  }

  /** A between-matches part styled as a hashtag or mention starts with a
      sigil that is NOT followed by a word character in the text. */
  lemma GapSigilNotFollowedByWord(text: string, i: nat)
    requires var parts := Split(text);
      i < |parts| && i % 2 == 0 && Classify(parts[i]) != Plain
    ensures var r := Rest(Split(text), i); |r| == 1 || !IsWord(r[1])
  {
    SplitShape(text);
    var parts := Split(text);
    assert Rest(parts, i)[0..] == Rest(parts, i);
  }

  /** "##" matches nothing, so it is one part, yet it is styled as a hashtag. */
  lemma DoubleHashIsOnePartStyledHashtag()
    ensures Split("##") == ["##"]
    ensures Classify("##") == Hashtag
  {
    assert SeparatorLength("#") == 0 && "#"[1..] == [] && "#" + ['#'] == "##";
    assert Scan("#", "#") == ["##"];
    assert SeparatorLength("##") == 0 && "##"[1..] == "#";
    assert [] + ['#'] == "#";
    assert Split("##") == Scan([], "##") == Scan("#", "#");
  }

  lemma WordRuns()
    ensures Run("go @me!", Word) == 2 && Run("me!", Word) == 2
  {
    assert Run("!", Word) == 0;
    assert "me!"[1..] == "e!" && "e!"[1..] == "!";
    assert Run("e!", Word) == 1;
    assert "go @me!"[1..] == "o @me!" && "o @me!"[1..] == " @me!";
    assert Run(" @me!", Word) == 0;
  }

  lemma ScanMention()
    ensures Scan([], "@me!") == ["", "@me", "!"]
  {
    WordRuns();
    assert "@me!"[1..] == "me!";
    ScanStep([], "@me!", 3);
    assert "@me!"[..3] == "@me" && "@me!"[3..] == "!";
    assert SeparatorLength("!") == 0 && "!"[1..] == [] && [] + ['!'] == "!";
  }

  lemma ScanSpaceMention()
    ensures Scan([], " @me!") == ["", " ", "", "@me", "!"]
  {
    ScanMention();
    assert Run(" @me!", Space) == 1 by {
      assert " @me!"[1..] == "@me!";
    }
    ScanStep([], " @me!", 1);
    assert " @me!"[..1] == " " && " @me!"[1..] == "@me!";
  }

  /** A caption with a hashtag and a mention: a match at the very start
      leaves an empty first part, adjacent matches leave empty parts between
      them, and the last part is the text after the mention. */
  lemma CaptionExample()
    ensures Split("#go @me!") == ["", "#go", "", " ", "", "@me", "!"]
  {
    ScanSpaceMention();
    WordRuns();
    assert "#go @me!"[1..] == "go @me!";
    ScanStep([], "#go @me!", 3);
    assert "#go @me!"[..3] == "#go" && "#go @me!"[3..] == " @me!";
    assert Split("#go @me!") == Scan([], "#go @me!");
  }

  /** A caption ending in a separator: the split leaves an empty last part
      after it. */
  lemma TrailingSpaceExample()
    ensures Split("a ") == ["a", " ", ""]
  {
    assert Run(" ", Space) == 1 by {
      assert " "[1..] == [];
    }
    ScanStep("a", " ", 1);
    assert " "[..1] == " " && " "[1..] == [];
    assert SeparatorLength("a ") == 0 && "a "[1..] == " " && [] + ['a'] == "a";
    assert Split("a ") == Scan([], "a ") == Scan("a", " ");
  }
}
