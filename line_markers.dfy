/** The `before-insert` hook of _plugins/prism-line-numbers.js: before the
    highlighted markup of a code block is inserted into the page, an empty
    line marker is put at its start and after every newline that is not the
    last character of the markup (the regular expression /\n(?!$)/g, where
    `$` without the multiline flag matches only at the end of the input). */
module LineMarkers {

  /** The marker element that the stylesheet turns into a line-number cell. */
  const Marker: string := "<span class=\"line\"></span>"

  /** markup.replace(/\n(?!$)/g, '\n' + Marker) */
  function MarkNewlines(s: string): string
  {
    if s == [] then []
    else if s[0] == '\n' && |s| > 1 then "\n" + Marker + MarkNewlines(s[1..])
    else [s[0]] + MarkNewlines(s[1..])
  }

  /** The new markup the hook stores: a marker in front, then the markup with
      a marker after each newline that is followed by something. */
  function InsertMarkers(s: string): string
  {
    Marker + MarkNewlines(s)
  }

  /** The newlines of s that are not its last character. */
  function InnerNewlines(s: string): nat
  {
    if |s| <= 1 then 0
    else (if s[0] == '\n' then 1 else 0) + InnerNewlines(s[1..])
  }

  /** Whether a marker starts at position i of t. */
  predicate MarkerAt(t: string, i: nat)
    requires i <= |t|
  {
    Marker <= t[i..]
  }

  /** t holds no marker text of its own (the highlighter escapes every '<' of
      the source text, so this holds of highlighted markup). */
  predicate MarkerFree(t: string)
  {
    forall i :: 0 <= i <= |t| ==> !MarkerAt(t, i)
  }

  /** The number of markers found scanning t from left to right, each found
      marker being consumed whole: what a query for the marker elements of the
      parsed markup returns. */
  function CountMarkers(t: string): nat
  {
    if Marker <= t then 1 + CountMarkers(t[|Marker|..])
    else if t == [] then 0
    else CountMarkers(t[1..])
  }

  /** t with every marker removed, scanning from left to right. */
  function StripMarkers(t: string): string
  {
    if Marker <= t then StripMarkers(t[|Marker|..])
    else if t == [] then []
    else [t[0]] + StripMarkers(t[1..])
  }

  lemma MarkerFreeTail(s: string)
    requires s != [] && MarkerFree(s)
    ensures MarkerFree(s[1..]) && !(Marker <= s)
  {
    assert !MarkerAt(s, 0);
    forall i | 0 <= i <= |s[1..]|
      ensures !MarkerAt(s[1..], i)
    {
      assert !MarkerAt(s, i + 1);
      assert s[1..][i..] == s[i + 1..];
    }
  }

  /** A prefix of the marked markup that holds no newline is a prefix of the
      original markup: markers only ever follow a newline. */
  lemma {:induction false} PrefixBeforeNewline(p: string, s: string)
    requires '\n' !in p
    ensures p <= MarkNewlines(s) ==> p <= s
    decreases |s|
  {
    var m := MarkNewlines(s);
    if p != [] && p <= m {
      assert p[0] == m[0];
      assert s != [];
      var rest := MarkNewlines(s[1..]);
      if !(s[0] == '\n' && |s| > 1) {
        assert m == [s[0]] + rest;
        assert p[1..] <= rest;
        assert '\n' !in p[1..];
        PrefixBeforeNewline(p[1..], s[1..]);
        assert p == [s[0]] + p[1..];
      }
    }
  }

  /** What the proofs need to know of the marker text. */
  lemma MarkerShape()
    ensures |Marker| == 26 && Marker[0] == '<' && '\n' !in Marker
  {
  }

  /** Scanning the marked markup never finds a marker at a character that
      came from the markup itself. */
  lemma NoMarkerAtText(s: string)
    requires s != [] && MarkerFree(s)
    ensures !(Marker <= MarkNewlines(s)) || (s[0] == '\n' && |s| > 1)
  {
    assert !MarkerAt(s, 0);
    assert s[0..] == s;
    MarkerShape();
    PrefixBeforeNewline(Marker, s);
  }

  /** A newline followed by a marker: the scan finds that marker next. */
  lemma CountAfterNewline(rest: string)
    ensures CountMarkers("\n" + Marker + rest) == 1 + CountMarkers(rest)
    ensures StripMarkers("\n" + Marker + rest) == "\n" + StripMarkers(rest)
  {
    var t := "\n" + Marker + rest;
    assert !(Marker <= t) by { assert t[0] == '\n' && Marker[0] == '<'; }
    assert t[1..] == Marker + rest;
    assert (Marker + rest)[|Marker|..] == rest;
  }

  /** Where no marker starts, the scan steps over one character. */
  lemma ScanStep(t: string)
    requires t != [] && !(Marker <= t)
    ensures CountMarkers(t) == CountMarkers(t[1..])
    ensures StripMarkers(t) == [t[0]] + StripMarkers(t[1..])
  {
  }

  /** A character of the markup that is not an inner newline is copied, and
      the scan steps over it. */
  lemma CopiedCharacter(s: string)
    requires s != [] && MarkerFree(s) && !(s[0] == '\n' && |s| > 1)
    ensures CountMarkers(MarkNewlines(s)) == CountMarkers(MarkNewlines(s[1..]))
    ensures StripMarkers(MarkNewlines(s)) == [s[0]] + StripMarkers(MarkNewlines(s[1..]))
  {
    var t := MarkNewlines(s);
    NoMarkerAtText(s);
    assert t == [s[0]] + MarkNewlines(s[1..]);
    assert t[1..] == MarkNewlines(s[1..]);
    ScanStep(t);
  }

  /** One marker is found for each newline that is followed by something. */
  lemma {:induction false} CountMarkedNewlines(s: string)
    requires MarkerFree(s)
    ensures CountMarkers(MarkNewlines(s)) == InnerNewlines(s)
    decreases |s|
  {
    if s != [] {
      MarkerFreeTail(s);
      CountMarkedNewlines(s[1..]);
      if s[0] == '\n' && |s| > 1 {
        CountAfterNewline(MarkNewlines(s[1..]));
      } else {
        CopiedCharacter(s);
      }
    }
  }

  /** Removing the markers finds the markup exactly as it was. */
  lemma {:induction false} StripMarkedNewlines(s: string)
    requires MarkerFree(s)
    ensures StripMarkers(MarkNewlines(s)) == s
    decreases |s|
  {
    if s != [] {
      MarkerFreeTail(s);
      StripMarkedNewlines(s[1..]);
      if s[0] == '\n' && |s| > 1 {
        CountAfterNewline(MarkNewlines(s[1..]));
      } else {
        CopiedCharacter(s);
      }
      assert [s[0]] + s[1..] == s;
    }
  }

  /** The markup of a block with k inner newlines gets k + 1 markers: one per
      line, where a final newline does not open a line of its own. */
  lemma MarkerCount(s: string)
    requires MarkerFree(s)
    ensures CountMarkers(InsertMarkers(s)) == 1 + InnerNewlines(s)
  {
    CountMarkedNewlines(s);
    assert (Marker + MarkNewlines(s))[|Marker|..] == MarkNewlines(s);
  }

  /** Deleting every marker restores the original markup. */
  lemma StripInsertedMarkers(s: string)
    requires MarkerFree(s)
    ensures StripMarkers(InsertMarkers(s)) == s
  {
    StripMarkedNewlines(s);
    assert (Marker + MarkNewlines(s))[|Marker|..] == MarkNewlines(s);
  }

  /** The marked markup ends with the same character as the markup, so a
      final newline stays last, with no marker after it. */
  lemma LastCharacterKept(s: string)
    requires s != []
    ensures InsertMarkers(s) != [] && InsertMarkers(s)[|InsertMarkers(s)| - 1] == s[|s| - 1]
  {
    var m := MarkNewlines(s);
    assert m != [] && m[|m| - 1] == s[|s| - 1] by {
      MarkedLast(s);
    }
  }

  lemma {:induction false} MarkedLast(s: string)
    requires s != []
    ensures MarkNewlines(s) != [] && MarkNewlines(s)[|MarkNewlines(s)| - 1] == s[|s| - 1]
    decreases |s|
  {
    if |s| > 1 {
      MarkedLast(s[1..]);
    }
  }

  /** Three lines, and two lines ending in a newline: the final newline gets
      no marker after it. */
  lemma InsertExamples()
    ensures InnerNewlines("a\nb\nc") == 2
    ensures InnerNewlines("a\nb\n") == 1
    ensures InsertMarkers("a\nb\n") == Marker + "a\n" + Marker + "b\n"
  {
  }
}
