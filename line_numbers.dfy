/** The `after-highlight` hook of _plugins/prism-line-numbers.js. Unless the
    code element has class language-none, it gives the enclosing pre element
    class line-numbers, writes a counter reset from data-start, and adds class
    hl to the line markers that data-highlight selects; in every case it then
    moves a named-fence-filename caption to the front of its parent.

    The DOM is abstracted to a CodeBlock object: the code element's class test
    and two attributes, one flag per line marker (does it carry class hl?),
    and the pre element's class list, style attribute and children. */
module LineNumbers {
  import opened JsText
  import LineMarkers

  // ---------------------------------------------------------------------------
  // data-start
  // ---------------------------------------------------------------------------

  /** `startStr ? parseInt(startStr) : 1`: an absent or empty data-start means
      the block starts at line 1; a non-numeric one is NaN. */
  function StartLine(dataStart: Option<string>): Option<int>
  {
    if dataStart.Some? && dataStart.value != "" then ParseInt(dataStart.value) else Some(1)
  }

  /** The style attribute written for a data-start attribute with text s. */
  function CounterResetStyle(s: string): string
  {
    "counter-reset: linenumber " + NumberText(Sub(ParseInt(s), Some(1))) + ";"
  }

  /** For a data-start of S the counter is reset to S - 1, so that the first
      line, which increments it, shows S. */
  lemma CounterResetOfStart(s: int)
    ensures CounterResetStyle(IntToString(s)) == "counter-reset: linenumber " + IntToString(s - 1) + ";"
  {
    ParseIntToString(s);
  }

  /** An empty data-start still writes a style, with a NaN counter, while the
      highlighted lines are counted from 1. */
  lemma EmptyStart()
    ensures CounterResetStyle("") == "counter-reset: linenumber NaN;"
    ensures StartLine(Some("")) == Some(1)
  {
    var p := ParseInt("");
    ParseEmpty();
    assert p == None;
    assert CounterResetStyle("") == "counter-reset: linenumber " + NumberText(Sub(p, Some(1))) + ";";
  }

  // ---------------------------------------------------------------------------
  // data-highlight
  // ---------------------------------------------------------------------------

  /** `const [fromStr, toStr] = token.split('-')`, with both pieces read by
      parseInt: the first number, and the second one only when toStr is there
      and not empty (`toStr ? ... : from`). None stands for NaN. */
  datatype Pieces = Pieces(from: Option<int>, to: Option<Option<int>>)

  function ReadPieces(token: string): Pieces
  {
    var parts := Split(token, '-');
    Pieces(ParseInt(parts[0]), if |parts| >= 2 && parts[1] != "" then Some(ParseInt(parts[1])) else None)
  }

  /** What a token means: a single line, a span of lines, or, when a number
      it needs is NaN, nothing. */
  datatype Range = NotANumber | Single(line: int) | Span(first: int, last: int)

  function RangeOf(p: Pieces): Range
  {
    match p.from
    case None => NotANumber
    case Some(a) =>
      match p.to
      case None => Single(a)
      case Some(None) => NotANumber
      case Some(Some(b)) => Span(a, b)
  }

  function ParseRange(token: string): Range
  {
    RangeOf(ReadPieces(token))
  }

  /** The 0-based block lines a token selects, for a block of n lines whose
      first line is displayed as `start`. A span selects the lines whose
      displayed number lies between its two ends; a single value selects the
      line it names, or the first line when it names a line before the block. */
  function RangeLines(r: Range, start: int, n: nat): set<int>
  {
    match r
    case NotANumber => {}
    case Single(v) =>
      if v <= start then (if n > 0 then {0} else {})
      else if v - start < n then {v - start}
      else {}
    case Span(a, b) => set i | 0 <= i < n && Shows(start, i, a, b)
  }

  /** Whether the line with index i, displayed as start + i, lies in a..b. */
  predicate Shows(start: int, i: int, a: int, b: int)
  {
    a <= start + i <= b
  }

  /** Every token of the list, read. */
  function ParseRanges(tokens: seq<string>): seq<Range>
  {
    MapSeq(ParseRange, tokens)
  }

  function MapSeq<A, B>(f: A -> B, xs: seq<A>): (ys: seq<B>)
    ensures |ys| == |xs|
    ensures forall k :: 0 <= k < |xs| ==> ys[k] == f(xs[k])
  {
    seq(|xs|, k requires 0 <= k < |xs| => f(xs[k]))
  }

  /** Mapping two lists with the same members gives lists with the same
      members. */
  lemma MapSameMembers<A, B>(f: A -> B, xs: seq<A>, zs: seq<A>)
    requires forall x :: x in xs <==> x in zs
    ensures forall y :: y in MapSeq(f, xs) <==> y in MapSeq(f, zs)
  {
    var ys, ws := MapSeq(f, xs), MapSeq(f, zs);
    forall y
      ensures y in ys <==> y in ws
    {
      if y in ys {
        var k :| 0 <= k < |ys| && ys[k] == y;
        assert xs[k] in zs;
        var j :| 0 <= j < |zs| && zs[j] == xs[k];
        assert ws[j] == y;
      }
      if y in ws {
        var k :| 0 <= k < |ws| && ws[k] == y;
        assert zs[k] in xs;
        var j :| 0 <= j < |xs| && xs[j] == zs[k];
        assert ys[j] == y;
      }
    }
  }

  /** The union of what the ranges select; nothing when the start is NaN. */
  function HighlightLines(ranges: seq<Range>, start: Option<int>, n: nat): set<int>
  {
    if ranges == [] || start.None? then {}
    else HighlightLines(ranges[..|ranges| - 1], start, n) + RangeLines(ranges[|ranges| - 1], start.value, n)
  }

  /** Lines 26-27 of the hook: the first and last marker index a token flags,
      where a NaN (None) makes the flagging loop run zero times. */
  function ClampRange(p: Pieces, start: Option<int>, n: nat): (bounds: (Option<int>, Option<int>))
    ensures bounds.0.Some? ==> bounds.0.value >= 0
    ensures bounds.1.Some? ==> bounds.1.value <= n - 1
  {
    var from := MathMax(Some(0), Sub(p.from, start));
    var to := MathMin(Some(n - 1), if p.to.Some? then Sub(p.to.value, start) else from);
    (from, to)
  }

  /** The clamped index loop of the hook flags exactly the lines the token
      selects in displayed numbering. */
  lemma ClampRangeLines(p: Pieces, start: Option<int>, n: nat, i: int)
    ensures var (from, to) := ClampRange(p, start, n);
      (from.Some? && to.Some? && from.value <= i <= to.value) <==>
      (start.Some? && i in RangeLines(RangeOf(p), start.value, n))
  {
  }

  /** Every flagged index is a line of the block. */
  lemma {:induction false} HighlightLinesInBlock(ranges: seq<Range>, start: Option<int>, n: nat)
    ensures forall i :: i in HighlightLines(ranges, start, n) ==> 0 <= i < n
  {
    if ranges != [] && start.Some? {
      HighlightLinesInBlock(ranges[..|ranges| - 1], start, n);
    }
  }

  /** A line is flagged exactly when some range selects it. */
  lemma {:induction false} HighlightLinesUnion(ranges: seq<Range>, start: Option<int>, n: nat, i: int)
    ensures i in HighlightLines(ranges, start, n) <==>
      start.Some? && exists r :: r in ranges && i in RangeLines(r, start.value, n)
  {
    if ranges != [] && start.Some? {
      var init := ranges[..|ranges| - 1];
      var last := ranges[|ranges| - 1];
      HighlightLinesUnion(init, start, n, i);
      assert ranges == init + [last];
      if i in RangeLines(last, start.value, n) {
        assert last in ranges;
      }
      if r :| r in ranges && i in RangeLines(r, start.value, n) {
        assert r in init || r == last;
      }
    }
  }

  /** Adding one more range adds what it selects. */
  lemma HighlightLinesStep(ranges: seq<Range>, k: nat, start: Option<int>, n: nat, i: int)
    requires k < |ranges|
    ensures i in HighlightLines(ranges[..k + 1], start, n) <==>
      i in HighlightLines(ranges[..k], start, n) || (start.Some? && i in RangeLines(ranges[k], start.value, n))
  {
    assert ranges[..k + 1][..k] == ranges[..k];
  }

  /** The flags depend only on which ranges occur: not on their order, and
      not on how often each is repeated. */
  lemma HighlightLinesOrderFree(rs: seq<Range>, qs: seq<Range>, start: Option<int>, n: nat)
    requires forall r :: r in rs <==> r in qs
    ensures HighlightLines(rs, start, n) == HighlightLines(qs, start, n)
  {
    forall i | true
      ensures i in HighlightLines(rs, start, n) <==> i in HighlightLines(qs, start, n)
    {
      HighlightLinesUnion(rs, start, n, i);
      HighlightLinesUnion(qs, start, n, i);
    }
  }

  /** So for data-highlight tokens: reordering them or repeating one changes
      no flag. */
  lemma TokenOrderFree(ts: seq<string>, us: seq<string>, start: Option<int>, n: nat)
    requires forall t :: t in ts <==> t in us
    ensures HighlightLines(ParseRanges(ts), start, n) == HighlightLines(ParseRanges(us), start, n)
  {
    var rs, qs := ParseRanges(ts), ParseRanges(us);
    MapSameMembers(ParseRange, ts, us);
    HighlightLinesOrderFree(rs, qs, start, n);
  }

  /** A range written backwards, one lying wholly after the block, and one
      ending before the first displayed line select nothing. */
  lemma EmptySpans(a: int, b: int, start: int, n: nat)
    requires a > b || a - start >= n || b < start
    ensures RangeLines(Span(a, b), start, n) == {}
  {
    if i :| i in RangeLines(Span(a, b), start, n) {
      assert false;
    }
  }

  /** A run of decimal digits holds no '-'. */
  lemma NoDash(v: nat)
    ensures '-' !in NatToString(v)
  {
    var ds := NatToString(v);
    NatToStringDigits(v);
    forall j | 0 <= j < |ds|
      ensures ds[j] != '-'
    {
      assert IsDigit(ds[j], 10);
    }
  }

  /** "A-B" with two non-negative decimal numbers is read as the span A..B. */
  lemma ParseSpanToken(a: nat, b: nat)
    ensures ParseRange(IntToString(a) + "-" + IntToString(b)) == Span(a, b)
  {
    var sa, sb := NatToString(a), NatToString(b);
    NoDash(a);
    NoDash(b);
    SplitAt(sa, sb, '-');
    SplitWithout(sb, '-');
    assert sa + "-" + sb == sa + ['-'] + sb;
    assert Split(sa + "-" + sb, '-') == [sa, sb];
    ParseIntToString(a);
    ParseIntToString(b);
    assert ReadPieces(sa + "-" + sb) == Pieces(Some(a), Some(Some(b)));
  }

  /** "V" with V a non-negative decimal number is the single line V; "-V"
      with V positive splits into an empty first piece and selects nothing. */
  lemma ParseSingleToken(v: int)
    ensures ParseRange(IntToString(v)) == if v >= 0 then Single(v) else NotANumber
  {
    if v >= 0 {
      UnsignedToken(v);
    } else {
      NegativeToken(v);
    }
  }

  lemma UnsignedToken(v: nat)
    ensures ReadPieces(IntToString(v)) == Pieces(Some(v), None)
  {
    var ds := NatToString(v);
    NoDash(v);
    SplitWithout(ds, '-');
    ParseIntToString(v);
  }

  lemma NegativeToken(v: int)
    requires v < 0
    ensures ReadPieces(IntToString(v)).from == None
  {
    var ds := NatToString(-v);
    NoDash(-v);
    SplitAt([], ds, '-');
    assert IntToString(v) == [] + ['-'] + ds;
    ParseEmpty();
  }

  /** data-highlight="10-11 15" with data-start="10" on a block of six lines
      flags the first two lines and the sixth. */
  lemma HighlightExample()
    ensures HighlightLines([Span(10, 11), Single(15)], Some(10), 6) == {0, 1, 5}
  {
    assert [Span(10, 11), Single(15)][..1] == [Span(10, 11)];
    assert RangeLines(Span(10, 11), 10, 6) == {0, 1} by {
      forall i
        ensures i in RangeLines(Span(10, 11), 10, 6) <==> i == 0 || i == 1
      {
        assert Shows(10, i, 10, 11) <==> i == 0 || i == 1;
      }
    }
  }


  // ---------------------------------------------------------------------------
  // The caption move
  // ---------------------------------------------------------------------------

  /** A child node of the pre element: its tag and class list. */
  datatype Node = Node(tag: string, classes: set<string>)

  const CaptionClass: string := "named-fence-filename"

  predicate IsCaption(node: Node)
  {
    CaptionClass in node.classes
  }

  /** The first caption at index from or later, scanning in document order. */
  function FindCaption(nodes: seq<Node>, from: nat): (k: Option<nat>)
    requires from <= |nodes|
    ensures k.Some? ==> from <= k.value < |nodes| && IsCaption(nodes[k.value])
    ensures k.Some? ==> forall j :: from <= j < k.value ==> !IsCaption(nodes[j])
    ensures k.None? ==> forall j :: from <= j < |nodes| ==> !IsCaption(nodes[j])
    decreases |nodes| - from
  {
    if from == |nodes| then None
    else if IsCaption(nodes[from]) then Some(from)
    else FindCaption(nodes, from + 1)
  }

  /** `querySelector('.named-fence-filename')`: the first caption, if any. */
  function FirstCaption(nodes: seq<Node>): (k: Option<nat>)
    ensures k.Some? ==> k.value < |nodes| && IsCaption(nodes[k.value])
    ensures k.Some? ==> forall j :: 0 <= j < k.value ==> !IsCaption(nodes[j])
    ensures k.None? ==> forall j :: 0 <= j < |nodes| ==> !IsCaption(nodes[j])
  {
    FindCaption(nodes, 0)
  }

  /** xs with its element at k moved to the front. */
  function Prepend<T>(xs: seq<T>, k: nat): seq<T>
    requires k < |xs|
  {
    [xs[k]] + xs[..k] + xs[k + 1..]
  }

  /** `nff.parentElement.prepend(nff)` applied to the first caption. */
  function CaptionFirst(nodes: seq<Node>): seq<Node>
  {
    match FirstCaption(nodes)
    case None => nodes
    case Some(k) => Prepend(nodes, k)
  }

  /** Moving the element at k to the front keeps every element, and puts the
      others behind it in their order. */
  lemma PrependSpec<T>(xs: seq<T>, k: nat)
    requires k < |xs|
    ensures Prepend(xs, k)[0] == xs[k]
    ensures Prepend(xs, k)[1..] == xs[..k] + xs[k + 1..]
    ensures multiset(Prepend(xs, k)) == multiset(xs)
  {
    assert xs == xs[..k] + [xs[k]] + xs[k + 1..];
    assert Prepend(xs, k)[1..] == xs[..k] + xs[k + 1..];
  }

  /** The move keeps every node, puts the first caption in front, keeps the
      others in their order, and does nothing without a caption. */
  lemma CaptionFirstSpec(nodes: seq<Node>)
    ensures multiset(CaptionFirst(nodes)) == multiset(nodes)
    ensures FirstCaption(nodes).None? ==> CaptionFirst(nodes) == nodes
    ensures FirstCaption(nodes).Some? ==>
      var k := FirstCaption(nodes).value;
      CaptionFirst(nodes)[0] == nodes[k] && IsCaption(CaptionFirst(nodes)[0]) &&
      CaptionFirst(nodes)[1..] == nodes[..k] + nodes[k + 1..]
  {
    match FirstCaption(nodes)
    case None =>
    case Some(k) =>
      PrependSpec(nodes, k);
  }

  /** Moving the caption a second time changes nothing. */
  lemma CaptionFirstIdempotent(nodes: seq<Node>)
    ensures CaptionFirst(CaptionFirst(nodes)) == CaptionFirst(nodes)
  {
    CaptionFirstSpec(nodes);
    var moved := CaptionFirst(nodes);
    if FirstCaption(nodes).Some? {
      assert FirstCaption(moved) == Some(0);
      assert Prepend(moved, 0) == moved;
    }
  }

  // ---------------------------------------------------------------------------
  // The block the hook works on
  // ---------------------------------------------------------------------------

  class CodeBlock {
    /** The code element matches .language-none. */
    const languageNone: bool
    /** The code element's data-start and data-highlight attributes. */
    const dataStart: Option<string>
    const dataHighlight: Option<string>
    /** One entry per span.line marker of the code element, in document order:
        whether the marker has class hl. */
    const lineSpans: array<bool>
    /** The pre element's class list, style attribute and child nodes. */
    var preClasses: set<string>
    var preStyle: Option<string>
    var preChildren: seq<Node>

    /** A block as the page holds it after highlighting: the markup went
        through the before-insert hook, so there is one unflagged marker per
        line. */
    constructor (markup: string, languageNone: bool, dataStart: Option<string>,
                 dataHighlight: Option<string>, preClasses: set<string>,
                 preStyle: Option<string>, preChildren: seq<Node>)
      ensures this.languageNone == languageNone && this.dataStart == dataStart
      ensures this.dataHighlight == dataHighlight
      ensures this.preClasses == preClasses && this.preStyle == preStyle
      ensures this.preChildren == preChildren
      ensures fresh(lineSpans)
      ensures lineSpans.Length == LineMarkers.CountMarkers(LineMarkers.InsertMarkers(markup))
      ensures LineMarkers.MarkerFree(markup) ==> lineSpans.Length == 1 + LineMarkers.InnerNewlines(markup)
      ensures forall i :: 0 <= i < lineSpans.Length ==> !lineSpans[i]
    {
      this.languageNone := languageNone;
      this.dataStart := dataStart;
      this.dataHighlight := dataHighlight;
      this.preClasses := preClasses;
      this.preStyle := preStyle;
      this.preChildren := preChildren;
      lineSpans := new bool[LineMarkers.CountMarkers(LineMarkers.InsertMarkers(markup))](_ => false);
      if LineMarkers.MarkerFree(markup) {
        LineMarkers.MarkerCount(markup);
      }
    }

    /** The marker indices that data-highlight selects. */
    function Highlighted(): set<int>
    {
      if dataHighlight.Some? then HighlightLines(ParseRanges(Split(dataHighlight.value, ' ')), StartLine(dataStart), lineSpans.Length)
      else {}
    }

    /** The whole hook. */
    method AfterHighlight()
      modifies this, lineSpans
      ensures languageNone ==> preClasses == old(preClasses) && preStyle == old(preStyle)
      ensures languageNone ==> forall i :: 0 <= i < lineSpans.Length ==> lineSpans[i] == old(lineSpans[i])
      ensures !languageNone ==> preClasses == old(preClasses) + {"line-numbers"}
      ensures !languageNone ==> preStyle == if dataStart.Some? then Some(CounterResetStyle(dataStart.value)) else old(preStyle)
      ensures !languageNone ==> forall i :: 0 <= i < lineSpans.Length ==> lineSpans[i] == (old(lineSpans[i]) || i in Highlighted())
      ensures preChildren == CaptionFirst(old(preChildren))
    {
      if !languageNone {
        preClasses := preClasses + {"line-numbers"};
        if dataStart.Some? {
          preStyle := Some(CounterResetStyle(dataStart.value));
        }
        MarkHighlighted();
      }
      MoveCaption();
    }

    /** Lines 20-32: flag every marker a data-highlight token selects. */
    method MarkHighlighted()
      modifies lineSpans
      ensures forall i :: 0 <= i < lineSpans.Length ==> lineSpans[i] == (old(lineSpans[i]) || i in Highlighted())
    {
      if dataHighlight.Some? {
        var specs := Split(dataHighlight.value, ' ');
        var start := StartLine(dataStart);
        FlagTokens(specs, start);
      }
    }

    /** Lines 24-31: the loop over the tokens, from the start line. */
    method FlagTokens(specs: seq<string>, start: Option<int>)
      modifies lineSpans
      ensures forall i :: 0 <= i < lineSpans.Length ==>
        lineSpans[i] == (old(lineSpans[i]) || i in HighlightLines(ParseRanges(specs), start, lineSpans.Length))
    {
      ghost var ranges := ParseRanges(specs);
      for k := 0 to |specs|
        invariant forall i :: 0 <= i < lineSpans.Length ==>
          lineSpans[i] == (old(lineSpans[i]) || i in HighlightLines(ranges[..k], start, lineSpans.Length))
      {
        FlagToken(specs[k], start);
        forall i | 0 <= i < lineSpans.Length
          ensures lineSpans[i] == (old(lineSpans[i]) || i in HighlightLines(ranges[..k + 1], start, lineSpans.Length))
        {
          HighlightLinesStep(ranges, k, start, lineSpans.Length, i);
        }
      }
      assert ranges[..|specs|] == ranges;
    }

    /** Lines 25-30, one token: flag the markers its clamped bounds cover,
        which are the lines its range selects. */
    method FlagToken(token: string, start: Option<int>)
      modifies lineSpans
      ensures forall i :: 0 <= i < lineSpans.Length ==>
        lineSpans[i] == (old(lineSpans[i]) || (start.Some? && i in RangeLines(ParseRange(token), start.value, lineSpans.Length)))
    {
      var pieces := ReadPieces(token);
      var bounds := ClampRange(pieces, start, lineSpans.Length);
      if bounds.0.Some? && bounds.1.Some? {
        FlagLines(bounds.0.value, bounds.1.value);
      }
      forall i | 0 <= i < lineSpans.Length
        ensures lineSpans[i] == (old(lineSpans[i]) || (start.Some? && i in RangeLines(ParseRange(token), start.value, lineSpans.Length)))
      {
        ClampRangeLines(pieces, start, lineSpans.Length, i);
      }
    }

    /** Lines 28-30: add class hl to the markers from..to. */
    method FlagLines(from: int, to: int)
      requires 0 <= from && to < lineSpans.Length
      modifies lineSpans
      ensures forall j :: 0 <= j < lineSpans.Length ==> lineSpans[j] == (old(lineSpans[j]) || from <= j <= to)
    {
      var i := from;
      while i <= to
        invariant from <= i && (i <= to + 1 || i == from)
        invariant forall j :: 0 <= j < lineSpans.Length ==> lineSpans[j] == (old(lineSpans[j]) || from <= j < i)
      {
        lineSpans[i] := true;
        i := i + 1;
      }
    }

    /** Lines 35-38: move the first caption to the front of the pre element. */
    method MoveCaption()
      modifies this
      ensures preChildren == CaptionFirst(old(preChildren))
      ensures preClasses == old(preClasses) && preStyle == old(preStyle)
    {
      var k := FirstCaption(preChildren);
      if k.Some? {
        var nff := preChildren[k.value];
        preChildren := [nff] + preChildren[..k.value] + preChildren[k.value + 1..];
        assert preChildren == Prepend(old(preChildren), k.value);
      }
    }
  }
}
