# Line numbers and Godot doc links, verified in Dafny

This project models the two pieces of logic of the site's own code for a
documentation and blog site about GDScript. The rest of the repository
configures an external static-site generator.

- **The line-number plug-in for the Prism highlighter**
  (`_plugins/prism-line-numbers.js`).
  - Its `before-insert` hook puts an empty `<span class="line"></span>`
    marker at the start of a block's highlighted markup. It puts another
    after every newline that is not the last character
    (`line_markers.dfy`, module `LineMarkers`: a pure function on strings).
  - Its `after-highlight` hook skips blocks with class `language-none`.
    Otherwise it gives the `pre` element class `line-numbers`, writes a
    `counter-reset` style from `data-start`, and adds class `hl` to the
    markers selected by the space-separated ranges of `data-highlight`.
    Last, it always moves a `named-fence-filename` caption to the front.
    In `line_numbers.dfy`, module `LineNumbers`, this is the class
    `CodeBlock`. Its `lineSpans: array<bool>` holds one `hl` flag per
    marker. Its methods update the flags, the class set, the style and the
    child list in place. Pure functions state what they compute.
- **The Godot doc-link helper** (`_components/gddoc.js`). It turns
  `"<kind> <Name>.<Member>"` into an anchor pointing at the Godot class
  reference (`gd_doc.dfy`, module `GdDoc`: pure functions). The two inputs on
  which the JavaScript throws a TypeError give `Err`.
- `js_text.dfy`, module `JsText`, models the JavaScript primitives both
  scripts use: `split` with a one-character separator, `parseInt`, how a
  template literal prints a number, ASCII `toLowerCase`, and `Math.max`,
  `Math.min` and subtraction on numbers that may be NaN. NaN is `None` of
  an `Option<int>`.

The hook and the helper behave as follows in edge cases:
- A reversed range such as `3-1` is not normalised. It flags nothing.
- A non-numeric token is not an error. It flags nothing.
- A single value before the first displayed line flags the first line.
- An empty `data-start` writes `counter-reset: linenumber NaN;` and still
  counts the highlighted lines from 1.
- A bare `"Name"` reference is not read as a class link. The helper throws
  on it (`Err(NoSecondWord)`).
- A reference whose kind is neither `class` nor `method` and that has no
  member renders the text `undefined` into both the link and its text.

## Model

| member | source | states |
|---|---|---|
| `JsText.Split` | _components/gddoc.js:2-4 | at least one piece; stated by JoinSplit, SplitPiecesFree, SplitPrefix, SplitWithout, SplitAt and SplitHasSecond |
| `JsText.JoinSplit` | _components/gddoc.js:2-4 | joining the pieces of `split(sep)` with `sep` gives back the string |
| `JsText.SplitPiecesFree` | _components/gddoc.js:2-4 | no piece of a split holds the separator |
| `JsText.SplitPrefix` | _components/gddoc.js:2-4 | text without a separator in front of a string joins that string's first piece; the other pieces are unchanged |
| `JsText.SplitWithout` | _components/gddoc.js:3-4 | a string without the separator splits into itself alone |
| `JsText.SplitAt` | _components/gddoc.js:2-4 | splitting `a + sep + b`, where `a` has no separator, gives `a` and then the pieces of `b` |
| `JsText.SplitHasSecond` | _components/gddoc.js:3-4 | a second piece (JavaScript index 1) exists exactly when the separator occurs |
| `JsText.MagnitudeOfDigits` | _plugins/prism-line-numbers.js:17 | `parseInt`'s digit reading gives the value of a plain run of decimal digits |
| `JsText.ParseDigits` | _plugins/prism-line-numbers.js:17 | `parseInt` of a plain run of decimal digits is their value |
| `JsText.ParseNegated` | _plugins/prism-line-numbers.js:17 | a leading `-` negates the number `parseInt` reads |
| `JsText.ParseIntToString` | _plugins/prism-line-numbers.js:17 | `parseInt` reads back exactly the integer that a template literal prints |
| `JsText.ParseInt` | _plugins/prism-line-numbers.js:17 | stated by ParseDigits, ParseNegated, ParseEmpty and ParseIntToString |
| `JsText.ParseEmpty` | _plugins/prism-line-numbers.js:17 | `parseInt` of the empty string is NaN |
| `JsText.NumberText` | _plugins/prism-line-numbers.js:17 | stated by CounterResetOfStart (a number prints as its decimal digits) and EmptyStart (NaN prints as `NaN`) |
| `JsText.Sub` | _plugins/prism-line-numbers.js:26-27 | stated by ClampRangeLines (a NaN bound flags nothing) and EmptyStart (NaN minus 1 is NaN) |
| `JsText.MathMax` | _plugins/prism-line-numbers.js:26 | `Math.max` is NaN when an argument is, and otherwise the larger argument |
| `JsText.MathMin` | _plugins/prism-line-numbers.js:27 | `Math.min` is NaN when an argument is, and otherwise the smaller argument |
| `JsText.Lower` | _components/gddoc.js:9 | keeps the length; stated by LowerSpec |
| `JsText.LowerSpec` | _components/gddoc.js:9 | lower-casing leaves no upper-case letter, changes only upper-case letters, and is idempotent |
| `LineMarkers.InsertMarkers` | _plugins/prism-line-numbers.js:2-5 | stated by MarkerCount, StripInsertedMarkers, LastCharacterKept and InsertExamples |
| `LineMarkers.MarkNewlines` | _plugins/prism-line-numbers.js:2-5 | stated by CountMarkedNewlines, StripMarkedNewlines, MarkedLast, PrefixBeforeNewline and NoMarkerAtText |
| `LineMarkers.CountMarkers` | _plugins/prism-line-numbers.js:12-13 | stated by MarkerCount and CountMarkedNewlines; it sizes the flag array of CodeBlock.constructor |
| `LineMarkers.MarkerCount` | _plugins/prism-line-numbers.js:2-5 | markup with k newlines that are not its last character gets exactly k + 1 markers |
| `LineMarkers.CountMarkedNewlines` | _plugins/prism-line-numbers.js:2-5 | the replace adds one marker per newline that is followed by more text |
| `LineMarkers.StripInsertedMarkers` | _plugins/prism-line-numbers.js:2-5 | deleting every marker restores the original markup exactly |
| `LineMarkers.StripMarkedNewlines` | _plugins/prism-line-numbers.js:2-5 | the replace changes nothing but inserting markers |
| `LineMarkers.LastCharacterKept` | _plugins/prism-line-numbers.js:2-5 | the new markup ends with the markup's last character, so a final newline has no marker after it |
| `LineMarkers.MarkedLast` | _plugins/prism-line-numbers.js:2 | the replace keeps the last character last (the `(?!$)` lookahead) |
| `LineMarkers.PrefixBeforeNewline` | _plugins/prism-line-numbers.js:2-5 | before its first newline, the marked markup is the original markup |
| `LineMarkers.NoMarkerAtText` | _plugins/prism-line-numbers.js:2-5 | no marker is found at a character that came from the original markup |
| `LineMarkers.InsertExamples` | _plugins/prism-line-numbers.js:2-5 | `"a\nb\nc"` has 2 inner newlines; `"a\nb\n"` has 1 and gets markers only before `a` and `b` |
| `LineNumbers.StartLine` | _plugins/prism-line-numbers.js:22-23 | stated by EmptyStart (an empty `data-start` counts from 1) and CodeBlock.MarkHighlighted |
| `LineNumbers.CounterResetStyle` | _plugins/prism-line-numbers.js:17 | stated by CounterResetOfStart and EmptyStart |
| `LineNumbers.CounterResetOfStart` | _plugins/prism-line-numbers.js:15-18 | a `data-start` of S writes `counter-reset: linenumber S-1;` |
| `LineNumbers.EmptyStart` | _plugins/prism-line-numbers.js:15-23 | an empty `data-start` writes a NaN counter but counts highlighted lines from 1 |
| `LineNumbers.ReadPieces` | _plugins/prism-line-numbers.js:25 | stated by ParseSpanToken and ParseSingleToken (through UnsignedToken and NegativeToken) |
| `LineNumbers.RangeOf` | _plugins/prism-line-numbers.js:25-27 | stated by ClampRangeLines: the lines a range selects are the ones the clamped loop flags |
| `LineNumbers.ParseRange` | _plugins/prism-line-numbers.js:25 | stated by ParseSpanToken and ParseSingleToken |
| `LineNumbers.ClampRange` | _plugins/prism-line-numbers.js:26-27 | the first flagged index is at least 0 and the last at most `linesNum - 1`, so `lineSpans[i]` is in bounds |
| `LineNumbers.ClampRangeLines` | _plugins/prism-line-numbers.js:25-30 | the clamped loop flags i exactly when the token selects i: for `A-B`, A <= S + i <= B within the block; for `V`, index `max(0, V-S)` if inside the block; nothing on NaN |
| `LineNumbers.EmptySpans` | _plugins/prism-line-numbers.js:25-28 | a reversed range, one wholly after the block and one ending before the first displayed line flag nothing |
| `LineNumbers.ParseSpanToken` | _plugins/prism-line-numbers.js:25-27 | the token `"A-B"` for non-negative A and B reads as the span A..B |
| `LineNumbers.ParseSingleToken` | _plugins/prism-line-numbers.js:25-27 | the token `"V"` reads as line V when V >= 0; `"-V"` starts with an empty piece and flags nothing |
| `LineNumbers.HighlightLines` | _plugins/prism-line-numbers.js:24-31 | stated by HighlightLinesInBlock, HighlightLinesUnion, HighlightLinesOrderFree and HighlightExample |
| `LineNumbers.HighlightLinesInBlock` | _plugins/prism-line-numbers.js:24-31 | every flagged index lies in `[0, linesNum - 1]` |
| `LineNumbers.HighlightLinesUnion` | _plugins/prism-line-numbers.js:24-31 | a line is flagged exactly when some token selects it |
| `LineNumbers.HighlightLinesOrderFree` | _plugins/prism-line-numbers.js:24-31 | the flags depend only on which ranges occur, not on their order or repetition |
| `LineNumbers.TokenOrderFree` | _plugins/prism-line-numbers.js:21-31 | reordering or repeating `data-highlight` tokens changes no flag |
| `LineNumbers.MapSameMembers` | _plugins/prism-line-numbers.js:24-25 | reading two token lists with the same members gives range lists with the same members |
| `LineNumbers.HighlightExample` | _plugins/prism-line-numbers.js:22-30 | the ranges read from `10-11` and `15` (see ParseSpanToken and ParseSingleToken), from start 10 on six lines, flag indices 0, 1 and 5 |
| `LineNumbers.FindCaption` | _plugins/prism-line-numbers.js:35 | the scan from an index finds the first caption at or after it, or reports that none is there |
| `LineNumbers.FirstCaption` | _plugins/prism-line-numbers.js:35 | the query finds the first child with class `named-fence-filename`, or reports that none has it |
| `LineNumbers.CaptionFirstSpec` | _plugins/prism-line-numbers.js:35-38 | the move keeps every node, puts the first caption in front and the others in their order; without a caption, nothing changes |
| `LineNumbers.CaptionFirst` | _plugins/prism-line-numbers.js:35-37 | stated by CaptionFirstSpec and CaptionFirstIdempotent |
| `LineNumbers.PrependSpec` | _plugins/prism-line-numbers.js:37 | `prepend` of a child puts it first, keeps the other children in their order, and keeps every child |
| `LineNumbers.CaptionFirstIdempotent` | _plugins/prism-line-numbers.js:35-38 | moving the caption a second time changes nothing |
| `LineNumbers.CodeBlock.Highlighted` | _plugins/prism-line-numbers.js:20-31 | the markers CodeBlock.MarkHighlighted flags; stated by HighlightLinesUnion and TokenOrderFree |
| `LineNumbers.CodeBlock.constructor` | _plugins/prism-line-numbers.js:4-13 | a block that went through the before-insert hook has one unflagged marker per line: k + 1 for k inner newlines |
| `LineNumbers.CodeBlock.AfterHighlight` | _plugins/prism-line-numbers.js:8-39 | `language-none` blocks keep their classes, style and flags; other blocks gain `line-numbers`, get the counter style exactly when `data-start` is present, and get `hl` exactly on the selected markers; the caption move always runs |
| `LineNumbers.CodeBlock.MarkHighlighted` | _plugins/prism-line-numbers.js:20-32 | each marker keeps its flag, or gains `hl` when some `data-highlight` token selects it |
| `LineNumbers.CodeBlock.FlagTokens` | _plugins/prism-line-numbers.js:24-31 | after the loop over the tokens, each marker keeps its flag or gains `hl` exactly when some token's range selects it |
| `LineNumbers.CodeBlock.FlagToken` | _plugins/prism-line-numbers.js:25-30 | one token's clamped loop adds `hl` exactly to the markers its range selects, and changes no other flag |
| `LineNumbers.CodeBlock.FlagLines` | _plugins/prism-line-numbers.js:28-30 | the markers `from..to` gain `hl`, and no other flag changes |
| `LineNumbers.CodeBlock.MoveCaption` | _plugins/prism-line-numbers.js:35-38 | the children become the caption-first order; classes and style are untouched |
| `GdDoc.Render` | _components/gddoc.js:1-23 | stated by RenderFails, RenderShape, RenderWellFormed and RenderMemberless |
| `GdDoc.ParseReference` | _components/gddoc.js:2-4 | stated by ParseWellFormed, ParseMemberless and RenderFails |
| `GdDoc.KindSegment` | _components/gddoc.js:6-8 | stated by KindSegmentSpec |
| `GdDoc.EscapeMember` | _components/gddoc.js:10 | stated by EscapeMemberSpec |
| `GdDoc.Href` | _components/gddoc.js:12-16 | stated by RenderShape (it starts with the class page) and RenderWellFormed |
| `GdDoc.LinkText` | _components/gddoc.js:13-20 | stated by MethodParens and RenderWellFormed |
| `GdDoc.Anchor` | _components/gddoc.js:22 | stated by RenderShape |
| `GdDoc.RenderFails` | _components/gddoc.js:2-6 | the helper throws exactly when the token has no space, or is a `method` whose second word has no `.` |
| `GdDoc.RenderShape` | _components/gddoc.js:12-22 | every link is `<a class="gd-link" href="…" target="_blank"><code>…</code></a>`, and its href starts with the class page of the lower-cased Name |
| `GdDoc.ParseWellFormed` | _components/gddoc.js:2-4 | `"<kind> <Name>.<Member>"` reads back as exactly kind, Name and Member |
| `GdDoc.ParseMemberless` | _components/gddoc.js:2-4 | `"<kind> <Name>"` reads back as kind and Name, with the member undefined |
| `GdDoc.RenderWellFormed` | _components/gddoc.js:6-22 | for `class`: the class page and the text Name; otherwise the fragment `#class-<name>-<kind or private-method>-<escaped member>` and the text `Name.Member`, with `()` for a method |
| `GdDoc.RenderMemberless` | _components/gddoc.js:3-21 | without a member: a class link is unchanged, a method throws, and any other kind renders `undefined` |
| `GdDoc.ReplaceUnderscores` | _components/gddoc.js:10 | each `_` becomes `-` and every other character stays |
| `GdDoc.EscapeMemberSpec` | _components/gddoc.js:10 | the escaped member holds no `_`, and one leading `_` or `-` is dropped |
| `GdDoc.MethodParens` | _components/gddoc.js:17-20 | the text ends with `()` exactly when kind is `method`, provided Name and Member do not end in `)` themselves |
| `GdDoc.KindSegmentSpec` | _components/gddoc.js:6-8 | the fragment says `private-method` exactly for a method whose member starts with `_`, or a kind spelled so; otherwise it uses the kind verbatim |

## Left out

- `_config.ts`, `_plugins/prism-gdscript.js` and `_plugins/gitDate.ts` are not part of this model. They hold site-generator wiring, a table of regular expressions for Prism's tokenizer, and a fallback over version-control history, the file system and the clock.
- The DOM is abstract. `querySelectorAll('span.line')` becomes one flag per marker. A marker count comes from scanning the marked-up text (`LineMarkers.CountMarkers`), not from parsing HTML. The search for `.named-fence-filename` looks only at the `pre` element's own children, not deeper descendants.
- `parseInt` skips only ASCII white space, not other Unicode spaces. Numbers are unbounded integers, so huge digit strings are exact here, while JavaScript rounds them. `-0` is not distinguished from `0`.
- `toLowerCase` changes only ASCII letters.
- `LineMarkers.MarkerCount` and `LineMarkers.StripInsertedMarkers` assume markup that does not itself contain the marker text. Prism escapes `<` in source text, so highlighted markup meets this.
- `GdDoc.MethodParens`: the "ends with `()`" equivalence is stated only for a Name and Member that do not end in `)`. As written, `"class A()"` gives the text `A()` too.
