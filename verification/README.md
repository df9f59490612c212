# SVG preview: a Dafny model of its core

This project models the core of a VS Code extension that previews an SVG
document beside its editor and keeps the two in step:

- **The element locator** (`src/svgPreviewPanel.ts`). When the editor's cursor moves,
  `findElementAtOffset` scans the document's tags with a regular expression. It numbers
  the elements by their sibling indices (their *address*) with a stack of open elements,
  and picks the deepest element whose range holds the cursor. For a `<path>`,
  `findPathSegmentAtOffset` finds the `d` attribute. `parsePathSegmentAtCursor` then
  tokenizes that path data, builds its segments with a running pen position, and picks
  the segment under the cursor. `toSegmentInfo` turns that segment into the message's
  `segment`. `highlightAtCursor` posts `{path, segment}` to the preview page.
- **The renderer** (`media/main.js`). The page script keeps a view transform, the
  highlighted element and the last address it centred on. It handles the `update` and
  `highlight` messages: it walks the address down the rendered tree and re-centres and
  zooms on a newly addressed element (`centerOnElement`). It also redraws the
  segment-highlight and polygon-point overlays.
- **The formatter** (`src/svgFormatter.ts`). `formatSvg` puts the attributes of each
  element that has more than one on separate lines. It lays out path `d` values one
  command per line and `points` values one `x,y` pair per line. The formatting provider
  turns the result into one whole-document edit, or none.

Regular expressions are modelled as explicit scanners with the leftmost-match semantics
of the JavaScript engine. Loops in the source are methods proved equal to a
specification function (`ensures r == Spec(...)`), and the properties are proved about
that function. The renderer's mutable module state is the class `Renderer.Renderer`.
Each handler of that class is proved to perform one step of the state machine
`Renderer.OnMessage`.

Two reference readings check the builders:
- **`PathGroups.Groups`.** It reads the path tokens directly: each command letter owns the numbers up to the next letter and cuts them into groups of its argument count. A move continues as lines. `PathGroups.SegmentsFollowGroups` proves that the builder produces exactly these segments.
- **`ElementNumbering.Handed`.** It lists the addresses the locator hands out. `ElementNumbering.DenseNumbering` proves that sibling indices are dense.

In these places the model follows the code:

- On a tie in depth, the locator keeps the earliest recorded element. The code's strict
  `>` does this.
- A closing tag pops whatever element is open, whatever its name.
- The renderer walks the address on every `highlight` message, not only when it changes.
  It re-centres only when the address changes.
- There is no bounding-box overlay and no recomputation of overlay positions.
- `formatSvg` computes the indent of a `d`/`points` value from the text as it was
  before that pass (`getIndent(result, offset)` on the pass's input).

## Model

| member | source | states |
|---|---|---|
| TagScanner.TagAt | src/svgPreviewPanel.ts:169 | a tag match starts at `<`, ends at `>`, has a non-empty name, is a closing tag exactly when `/` follows the `<`, and a self-closing one ends in `/>` |
| TagScanner.TagAtNoGt | src/svgPreviewPanel.ts:169 | the lazy `[^>]*?` part of a tag match holds no `>`: the match ends at the first `>` |
| TagScanner.Scan | src/svgPreviewPanel.ts:183-189 | the `exec` loop yields tags in text order, without overlap, each a match of the pattern at its own start |
| TagScanner.ScanComplete | src/svgPreviewPanel.ts:183-189 | the scan misses no tag: a position not covered by a scanned tag starts no match |
| ElementLocator.Deepest | src/svgPreviewPanel.ts:248-255 | the selection finds nothing exactly when no element contains the offset; otherwise it finds one with the longest address, and every earlier one containing the offset is strictly shallower |
| ElementLocator.DeepestStep | src/svgPreviewPanel.ts:250-254 | one iteration of the selection loop: the element replaces the best so far exactly when it contains the offset and is strictly deeper |
| ElementLocator.IndexTags | src/svgPreviewPanel.ts:183-233 | the scanning loop over the tags leaves the stack, root counter and element list that the fold `Run` of `Step` defines |
| ElementLocator.IndexTag | src/svgPreviewPanel.ts:191-232 | one iteration of the scanning loop performs `Step` on the stack, the root counter and the element list |
| ElementLocator.Step | src/svgPreviewPanel.ts:191-232 | a tag never removes or reorders a recorded element; a closing tag keeps the number of open plus recorded elements, and any other tag adds one; a closing tag on an empty stack changes nothing, and otherwise pops the top frame whatever its name and records it ending at the closing tag's end |
| ElementLocator.Run | src/svgPreviewPanel.ts:183-233 | after the loop there are no more recorded elements, and no more open ones, than tags |
| ElementLocator.CloseUnclosed | src/svgPreviewPanel.ts:236-245 | the loop over unclosed elements returns `Drain`: the frames still open, recorded top first after the elements recorded before, each ranging to the end of the text |
| ElementLocator.Drain | src/svgPreviewPanel.ts:236-245 | closing the unclosed elements keeps the elements recorded so far, in order, ahead of them, and appends one element per open frame, top first, ranging to the end of the text |
| ElementLocator.SelectDeepest | src/svgPreviewPanel.ts:248-255 | the selection loop returns the element `Deepest` picks, or none |
| ElementLocator.FindElementAtOffset | src/svgPreviewPanel.ts:168-266 | `findElementAtOffset` returns `ElementAt`: the deepest element of the index containing the offset, or nothing |
| ElementLocator.ElementAt | src/svgPreviewPanel.ts:247-265 | nothing is found exactly when no element of the index contains the offset; otherwise the result describes a containing element, and no containing element has a longer address |
| ElementIndexFacts.ElementsWellFormed | src/svgPreviewPanel.ts:183-245 | every recorded element has a non-empty opening tag inside the text, a range that ends within the text after the tag, and a non-empty address |
| ElementIndexFacts.ElementAddressesDistinct | src/svgPreviewPanel.ts:183-245 | no two recorded elements share an address, so an address names one element |
| ElementIndexFacts.RunCount | src/svgPreviewPanel.ts:183-233 | after the scanning loop, recorded plus still-open elements are exactly the opening and self-closing tags seen |
| ElementIndexFacts.DrainCount | src/svgPreviewPanel.ts:236-245 | closing the unclosed elements records each open one exactly once |
| ElementIndexFacts.ElementCount | src/svgPreviewPanel.ts:183-245 | the index holds exactly one element per opening or self-closing tag of the text |
| ElementIndexFacts.RunEnds | src/svgPreviewPanel.ts:191-213 | every element the scanning loop records ends where a closing or self-closing tag ends |
| ElementIndexFacts.DrainEnds | src/svgPreviewPanel.ts:236-245 | the elements the unclosed-element loop adds range to the end of the text |
| ElementIndexFacts.ElementRangeEnds | src/svgPreviewPanel.ts:191-245 | every indexed element ranges to the end of the text or to the end of a closing or self-closing tag of the scan |
| ElementIndexFacts.NextAddressFresh | src/svgPreviewPanel.ts:202-231 | the address a new element receives is its parent's address extended by one index, and no recorded address starts with it |
| ElementNumbering.StepNumbered | src/svgPreviewPanel.ts:191-232 | each tag keeps the numbering invariant: every counter is the number of addresses handed out under its frame, the handed-out addresses are those of the recorded and open elements, and sibling indices are dense |
| ElementNumbering.RunNumbered | src/svgPreviewPanel.ts:183-233 | the numbering invariant holds after the scanning loop |
| ElementNumbering.DenseNumbering | src/svgPreviewPanel.ts:183-245 | one address is handed out per opening or self-closing tag; the handed-out addresses are exactly those of the indexed elements; and the last index of each is the number of addresses handed out before it under the same parent, so siblings are numbered 0, 1, 2, … without gaps |
| Highlight.OpeningQuote | src/svgPreviewPanel.ts:288 | the `\bd\s*=\s*(['"])` part of the `d` pattern: a `d` at a word boundary, then the first quote after it |
| Highlight.DAttrAt | src/svgPreviewPanel.ts:288 | a match of the `d` pattern at `i`: a word-boundary `d`, an opening quote with no quote before it, and the first matching quote after it closing the value |
| Highlight.FirstDAttr | src/svgPreviewPanel.ts:288 | `match` finds a match of the pattern at or after the search start |
| Highlight.FirstDAttrLeftmost | src/svgPreviewPanel.ts:288 | the match found is the leftmost: no position before it starts a match, and none at all when there is no match |
| Highlight.DAttributeIs | src/svgPreviewPanel.ts:287-296 | the value and its start offset are computed from the leftmost match of the tag's substring |
| Highlight.DAttribute | src/svgPreviewPanel.ts:287-296 | a `d` value is found exactly when the `d` pattern matches the opening tag's substring |
| Highlight.QuoteFoundByIndexOf | src/svgPreviewPanel.ts:295 | `dMatch[0].indexOf(quoteChar)` finds the opening quote of the match |
| Highlight.DAttributeLocated | src/svgPreviewPanel.ts:287-296 | a found `d` value lies inside the opening tag, between two equal quotes, is the text at its offset, and holds no quote of its own kind |
| Highlight.PathSegmentNeedsD | src/svgPreviewPanel.ts:289-291 | with no `d` attribute there is no segment |
| Highlight.PathSegmentInD | src/svgPreviewPanel.ts:298-304 | with a `d` value, the segment is the one at the cursor's offset into the value when the cursor lies in the value, ends included, and none otherwise |
| Highlight.SegmentInD | src/svgPreviewPanel.ts:298-304 | a segment is found only when there is a `d` value and the offset lies in it, ends included |
| Highlight.PathSegmentAt | src/svgPreviewPanel.ts:281-305 | a segment is found only when the tag has a `d` value and the offset lies in that value, ends included |
| Highlight.FindPathSegmentAtOffset | src/svgPreviewPanel.ts:281-305 | `findPathSegmentAtOffset` returns `PathSegmentAt` |
| Highlight.SegmentInDAttribute | src/svgPreviewPanel.ts:292-304 | the range test and the call into the path parser return `SegmentInD` |
| Highlight.HighlightAtCursor | src/svgPreviewPanel.ts:92-107 | `highlightAtCursor` posts `HighlightFor(text, offset)` |
| Highlight.HighlightPath | src/svgPreviewPanel.ts:92-107 | the posted `path` is present exactly when some element contains the cursor, and it is the address of such an element of greatest depth |
| Highlight.HighlightForElement | src/svgPreviewPanel.ts:98-106 | the posted message carries the found element's address, and a segment only when that element is a `path` |
| Highlight.HighlightFor | src/svgPreviewPanel.ts:92-107 | the message has no `path` exactly when no element is found; otherwise its `path` is the found element's address, and it has a segment only when that element is a `path` |
| Highlight.ElementsWellFormedAt | src/svgPreviewPanel.ts:183-245 | an indexed element's opening tag lies inside the text, so its substring is the tag |
| PathTokens.DigitsEnd | src/svgPreviewPanel.ts:320 | `\d+`/`\d*` consume exactly the digits that follow |
| PathTokens.NumberAt | src/svgPreviewPanel.ts:320 | a number match `-?\d*\.?\d+(?:e[+-]?\d+)?` starts with a digit, `-` or `.` and ends with a digit |
| PathTokens.TokenAt | src/svgPreviewPanel.ts:320-328 | a token found at a position starts there and its span is a match of the token pattern |
| PathTokens.Tokenize | src/svgPreviewPanel.ts:318-329 | the `exec` loop yields tokens in text order, without overlap, each a match of the pattern at its recorded span |
| PathTokens.TokenizeComplete | src/svgPreviewPanel.ts:320-329 | the `exec` loop misses no token: no match of the token pattern starts at a position that no token covers |
| PathTokens.NumeralValue | src/svgPreviewPanel.ts:412 | `Number(tok.value)` is non-negative unless the numeral starts with `-` and non-positive when it does, and a run of digits has its decimal value |
| PathTokens.Prepend | src/svgPreviewPanel.ts:323-328 | pushing a token keeps the later tokens in order behind it |
| PathParser.CommandLetterFacts | src/svgPreviewPanel.ts:277-279 | the argument count of a letter does not depend on its case, and it is 0 only for `Z`/`z` |
| PathParser.FlushStep | src/svgPreviewPanel.ts:342-392 | `flush()` keeps the command, the arguments and the argument count, keeps the earlier segments, and appends one segment exactly when a command is pending |
| PathParser.CommandStep | src/svgPreviewPanel.ts:395-411 | a command letter clears the arguments and appends at most two segments (a pending complete group and a `Z`); the letter stays pending exactly when it takes arguments, with its argument count and its own span |
| PathParser.NumberStep | src/svgPreviewPanel.ts:411-428 | a number ends the current span at itself and appends at most one segment; it is added to the arguments exactly when it does not complete the group, and a complete group clears them |
| PathParser.Step | src/svgPreviewPanel.ts:394-429 | a token keeps the segments built so far and appends at most two |
| PathParser.Run | src/svgPreviewPanel.ts:394-429 | the token loop only appends segments, at most two per token |
| PathParser.SegmentBuilder.constructor | src/svgPreviewPanel.ts:332-340 | the builder starts with no command, no arguments and the pen at the origin |
| PathParser.SegmentBuilder.Flush | src/svgPreviewPanel.ts:342-392 | `flush()` performs `FlushStep` on the builder's variables |
| PathParser.SegmentBuilder.MovePen | src/svgPreviewPanel.ts:350-381 | the `switch` of `flush` moves the pen as the command's arguments say, and only `M` moves the sub-path start |
| PathParser.SegmentBuilder.Feed | src/svgPreviewPanel.ts:394-429 | one iteration of the token loop performs `Step` |
| PathParser.SegmentBuilder.FeedCommand | src/svgPreviewPanel.ts:395-411 | a command token performs `CommandStep` |
| PathParser.SegmentBuilder.FeedNumber | src/svgPreviewPanel.ts:411-428 | a number token performs `NumberStep` |
| PathParser.SegmentBuilder.CompleteGroup | src/svgPreviewPanel.ts:418-427 | a complete argument group is flushed, and a move continues as implicit lines |
| PathParser.ParseSegments | src/svgPreviewPanel.ts:331-433 | the segment-building loop returns the segments of the fold `Run` over the tokens |
| PathParser.FlushKeeps | src/svgPreviewPanel.ts:342-392 | a flush of a complete group appends exactly one segment and keeps the segment list well formed |
| PathParser.StepInv | src/svgPreviewPanel.ts:394-429 | every token keeps the builder's invariant: any open group is incomplete, and the segments are well formed, chained and in text order |
| PathParser.RunInv | src/svgPreviewPanel.ts:394-429 | the invariant holds after the whole token loop |
| PathParser.TokenizeOk | src/svgPreviewPanel.ts:318-329 | the tokens are non-empty, in order without overlap, within the text, and every command token holds a command letter |
| PathParser.GuardedFlushesNeverFire | src/svgPreviewPanel.ts:396-399 | before every token and after the last, the open group is never complete, so the guarded flushes at 396-399 and 431-433 never fire |
| PathParser.SegmentsWellFormed | src/svgPreviewPanel.ts:331-433 | every built segment has a known command, that command's argument count, and a span inside the path data; each starts where the previous one left the pen; the segments are in text order |
| PathGroups.SegmentsFollowGroups | src/svgPreviewPanel.ts:394-433 | the segments built from the path data are exactly the reading `Groups` of its tokens, in order, with command, relativity, numbers and span: each command letter owns the numbers up to the next letter, `Z`/`z` is one segment, other letters cut their numbers into complete groups, and numbers owned by no letter or left in an incomplete group give no segment |
| PathGroups.ChunkAt | src/svgPreviewPanel.ts:411-427 | the `k`-th complete group of a letter's `n` numbers has the values of numbers `k*n` to `k*n+n-1` as its arguments, starts at the letter (the first) or where the previous group ended, ends with its last number, and after a move is read as a line |
| PathGroups.ChunkCount | src/svgPreviewPanel.ts:418-427 | a letter with `n` numbers per group gives one segment per `n` of its numbers; fewer than `n` left over give none |
| PathGroups.ContinueTwice | src/svgPreviewPanel.ts:421-425 | after a move, the implicit lines continue as lines |
| PathGroups.CloseGroup | src/svgPreviewPanel.ts:400-410 | every `Z` or `z` token gives a `Z` segment without numbers spanning exactly that letter |
| PathGroups.CloseSegment | src/svgPreviewPanel.ts:400-410 | the segments of the path data hold, for each `Z` or `z` letter, a `Z` segment of its relativity, without numbers, spanning exactly that letter |
| PathSegment.ToSegmentInfo | src/svgPreviewPanel.ts:462-533 | a segment is reported exactly for a known command; `M`, `C`, `S`, `Q` keep their letter and the others are reported as lines; control points are present exactly for curves: for `C` the first two argument pairs, for `S` and `Q` the first pair, each moved by the start point when the command is relative |
| PathSegment.InfoEndIsPen | src/svgPreviewPanel.ts:462-533 | the reported end point is where the segment leaves the pen |
| PathSegment.InfoJoins | src/svgPreviewPanel.ts:350-381 | consecutive reported segments join, and a closing `Z` ends at the sub-path start |
| PathSegment.InfosJoinUp | src/svgPreviewPanel.ts:331-533 | in the segments of any path data, the first starts at the origin and each reported segment starts where the previous one ends |
| PathSegment.LastCovering | src/svgPreviewPanel.ts:436-441 | the first loop finds nothing exactly when no segment's span holds the cursor; otherwise it finds the last one that does |
| PathSegment.Nearest | src/svgPreviewPanel.ts:442-453 | the fallback finds nothing exactly when every segment is at least 5 characters away; otherwise it finds the first segment at the least distance |
| PathSegment.PickFacts | src/svgPreviewPanel.ts:436-457 | the choice falls back to the nearest segment exactly when no span holds the cursor, and finds nothing exactly when no segment holds or is near the cursor |
| PathSegment.Pick | src/svgPreviewPanel.ts:436-457 | the segment chosen holds the cursor or lies within 5 characters of it, and nothing is chosen exactly when no segment does |
| PathSegment.SegmentAtCursorFacts | src/svgPreviewPanel.ts:316-460 | the reported segment is the picked one, with its start point and its pen end |
| PathSegment.SegmentAtCursor | src/svgPreviewPanel.ts:316-460 | a reported segment is `toSegmentInfo` of one of the parsed segments of the path data that holds the cursor or lies within 5 characters of it |
| PathSegment.FindCovering | src/svgPreviewPanel.ts:436-441 | the first selection loop returns the segment `LastCovering` picks |
| PathSegment.FindNearest | src/svgPreviewPanel.ts:442-453 | the fallback loop returns the segment `Nearest` picks |
| PathSegment.LocateSegment | src/svgPreviewPanel.ts:436-457 | the two loops together return the segment `Pick` picks |
| PathSegment.ParsePathSegmentAtCursor | src/svgPreviewPanel.ts:316-460 | `parsePathSegmentAtCursor` returns `SegmentAtCursor` |
| Overlay.SegmentShapesTable | media/main.js:82-191 | per command, the overlay holds exactly the table's shapes, each drawn from the segment's own points. `M` gives one marker; the others end with a lime end dot; curves run from the start point to the end point |
| Overlay.SegmentShapes | media/main.js:82-191 | the overlay is non-empty exactly for `M`, `L`, `C`, `S` and `Q`; a move is one marker at its end point, and every other drawn segment ends with a lime dot at its end point |
| Overlay.MoveShapes | media/main.js:86-98 | a move is drawn as one marker at its end point |
| Overlay.LineShapes | media/main.js:99-115 | a line is drawn as the line and a lime dot at its end |
| Overlay.CubicShapes | media/main.js:116-145 | a cubic is drawn with the table's shapes, a curve from start to end, and the end dot last |
| Overlay.SmoothShapes | media/main.js:146-166 | a smooth cubic is drawn with the table's shapes, a curve from start to end, and the end dot last |
| Overlay.QuadraticShapes | media/main.js:167-190 | a quadratic is drawn with the table's shapes, a curve from start to end, and the end dot last |
| Overlay.SegmentControlDots | media/main.js:116-190 | the control dots drawn are the segment's control points, with the start or end point standing in for a missing one |
| Overlay.WellFormedDrawn | media/main.js:82-191 | for a segment as the host reports it, the overlay is not empty and its control dots are exactly the reported control points |
| Overlay.HostSegmentsDrawn | media/main.js:65-194 | every segment the path parser reports draws a non-empty overlay whose control dots are its control points |
| Overlay.PolygonDots | media/main.js:269-273 | the dot loop builds `PolygonGroup` |
| Overlay.PolygonGroupDots | media/main.js:269-273 | one dot per point, in order, red at the active index and blue elsewhere |
| Overlay.PolygonGroupOneRed | media/main.js:269-273 | exactly one dot is red when the active index is a valid index, none otherwise |
| Overlay.PolygonGroup | media/main.js:269-273 | the group holds one dot per point |
| ViewTransform.Limit | media/main.js:41 | `Math.min(avail / extent, bound)`, where a zero extent gives `Infinity`, which never wins |
| ViewTransform.FitScale | media/main.js:41 | the chosen zoom is positive and at most 10 |
| ViewTransform.CenterOn | media/main.js:22-51 | the view is unchanged when the container is too small or the element is 0×0 |
| ViewTransform.LocalRoundTrip | media/main.js:30-33 | converting a box's screen rectangle back to local coordinates gives the box |
| ViewTransform.FitScaleFills | media/main.js:35-41 | the box fits the padded area at the chosen zoom, and the zoom is 10 or the box fills the area in one direction |
| ViewTransform.CenterOnFits | media/main.js:22-51 | after centring, the local box fits the padded container at the largest zoom up to 10, and its centre maps to the container's centre |
| ViewTransform.CenterOnScreen | media/main.js:22-51 | after centring, the element's screen rectangle is centred in the container and fits inside its padding |
| Renderer.WalkAppend | media/main.js:302-312 | walking an address is walking its prefix and then the rest from there |
| Renderer.WalkDescends | media/main.js:302-312 | each step of a walk descends to a strictly smaller subtree |
| Renderer.Walk | media/main.js:302-310 | a node the walk finds is no larger than the node it starts from; each step goes down to a strictly smaller child (`WalkDescends`) |
| Renderer.Resolve | media/main.js:302-312 | a node found is strictly smaller than the content, so it is never the content itself |
| Renderer.ResolveOutOfRange | media/main.js:304-310 | an index past the children at any level makes the walk find nothing |
| Renderer.ResolveAddress | media/main.js:302-312 | the walk loop returns `Resolve`: the node at the address, and nothing for the empty address or an index out of range |
| Renderer.StepConsistent | media/main.js:284-341 | every message keeps the scale positive, and keeps overlays only inside a rendered graphic |
| Renderer.HighlightStep | media/main.js:290-339 | a `highlight` remembers the message's address, keeps the content and a positive scale, and keeps the view when there is no address |
| Renderer.UpdateStep | media/main.js:287-289 | an `update` replaces the content, keeps the view and the remembered address, and keeps the state consistent |
| Renderer.OnMessage | media/main.js:284-341 | every message keeps the scale positive; an `update` keeps the view and the remembered address; a `highlight` remembers its address and keeps the content |
| Renderer.NullAddressClears | media/main.js:294-299 | a `highlight` with no address forgets the element and the key, removes both overlays, and keeps the view |
| Renderer.AddressRecenters | media/main.js:302-320 | a `highlight` with an address remembers it and its node, re-centres on the node exactly when the address is new and names a node, and keeps the view otherwise |
| Renderer.OverlaysReplaced | media/main.js:322-337 | after a `highlight`, the segment overlay is the message's segment drawn and the polygon overlay the message's points drawn, each only when present and inside a graphic |
| Renderer.HighlightIdempotent | media/main.js:290-339 | repeating the same `highlight` changes nothing, so the view does not drift |
| Renderer.UpdateKeepsKey | media/main.js:287-320 | after an `update`, highlighting the remembered address does not re-centre |
| Renderer.HostHighlight | src/svgPreviewPanel.ts:92-107 | for the host's message, no polygon overlay is drawn, and a segment overlay is drawn, non-empty, exactly when there is a graphic, an address and a segment |
| Renderer.HostSegment | src/svgPreviewPanel.ts:287-304 | a segment the host posts comes from a `path` element under the cursor: it describes one of the segments parsed from that element's first `d` value |
| Renderer.Renderer.constructor | media/main.js:9-15 | the page starts at scale 1 with no translation, highlight, key or overlay |
| Renderer.Renderer.CenterOnElement | media/main.js:22-51 | `centerOnElement` performs `Recenter` on the renderer's state |
| Renderer.Renderer.ClearSegmentHighlight | media/main.js:55-60 | `clearSegmentHighlight` performs `ClearSegment` |
| Renderer.Renderer.DrawSegmentHighlight | media/main.js:65-194 | `drawSegmentHighlight` performs `DrawSegment` |
| Renderer.Renderer.ClearPolygonHighlight | media/main.js:239-244 | `clearPolygonHighlight` performs `ClearPolygon` |
| Renderer.Renderer.DrawPolygonPointHighlight | media/main.js:251-276 | `drawPolygonPointHighlight` performs `DrawPolygon` |
| Renderer.Renderer.OnHighlight | media/main.js:290-339 | the `highlight` handler performs `HighlightStep` |
| Renderer.Renderer.OnUpdate | media/main.js:287-289 | the `update` handler performs `UpdateStep` |
| Renderer.Renderer.Receive | media/main.js:284-341 | the message listener performs `OnMessage` |
| ValueFormat.GetIndent | src/svgFormatter.ts:88-93 | the indent is whitespace ending in one tab |
| ValueFormat.GetIndentIsLineIndent | src/svgFormatter.ts:88-93 | the indent is the whitespace that opens the offset's line, up to its first other character or the offset, plus one tab |
| ValueFormat.FormatPathD | src/svgFormatter.ts:95-107 | a blank value, or one with at most one command chunk, is returned unchanged |
| ValueFormat.SplitFromConcat | src/svgFormatter.ts:101 | the pieces of `split(/(?=[MmLl…Zz])/)` concatenate back to the text |
| ValueFormat.SplitFromShape | src/svgFormatter.ts:101 | every piece after the first starts with a command letter, and no piece holds another one |
| ValueFormat.TrimmedNonEmpty | src/svgFormatter.ts:101 | `.map(s => s.trim()).filter(Boolean)` gives no more pieces than it was given, and none of them empty |
| ValueFormat.Chunks | src/svgFormatter.ts:101 | no chunk is empty, and a blank value gives none |
| ValueFormat.ChunksShape | src/svgFormatter.ts:101 | the chunks are trimmed and non-empty, hold one command each, every chunk after the first starts with a command letter, and the first does exactly when the value does |
| ValueFormat.ChunksKeepNonSpace | src/svgFormatter.ts:101 | splitting, trimming and filtering drop only whitespace |
| ValueFormat.TrimmedNonEmptyKeepsNonSpace | src/svgFormatter.ts:101 | trimming the pieces and dropping the empty ones drops only whitespace |
| ValueFormat.JoinKeepsNonSpace | src/svgFormatter.ts:106 | joining with a whitespace separator adds only whitespace |
| ValueFormat.Block | src/svgFormatter.ts:106 | the layout starts with a line break and ends with a line break followed by the indent without its last character |
| ValueFormat.FormatPathDKeepsNonSpace | src/svgFormatter.ts:95-107 | laying out a `d` value changes only whitespace |
| ValueFormat.NumberSpans | src/svgFormatter.ts:115 | the number matches are in order, without overlap, each a match of the number pattern at its start |
| ValueFormat.NumberSpansLeaveNoMatch | src/svgFormatter.ts:115 | the global match misses nothing: no number match starts in the text between the matches it returns |
| ValueFormat.Pairs | src/svgFormatter.ts:120-123 | one `x,y` string per whole pair of numbers, in order; an odd last number is dropped |
| ValueFormat.FormatPointsValue | src/svgFormatter.ts:109-126 | a blank value, or one with fewer than 4 numbers, is returned unchanged |
| ValueFormat.FormatPoints | src/svgFormatter.ts:109-126 | `formatPoints` and its pair loop return `FormatPointsValue` |
| ValueFormat.NextAttribute | src/svgFormatter.ts:56 | an attribute match starts with a name character |
| ValueFormat.NextAttributeIsFirst | src/svgFormatter.ts:56 | the match found is the leftmost: no name character lies before it |
| ValueFormat.AttributeSpans | src/svgFormatter.ts:58-63 | the attribute matches are in order, without overlap, each starting with a name character |
| ValueFormat.AttributeSpansLeaveNoName | src/svgFormatter.ts:58-63 | between and after the matches no name character is left over |
| ValueFormat.AttributesOfSpans | src/svgFormatter.ts:58-63 | the attributes are the trimmed texts of the matches, in order |
| ValueFormat.ParseAttributes | src/svgFormatter.ts:54-65 | `parseAttributes` and its `exec` loop return `Attributes` |
| ValueFormat.ParseAttributesShape | src/svgFormatter.ts:54-65 | there is one attribute per match, each the trimmed text of its match, non-empty and starting with a name character, and the text between the matches holds no name character |
| SvgFormat.TagAt | src/svgFormatter.ts:69 | a tag match has a `<`, a name, whitespace after the name, and a close before the first `>` |
| SvgFormat.TagAtMatches | src/svgFormatter.ts:69 | the match found has the shape of the tag pattern, and its close group `\s*\/?>` holds all the whitespace the lazy attribute group leaves to it |
| SvgFormat.TagLayout | src/svgFormatter.ts:77-83 | a tag with at most one attribute is kept as matched; otherwise it starts with `<`, the name and a line break |
| SvgFormat.TagReplacement | src/svgFormatter.ts:69-85 | rewriting a tag whose attribute list is well formed changes only whitespace |
| SvgFormat.ReplaceTagsKeepsNonSpace | src/svgFormatter.ts:67-86 | putting attributes on their own lines changes only whitespace when every rewritten tag's attribute list is well formed |
| SvgFormat.ReplaceTags | src/svgFormatter.ts:67-86 | the text after a position with no `<` is kept unchanged |
| SvgFormat.FormatElementAttributes | src/svgFormatter.ts:67-86 | a text without `<` is unchanged, and for tags with well-formed attribute lists only whitespace changes |
| SvgFormat.ValueMatch | src/svgFormatter.ts:29 | a value match starts at `<` and its value ends at the pass's quote |
| SvgFormat.ValueReplacement | src/svgFormatter.ts:28-37 | rewriting a `d` value changes only whitespace |
| SvgFormat.PathPassKeepsNonSpace | src/svgFormatter.ts:28-37 | each path pass changes only whitespace |
| SvgFormat.ValuePass | src/svgFormatter.ts:28-49 | a pass over text without `<` changes nothing, and a path pass changes only whitespace |
| SvgFormat.NoElementValuePass | src/svgFormatter.ts:28-49 | a pass over text without `<` changes nothing |
| SvgFormat.NoElementTags | src/svgFormatter.ts:67-86 | the attribute pass over text without `<` changes nothing |
| SvgFormat.FormatSvgWithoutElements | src/svgFormatter.ts:19-52 | `formatSvg` leaves a text without tags unchanged |
| SvgFormat.FormatSvg | src/svgFormatter.ts:19-52 | a text without `<` is unchanged |
| SvgFormat.FormatSvgPathsKeepNonSpace | src/svgFormatter.ts:19-37 | the attribute pass and both path passes together change only whitespace, for tags with well-formed attribute lists |
| SvgFormat.FormattingEdits | src/svgFormatter.ts:3-17 | the provider returns at most one edit |
| SvgFormat.FormattingEditsApply | src/svgFormatter.ts:3-17 | applying the provider's edits gives the formatted document, and there is no edit exactly when formatting changes nothing |
| SvgFormat.ApplyWhole | src/svgFormatter.ts:11-15 | an edit over the whole document replaces it |
| Base.Trim | src/svgFormatter.ts:59 | `trim` leaves no whitespace at either end, and the result is empty exactly when the text is all whitespace |
| Base.TrimKeepsNonSpace | src/svgFormatter.ts:59 | trimming removes only whitespace |
| Base.LastIndexOf | src/svgFormatter.ts:89 | `lastIndexOf` finds the character at or before the start, or -1 |
| Base.LastIndexOfIsLast | src/svgFormatter.ts:89 | no later occurrence lies at or before the start |
| Base.Find | src/svgPreviewPanel.ts:295 | `indexOf` finds the first occurrence, or reports none |
| Base.Substring | src/svgPreviewPanel.ts:287 | `substring(a, b)` within bounds is the slice between them, with the bounds swapped when `a > b`, and never longer than the string |

## Left out

- Reading the document and the cursor, posting messages, and the webview panel's life
  cycle are left out. The text, the offset and the messages are parameters.
  `extension.ts` (activation and command registration) is not part of this model.
- Offsets are positions in a `seq<char>`. JavaScript strings count UTF-16 code units;
  this is the same for text without astral characters.
- Coordinates are exact reals, not IEEE doubles. The `Infinity` of a division by a zero
  width or height is modelled by leaving that ratio out of the minimum. `Number()` of a
  token text is its exact decimal value (`PathTokens.NumeralValue`), without rounding
  to the nearest double.
- The rendered tree (`innerHTML` parsing) and the layout engine are abstract. Each node
  carries its layout box in content-local coordinates, and `getBoundingClientRect` is
  that box under the current view. The CSS transform origin is taken to be the top-left
  corner.
- `JSON.stringify(path)` keys are modelled as the addresses themselves. The
  stringification is one-to-one on arrays of numbers.
- The overlays are modelled as two fields of the renderer's state, not as nodes of the
  rendered tree. Every `draw*` first calls its `clear*`, which removes the first element
  with the overlay's class, so at most one overlay of each kind exists and a field
  holds it. Sizes, colours other than the dot fills, and stroke widths are left out.
- Renderer.Resolve, Renderer.ResolveOutOfRange: the overlay groups are appended to the
  `svg` element (media/main.js:193, 275), and the walk of media/main.js:302-310 counts
  them among that element's `children`. The modelled tree leaves them out. So an
  address that passes through an index at or past the number of the `svg` element's
  own children (reachable when the host counts a tag written inside a comment, which
  the page does not render) reaches in the page an overlay group left by the previous
  highlight, or one of its shapes when the address goes on below it, where the model
  finds nothing.
- The host never sends `polygonPoints`. The renderer handles them anyway, and the
  model covers that handler.
- `toSegmentInfo`'s default branch cannot be reached from the parser. A segment with
  an unknown command is reported as none.
- `Math.min` at src/svgPreviewPanel.ts:415 is modelled as written. It never changes
  `segStart`.
- The `i` flag and `\b` of the formatter's patterns are modelled for ASCII letters only.
- SvgFormat.ReplaceTagsKeepsNonSpace: proved only for tags whose attribute list is well
  formed (whitespace between attribute matches). For other tags, the attribute pass
  drops characters that are neither whitespace nor part of a match.
- SvgFormat.FormatSvgPathsKeepNonSpace: covers the attribute pass and the two path
  passes. The points passes turn separators into commas, so they change more than
  whitespace.
- Idempotence of `formatSvg` is not proved.
- ValueFormat.FormatPoints: the layout of four or more numbers is stated through
  `Pairs` and `Block`. That the result reads back as the same numbers is not proved.
- PathTokens.Tokenize: the `exec` loop is a recursive function, not a method, because
  the parser's fold and its lemmas consume its result directly.
