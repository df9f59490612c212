/**
  The segment builder of `parsePathSegmentAtCursor` (src/svgPreviewPanel.ts:331-433).

  The tokens of `PathTokens` drive a small machine: a command letter opens a
  group of `ArgCount` numbers; when the group is complete it is flushed as a
  segment that records where the pen was before it (`startPoint`) and where the
  current subpath began (`subpathStart`), and the pen moves. A complete `M`
  group is followed by implicit `L`/`l` groups, a `Z` is flushed as soon as it
  is read, numbers read while no command is active are collected and never
  used, and an incomplete group at the end is dropped.

  `FlushStep`, `Step` and `Run` are the specification; the class
  `SegmentBuilder` is the imperative machine, whose `flush` changes the pen and
  the segment list in place as the source's closure does. The lemmas prove that
  the two guarded flushes before a command and after the loop never fire, that
  every segment has exactly the numbers its command takes, that segments come
  in text order, and that each segment starts where the previous one left the
  pen.
 */
module PathParser {
  import opened Base
  import opened PathTokens

  /** `ARG_COUNTS[c.toUpperCase()] ?? 0` (src/svgPreviewPanel.ts:277-279). */
  function ArgCount(c: char): nat {
    match ToUpper(c)
    case 'M' => 2 case 'L' => 2 case 'H' => 1 case 'V' => 1 case 'C' => 6
    case 'S' => 4 case 'Q' => 4 case 'T' => 2 case 'A' => 7 case 'Z' => 0
    case _ => 0
  }

  /** The upper-case command letters a segment can carry. */
  predicate IsSegmentCommand(c: char) {
    c in "MLHVCSQTAZ"
  }

  /** `c === c.toLowerCase()`: only the upper-case ASCII letters change. */
  predicate IsRelativeLetter(c: char) {
    !('A' <= c <= 'Z')
  }

  lemma CommandLetterFacts(c: char)
    requires IsCommandLetter(c)
    ensures IsSegmentCommand(ToUpper(c))
    ensures ArgCount(ToUpper(c)) == ArgCount(c)
    ensures ArgCount(c) == 0 <==> ToUpper(c) == 'Z'
  {
  }

  /** A flushed command group. */
  datatype ParsedSegment = ParsedSegment(
    command: char, isRelative: bool, args: seq<real>,
    startOffset: nat, endOffset: nat,
    startPoint: Point, subpathStart: Point)

  /** The variables of the builder: `cmd` (`None` for the empty string), `isRel`,
      `expectedArgs`, `args`, the offsets, the pen `(cx, cy)`, the subpath start
      `(spx, spy)` and the segments so far. */
  datatype Parser = Parser(
    cmd: Option<char>, isRel: bool, expectedArgs: nat, args: seq<real>,
    segStart: nat, segEnd: nat, current: Point, subpath: Point,
    segments: seq<ParsedSegment>)

  const Origin := Point(0.0, 0.0)

  const Init := Parser(None, false, 0, [], 0, 0, Origin, Origin, [])

  /** `args[k]`; every read the builder makes is in range (see `RunInv`). */
  function Arg(a: seq<real>, k: int): real {
    if 0 <= k < |a| then a[k] else 0.0
  }

  function Moved(cur: Point, rel: bool, x: real, y: real): Point {
    if rel then Point(cur.x + x, cur.y + y) else Point(x, y)
  }

  /** Where the pen is after a group of command `upper` (the `switch` of `flush`,
      src/svgPreviewPanel.ts:350-381). */
  function PenAfter(upper: char, rel: bool, a: seq<real>, expected: int, cur: Point, sub: Point): Point {
    match upper
    case 'M' => Moved(cur, rel, Arg(a, 0), Arg(a, 1))
    case 'L' => Moved(cur, rel, Arg(a, 0), Arg(a, 1))
    case 'T' => Moved(cur, rel, Arg(a, 0), Arg(a, 1))
    case 'H' => Point(if rel then cur.x + Arg(a, 0) else Arg(a, 0), cur.y)
    case 'V' => Point(cur.x, if rel then cur.y + Arg(a, 0) else Arg(a, 0))
    case 'C' => Moved(cur, rel, Arg(a, 4), Arg(a, 5))
    case 'S' => Moved(cur, rel, Arg(a, expected - 2), Arg(a, expected - 1))
    case 'Q' => Moved(cur, rel, Arg(a, expected - 2), Arg(a, expected - 1))
    case 'A' => Moved(cur, rel, Arg(a, 5), Arg(a, 6))
    case 'Z' => sub
    case _ => cur
  }

  /** `flush()` (src/svgPreviewPanel.ts:342-392). */
  function FlushStep(p: Parser): (r: Parser)
    ensures r.cmd == p.cmd && r.args == p.args && r.expectedArgs == p.expectedArgs
    ensures p.segments <= r.segments
    ensures |r.segments| == |p.segments| + (if p.cmd.Some? then 1 else 0)
  {
    if p.cmd.None? then p
    else
      var upper := ToUpper(p.cmd.value);
      var pen := PenAfter(upper, p.isRel, p.args, p.expectedArgs, p.current, p.subpath);
      var seg := ParsedSegment(upper, p.isRel, p.args, p.segStart, p.segEnd, p.current, p.subpath);
      p.(current := pen,
         subpath := if upper == 'M' then pen else p.subpath,
         segments := p.segments + [seg])
  }

  function Min(a: nat, b: nat): nat {
    if a <= b then a else b
  }

  /** One iteration of the token loop (src/svgPreviewPanel.ts:394-429). */
  function Step(p: Parser, t: PathToken): (r: Parser)
    ensures p.segments <= r.segments && |r.segments| <= |p.segments| + 2
  {
    match t
    case Cmd(letter, start, end) => CommandStep(p, letter, start, end)
    case Num(text, start, end) => NumberStep(p, NumeralValue(text), start, end)
  }

  /** A command token (src/svgPreviewPanel.ts:395-411). */
  function CommandStep(p: Parser, letter: char, start: nat, end: nat): (r: Parser)
    ensures r.args == [] && p.segments <= r.segments && |r.segments| <= |p.segments| + 2
    ensures r.cmd == Some(letter) <==> ArgCount(letter) > 0
    ensures ArgCount(letter) > 0 ==> r.expectedArgs == ArgCount(letter) && r.segStart == start && r.segEnd == end
  {
    var e := ArgCount(letter);
    var r := Guarded(p).(cmd := Some(letter), isRel := IsRelativeLetter(letter), expectedArgs := e,
                         segStart := start, segEnd := end, args := []);
    if e == 0 then FlushStep(r).(cmd := None) else r
  }

  /** The guarded flush before a command (src/svgPreviewPanel.ts:396-399). */
  function Guarded(p: Parser): Parser {
    if |p.args| == p.expectedArgs && p.cmd.Some? then FlushStep(p).(args := []) else p
  }

  /** A number token (src/svgPreviewPanel.ts:411-428). */
  function NumberStep(p: Parser, v: real, start: nat, end: nat): (r: Parser)
    ensures r.segEnd == end && p.segments <= r.segments && |r.segments| <= |p.segments| + 1
    ensures r.args == p.args + [v] <==> |p.args| + 1 != p.expectedArgs
    ensures r.args != p.args + [v] ==> r.args == []
  {
    var a := p.args + [v];
    var q := p.(args := a, segEnd := end, segStart := if |a| == 1 then Min(p.segStart, start) else p.segStart);
    if |a| == q.expectedArgs then GroupComplete(q, end) else q
  }

  /** Flushing a complete group; a move continues as implicit lines (src/svgPreviewPanel.ts:418-427). */
  function GroupComplete(q: Parser, end: nat): Parser {
    var f := FlushStep(q).(args := []);
    var g := if f.cmd.Some? && ToUpper(f.cmd.value) == 'M' then
               var c := if f.isRel then 'l' else 'L';
               f.(cmd := Some(c), isRel := c == 'l', expectedArgs := 2)
             else f;
    g.(segStart := end)
  }

  /** The builder after the loop has consumed `toks`. */
  function Run(toks: seq<PathToken>): (r: Parser)
    ensures |r.segments| <= 2 * |toks|
    ensures toks != [] ==> Run(toks[..|toks| - 1]).segments <= r.segments
  {
    if toks == [] then Init else Step(Run(toks[..|toks| - 1]), toks[|toks| - 1])
  }

  /** The guarded flush after the loop (src/svgPreviewPanel.ts:431-433). */
  function Finish(p: Parser): Parser {
    if |p.args| == p.expectedArgs && p.cmd.Some? then FlushStep(p) else p
  }

  /** The segments `parsePathSegmentAtCursor` builds for the path data `d`. */
  function Segments(d: string): seq<ParsedSegment> {
    Finish(Run(Tokenize(d, 0))).segments
  }

  // ---------------------------------------------------------------------------
  // The imperative builder.

  /** The locals of `parsePathSegmentAtCursor` that `flush` updates in place. */
  class SegmentBuilder {
    var cmd: Option<char>
    var isRel: bool
    var expectedArgs: nat
    var args: seq<real>
    var segStartOffset: nat
    var segEndOffset: nat
    var cx: real
    var cy: real
    var spx: real
    var spy: real
    var segments: seq<ParsedSegment>

    function State(): Parser
      reads this
    {
      Parser(cmd, isRel, expectedArgs, args, segStartOffset, segEndOffset, Point(cx, cy), Point(spx, spy), segments)
    }

    constructor ()
      ensures State() == Init
    {
      cmd, isRel, expectedArgs, args := None, false, 0, [];
      segStartOffset, segEndOffset := 0, 0;
      cx, cy, spx, spy := 0.0, 0.0, 0.0, 0.0;
      segments := [];
    }

    method Flush()
      modifies this
      ensures State() == FlushStep(old(State()))
    {
      if cmd.None? {
        return;
      }
      var sp := Point(cx, cy);
      var subStart := Point(spx, spy);
      var upper := ToUpper(cmd.value);
      MovePen(upper);
      segments := segments + [ParsedSegment(upper, isRel, args, segStartOffset, segEndOffset, sp, subStart)];
    }

    /** The `switch` of `flush` (src/svgPreviewPanel.ts:350-381): moves the pen, and the
        subpath start on a move. */
    method MovePen(upper: char)
      modifies this
      ensures var pen := PenAfter(upper, isRel, args, expectedArgs, old(Point(cx, cy)), old(Point(spx, spy)));
              State() == old(State()).(current := pen, subpath := if upper == 'M' then pen else old(Point(spx, spy)))
    {
      if upper == 'M' {
        if isRel { cx := cx + Arg(args, 0); cy := cy + Arg(args, 1); }
        else { cx := Arg(args, 0); cy := Arg(args, 1); }
        spx := cx; spy := cy;
      } else if upper == 'L' || upper == 'T' {
        if isRel { cx := cx + Arg(args, 0); cy := cy + Arg(args, 1); }
        else { cx := Arg(args, 0); cy := Arg(args, 1); }
      } else if upper == 'H' {
        if isRel { cx := cx + Arg(args, 0); } else { cx := Arg(args, 0); }
      } else if upper == 'V' {
        if isRel { cy := cy + Arg(args, 0); } else { cy := Arg(args, 0); }
      } else if upper == 'C' {
        if isRel { cx := cx + Arg(args, 4); cy := cy + Arg(args, 5); }
        else { cx := Arg(args, 4); cy := Arg(args, 5); }
      } else if upper == 'S' || upper == 'Q' {
        if isRel { cx := cx + Arg(args, expectedArgs - 2); cy := cy + Arg(args, expectedArgs - 1); }
        else { cx := Arg(args, expectedArgs - 2); cy := Arg(args, expectedArgs - 1); }
      } else if upper == 'A' {
        if isRel { cx := cx + Arg(args, 5); cy := cy + Arg(args, 6); }
        else { cx := Arg(args, 5); cy := Arg(args, 6); }
      } else if upper == 'Z' {
        cx := spx; cy := spy;
      }
    }

    /** The body of the token loop for one token. */
    method Feed(tok: PathToken)
      modifies this
      ensures State() == Step(old(State()), tok)
    {
      if tok.Cmd? {
        FeedCommand(tok.letter, tok.start, tok.end);
      } else {
        FeedNumber(NumeralValue(tok.text), tok.start, tok.end);
      }
    }

    method FeedCommand(letter: char, start: nat, end: nat)
      modifies this
      ensures State() == CommandStep(old(State()), letter, start, end)
    {
      if |args| == expectedArgs && cmd.Some? {
        Flush();
        args := [];
      }
      assert State() == Guarded(old(State()));
      cmd := Some(letter);
      isRel := IsRelativeLetter(letter);
      expectedArgs := ArgCount(letter);
      segStartOffset := start;
      segEndOffset := end;
      args := [];
      if expectedArgs == 0 {
        Flush();
        cmd := None;
      }
    }

    method FeedNumber(v: real, start: nat, end: nat)
      modifies this
      ensures State() == NumberStep(old(State()), v, start, end)
    {
      args := args + [v];
      segEndOffset := end;
      if |args| == 1 {
        segStartOffset := Min(segStartOffset, start);
      }
      if |args| == expectedArgs {
        CompleteGroup(end);
      }
    }

    method CompleteGroup(end: nat)
      modifies this
      ensures State() == GroupComplete(old(State()), end)
    {
      Flush();
      args := [];
      if cmd.Some? && ToUpper(cmd.value) == 'M' {
        cmd := Some(if isRel then 'l' else 'L');
        isRel := cmd == Some('l');
        expectedArgs := 2;
      }
      segStartOffset := end;
    }
  }

  /** The token loop and the final flush: the segments of the token list. */
  method ParseSegments(toks: seq<PathToken>) returns (segments: seq<ParsedSegment>)
    ensures segments == Finish(Run(toks)).segments
  {
    var b := new SegmentBuilder();
    var i := 0;
    while i < |toks|
      invariant 0 <= i <= |toks|
      invariant b.State() == Run(toks[..i])
    {
      assert toks[..i + 1][..i] == toks[..i];
      b.Feed(toks[i]);
      i := i + 1;
    }
    assert toks[..i] == toks;
    if |b.args| == b.expectedArgs && b.cmd.Some? {
      b.Flush();
    }
    segments := b.segments;
  }

  // ---------------------------------------------------------------------------
  // What the builder guarantees.

  /** Where the pen is after segment `s`. */
  function PenEnd(s: ParsedSegment): Point {
    PenAfter(s.command, s.isRelative, s.args, ArgCount(s.command), s.startPoint, s.subpathStart)
  }

  /** The subpath start after segment `s`: a move starts a new subpath. */
  function SubpathAfter(s: ParsedSegment): Point {
    if s.command == 'M' then PenEnd(s) else s.subpathStart
  }

  /** A segment carries an upper-case command, exactly the numbers it takes, and a
      range inside `[0, hi]`. */
  predicate SegmentOk(s: ParsedSegment, hi: nat) {
    IsSegmentCommand(s.command) && |s.args| == ArgCount(s.command) && s.startOffset <= s.endOffset <= hi
  }

  /** Each segment starts where the previous one left the pen and the subpath;
      the first at the origin. */
  predicate Chained(segs: seq<ParsedSegment>) {
    && (segs != [] ==> segs[0].startPoint == Origin && segs[0].subpathStart == Origin)
    && (forall i :: 0 < i < |segs| ==>
          segs[i].startPoint == PenEnd(segs[i - 1]) && segs[i].subpathStart == SubpathAfter(segs[i - 1]))
  }

  /** Segment ranges follow one another in the text (adjacent ones may share an end). */
  predicate InTextOrder(segs: seq<ParsedSegment>) {
    forall i :: 0 < i < |segs| ==> segs[i - 1].endOffset <= segs[i].startOffset
  }

  /** What holds of the segment list, the pen and the subpath start. */
  predicate SegmentsOk(p: Parser, pos: nat) {
    var segs := p.segments;
    && (forall k :: 0 <= k < |segs| ==> SegmentOk(segs[k], pos))
    && Chained(segs) && InTextOrder(segs)
    && p.current == (if segs == [] then Origin else PenEnd(segs[|segs| - 1]))
    && p.subpath == (if segs == [] then Origin else SubpathAfter(segs[|segs| - 1]))
  }

  /** The builder's invariant after consuming the tokens up to position `pos`. An
      active command always has a group still missing numbers, which is why the
      guarded flushes before a command and after the loop never fire. */
  predicate Inv(p: Parser, pos: nat) {
    && SegmentsOk(p, pos)
    && p.segStart <= p.segEnd <= pos
    && (p.cmd.Some? ==>
          IsCommandLetter(p.cmd.value) && 0 < p.expectedArgs == ArgCount(p.cmd.value) && |p.args| < p.expectedArgs)
    && (p.cmd.None? ==> p.expectedArgs == 0)
    && (p.cmd.Some? && p.segments != [] ==> p.segments[|p.segments| - 1].endOffset <= p.segStart)
  }

  /** Flushing a complete group appends one well-formed segment and keeps the chain. */
  lemma FlushKeeps(p: Parser, pos: nat)
    requires SegmentsOk(p, pos) && p.segStart <= p.segEnd <= pos
    requires p.cmd.Some? && IsCommandLetter(p.cmd.value)
    requires |p.args| == p.expectedArgs == ArgCount(p.cmd.value)
    requires p.segments != [] ==> p.segments[|p.segments| - 1].endOffset <= p.segStart
    ensures SegmentsOk(FlushStep(p), pos)
    ensures FlushStep(p).segments == p.segments + [ParsedSegment(ToUpper(p.cmd.value), p.isRel, p.args, p.segStart, p.segEnd, p.current, p.subpath)]
  {
    CommandLetterFacts(p.cmd.value);
    var seg := ParsedSegment(ToUpper(p.cmd.value), p.isRel, p.args, p.segStart, p.segEnd, p.current, p.subpath);
    FlushStepIs(p, seg);
    AppendOk(p.segments, seg, pos);
    var f := FlushStep(p);
    assert f.segments[|f.segments| - 1] == seg;
  }

  lemma FlushStepIs(p: Parser, seg: ParsedSegment)
    requires p.cmd.Some? && |p.args| == p.expectedArgs == ArgCount(p.cmd.value)
    requires ArgCount(ToUpper(p.cmd.value)) == ArgCount(p.cmd.value)
    requires seg == ParsedSegment(ToUpper(p.cmd.value), p.isRel, p.args, p.segStart, p.segEnd, p.current, p.subpath)
    ensures FlushStep(p) == p.(current := PenEnd(seg), subpath := SubpathAfter(seg), segments := p.segments + [seg])
  {
  }

  /** Appending a well-formed segment that continues the list keeps the list well formed. */
  lemma AppendOk(segs: seq<ParsedSegment>, seg: ParsedSegment, pos: nat)
    requires forall k :: 0 <= k < |segs| ==> SegmentOk(segs[k], pos)
    requires Chained(segs) && InTextOrder(segs) && SegmentOk(seg, pos)
    requires seg.startPoint == (if segs == [] then Origin else PenEnd(segs[|segs| - 1]))
    requires seg.subpathStart == (if segs == [] then Origin else SubpathAfter(segs[|segs| - 1]))
    requires segs != [] ==> segs[|segs| - 1].endOffset <= seg.startOffset
    ensures forall k :: 0 <= k < |segs + [seg]| ==> SegmentOk((segs + [seg])[k], pos)
    ensures Chained(segs + [seg]) && InTextOrder(segs + [seg])
  {
    AppendKeepsChain(segs, seg);
    var all := segs + [seg];
    forall k | 0 <= k < |all|
      ensures SegmentOk(all[k], pos)
    {
      if k < |segs| {
        assert all[k] == segs[k];
      }
    }
    forall i | 0 < i < |all|
      ensures all[i - 1].endOffset <= all[i].startOffset
    {
      if i < |segs| {
        assert all[i] == segs[i] && all[i - 1] == segs[i - 1];
      }
    }
  }

  lemma AppendKeepsChain(segs: seq<ParsedSegment>, seg: ParsedSegment)
    requires Chained(segs)
    requires seg.startPoint == (if segs == [] then Origin else PenEnd(segs[|segs| - 1]))
    requires seg.subpathStart == (if segs == [] then Origin else SubpathAfter(segs[|segs| - 1]))
    ensures Chained(segs + [seg])
  {
    var all := segs + [seg];
    forall i | 0 < i < |all|
      ensures all[i].startPoint == PenEnd(all[i - 1]) && all[i].subpathStart == SubpathAfter(all[i - 1])
    {
      if i < |segs| {
        assert all[i] == segs[i] && all[i - 1] == segs[i - 1];
      }
    }
  }

  lemma StepInv(p: Parser, pos: nat, t: PathToken)
    requires Inv(p, pos)
    requires pos <= t.start < t.end
    requires t.Cmd? ==> IsCommandLetter(t.letter)
    ensures Inv(Step(p, t), t.end)
  {
    if t.Cmd? {
      CommandInv(p, pos, t.letter, t.start, t.end);
    } else {
      NumberInv(p, pos, NumeralValue(t.text), t.start, t.end);
    }
  }

  lemma CommandInv(p: Parser, pos: nat, letter: char, start: nat, end: nat)
    requires Inv(p, pos)
    requires pos <= start < end && IsCommandLetter(letter)
    ensures Inv(CommandStep(p, letter, start, end), end)
  {
    CommandLetterFacts(letter);
    var e := ArgCount(letter);
    assert Guarded(p) == p;
    var r := p.(cmd := Some(letter), isRel := IsRelativeLetter(letter), expectedArgs := e,
                segStart := start, segEnd := end, args := []);
    SegmentsOkFrame(p, r, pos, end);
    if e == 0 {
      FlushKeeps(r, end);
      SegmentsOkFrame(FlushStep(r), FlushStep(r).(cmd := None), end, end);
    }
  }

  lemma NumberInv(p: Parser, pos: nat, v: real, start: nat, end: nat)
    requires Inv(p, pos)
    requires pos <= start < end
    ensures Inv(NumberStep(p, v, start, end), end)
  {
    var a := p.args + [v];
    var q := p.(args := a, segEnd := end, segStart := if |a| == 1 then Min(p.segStart, start) else p.segStart);
    SegmentsOkFrame(p, q, pos, end);
    NumberStepIs(p, v, start, end, q);
    if |a| == q.expectedArgs {
      GroupCompleteInv(q, end);
    } else {
      PartialGroupInv(p, pos, q, end);
    }
  }

  lemma NumberStepIs(p: Parser, v: real, start: nat, end: nat, q: Parser)
    requires q == p.(args := p.args + [v], segEnd := end,
                     segStart := if |p.args| == 0 then Min(p.segStart, start) else p.segStart)
    ensures NumberStep(p, v, start, end) == if |q.args| == q.expectedArgs then GroupComplete(q, end) else q
  {
  }

  /** A number that leaves its group incomplete keeps the invariant. */
  lemma PartialGroupInv(p: Parser, pos: nat, q: Parser, end: nat)
    requires Inv(p, pos) && SegmentsOk(q, end) && pos <= end
    requires q.cmd == p.cmd && q.expectedArgs == p.expectedArgs && q.segments == p.segments
    requires |q.args| == |p.args| + 1 != q.expectedArgs
    requires q.segEnd == end && q.segStart <= end && (q.segStart == p.segStart || pos <= q.segStart)
    ensures Inv(q, end)
  {
  }

  lemma GroupCompleteInv(q: Parser, end: nat)
    requires SegmentsOk(q, end) && q.segStart <= q.segEnd == end
    requires q.cmd.Some? && IsCommandLetter(q.cmd.value)
    requires |q.args| == q.expectedArgs == ArgCount(q.cmd.value) > 0
    requires q.segments != [] ==> q.segments[|q.segments| - 1].endOffset <= q.segStart
    ensures Inv(GroupComplete(q, end), end)
  {
    FlushKeeps(q, end);
    SegmentsOkFrame(FlushStep(q), GroupComplete(q, end), end, end);
  }

  /** `SegmentsOk` looks only at the segments, the pen and the subpath start. */
  lemma SegmentsOkFrame(p: Parser, p': Parser, pos: nat, pos': nat)
    requires SegmentsOk(p, pos) && pos <= pos'
    requires p'.segments == p.segments && p'.current == p.current && p'.subpath == p.subpath
    ensures SegmentsOk(p', pos')
  {
  }

  /** The tokens the builder consumes: in text order, and every command token a command letter. */
  predicate TokensOk(toks: seq<PathToken>) {
    && (forall k :: 0 <= k < |toks| ==> toks[k].start < toks[k].end)
    && (forall k :: 0 < k < |toks| ==> toks[k - 1].end <= toks[k].start)
    && (forall k :: 0 <= k < |toks| && toks[k].Cmd? ==> IsCommandLetter(toks[k].letter))
  }

  function EndOf(toks: seq<PathToken>): nat {
    if toks == [] then 0 else toks[|toks| - 1].end
  }

  lemma {:induction false} RunInv(toks: seq<PathToken>)
    requires TokensOk(toks)
    ensures Inv(Run(toks), EndOf(toks))
  {
    if toks != [] {
      var n := |toks|;
      var init := toks[..n - 1];
      assert TokensOk(init) by {
        forall k | 0 <= k < |init| ensures init[k] == toks[k] { }
      }
      RunInv(init);
      assert EndOf(init) <= toks[n - 1].start by {
        if init != [] {
          assert init[|init| - 1] == toks[n - 2];
        }
      }
      StepInv(Run(init), EndOf(init), toks[n - 1]);
    }
  }

  lemma TokenizeOk(d: string)
    ensures TokensOk(Tokenize(d, 0))
    ensures EndOf(Tokenize(d, 0)) <= |d|
  {
    var toks := Tokenize(d, 0);
    forall k | 0 <= k < |toks| && toks[k].Cmd?
      ensures IsCommandLetter(toks[k].letter)
    {
      assert Matched(d, toks[k]);
    }
  }

  /** The guarded flush before a command token (src/svgPreviewPanel.ts:396-399) and
      the one after the loop (src/svgPreviewPanel.ts:431-433) never fire: whenever a
      command is active its group is still incomplete. */
  lemma GuardedFlushesNeverFire(d: string)
    ensures var toks := Tokenize(d, 0);
      forall i :: 0 <= i <= |toks| ==>
        var p := Run(toks[..i]);
        !(|p.args| == p.expectedArgs && p.cmd.Some?)
  {
    var toks := Tokenize(d, 0);
    TokenizeOk(d);
    forall i | 0 <= i <= |toks|
      ensures var p := Run(toks[..i]); !(|p.args| == p.expectedArgs && p.cmd.Some?)
    {
      var pre := toks[..i];
      assert TokensOk(pre) by {
        forall k | 0 <= k < |pre| ensures pre[k] == toks[k] { }
      }
      RunInv(pre);
    }
  }

  /** Every segment of `d` carries an upper-case command and exactly the numbers that
      command takes, lies inside `d`, and follows the previous one in the text;
      each starts where the previous one left the pen (the first at the origin),
      and its subpath start is where the last move left the pen. */
  lemma SegmentsWellFormed(d: string, segs: seq<ParsedSegment>)
    requires segs == Segments(d)
    ensures forall k :: 0 <= k < |segs| ==> SegmentOk(segs[k], |d|)
    ensures Chained(segs) && InTextOrder(segs)
  {
    var toks := Tokenize(d, 0);
    TokenizeOk(d);
    RunInv(toks);
    assert Finish(Run(toks)) == Run(toks);
  }
}
