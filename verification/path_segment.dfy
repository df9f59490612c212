/**
  The segment chosen at the cursor and the description sent to the preview
  (src/svgPreviewPanel.ts:435-533).

  Among the segments of `PathParser`, the locator keeps the last one whose range
  contains the cursor (both ends included). When none does, it falls back to the
  nearest one by distance to the nearer end of its range, provided that distance
  is below 5; on a tie the first one wins. `ToSegmentInfo` turns the chosen
  segment into absolute coordinates: curves keep their command and their
  control points, every other command is drawn as a straight line `L`, and a
  `Z` goes back to the start of its subpath.
 */
module PathSegment {
  import opened Base
  import opened PathTokens
  import opened PathParser

  /** What the preview is told about a segment; `controlPoints` is absent for lines. */
  datatype SegmentInfo = SegmentInfo(command: char, startPoint: Point, endPoint: Point, controlPoints: Option<seq<Point>>)

  /** `rel ? base + v : v`. */
  function Abs(rel: bool, base: real, v: real): real {
    if rel then base + v else v
  }

  /** `toSegmentInfo` (src/svgPreviewPanel.ts:462-533). */
  function ToSegmentInfo(seg: ParsedSegment): (r: Option<SegmentInfo>)
    ensures r.Some? <==> IsSegmentCommand(seg.command)
    ensures r.Some? ==> r.value.startPoint == seg.startPoint
    ensures r.Some? ==> r.value.command == (if seg.command in "MCSQ" then seg.command else 'L')
    ensures r.Some? ==> (r.value.controlPoints.Some? <==> seg.command in "CSQ")
    ensures r.Some? && r.value.controlPoints.Some? ==>
              |r.value.controlPoints.value| == (if seg.command == 'C' then 2 else 1)
    ensures seg.command == 'C' ==>
              r.value.controlPoints == Some([Moved(seg.startPoint, seg.isRelative, Arg(seg.args, 0), Arg(seg.args, 1)),
                                             Moved(seg.startPoint, seg.isRelative, Arg(seg.args, 2), Arg(seg.args, 3))])
    ensures seg.command in "SQ" ==>
              r.value.controlPoints == Some([Moved(seg.startPoint, seg.isRelative, Arg(seg.args, 0), Arg(seg.args, 1))])
  {
    var sp := seg.startPoint;
    var a := seg.args;
    var rel := seg.isRelative;
    match seg.command
    case 'M' => Some(SegmentInfo('M', sp, Point(Abs(rel, sp.x, Arg(a, 0)), Abs(rel, sp.y, Arg(a, 1))), None))
    case 'L' => Some(SegmentInfo('L', sp, Point(Abs(rel, sp.x, Arg(a, 0)), Abs(rel, sp.y, Arg(a, 1))), None))
    case 'H' => Some(SegmentInfo('L', sp, Point(Abs(rel, sp.x, Arg(a, 0)), sp.y), None))
    case 'V' => Some(SegmentInfo('L', sp, Point(sp.x, Abs(rel, sp.y, Arg(a, 0))), None))
    case 'C' =>
      var c1 := Point(Abs(rel, sp.x, Arg(a, 0)), Abs(rel, sp.y, Arg(a, 1)));
      var c2 := Point(Abs(rel, sp.x, Arg(a, 2)), Abs(rel, sp.y, Arg(a, 3)));
      var e := Point(Abs(rel, sp.x, Arg(a, 4)), Abs(rel, sp.y, Arg(a, 5)));
      Some(SegmentInfo('C', sp, e, Some([c1, c2])))
    case 'S' =>
      var c2 := Point(Abs(rel, sp.x, Arg(a, 0)), Abs(rel, sp.y, Arg(a, 1)));
      var e := Point(Abs(rel, sp.x, Arg(a, 2)), Abs(rel, sp.y, Arg(a, 3)));
      Some(SegmentInfo('S', sp, e, Some([c2])))
    case 'Q' =>
      var c := Point(Abs(rel, sp.x, Arg(a, 0)), Abs(rel, sp.y, Arg(a, 1)));
      var e := Point(Abs(rel, sp.x, Arg(a, 2)), Abs(rel, sp.y, Arg(a, 3)));
      Some(SegmentInfo('Q', sp, e, Some([c])))
    case 'T' => Some(SegmentInfo('L', sp, Point(Abs(rel, sp.x, Arg(a, 0)), Abs(rel, sp.y, Arg(a, 1))), None))
    case 'A' => Some(SegmentInfo('L', sp, Point(Abs(rel, sp.x, Arg(a, 5)), Abs(rel, sp.y, Arg(a, 6))), None))
    case 'Z' => Some(SegmentInfo('L', sp, seg.subpathStart, None))
    case _ => None
  }

  /** The end point reported for a segment is where `flush` left the pen after it. */
  lemma InfoEndIsPen(seg: ParsedSegment)
    requires IsSegmentCommand(seg.command)
    ensures ToSegmentInfo(seg).value.endPoint == PenEnd(seg)
  {
  }

  /** The reported segments of a path join up: each starts where the previous one
      ends, the first at the origin, and a `Z` ends where its subpath began. */
  lemma InfosJoinUp(d: string, segs: seq<ParsedSegment>, i: nat)
    requires segs == Segments(d) && 0 < i < |segs|
    ensures segs[0].startPoint == Origin
    ensures ToSegmentInfo(segs[i]).Some? && ToSegmentInfo(segs[i - 1]).Some?
    ensures ToSegmentInfo(segs[i]).value.startPoint == ToSegmentInfo(segs[i - 1]).value.endPoint
    ensures segs[i].command == 'Z' ==> ToSegmentInfo(segs[i]).value.endPoint == SubpathAfter(segs[i - 1])
  {
    SegmentsWellFormed(d, segs);
    assert SegmentOk(segs[i], |d|) && SegmentOk(segs[i - 1], |d|);
    InfoJoins(segs[i - 1], segs[i]);
  }

  /** `InfosJoinUp` for two neighbouring segments. */
  lemma InfoJoins(prev: ParsedSegment, cur: ParsedSegment)
    requires IsSegmentCommand(prev.command) && IsSegmentCommand(cur.command)
    requires cur.startPoint == PenEnd(prev) && cur.subpathStart == SubpathAfter(prev)
    ensures ToSegmentInfo(cur).Some? && ToSegmentInfo(prev).Some?
    ensures ToSegmentInfo(cur).value.startPoint == ToSegmentInfo(prev).value.endPoint
    ensures cur.command == 'Z' ==> ToSegmentInfo(cur).value.endPoint == SubpathAfter(prev)
  {
    InfoEndIsPen(prev);
  }

  predicate Covers(seg: ParsedSegment, cursor: int) {
    seg.startOffset <= cursor <= seg.endOffset
  }

  /** Distance from the cursor to the nearer end of the segment's range. */
  function Dist(seg: ParsedSegment, cursor: int): int {
    if cursor < seg.startOffset then seg.startOffset - cursor else cursor - seg.endOffset
  }

  /** The first loop (src/svgPreviewPanel.ts:436-441): the last segment containing the cursor. */
  function LastCovering(segs: seq<ParsedSegment>, cursor: int): (r: Option<nat>)
    ensures r.None? <==> forall j :: 0 <= j < |segs| ==> !Covers(segs[j], cursor)
    ensures r.Some? ==> r.value < |segs| && Covers(segs[r.value], cursor)
    ensures r.Some? ==> forall j :: r.value < j < |segs| ==> !Covers(segs[j], cursor)
  {
    if segs == [] then None
    else
      var n := |segs|;
      if Covers(segs[n - 1], cursor) then Some(n - 1)
      else
        var b := LastCovering(segs[..n - 1], cursor);
        assert forall j :: 0 <= j < n - 1 ==> segs[..n - 1][j] == segs[j];
        b
  }

  /** The fallback loop (src/svgPreviewPanel.ts:442-453): the first segment at the least
      distance, if that distance is below 5. */
  function Nearest(segs: seq<ParsedSegment>, cursor: int): (r: Option<nat>)
    ensures r.None? <==> forall j :: 0 <= j < |segs| ==> Dist(segs[j], cursor) >= 5
    ensures r.Some? ==> r.value < |segs| && Dist(segs[r.value], cursor) < 5
    ensures r.Some? ==> forall j :: 0 <= j < |segs| ==> Dist(segs[r.value], cursor) <= Dist(segs[j], cursor)
    ensures r.Some? ==> forall j :: 0 <= j < r.value ==> Dist(segs[r.value], cursor) < Dist(segs[j], cursor)
  {
    if segs == [] then None
    else
      var n := |segs|;
      var b := Nearest(segs[..n - 1], cursor);
      assert forall j :: 0 <= j < n - 1 ==> segs[..n - 1][j] == segs[j];
      var dist := Dist(segs[n - 1], cursor);
      if dist < 5 && (b.None? || dist < Dist(segs[b.value], cursor)) then Some(n - 1) else b
  }

  /** The segment the locator picks, by index. */
  function Pick(segs: seq<ParsedSegment>, cursor: int): (r: Option<nat>)
    ensures r.Some? ==> r.value < |segs| && (Covers(segs[r.value], cursor) || Dist(segs[r.value], cursor) < 5)
    ensures r.None? <==> forall j :: 0 <= j < |segs| ==> !Covers(segs[j], cursor) && Dist(segs[j], cursor) >= 5
  {
    match LastCovering(segs, cursor)
    case Some(k) => Some(k)
    case None => if |segs| > 0 then Nearest(segs, cursor) else None
  }

  /** What the locator promises: a pick contains the cursor and no later segment does;
      or, when no segment contains it, the pick is the first of the nearest ones and
      is nearer than 5; there is no pick only when nothing is within reach. */
  lemma PickFacts(segs: seq<ParsedSegment>, cursor: int)
    ensures Pick(segs, cursor).Some? ==> Pick(segs, cursor).value < |segs|
    ensures Pick(segs, cursor).None? <==>
              forall j :: 0 <= j < |segs| ==> !Covers(segs[j], cursor) && Dist(segs[j], cursor) >= 5
    ensures (exists j :: 0 <= j < |segs| && Covers(segs[j], cursor)) ==>
              Pick(segs, cursor) == LastCovering(segs, cursor)
    ensures (forall j :: 0 <= j < |segs| ==> !Covers(segs[j], cursor)) ==>
              Pick(segs, cursor) == Nearest(segs, cursor)
  {
  }

  /** The value `parsePathSegmentAtCursor(d, cursor)` returns. */
  function SegmentAtCursor(d: string, cursor: int): (r: Option<SegmentInfo>)
    ensures r.Some? ==> exists s :: s in Segments(d) && (Covers(s, cursor) || Dist(s, cursor) < 5) && ToSegmentInfo(s) == r
  {
    var segs := Segments(d);
    match Pick(segs, cursor)
    case None => None
    case Some(k) =>
      assert segs[k] in segs;
      ToSegmentInfo(segs[k])
  }

  /** `toSegmentInfo` never reaches its `return undefined`: a segment is reported exactly
      when one is picked, and its end point is where the pen stood after it. */
  lemma SegmentAtCursorFacts(d: string, cursor: int, segs: seq<ParsedSegment>, k: nat)
    requires segs == Segments(d) && Pick(segs, cursor) == Some(k)
    ensures k < |segs| && SegmentAtCursor(d, cursor).Some?
    ensures SegmentAtCursor(d, cursor).value.endPoint == PenEnd(segs[k])
    ensures SegmentAtCursor(d, cursor).value.startPoint == segs[k].startPoint
  {
    SegmentsWellFormed(d, segs);
    PickFacts(segs, cursor);
    assert SegmentOk(segs[k], |d|);
    InfoEndIsPen(segs[k]);
  }

  /** The first selection loop (src/svgPreviewPanel.ts:436-441). */
  method FindCovering(segments: seq<ParsedSegment>, cursorPos: int) returns (best: Option<ParsedSegment>)
    ensures best == match LastCovering(segments, cursorPos) case None => None case Some(k) => Some(segments[k])
  {
    best := None;
    for k := 0 to |segments|
      invariant best == match LastCovering(segments[..k], cursorPos) case None => None case Some(j) => Some(segments[j])
    {
      assert segments[..k + 1][..k] == segments[..k];
      var seg := segments[k];
      if cursorPos >= seg.startOffset && cursorPos <= seg.endOffset {
        best := Some(seg);
      }
    }
    assert segments[..|segments|] == segments;
  }

  /** The fallback loop (src/svgPreviewPanel.ts:442-453); `minDist` is `None` while it is `Infinity`. */
  method FindNearest(segments: seq<ParsedSegment>, cursorPos: int) returns (best: Option<ParsedSegment>)
    ensures best == match Nearest(segments, cursorPos) case None => None case Some(k) => Some(segments[k])
  {
    best := None;
    var minDist: Option<int> := None;
    ghost var pick: Option<nat> := None;
    for k := 0 to |segments|
      invariant pick == Nearest(segments[..k], cursorPos)
      invariant pick.None? ==> best.None? && minDist.None?
      invariant pick.Some? ==> pick.value < k && best == Some(segments[pick.value])
                               && minDist == Some(Dist(segments[pick.value], cursorPos))
    {
      assert segments[..k + 1][..k] == segments[..k];
      assert segments[..k + 1][k] == segments[k];
      var seg := segments[k];
      var dist := if cursorPos < seg.startOffset then seg.startOffset - cursorPos else cursorPos - seg.endOffset;
      assert dist == Dist(seg, cursorPos);
      if (minDist.None? || dist < minDist.value) && dist < 5 {
        minDist := Some(dist);
        best := Some(seg);
        pick := Some(k);
      }
    }
    assert segments[..|segments|] == segments;
  }

  /** The two selection loops together (src/svgPreviewPanel.ts:436-457). */
  method LocateSegment(segments: seq<ParsedSegment>, cursorPos: int) returns (best: Option<ParsedSegment>)
    ensures best == match Pick(segments, cursorPos) case None => None case Some(k) => Some(segments[k])
  {
    best := FindCovering(segments, cursorPos);
    if best.None? && |segments| > 0 {
      best := FindNearest(segments, cursorPos);
    }
  }

  /** `parsePathSegmentAtCursor` (src/svgPreviewPanel.ts:316-460). */
  method ParsePathSegmentAtCursor(d: string, cursorPos: int) returns (r: Option<SegmentInfo>)
    ensures r == SegmentAtCursor(d, cursorPos)
  {
    var segments := ParseSegments(Tokenize(d, 0));
    var best := LocateSegment(segments, cursorPos);
    if best.None? {
      return None;
    }
    r := ToSegmentInfo(best.value);
  }
}
