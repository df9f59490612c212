/**
  The overlay geometry the renderer draws inside the rendered graphic
  (media/main.js:65-276): the group of shapes that marks the highlighted path
  segment, and the group of dots that marks a polygon's vertices. Colours are
  kept only as far as they distinguish roles; stroke widths and radii, which
  are derived from the graphic's size, are not modelled.
 */
module Overlay {
  import opened Base
  import opened PathParser
  import opened PathSegment

  /** `lime` (end points and markers), `#00ff88` (control points), `red`, `blue`. */
  datatype Paint = Lime | Mint | Red | Blue

  datatype Shape =
    | Marker(center: Point)                    // the circle marking a move-to point
    | Line(from: Point, to: Point)             // the solid line of a straight segment
    | Curve(command: char, points: seq<Point>) // `M start <command> ... end`
    | Handle(from: Point, to: Point)           // a dashed control handle
    | Dot(center: Point, fill: Paint)

  /** `(seg.controlPoints || [])[k] || fallback`. */
  function ControlPoint(seg: SegmentInfo, k: nat, fallback: Point): Point {
    match seg.controlPoints
    case Some(cps) => if k < |cps| then cps[k] else fallback
    case None => fallback
  }

  /** The children of the `segment-highlight` group drawn for `seg` (media/main.js:82-191). */
  function SegmentShapes(seg: SegmentInfo): (r: seq<Shape>)
    ensures r != [] <==> seg.command == 'M' || seg.command == 'L' || seg.command == 'C'
                         || seg.command == 'S' || seg.command == 'Q'
    ensures seg.command == 'M' ==> r == [Marker(seg.endPoint)]
    ensures r != [] && seg.command != 'M' ==> r[|r| - 1] == Dot(seg.endPoint, Lime)
  {
    var s := seg.startPoint;
    var e := seg.endPoint;
    match seg.command
    case 'M' => [Marker(e)]
    case 'L' => [Line(s, e), Dot(e, Lime)]
    case 'C' =>
      var c1 := ControlPoint(seg, 0, s);
      var c2 := ControlPoint(seg, 1, e);
      [Curve('C', [s, c1, c2, e]), Handle(s, c1), Handle(e, c2), Dot(c1, Mint), Dot(c2, Mint), Dot(e, Lime)]
    case 'S' =>
      var c2 := ControlPoint(seg, 0, e);
      [Curve('S', [s, c2, e]), Handle(e, c2), Dot(c2, Mint), Dot(e, Lime)]
    case 'Q' =>
      var c := ControlPoint(seg, 0, s);
      [Curve('Q', [s, c, e]), Handle(s, c), Handle(e, c), Dot(c, Mint), Dot(e, Lime)]
    case _ => []
  }

  /** What a shape is drawn for, as the kind-to-shapes table names it. */
  datatype Role = PointMarker | SegmentLine | SegmentCurve | ControlHandle | ControlDot | EndDot | VertexDot

  function RoleOf(sh: Shape): Role {
    match sh
    case Marker(_) => PointMarker
    case Line(_, _) => SegmentLine
    case Curve(_, _) => SegmentCurve
    case Handle(_, _) => ControlHandle
    case Dot(_, fill) => if fill == Mint then ControlDot else if fill == Lime then EndDot else VertexDot
  }

  function Roles(g: seq<Shape>): (r: seq<Role>)
    ensures |r| == |g| && forall i :: 0 <= i < |g| ==> r[i] == RoleOf(g[i])
  {
    seq(|g|, i requires 0 <= i < |g| => RoleOf(g[i]))
  }

  /** The kind-to-shapes table, as a reference: M one point marker; L a line and an
      end-point dot; C a curve, two handles, two control dots and an end-point dot;
      S a curve, one handle, one control dot and an end-point dot; Q a curve, two
      handles, one control dot and an end-point dot; any other kind nothing. */
  function TableRoles(kind: char): multiset<Role> {
    match kind
    case 'M' => multiset([PointMarker])
    case 'L' => multiset([SegmentLine, EndDot])
    case 'C' => multiset([SegmentCurve, ControlHandle, ControlHandle, ControlDot, ControlDot, EndDot])
    case 'S' => multiset([SegmentCurve, ControlHandle, ControlDot, EndDot])
    case 'Q' => multiset([SegmentCurve, ControlHandle, ControlHandle, ControlDot, EndDot])
    case _ => multiset{}
  }

  /** The centres of the control-point dots of `g`, in drawing order. */
  function ControlDots(g: seq<Shape>): seq<Point> {
    if g == [] then [] else (if RoleOf(g[0]) == ControlDot then [g[0].center] else []) + ControlDots(g[1..])
  }

  /** The points a segment supplies: its two ends and its control points. */
  predicate Supplied(seg: SegmentInfo, p: Point) {
    || p == seg.startPoint || p == seg.endPoint
    || (seg.controlPoints.Some? && p in seg.controlPoints.value)
  }

  /** Every point shape `sh` is drawn through is one `seg` supplies. */
  predicate DrawnFrom(sh: Shape, seg: SegmentInfo) {
    match sh
    case Marker(c) => Supplied(seg, c)
    case Line(a, b) => Supplied(seg, a) && Supplied(seg, b)
    case Curve(_, ps) => forall k :: 0 <= k < |ps| ==> Supplied(seg, ps[k])
    case Handle(a, b) => Supplied(seg, a) && Supplied(seg, b)
    case Dot(c, _) => Supplied(seg, c)
  }

  /** The group drawn for a segment has the shapes the kind-to-shapes table lists, every
      shape is drawn through points the segment supplies, the marker of a move-to and the
      last dot of every other drawn kind sit on the end point, and a curve runs from the
      start point to the end point. */
  lemma SegmentShapesTable(seg: SegmentInfo, g: seq<Shape>)
    requires g == SegmentShapes(seg)
    ensures multiset(Roles(g)) == TableRoles(seg.command)
    ensures forall k :: 0 <= k < |g| ==> DrawnFrom(g[k], seg)
    ensures seg.command == 'M' ==> g == [Marker(seg.endPoint)]
    ensures seg.command in "LCSQ" ==> g != [] && g[|g| - 1] == Dot(seg.endPoint, Lime)
    ensures seg.command in "CSQ" ==> CurveFromTo(g, seg.startPoint, seg.endPoint)
  {
    match seg.command
    case 'M' => MoveShapes(seg, g);
    case 'L' => LineShapes(seg, g);
    case 'C' => CubicShapes(seg, g); CubicDrawn(seg, g);
    case 'S' => SmoothShapes(seg, g); SmoothDrawn(seg, g);
    case 'Q' => QuadraticShapes(seg, g); QuadraticDrawn(seg, g);
    case _ =>
  }

  /** The group opens with a curve from `s` to `e`. */
  predicate CurveFromTo(g: seq<Shape>, s: Point, e: Point) {
    && g != [] && g[0].Curve? && |g[0].points| >= 2
    && g[0].points[0] == s && g[0].points[|g[0].points| - 1] == e
  }

  lemma FallbackSupplied(seg: SegmentInfo, k: nat, fallback: Point)
    requires Supplied(seg, fallback)
    ensures Supplied(seg, ControlPoint(seg, k, fallback))
  {
  }

  lemma MoveShapes(seg: SegmentInfo, g: seq<Shape>)
    requires seg.command == 'M' && g == SegmentShapes(seg)
    ensures g == [Marker(seg.endPoint)] && multiset(Roles(g)) == TableRoles('M')
    ensures forall k :: 0 <= k < |g| ==> DrawnFrom(g[k], seg)
  {
    assert Roles(g) == [PointMarker];
  }

  lemma LineShapes(seg: SegmentInfo, g: seq<Shape>)
    requires seg.command == 'L' && g == SegmentShapes(seg)
    ensures g == [Line(seg.startPoint, seg.endPoint), Dot(seg.endPoint, Lime)] && multiset(Roles(g)) == TableRoles('L')
    ensures forall k :: 0 <= k < |g| ==> DrawnFrom(g[k], seg)
  {
    assert Roles(g) == [SegmentLine, EndDot];
  }

  lemma CubicShapes(seg: SegmentInfo, g: seq<Shape>)
    requires seg.command == 'C' && g == SegmentShapes(seg)
    ensures multiset(Roles(g)) == TableRoles('C')
    ensures g != [] && g[|g| - 1] == Dot(seg.endPoint, Lime) && CurveFromTo(g, seg.startPoint, seg.endPoint)
  {
    var s, e := seg.startPoint, seg.endPoint;
    var c1, c2 := ControlPoint(seg, 0, s), ControlPoint(seg, 1, e);
    assert g == [Curve('C', [s, c1, c2, e]), Handle(s, c1), Handle(e, c2), Dot(c1, Mint), Dot(c2, Mint), Dot(e, Lime)];
    assert Roles(g) == [SegmentCurve, ControlHandle, ControlHandle, ControlDot, ControlDot, EndDot];
  }

  lemma CubicDrawn(seg: SegmentInfo, g: seq<Shape>)
    requires seg.command == 'C' && g == SegmentShapes(seg)
    ensures forall k :: 0 <= k < |g| ==> DrawnFrom(g[k], seg)
  {
    var s, e := seg.startPoint, seg.endPoint;
    var c1, c2 := ControlPoint(seg, 0, s), ControlPoint(seg, 1, e);
    FallbackSupplied(seg, 0, s);
    FallbackSupplied(seg, 1, e);
    CurveDrawn(seg, [s, c1, c2, e]);
    assert g == [Curve('C', [s, c1, c2, e]), Handle(s, c1), Handle(e, c2), Dot(c1, Mint), Dot(c2, Mint), Dot(e, Lime)];
  }

  lemma SmoothShapes(seg: SegmentInfo, g: seq<Shape>)
    requires seg.command == 'S' && g == SegmentShapes(seg)
    ensures multiset(Roles(g)) == TableRoles('S')
    ensures g != [] && g[|g| - 1] == Dot(seg.endPoint, Lime) && CurveFromTo(g, seg.startPoint, seg.endPoint)
  {
    var s, e := seg.startPoint, seg.endPoint;
    var c2 := ControlPoint(seg, 0, e);
    assert g == [Curve('S', [s, c2, e]), Handle(e, c2), Dot(c2, Mint), Dot(e, Lime)];
    assert Roles(g) == [SegmentCurve, ControlHandle, ControlDot, EndDot];
  }

  lemma SmoothDrawn(seg: SegmentInfo, g: seq<Shape>)
    requires seg.command == 'S' && g == SegmentShapes(seg)
    ensures forall k :: 0 <= k < |g| ==> DrawnFrom(g[k], seg)
  {
    var s, e := seg.startPoint, seg.endPoint;
    var c2 := ControlPoint(seg, 0, e);
    FallbackSupplied(seg, 0, e);
    CurveDrawn(seg, [s, c2, e]);
    assert g == [Curve('S', [s, c2, e]), Handle(e, c2), Dot(c2, Mint), Dot(e, Lime)];
  }

  lemma QuadraticShapes(seg: SegmentInfo, g: seq<Shape>)
    requires seg.command == 'Q' && g == SegmentShapes(seg)
    ensures multiset(Roles(g)) == TableRoles('Q')
    ensures g != [] && g[|g| - 1] == Dot(seg.endPoint, Lime) && CurveFromTo(g, seg.startPoint, seg.endPoint)
  {
    var s, e := seg.startPoint, seg.endPoint;
    var c := ControlPoint(seg, 0, s);
    assert g == [Curve('Q', [s, c, e]), Handle(s, c), Handle(e, c), Dot(c, Mint), Dot(e, Lime)];
    assert Roles(g) == [SegmentCurve, ControlHandle, ControlHandle, ControlDot, EndDot];
  }

  lemma QuadraticDrawn(seg: SegmentInfo, g: seq<Shape>)
    requires seg.command == 'Q' && g == SegmentShapes(seg)
    ensures forall k :: 0 <= k < |g| ==> DrawnFrom(g[k], seg)
  {
    var s, e := seg.startPoint, seg.endPoint;
    var c := ControlPoint(seg, 0, s);
    FallbackSupplied(seg, 0, s);
    CurveDrawn(seg, [s, c, e]);
    assert g == [Curve('Q', [s, c, e]), Handle(s, c), Handle(e, c), Dot(c, Mint), Dot(e, Lime)];
  }

  /** A curve through supplied points is drawn from the segment. */
  lemma CurveDrawn(seg: SegmentInfo, ps: seq<Point>)
    requires forall k :: 0 <= k < |ps| ==> Supplied(seg, ps[k])
    ensures forall c :: DrawnFrom(Curve(c, ps), seg)
  {
  }

  /** The control dots of the group: for C the first and second control points, for S and Q
      the first, each standing in for a missing one by the end or start point as the source
      does; no control dots for any other kind. */
  lemma SegmentControlDots(seg: SegmentInfo)
    ensures ControlDots(SegmentShapes(seg)) ==
              match seg.command
              case 'C' => [ControlPoint(seg, 0, seg.startPoint), ControlPoint(seg, 1, seg.endPoint)]
              case 'S' => [ControlPoint(seg, 0, seg.endPoint)]
              case 'Q' => [ControlPoint(seg, 0, seg.startPoint)]
              case _ => []
  {
    var g := SegmentShapes(seg);
    match seg.command
    case 'C' =>
      ControlDotsAppend(g[..4], g[4..]);
      assert g[..4] + g[4..] == g;
      ControlDotsOne(g[..4], 3);
      ControlDotsOne(g[4..], 0);
    case 'S' => ControlDotsOne(g, 2);
    case 'Q' => ControlDotsOne(g, 3);
    case _ => ControlDotsNone(g);
  }

  lemma {:induction false} ControlDotsNone(g: seq<Shape>)
    requires forall j :: 0 <= j < |g| ==> RoleOf(g[j]) != ControlDot
    ensures ControlDots(g) == []
  {
    if g != [] {
      ControlDotsNone(g[1..]);
    }
  }

  lemma {:induction false} ControlDotsOne(g: seq<Shape>, k: nat)
    requires k < |g| && RoleOf(g[k]) == ControlDot
    requires forall j :: 0 <= j < |g| && j != k ==> RoleOf(g[j]) != ControlDot
    ensures ControlDots(g) == [g[k].center]
  {
    if k == 0 {
      ControlDotsNone(g[1..]);
    } else {
      ControlDotsOne(g[1..], k - 1);
    }
  }

  lemma {:induction false} ControlDotsAppend(a: seq<Shape>, b: seq<Shape>)
    ensures ControlDots(a + b) == ControlDots(a) + ControlDots(b)
  {
    if a != [] {
      assert (a + b)[0] == a[0];
      assert (a + b)[1..] == a[1..] + b;
      ControlDotsAppend(a[1..], b);
      var head := if RoleOf(a[0]) == ControlDot then [a[0].center] else [];
      assert ControlDots(a + b) == head + (ControlDots(a[1..]) + ControlDots(b));
      assert ControlDots(a) == head + ControlDots(a[1..]);
    } else {
      assert a + b == b;
    }
  }

  /** The segment descriptions the host sends always have a kind the renderer draws and
      carry exactly the control points that kind needs, so the group is never empty and
      its control dots are the segment's own control points: no fallback is ever used. */
  lemma HostSegmentsDrawn(ps: ParsedSegment, seg: SegmentInfo)
    requires ToSegmentInfo(ps) == Some(seg)
    ensures SegmentShapes(seg) != []
    ensures ControlDots(SegmentShapes(seg)) == match seg.controlPoints case Some(cps) => cps case None => []
  {
    assert seg.command in "MLCSQ";
    WellFormedDrawn(seg);
  }

  lemma WellFormedDrawn(seg: SegmentInfo)
    requires seg.command in "MLCSQ"
    requires seg.controlPoints.Some? <==> seg.command in "CSQ"
    requires seg.controlPoints.Some? ==> |seg.controlPoints.value| == (if seg.command == 'C' then 2 else 1)
    ensures SegmentShapes(seg) != []
    ensures ControlDots(SegmentShapes(seg)) == match seg.controlPoints case Some(cps) => cps case None => []
  {
    SegmentControlDots(seg);
    ControlPointsListed(seg);
  }

  /** For a well-formed segment, the control points the dots stand for are its own. */
  lemma ControlPointsListed(seg: SegmentInfo)
    requires seg.command in "MLCSQ"
    requires seg.controlPoints.Some? <==> seg.command in "CSQ"
    requires seg.controlPoints.Some? ==> |seg.controlPoints.value| == (if seg.command == 'C' then 2 else 1)
    ensures (match seg.command
             case 'C' => [ControlPoint(seg, 0, seg.startPoint), ControlPoint(seg, 1, seg.endPoint)]
             case 'S' => [ControlPoint(seg, 0, seg.endPoint)]
             case 'Q' => [ControlPoint(seg, 0, seg.startPoint)]
             case _ => [])
         == match seg.controlPoints case Some(cps) => cps case None => []
  {
    match seg.command
    case 'M' =>
    case 'L' =>
    case 'C' =>
      var cps := seg.controlPoints.value;
      assert cps == [cps[0], cps[1]];
    case _ =>
      var cps := seg.controlPoints.value;
      assert cps == [cps[0]];
  }

  /** The dot colour of vertex `i`: red for the vertex under the cursor, blue otherwise. */
  function VertexPaint(i: nat, activeIdx: Option<int>): Paint {
    if activeIdx == Some(i) then Red else Blue
  }

  /** The `polygon-point-highlight` group for `points`, one dot per vertex in order. */
  function PolygonGroup(points: seq<Point>, activeIdx: Option<int>): (r: seq<Shape>)
    ensures |r| == |points|
  {
    if points == [] then []
    else PolygonGroup(points[..|points| - 1], activeIdx) + [Dot(points[|points| - 1], VertexPaint(|points| - 1, activeIdx))]
  }

  /** The dot loop of `drawPolygonPointHighlight` (media/main.js:269-273). */
  method PolygonDots(points: seq<Point>, activeIdx: Option<int>) returns (dots: seq<Shape>)
    ensures dots == PolygonGroup(points, activeIdx)
  {
    dots := [];
    var i := 0;
    while i < |points|
      invariant 0 <= i <= |points|
      invariant dots == PolygonGroup(points[..i], activeIdx)
    {
      var isActive := activeIdx == Some(i);
      dots := dots + [Dot(points[i], if isActive then Red else Blue)];
      assert points[..i + 1][..i] == points[..i];
      i := i + 1;
    }
    assert points[..i] == points;
  }

  /** The polygon group has one dot per vertex, at that vertex, red exactly for the active index. */
  lemma {:induction false} PolygonGroupDots(points: seq<Point>, activeIdx: Option<int>)
    ensures |PolygonGroup(points, activeIdx)| == |points|
    ensures forall i :: 0 <= i < |points| ==>
              PolygonGroup(points, activeIdx)[i] == Dot(points[i], if activeIdx == Some(i) then Red else Blue)
  {
    if points != [] {
      PolygonGroupDots(points[..|points| - 1], activeIdx);
    }
  }

  /** At most one dot is red, and one is exactly when the active index names a vertex. */
  lemma PolygonGroupOneRed(points: seq<Point>, activeIdx: Option<int>)
    ensures var g := PolygonGroup(points, activeIdx);
            (set i | 0 <= i < |g| && g[i].Dot? && g[i].fill == Red) ==
              (if activeIdx.Some? && 0 <= activeIdx.value < |points| then {activeIdx.value} else {})
  {
    PolygonGroupDots(points, activeIdx);
  }
}
