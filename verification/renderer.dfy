/**
  The preview's renderer (media/main.js): the module-level state `scale`,
  `translateX`, `translateY`, `highlightedElement` and `lastHighlightPathKey`,
  the two overlay groups it keeps inside the rendered graphic, and the handler
  of the `update` and `highlight` messages from the extension host.

  The rendered markup is a tree of `Node`s below the `svg-content` container,
  each with its layout box in content-local coordinates; the layout engine's
  `getBoundingClientRect` is `OnScreen` applied to that box under the current
  view. The remembered key `JSON.stringify(path)` is kept as the address itself
  (`None` for the empty key): the stringification is one-to-one on arrays of
  numbers, so comparing keys is comparing addresses.
 */
module Renderer {
  import opened Base
  import opened ElementLocator
  import opened PathSegment
  import opened ViewTransform
  import opened Overlay
  import Highlight

  /** An element of the rendered tree, with its layout box in content-local coordinates. */
  datatype Node = Node(tag: string, box: Box, children: seq<Node>)

  /** The point list of a polygon highlight and the index of the vertex under the cursor. */
  datatype PolygonPoints = PolygonPoints(points: seq<Point>, activePointIndex: Option<int>)

  /** The two messages the host posts (media/main.js:284-340). */
  datatype Message =
    | Update(content: Node)
    | HighlightRequest(path: Option<Address>, segment: Option<SegmentInfo>, polygonPoints: Option<PolygonPoints>)

  function Size(n: Node): nat
    decreases n
  {
    1 + SizeOfAll(n.children)
  }

  function SizeOfAll(ns: seq<Node>): nat
    decreases ns
  {
    if ns == [] then 0 else Size(ns[0]) + SizeOfAll(ns[1..])
  }

  lemma {:induction false} ChildSmaller(ns: seq<Node>, i: nat)
    requires i < |ns|
    ensures Size(ns[i]) <= SizeOfAll(ns)
  {
    if i > 0 {
      ChildSmaller(ns[1..], i - 1);
    }
  }

  /** Following `path` down from `n`: `None` as soon as an index names no child. */
  function Walk(n: Node, path: Address): (r: Option<Node>)
    ensures r.Some? ==> Size(r.value) <= Size(n)
    decreases |path|
  {
    if path == [] then Some(n)
    else if path[0] < |n.children| then
      ChildSmaller(n.children, path[0]);
      Walk(n.children[path[0]], path[1..])
    else None
  }

  /** The element an address names below the content root; the root itself is no element. */
  function Resolve(content: Node, path: Address): (r: Option<Node>)
    ensures r.Some? ==> Size(r.value) < Size(content)
  {
    if path == [] then None
    else if Walk(content, path).Some? then
      WalkDescends(content, path);
      Walk(content, path)
    else None
  }

  /** Walking a non-empty address ends strictly below where it starts. */
  lemma {:induction false} WalkDescends(n: Node, path: Address)
    requires path != [] && Walk(n, path).Some?
    ensures Size(Walk(n, path).value) < Size(n)
    decreases |path|
  {
    var child := n.children[path[0]];
    ChildSmaller(n.children, path[0]);
    if path[1..] != [] {
      WalkDescends(child, path[1..]);
    }
  }

  /** Walking `p + q` is walking `p`, then `q` from where `p` ended. */
  lemma {:induction false} WalkAppend(n: Node, p: Address, q: Address)
    ensures Walk(n, p + q) == match Walk(n, p) case Some(m) => Walk(m, q) case None => None
    decreases |p|
  {
    if p == [] {
      assert p + q == q;
    } else {
      assert (p + q)[0] == p[0];
      assert (p + q)[1..] == p[1..] + q;
      if p[0] < |n.children| {
        WalkAppend(n.children[p[0]], p[1..], q);
      }
    }
  }

  /** An index that names no child at any level gives no element, and so does the empty
      address; otherwise the element is the one the whole address walks to. */
  lemma ResolveOutOfRange(content: Node, path: Address, i: nat)
    requires i < |path|
    requires Walk(content, path[..i]).Some? && path[i] >= |Walk(content, path[..i]).value.children|
    ensures Resolve(content, path) == None
  {
    var m := Walk(content, path[..i]).value;
    assert path == path[..i] + path[i..];
    WalkAppend(content, path[..i], path[i..]);
    assert path[i..][0] == path[i];
  }

  /** The walk of the `highlight` handler (media/main.js:302-312): on an index that names
      no child, `current` goes back to the container, and only an element other than
      the container is highlighted. */
  method ResolveAddress(content: Node, path: Address) returns (found: Option<Node>)
    ensures found == Resolve(content, path)
  {
    var current := content;
    var i := 0;
    ghost var failed := false;
    while i < |path|
      invariant 0 <= i <= |path|
      invariant !failed ==> Walk(content, path) == Walk(current, path[i..])
      invariant !failed && i == 0 ==> current == content
      invariant !failed && i > 0 ==> Size(current) < Size(content)
      invariant failed ==> current == content && Walk(content, path) == None
    {
      var idx := path[i];
      if idx >= |current.children| {
        current := content;
        failed := true;
        break;
      }
      assert path[i..][1..] == path[i + 1..];
      ChildSmaller(current.children, idx);
      current := current.children[idx];
      i := i + 1;
    }
    if !failed {
      assert path[i..] == [];
    }
    found := if current != content then Some(current) else None;
  }

  /** There is an `svg` element below `n` (`content.querySelector('svg')` finds one). */
  predicate HasSvg(n: Node)
    decreases n
  {
    exists i :: 0 <= i < |n.children| && (n.children[i].tag == "svg" || HasSvg(n.children[i]))
  }

  datatype RendererState = RendererState(
    view: View,
    content: Node,
    highlighted: Option<Node>,
    lastKey: Option<Address>,
    segmentGroup: Option<seq<Shape>>,
    polygonGroup: Option<seq<Shape>>)

  /** The scale stays positive, and overlay groups exist only inside a rendered graphic. */
  predicate Consistent(s: RendererState) {
    && s.view.scale > 0.0
    && (!HasSvg(s.content) ==> s.segmentGroup.None? && s.polygonGroup.None?)
  }

  /** The state the page script starts in (media/main.js:9-15). */
  function Initial(content: Node): RendererState {
    RendererState(View(1.0, 0.0, 0.0), content, None, None, None, None)
  }

  /** `clearSegmentHighlight` (media/main.js:55-60). */
  function ClearSegment(s: RendererState): RendererState {
    if HasSvg(s.content) then s.(segmentGroup := None) else s
  }

  /** `drawSegmentHighlight` (media/main.js:65-194). */
  function DrawSegment(s: RendererState, seg: SegmentInfo): RendererState {
    var c := ClearSegment(s);
    if HasSvg(c.content) then c.(segmentGroup := Some(SegmentShapes(seg))) else c
  }

  /** `clearPolygonHighlight` (media/main.js:239-244). */
  function ClearPolygon(s: RendererState): RendererState {
    if HasSvg(s.content) then s.(polygonGroup := None) else s
  }

  /** `drawPolygonPointHighlight` (media/main.js:251-276). */
  function DrawPolygon(s: RendererState, points: seq<Point>, activeIdx: Option<int>): RendererState {
    var c := ClearPolygon(s);
    if !HasSvg(c.content) || |points| == 0 then c else c.(polygonGroup := Some(PolygonGroup(points, activeIdx)))
  }

  /** `centerOnElement(el)` (media/main.js:22-51), with the element's screen rectangle
      measured under the current view. */
  function Recenter(s: RendererState, el: Node, container: Rect): RendererState
    requires s.view.scale > 0.0
  {
    s.(view := CenterOn(s.view, container, OnScreen(s.view, container, el.box)))
  }

  /** The `highlight` message (media/main.js:290-339). */
  function HighlightStep(s: RendererState, path: Option<Address>, segment: Option<SegmentInfo>,
                         polygon: Option<PolygonPoints>, container: Rect): (r: RendererState)
    requires s.view.scale > 0.0
    ensures r.lastKey == path && r.content == s.content && r.view.scale > 0.0
    ensures path.None? ==> r.view == s.view
  {
    match path
    case None => ClearPolygon(ClearSegment(s.(highlighted := None, lastKey := None)))
    case Some(p) =>
      var el := Resolve(s.content, p);
      var t := s.(highlighted := el, lastKey := path);
      var u := if path != s.lastKey && el.Some? then Recenter(t, el.value, container) else t;
      var v := if segment.Some? then DrawSegment(u, segment.value) else ClearSegment(u);
      if polygon.Some? then DrawPolygon(v, polygon.value.points, polygon.value.activePointIndex) else ClearPolygon(v)
  }

  /** The `update` message (media/main.js:287-289): the markup is replaced, and the overlay
      groups, which lived inside the old graphic, go with it. */
  function UpdateStep(s: RendererState, content: Node): (r: RendererState)
    ensures Consistent(s) ==> Consistent(r)
    ensures r.lastKey == s.lastKey && r.view == s.view && r.content == content
  {
    s.(content := content, segmentGroup := None, polygonGroup := None)
  }

  function OnMessage(s: RendererState, msg: Message, container: Rect): (r: RendererState)
    requires s.view.scale > 0.0
    ensures r.view.scale > 0.0
    ensures msg.Update? ==> r.view == s.view && r.lastKey == s.lastKey
    ensures msg.HighlightRequest? ==> r.lastKey == msg.path && r.content == s.content
  {
    match msg
    case Update(content) => UpdateStep(s, content)
    case HighlightRequest(path, segment, polygon) => HighlightStep(s, path, segment, polygon, container)
  }

  /** Every message keeps the scale positive and the overlays inside the graphic. */
  lemma StepConsistent(s: RendererState, msg: Message, container: Rect)
    requires Consistent(s)
    ensures Consistent(OnMessage(s, msg, container))
  {
  }

  /** A null address forgets the highlighted element and the remembered key and removes
      both overlay groups; the view and the markup stay as they are. */
  lemma NullAddressClears(s: RendererState, segment: Option<SegmentInfo>, polygon: Option<PolygonPoints>, container: Rect,
                          r: RendererState)
    requires Consistent(s) && r == HighlightStep(s, None, segment, polygon, container)
    ensures && r.highlighted == None && r.lastKey == None
            && r.segmentGroup == None && r.polygonGroup == None
            && r.view == s.view && r.content == s.content
  {
  }

  /** For an address: the highlighted element is the one it resolves to (or none), the key
      is remembered even when it resolves to nothing, and the view is re-centred on the
      element exactly when the address differs from the remembered one and resolves. */
  lemma AddressRecenters(s: RendererState, p: Address, segment: Option<SegmentInfo>,
                         polygon: Option<PolygonPoints>, container: Rect, r: RendererState, el: Option<Node>)
    requires Consistent(s) && r == HighlightStep(s, Some(p), segment, polygon, container) && el == Resolve(s.content, p)
    ensures && r.highlighted == el && r.lastKey == Some(p) && r.content == s.content
            && (Some(p) != s.lastKey && el.Some? ==>
                  r.view == CenterOn(s.view, container, OnScreen(s.view, container, el.value.box)))
            && (Some(p) == s.lastKey || el.None? ==> r.view == s.view)
  {
  }

  /** Overlays are replaced, never merged: after an address, the segment group is exactly
      the group for the message's segment and the polygon group exactly the dots for its
      points (when there is a graphic and, for dots, at least one point), whatever groups
      there were before. */
  lemma OverlaysReplaced(s: RendererState, p: Address, segment: Option<SegmentInfo>,
                         polygon: Option<PolygonPoints>, container: Rect, r: RendererState)
    requires Consistent(s) && r == HighlightStep(s, Some(p), segment, polygon, container)
    ensures && r.segmentGroup == (if segment.Some? && HasSvg(s.content) then Some(SegmentShapes(segment.value)) else None)
            && r.polygonGroup == (if polygon.Some? && HasSvg(s.content) && |polygon.value.points| > 0
                                  then Some(PolygonGroup(polygon.value.points, polygon.value.activePointIndex))
                                  else None)
  {
  }

  /** The same highlight twice in a row changes nothing the second time: the address is
      remembered, so the view is not re-centred again, and the overlays are redrawn as they were. */
  lemma HighlightIdempotent(s: RendererState, path: Option<Address>, segment: Option<SegmentInfo>,
                            polygon: Option<PolygonPoints>, container: Rect, r: RendererState)
    requires Consistent(s) && r == HighlightStep(s, path, segment, polygon, container)
    ensures r.view.scale > 0.0 && HighlightStep(r, path, segment, polygon, container) == r
  {
  }

  /** Replacing the markup keeps the remembered key, so highlighting the same address
      again afterwards does not re-centre the view. */
  lemma UpdateKeepsKey(s: RendererState, content: Node, segment: Option<SegmentInfo>,
                       polygon: Option<PolygonPoints>, container: Rect)
    requires Consistent(s) && s.lastKey.Some?
    ensures HighlightStep(UpdateStep(s, content), s.lastKey, segment, polygon, container).view == s.view
  {
  }

  /** The messages the extension host sends never draw polygon dots, and draw a segment
      group, never an empty one, exactly when there is a graphic and the cursor is on a
      segment of a path's `d` attribute. */
  lemma HostHighlight(s: RendererState, text: string, offset: int, container: Rect,
                      m: Highlight.HighlightMessage, r: RendererState)
    requires Consistent(s)
    requires m == Highlight.HighlightFor(text, offset)
    requires r == OnMessage(s, HighlightRequest(m.path, m.segment, None), container)
    ensures r.polygonGroup == None
    ensures r.segmentGroup.Some? <==> HasSvg(s.content) && m.path.Some? && m.segment.Some?
    ensures r.segmentGroup.Some? ==> r.segmentGroup.value != []
  {
    assert r == HighlightStep(s, m.path, m.segment, None, container);
    match m.path
    case None =>
      NullAddressClears(s, m.segment, None, container, r);
    case Some(p) =>
      OverlaysReplaced(s, p, m.segment, None, container, r);
      if m.segment.Some? {
        var ps, _ := HostSegment(text, offset, m, m.segment.value);
        HostSegmentsDrawn(ps, m.segment.value);
      }
  }

  /** A segment the host sends describes one of the segments parsed from the `d` value of
      the `path` element under the cursor. */
  lemma HostSegment(text: string, offset: int, m: Highlight.HighlightMessage, seg: SegmentInfo)
    returns (ps: PathParser.ParsedSegment, d: Highlight.DValue)
    requires m == Highlight.HighlightFor(text, offset) && m.segment == Some(seg)
    ensures ElementAt(text, offset).Some? && ElementAt(text, offset).value.tagName == "path"
    ensures Highlight.DAttribute(text, ElementAt(text, offset).value.openTagStart, ElementAt(text, offset).value.openTagEnd) == Some(d)
    ensures ps in PathParser.Segments(d.value)
    ensures ToSegmentInfo(ps) == Some(seg)
  {
    var el := ElementAt(text, offset).value;
    Highlight.HighlightForElement(text, offset, m, el);
    match Highlight.DAttribute(text, el.openTagStart, el.openTagEnd)
    case None =>
      Highlight.PathSegmentNeedsD(text, offset, el.openTagStart, el.openTagEnd);
      assert false;
    case Some(dv) =>
      d := dv;
      Highlight.PathSegmentInD(text, offset, el.openTagStart, el.openTagEnd, d);
      var segs := PathParser.Segments(d.value);
      var k := Pick(segs, Highlight.CursorInD(d, offset)).value;
      ps := segs[k];
  }

  /** The page script's renderer state and overlay groups. */
  class Renderer {
    var scale: real
    var translateX: real
    var translateY: real
    var content: Node
    var highlightedElement: Option<Node>
    var lastHighlightPath: Option<Address>
    var segmentGroup: Option<seq<Shape>>
    var polygonGroup: Option<seq<Shape>>

    function State(): RendererState
      reads this
    {
      RendererState(View(scale, translateX, translateY), content, highlightedElement, lastHighlightPath,
                    segmentGroup, polygonGroup)
    }

    ghost predicate Valid()
      reads this
    {
      Consistent(State())
    }

    constructor(content: Node)
      ensures Valid() && State() == Initial(content)
    {
      scale := 1.0;
      translateX := 0.0;
      translateY := 0.0;
      this.content := content;
      highlightedElement := None;
      lastHighlightPath := None;
      segmentGroup := None;
      polygonGroup := None;
    }

    method CenterOnElement(el: Node, container: Rect)
      modifies this
      requires Valid()
      ensures Valid() && State() == Recenter(old(State()), el, container)
    {
      if container.width == 0.0 || container.height == 0.0 {
        return;
      }
      ghost var v := View(scale, translateX, translateY);
      var elRect := OnScreen(View(scale, translateX, translateY), container, el.box);
      if elRect.width == 0.0 && elRect.height == 0.0 {
        return;
      }
      var localX := (elRect.left - container.left - translateX) / scale;
      var localY := (elRect.top - container.top - translateY) / scale;
      var localW: Length := elRect.width / scale;
      var localH: Length := elRect.height / scale;
      assert ToLocal(v, container, elRect) == Box(localX, localY, localW, localH);
      var availW := container.width - Padding * 2.0;
      var availH := container.height - Padding * 2.0;
      if availW <= 0.0 || availH <= 0.0 {
        return;
      }
      var newScale := Limit(availH, localH, Limit(availW, localW, MaxScale));
      var elCenterX := localX + localW / 2.0;
      var elCenterY := localY + localH / 2.0;
      assert newScale == FitScale(availW, availH, Box(localX, localY, localW, localH));
      CenterOnFitted(v, container, elRect, Box(localX, localY, localW, localH), newScale, elCenterX, elCenterY);
      translateX := container.width / 2.0 - elCenterX * newScale;
      translateY := container.height / 2.0 - elCenterY * newScale;
      scale := newScale;
    }

    method ClearSegmentHighlight()
      modifies this
      requires Valid()
      ensures Valid() && State() == ClearSegment(old(State()))
    {
      if HasSvg(content) {
        segmentGroup := None;
      }
    }

    method DrawSegmentHighlight(seg: SegmentInfo)
      modifies this
      requires Valid()
      ensures Valid() && State() == DrawSegment(old(State()), seg)
    {
      ClearSegmentHighlight();
      if !HasSvg(content) {
        return;
      }
      segmentGroup := Some(SegmentShapes(seg));
    }

    method ClearPolygonHighlight()
      modifies this
      requires Valid()
      ensures Valid() && State() == ClearPolygon(old(State()))
    {
      if HasSvg(content) {
        polygonGroup := None;
      }
    }

    method DrawPolygonPointHighlight(points: seq<Point>, activeIdx: Option<int>)
      modifies this
      requires Valid()
      ensures Valid() && State() == DrawPolygon(old(State()), points, activeIdx)
    {
      ClearPolygonHighlight();
      if !HasSvg(content) || |points| == 0 {
        return;
      }
      var dots := PolygonDots(points, activeIdx);
      polygonGroup := Some(dots);
    }

    method OnHighlight(path: Option<Address>, segment: Option<SegmentInfo>, polygon: Option<PolygonPoints>,
                       container: Rect)
      modifies this
      requires Valid()
      ensures Valid() && State() == HighlightStep(old(State()), path, segment, polygon, container)
    {
      if path.None? {
        highlightedElement := None;
        lastHighlightPath := None;
        ClearSegmentHighlight();
        ClearPolygonHighlight();
        return;
      }
      var newElement := ResolveAddress(content, path.value);
      var elementChanged := path != lastHighlightPath;
      highlightedElement := newElement;
      lastHighlightPath := path;
      if elementChanged && newElement.Some? {
        CenterOnElement(newElement.value, container);
      }
      if segment.Some? {
        DrawSegmentHighlight(segment.value);
      } else {
        ClearSegmentHighlight();
      }
      if polygon.Some? {
        DrawPolygonPointHighlight(polygon.value.points, polygon.value.activePointIndex);
      } else {
        ClearPolygonHighlight();
      }
    }

    method OnUpdate(newContent: Node)
      modifies this
      requires Valid()
      ensures Valid() && State() == UpdateStep(old(State()), newContent)
    {
      content := newContent;
      segmentGroup := None;
      polygonGroup := None;
    }

    /** The `message` listener (media/main.js:284-341). */
    method Receive(msg: Message, container: Rect)
      modifies this
      requires Valid()
      ensures Valid() && State() == OnMessage(old(State()), msg, container)
    {
      match msg
      case Update(newContent) => OnUpdate(newContent);
      case HighlightRequest(path, segment, polygon) => OnHighlight(path, segment, polygon, container);
    }
  }
}
