/**
  The fit-to-view arithmetic of the preview's renderer: `centerOnElement`
  (media/main.js:22-51). The renderer keeps a view transform
  `translate(translateX, translateY) scale(scale)` on the content; a point at
  content-local `(x, y)` appears on screen at
  `(container.left + translateX + scale * x, container.top + translateY + scale * y)`.
  Coordinates are exact reals: the IEEE-754 `Infinity` that JavaScript yields for
  a zero-width (or zero-height) element is modelled by leaving that ratio out of
  the minimum, where `Infinity` could never win.
 */
module ViewTransform {
  /** A non-negative extent, as a layout box always has. */
  type Length = r: real | r >= 0.0

  /** A screen rectangle, as measured by the layout engine. */
  datatype Rect = Rect(left: real, top: real, width: Length, height: Length)

  /** A box in the content's own (pre-transform) coordinates. */
  datatype Box = Box(x: real, y: real, w: Length, h: Length)

  datatype View = View(scale: real, translateX: real, translateY: real)

  /** The padding kept free on each side of the container (media/main.js:35). */
  const Padding: real := 40.0
  /** The largest zoom factor `centerOnElement` picks (media/main.js:41). */
  const MaxScale: real := 10.0

  function Min(a: real, b: real): (m: real)
    ensures m <= a && m <= b && (m == a || m == b)
  {
    if a <= b then a else b
  }

  /** `Math.min(avail / extent, bound)`; a zero extent gives `Infinity`, which never wins. */
  function Limit(avail: real, extent: Length, bound: real): (m: real)
    ensures m <= bound
    ensures extent > 0.0 ==> m <= avail / extent
    ensures m == bound || (extent > 0.0 && m == avail / extent)
  {
    if extent > 0.0 then Min(avail / extent, bound) else bound
  }

  /** Where the layout puts a content-local box on screen under view `v`. */
  function OnScreen(v: View, container: Rect, b: Box): (r: Rect)
    requires v.scale > 0.0
    ensures r.width == v.scale * b.w && r.height == v.scale * b.h
  {
    Rect(container.left + v.translateX + v.scale * b.x, container.top + v.translateY + v.scale * b.y,
         v.scale * b.w, v.scale * b.h)
  }

  /** The conversion at media/main.js:30-33 of a screen rectangle to content-local coordinates. */
  function ToLocal(v: View, container: Rect, el: Rect): Box
    requires v.scale > 0.0
  {
    Box((el.left - container.left - v.translateX) / v.scale, (el.top - container.top - v.translateY) / v.scale,
        el.width / v.scale, el.height / v.scale)
  }

  /** None of the early returns of `centerOnElement` fires. */
  predicate CanFit(container: Rect, el: Rect) {
    && container.width > 2.0 * Padding && container.height > 2.0 * Padding
    && (el.width > 0.0 || el.height > 0.0)
  }

  /** The view after `centerOnElement` on an element whose screen rectangle is `el`. */
  function CenterOn(v: View, container: Rect, el: Rect): (r: View)
    requires v.scale > 0.0
    ensures r.scale > 0.0
    ensures !CanFit(container, el) ==> r == v
  {
    if container.width == 0.0 || container.height == 0.0 then v
    else if el.width == 0.0 && el.height == 0.0 then v
    else
      var local := ToLocal(v, container, el);
      var availW := container.width - Padding * 2.0;
      var availH := container.height - Padding * 2.0;
      if availW <= 0.0 || availH <= 0.0 then v
      else
        var s := FitScale(availW, availH, local);
        var centerX := local.x + local.w / 2.0;
        var centerY := local.y + local.h / 2.0;
        View(s, container.width / 2.0 - centerX * s, container.height / 2.0 - centerY * s)
  }

  /** `Math.min(availW / localW, availH / localH, 10)` for a box that is not 0×0. */
  function FitScale(availW: real, availH: real, local: Box): (s: real)
    requires availW > 0.0 && availH > 0.0
    requires local.w > 0.0 || local.h > 0.0
    ensures 0.0 < s <= MaxScale
  {
    var s := Limit(availH, local.h, Limit(availW, local.w, MaxScale));
    assert local.w > 0.0 ==> availW / local.w > 0.0;
    assert local.h > 0.0 ==> availH / local.h > 0.0;
    s
  }

  lemma MulBelow(s: real, q: real, l: real)
    requires l > 0.0 && s <= q
    ensures s * l <= q * l
  {
  }

  /** Reading a box back from where the layout put it gives the box itself. */
  lemma LocalRoundTrip(v: View, container: Rect, b: Box)
    requires v.scale > 0.0
    ensures ToLocal(v, container, OnScreen(v, container, b)) == b
  {
    var r := OnScreen(v, container, b);
    assert (r.left - container.left - v.translateX) / v.scale == b.x;
    assert (r.top - container.top - v.translateY) / v.scale == b.y;
    assert r.width / v.scale == b.w;
    assert r.height / v.scale == b.h;
  }

  /** The fitted scale keeps the box inside the available area, and it is 10 or the box
      fills the area in one direction. */
  lemma FitScaleFills(availW: real, availH: real, local: Box, s: real)
    requires availW > 0.0 && availH > 0.0
    requires local.w > 0.0 || local.h > 0.0
    requires s == FitScale(availW, availH, local)
    ensures s * local.w <= availW && s * local.h <= availH
    ensures s == MaxScale || s * local.w == availW || s * local.h == availH
  {
    assert s == Limit(availH, local.h, Limit(availW, local.w, MaxScale));
    if local.w > 0.0 {
      MulBelow(s, availW / local.w, local.w);
    }
    if local.h > 0.0 {
      MulBelow(s, availH / local.h, local.h);
    }
  }

  /** `CenterOn` on an element that can be fitted, with the steps of its body named:
      the local box `b`, the scale `s` and the box's centre `(cx, cy)`. */
  lemma CenterOnFitted(v: View, container: Rect, el: Rect, b: Box, s: real, cx: real, cy: real)
    requires v.scale > 0.0
    requires CanFit(container, el)
    requires b == ToLocal(v, container, el)
    requires s == FitScale(container.width - Padding * 2.0, container.height - Padding * 2.0, b)
    requires cx == b.x + b.w / 2.0 && cy == b.y + b.h / 2.0
    ensures CenterOn(v, container, el) == View(s, container.width / 2.0 - cx * s, container.height / 2.0 - cy * s)
  {
  }

  /** When the element can be fitted, the new scale is the largest (up to 10) at which
      the element's local box fits the padded container, and the box's centre is
      shown at the container's centre. */
  lemma CenterOnFits(v: View, container: Rect, el: Rect, b: Box, r: View)
    requires v.scale > 0.0
    requires CanFit(container, el)
    requires b == ToLocal(v, container, el) && r == CenterOn(v, container, el)
    ensures 0.0 < r.scale <= MaxScale
    ensures r.scale * b.w <= container.width - 2.0 * Padding
    ensures r.scale * b.h <= container.height - 2.0 * Padding
    ensures r.scale == MaxScale
            || r.scale * b.w == container.width - 2.0 * Padding
            || r.scale * b.h == container.height - 2.0 * Padding
    ensures r.translateX + r.scale * (b.x + b.w / 2.0) == container.width / 2.0
    ensures r.translateY + r.scale * (b.y + b.h / 2.0) == container.height / 2.0
  {
    var availW := container.width - Padding * 2.0;
    var availH := container.height - Padding * 2.0;
    var s := FitScale(availW, availH, b);
    var cx, cy := b.x + b.w / 2.0, b.y + b.h / 2.0;
    CenterOnFitted(v, container, el, b, s, cx, cy);
    FitScaleFills(availW, availH, b, s);
    FittedView(r, b, s, cx, cy, container.width, container.height);
  }

  /** The facts of `CenterOnFits` for a view given by its scale and translation. */
  lemma FittedView(r: View, b: Box, s: real, cx: real, cy: real, width: real, height: real)
    requires cx == b.x + b.w / 2.0 && cy == b.y + b.h / 2.0
    requires r == View(s, width / 2.0 - cx * s, height / 2.0 - cy * s)
    requires 0.0 < s <= MaxScale
    requires s * b.w <= width - Padding * 2.0 && s * b.h <= height - Padding * 2.0
    requires s == MaxScale || s * b.w == width - Padding * 2.0 || s * b.h == height - Padding * 2.0
    ensures && 0.0 < r.scale <= MaxScale
            && r.scale * b.w <= width - 2.0 * Padding
            && r.scale * b.h <= height - 2.0 * Padding
            && (r.scale == MaxScale || r.scale * b.w == width - 2.0 * Padding || r.scale * b.h == height - 2.0 * Padding)
            && r.translateX + r.scale * (b.x + b.w / 2.0) == width / 2.0
            && r.translateY + r.scale * (b.y + b.h / 2.0) == height / 2.0
  {
    Recentred(width, s, cx, b.x, b.w);
    Recentred(height, s, cy, b.y, b.h);
  }

  lemma Recentred(extent: real, s: real, c: real, x: real, w: real)
    requires c == x + w / 2.0
    ensures (extent / 2.0 - c * s) + s * (x + w / 2.0) == extent / 2.0
  {
    assert c * s == s * (x + w / 2.0);
  }

  /** Centred on screen: after re-centring, the element's screen rectangle has its centre
      at the container's centre and lies inside the container's padded area. */
  lemma CenterOnScreen(v: View, container: Rect, b: Box, r: View)
    requires v.scale > 0.0
    requires CanFit(container, OnScreen(v, container, b))
    requires r == CenterOn(v, container, OnScreen(v, container, b))
    ensures r.scale > 0.0
    ensures OnScreen(r, container, b).left + OnScreen(r, container, b).width / 2.0 == container.left + container.width / 2.0
    ensures OnScreen(r, container, b).top + OnScreen(r, container, b).height / 2.0 == container.top + container.height / 2.0
    ensures OnScreen(r, container, b).width <= container.width - 2.0 * Padding
    ensures OnScreen(r, container, b).height <= container.height - 2.0 * Padding
  {
    LocalRoundTrip(v, container, b);
    CenterOnFits(v, container, OnScreen(v, container, b), b, r);
    Shown(container, b, r);
  }

  /** The screen-side reading of the facts `CenterOnFits` states in local coordinates. */
  lemma Shown(container: Rect, b: Box, r: View)
    requires r.scale > 0.0
    requires r.scale * b.w <= container.width - 2.0 * Padding
    requires r.scale * b.h <= container.height - 2.0 * Padding
    requires r.translateX + r.scale * (b.x + b.w / 2.0) == container.width / 2.0
    requires r.translateY + r.scale * (b.y + b.h / 2.0) == container.height / 2.0
    ensures OnScreen(r, container, b).left + OnScreen(r, container, b).width / 2.0 == container.left + container.width / 2.0
    ensures OnScreen(r, container, b).top + OnScreen(r, container, b).height / 2.0 == container.top + container.height / 2.0
    ensures OnScreen(r, container, b).width <= container.width - 2.0 * Padding
    ensures OnScreen(r, container, b).height <= container.height - 2.0 * Padding
  {
    Centred(container.left, r.translateX, r.scale, b.x, b.w, container.width);
    Centred(container.top, r.translateY, r.scale, b.y, b.h, container.height);
  }

  lemma Centred(origin: real, t: real, s: real, x: real, w: real, extent: real)
    requires t + s * (x + w / 2.0) == extent / 2.0
    ensures (origin + t + s * x) + (s * w) / 2.0 == origin + extent / 2.0
  {
    assert s * (x + w / 2.0) == s * x + (s * w) / 2.0;
  }
}
