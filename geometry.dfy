/** Boxes, progress decoding and the two pieces of arithmetic of the scrollable
    tab bar: the underline blend (updateTabUnderline) and the scroll target
    (updateTabPanel). Layout numbers are reals: the component only blends,
    floors and compares them. */
module TabGeometry {

  datatype Option<T> = None | Some(value: T)

  /** The box a layout event carries (`nativeEvent.layout`). */
  datatype LayoutBox = LayoutBox(x: real, y: real, width: real, height: real)

  /** One tab's recorded measurement, in strip coordinates. */
  datatype TabBox = TabBox(left: real, right: real, width: real, height: real)

  /** The underline's style target. */
  datatype Underline = Underline(left: real, width: real)

  function Min(a: real, b: real): (m: real) { if a <= b then a else b }
  function Max(a: real, b: real): (m: real) { if a >= b then a else b }

  /** A tab box is consistent when its right edge is its left edge plus its width. */
  predicate Consistent(b: TabBox) { b.right == b.left + b.width }

  /** The measurement measureTab records for a tab's layout box. */
  function TabMeasurement(l: LayoutBox): (b: TabBox)
    ensures Consistent(b)
    ensures b.left == l.x && b.width == l.width && b.height == l.height
  {
    TabBox(l.x, l.x + l.width, l.width, l.height)
  }

  // ---------------------------------------------------------------------------
  // Progress decoding

  /** `Math.floor(value)`: the page the progress value is on. */
  function PagePosition(value: real): (position: int) { value.Floor }

  /** `value % 1` with JavaScript's remainder, which truncates toward zero and
      so keeps the sign of `value`: the unique r with |r| < 1, the sign of
      `value`, and `value - r` a whole number. */
  function PageOffset(value: real): (r: real)
    ensures -1.0 < r < 1.0
    ensures value >= 0.0 ==> r >= 0.0
    ensures value <= 0.0 ==> r <= 0.0
    ensures (value - r).Floor as real == value - r
  {
    if value >= 0.0 then
      var whole := value.Floor;
      assert (whole as real).Floor == whole;
      value - whole as real
    else
      var whole := -((-value).Floor);
      assert (whole as real).Floor == whole;
      value - whole as real
  }

  /** A non-negative progress value splits into a whole page and a fraction in [0, 1). */
  lemma DecodeProgress(value: real)
    requires value >= 0.0
    ensures PagePosition(value) >= 0
    ensures 0.0 <= PageOffset(value) < 1.0
    ensures PagePosition(value) as real + PageOffset(value) == value
  {
  }

  /** For a progress value in [0, tabCount - 1] the page is a valid tab, and it is
      the last tab exactly when the progress value is at the end, with no fraction. */
  lemma PositionInRange(value: real, tabCount: nat)
    requires tabCount >= 1 && 0.0 <= value <= (tabCount - 1) as real
    ensures 0 <= PagePosition(value) <= tabCount - 1
    ensures PagePosition(value) == tabCount - 1 <==> value == (tabCount - 1) as real
    ensures PagePosition(value) == tabCount - 1 ==> PageOffset(value) == 0.0
  {
  }

  // ---------------------------------------------------------------------------
  // Underline

  /** The linear blend the tab bar uses everywhere: `t * to + (1 - t) * from`. */
  function Blend(t: real, from: real, to: real): (v: real) { t * to + (1.0 - t) * from }

  /** For t in [0, 1] a blend lies between its two end points. */
  lemma BlendBetween(t: real, from: real, to: real)
    requires 0.0 <= t <= 1.0
    ensures Min(from, to) <= Blend(t, from, to) <= Max(from, to)
  {
    if from <= to {
      var d := to - from;
      ScaleBelow(t, d);
      assert Blend(t, from, to) == from + t * d;
    } else {
      var d := from - to;
      ScaleBelow(t, d);
      assert Blend(t, from, to) == to + (1.0 - t) * d;
      ScaleBelow(1.0 - t, d);
    }
  }

  /** Scaling a non-negative amount by a fraction in [0, 1] does not enlarge it. */
  lemma ScaleBelow(t: real, d: real)
    requires 0.0 <= t <= 1.0 && d >= 0.0
    ensures 0.0 <= t * d <= d
  {
  }

  /** The underline between a tab and the next one, at fraction t of the way:
      each edge is blended on its own, and the width is what lies between them. */
  function BlendedUnderline(cur: TabBox, next: TabBox, t: real): (u: Underline)
  {
    var left := Blend(t, cur.left, next.left);
    var right := Blend(t, cur.right, next.right);
    Underline(left, right - left)
  }

  /** The underline resting on one tab. */
  function RestingUnderline(cur: TabBox): (u: Underline)
  {
    Underline(cur.left, cur.right - cur.left)
  }

  /** On consistent boxes, blending the two edges independently blends the
      width too: the underline's left, width and right edge are each the blend
      of the two tabs' left edges, widths and right edges. */
  lemma BlendedEdges(cur: TabBox, next: TabBox, t: real)
    requires Consistent(cur) && Consistent(next)
    ensures BlendedUnderline(cur, next, t).left == Blend(t, cur.left, next.left)
    ensures BlendedUnderline(cur, next, t).width == Blend(t, cur.width, next.width)
    ensures BlendedUnderline(cur, next, t).left + BlendedUnderline(cur, next, t).width
         == Blend(t, cur.right, next.right)
  {
  }

  /** While the progress moves from one tab to the next, the underline's left
      edge, right edge and width stay between those of the two tabs. */
  lemma BlendedBetween(cur: TabBox, next: TabBox, t: real)
    requires Consistent(cur) && Consistent(next)
    requires 0.0 <= t <= 1.0
    ensures var u := BlendedUnderline(cur, next, t);
      && Min(cur.left, next.left) <= u.left <= Max(cur.left, next.left)
      && Min(cur.right, next.right) <= u.left + u.width <= Max(cur.right, next.right)
      && Min(cur.width, next.width) <= u.width <= Max(cur.width, next.width)
  {
    BlendedEdges(cur, next, t);
    BlendBetween(t, cur.left, next.left);
    BlendBetween(t, cur.right, next.right);
    BlendBetween(t, cur.width, next.width);
  }

  /** At fraction 0 the underline is exactly the current tab's box, and at
      fraction 1 exactly the next tab's box. */
  lemma BlendedEndpoints(cur: TabBox, next: TabBox)
    requires Consistent(cur) && Consistent(next)
    ensures BlendedUnderline(cur, next, 0.0) == Underline(cur.left, cur.width)
    ensures BlendedUnderline(cur, next, 1.0) == Underline(next.left, next.width)
  {
  }

  /** The resting underline on a consistent tab is that tab's box. */
  lemma RestingIsBox(cur: TabBox)
    requires Consistent(cur)
    ensures RestingUnderline(cur) == Underline(cur.left, cur.width)
  {
  }

  // ---------------------------------------------------------------------------
  // Scroll target

  /** The point of the strip that the scroll keeps at the viewport's centre:
      the current tab's left edge advanced by t of its width, plus half of the
      blend of the current and next tab's widths. */
  function BlendCentre(left: real, width: real, nextWidth: real, t: real): (c: real)
  {
    left + t * width + Blend(t, width, nextWidth) / 2.0
  }

  /** The scroll offset that puts BlendCentre at the viewport's centre, never
      below 0 and, except on Android, never past `stripWidth - containerWidth`.
      That cap is applied after the floor at 0, so off Android the target is
      negative whenever the strip is narrower than the viewport. */
  function ScrollTarget(onAndroid: bool, left: real, width: real, nextWidth: real, t: real,
                        containerWidth: real, stripWidth: real): (x: real)
    ensures onAndroid ==> x >= 0.0
    ensures !onAndroid ==> x <= stripWidth - containerWidth
    ensures !onAndroid ==> (x >= 0.0 <==> stripWidth >= containerWidth)
    ensures !onAndroid && stripWidth < containerWidth ==> x == stripWidth - containerWidth
  {
    var centred := BlendCentre(left, width, nextWidth, t) - containerWidth / 2.0;
    var floored := Max(centred, 0.0);
    if onAndroid then floored else Min(floored, stripWidth - containerWidth)
  }

  /** The scroll target is the centring offset clamped into the scrollable range:
      [0, infinity) on Android, and elsewhere [0, stripWidth - containerWidth]
      when the strip is at least as wide as the viewport. */
  lemma ScrollTargetClamps(onAndroid: bool, left: real, width: real, nextWidth: real, t: real,
                           containerWidth: real, stripWidth: real)
    requires !onAndroid ==> stripWidth >= containerWidth
    ensures var centred := BlendCentre(left, width, nextWidth, t) - containerWidth / 2.0;
      var x := ScrollTarget(onAndroid, left, width, nextWidth, t, containerWidth, stripWidth);
      && (centred < 0.0 ==> x == 0.0)
      && (0.0 <= centred && (onAndroid || centred <= stripWidth - containerWidth) ==> x == centred)
      && (!onAndroid && centred > stripWidth - containerWidth ==> x == stripWidth - containerWidth)
  {
  }

  /** When no clamp applies, the viewport's centre is exactly on the blend centre. */
  lemma ScrollTargetCentres(onAndroid: bool, left: real, width: real, nextWidth: real, t: real,
                            containerWidth: real, stripWidth: real)
    requires var centred := BlendCentre(left, width, nextWidth, t) - containerWidth / 2.0;
      0.0 <= centred && (onAndroid || centred <= stripWidth - containerWidth)
    ensures ScrollTarget(onAndroid, left, width, nextWidth, t, containerWidth, stripWidth)
              + containerWidth / 2.0
         == BlendCentre(left, width, nextWidth, t)
  {
  }

  /** When the next tab starts where the current one ends, the blend centre the
      scroll keeps centred is the centre of the underline: scrolling and the
      underline move together. */
  lemma CentreFollowsUnderline(cur: TabBox, next: TabBox, t: real)
    requires Consistent(cur) && Consistent(next)
    requires next.left == cur.right
    ensures var u := BlendedUnderline(cur, next, t);
      BlendCentre(cur.left, cur.width, next.width, t) == u.left + u.width / 2.0
  {
  }

  /** At fraction 0 the next tab's width plays no part in the scroll target, so
      a leftover measurement past the last tab cannot move the strip. */
  lemma ScrollAtRestIgnoresNext(onAndroid: bool, left: real, width: real, nextWidth: real,
                                otherWidth: real, containerWidth: real, stripWidth: real)
    ensures ScrollTarget(onAndroid, left, width, nextWidth, 0.0, containerWidth, stripWidth)
         == ScrollTarget(onAndroid, left, width, otherWidth, 0.0, containerWidth, stripWidth)
  {
  }
}
