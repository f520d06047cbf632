/** Geometry used while a widget is dragged or resized on the page-builder canvas:
    which edge a drag point approaches, which way a widget moved, and the
    conversions between pixel space and grid-unit occupied spaces.
    Every JavaScript `number` is modelled as an exact `real`. */
module CanvasDraggingUtils {
  import opened Wrappers

  // ---------------------------------------------------------------------------
  // Data model
  // ---------------------------------------------------------------------------

  /** The side toward which neighbouring widgets are pushed, or a movement goes. */
  datatype ReflowDirection = Unset | Left | Right | Top | Bottom

  /** A widget's bounding box in grid units. */
  datatype OccupiedSpace = OccupiedSpace(id: string, left: real, top: real, right: real, bottom: real)

  /** A widget's reflow displacement and new size, in pixels. */
  datatype ReflowedSpace = ReflowedSpace(X: real, Y: real, width: real, height: real)

  /** The pixel rectangle drawn for a widget while it is dragged. */
  datatype WidgetDraggingBlock = WidgetDraggingBlock(
    left: real, top: real, width: real, height: real,
    columnWidth: real, rowHeight: real,
    widgetId: string, isNotColliding: bool)

  /** The only error of the projectors: a grid cell size that is not positive. */
  datatype ScaleError = InvalidScale

  /** The four edges of the container a drag point can be near. */
  datatype Edge = LeftEdge | RightEdge | TopEdge | BottomEdge

  predicate ValidSpace(s: OccupiedSpace) {
    s.left <= s.right && s.top <= s.bottom
  }

  predicate ValidScale(columnWidth: real, rowHeight: real) {
    columnWidth > 0.0 && rowHeight > 0.0
  }

  function Opposite(d: ReflowDirection): (r: ReflowDirection)
    ensures r == Unset <==> d == Unset
    ensures d != Unset ==> r != d
  {
    match d
    case Unset => Unset
    case Left => Right
    case Right => Left
    case Top => Bottom
    case Bottom => Top
  }

  function Abs(x: real): real {
    if x < 0.0 then -x else x
  }

  predicate IsInteger(x: real) {
    x == x.Floor as real
  }

  // ---------------------------------------------------------------------------
  // JavaScript remainder
  // ---------------------------------------------------------------------------

  lemma MulLeftMonotone(m: real, x: real, y: real)
    requires m > 0.0
    ensures x <= y ==> m * x <= m * y
    ensures x < y ==> m * x < m * y
  {
  }

  lemma DivTimesDivisor(a: real, m: real)
    requires m != 0.0
    ensures m * (a / m) == a
  {
  }

  lemma MulDivCancel(m: real, q: real)
    requires m != 0.0
    ensures (m * q) / m == q
  {
  }

  lemma NegatedInteger(q: real)
    requires IsInteger(q)
    ensures IsInteger(-q)
  {
    var k := q.Floor;
    assert q == k as real;
    assert ((-k) as real).Floor == -k;
    assert -q == (-k) as real;
  }

  lemma NegatedQuotientBounds(a: real, m: real, p: real)
    requires m > 0.0 && m * p <= -a < m * p + m
    ensures -m < a - m * -p <= 0.0
  {
    assert m * -p == -(m * p);
  }

  /** The quotient of a non-negative `a` by a positive `m`, rounded down, as a real. */
  function FloorDiv(a: real, m: real): (q: real)
    requires a >= 0.0 && m > 0.0
    ensures IsInteger(q)
    ensures m * q <= a < m * q + m
  {
    var x := a / m;
    var f := x.Floor as real;
    DivTimesDivisor(a, m);
    ScaledFloorLower(a, m, x, f);
    ScaledFloorUpper(a, m, x, f);
    f
  }

  lemma ScaledFloorLower(a: real, m: real, x: real, f: real)
    requires m > 0.0 && m * x == a && f <= x
    ensures m * f <= a
  {
    MulLeftMonotone(m, f, x);
  }

  lemma ScaledFloorUpper(a: real, m: real, x: real, f: real)
    requires m > 0.0 && m * x == a && x < f + 1.0
    ensures a < m * f + m
  {
    MulLeftMonotone(m, x, f + 1.0);
    assert m * (f + 1.0) == m * f + m;
  }

  /** The quotient of `a` by a positive `m`, truncated toward zero, as a real. */
  function TruncDiv(a: real, m: real): (q: real)
    requires m > 0.0
    ensures IsInteger(q)
    ensures a >= 0.0 ==> 0.0 <= a - m * q < m
    ensures a <= 0.0 ==> -m < a - m * q <= 0.0
  {
    if a == 0.0 then 0.0
    else if a > 0.0 then FloorDiv(a, m)
    else
      var p := FloorDiv(-a, m);
      NegatedInteger(p);
      NegatedQuotientBounds(a, m, p);
      -p
  }

  /** JavaScript's `a % m` for a positive `m`: what is left of `a` after taking
      away a whole number of `m`, carrying the sign of the dividend. */
  function JsRem(a: real, m: real): (r: real)
    requires m > 0.0
    ensures a >= 0.0 ==> 0.0 <= r < m
    ensures a <= 0.0 ==> -m < r <= 0.0
  {
    a - m * TruncDiv(a, m)
  }

  /** What `%` takes away from its dividend is a whole number of divisors. */
  lemma JsRemTakesWholeMultiples(a: real, m: real)
    requires m > 0.0
    ensures IsInteger((a - JsRem(a, m)) / m)
  {
    var q := TruncDiv(a, m);
    WholeMultiple(m * q, m, q);
    assert a - JsRem(a, m) == m * q;
  }

  /** A whole number of `m` divided by `m` is whole. */
  lemma WholeMultiple(d: real, m: real, q: real)
    requires m != 0.0 && d == m * q && IsInteger(q)
    ensures IsInteger(d / m)
  {
    MulDivCancel(m, q);
  }

  // ---------------------------------------------------------------------------
  // getEdgeDirection
  // ---------------------------------------------------------------------------

  /** Distance from the point (x, y) to edge e of a container of size extent. */
  function EdgeDistance(x: real, y: real, extent: real, e: Edge): real {
    match e
    case LeftEdge => x
    case RightEdge => extent - x
    case TopEdge => y
    case BottomEdge => extent - y
  }

  ghost predicate IsNearestEdge(x: real, y: real, extent: real, e: Edge) {
    forall e' :: EdgeDistance(x, y, extent, e) <= EdgeDistance(x, y, extent, e')
  }

  /** Reflow opens space away from an edge: neighbours are pushed to the far side. */
  function PushAwayFrom(e: Edge): (d: ReflowDirection)
    ensures d != Unset
  {
    match e
    case LeftEdge => Right
    case RightEdge => Left
    case TopEdge => Bottom
    case BottomEdge => Top
  }

  /** The edge a push direction moves away from. */
  function EdgeBehind(d: ReflowDirection): (e: Edge)
    requires d != Unset
    ensures PushAwayFrom(e) == d
  {
    match d
    case Right => LeftEdge
    case Left => RightEdge
    case Bottom => TopEdge
    case Top => BottomEdge
  }

  /** The nearest edge, ties resolved in the order left, right, top, bottom. */
  function NearestEdge(x: real, y: real, extent: real): (e: Edge)
    ensures IsNearestEdge(x, y, extent, e)
  {
    var l, r, t, b := x, extent - x, y, extent - y;
    if l <= r && l <= t && l <= b then LeftEdge
    else if r <= t && r <= b then RightEdge
    else if t <= b then TopEdge
    else BottomEdge
  }

  /** getEdgeDirection: the push direction away from the edge nearest to (x, y);
      the current direction when the container's extent is not yet known. */
  function GetEdgeDirection(x: real, y: real, extent: Option<real>, current: ReflowDirection): (r: ReflowDirection)
    ensures extent.None? ==> r == current
    ensures extent.Some? ==> r != Unset && IsNearestEdge(x, y, extent.value, EdgeBehind(r))
  {
    match extent
    case None => current
    case Some(w) => PushAwayFrom(NearestEdge(x, y, w))
  }

  /** When one edge is strictly nearer than the other three, the direction is
      fixed whatever the tie-breaking order. */
  lemma EdgeDirectionUniqueNearest(x: real, y: real, extent: real, e: Edge, current: ReflowDirection)
    requires forall e' :: e' != e ==> EdgeDistance(x, y, extent, e) < EdgeDistance(x, y, extent, e')
    ensures GetEdgeDirection(x, y, Some(extent), current) == PushAwayFrom(e)
  {
    var r := GetEdgeDirection(x, y, Some(extent), current);
    var n := EdgeBehind(r);
    assert EdgeDistance(x, y, extent, n) <= EdgeDistance(x, y, extent, e);
    assert n == e;
  }

  /** The tie-breaking order: each direction, exactly when its edge is nearest
      and no edge earlier in the order left, right, top, bottom is as near. */
  lemma EdgeDirectionTieOrder(x: real, y: real, extent: real, current: ReflowDirection)
    ensures var d := GetEdgeDirection(x, y, Some(extent), current);
      && (d == Right <==> x <= extent - x && x <= y && x <= extent - y)
      && (d == Left <==> extent - x < x && extent - x <= y && extent - x <= extent - y)
      && (d == Bottom <==> y < x && y < extent - x && y <= extent - y)
      && (d == Top <==> extent - y < x && extent - y < extent - x && extent - y < y)
  {
  }

  /** The cases of getEdgeDirection's test suite. */
  lemma EdgeDirectionExamples()
    ensures GetEdgeDirection(5.0, 10.0, Some(100.0), Unset) == Right
    ensures GetEdgeDirection(10.0, 5.0, Some(100.0), Unset) == Bottom
    ensures GetEdgeDirection(95.0, 10.0, Some(100.0), Unset) == Left
    ensures GetEdgeDirection(5.0, 10.0, None, Unset) == Unset
  {
  }

  // ---------------------------------------------------------------------------
  // getMoveDirection
  // ---------------------------------------------------------------------------

  /** The displacement (dx, dy) projected on direction d. */
  function Along(d: ReflowDirection, dx: real, dy: real): real {
    match d
    case Right => dx
    case Left => -dx
    case Bottom => dy
    case Top => -dy
    case Unset => 0.0
  }

  /** r is a direction on which the displacement (dx, dy) projects furthest. */
  ghost predicate Dominant(r: ReflowDirection, dx: real, dy: real) {
    forall d :: Along(d, dx, dy) <= Along(r, dx, dy)
  }

  predicate Moved(prev: OccupiedSpace, curr: OccupiedSpace) {
    curr.left != prev.left || curr.top != prev.top
  }

  /** getMoveDirection: the direction on which the displacement between two
      successive positions has the largest projection; the current direction
      when the position did not move. */
  function GetMoveDirection(prev: OccupiedSpace, curr: OccupiedSpace, current: ReflowDirection): (r: ReflowDirection)
    ensures !Moved(prev, curr) ==> r == current
    ensures Moved(prev, curr) ==> r != Unset
    ensures Moved(prev, curr) ==> Along(r, curr.left - prev.left, curr.top - prev.top) > 0.0
    ensures Moved(prev, curr) ==> Dominant(r, curr.left - prev.left, curr.top - prev.top)
  {
    var dx := curr.left - prev.left;
    var dy := curr.top - prev.top;
    if dx == 0.0 && dy == 0.0 then current
    else if Abs(dx) >= Abs(dy) then (if dx > 0.0 then Right else Left)
    else if dy > 0.0 then Bottom
    else Top
  }

  /** Sign consistency: each direction exactly when the displacement on its
      axis has that sign and dominates (the horizontal axis winning a tie). */
  lemma MoveDirectionSigns(prev: OccupiedSpace, curr: OccupiedSpace, current: ReflowDirection)
    requires Moved(prev, curr)
    ensures var dx, dy, d := curr.left - prev.left, curr.top - prev.top, GetMoveDirection(prev, curr, current);
      && (d == Right <==> dx > 0.0 && Abs(dx) >= Abs(dy))
      && (d == Left <==> dx < 0.0 && Abs(dx) >= Abs(dy))
      && (d == Bottom <==> dy > 0.0 && Abs(dy) > Abs(dx))
      && (d == Top <==> dy < 0.0 && Abs(dy) > Abs(dx))
  {
  }

  /** Playing a move backwards gives the opposite direction. */
  lemma MoveDirectionReversed(prev: OccupiedSpace, curr: OccupiedSpace, d1: ReflowDirection, d2: ReflowDirection)
    requires Moved(prev, curr)
    ensures GetMoveDirection(curr, prev, d2) == Opposite(GetMoveDirection(prev, curr, d1))
  {
  }

  /** Only the displacement matters: translating both positions by the same
      amount does not change the direction. */
  lemma MoveDirectionTranslationInvariant(prev: OccupiedSpace, curr: OccupiedSpace, tx: real, ty: real, current: ReflowDirection)
    ensures var shift := (s: OccupiedSpace) => s.(left := s.left + tx, top := s.top + ty, right := s.right + tx, bottom := s.bottom + ty);
      GetMoveDirection(shift(prev), shift(curr), current) == GetMoveDirection(prev, curr, current)
  {
  }

  /** The cases of getMoveDirection's test suite. */
  lemma MoveDirectionExamples()
    ensures var prev := OccupiedSpace("id", 10.0, 20.0, 30.0, 40.0);
      && GetMoveDirection(prev, OccupiedSpace("id", 11.0, 20.0, 31.0, 40.0), Unset) == Right
      && GetMoveDirection(prev, OccupiedSpace("id", 10.0, 21.0, 30.0, 41.0), Unset) == Bottom
      && GetMoveDirection(prev, OccupiedSpace("id", 9.0, 20.0, 29.0, 40.0), Unset) == Left
      && GetMoveDirection(prev, OccupiedSpace("id", 10.0, 19.0, 30.0, 39.0), Unset) == Top
  {
  }

  // ---------------------------------------------------------------------------
  // getReflowedSpaces
  // ---------------------------------------------------------------------------

  /** getReflowedSpaces: the occupied space of a widget after reflow, in grid
      units. Converting back to pixels gives exactly the widget's pixel offset
      and pixel size; a widget that is not reflowing keeps its space. */
  function GetReflowedSpaces(space: OccupiedSpace, reflowingWidgets: map<string, ReflowedSpace>,
                             columnWidth: real, rowHeight: real): (r: Result<OccupiedSpace, ScaleError>)
    ensures r.Err? <==> !ValidScale(columnWidth, rowHeight)
    ensures r.Ok? && space.id !in reflowingWidgets ==> r.value == space
    ensures r.Ok? && space.id in reflowingWidgets ==>
      var o, s := reflowingWidgets[space.id], r.value;
      && s.id == space.id
      && (s.left - space.left) * columnWidth == o.X
      && (s.top - space.top) * rowHeight == o.Y
      && (s.right - s.left) * columnWidth == o.width
      && (s.bottom - s.top) * rowHeight == o.height
  {
    if !ValidScale(columnWidth, rowHeight) then Err(InvalidScale)
    else if space.id !in reflowingWidgets then Ok(space)
    else
      var o := reflowingWidgets[space.id];
      var left := space.left + o.X / columnWidth;
      var top := space.top + o.Y / rowHeight;
      Ok(space.(left := left, top := top,
                right := left + o.width / columnWidth,
                bottom := top + o.height / rowHeight))
  }

  /** A valid space stays valid when the reflowed size is not negative. */
  lemma ReflowedSpaceIsValid(space: OccupiedSpace, reflowingWidgets: map<string, ReflowedSpace>,
                             columnWidth: real, rowHeight: real)
    requires ValidScale(columnWidth, rowHeight) && ValidSpace(space)
    requires space.id in reflowingWidgets ==>
      reflowingWidgets[space.id].width >= 0.0 && reflowingWidgets[space.id].height >= 0.0
    ensures GetReflowedSpaces(space, reflowingWidgets, columnWidth, rowHeight).Ok?
    ensures ValidSpace(GetReflowedSpaces(space, reflowingWidgets, columnWidth, rowHeight).value)
  {
    if space.id in reflowingWidgets {
      var o := reflowingWidgets[space.id];
      assert o.width / columnWidth >= 0.0;
      assert o.height / rowHeight >= 0.0;
    }
  }

  function ScaleOffset(o: ReflowedSpace, k: real): ReflowedSpace {
    ReflowedSpace(k * o.X, k * o.Y, k * o.width, k * o.height)
  }

  /** Linearity: scaling every pixel quantity and both cell sizes by the same
      positive factor leaves the grid-unit result unchanged. */
  lemma ReflowedSpaceScaleInvariant(space: OccupiedSpace, reflowingWidgets: map<string, ReflowedSpace>,
                                    columnWidth: real, rowHeight: real, k: real)
    requires ValidScale(columnWidth, rowHeight) && k > 0.0
    ensures var scaled := map id | id in reflowingWidgets :: ScaleOffset(reflowingWidgets[id], k);
      GetReflowedSpaces(space, scaled, k * columnWidth, k * rowHeight)
        == GetReflowedSpaces(space, reflowingWidgets, columnWidth, rowHeight)
  {
    var scaled := map id | id in reflowingWidgets :: ScaleOffset(reflowingWidgets[id], k);
    if space.id in reflowingWidgets {
      var o := reflowingWidgets[space.id];
      assert scaled[space.id] == ScaleOffset(o, k);
      ScaledOffsetInGridUnits(o, k, columnWidth, rowHeight);
    }
  }

  lemma ScaledOffsetInGridUnits(o: ReflowedSpace, k: real, columnWidth: real, rowHeight: real)
    requires ValidScale(columnWidth, rowHeight) && k > 0.0
    ensures var o' := ScaleOffset(o, k);
      && o'.X / (k * columnWidth) == o.X / columnWidth
      && o'.Y / (k * rowHeight) == o.Y / rowHeight
      && o'.width / (k * columnWidth) == o.width / columnWidth
      && o'.height / (k * rowHeight) == o.height / rowHeight
  {
    CancelFactor(o.X, columnWidth, k);
    CancelFactor(o.Y, rowHeight, k);
    CancelFactor(o.width, columnWidth, k);
    CancelFactor(o.height, rowHeight, k);
  }

  lemma CancelFactor(a: real, m: real, k: real)
    requires m > 0.0 && k > 0.0
    ensures (k * a) / (k * m) == a / m
  {
  }

  /** The test case of getReflowedSpaces. */
  lemma ReflowedSpacesExample()
    ensures GetReflowedSpaces(OccupiedSpace("id", 10.0, 10.0, 50.0, 70.0),
                              map["id" := ReflowedSpace(30.0, 40.0, 300.0, 500.0)], 10.0, 10.0)
         == Ok(OccupiedSpace("id", 13.0, 14.0, 43.0, 64.0))
  {
  }

  // ---------------------------------------------------------------------------
  // modifyDrawingRectangles
  // ---------------------------------------------------------------------------

  /** A pixel position moved to grid cell `cell` while keeping its offset
      inside a cell (JavaScript's `pixel % cellSize`). */
  function SnapToCell(cell: real, pixel: real, cellSize: real): (p: real)
    requires cellSize > 0.0
    ensures Abs(p - cell * cellSize) < cellSize
    ensures pixel >= 0.0 ==> cell * cellSize <= p < cell * cellSize + cellSize
    ensures pixel <= 0.0 ==> cell * cellSize - cellSize < p <= cell * cellSize
  {
    cell * cellSize + JsRem(pixel, cellSize)
  }

  /** Snapping keeps the position's offset inside a cell, in JavaScript's
      sense: for every input, the snapped position differs from the old pixel
      position plus the grid shift by a whole number of cells. */
  lemma SnapToCellKeepsOffsetModCell(cell: real, pixel: real, cellSize: real)
    requires cellSize > 0.0
    ensures IsInteger((SnapToCell(cell, pixel, cellSize) - cell * cellSize - pixel) / cellSize)
  {
    var r := JsRem(pixel, cellSize);
    JsRemTakesWholeMultiples(pixel, cellSize);
    NegatedWholeQuotient(pixel - r, cellSize);
    assert SnapToCell(cell, pixel, cellSize) - cell * cellSize - pixel == -(pixel - r);
  }

  /** Negating a whole multiple of `m` leaves a whole multiple of `m`. */
  lemma NegatedWholeQuotient(d: real, m: real)
    requires m != 0.0 && IsInteger(d / m)
    ensures IsInteger(-d / m)
  {
    NegatedInteger(d / m);
    assert -d / m == -(d / m);
  }

  /** One rectangle snapped to an occupied space: the grid-aligned part of its
      position comes from the space, the part inside a cell is kept, and its
      pixel size is the space's grid span. */
  function ProjectRectangle(rect: WidgetDraggingBlock, space: OccupiedSpace,
                            columnWidth: real, rowHeight: real): (r: WidgetDraggingBlock)
    requires ValidScale(columnWidth, rowHeight)
    ensures r.widgetId == rect.widgetId && r.isNotColliding == rect.isNotColliding
    ensures r.columnWidth == space.right - space.left && r.rowHeight == space.bottom - space.top
    ensures r.width / columnWidth == r.columnWidth && r.height / rowHeight == r.rowHeight
    ensures r.left == SnapToCell(space.left, rect.left, columnWidth)
    ensures r.top == SnapToCell(space.top, rect.top, rowHeight)
  {
    var spanX := space.right - space.left;
    var spanY := space.bottom - space.top;
    MulDivCancel(columnWidth, spanX);
    MulDivCancel(rowHeight, spanY);
    assert spanX * columnWidth == columnWidth * spanX;
    assert spanY * rowHeight == rowHeight * spanY;
    WidgetDraggingBlock(
      SnapToCell(space.left, rect.left, columnWidth),
      SnapToCell(space.top, rect.top, rowHeight),
      spanX * columnWidth,
      spanY * rowHeight,
      spanX, spanY,
      rect.widgetId, rect.isNotColliding)
  }

  /** The rectangle drawn for one widget: projected when its widget has a space. */
  function ProjectOrKeep(rect: WidgetDraggingBlock, spaceMap: map<string, OccupiedSpace>,
                         columnWidth: real, rowHeight: real): WidgetDraggingBlock
    requires ValidScale(columnWidth, rowHeight)
  {
    if rect.widgetId in spaceMap then ProjectRectangle(rect, spaceMap[rect.widgetId], columnWidth, rowHeight)
    else rect
  }

  function ProjectAll(rects: seq<WidgetDraggingBlock>, spaceMap: map<string, OccupiedSpace>,
                      columnWidth: real, rowHeight: real): (r: seq<WidgetDraggingBlock>)
    requires ValidScale(columnWidth, rowHeight)
    ensures |r| == |rects|
    ensures forall i :: 0 <= i < |rects| ==> r[i].widgetId == rects[i].widgetId
    ensures forall i :: 0 <= i < |rects| && rects[i].widgetId !in spaceMap ==> r[i] == rects[i]
    ensures forall i :: 0 <= i < |rects| && rects[i].widgetId in spaceMap ==>
      r[i] == ProjectRectangle(rects[i], spaceMap[rects[i].widgetId], columnWidth, rowHeight)
  {
    if rects == [] then []
    else [ProjectOrKeep(rects[0], spaceMap, columnWidth, rowHeight)]
         + ProjectAll(rects[1..], spaceMap, columnWidth, rowHeight)
  }

  /** modifyDrawingRectangles: every rectangle whose widget has an occupied
      space is snapped to it, the others pass through; order and length are kept. */
  function ModifyDrawingRectangles(rects: seq<WidgetDraggingBlock>, spaceMap: map<string, OccupiedSpace>,
                                   columnWidth: real, rowHeight: real): (r: Result<seq<WidgetDraggingBlock>, ScaleError>)
    ensures r.Err? <==> !ValidScale(columnWidth, rowHeight)
    ensures r.Ok? ==> |r.value| == |rects|
    ensures r.Ok? ==> forall i :: 0 <= i < |rects| ==>
      if rects[i].widgetId in spaceMap
      then r.value[i] == ProjectRectangle(rects[i], spaceMap[rects[i].widgetId], columnWidth, rowHeight)
      else r.value[i] == rects[i]
  {
    if !ValidScale(columnWidth, rowHeight) then Err(InvalidScale)
    else Ok(ProjectAll(rects, spaceMap, columnWidth, rowHeight))
  }

  /** Remainder preservation: snapping a non-negative position to a whole,
      non-negative cell keeps its offset inside the cell. */
  lemma SnapToCellKeepsSubCellOffset(cell: real, pixel: real, cellSize: real)
    requires cellSize > 0.0 && pixel >= 0.0
    requires cell >= 0.0 && IsInteger(cell)
    ensures JsRem(SnapToCell(cell, pixel, cellSize), cellSize) == JsRem(pixel, cellSize)
  {
    var off := JsRem(pixel, cellSize);
    RemOfCellPlusOffset(cell, off, cellSize);
    assert SnapToCell(cell, pixel, cellSize) == cell * cellSize + off;
  }

  /** n cells plus an offset inside a cell leaves that offset as remainder. */
  lemma RemOfCellPlusOffset(n: real, off: real, m: real)
    requires m > 0.0 && n >= 0.0 && IsInteger(n) && 0.0 <= off < m
    ensures JsRem(n * m + off, m) == off
  {
    var a := n * m + off;
    FloorDivOfCellPlusOffset(n, off, m);
    assert TruncDiv(a, m) == n;
    assert JsRem(a, m) == a - m * n;
  }

  lemma FloorDivOfCellPlusOffset(n: real, off: real, m: real)
    requires m > 0.0 && n >= 0.0 && IsInteger(n) && 0.0 <= off < m
    ensures n * m + off >= 0.0
    ensures FloorDiv(n * m + off, m) == n
  {
    MulLeftMonotone(m, 0.0, n);
    FractionOfCell(off, m);
    QuotientOfCellPlusOffset(n, off, m);
    FloorOfIntegerPlusFraction(n, off / m);
  }

  lemma QuotientOfCellPlusOffset(n: real, off: real, m: real)
    requires m > 0.0
    ensures (n * m + off) / m == n + off / m
  {
    DivTimesDivisor(off, m);
    assert m * (n + off / m) == n * m + off;
    MulDivCancel(m, n + off / m);
  }

  lemma FractionOfCell(off: real, m: real)
    requires m > 0.0 && 0.0 <= off < m
    ensures 0.0 <= off / m < 1.0
  {
    DivMonotone(off, m, m);
    assert m / m == 1.0;
  }

  lemma DivMonotone(x: real, y: real, m: real)
    requires m > 0.0 && x < y
    ensures x / m < y / m
  {
  }

  lemma FloorOfIntegerPlusFraction(n: real, t: real)
    requires IsInteger(n) && 0.0 <= t < 1.0
    ensures (n + t).Floor as real == n
  {
    var k := n.Floor;
    var j := (n + t).Floor;
    assert j as real <= n + t < j as real + 1.0;
    assert k as real == n;
    assert j == k;
  }

  /** Round trip: converting a widget's pixel reflow into grid units and
      drawing the result gives back its pixel size, and its snapped pixel
      position moved by exactly the pixel offset. */
  lemma ReflowThenProjectRoundTrip(space: OccupiedSpace, reflowingWidgets: map<string, ReflowedSpace>,
                                   rect: WidgetDraggingBlock, columnWidth: real, rowHeight: real)
    requires ValidScale(columnWidth, rowHeight)
    requires space.id in reflowingWidgets && rect.widgetId == space.id
    ensures var o := reflowingWidgets[space.id];
      var s := GetReflowedSpaces(space, reflowingWidgets, columnWidth, rowHeight).value;
      var r := ModifyDrawingRectangles([rect], map[s.id := s], columnWidth, rowHeight).value[0];
      && r.width == o.width && r.height == o.height
      && r.left == SnapToCell(space.left, rect.left, columnWidth) + o.X
      && r.top == SnapToCell(space.top, rect.top, rowHeight) + o.Y
  {
    var o := reflowingWidgets[space.id];
    var s := GetReflowedSpaces(space, reflowingWidgets, columnWidth, rowHeight).value;
    DrawnShiftedSpace(rect, space, s, o, columnWidth, rowHeight);
  }

  /** Drawing one rectangle onto a space that is `space` shifted and resized
      by the pixel offset `o`. */
  lemma DrawnShiftedSpace(rect: WidgetDraggingBlock, space: OccupiedSpace, s: OccupiedSpace, o: ReflowedSpace,
                          columnWidth: real, rowHeight: real)
    requires ValidScale(columnWidth, rowHeight) && rect.widgetId == s.id
    requires (s.left - space.left) * columnWidth == o.X && (s.top - space.top) * rowHeight == o.Y
    requires (s.right - s.left) * columnWidth == o.width && (s.bottom - s.top) * rowHeight == o.height
    ensures var r := ModifyDrawingRectangles([rect], map[s.id := s], columnWidth, rowHeight).value[0];
      && r.width == o.width && r.height == o.height
      && r.left == SnapToCell(space.left, rect.left, columnWidth) + o.X
      && r.top == SnapToCell(space.top, rect.top, rowHeight) + o.Y
  {
    SingleRectangleProjected(rect, s, columnWidth, rowHeight);
    DrawnSpaceInPixels(rect, space, s, o, columnWidth, rowHeight);
  }

  /** Drawing a space that is another space shifted and resized by a pixel
      offset gives that offset's pixel size and shifted pixel position. */
  lemma DrawnSpaceInPixels(rect: WidgetDraggingBlock, space: OccupiedSpace, s: OccupiedSpace, o: ReflowedSpace,
                           columnWidth: real, rowHeight: real)
    requires ValidScale(columnWidth, rowHeight)
    requires (s.left - space.left) * columnWidth == o.X && (s.top - space.top) * rowHeight == o.Y
    requires (s.right - s.left) * columnWidth == o.width && (s.bottom - s.top) * rowHeight == o.height
    ensures var r := ProjectRectangle(rect, s, columnWidth, rowHeight);
      && r.width == o.width && r.height == o.height
      && r.left == SnapToCell(space.left, rect.left, columnWidth) + o.X
      && r.top == SnapToCell(space.top, rect.top, rowHeight) + o.Y
  {
    SnapToShiftedCell(space.left, s.left, rect.left, columnWidth, o.X);
    SnapToShiftedCell(space.top, s.top, rect.top, rowHeight, o.Y);
  }

  /** Snapping to a cell shifted by `shift` pixels moves the result by `shift`. */
  lemma SnapToShiftedCell(oldCell: real, newCell: real, pixel: real, cellSize: real, shift: real)
    requires cellSize > 0.0 && (newCell - oldCell) * cellSize == shift
    ensures SnapToCell(newCell, pixel, cellSize) == SnapToCell(oldCell, pixel, cellSize) + shift
  {
    GridShiftInPixels(oldCell, newCell, shift, cellSize);
  }

  lemma SingleRectangleProjected(rect: WidgetDraggingBlock, s: OccupiedSpace, columnWidth: real, rowHeight: real)
    requires ValidScale(columnWidth, rowHeight) && rect.widgetId == s.id
    ensures ModifyDrawingRectangles([rect], map[s.id := s], columnWidth, rowHeight)
         == Ok([ProjectRectangle(rect, s, columnWidth, rowHeight)])
  {
    var rs := ModifyDrawingRectangles([rect], map[s.id := s], columnWidth, rowHeight);
    assert [rect][0] == rect;
    assert rs.Ok? && |rs.value| == 1;
    assert rs.value[0] == ProjectRectangle(rect, s, columnWidth, rowHeight);
    assert rs.value == [rs.value[0]];
  }

  lemma GridShiftInPixels(oldCell: real, newCell: real, shift: real, cellSize: real)
    requires (newCell - oldCell) * cellSize == shift
    ensures newCell * cellSize == oldCell * cellSize + shift
  {
  }

  /** The test case of modifyDrawingRectangles. */
  lemma DrawingRectanglesExample()
    ensures ModifyDrawingRectangles(
              [WidgetDraggingBlock(104.0, 102.0, 600.0, 900.0, 60.0, 90.0, "id", true)],
              map["id" := OccupiedSpace("id", 25.0, 30.0, 65.0, 80.0)], 10.0, 10.0)
         == Ok([WidgetDraggingBlock(254.0, 302.0, 400.0, 500.0, 40.0, 50.0, "id", true)])
  {
    var rect := WidgetDraggingBlock(104.0, 102.0, 600.0, 900.0, 60.0, 90.0, "id", true);
    var spaceMap := map["id" := OccupiedSpace("id", 25.0, 30.0, 65.0, 80.0)];
    var rs := ModifyDrawingRectangles([rect], spaceMap, 10.0, 10.0);
    assert rs.Ok? && |rs.value| == 1;
    assert rs.value[0] == ProjectRectangle(rect, spaceMap["id"], 10.0, 10.0);
    assert JsRem(104.0, 10.0) == 4.0 by {
      RemOfCellPlusOffset(10.0, 4.0, 10.0);
    }
    assert JsRem(102.0, 10.0) == 2.0 by {
      RemOfCellPlusOffset(10.0, 2.0, 10.0);
    }
    assert SnapToCell(25.0, 104.0, 10.0) == 254.0;
    assert SnapToCell(30.0, 102.0, 10.0) == 302.0;
    assert rs.value == [WidgetDraggingBlock(254.0, 302.0, 400.0, 500.0, 40.0, 50.0, "id", true)];
  }

  /** A negative position: JavaScript's `%` keeps the sign, so -4 snapped into
      cell 25 of width 10 lands at 246, whose own remainder is 6, not -4. */
  lemma NegativePixelSnapExample()
    ensures JsRem(-4.0, 10.0) == -4.0
    ensures SnapToCell(25.0, -4.0, 10.0) == 246.0
    ensures JsRem(246.0, 10.0) == 6.0
  {
    RemOfCellPlusOffset(0.0, 4.0, 10.0);
    assert TruncDiv(-4.0, 10.0) == 0.0;
    RemOfCellPlusOffset(24.0, 6.0, 10.0);
  }
}
