/** Collision-avoiding placement of image cards on the gallery canvas
    (`calculateMasonryLayout`). Cards are placed largest area first; each
    card tries up to 200 random top-left corners, then a grid scan with a
    step of 50, and as a last resort the canvas grows and the card goes
    below everything placed so far. `Math.random` is the injected sequence
    `rand`, one draw per call, and `window.innerWidth` is a parameter. */
module Layout {
  import opened Common

  const Gap: real := 20.0
  const DefaultWidth: real := 300.0
  const DefaultHeight: real := 400.0
  const InitialHeight: real := 2000.0
  const MaxAttempts: nat := 200
  const GridSize: real := 50.0

  datatype Size = Size(width: real, height: real)
  datatype Point = Point(x: real, y: real)
  datatype Rect = Rect(x: real, y: real, width: real, height: real)
  datatype Canvas = Canvas(width: real, height: real)

  /** How a card found its place. */
  datatype Outcome = RandomHit(attempt: nat) | GridHit(col: nat, row: nat) | Grown

  /** `imageSizes[index] || { width: 300, height: 400 }`: the size used for
      placement. */
  function PlacedSize(s: Option<Size>): Size {
    if s.Some? then s.value else Size(DefaultWidth, DefaultHeight)
  }

  /** JavaScript `v || d` on a number: zero is falsy. */
  function OrElse(v: real, d: real): real {
    if v == 0.0 then d else v
  }

  /** The area the cards are ordered by, with each dimension falling back
      to its default on its own. It agrees with the placement size whenever
      no dimension is zero, and a missing size counts as 300 by 400 in both. */
  function SortArea(s: Option<Size>): (a: real)
    ensures s.None? ==> a == DefaultWidth * DefaultHeight && PlacedSize(s) == Size(DefaultWidth, DefaultHeight)
    ensures s.Some? && s.value.width != 0.0 && s.value.height != 0.0 ==>
      a == PlacedSize(s).width * PlacedSize(s).height
  {
    match s
    case None => DefaultWidth * DefaultHeight
    case Some(z) => OrElse(z.width, DefaultWidth) * OrElse(z.height, DefaultHeight)
  }

  /** 400 below 640 pixels of window width, 600 below 768, 1200 otherwise
      and when there is no window. */
  function CanvasWidthFor(innerWidth: Option<real>): (w: real)
    ensures w == 400.0 || w == 600.0 || w == 1200.0
    ensures innerWidth.None? ==> w == 1200.0
  {
    match innerWidth
    case None => 1200.0
    case Some(iw) => if iw < 640.0 then 400.0 else if iw < 768.0 then 600.0 else 1200.0
  }

  /** A wider window never gives a narrower canvas. */
  lemma CanvasWidthMonotone(a: real, b: real)
    requires a <= b
    ensures CanvasWidthFor(Some(a)) <= CanvasWidthFor(Some(b))
  {
  }

  /** The comparator `b.area - a.area` sorts ascending by minus the area. */
  function AreaKey(sizes: seq<Option<Size>>): nat -> real {
    (i: nat) => if i < |sizes| then -SortArea(sizes[i]) else 0.0
  }

  /** The original indices in the order the cards are placed. */
  function PlacementOrder(sizes: seq<Option<Size>>): seq<nat> {
    Sort(Range(|sizes|), AreaKey(sizes))
  }

  /** Every card is placed exactly once. */
  lemma PlacementOrderPermutes(sizes: seq<Option<Size>>)
    ensures |PlacementOrder(sizes)| == |sizes|
    ensures Distinct(PlacementOrder(sizes))
    ensures forall t :: 0 <= t < |sizes| ==> PlacementOrder(sizes)[t] < |sizes|
    ensures forall i: nat :: i < |sizes| ==> i in PlacementOrder(sizes)
  {
    var o := PlacementOrder(sizes);
    var r := Range(|sizes|);
    SortPermutes(r, AreaKey(sizes));
    assert |o| == |multiset(o)| == |multiset(r)| == |sizes|;
    RangeDistinct(|sizes|);
    SortDistinct(r, AreaKey(sizes));
    forall t | 0 <= t < |sizes|
      ensures o[t] < |sizes|
    {
      assert o[t] in multiset(r);
    }
    forall i: nat | i < |sizes|
      ensures i in o
    {
      assert r[i] == i;
      assert i in multiset(o);
    }
  }

  /** Larger areas are placed first. */
  lemma PlacementOrderDescending(sizes: seq<Option<Size>>, s: nat, t: nat)
    requires s < t < |sizes|
    ensures |PlacementOrder(sizes)| == |sizes|
    ensures PlacementOrder(sizes)[s] < |sizes| && PlacementOrder(sizes)[t] < |sizes|
    ensures SortArea(sizes[PlacementOrder(sizes)[t]]) <= SortArea(sizes[PlacementOrder(sizes)[s]])
  {
    PlacementOrderPermutes(sizes);
    SortSorted(Range(|sizes|), AreaKey(sizes));
  }

  /** Cards of equal area keep their original order. */
  lemma PlacementOrderStable(sizes: seq<Option<Size>>, k: real)
    ensures WithKey(PlacementOrder(sizes), AreaKey(sizes), k) == WithKey(Range(|sizes|), AreaKey(sizes), k)
  {
    SortStable(Range(|sizes|), AreaKey(sizes), k);
  }

  /** `checkCollision` for one placed rectangle: the two overlap once each
      is grown by the gap on its right and bottom. */
  predicate Collides(a: Rect, b: Rect) {
    var horizontal := !(a.x + a.width + Gap <= b.x || a.x >= b.x + b.width + Gap);
    var vertical := !(a.y + a.height + Gap <= b.y || a.y >= b.y + b.height + Gap);
    horizontal && vertical
  }

  /** `rects.some(...)` */
  predicate CollidesAny(a: Rect, rects: seq<Rect>) {
    exists r :: r in rects && Collides(a, r)
  }

  /** Two rectangles do not collide exactly when one of them ends at least
      a gap before the other starts, on one of the axes; in particular the
      relation is symmetric, and rectangles exactly a gap apart are fine. */
  lemma NoCollisionMeansGap(a: Rect, b: Rect)
    ensures !Collides(a, b) <==>
      (a.x + a.width + Gap <= b.x || b.x + b.width + Gap <= a.x ||
       a.y + a.height + Gap <= b.y || b.y + b.height + Gap <= a.y)
    ensures Collides(a, b) <==> Collides(b, a)
  {
  }

  function RectAt(p: Point, z: Size): Rect {
    Rect(p.x, p.y, z.width, z.height)
  }

  /** The corner tried by random attempt `t` of a placement whose first draw
      is `rand(cursor)`; each attempt draws x and then y. */
  function RandomCandidate(z: Size, c: Canvas, rand: nat -> real, cursor: nat, t: nat): Point {
    Point(rand(cursor + 2 * t) * (c.width - z.width - Gap * 2.0) + Gap,
          rand(cursor + 2 * t + 1) * (c.height - z.height - Gap * 2.0) + Gap)
  }

  predicate RandomMiss(placed: seq<Rect>, z: Size, c: Canvas, rand: nat -> real, cursor: nat, t: nat) {
    CollidesAny(RectAt(RandomCandidate(z, c, rand, cursor, t), z), placed)
  }

  function GridCell(col: nat, row: nat): Point {
    Point(Gap + GridSize * col as real, Gap + GridSize * row as real)
  }

  /** The cells the grid scan visits. */
  predicate InGrid(z: Size, c: Canvas, col: nat, row: nat) {
    Gap + GridSize * row as real < c.height - z.height - Gap
    && Gap + GridSize * col as real < c.width - z.width - Gap
  }

  /** Cell (`col`, `row`) is not a free cell of the scan. */
  predicate GridMiss(placed: seq<Rect>, z: Size, c: Canvas, col: nat, row: nat) {
    InGrid(z, c, col, row) ==> CollidesAny(RectAt(GridCell(col, row), z), placed)
  }

  /** Row-major order of the scan. */
  predicate Earlier(col: nat, row: nat, col': nat, row': nat) {
    row < row' || (row == row' && col < col')
  }

  /** The random phase: at most 200 attempts, the first free candidate wins. */
  method RandomPhase(placed: seq<Rect>, z: Size, c: Canvas, rand: nat -> real, cursor: nat)
    returns (found: Option<Point>, attempts: nat)
    ensures attempts <= MaxAttempts
    ensures found.None? ==> attempts == MaxAttempts
    ensures found.Some? ==>
      (attempts < MaxAttempts
       && found.value == RandomCandidate(z, c, rand, cursor, attempts)
       && !CollidesAny(RectAt(found.value, z), placed))
    ensures forall t: nat :: t < attempts ==> RandomMiss(placed, z, c, rand, cursor, t)
  {
    attempts := 0;
    while attempts < MaxAttempts
      invariant attempts <= MaxAttempts
      invariant forall t: nat :: t < attempts ==> RandomMiss(placed, z, c, rand, cursor, t)
    {
      var p := RandomCandidate(z, c, rand, cursor, attempts);
      if !CollidesAny(RectAt(p, z), placed) {
        return Some(p), attempts;
      }
      assert RandomMiss(placed, z, c, rand, cursor, attempts);
      attempts := attempts + 1;
    }
    found := None;
  }

  /** The grid fallback: the first free cell in row-major order, if any. */
  method GridPhase(placed: seq<Rect>, z: Size, c: Canvas)
    returns (found: Option<Point>, col: nat, row: nat)
    ensures found.Some? ==>
      (found.value == GridCell(col, row) && InGrid(z, c, col, row)
       && !CollidesAny(RectAt(found.value, z), placed)
       && forall col': nat, row': nat :: Earlier(col', row', col, row) ==> GridMiss(placed, z, c, col', row'))
    ensures found.None? ==> forall col': nat, row': nat :: GridMiss(placed, z, c, col', row')
  {
    var gridY := Gap;
    row := 0;
    while gridY < c.height - z.height - Gap
      invariant gridY == Gap + GridSize * row as real
      invariant forall col': nat, row': nat :: row' < row ==> GridMiss(placed, z, c, col', row')
      decreases (c.height - z.height - Gap - gridY).Floor
    {
      var gridX := Gap;
      col := 0;
      while gridX < c.width - z.width - Gap
        invariant gridX == Gap + GridSize * col as real
        invariant forall col': nat :: col' < col ==> GridMiss(placed, z, c, col', row)
        decreases (c.width - z.width - Gap - gridX).Floor
      {
        if !CollidesAny(Rect(gridX, gridY, z.width, z.height), placed) {
          return Some(Point(gridX, gridY)), col, row;
        }
        assert GridMiss(placed, z, c, col, row);
        gridX := gridX + GridSize;
        col := col + 1;
      }
      forall col': nat | col <= col'
        ensures GridMiss(placed, z, c, col', row)
      {
        assert !InGrid(z, c, col', row);
      }
      gridY := gridY + GridSize;
      row := row + 1;
    }
    forall col': nat, row': nat | row <= row'
      ensures GridMiss(placed, z, c, col', row')
    {
      assert !InGrid(z, c, col', row');
    }
    found, col := None, 0;
  }

  /** Every placed rectangle ends at least a gap above the canvas bottom. */
  predicate AllBelow(placed: seq<Rect>, height: real) {
    forall i :: 0 <= i < |placed| ==> placed[i].y + placed[i].height + Gap <= height
  }

  lemma BelowAllIsFree(placed: seq<Rect>, z: Size, height: real)
    requires AllBelow(placed, height)
    ensures !CollidesAny(RectAt(Point(Gap, height + Gap), z), placed)
  {
    forall r | r in placed
      ensures !Collides(RectAt(Point(Gap, height + Gap), z), r)
    {
      var i :| 0 <= i < |placed| && placed[i] == r;
    }
  }

  lemma MulNonneg(a: real, b: real)
    requires 0.0 <= a && 0.0 <= b
    ensures 0.0 <= a * b
  {
  }

  /** A fraction in [0, 1) of a non-negative span stays inside it. */
  lemma DrawInSpan(r: real, span: real, d: real)
    requires 0.0 <= r < 1.0 && 0.0 <= span
    requires d == r * span
    ensures 0.0 <= d <= span
  {
    MulNonneg(r, span);
    MulNonneg(1.0 - r, span);
    assert span - d == (1.0 - r) * span;
  }

  /** A card's height fits the initial canvas with a gap above and below. */
  predicate HeightFits(z: Size) {
    0.0 <= z.height && z.height + 2.0 * Gap <= InitialHeight
  }

  /** A card's size fits a canvas: room for the gaps on both sides, and a
      height that fits the initial canvas. */
  predicate Fits(z: Size, width: real) {
    z.width + 2.0 * Gap <= width && HeightFits(z)
  }

  /** A card at `p` lies a gap inside the left, right and top edges and a
      gap above the bottom of a canvas of the given size. */
  predicate InCanvas(p: Point, z: Size, width: real, height: real) {
    Gap <= p.x && p.x + z.width + Gap <= width && Gap <= p.y && p.y + z.height + Gap <= height
  }

  lemma RandomInCanvas(z: Size, c: Canvas, rand: nat -> real, cursor: nat, t: nat)
    requires Fits(z, c.width) && InitialHeight <= c.height
    requires 0.0 <= rand(cursor + 2 * t) < 1.0 && 0.0 <= rand(cursor + 2 * t + 1) < 1.0
    ensures InCanvas(RandomCandidate(z, c, rand, cursor, t), z, c.width, c.height)
  {
    var p := RandomCandidate(z, c, rand, cursor, t);
    DrawOnAxis(rand(cursor + 2 * t), z.width, c.width, p.x);
    DrawOnAxis(rand(cursor + 2 * t + 1), z.height, c.height, p.y);
  }

  /** One coordinate of a random candidate lies a gap inside the canvas. */
  lemma DrawOnAxis(r: real, size: real, total: real, v: real)
    requires 0.0 <= r < 1.0 && size + 2.0 * Gap <= total
    requires v == r * (total - size - Gap * 2.0) + Gap
    ensures Gap <= v && v + size + Gap <= total
  {
    var span := total - size - Gap * 2.0;
    var d := r * span;
    DrawInSpan(r, span, d);
    assert v == d + Gap;
  }

  lemma GridInCanvas(z: Size, c: Canvas, col: nat, row: nat)
    requires InGrid(z, c, col, row)
    ensures InCanvas(GridCell(col, row), z, c.width, c.height)
  {
  }

  /** `findRandomPosition`: random phase, then grid, then growing the
      canvas. A random or grid position is free of every placed card; a grown
      canvas puts the card a gap below the old bottom, which is free whenever
      every placed card ends a gap above that bottom. */
  method FindPosition(placed: seq<Rect>, z: Size, c: Canvas, rand: nat -> real, cursor: nat)
    returns (p: Point, how: Outcome, newHeight: real, next: nat)
    requires forall i :: 0.0 <= rand(i) < 1.0
    ensures how.RandomHit? ==> how.attempt < MaxAttempts && p == RandomCandidate(z, c, rand, cursor, how.attempt)
    ensures how.GridHit? ==> p == GridCell(how.col, how.row) && InGrid(z, c, how.col, how.row)
    ensures !how.RandomHit? ==> forall t: nat :: t < MaxAttempts ==> RandomMiss(placed, z, c, rand, cursor, t)
    ensures how.Grown? ==> forall col: nat, row: nat :: GridMiss(placed, z, c, col, row)
    ensures how.Grown? ==> p == Point(Gap, c.height + Gap) && newHeight == c.height + Gap + z.height + Gap
    ensures !how.Grown? ==> newHeight == c.height && !CollidesAny(RectAt(p, z), placed)
    ensures AllBelow(placed, c.height) ==> !CollidesAny(RectAt(p, z), placed)
    ensures next == cursor + 2 * (if how.RandomHit? then how.attempt + 1 else MaxAttempts)
    ensures HeightFits(z) && InitialHeight <= c.height ==>
      c.height <= newHeight && p.y + z.height + Gap <= newHeight
    ensures Fits(z, c.width) && InitialHeight <= c.height ==>
      c.height <= newHeight && InCanvas(p, z, c.width, newHeight)
  {
    var found, attempts := RandomPhase(placed, z, c, rand, cursor);
    if found.Some? {
      p, how, newHeight, next := found.value, RandomHit(attempts), c.height, cursor + 2 * (attempts + 1);
      if HeightFits(z) && InitialHeight <= c.height {
        DrawOnAxis(rand(cursor + 2 * attempts + 1), z.height, c.height, p.y);
      }
      if Fits(z, c.width) && InitialHeight <= c.height {
        RandomInCanvas(z, c, rand, cursor, attempts);
      }
      return;
    }
    var cell, col, row := GridPhase(placed, z, c);
    next := cursor + 2 * MaxAttempts;
    if cell.Some? {
      p, how, newHeight := cell.value, GridHit(col, row), c.height;
      GridInCanvas(z, c, col, row);
      return;
    }
    var newY := c.height + Gap;
    newHeight := newY + z.height + Gap;
    p, how := Point(Gap, newY), Grown;
    if AllBelow(placed, c.height) {
      BelowAllIsFree(placed, z, c.height);
    }
  }

  /** Every card's height fits the initial canvas. */
  predicate AllHeightsFit(sizes: seq<Option<Size>>) {
    forall i :: 0 <= i < |sizes| ==> HeightFits(PlacedSize(sizes[i]))
  }

  /** Every card's size fits a canvas of the given width. */
  predicate AllFit(sizes: seq<Option<Size>>, width: real) {
    forall i :: 0 <= i < |sizes| ==> Fits(PlacedSize(sizes[i]), width)
  }

  /** No two cards of the layout collide. */
  predicate Separated(positions: seq<Point>, sizes: seq<Option<Size>>)
    requires |positions| == |sizes|
  {
    forall i, j :: 0 <= i < |sizes| && 0 <= j < |sizes| && i != j ==>
      !Collides(RectAt(positions[i], PlacedSize(sizes[i])), RectAt(positions[j], PlacedSize(sizes[j])))
  }

  /** `calculateMasonryLayout`: one position per card, stored at the card's
      own index although the cards are placed largest first. When every
      card's height fits the initial canvas height, no two cards collide,
      whatever their widths; when every card also fits the canvas width,
      every card lies a gap inside the canvas's left, right and top edges. */
  method CalculateMasonryLayout(sizes: seq<Option<Size>>, innerWidth: Option<real>, rand: nat -> real)
    returns (positions: seq<Point>)
    requires forall i :: 0.0 <= rand(i) < 1.0
    ensures |positions| == |sizes|
    ensures AllHeightsFit(sizes) ==> Separated(positions, sizes)
    ensures AllFit(sizes, CanvasWidthFor(innerWidth)) ==>
      forall i :: 0 <= i < |sizes| ==>
        Gap <= positions[i].x && Gap <= positions[i].y
        && positions[i].x + PlacedSize(sizes[i]).width + Gap <= CanvasWidthFor(innerWidth)
  {
    var n := |sizes|;
    var buf := new Point[n](_ => Point(0.0, 0.0));
    var placed: seq<Rect> := [];
    var width := CanvasWidthFor(innerWidth);
    var height := InitialHeight;
    var order := PlacementOrder(sizes);
    PlacementOrderPermutes(sizes);
    ghost var hfit := AllHeightsFit(sizes);
    ghost var fit := AllFit(sizes, width);
    var cursor := 0;
    var k := 0;
    while k < n
      invariant 0 <= k <= n && |placed| == k
      invariant forall t :: 0 <= t < k ==> placed[t] == RectAt(buf[order[t]], PlacedSize(sizes[order[t]]))
      invariant fit ==> hfit
      invariant hfit ==> InitialHeight <= height && AllBelow(placed, height) && Apart(placed)
      invariant fit ==> InsideEdges(placed, width)
    {
      var i := order[k];
      var z := PlacedSize(sizes[i]);
      var p, how, newHeight, next := FindPosition(placed, z, Canvas(width, height), rand, cursor);
      buf[i] := p;
      if hfit {
        assert HeightFits(z);
        PlaceStep(placed, p, z, height, newHeight);
      }
      if fit {
        assert Fits(z, width);
        EdgesStep(placed, p, z, width, newHeight);
      }
      placed := placed + [RectAt(p, z)];
      height, cursor := newHeight, next;
      k := k + 1;
    }
    positions := buf[..];
    if hfit {
      SeparatedFromPlacement(sizes, order, positions, placed);
    }
    if fit {
      PlacedInside(sizes, order, positions, placed, width);
    }
  }

  /** No two placed cards collide. */
  predicate Apart(placed: seq<Rect>) {
    forall t, u :: 0 <= t < u < |placed| ==> !Collides(placed[u], placed[t])
  }

  /** Every placed card lies a gap inside the left, right and top edges. */
  predicate InsideEdges(placed: seq<Rect>, width: real) {
    forall t :: 0 <= t < |placed| ==>
      Gap <= placed[t].x && placed[t].x + placed[t].width + Gap <= width && Gap <= placed[t].y
  }

  /** Placing one more card where FindPosition put it keeps the cards apart
      and above the (possibly grown) bottom. */
  lemma PlaceStep(placed: seq<Rect>, p: Point, z: Size, height: real, newHeight: real)
    requires InitialHeight <= height && AllBelow(placed, height) && Apart(placed)
    requires !CollidesAny(RectAt(p, z), placed)
    requires height <= newHeight && p.y + z.height + Gap <= newHeight
    ensures InitialHeight <= newHeight && AllBelow(placed + [RectAt(p, z)], newHeight)
    ensures Apart(placed + [RectAt(p, z)])
  {
    var r := RectAt(p, z);
    var q := placed + [r];
    forall t, u | 0 <= t < u < |q|
      ensures !Collides(q[u], q[t])
    {
      if u == |placed| {
        assert q[t] in placed;
      }
    }
  }

  /** A card placed inside the canvas keeps every card inside the edges. */
  lemma EdgesStep(placed: seq<Rect>, p: Point, z: Size, width: real, height: real)
    requires InsideEdges(placed, width) && InCanvas(p, z, width, height)
    ensures InsideEdges(placed + [RectAt(p, z)], width)
  {
  }

  lemma SeparatedFromPlacement(sizes: seq<Option<Size>>, order: seq<nat>, positions: seq<Point>, placed: seq<Rect>)
    requires |order| == |sizes| == |positions| == |placed|
    requires forall i: nat :: i < |sizes| ==> i in order
    requires forall t :: 0 <= t < |order| ==> order[t] < |sizes|
    requires forall t :: 0 <= t < |order| ==> placed[t] == RectAt(positions[order[t]], PlacedSize(sizes[order[t]]))
    requires Apart(placed)
    ensures Separated(positions, sizes)
  {
    forall i, j | 0 <= i < |sizes| && 0 <= j < |sizes| && i != j
      ensures !Collides(RectAt(positions[i], PlacedSize(sizes[i])), RectAt(positions[j], PlacedSize(sizes[j])))
    {
      assert i in order && j in order;
      var t :| 0 <= t < |order| && order[t] == i;
      var u :| 0 <= u < |order| && order[u] == j;
      if t < u {
        assert !Collides(placed[u], placed[t]);
      } else {
        assert !Collides(placed[t], placed[u]);
      }
    }
  }

  lemma PlacedInside(sizes: seq<Option<Size>>, order: seq<nat>, positions: seq<Point>, placed: seq<Rect>, width: real)
    requires |order| == |sizes| == |positions| == |placed|
    requires forall i: nat :: i < |sizes| ==> i in order
    requires forall t :: 0 <= t < |order| ==> order[t] < |sizes|
    requires forall t :: 0 <= t < |order| ==> placed[t] == RectAt(positions[order[t]], PlacedSize(sizes[order[t]]))
    requires InsideEdges(placed, width)
    ensures forall i :: 0 <= i < |sizes| ==>
      Gap <= positions[i].x && Gap <= positions[i].y && positions[i].x + PlacedSize(sizes[i]).width + Gap <= width
  {
    forall i | 0 <= i < |sizes|
      ensures Gap <= positions[i].x && Gap <= positions[i].y && positions[i].x + PlacedSize(sizes[i]).width + Gap <= width
    {
      assert i in order;
      var t :| 0 <= t < |order| && order[t] == i;
      assert placed[t] == RectAt(positions[i], PlacedSize(sizes[i]));
    }
  }
}
