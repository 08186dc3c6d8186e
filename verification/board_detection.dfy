/** Board geometry outside the pixels: putting the four detected corners in
    the order the perspective warp expects, the size of the warped board,
    and the inner crop. Contour finding and the warp itself are left out. */
module BoardDetection {
  import opened Basics

  datatype Point = Point(x: int, y: int)

  /** The first index holding a least value, as `np.argmin` picks it. */
  function ArgMin(a: seq<int>): (i: nat)
    requires |a| > 0
    ensures i < |a|
    ensures forall j :: 0 <= j < |a| ==> a[i] <= a[j]
    ensures forall j :: 0 <= j < i ==> a[j] > a[i]
  {
    if |a| == 1 then 0
    else
      var k := ArgMin(a[..|a| - 1]);
      assert forall j :: 0 <= j < |a| - 1 ==> a[..|a| - 1][j] == a[j];
      if a[|a| - 1] < a[k] then |a| - 1 else k
  }

  function Negated(a: seq<int>): (b: seq<int>)
    ensures |b| == |a| && forall j :: 0 <= j < |a| ==> b[j] == -a[j]
  {
    seq(|a|, j requires 0 <= j < |a| => -a[j])
  }

  /** The first index holding a greatest value, as `np.argmax` picks it. */
  function ArgMax(a: seq<int>): (i: nat)
    requires |a| > 0
    ensures i < |a|
    ensures forall j :: 0 <= j < |a| ==> a[j] <= a[i]
    ensures forall j :: 0 <= j < i ==> a[j] < a[i]
  {
    ArgMin(Negated(a))
  }

  /** `x + y` of each point. */
  function Sums(ps: seq<Point>): (a: seq<int>)
    ensures |a| == |ps| && forall j :: 0 <= j < |ps| ==> a[j] == ps[j].x + ps[j].y
  {
    seq(|ps|, j requires 0 <= j < |ps| => ps[j].x + ps[j].y)
  }

  /** `y - x` of each point (`np.diff` along the coordinate axis). */
  function Diffs(ps: seq<Point>): (a: seq<int>)
    ensures |a| == |ps| && forall j :: 0 <= j < |ps| ==> a[j] == ps[j].y - ps[j].x
  {
    seq(|ps|, j requires 0 <= j < |ps| => ps[j].y - ps[j].x)
  }

  /** Top-left (least x + y), top-right (least y - x), bottom-left
      (greatest y - x), bottom-right (greatest x + y), each the first such
      input point. */
  function Reorder(ps: seq<Point>): (r: seq<Point>)
    requires |ps| == 4
    ensures |r| == 4
    ensures forall k :: 0 <= k < 4 ==> r[k] in ps
    ensures forall j :: 0 <= j < 4 ==> r[0].x + r[0].y <= ps[j].x + ps[j].y
    ensures forall j :: 0 <= j < 4 ==> r[3].x + r[3].y >= ps[j].x + ps[j].y
    ensures forall j :: 0 <= j < 4 ==> r[1].y - r[1].x <= ps[j].y - ps[j].x
    ensures forall j :: 0 <= j < 4 ==> r[2].y - r[2].x >= ps[j].y - ps[j].x
  {
    var add, diff := Sums(ps), Diffs(ps);
    [ps[ArgMin(add)], ps[ArgMin(diff)], ps[ArgMax(diff)], ps[ArgMax(add)]]
  }

  /** Ties go to the earliest input point: the top-left slot holds the first
      point of least coordinate sum. */
  lemma ReorderTiesToFirst(ps: seq<Point>, j: nat)
    requires |ps| == 4 && j < 4
    requires ps[j].x + ps[j].y == Reorder(ps)[0].x + Reorder(ps)[0].y
    ensures exists i :: 0 <= i <= j && Reorder(ps)[0] == ps[i]
  {
    assert Reorder(ps)[0] == ps[ArgMin(Sums(ps))];
  }

  /** The four corners of an axis-aligned rectangle. */
  function Corners(x0: int, y0: int, x1: int, y1: int): seq<Point> {
    [Point(x0, y0), Point(x1, y0), Point(x0, y1), Point(x1, y1)]
  }

  /** The corners of an upright rectangle, given in any order, come out as
      top-left, top-right, bottom-left, bottom-right. */
  lemma ReorderRectangle(ps: seq<Point>, x0: int, y0: int, x1: int, y1: int)
    requires x0 < x1 && y0 < y1
    requires |ps| == 4 && Elems(ps) == Elems(Corners(x0, y0, x1, y1))
    ensures Reorder(ps) == Corners(x0, y0, x1, y1)
  {
    var r := Reorder(ps);
    var c := Corners(x0, y0, x1, y1);
    assert c[0] in Elems(ps) && c[1] in Elems(ps) && c[2] in Elems(ps) && c[3] in Elems(ps);
    assert r[0] in Elems(ps) && r[1] in Elems(ps) && r[2] in Elems(ps) && r[3] in Elems(ps);
    OnlyCorner(ps, x0, y0, x1, y1, r[0], 0);
    OnlyCorner(ps, x0, y0, x1, y1, r[1], 1);
    OnlyCorner(ps, x0, y0, x1, y1, r[2], 2);
    OnlyCorner(ps, x0, y0, x1, y1, r[3], 3);
  }

  /** A rectangle corner that is extreme in the sense of slot `k`. */
  predicate ExtremeFor(p: Point, x0: int, y0: int, x1: int, y1: int, k: int) {
    if k == 0 then p.x + p.y <= x0 + y0
    else if k == 1 then p.y - p.x <= y0 - x1
    else if k == 2 then p.y - p.x >= y1 - x0
    else p.x + p.y >= x1 + y1
  }

  /** `Reorder` puts a point extreme for slot `k` there, and among the
      four corners only corner `k` is extreme for slot `k`. */
  lemma OnlyCorner(ps: seq<Point>, x0: int, y0: int, x1: int, y1: int, p: Point, k: int)
    requires x0 < x1 && y0 < y1 && 0 <= k < 4
    requires |ps| == 4 && Elems(ps) == Elems(Corners(x0, y0, x1, y1))
    requires p == Reorder(ps)[k]
    ensures p == Corners(x0, y0, x1, y1)[k]
  {
    var c := Corners(x0, y0, x1, y1);
    assert c[k] in Elems(ps);
    var i :| 0 <= i < 4 && ps[i] == c[k];
    assert ExtremeFor(p, x0, y0, x1, y1, k);
    assert p in Elems(ps);
    CornerExtreme(p, x0, y0, x1, y1, k);
  }

  lemma CornerExtreme(p: Point, x0: int, y0: int, x1: int, y1: int, k: int)
    requires x0 < x1 && y0 < y1 && 0 <= k < 4
    requires p in Elems(Corners(x0, y0, x1, y1))
    requires ExtremeFor(p, x0, y0, x1, y1, k)
    ensures p == Corners(x0, y0, x1, y1)[k]
  {
    var c := Corners(x0, y0, x1, y1);
    assert p == c[0] || p == c[1] || p == c[2] || p == c[3];
  }

  /** The warp targets, listed in the order `Reorder` produces. */
  function WarpTargets(boardSize: int): seq<Point> {
    Corners(0, 0, boardSize, boardSize)
  }

  /** The slot order of `Reorder` is the order of the warp targets: the
      targets themselves are left as they are. */
  lemma TargetsAlreadyOrdered(boardSize: int)
    requires boardSize > 0
    ensures Reorder(WarpTargets(boardSize)) == WarpTargets(boardSize)
  {
    ReorderRectangle(WarpTargets(boardSize), 0, 0, boardSize, boardSize);
  }

  const DISPLAY_WIDTH := 1280
  const DISPLAY_HEIGHT := 720
  const MARGIN := 100

  /** The side of the warped board: the smaller display side less the
      margin. */
  function BoardSize(width: int, height: int, margin: int): (size: int)
    ensures size + margin <= width && size + margin <= height
    ensures size + margin == width || size + margin == height
  {
    (if width <= height then width else height) - margin
  }

  lemma DefaultBoardSize()
    ensures BoardSize(DISPLAY_WIDTH, DISPLAY_HEIGHT, MARGIN) == 620
  {
  }

  /** Python slice bounds: a negative bound counts from the end, and both
      are clamped to `[0, n]`. */
  function SliceBound(b: int, n: nat): (c: nat)
    ensures c <= n
  {
    if b < 0 then (if b + n < 0 then 0 else b + n) else if b > n then n else b
  }

  /** The number of entries of `s[start:stop]` for a sequence of length `n`. */
  function SliceLen(start: int, stop: int, n: nat): nat {
    var a, b := SliceBound(start, n), SliceBound(stop, n);
    if b > a then b - a else 0
  }

  /** The inner crop `[offset, size - offset)` on both axes, and the size it
      reports, `size - 2 * offset`. */
  datatype Crop = Crop(start: int, stop: int, reported: int)

  function CropInnerSquares(boardSize: nat, offset: int): (c: Crop)
    ensures c.reported == boardSize - 2 * offset
    ensures c.start == offset && c.stop == boardSize - offset
    ensures 0 <= offset ==>
      (SliceLen(c.start, c.stop, boardSize) == c.reported <==> 2 * offset <= boardSize)
  {
    Crop(offset, boardSize - offset, boardSize - 2 * offset)
  }

  /** The reported size is the actual side of the crop of a `boardSize`
      image exactly when the offset is at most half the board. */
  lemma CropReportsItsSize(boardSize: nat, offset: nat)
    ensures var c := CropInnerSquares(boardSize, offset);
      SliceLen(c.start, c.stop, boardSize) == c.reported <==> 2 * offset <= boardSize
  {
  }
}
