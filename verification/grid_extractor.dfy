/** Splitting the warped board image into the 64 square windows, keyed by
    (file, rank index) with a1 = (0, 0) in the bottom-left corner of the
    image. Only the window geometry is modelled; the pixels are not. */
module GridExtractor {
  import opened Basics

  /** The image slice `[top, top + height) x [left, left + width)`. */
  datatype Window = Window(top: int, left: int, height: int, width: int)

  /** The window of board square `s` in a `rows` x `cols` image: files run
      left to right, ranks bottom to top, each cell `rows // 8` high and
      `cols // 8` wide. */
  function WindowOf(s: Sq, rows: nat, cols: nat): Window {
    var h, w := rows / 8, cols / 8;
    Window(h * (7 - s.rank), w * s.file, h, w)
  }

  /** The keys and windows written once the image bands before `r`, and the
      first `c` cells of band `r`, have been visited. */
  predicate Visited(s: Sq, r: int, c: int) {
    OnBoard(s) && (7 - s.rank < r || (7 - s.rank == r && s.file < c))
  }

  /** The double loop over image bands (top first) and columns (left first),
      storing each window under the key `(c, 7 - r)`. */
  method SplitBoard(rows: nat, cols: nat) returns (squares: map<Sq, Window>)
    ensures squares.Keys == AllSquares()
    ensures forall s :: s in squares ==> squares[s] == WindowOf(s, rows, cols)
  {
    var h := rows / 8;
    var w := cols / 8;
    squares := map[];
    var r := 0;
    while r < 8
      invariant 0 <= r <= 8
      invariant forall s :: s in squares <==> Visited(s, r, 0)
      invariant forall s :: s in squares ==> squares[s] == WindowOf(s, rows, cols)
    {
      var c := 0;
      while c < 8
        invariant 0 <= c <= 8
        invariant forall s :: s in squares <==> Visited(s, r, c)
        invariant forall s :: s in squares ==> squares[s] == WindowOf(s, rows, cols)
      {
        var y := h * r;
        var x := w * c;
        squares := squares[Sq(c, 7 - r) := Window(y, x, h, w)];
        c := c + 1;
      }
      assert forall s :: Visited(s, r, 8) <==> Visited(s, r + 1, 0);
      r := r + 1;
    }
    assert forall s :: s in squares <==> s in AllSquares() by {
      forall s ensures s in squares <==> s in AllSquares() {
        OnBoardIsAllSquares(s);
      }
    }
  }

  /** Every window lies inside the image, and all have the same size. */
  lemma WindowInside(s: Sq, rows: nat, cols: nat)
    requires OnBoard(s)
    ensures var win := WindowOf(s, rows, cols);
      0 <= win.top && win.top + win.height <= rows
      && 0 <= win.left && win.left + win.width <= cols
      && win.height == rows / 8 && win.width == cols / 8
  {
    AxisInside(rows / 8, 7 - s.rank, rows);
    AxisInside(cols / 8, s.file, cols);
  }

  /** Cell `i` of eight equal cells of size `n // 8` lies within `[0, n)`. */
  lemma AxisInside(d: nat, i: int, n: nat)
    requires 0 <= i < 8 && d == n / 8
    ensures 0 <= d * i && d * i + d <= n
  {
    if d > 0 {
      MulLeq(d, 0, i);
      MulLeq(d, i + 1, 8);
    }
  }

  predicate Inside(win: Window, y: int, x: int) {
    win.top <= y < win.top + win.height && win.left <= x < win.left + win.width
  }

  /** Which cell a pixel of the covered area falls in: a pixel lies in the
      window of an on-board square exactly when that square is file
      `x // w` and rank `7 - y // h`. */
  lemma PixelInOneWindow(rows: nat, cols: nat, y: int, x: int, s: Sq)
    requires rows >= 8 && cols >= 8
    requires OnBoard(s)
    ensures Inside(WindowOf(s, rows, cols), y, x) <==> s == Sq(x / (cols / 8), 7 - y / (rows / 8))
  {
    var h, w := rows / 8, cols / 8;
    CellOfCoordinate(y, h, 7 - s.rank);
    CellOfCoordinate(x, w, s.file);
  }

  /** A coordinate lies in cell `i` of size `d` exactly when `v // d == i`. */
  lemma CellOfCoordinate(v: int, d: int, i: int)
    requires d > 0
    ensures d * i <= v < d * i + d <==> v / d == i
  {
    if d * i <= v < d * i + d {
      DivUnique(v, d, i);
    }
  }

  /** Distinct squares get windows with no pixel in common, as long as the
      image has at least one pixel per cell. */
  lemma WindowsDisjoint(rows: nat, cols: nat, s: Sq, t: Sq, y: int, x: int)
    requires rows >= 8 && cols >= 8
    requires OnBoard(s) && OnBoard(t) && s != t
    requires Inside(WindowOf(s, rows, cols), y, x)
    ensures !Inside(WindowOf(t, rows, cols), y, x)
  {
    PixelInOneWindow(rows, cols, y, x, s);
    PixelInOneWindow(rows, cols, y, x, t);
  }

  /** a1 is the bottom-left cell and h8 the top-right one. */
  lemma CornerCells(rows: nat, cols: nat)
    ensures WindowOf(Sq(0, 0), rows, cols).top == 7 * (rows / 8)
    ensures WindowOf(Sq(0, 0), rows, cols).left == 0
    ensures WindowOf(Sq(7, 7), rows, cols).top == 0
    ensures WindowOf(Sq(7, 7), rows, cols).left == 7 * (cols / 8)
  {
  }
}
