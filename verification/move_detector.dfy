/** Move inference from two board-placement texts: parse each FEN placement
    into a grid of cells, list the cells that differ, and accept exactly one
    piece leaving one square for an empty one. */
module MoveDetector {
  import opened Basics
  import opened Strings

  /** `grid[row][col]`: row 0 is rank 8, col 0 is file a; `None` is empty. */
  type Grid = seq<seq<Option<char>>>

  function Blanks(n: nat): (cells: seq<Option<char>>)
    ensures |cells| == n
    ensures forall i :: 0 <= i < n ==> cells[i] == None
  {
    seq(n, _ => None)
  }

  /** One rank of a placement: an ASCII digit stands for that many empty
      cells, any other character is a piece. */
  function ParseRow(row: string): (cells: seq<Option<char>>)
    ensures forall i :: 0 <= i < |cells| && cells[i].Some? ==>
      cells[i].value in row && !IsDigit(cells[i].value)
    ensures |row| == 1 && IsDigit(row[0]) ==> cells == Blanks(DigitValue(row[0]))
    ensures |row| == 1 && !IsDigit(row[0]) ==> cells == [Some(row[0])]
    decreases |row|
  {
    if |row| == 0 then []
    else
      var head := if IsDigit(row[0]) then Blanks(DigitValue(row[0])) else [Some(row[0])];
      var tail := ParseRow(row[1..]);
      assert forall c :: c in row[1..] ==> c in row;
      head + tail
  }

  /** Parsing follows the text: the cells of a concatenation are the cells
      of its first part followed by those of its second. */
  lemma {:induction false} ParseRowAppend(a: string, b: string)
    ensures ParseRow(a + b) == ParseRow(a) + ParseRow(b)
    decreases |a|
  {
    if |a| > 0 {
      assert (a + b)[0] == a[0];
      assert (a + b)[1..] == a[1..] + b;
      ParseRowAppend(a[1..], b);
    } else {
      assert a + b == b;
    }
  }

  /** The grid of the first space-separated field of a FEN text, one row per
      '/'-separated piece of it, whatever their number and length. */
  function ParseFenGrid(fen: string): (g: Grid)
    ensures |g| >= 1
    ensures forall r, c :: 0 <= r < |g| && 0 <= c < |g[r]| && g[r][c].Some? ==>
      !IsDigit(g[r][c].value) && g[r][c].value != '/'
  {
    var rows := Split(Split(fen, ' ')[0], '/');
    seq(|rows|, i requires 0 <= i < |rows| => ParseRow(rows[i]))
  }

  /** Square name of grid cell (row, col): the file letter for the column and
      the rank 8 - row. */
  function GetAlgebraic(row: int, col: int): (name: string)
    requires 0 <= row < 8 && 0 <= col < 8
    ensures name == SquareName(col, 7 - row)
    ensures name[1] as int - '0' as int == 8 - row
  {
    [(('a' as int) + col) as char] + [DigitChar(8 - row)]
  }

  /** Indexing a row or cell past its end raises an index error in the
      comparison loop; grids that are at least 8 by 8 are safe. */
  predicate Shaped(g: Grid) {
    |g| >= 8 && forall r :: 0 <= r < 8 ==> |g[r]| >= 8
  }

  /** Cell number `k`, numbered row by row from a8 (0) to h1 (63). */
  function At(g: Grid, k: int): Option<char>
    requires Shaped(g) && 0 <= k < 64
  {
    g[k / 8][k % 8]
  }

  predicate Differs(gp: Grid, gc: Grid, k: int)
    requires Shaped(gp) && Shaped(gc) && 0 <= k < 64
  {
    At(gp, k) != At(gc, k)
  }

  /** The differing cells from `k` on, in the row-major order the scan
      visits them. */
  function DiffIndices(gp: Grid, gc: Grid, k: nat): (ks: seq<int>)
    requires Shaped(gp) && Shaped(gc) && k <= 64
    ensures forall i :: 0 <= i < |ks| ==> k <= ks[i] < 64 && Differs(gp, gc, ks[i])
    ensures forall i, j :: 0 <= i < j < |ks| ==> ks[i] < ks[j]
    ensures forall j :: k <= j < 64 && Differs(gp, gc, j) ==> j in ks
    decreases 64 - k
  {
    if k == 64 then []
    else if Differs(gp, gc, k) then [k] + DiffIndices(gp, gc, k + 1)
    else DiffIndices(gp, gc, k + 1)
  }

  /** Which differing cell was vacated and which was filled. */
  datatype Roles = Roles(source: Option<int>, dest: Option<int>)

  predicate OnGrid(roles: Roles) {
    (roles.source.Some? ==> 0 <= roles.source.value < 64)
    && (roles.dest.Some? ==> 0 <= roles.dest.value < 64)
  }

  /** The role-assignment loop: `None` where the loop returns early because a
      second source, a second destination, or a cell that is neither appears. */
  function AssignRoles(gp: Grid, gc: Grid, ks: seq<int>, acc: Roles): (r: Option<Roles>)
    requires Shaped(gp) && Shaped(gc)
    requires forall i :: 0 <= i < |ks| ==> 0 <= ks[i] < 64
    requires OnGrid(acc)
    ensures r.Some? ==> OnGrid(r.value)
    decreases |ks|
  {
    if |ks| == 0 then Some(acc)
    else
      var k := ks[0];
      if At(gp, k).Some? && At(gc, k).None? then
        if acc.source.Some? then None
        else AssignRoles(gp, gc, ks[1..], acc.(source := Some(k)))
      else if At(gp, k).None? && At(gc, k).Some? then
        if acc.dest.Some? then None
        else AssignRoles(gp, gc, ks[1..], acc.(dest := Some(k)))
      else None
  }

  /** The UCI text of a move between two cells. */
  function Uci(s: int, d: int): (text: string)
    requires 0 <= s < 64 && 0 <= d < 64
    ensures |text| == 4
    ensures text[..2] == GetAlgebraic(s / 8, s % 8) && text[2..] == GetAlgebraic(d / 8, d % 8)
  {
    GetAlgebraic(s / 8, s % 8) + GetAlgebraic(d / 8, d % 8)
  }

  /** The grid comparison of the detector on two grids it can index. */
  function CompareGrids(gp: Grid, gc: Grid): (uci: Option<string>)
    requires Shaped(gp) && Shaped(gc)
    ensures uci.Some? ==> |uci.value| == 4
  {
    var ks := DiffIndices(gp, gc, 0);
    if |ks| != 2 then None
    else match AssignRoles(gp, gc, ks, Roles(None, None))
      case None => None
      case Some(roles) =>
        if roles.source.Some? && roles.dest.Some? then
          var s, d := roles.source.value, roles.dest.value;
          if At(gp, s) != At(gc, d) then None else Some(Uci(s, d))
        else None
  }

  /** A plain move between the grids: the piece on cell `s` moved to the empty
      cell `d` and nothing else changed. */
  predicate SimpleMove(gp: Grid, gc: Grid, s: int, d: int)
    requires Shaped(gp) && Shaped(gc)
  {
    0 <= s < 64 && 0 <= d < 64 && s != d
    && At(gp, s).Some? && At(gc, s).None?
    && At(gp, d).None? && At(gc, d) == At(gp, s)
    && forall j :: 0 <= j < 64 && j != s && j != d ==> !Differs(gp, gc, j)
  }

  /** An increasing list holding `a` and `b` and nothing else is `[a, b]`. */
  lemma IncreasingPair(ks: seq<int>, a: int, b: int)
    requires a < b && a in ks && b in ks
    requires forall i :: 0 <= i < |ks| ==> ks[i] == a || ks[i] == b
    requires forall i, j :: 0 <= i < j < |ks| ==> ks[i] < ks[j]
    ensures ks == [a, b]
  {
    assert Distinct(ks);
    DistinctCard(ks);
    assert Elems(ks) == {a, b};
  }

  /** Exactly two differing cells make the difference list those two. */
  lemma TwoDiffIndices(gp: Grid, gc: Grid, a: int, b: int)
    requires Shaped(gp) && Shaped(gc)
    requires 0 <= a < b < 64 && Differs(gp, gc, a) && Differs(gp, gc, b)
    requires forall j :: 0 <= j < 64 && j != a && j != b ==> !Differs(gp, gc, j)
    ensures DiffIndices(gp, gc, 0) == [a, b]
  {
    var ks := DiffIndices(gp, gc, 0);
    assert a in ks && b in ks;
    forall i | 0 <= i < |ks| ensures ks[i] == a || ks[i] == b {
      assert Differs(gp, gc, ks[i]);
    }
    IncreasingPair(ks, a, b);
  }

  predicate Vacated(gp: Grid, gc: Grid, k: int)
    requires Shaped(gp) && Shaped(gc) && 0 <= k < 64
  {
    At(gp, k).Some? && At(gc, k).None?
  }

  predicate Filled(gp: Grid, gc: Grid, k: int)
    requires Shaped(gp) && Shaped(gc) && 0 <= k < 64
  {
    At(gp, k).None? && At(gc, k).Some?
  }

  /** On two differing cells the loop succeeds only for one vacated and one
      filled cell, in either order. */
  lemma PairRoles(gp: Grid, gc: Grid, a: int, b: int)
    requires Shaped(gp) && Shaped(gc) && 0 <= a < 64 && 0 <= b < 64
    ensures AssignRoles(gp, gc, [a, b], Roles(None, None)) ==
      if Vacated(gp, gc, a) && Filled(gp, gc, b) then Some(Roles(Some(a), Some(b)))
      else if Filled(gp, gc, a) && Vacated(gp, gc, b) then Some(Roles(Some(b), Some(a)))
      else None
  {
    var ks := [a, b];
    assert ks[1..] == [b] && ks[1..][1..] == [];
    if Vacated(gp, gc, a) {
      var r1 := Roles(Some(a), None);
      assert AssignRoles(gp, gc, ks, Roles(None, None)) == AssignRoles(gp, gc, [b], r1);
      if Filled(gp, gc, b) {
        assert AssignRoles(gp, gc, [b], r1) == AssignRoles(gp, gc, [], Roles(Some(a), Some(b)));
      }
    } else if Filled(gp, gc, a) {
      var r1 := Roles(None, Some(a));
      assert AssignRoles(gp, gc, ks, Roles(None, None)) == AssignRoles(gp, gc, [b], r1);
      if Vacated(gp, gc, b) {
        assert AssignRoles(gp, gc, [b], r1) == AssignRoles(gp, gc, [], Roles(Some(b), Some(a)));
      }
    }
  }

  /** Every plain move is detected, with its UCI text. */
  lemma CompareGridsComplete(gp: Grid, gc: Grid, s: int, d: int)
    requires Shaped(gp) && Shaped(gc)
    requires SimpleMove(gp, gc, s, d)
    ensures CompareGrids(gp, gc) == Some(Uci(s, d))
  {
    if s < d {
      TwoDiffIndices(gp, gc, s, d);
      PairRoles(gp, gc, s, d);
    } else {
      TwoDiffIndices(gp, gc, d, s);
      PairRoles(gp, gc, d, s);
    }
  }

  /** Whatever the comparison reports is a plain move between the grids. */
  lemma CompareGridsSound(gp: Grid, gc: Grid) returns (s: int, d: int)
    requires Shaped(gp) && Shaped(gc)
    requires CompareGrids(gp, gc).Some?
    ensures SimpleMove(gp, gc, s, d)
    ensures CompareGrids(gp, gc) == Some(Uci(s, d))
  {
    var ks := DiffIndices(gp, gc, 0);
    assert |ks| == 2;
    assert ks == [ks[0], ks[1]];
    PairRoles(gp, gc, ks[0], ks[1]);
    if Vacated(gp, gc, ks[0]) && Filled(gp, gc, ks[1]) {
      s, d := ks[0], ks[1];
    } else {
      s, d := ks[1], ks[0];
    }
  }

  /** What one call of the detector ends in. */
  datatype Detection = Found(uci: string) | NoMove | IndexError

  /** Falsy inputs (`None` or the empty text) give no move. */
  predicate Present(fen: Option<string>) {
    fen.Some? && |fen.value| > 0
  }

  /** The detector: parse both texts, raise on a grid too small to index,
      otherwise compare the grids. */
  function DetectMove(prev: Option<string>, curr: Option<string>): (r: Detection)
    ensures r.IndexError? <==>
      Present(prev) && Present(curr)
      && !(Shaped(ParseFenGrid(prev.value)) && Shaped(ParseFenGrid(curr.value)))
    ensures r.Found? ==> |r.uci| == 4
  {
    if !Present(prev) || !Present(curr) then NoMove
    else
      var gp, gc := ParseFenGrid(prev.value), ParseFenGrid(curr.value);
      if !(Shaped(gp) && Shaped(gc)) then IndexError
      else match CompareGrids(gp, gc)
        case Some(uci) => Found(uci)
        case None => NoMove
  }

  /** The detector finds a move exactly when the two parsed grids differ by a
      plain move, and reports that move's text. */
  lemma DetectMoveFound(prev: string, curr: string, s: int, d: int)
    requires |prev| > 0 && |curr| > 0
    requires Shaped(ParseFenGrid(prev)) && Shaped(ParseFenGrid(curr))
    requires SimpleMove(ParseFenGrid(prev), ParseFenGrid(curr), s, d)
    ensures DetectMove(Some(prev), Some(curr)) == Found(Uci(s, d))
  {
    CompareGridsComplete(ParseFenGrid(prev), ParseFenGrid(curr), s, d);
  }

  lemma DetectMoveOnlyPlainMoves(prev: Option<string>, curr: Option<string>) returns (s: int, d: int)
    requires DetectMove(prev, curr).Found?
    ensures Present(prev) && Present(curr)
    ensures Shaped(ParseFenGrid(prev.value)) && Shaped(ParseFenGrid(curr.value))
    ensures SimpleMove(ParseFenGrid(prev.value), ParseFenGrid(curr.value), s, d)
    ensures DetectMove(prev, curr) == Found(Uci(s, d))
  {
    s, d := CompareGridsSound(ParseFenGrid(prev.value), ParseFenGrid(curr.value));
  }
}
