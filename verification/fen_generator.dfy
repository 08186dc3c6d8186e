/** From piece detections on the warped board image to a FEN text: each
    detection centre falls into a grid cell, the most confident detection
    per cell wins, and the 8 by 8 board is written rank by rank with runs of
    empty cells as digits. */
module FenGenerator {
  import opened Basics
  import opened Strings
  import MoveDetector

  /** The FEN letter for a detector class name; unknown classes give '?'. */
  function PieceToFen(cls: string): (c: char)
    ensures c == '?' || c in "PNBRQKpnbrqk"
    ensures !IsDigit(c) && c != '/' && c != ' '
  {
    if cls == "white-pawn" then 'P'
    else if cls == "white-knight" then 'N'
    else if cls == "white-bishop" then 'B'
    else if cls == "white-rook" then 'R'
    else if cls == "white-queen" then 'Q'
    else if cls == "white-king" then 'K'
    else if cls == "black-pawn" then 'p'
    else if cls == "black-knight" then 'n'
    else if cls == "black-bishop" then 'b'
    else if cls == "black-rook" then 'r'
    else if cls == "black-queen" then 'q'
    else if cls == "black-king" then 'k'
    else '?'
  }

  /** The twelve class names the detector knows, in the table's order. */
  const CLASSES: seq<string> := [
    "white-pawn", "white-knight", "white-bishop", "white-rook", "white-queen", "white-king",
    "black-pawn", "black-knight", "black-bishop", "black-rook", "black-queen", "black-king"]

  /** Distinct known classes get distinct letters, and only unknown classes
      get '?'. */
  lemma PieceToFenInjective(a: string, b: string)
    requires a in CLASSES && b in CLASSES
    ensures PieceToFen(a) == PieceToFen(b) <==> a == b
    ensures PieceToFen(a) != '?'
  {
  }

  lemma UnknownClass(cls: string)
    requires cls !in CLASSES
    ensures PieceToFen(cls) == '?'
  {
  }

  /** Where a pixel lands: the square name and its grid indices, or the
      out-of-bounds marker with indices (-1, -1). */
  datatype Located = Located(name: string, gx: int, gy: int)

  const OUT_OF_BOUNDS: string := "fora dos limites"

  predicate InGrid(gx: int, gy: int) {
    0 <= gx < 8 && 0 <= gy < 8
  }

  /** `get_chess_square`: `None` is the ZeroDivisionError raised when the
      square size `board_size // 8` is zero (board sizes 0 to 7); otherwise
      where the pixel lands. */
  function GetChessSquare(x: int, y: int, boardSize: int): (r: Option<Located>)
    ensures r.None? <==> FloorDiv(boardSize, 8) == 0
    ensures r.Some? ==> InGrid(r.value.gx, r.value.gy) || r.value == Located(OUT_OF_BOUNDS, -1, -1)
    ensures r.Some? && InGrid(r.value.gx, r.value.gy) ==> r.value.name == SquareName(r.value.gx, 7 - r.value.gy)
  {
    if FloorDiv(boardSize, 8) == 0 then None else Some(SquareAt(x, y, boardSize))
  }

  /** Where a pixel lands on a board whose square size is not zero: grid
      column `gx` counts files from a, grid row `gy` counts ranks down from
      8. */
  function SquareAt(x: int, y: int, boardSize: int): (loc: Located)
    requires FloorDiv(boardSize, 8) != 0
    ensures InGrid(loc.gx, loc.gy) || loc == Located(OUT_OF_BOUNDS, -1, -1)
    ensures InGrid(loc.gx, loc.gy) ==> loc.name == SquareName(loc.gx, 7 - loc.gy)
  {
    var sq := FloorDiv(boardSize, 8);
    var gx, gy := FloorDiv(x, sq), FloorDiv(y, sq);
    if !InGrid(gx, gy) then Located(OUT_OF_BOUNDS, -1, -1)
    else Located(SquareName(gx, 7 - gy), gx, gy)
  }

  /** Along one axis, the square index of a pixel is within the board
      exactly when the pixel is inside the eight whole squares. */
  lemma AxisIndex(v: int, sq: int)
    requires sq > 0
    ensures var g := FloorDiv(v, sq);
      sq * g <= v < sq * g + sq && (0 <= g < 8 <==> 0 <= v < 8 * sq)
  {
    var g := FloorDiv(v, sq);
    if g < 0 {
      assert sq * g <= -sq by { MulLeq(sq, g, -1); }
    } else if g >= 8 {
      assert sq * g >= 8 * sq by { MulLeq(sq, 8, g); }
    } else {
      assert sq * g + sq <= 8 * sq by { MulLeq(sq, g + 1, 8); }
    }
  }

  /** On a board of positive size, a pixel lands on the square whose pixel
      range contains it, and lands on one exactly when it lies inside the
      8 by 8 block of whole squares. */
  lemma PixelInSquare(x: int, y: int, boardSize: int)
    requires boardSize >= 8
    ensures var sq := boardSize / 8;
      var loc := SquareAt(x, y, boardSize);
      (InGrid(loc.gx, loc.gy) <==> 0 <= x < 8 * sq && 0 <= y < 8 * sq)
      && (InGrid(loc.gx, loc.gy) ==>
            sq * loc.gx <= x < sq * loc.gx + sq && sq * loc.gy <= y < sq * loc.gy + sq)
  {
    var sq := boardSize / 8;
    assert FloorDiv(boardSize, 8) == sq;
    AxisIndex(x, sq);
    AxisIndex(y, sq);
  }

  /** One detection: its centre pixel, class name and confidence. */
  datatype Box = Box(x: int, y: int, cls: string, conf: real)

  /** What the board map keeps for a cell. */
  datatype Entry = Entry(fen: char, conf: real, cls: string)

  type BoardMap = map<(int, int), Entry>

  function EntryOf(b: Box): Entry {
    Entry(PieceToFen(b.cls), b.conf, b.cls)
  }

  /** The grid cell a detection falls into, if any. */
  function CellOf(b: Box, boardSize: int): (cell: Option<(int, int)>)
    requires FloorDiv(boardSize, 8) != 0
    ensures cell.Some? ==> InGrid(cell.value.0, cell.value.1)
  {
    var loc := SquareAt(b.x, b.y, boardSize);
    if loc.gx == -1 || loc.gy == -1 then None else Some((loc.gx, loc.gy))
  }

  /** One pass of the mapping loop: a later detection replaces an earlier
      one only with strictly higher confidence. */
  function Place(m: BoardMap, b: Box, boardSize: int): BoardMap
    requires FloorDiv(boardSize, 8) != 0
  {
    match CellOf(b, boardSize)
    case None => m
    case Some(cell) =>
      if cell in m then
        if b.conf > m[cell].conf then m[cell := EntryOf(b)] else m
      else m[cell := EntryOf(b)]
  }

  /** `map_detections_to_board` as a whole: the first detection raises
      ZeroDivisionError when the square size is zero, so it raises exactly
      when there is a detection and the board is narrower than 8 pixels;
      otherwise it is the loop below. */
  function MapDetectionsToBoard(boxes: seq<Box>, boardSize: int): (r: Option<BoardMap>)
    ensures r.None? <==> |boxes| > 0 && FloorDiv(boardSize, 8) == 0
    ensures |boxes| == 0 ==> r == Some(map[])
    ensures r.Some? ==> forall cell :: cell in r.value ==> InGrid(cell.0, cell.1)
  {
    if |boxes| == 0 then Some(map[])
    else if FloorDiv(boardSize, 8) == 0 then
      assert GetChessSquare(boxes[0].x, boxes[0].y, boardSize).None?;
      None
    else Some(MapDetections(boxes, boardSize))
  }

  /** The board map after the loop has visited every detection in order,
      on a board whose square size is not zero. */
  function MapDetections(boxes: seq<Box>, boardSize: int): (m: BoardMap)
    requires FloorDiv(boardSize, 8) != 0
    ensures forall cell :: cell in m ==> InGrid(cell.0, cell.1)
    decreases |boxes|
  {
    if |boxes| == 0 then map[]
    else Place(MapDetections(boxes[..|boxes| - 1], boardSize), boxes[|boxes| - 1], boardSize)
  }

  /** Detection `i` is the one a cell keeps: it falls there, no detection
      there is more confident, and every earlier one there is less so. */
  predicate Winner(boxes: seq<Box>, boardSize: int, cell: (int, int), i: int)
    requires FloorDiv(boardSize, 8) != 0
  {
    0 <= i < |boxes| && CellOf(boxes[i], boardSize) == Some(cell)
    && (forall j :: 0 <= j < |boxes| && CellOf(boxes[j], boardSize) == Some(cell) ==>
          boxes[j].conf <= boxes[i].conf)
    && (forall j :: 0 <= j < i && CellOf(boxes[j], boardSize) == Some(cell) ==>
          boxes[j].conf < boxes[i].conf)
  }

  /** Placing a detection only ever touches the cell it falls into. */
  lemma PlaceCell(m: BoardMap, b: Box, boardSize: int, cell: (int, int))
    requires FloorDiv(boardSize, 8) != 0
    ensures CellOf(b, boardSize) != Some(cell) ==>
      (cell in Place(m, b, boardSize) <==> cell in m)
      && (cell in m ==> Place(m, b, boardSize)[cell] == m[cell])
    ensures CellOf(b, boardSize) == Some(cell) ==>
      cell in Place(m, b, boardSize)
      && Place(m, b, boardSize)[cell] ==
           if cell in m && !(b.conf > m[cell].conf) then m[cell] else EntryOf(b)
  {
  }

  /** A cell is in the map exactly when some detection falls there. */
  lemma {:induction false} MapDetectionsDomain(boxes: seq<Box>, boardSize: int, cell: (int, int))
    requires FloorDiv(boardSize, 8) != 0
    ensures cell in MapDetections(boxes, boardSize) <==>
      exists i :: 0 <= i < |boxes| && CellOf(boxes[i], boardSize) == Some(cell)
    decreases |boxes|
  {
    if |boxes| > 0 {
      var n := |boxes| - 1;
      var front := boxes[..n];
      var m0 := MapDetections(front, boardSize);
      assert MapDetections(boxes, boardSize) == Place(m0, boxes[n], boardSize);
      MapDetectionsDomain(front, boardSize, cell);
      PlaceCell(m0, boxes[n], boardSize, cell);
      if cell in m0 {
        var i :| 0 <= i < n && CellOf(front[i], boardSize) == Some(cell);
        assert front[i] == boxes[i];
      }
      if exists i :: 0 <= i < |boxes| && CellOf(boxes[i], boardSize) == Some(cell) {
        var i :| 0 <= i < |boxes| && CellOf(boxes[i], boardSize) == Some(cell);
        if i < n {
          assert front[i] == boxes[i];
        }
      }
    }
  }

  /** A cell of the map holds the first of the most confident detections
      that fall into it. */
  lemma {:induction false} MapDetectionsKeepsBest(boxes: seq<Box>, boardSize: int, cell: (int, int))
    returns (w: int)
    requires FloorDiv(boardSize, 8) != 0
    requires cell in MapDetections(boxes, boardSize)
    ensures Winner(boxes, boardSize, cell, w)
    ensures MapDetections(boxes, boardSize)[cell] == EntryOf(boxes[w])
    decreases |boxes|
  {
    var n := |boxes| - 1;
    var front := boxes[..n];
    var last := boxes[n];
    var m0 := MapDetections(front, boardSize);
    PlaceCell(m0, last, boardSize, cell);
    assert forall j :: 0 <= j < n ==> front[j] == boxes[j];
    if cell in m0 {
      var w0 := MapDetectionsKeepsBest(front, boardSize, cell);
      if CellOf(last, boardSize) == Some(cell) && last.conf > m0[cell].conf {
        w := n;
      } else {
        w := w0;
      }
    } else {
      MapDetectionsDomain(front, boardSize, cell);
      w := n;
    }
  }

  /** The 8 by 8 board of cell letters, row 0 being rank 8. */
  function Board(m: BoardMap): (g: MoveDetector.Grid)
    ensures |g| == 8 && forall r :: 0 <= r < 8 ==> |g[r]| == 8
  {
    seq(8, gy requires 0 <= gy < 8 =>
      seq(8, gx requires 0 <= gx < 8 => if (gx, gy) in m then Some(m[(gx, gy)].fen) else None))
  }

  /** `str(n)` for a pending run of empty cells, if there is one. */
  function Flush(empty: nat): (s: string)
    requires empty <= 9
    ensures MoveDetector.ParseRow(s) == MoveDetector.Blanks(empty)
  {
    if empty > 0 then [DigitChar(empty)] else []
  }

  /** The row loop, with `empty` empty cells already counted. */
  function EncodeRow(cells: seq<Option<char>>, empty: nat): (s: string)
    requires empty + |cells| <= 9
    ensures forall i :: 0 <= i < |s| ==> IsDigit(s[i]) || Some(s[i]) in cells
    decreases |cells|
  {
    if |cells| == 0 then Flush(empty)
    else if cells[0].None? then EncodeRow(cells[1..], empty + 1)
    else
      var rest := EncodeRow(cells[1..], 0);
      assert forall c :: c in cells[1..] ==> c in cells;
      Flush(empty) + [cells[0].value] + rest
  }

  /** The FEN text: the ranks joined by '/', then the side to move and the
      fixed fields "- - 0 1". */
  function GenerateFen(m: BoardMap, turn: string): string
    requires forall cell :: cell in m ==> InGrid(cell.0, cell.1)
  {
    Join(Ranks(m), '/') + " " + turn + " - - 0 1"
  }

  /** The encoded ranks, 8 down to 1. */
  function Ranks(m: BoardMap): (rows: seq<string>)
    ensures |rows| == 8
  {
    var board := Board(m);
    seq(8, r requires 0 <= r < 8 => EncodeRow(board[r], 0))
  }

  predicate PieceLetters(cells: seq<Option<char>>) {
    forall i :: 0 <= i < |cells| && cells[i].Some? ==>
      !IsDigit(cells[i].value) && cells[i].value != '/' && cells[i].value != ' '
  }

  lemma ConsAssoc<T>(front: seq<T>, cells: seq<T>)
    requires |cells| > 0
    ensures front + [cells[0]] + cells[1..] == front + cells
  {
    assert [cells[0]] + cells[1..] == cells;
  }

  /** Parsing an encoded row gives back the pending blanks and the cells. */
  lemma {:induction false} ParseEncodeRow(cells: seq<Option<char>>, empty: nat)
    requires empty + |cells| <= 9
    requires PieceLetters(cells)
    ensures MoveDetector.ParseRow(EncodeRow(cells, empty)) == MoveDetector.Blanks(empty) + cells
    decreases |cells|
  {
    if |cells| == 0 {
      assert MoveDetector.Blanks(empty) + cells == MoveDetector.Blanks(empty);
    } else if cells[0].None? {
      ParseEncodeRow(cells[1..], empty + 1);
      assert MoveDetector.Blanks(empty + 1) + cells[1..] == MoveDetector.Blanks(empty) + cells;
    } else {
      var p := cells[0].value;
      ParseEncodeRow(cells[1..], 0);
      MoveDetector.ParseRowAppend(Flush(empty) + [p], EncodeRow(cells[1..], 0));
      MoveDetector.ParseRowAppend(Flush(empty), [p]);
      assert MoveDetector.ParseRow([p]) == [Some(p)] by {
        assert [p][1..] == [];
      }
      assert MoveDetector.Blanks(0) + cells[1..] == cells[1..];
      ConsAssoc(MoveDetector.Blanks(empty), cells);
    }
  }

  /** No two digits stand side by side. */
  predicate RunsMerged(s: string) {
    forall i :: 0 <= i < |s| - 1 ==> !(IsDigit(s[i]) && IsDigit(s[i + 1]))
  }

  /** Runs of empty cells are written as a single digit each. */
  lemma {:induction false} EncodeRowMergesRuns(cells: seq<Option<char>>, empty: nat)
    requires empty + |cells| <= 9
    requires PieceLetters(cells)
    ensures RunsMerged(EncodeRow(cells, empty))
    decreases |cells|
  {
    if |cells| > 0 {
      if cells[0].None? {
        EncodeRowMergesRuns(cells[1..], empty + 1);
      } else {
        var p := cells[0].value;
        var rest := EncodeRow(cells[1..], 0);
        EncodeRowMergesRuns(cells[1..], 0);
        var s := Flush(empty) + [p] + rest;
        var k := |Flush(empty)|;
        forall i | 0 <= i < |s| - 1 ensures !(IsDigit(s[i]) && IsDigit(s[i + 1])) {
          if i < k {
            assert s[i + 1] == p;
          } else if i == k {
            assert s[i] == p;
          } else {
            assert s[i] == rest[i - k - 1] && s[i + 1] == rest[i - k];
          }
        }
      }
    }
  }

  predicate Letters(m: BoardMap) {
    forall cell :: cell in m ==> var c := m[cell].fen; !IsDigit(c) && c != '/' && c != ' '
  }

  /** Each rank parses back to its row of the board, and holds neither
      separator. */
  lemma RanksParse(m: BoardMap)
    requires Letters(m)
    ensures forall r :: 0 <= r < 8 ==>
      MoveDetector.ParseRow(Ranks(m)[r]) == Board(m)[r] && '/' !in Ranks(m)[r] && ' ' !in Ranks(m)[r]
  {
    var board := Board(m);
    forall r | 0 <= r < 8
      ensures MoveDetector.ParseRow(Ranks(m)[r]) == board[r]
      ensures '/' !in Ranks(m)[r] && ' ' !in Ranks(m)[r]
    {
      assert PieceLetters(board[r]);
      assert Ranks(m)[r] == EncodeRow(board[r], 0);
      RowRoundTrip(board[r]);
    }
  }

  /** A row of at most eight piece letters and blanks parses back from its
      encoding, which holds neither separator. */
  lemma RowRoundTrip(cells: seq<Option<char>>)
    requires |cells| <= 8 && PieceLetters(cells)
    ensures MoveDetector.ParseRow(EncodeRow(cells, 0)) == cells
    ensures '/' !in EncodeRow(cells, 0) && ' ' !in EncodeRow(cells, 0)
  {
    ParseEncodeRow(cells, 0);
    assert MoveDetector.Blanks(0) + cells == cells;
    var s := EncodeRow(cells, 0);
    forall i | 0 <= i < |s| ensures s[i] != '/' && s[i] != ' ' {
      if !IsDigit(s[i]) {
        var k :| 0 <= k < |cells| && cells[k] == Some(s[i]);
      }
    }
  }

  /** The placement field of a generated FEN splits back into its ranks. */
  lemma PlacementSplits(m: BoardMap, turn: string)
    requires forall cell :: cell in m ==> InGrid(cell.0, cell.1)
    requires Letters(m)
    ensures Split(Split(GenerateFen(m, turn), ' ')[0], '/') == Ranks(m)
  {
    var rows := Ranks(m);
    RanksParse(m);
    var placement := Join(rows, '/');
    SplitJoin(rows, '/');
    JoinChars(rows, '/', ' ');
    SplitFirst(placement, turn + " - - 0 1", ' ');
    assert GenerateFen(m, turn) == placement + [' '] + (turn + " - - 0 1");
  }

  /** A generated FEN has six space-separated fields: the placement, the
      side to move as given, and the fixed "- - 0 1". */
  lemma GenerateFenFields(m: BoardMap, turn: string)
    requires forall cell :: cell in m ==> InGrid(cell.0, cell.1)
    requires Letters(m) && ' ' !in turn
    ensures Split(GenerateFen(m, turn), ' ') == [Join(Ranks(m), '/'), turn, "-", "-", "0", "1"]
  {
    var placement := Join(Ranks(m), '/');
    RanksParse(m);
    JoinChars(Ranks(m), '/', ' ');
    var rest := turn + " - - 0 1";
    assert GenerateFen(m, turn) == placement + [' '] + rest;
    SplitFirst(placement, rest, ' ');
    TurnAndFixedFields(turn);
    var parts := Split(GenerateFen(m, turn), ' ');
    assert parts == [parts[0]] + parts[1..];
  }

  /** The text after the placement splits into the side to move and the
      four fixed fields. */
  lemma TurnAndFixedFields(turn: string)
    requires ' ' !in turn
    ensures Split(turn + " - - 0 1", ' ') == [turn, "-", "-", "0", "1"]
  {
    var tail := "- - 0 1";
    assert turn + " - - 0 1" == turn + [' '] + tail;
    SplitFirst(turn, tail, ' ');
    FixedFields();
    var parts := Split(turn + [' '] + tail, ' ');
    assert parts == [parts[0]] + parts[1..];
  }

  lemma FixedFields()
    ensures Split("- - 0 1", ' ') == ["-", "-", "0", "1"]
  {
    assert "- - 0 1" == "-" + [' '] + "- 0 1";
    assert "- 0 1" == "-" + [' '] + "0 1";
    assert "0 1" == "0" + [' '] + "1";
    SplitFirst("-", "- 0 1", ' ');
    SplitFirst("-", "0 1", ' ');
    SplitFirst("0", "1", ' ');
    SplitNoSeparator("1", ' ');
  }

  /** Parsing a generated FEN gives back the board it was generated from,
      whatever the side-to-move text. */
  lemma GenerateParseRoundTrip(m: BoardMap, turn: string)
    requires forall cell :: cell in m ==> InGrid(cell.0, cell.1)
    requires Letters(m)
    ensures MoveDetector.ParseFenGrid(GenerateFen(m, turn)) == Board(m)
  {
    PlacementSplits(m, turn);
    RanksParse(m);
  }

  /** A character absent from every piece and from the separator is absent
      from the joined text. */
  lemma {:induction false} JoinChars(parts: seq<string>, sep: char, c: char)
    requires c != sep
    requires forall i :: 0 <= i < |parts| ==> c !in parts[i]
    ensures c !in Join(parts, sep)
    decreases |parts|
  {
    if |parts| > 1 {
      JoinChars(parts[1..], sep, c);
    }
  }

  /** Every generated FEN has eight ranks of eight cells, with empty runs
      merged into single digits. */
  lemma GeneratedRanksWellFormed(m: BoardMap, turn: string)
    requires forall cell :: cell in m ==> InGrid(cell.0, cell.1)
    requires Letters(m)
    ensures var g := MoveDetector.ParseFenGrid(GenerateFen(m, turn));
      |g| == 8 && forall r :: 0 <= r < 8 ==> |g[r]| == 8
    ensures forall r :: 0 <= r < 8 ==> RunsMerged(EncodeRow(Board(m)[r], 0))
  {
    GenerateParseRoundTrip(m, turn);
    forall r | 0 <= r < 8 ensures RunsMerged(EncodeRow(Board(m)[r], 0)) {
      EncodeRowMergesRuns(Board(m)[r], 0);
    }
  }

  /** Detections yield a board map whose FEN parses back to the board. */
  lemma DetectionsRoundTrip(boxes: seq<Box>, boardSize: int, turn: string)
    requires FloorDiv(boardSize, 8) != 0
    ensures MoveDetector.ParseFenGrid(GenerateFen(MapDetections(boxes, boardSize), turn))
      == Board(MapDetections(boxes, boardSize))
  {
    var m := MapDetections(boxes, boardSize);
    forall cell | cell in m ensures var c := m[cell].fen; !IsDigit(c) && c != '/' && c != ' ' {
      var w := MapDetectionsKeepsBest(boxes, boardSize, cell);
      assert m[cell] == EntryOf(boxes[w]);
    }
    GenerateParseRoundTrip(m, turn);
  }
}
