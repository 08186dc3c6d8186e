/** The rules engine the program delegates to, as an oracle: a position is its
    piece placement, the side to move and the engine's answers about moves.
    Applying a move is a caller-supplied function, so no chess rules are
    re-derived here. */
module Chess {
  import opened Basics

  datatype Color = White | Black
  datatype Kind = Pawn | Knight | Bishop | Rook | Queen | King
  datatype Piece = Piece(kind: Kind, color: Color)

  /** A move from one square to another, with an optional promotion piece. */
  datatype Move = Move(from: Sq, to: Sq, promotion: Option<Kind>)

  datatype Position = Position(
    pieces: map<Sq, Piece>,
    turn: Color,
    legal: set<Move>,
    captures: set<Move>,
    enPassant: set<Move>)

  /** What the engine guarantees of its answers: pieces sit on the board and
      legal moves run between board squares, from a square holding a piece. */
  predicate WellFormed(p: Position) {
    && (forall s :: s in p.pieces ==> OnBoard(s))
    && (forall m :: m in p.legal ==> OnBoard(m.from) && OnBoard(m.to) && m.from in p.pieces)
  }

  function PieceAt(p: Position, s: Sq): Option<Piece> {
    if s in p.pieces then Some(p.pieces[s]) else None
  }

  /** The engine together with the moves pushed onto it. */
  datatype Engine = Engine(pos: Position, stack: seq<Move>)

  /** Pushing a legal move: the position becomes the oracle's successor and
      the move is recorded. */
  function Push(e: Engine, m: Move, after: (Position, Move) -> Position): (r: Engine)
    requires m in e.pos.legal
    ensures r.stack == e.stack + [m] && r.pos == after(e.pos, m)
  {
    Engine(after(e.pos, m), e.stack + [m])
  }

  /** Occupied squares of a position, scanning the 64 board squares. */
  function Occupancy(p: Position): (occ: set<Sq>)
    ensures forall s :: s in occ <==> OnBoard(s) && s in p.pieces
  {
    var occ := set s | s in AllSquares() && s in p.pieces;
    assert forall s :: s in occ <==> OnBoard(s) && s in p.pieces by {
      forall s ensures s in occ <==> OnBoard(s) && s in p.pieces {
        OnBoardIsAllSquares(s);
      }
    }
    occ
  }

  /** Destinations of the legal moves leaving `from`. */
  function LegalDestinations(p: Position, from: Sq): (d: set<Sq>)
    ensures forall s :: s in d <==> exists m :: m in p.legal && m.from == from && m.to == s
  {
    set m | m in p.legal && m.from == from :: m.to
  }

  function BackRankPiece(file: int): Kind
    requires 0 <= file < 8
  {
    if file == 0 || file == 7 then Rook
    else if file == 1 || file == 6 then Knight
    else if file == 2 || file == 5 then Bishop
    else if file == 3 then Queen
    else King
  }

  /** Piece placement of the standard starting position. */
  function StartPieces(): map<Sq, Piece> {
    map s | s in AllSquares() && s.rank in {0, 1, 6, 7} ::
      var color := if s.rank <= 1 then White else Black;
      if s.rank == 1 || s.rank == 6 then Piece(Pawn, color) else Piece(BackRankPiece(s.file), color)
  }

  /** The four home ranks, file by file. */
  function HomeSquares(): (xs: seq<Sq>)
    ensures |xs| == 32
  {
    seq(32, i requires 0 <= i < 32 => Sq(i % 8, [0, 1, 6, 7][i / 8]))
  }

  /** The starting position occupies the 32 squares of ranks 1, 2, 7 and 8:
      a1 and e2 are occupied, e5 is not. */
  lemma StartOccupancy(p: Position)
    requires p.pieces == StartPieces()
    ensures |Occupancy(p)| == 32
    ensures Sq(0, 0) in Occupancy(p) && Sq(4, 1) in Occupancy(p) && Sq(4, 4) !in Occupancy(p)
  {
    var xs := HomeSquares();
    forall i, j | 0 <= i < j < |xs| ensures xs[i] != xs[j] {
      assert i == (i / 8) * 8 + i % 8 && j == (j / 8) * 8 + j % 8;
      assert xs[i].file == i % 8 && xs[j].file == j % 8;
      assert xs[i].rank == [0, 1, 6, 7][i / 8] && xs[j].rank == [0, 1, 6, 7][j / 8];
    }
    DistinctCard(xs);
    forall s | s in Occupancy(p) ensures s in Elems(xs) {
      var row := if s.rank == 0 then 0 else if s.rank == 1 then 1 else if s.rank == 6 then 2 else 3;
      assert xs[row * 8 + s.file] == s;
    }
    forall s | s in Elems(xs) ensures s in Occupancy(p) {
      OnBoardIsAllSquares(s);
    }
    assert Occupancy(p) == Elems(xs);
    OnBoardIsAllSquares(Sq(0, 0));
    OnBoardIsAllSquares(Sq(4, 1));
  }
}
