/** The renderer's board logic: the display coordinate flip for a player on
    the black side, and the "radar" that shows where a lifted piece may go.
    Drawing is left out. */
module UiRenderer {
  import opened Basics
  import opened Chess

  datatype Renderer = Renderer(
    playerColor: string,
    highlight: seq<Sq>,
    lifted: Option<Sq>,
    radar: seq<Sq>)

  function Init(playerColor: string): (u: Renderer)
    ensures u.highlight == [] && u.radar == [] && u.lifted.None?
  {
    Renderer(playerColor, [], None, [])
  }

  /** Logical to camera coordinates: the camera sees the board from the
      player's side, so for black both axes are mirrored. */
  function Denormalize(playerColor: string, pos: Sq): (raw: Sq)
    ensures playerColor != "black" ==> raw == pos
    ensures playerColor == "black" ==> raw.file + pos.file == 7 && raw.rank + pos.rank == 7
  {
    if playerColor == "black" then Sq(7 - pos.file, 7 - pos.rank) else pos
  }

  /** Mirroring twice restores the square, and board squares stay on the
      board. */
  lemma DenormalizeInvolution(playerColor: string, pos: Sq)
    ensures Denormalize(playerColor, Denormalize(playerColor, pos)) == pos
    ensures OnBoard(pos) <==> OnBoard(Denormalize(playerColor, pos))
  {
  }

  /** The squares the engine says are occupied, written with the rank
      flipped as `(file, 7 - rank)`. */
  function ExpectedOccupied(p: Position): (e: set<Sq>)
    ensures forall s :: s in e <==> OnBoard(s) && Flipped(s) in p.pieces
  {
    var e := set t | t in Occupancy(p) :: Flipped(t);
    assert forall s :: s in e <==> OnBoard(s) && Flipped(s) in p.pieces by {
      forall s ensures s in e <==> OnBoard(s) && Flipped(s) in p.pieces {
        if OnBoard(s) && Flipped(s) in p.pieces {
          assert Flipped(Flipped(s)) == s;
        }
      }
    }
    e
  }

  /** The destinations of the moves leaving `from`, in the engine's order
      and with one entry per move (promotions repeat their square). */
  function DestinationsFrom(moves: seq<Move>, from: Sq): (d: seq<Sq>)
    ensures |d| <= |moves|
    ensures forall s :: s in d <==> exists i :: 0 <= i < |moves| && moves[i].from == from && moves[i].to == s
  {
    if |moves| == 0 then []
    else
      var rest := DestinationsFrom(moves[1..], from);
      assert forall i :: 1 <= i < |moves| ==> moves[i] == moves[1..][i - 1];
      if moves[0].from == from then [moves[0].to] + rest else rest
  }

  /** A piece of the side to move stands on `s`. */
  predicate MoverAt(p: Position, s: Sq) {
    s in p.pieces && p.pieces[s].color == p.turn
  }

  /** One radar update from the engine position, its legal moves in the
      engine's order, and the squares vision sees occupied. The previous
      radar is always discarded. */
  function UpdateRadar(u: Renderer, p: Position, moves: seq<Move>, vision: set<Sq>): (r: Renderer)
    requires Enumerates(moves, p.legal)
    ensures r.playerColor == u.playerColor && r.highlight == r.radar
    ensures r.lifted.Some? <==>
      (exists s :: ExpectedOccupied(p) - vision == {s} && MoverAt(p, s))
    ensures r.lifted.Some? ==>
      ExpectedOccupied(p) - vision == {r.lifted.value} && MoverAt(p, r.lifted.value)
    ensures r.lifted.None? ==> r.radar == []
    ensures r.lifted.Some? ==> forall s :: s in r.radar <==>
      exists m :: m in p.legal && m.from == r.lifted.value && m.to == s
  {
    var missing := ExpectedOccupied(p) - vision;
    var cleared := Renderer(u.playerColor, [], None, []);
    if |missing| == 1 then
      var pos := TheOne(missing);
      if MoverAt(p, pos) then
        var d := DestinationsFrom(moves, pos);
        assert forall m :: m in p.legal <==> m in moves by {
          forall m ensures m in p.legal <==> m in moves {
            assert m in moves <==> m in Elems(moves);
          }
        }
        Renderer(u.playerColor, d, Some(pos), d)
      else
        cleared
    else
      assert forall s :: missing != {s};
      cleared
  }

  /** Nothing of the previous radar survives an update. */
  lemma RadarForgetsPrevious(u: Renderer, previous: Renderer, p: Position, moves: seq<Move>, vision: set<Sq>)
    requires Enumerates(moves, p.legal) && previous.playerColor == u.playerColor
    ensures UpdateRadar(u, p, moves, vision) == UpdateRadar(previous, p, moves, vision)
  {
  }

  /** Vision agreeing with the engine, or missing two or more pieces,
      leaves the radar empty. */
  lemma RadarNeedsOneMissing(u: Renderer, p: Position, moves: seq<Move>, vision: set<Sq>)
    requires Enumerates(moves, p.legal)
    requires |ExpectedOccupied(p) - vision| != 1
    ensures UpdateRadar(u, p, moves, vision).lifted.None?
    ensures UpdateRadar(u, p, moves, vision).highlight == []
  {
  }
}
