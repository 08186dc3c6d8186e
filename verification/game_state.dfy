/** The occupancy reconciler: compares the squares the engine says are
    occupied with the squares vision sees and resolves the difference to at
    most one legal move, which it then pushes. */
module GameState {
  import opened Basics
  import opened Chess

  datatype Status =
    | MoveConfirmed | IllegalMove | CastlingConfirmed | EnPassantConfirmed
    | CaptureConfirmed | AmbiguousCapture | NoValidChange

  predicate Confirmed(s: Status) {
    s == MoveConfirmed || s == CastlingConfirmed || s == EnPassantConfirmed || s == CaptureConfirmed
  }

  datatype Outcome = Outcome(engine: Engine, move: Option<Move>, status: Status)

  /** Squares the engine has occupied but vision sees empty, and squares
      vision sees occupied but the engine has empty. */
  function Vanished(p: Position, observed: set<Sq>): (v: set<Sq>)
    ensures forall s :: s in v <==> s in Occupancy(p) && s !in observed
  {
    Occupancy(p) - observed
  }

  function Appeared(p: Position, observed: set<Sq>): (a: set<Sq>)
    ensures forall s :: s in a <==> s in observed && s !in Occupancy(p)
    ensures a * Vanished(p, observed) == {}
  {
    observed - Occupancy(p)
  }

  /** The two difference sets are exactly what separates the engine's
      occupancy from vision's: applying them to either side gives the other
      back, and both are empty exactly when the two agree. */
  lemma DifferencesReconstruct(p: Position, observed: set<Sq>)
    ensures (Occupancy(p) - Vanished(p, observed)) + Appeared(p, observed) == observed
    ensures (observed - Appeared(p, observed)) + Vanished(p, observed) == Occupancy(p)
    ensures Vanished(p, observed) == {} && Appeared(p, observed) == {} <==> observed == Occupancy(p)
  {
  }

  predicate HasKind(p: Position, s: Sq, k: Kind) {
    s in p.pieces && p.pieces[s].kind == k
  }

  /** The plain move if legal, otherwise the queen promotion if legal. */
  function ValidateMove(p: Position, src: Sq, dst: Sq): (r: Option<Move>)
    ensures r.Some? <==> Move(src, dst, None) in p.legal || Move(src, dst, Some(Queen)) in p.legal
    ensures r.Some? ==> r.value in p.legal && r.value.from == src && r.value.to == dst
    ensures r.Some? && r.value.promotion != None ==> r.value.promotion == Some(Queen) && Move(src, dst, None) !in p.legal
  {
    if Move(src, dst, None) in p.legal then Some(Move(src, dst, None))
    else if Move(src, dst, Some(Queen)) in p.legal then Some(Move(src, dst, Some(Queen)))
    else None
  }

  /** A king move from a vanished square to an appeared square two files away
      on the same rank, which the engine accepts. */
  predicate CastlingMove(p: Position, vanished: set<Sq>, appeared: set<Sq>, m: Move) {
    && m.from in vanished && m.to in appeared && m.promotion == None
    && HasKind(p, m.from, King)
    && Abs(m.to.file - m.from.file) == 2 && m.to.rank == m.from.rank
    && m in p.legal
  }

  function CastlingFrom(p: Position, v: Sq, appeared: seq<Sq>): (r: Option<Move>)
    requires HasKind(p, v, King)
    ensures r.Some? ==> CastlingMove(p, {v}, Elems(appeared), r.value) && r.value.from == v
    ensures r.None? ==> forall m: Move :: m.from == v ==> !CastlingMove(p, {v}, Elems(appeared), m)
  {
    if |appeared| == 0 then None
    else
      var a := appeared[0];
      if Abs(a.file - v.file) == 2 && a.rank == v.rank && Move(v, a, None) in p.legal then
        Some(Move(v, a, None))
      else
        var r := CastlingFrom(p, v, appeared[1..]);
        assert Elems(appeared) == {a} + Elems(appeared[1..]) by {
          assert appeared == [a] + appeared[1..];
        }
        r
  }

  /** The vanished squares are tried in list order; for a king, the appeared
      squares are tried in list order; the first accepted king move wins. */
  function DetectCastling(p: Position, vanished: seq<Sq>, appeared: seq<Sq>): (r: Option<Move>)
    ensures r.Some? ==> CastlingMove(p, Elems(vanished), Elems(appeared), r.value)
    ensures r.None? ==> forall m :: !CastlingMove(p, Elems(vanished), Elems(appeared), m)
  {
    if |vanished| == 0 then None
    else
      var v := vanished[0];
      assert Elems(vanished) == {v} + Elems(vanished[1..]) by {
        assert vanished == [v] + vanished[1..];
      }
      var here := if HasKind(p, v, King) then CastlingFrom(p, v, appeared) else None;
      if here.Some? then
        assert CastlingMove(p, {v}, Elems(appeared), here.value);
        here
      else
        var rest := DetectCastling(p, vanished[1..], appeared);
        assert rest.None? ==> forall m :: !CastlingMove(p, Elems(vanished), Elems(appeared), m) by {
          if rest.None? {
            forall m ensures !CastlingMove(p, Elems(vanished), Elems(appeared), m) {
              if m.from == v {
                assert !CastlingMove(p, {v}, Elems(appeared), m);
              } else {
                assert !CastlingMove(p, Elems(vanished[1..]), Elems(appeared), m);
              }
            }
          }
        }
        rest
  }

  /** A pawn move from a vanished square to the appeared square that the
      engine accepts and flags as en passant. */
  predicate EnPassantMove(p: Position, vanished: set<Sq>, dst: Sq, m: Move) {
    && m.from in vanished && m.to == dst && m.promotion == None
    && HasKind(p, m.from, Pawn)
    && m in p.legal && m in p.enPassant
  }

  function DetectEnPassant(p: Position, vanished: seq<Sq>, dst: Sq): (r: Option<Move>)
    ensures r.Some? ==> EnPassantMove(p, Elems(vanished), dst, r.value)
    ensures r.None? ==> forall m :: !EnPassantMove(p, Elems(vanished), dst, m)
  {
    if |vanished| == 0 then None
    else
      var src := vanished[0];
      assert Elems(vanished) == {src} + Elems(vanished[1..]) by {
        assert vanished == [src] + vanished[1..];
      }
      var m := Move(src, dst, None);
      if HasKind(p, src, Pawn) && m in p.legal && m in p.enPassant then Some(m)
      else
        var rest := DetectEnPassant(p, vanished[1..], dst);
        assert rest.None? ==> forall n :: !EnPassantMove(p, Elems(vanished), dst, n) by {
          if rest.None? {
            forall n ensures !EnPassantMove(p, Elems(vanished), dst, n) {
              if n.from != src {
                assert !EnPassantMove(p, Elems(vanished[1..]), dst, n);
              }
            }
          }
        }
        rest
  }

  /** Legal captures from `src` whose destination vision sees occupied. */
  function CaptureCandidates(p: Position, src: Sq, observed: set<Sq>): (c: set<Move>)
    ensures forall m :: m in c <==> m in p.legal && m.from == src && m in p.captures && m.to in observed
  {
    set m | m in p.legal && m.from == src && m in p.captures && m.to in observed
  }

  datatype CaptureResult = Unique(move: Move) | Ambiguous | NoCapture

  function DetectCapture(p: Position, src: Sq, observed: set<Sq>): (r: CaptureResult)
    ensures r.Unique? <==> |CaptureCandidates(p, src, observed)| == 1
    ensures r.Unique? ==> CaptureCandidates(p, src, observed) == {r.move}
    ensures r.Ambiguous? <==> |CaptureCandidates(p, src, observed)| > 1
  {
    var c := CaptureCandidates(p, src, observed);
    if |c| == 1 then Unique(TheOne(c))
    else if |c| > 1 then Ambiguous
    else NoCapture
  }

  /** The list orders the program iterates the two difference sets in. */
  predicate Orders(p: Position, observed: set<Sq>, vList: seq<Sq>, aList: seq<Sq>) {
    Enumerates(vList, Vanished(p, observed)) && Enumerates(aList, Appeared(p, observed))
  }

  lemma OrderSizes(p: Position, observed: set<Sq>, vList: seq<Sq>, aList: seq<Sq>)
    requires Orders(p, observed, vList, aList)
    ensures |vList| == |Vanished(p, observed)| && |aList| == |Appeared(p, observed)|
  {
    DistinctCard(vList);
    DistinctCard(aList);
  }

  /** Resolves vision's occupancy against the engine's, trying in order a
      one-for-one move (with queen promotion as fallback), castling,
      en passant and a capture onto an occupied square. A move is pushed only
      when it is legal and the status is a confirmation; every other result
      leaves the engine untouched. */
  function ProcessOccupancyChange(e: Engine, observed: set<Sq>, vList: seq<Sq>, aList: seq<Sq>,
                                  after: (Position, Move) -> Position): (r: Outcome)
    requires Orders(e.pos, observed, vList, aList)
    ensures Confirmed(r.status) <==> r.move.Some?
    ensures r.move.Some? ==> r.move.value in e.pos.legal && r.engine == Push(e, r.move.value, after)
    ensures r.move.None? ==> r.engine == e
  {
    var nv, na := |vList|, |aList|;
    if nv == 1 && na == 1 then
      match ValidateMove(e.pos, vList[0], aList[0])
      case Some(m) => Outcome(Push(e, m, after), Some(m), MoveConfirmed)
      case None => Outcome(e, None, IllegalMove)
    else
      var castle := if nv == 2 && na == 2 then DetectCastling(e.pos, vList, aList) else None;
      if castle.Some? then
        Outcome(Push(e, castle.value, after), castle, CastlingConfirmed)
      else
        var ep := if nv == 2 && na == 1 then DetectEnPassant(e.pos, vList, aList[0]) else None;
        if ep.Some? then
          Outcome(Push(e, ep.value, after), ep, EnPassantConfirmed)
        else if nv == 1 && na == 0 then
          match DetectCapture(e.pos, vList[0], observed)
          case Unique(m) => Outcome(Push(e, m, after), Some(m), CaptureConfirmed)
          case Ambiguous => Outcome(e, None, AmbiguousCapture)
          case NoCapture => Outcome(e, None, NoValidChange)
        else
          Outcome(e, None, NoValidChange)
  }

  /** A one-element listing names the set's only member. */
  lemma SingletonFacts(xs: seq<Sq>, s: set<Sq>)
    requires Enumerates(xs, s)
    ensures |s| == 1 ==> |xs| == 1 && s == {xs[0]}
    ensures |s| >= 1 ==> |xs| >= 1 && xs[0] in s
  {
    DistinctCard(xs);
    if |s| >= 1 {
      assert xs[0] in Elems(xs);
    }
    if |s| == 1 {
      SingletonMember(s);
      assert xs[0] in s;
    }
  }

  /** One vanished and one appeared square: the result is the validated
      move between them when there is one, "illegal move" otherwise; no other
      pattern yields either status. */
  lemma {:induction false} OneForOneCase(e: Engine, observed: set<Sq>, vList: seq<Sq>, aList: seq<Sq>,
                                         after: (Position, Move) -> Position)
    requires Orders(e.pos, observed, vList, aList)
    ensures var r := ProcessOccupancyChange(e, observed, vList, aList, after);
      var v := Vanished(e.pos, observed); var a := Appeared(e.pos, observed);
      && ((r.status == MoveConfirmed || r.status == IllegalMove) <==> |v| == 1 && |a| == 1)
      && (|v| == 1 && |a| == 1 ==>
            forall src, dst :: src in v && dst in a ==> r.move == ValidateMove(e.pos, src, dst))
  {
    OrderSizes(e.pos, observed, vList, aList);
    SingletonFacts(vList, Vanished(e.pos, observed));
    SingletonFacts(aList, Appeared(e.pos, observed));
  }

  /** Two vanished and two appeared squares: castling is confirmed exactly
      when some accepted king move joins them, and the pushed move is one. */
  lemma {:induction false} CastlingCase(e: Engine, observed: set<Sq>, vList: seq<Sq>, aList: seq<Sq>,
                                        after: (Position, Move) -> Position)
    requires Orders(e.pos, observed, vList, aList)
    ensures var r := ProcessOccupancyChange(e, observed, vList, aList, after);
      var v := Vanished(e.pos, observed); var a := Appeared(e.pos, observed);
      && (r.status == CastlingConfirmed <==> |v| == 2 && |a| == 2 && exists m :: CastlingMove(e.pos, v, a, m))
      && (r.status == CastlingConfirmed ==> CastlingMove(e.pos, v, a, r.move.value))
  {
    OrderSizes(e.pos, observed, vList, aList);
    SingletonFacts(vList, Vanished(e.pos, observed));
    SingletonFacts(aList, Appeared(e.pos, observed));
    var v := Vanished(e.pos, observed);
    var a := Appeared(e.pos, observed);
    if |v| == 2 && |a| == 2 {
      var c := DetectCastling(e.pos, vList, aList);
      if c.Some? {
        assert CastlingMove(e.pos, v, a, c.value);
      }
    }
  }

  /** Two vanished squares and one appeared: en passant is confirmed exactly
      when an accepted en passant pawn move leads from a vanished square to
      the appeared one. */
  lemma {:induction false} EnPassantCase(e: Engine, observed: set<Sq>, vList: seq<Sq>, aList: seq<Sq>,
                                         after: (Position, Move) -> Position)
    requires Orders(e.pos, observed, vList, aList)
    ensures var r := ProcessOccupancyChange(e, observed, vList, aList, after);
      var v := Vanished(e.pos, observed); var a := Appeared(e.pos, observed);
      && (r.status == EnPassantConfirmed <==>
            |v| == 2 && |a| == 1 && exists m, dst :: dst in a && EnPassantMove(e.pos, v, dst, m))
      && (r.status == EnPassantConfirmed ==>
            r.move.value.to in a && EnPassantMove(e.pos, v, r.move.value.to, r.move.value))
  {
    OrderSizes(e.pos, observed, vList, aList);
    SingletonFacts(vList, Vanished(e.pos, observed));
    SingletonFacts(aList, Appeared(e.pos, observed));
    var v := Vanished(e.pos, observed);
    var a := Appeared(e.pos, observed);
    if |v| == 2 && |a| == 1 {
      var ep := DetectEnPassant(e.pos, vList, aList[0]);
      if ep.None? {
        forall m, dst | dst in a ensures !EnPassantMove(e.pos, v, dst, m) {
          assert dst == aList[0];
        }
      }
    }
  }

  /** One vanished square and none appeared: the capture is confirmed
      exactly when a single legal capture from there lands on a square vision
      sees occupied, and reported ambiguous when several do. */
  lemma {:induction false} CaptureCase(e: Engine, observed: set<Sq>, vList: seq<Sq>, aList: seq<Sq>,
                                       after: (Position, Move) -> Position)
    requires Orders(e.pos, observed, vList, aList)
    ensures var r := ProcessOccupancyChange(e, observed, vList, aList, after);
      var v := Vanished(e.pos, observed); var a := Appeared(e.pos, observed);
      && (r.status == CaptureConfirmed <==>
            |v| == 1 && |a| == 0 && exists src :: src in v && |CaptureCandidates(e.pos, src, observed)| == 1)
      && (r.status == CaptureConfirmed ==>
            exists src :: src in v && CaptureCandidates(e.pos, src, observed) == {r.move.value})
      && (r.status == AmbiguousCapture <==>
            |v| == 1 && |a| == 0 && exists src :: src in v && |CaptureCandidates(e.pos, src, observed)| > 1)
  {
    OrderSizes(e.pos, observed, vList, aList);
    SingletonFacts(vList, Vanished(e.pos, observed));
    SingletonFacts(aList, Appeared(e.pos, observed));
    var v := Vanished(e.pos, observed);
    var a := Appeared(e.pos, observed);
    var r := ProcessOccupancyChange(e, observed, vList, aList, after);
    if |v| == 1 && |a| == 0 {
      var src := vList[0];
      assert src in v;
      assert forall s :: s in v ==> s == src;
      match DetectCapture(e.pos, src, observed)
      case Unique(m) =>
        assert r.status == CaptureConfirmed && r.move == Some(m);
      case Ambiguous =>
        assert r.status == AmbiguousCapture;
      case NoCapture =>
        assert r.status == NoValidChange;
    } else {
      assert r.status != CaptureConfirmed && r.status != AmbiguousCapture;
    }
  }

  /** Every difference pattern other than 1/1, 2/2, 2/1 and 1/0 (including
      no difference at all) is "no valid change" and touches nothing. */
  lemma OtherPatternsRejected(e: Engine, observed: set<Sq>, vList: seq<Sq>, aList: seq<Sq>,
                              after: (Position, Move) -> Position)
    requires Orders(e.pos, observed, vList, aList)
    requires var n := (|Vanished(e.pos, observed)|, |Appeared(e.pos, observed)|);
      n != (1, 1) && n != (2, 2) && n != (2, 1) && n != (1, 0)
    ensures ProcessOccupancyChange(e, observed, vList, aList, after) == Outcome(e, None, NoValidChange)
  {
    OrderSizes(e.pos, observed, vList, aList);
  }

  /** A quiet move is recognised: if vision sees the engine's occupancy with
      the origin emptied and an empty destination filled, and that move is
      legal, the reconciler confirms and pushes exactly that move. */
  lemma QuietMoveRecognised(e: Engine, m: Move, vList: seq<Sq>, aList: seq<Sq>,
                            after: (Position, Move) -> Position)
    requires WellFormed(e.pos) && m in e.pos.legal && m.promotion == None
    requires m.to !in Occupancy(e.pos)
    requires Orders(e.pos, Occupancy(e.pos) - {m.from} + {m.to}, vList, aList)
    ensures var r := ProcessOccupancyChange(e, Occupancy(e.pos) - {m.from} + {m.to}, vList, aList, after);
      r.status == MoveConfirmed && r.move == Some(m) && r.engine == Push(e, m, after)
  {
    var observed := Occupancy(e.pos) - {m.from} + {m.to};
    assert m.from in Occupancy(e.pos);
    assert Vanished(e.pos, observed) == {m.from};
    assert Appeared(e.pos, observed) == {m.to};
    OneForOneCase(e, observed, vList, aList, after);
  }

  /** A capture is recognised: vision sees only the origin emptied, and `m`
      is the single legal capture from there onto a square vision sees
      occupied. */
  lemma CaptureRecognised(e: Engine, m: Move, vList: seq<Sq>, aList: seq<Sq>,
                          after: (Position, Move) -> Position)
    requires WellFormed(e.pos)
    requires CaptureCandidates(e.pos, m.from, Occupancy(e.pos) - {m.from}) == {m}
    requires Orders(e.pos, Occupancy(e.pos) - {m.from}, vList, aList)
    ensures var r := ProcessOccupancyChange(e, Occupancy(e.pos) - {m.from}, vList, aList, after);
      r.status == CaptureConfirmed && r.move == Some(m) && r.engine == Push(e, m, after)
  {
    var observed := Occupancy(e.pos) - {m.from};
    assert m in CaptureCandidates(e.pos, m.from, observed);
    assert m.from in Occupancy(e.pos);
    assert Vanished(e.pos, observed) == {m.from};
    assert Appeared(e.pos, observed) == {};
    CaptureCase(e, observed, vList, aList, after);
    SingletonMember(CaptureCandidates(e.pos, m.from, observed));
  }
}
