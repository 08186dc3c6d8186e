/** The simple detection loop's move logic: it follows the set of changed
    squares from frame to frame, and once exactly two squares have been
    steady long enough it takes the occupied one as the origin, tries that
    move and then its reverse, pushes whichever is legal, refreshes the
    references and starts over. Camera, warp and drawing are left out. */
module MainLoop {
  import opened Basics
  import opened Chess
  import ChangeDetector

  /** `move_pending`, `changed_squares` and `stable_count`. */
  datatype Tracking = Tracking(pending: bool, changed: set<Sq>, stableCount: nat)

  const START: Tracking := Tracking(false, {}, 0)

  /** Following the changed squares through one processed frame. */
  function Track(t: Tracking, current: set<Sq>): (r: Tracking)
    ensures current != {} ==> r.changed == current
    ensures current == {} ==> r.changed == t.changed && r.pending == t.pending
    ensures current != {} && current != t.changed ==> r.pending && r.stableCount == 0
    ensures r.stableCount <= t.stableCount + 1
  {
    if current != {} then
      if current == t.changed then t.(stableCount := t.stableCount + 1)
      else Tracking(true, current, 0)
    else if t.pending && t.stableCount > 0 then t.(stableCount := t.stableCount + 1)
    else t
  }

  /** The tracking after a run of frames. */
  function TrackAll(t: Tracking, frames: seq<set<Sq>>): Tracking
    decreases |frames|
  {
    if |frames| == 0 then t else TrackAll(Track(t, frames[0]), frames[1..])
  }

  function Repeat(s: set<Sq>, k: nat): (xs: seq<set<Sq>>)
    ensures |xs| == k && forall i :: 0 <= i < k ==> xs[i] == s
  {
    seq(k, i requires 0 <= i < k => s)
  }

  /** The same non-empty change seen `k + 1` frames in a row, after a
      different one, leaves that change pending with a count of `k`. */
  lemma {:induction false} SteadyChangeCounts(t: Tracking, s: set<Sq>, k: nat)
    requires s != {} && t.changed != s
    ensures TrackAll(t, Repeat(s, k + 1)) == Tracking(true, s, k)
    decreases k
  {
    if k == 0 {
      assert Repeat(s, 1)[1..] == [];
    } else {
      SteadyChangeCounts(t, s, k - 1);
      TrackAllSnoc(t, Repeat(s, k), s);
      assert Repeat(s, k) + [s] == Repeat(s, k + 1);
    }
  }

  lemma {:induction false} TrackAllSnoc(t: Tracking, frames: seq<set<Sq>>, f: set<Sq>)
    ensures TrackAll(t, frames + [f]) == Track(TrackAll(t, frames), f)
    decreases |frames|
  {
    if |frames| == 0 {
      assert (frames + [f])[1..] == [];
    } else {
      TrackAllSnoc(Track(t, frames[0]), frames[1..], f);
      assert (frames + [f])[1..] == frames[1..] + [f];
    }
  }

  /** Quiet frames count towards stability only once the change has been
      seen on at least two frames: a change seen once and then gone keeps a
      count of zero for ever, while a settled one gains one per frame. */
  lemma {:induction false} QuietFrames(t: Tracking, k: nat)
    requires t.pending
    ensures t.stableCount == 0 ==> TrackAll(t, Repeat({}, k)) == t
    ensures t.stableCount > 0 ==> TrackAll(t, Repeat({}, k)) == t.(stableCount := t.stableCount + k)
    decreases k
  {
    if k > 0 {
      QuietFrames(t, k - 1);
      TrackAllSnoc(t, Repeat({}, k - 1), {});
      assert Repeat({}, k - 1) + [{}] == Repeat({}, k);
    }
  }

  /** A resolution is attempted on a pending change of exactly two squares
      that has been steady for `stableFrames` frames. */
  predicate Ready(t: Tracking, stableFrames: int) {
    t.pending && |t.changed| == 2 && t.stableCount >= stableFrames
  }

  /** The origin and destination of two changed squares: the occupied one is
      the origin; if both are occupied the first is the origin when it holds
      a piece of the side to move; if neither is, there is no move. */
  function Origin(p: Position, a: Sq, b: Sq): (r: Option<(Sq, Sq)>)
    ensures r.None? <==> a !in p.pieces && b !in p.pieces
    ensures r.Some? ==> r.value == (a, b) || r.value == (b, a)
    ensures r.Some? ==> r.value.0 in p.pieces
    ensures a != b && a in p.pieces && b in p.pieces ==>
      (r == Some((a, b)) <==> p.pieces[a].color == p.turn)
  {
    if a in p.pieces && b !in p.pieces then Some((a, b))
    else if b in p.pieces && a !in p.pieces then Some((b, a))
    else if a in p.pieces && b in p.pieces then
      if p.pieces[a].color == p.turn then Some((a, b)) else Some((b, a))
    else None
  }

  /** `chr(97 + f) + str(r + 1)` for both squares. */
  function MoveText(from: Sq, to: Sq): (text: string)
    requires OnBoard(from) && OnBoard(to)
    ensures |text| == 4
  {
    [(97 + from.file) as char, DigitChar(from.rank + 1),
     (97 + to.file) as char, DigitChar(to.rank + 1)]
  }

  /** The move text is the two algebraic square names in a row. */
  lemma MoveTextIsSquareNames(from: Sq, to: Sq)
    requires OnBoard(from) && OnBoard(to)
    ensures MoveText(from, to) == SquareName(from.file, from.rank) + SquareName(to.file, to.rank)
  {
  }

  /** The square named by a file letter and a rank digit, if they name one. */
  function ParseSquare(f: char, r: char): (s: Option<Sq>)
    ensures s.Some? ==> OnBoard(s.value)
  {
    if 'a' <= f <= 'h' && '1' <= r <= '8' then Some(Sq(f as int - 'a' as int, r as int - '1' as int))
    else None
  }

  /** `Move.from_uci` on four-character texts; `None` stands for the error it
      raises on anything else. */
  function FromUci(text: string): (m: Option<Move>)
    ensures m.Some? ==> m.value.promotion.None? && OnBoard(m.value.from) && OnBoard(m.value.to)
  {
    if |text| != 4 then None
    else
      match (ParseSquare(text[0], text[1]), ParseSquare(text[2], text[3]))
      case (Some(from), Some(to)) => Some(Move(from, to, None))
      case _ => None
  }

  /** Parsing the written text gives back the move between the two
      squares, so distinct moves have distinct texts. */
  lemma FromUciMoveText(from: Sq, to: Sq)
    requires OnBoard(from) && OnBoard(to)
    ensures FromUci(MoveText(from, to)) == Some(Move(from, to, None))
  {
    var text := MoveText(from, to);
    assert text[0] == (97 + from.file) as char && text[2] == (97 + to.file) as char;
    assert ParseSquare(text[0], text[1]) == Some(from);
    assert ParseSquare(text[2], text[3]) == Some(to);
  }

  /** The result of trying a move: the engine afterwards and the move pushed. */
  datatype Attempted = Attempted(engine: Engine, pushed: Option<Move>)

  /** Trying the move from `from` to `to`, and if that is not legal the
      reverse; only a legal move is pushed. */
  function Attempt(e: Engine, from: Sq, to: Sq, after: (Position, Move) -> Position): (r: Attempted)
    requires OnBoard(from) && OnBoard(to)
    ensures r.pushed.Some? ==> r.pushed.value in e.pos.legal && r.engine == Push(e, r.pushed.value, after)
    ensures r.pushed.None? ==> r.engine == e
    ensures Move(from, to, None) in e.pos.legal ==> r.pushed == Some(Move(from, to, None))
    ensures Move(from, to, None) !in e.pos.legal && Move(to, from, None) in e.pos.legal ==>
      r.pushed == Some(Move(to, from, None))
    ensures Move(from, to, None) !in e.pos.legal && Move(to, from, None) !in e.pos.legal ==>
      r.pushed.None?
  {
    FromUciMoveText(from, to);
    FromUciMoveText(to, from);
    var forward := FromUci(MoveText(from, to));
    if forward.Some? && forward.value in e.pos.legal then
      Attempted(Push(e, forward.value, after), forward)
    else
      var reverse := FromUci(MoveText(to, from));
      if reverse.Some? && reverse.value in e.pos.legal then
        Attempted(Push(e, reverse.value, after), reverse)
      else
        Attempted(e, None)
  }

  /** Resolving two changed squares listed in the order `a`, `b`. */
  function Resolve(e: Engine, a: Sq, b: Sq, after: (Position, Move) -> Position): (r: Attempted)
    requires OnBoard(a) && OnBoard(b)
    ensures r.pushed.Some? ==> r.pushed.value in e.pos.legal && r.engine == Push(e, r.pushed.value, after)
    ensures r.pushed.Some? ==> r.pushed.value.promotion.None?
    ensures r.pushed.Some? ==> {r.pushed.value.from, r.pushed.value.to} == {a, b}
    ensures r.pushed.None? ==> r.engine == e
    ensures a !in e.pos.pieces && b !in e.pos.pieces ==> r.pushed.None?
  {
    match Origin(e.pos, a, b)
    case None => Attempted(e, None)
    case Some((from, to)) => Attempt(e, from, to, after)
  }

  /** The order in which the two squares are listed matters only when both
      hold pieces of the same colour. */
  lemma ResolveOrderIrrelevant(e: Engine, a: Sq, b: Sq, after: (Position, Move) -> Position)
    requires OnBoard(a) && OnBoard(b)
    requires !(a in e.pos.pieces && b in e.pos.pieces && e.pos.pieces[a].color == e.pos.pieces[b].color)
    ensures Resolve(e, a, b, after) == Resolve(e, b, a, after)
  {
    if a in e.pos.pieces && b in e.pos.pieces {
      assert Origin(e.pos, a, b) == Origin(e.pos, b, a);
    }
  }

  /** A legal move between the two squares is found whichever of them the
      origin rule picks, as long as it runs from an occupied square and only
      one direction is legal. */
  lemma ResolveFindsLegalMove(e: Engine, a: Sq, b: Sq, m: Move, after: (Position, Move) -> Position)
    requires OnBoard(a) && OnBoard(b)
    requires m in e.pos.legal && m.promotion.None? && m.from in e.pos.pieces
    requires (m.from == a && m.to == b) || (m.from == b && m.to == a)
    requires Move(m.to, m.from, None) !in e.pos.legal
    ensures Resolve(e, a, b, after).pushed == Some(m)
  {
  }

  /** One processed frame of the loop. */
  datatype Frame<M> = Frame(
    tracking: Tracking,
    engine: Engine,
    sensor: ChangeDetector.Sensor<M>,
    pushed: Option<Move>,
    refreshed: bool)

  /** Tracking and, when ready, resolution; `listing` is the order in which
      the two changed squares come out of the set, and `s` is the sensor as
      this frame's ChangeDetector.DetectChanges left it, with the quiet
      squares already relearned, so a frame that does not resolve keeps it
      as it is. References are refreshed after every resolution, whatever
      its outcome. */
  function Step<G, M>(t: Tracking, e: Engine, s: ChangeDetector.Sensor<M>, squares: map<Sq, G>,
                      current: set<Sq>, listing: seq<Sq>,
                      fit: G -> M, after: (Position, Move) -> Position): (r: Frame<M>)
    requires forall q :: q in current ==> OnBoard(q)
    requires forall q :: q in t.changed ==> OnBoard(q)
    requires Enumerates(listing, Track(t, current).changed)
    ensures r.refreshed <==> Ready(Track(t, current), s.settings.stableFrames)
    ensures r.refreshed ==> r.tracking == START && r.sensor == ChangeDetector.UpdateAllReferences(s, squares, fit)
    ensures !r.refreshed ==> r.tracking == Track(t, current) && r.engine == e && r.sensor == s && r.pushed.None?
    ensures r.pushed.Some? ==> r.pushed.value in e.pos.legal && r.engine == Push(e, r.pushed.value, after)
    ensures r.pushed.Some? ==> {r.pushed.value.from, r.pushed.value.to} == Track(t, current).changed
    ensures r.pushed.None? ==> r.engine == e
  {
    var t1 := Track(t, current);
    if Ready(t1, s.settings.stableFrames) then
      DistinctCard(listing);
      assert Elems(listing) == {listing[0], listing[1]};
      assert listing[0] in t1.changed && listing[1] in t1.changed;
      var res := Resolve(e, listing[0], listing[1], after);
      Frame(START, res.engine, ChangeDetector.UpdateAllReferences(s, squares, fit), res.pushed, true)
    else
      Frame(t1, e, s, None, false)
  }

  /** Nothing is pushed unless exactly two squares are pending. */
  lemma OnlyTwoSquareChangesResolve<G, M>(t: Tracking, e: Engine, s: ChangeDetector.Sensor<M>,
                                          squares: map<Sq, G>, current: set<Sq>, listing: seq<Sq>,
                                          fit: G -> M, after: (Position, Move) -> Position)
    requires forall q :: q in current ==> OnBoard(q)
    requires forall q :: q in t.changed ==> OnBoard(q)
    requires Enumerates(listing, Track(t, current).changed)
    requires |Track(t, current).changed| != 2
    ensures Step(t, e, s, squares, current, listing, fit, after).pushed.None?
    ensures Step(t, e, s, squares, current, listing, fit, after).tracking == Track(t, current)
  {
  }
}
