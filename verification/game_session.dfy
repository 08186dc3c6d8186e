/** The live session loop: the per-frame focus set for the piece detector,
    the occupancy-stability counter with its commit gate, and the resolver
    that accepts a move only when exactly one legal candidate explains what
    vision sees. The wall clock is an input (`now`, in seconds), and so is
    the acceptance hook a subclass may override. */
module GameSession {
  import opened Basics
  import opened Chess
  import opened GameState
  import NoiseHandler
  import PieceDetector

  /** Consecutive identical observations required before a move is inferred. */
  const STABILITY_REQUIRED := 20
  /** Seconds that must pass after a pushed move before the next one. */
  const MOVE_COOLDOWN: real := 2.0
  /** Every this many frames the detector scans the whole board. */
  const FULL_SCAN_PERIOD := 30
  /** More differing squares than this means a hand or noise. */
  const MAX_DIFF := 4

  datatype Status = SessionIdle | Waiting | Processing

  datatype Session<G> = Session(
    status: Status,
    engine: Engine,
    noise: NoiseHandler.Handler,
    detector: PieceDetector.Detector<G>,
    stableOccupancy: Option<set<Sq>>,
    stableCount: nat,
    lastMoveTime: real)

  function Start<G>(engine: Engine): (s: Session<G>)
    ensures s.stableOccupancy == None && s.stableCount == 0 && s.lastMoveTime == 0.0
    ensures NoiseHandler.Inv(s.noise) && PieceDetector.Inv(s.detector)
  {
    NoiseHandler.InitialInv();
    Session(SessionIdle, engine, NoiseHandler.Initial(), PieceDetector.Initial(), None, 0, 0.0)
  }

  // ---------------------------------------------------------------------
  // Focus set

  /** The squares the detector must re-analyse this frame: none forced (a
      full scan) on every FULL_SCAN_PERIOD-th frame, otherwise the occupied
      squares plus the legal destinations, the latter with their rank
      flipped as the program writes it. See FocusSetMissesDestination. */
  function FocusSet(p: Position, frameCount: nat): (f: Option<set<Sq>>)
    ensures f.None? <==> frameCount % FULL_SCAN_PERIOD == 0
    ensures f.Some? ==> forall s :: s in f.value <==>
      (OnBoard(s) && s in p.pieces) || exists m :: m in p.legal && s == Flipped(m.to)
  {
    if frameCount % FULL_SCAN_PERIOD == 0 then None
    else Some(Occupancy(p) + set m | m in p.legal :: Flipped(m.to))
  }

  /** The focus set as evidently intended: the occupied squares plus the
      legal destinations in the same (file, rank) coordinates that the
      detector's squares and the occupancy use. */
  function FocusSetIntended(p: Position, frameCount: nat): (f: Option<set<Sq>>)
    ensures f.None? <==> frameCount % FULL_SCAN_PERIOD == 0
    ensures f.Some? ==> forall s :: s in f.value <==>
      (OnBoard(s) && s in p.pieces) || exists m :: m in p.legal && s == m.to
  {
    if frameCount % FULL_SCAN_PERIOD == 0 then None
    else Some(Occupancy(p) + set m | m in p.legal :: m.to)
  }

  /** With the intended focus set every legal destination is re-analysed
      on every frame that is not a full scan. */
  lemma IntendedFocusCoversDestinations(p: Position, frameCount: nat, m: Move)
    requires frameCount % FULL_SCAN_PERIOD != 0 && m in p.legal
    ensures var f := FocusSetIntended(p, frameCount); f.Some? && m.to in f.value
  {}

  /** The focus set as written misses a legal destination: with the pieces
      in their starting squares and e2-e4 the only legal move, e4 = (4, 3)
      is not in the set while the empty e5 = (4, 4) is. */
  lemma FocusSetMissesDestination()
    ensures var e2e4 := Move(Sq(4, 1), Sq(4, 3), None);
      var p := Position(StartPieces(), White, {e2e4}, {}, {});
      var f := FocusSet(p, 1);
      && f.Some? && Sq(4, 3) !in f.value && Sq(4, 4) in f.value
      && FocusSetIntended(p, 1).Some? && Sq(4, 3) in FocusSetIntended(p, 1).value
  {
    var e2e4 := Move(Sq(4, 1), Sq(4, 3), None);
    var p := Position(StartPieces(), White, {e2e4}, {}, {});
    assert Sq(4, 3) !in p.pieces;
    assert Flipped(e2e4.to) == Sq(4, 4);
  }

  // ---------------------------------------------------------------------
  // Move inference

  /** A move the resolver collects: either the validated move (plain, else
      queen promotion) from a missing square to an extra square, or a legal
      capture from a missing square onto a square vision sees occupied. */
  predicate IsCandidate(p: Position, missing: set<Sq>, extra: set<Sq>, observed: set<Sq>, m: Move) {
    || (m.from in missing && m.to in extra && ValidateMove(p, m.from, m.to) == Some(m))
    || (m in p.legal && m.from in missing && m in p.captures && m.to in observed)
  }

  /** The distinct candidates. Every candidate is legal, so collecting them
      from the legal moves loses none: a legal plain move from a vanished
      square to an appeared one, and a legal capture from a vanished square
      onto a square seen occupied, are both candidates. */
  function Candidates(p: Position, missing: set<Sq>, extra: set<Sq>, observed: set<Sq>): (c: set<Move>)
    ensures forall m :: m in c <==> IsCandidate(p, missing, extra, observed, m)
    ensures c <= p.legal
    ensures forall m :: m in p.legal && m.promotion.None? && m.from in missing && m.to in extra ==> m in c
    ensures forall m :: m in p.legal && m in p.captures && m.from in missing && m.to in observed ==> m in c
  {
    set m | m in p.legal && IsCandidate(p, missing, extra, observed, m)
  }

  /** A move is inferred exactly when there is one distinct candidate; no
      candidate and several candidates both give nothing. */
  function InferMove(p: Position, missing: set<Sq>, extra: set<Sq>, observed: set<Sq>): (r: Option<Move>)
    ensures r.Some? ==> r.value in p.legal && IsCandidate(p, missing, extra, observed, r.value)
    ensures r.Some? ==> forall m :: IsCandidate(p, missing, extra, observed, m) ==> m == r.value
    ensures r.None? ==> forall m :: IsCandidate(p, missing, extra, observed, m) ==>
      exists n :: IsCandidate(p, missing, extra, observed, n) && n != m
  {
    var c := Candidates(p, missing, extra, observed);
    if |c| == 1 then Some(TheOne(c))
    else
      assert forall m :: m in c ==> exists n :: n in c && n != m by {
        forall m | m in c ensures exists n :: n in c && n != m {
          assert |c - {m}| >= 1;
          var n :| n in c - {m};
        }
      }
      None
  }

  // ---------------------------------------------------------------------
  // Stability counter and commit gate

  datatype StableStep<G> = StableStep(session: Session<G>, pushed: Option<Move>)

  /** The move the resolver infers from an observation. */
  function Inferred<G>(s: Session<G>, observed: set<Sq>): Option<Move> {
    var pos := s.engine.pos;
    InferMove(pos, Vanished(pos, observed), Appeared(pos, observed), observed)
  }

  /** Every gate of the commit passes: few enough differences, the count
      (after this frame) at STABILITY_REQUIRED, the cooldown elapsed, no
      noise, and a move inferred that `accept` takes. */
  predicate Commits<G>(s: Session<G>, observed: set<Sq>, noiseState: NoiseHandler.NoiseState,
                       now: real, accept: Move -> bool) {
    var pos := s.engine.pos;
    && |Vanished(pos, observed)| + |Appeared(pos, observed)| <= MAX_DIFF
    && (if s.stableOccupancy == Some(observed) then s.stableCount + 1 else 1) >= STABILITY_REQUIRED
    && now - s.lastMoveTime > MOVE_COOLDOWN
    && noiseState != NoiseHandler.NoiseActive
    && Inferred(s, observed).Some?
    && accept(Inferred(s, observed).value)
  }

  /** The stability count after one observation: too many differences
      clear the tracked occupancy, an unchanged observation counts up, a
      new one restarts the count at one. */
  function Counted<G>(s: Session<G>, observed: set<Sq>): (s1: Session<G>)
    ensures var pos := s.engine.pos;
      |Vanished(pos, observed)| + |Appeared(pos, observed)| > MAX_DIFF ==>
        s1.stableOccupancy == Some({}) && s1.stableCount == 0
    ensures var pos := s.engine.pos;
      |Vanished(pos, observed)| + |Appeared(pos, observed)| <= MAX_DIFF ==>
        s1.stableOccupancy == Some(observed) &&
        s1.stableCount == (if s.stableOccupancy == Some(observed) then s.stableCount + 1 else 1)
    ensures s1 == s.(stableOccupancy := s1.stableOccupancy, stableCount := s1.stableCount)
  {
    var pos := s.engine.pos;
    if |Vanished(pos, observed)| + |Appeared(pos, observed)| > MAX_DIFF then
      s.(stableCount := 0, stableOccupancy := Some({}))
    else if s.stableOccupancy == Some(observed) then s.(stableCount := s.stableCount + 1)
    else s.(stableOccupancy := Some(observed), stableCount := 1)
  }

  /** The gates read only the engine, the stability fields and the time of
      the last move. */
  lemma GatesIgnoreOtherFields<G>(s: Session<G>, t: Session<G>, observed: set<Sq>,
                                  noiseState: NoiseHandler.NoiseState, now: real, accept: Move -> bool)
    requires t.engine == s.engine && t.stableOccupancy == s.stableOccupancy
    requires t.stableCount == s.stableCount && t.lastMoveTime == s.lastMoveTime
    ensures Inferred(t, observed) == Inferred(s, observed)
    ensures Commits(t, observed, noiseState, now, accept) == Commits(s, observed, noiseState, now, accept)
  {
  }

  /** One frame of the occupancy-stability logic. Too many differences
      clear the tracked occupancy; an unchanged observation counts up; a new
      one restarts the count. Once the count reaches STABILITY_REQUIRED,
      more than MOVE_COOLDOWN seconds have passed since the last move and
      the noise handler is not in NOISE_ACTIVE, the inferred move (if any)
      is offered to `accept`; if accepted and still legal it is pushed, the
      references are reset to the current squares, the noise handler is
      reset and the count returns to zero. */
  function ProcessStableMove<G>(s: Session<G>, observed: set<Sq>, squares: map<Sq, G>,
                                noiseState: NoiseHandler.NoiseState, now: real,
                                accept: Move -> bool, after: (Position, Move) -> Position): (r: StableStep<G>)
    ensures var missing := Vanished(s.engine.pos, observed);
      var extra := Appeared(s.engine.pos, observed);
      && (|missing| + |extra| > MAX_DIFF ==>
            r.session.stableOccupancy == Some({}) && r.session.stableCount == 0 && r.pushed.None?)
      && (r.pushed.None? && |missing| + |extra| <= MAX_DIFF ==>
            r.session.stableOccupancy == Some(observed) &&
            r.session.stableCount == (if s.stableOccupancy == Some(observed) then s.stableCount + 1 else 1))
    ensures r.pushed.Some? <==> Commits(s, observed, noiseState, now, accept)
    ensures r.pushed.Some? ==> r.pushed == Inferred(s, observed)
    ensures r.pushed.None? ==>
      r.session == s.(stableOccupancy := r.session.stableOccupancy, stableCount := r.session.stableCount)
    ensures r.pushed.Some? ==>
      var m := r.pushed.value;
      && s.stableOccupancy == Some(observed) && s.stableCount + 1 >= STABILITY_REQUIRED
      && now - s.lastMoveTime > MOVE_COOLDOWN
      && noiseState != NoiseHandler.NoiseActive
      && accept(m) && m in s.engine.pos.legal
      && Inferred(s, observed) == Some(m)
      && r.session == s.(engine := Push(s.engine, m, after), lastMoveTime := now,
                         detector := PieceDetector.UpdateReferences(s.detector, squares),
                         noise := NoiseHandler.Reset(s.noise),
                         stableOccupancy := Some(observed), stableCount := 0)
  {
    var s1 := Counted(s, observed);
    var cooldownOk := now - s.lastMoveTime > MOVE_COOLDOWN;
    if s1.stableCount >= STABILITY_REQUIRED && cooldownOk && noiseState != NoiseHandler.NoiseActive then
      match Inferred(s, observed)
      case Some(m) =>
        if accept(m) && m in s.engine.pos.legal then
          var s2 := s1.(engine := Push(s.engine, m, after), lastMoveTime := now,
                        detector := PieceDetector.UpdateReferences(s.detector, squares),
                        noise := NoiseHandler.Reset(s.noise), stableCount := 0);
          StableStep(s2, Some(m))
        else StableStep(s1, None)
      case None => StableStep(s1, None)
    else StableStep(s1, None)
  }

  /** What the stability logic is given on one frame. */
  datatype Observation<G> = Observation(observed: set<Sq>, squares: map<Sq, G>,
                                        noiseState: NoiseHandler.NoiseState, now: real)

  /** The stability logic run over consecutive frames: one step per frame,
      each starting from the session the previous one left. */
  function Replay<G>(s: Session<G>, frames: seq<Observation<G>>, accept: Move -> bool,
                     after: (Position, Move) -> Position): (r: seq<StableStep<G>>)
    ensures |r| == |frames|
    decreases |frames|
  {
    if |frames| == 0 then []
    else
      var f := frames[0];
      var st := ProcessStableMove(s, f.observed, f.squares, f.noiseState, f.now, accept, after);
      [st] + Replay(st.session, frames[1..], accept, after)
  }

  /** The count grows by at most one per frame, so a session whose count
      cannot reach STABILITY_REQUIRED within the given frames pushes
      nothing during them. */
  lemma {:induction false} NoPushWhileCounting<G>(s: Session<G>, frames: seq<Observation<G>>,
                                                  accept: Move -> bool, after: (Position, Move) -> Position)
    requires s.stableCount + |frames| < STABILITY_REQUIRED
    ensures forall i :: 0 <= i < |frames| ==> Replay(s, frames, accept, after)[i].pushed.None?
    decreases |frames|
  {
    if |frames| > 0 {
      var f := frames[0];
      var st := ProcessStableMove(s, f.observed, f.squares, f.noiseState, f.now, accept, after);
      assert st.pushed.None?;
      assert st.session.stableCount <= s.stableCount + 1;
      NoPushWhileCounting(st.session, frames[1..], accept, after);
      var r := Replay(s, frames, accept, after);
      assert r == [st] + Replay(st.session, frames[1..], accept, after);
      forall i | 0 <= i < |frames| ensures r[i].pushed.None? {
        if i > 0 {
          assert r[i] == Replay(st.session, frames[1..], accept, after)[i - 1];
        }
      }
    }
  }

  /** A move needs STABILITY_REQUIRED identical observations: a session that
      has just pushed has its count back at zero and cannot push again
      within the next STABILITY_REQUIRED - 1 frames, whatever they show. */
  lemma CountRestartsAfterPush<G>(s: Session<G>, observed: set<Sq>, squares: map<Sq, G>,
                                  noiseState: NoiseHandler.NoiseState, now: real, accept: Move -> bool,
                                  after: (Position, Move) -> Position, frames: seq<Observation<G>>)
    requires ProcessStableMove(s, observed, squares, noiseState, now, accept, after).pushed.Some?
    requires |frames| < STABILITY_REQUIRED
    ensures var s2 := ProcessStableMove(s, observed, squares, noiseState, now, accept, after).session;
      s2.stableCount == 0
      && forall i :: 0 <= i < |frames| ==> Replay(s2, frames, accept, after)[i].pushed.None?
  {
    var s2 := ProcessStableMove(s, observed, squares, noiseState, now, accept, after).session;
    NoPushWhileCounting(s2, frames, accept, after);
  }

  /** After a push the time of the last move is the time of that frame, so
      no further move is pushed until more than MOVE_COOLDOWN seconds have
      passed, whatever the next frame shows. */
  lemma CooldownAfterPush<G>(s: Session<G>, observed: set<Sq>, squares: map<Sq, G>,
                             noiseState: NoiseHandler.NoiseState, now: real, accept: Move -> bool,
                             after: (Position, Move) -> Position, observed2: set<Sq>, squares2: map<Sq, G>,
                             noiseState2: NoiseHandler.NoiseState, now2: real)
    requires ProcessStableMove(s, observed, squares, noiseState, now, accept, after).pushed.Some?
    requires now2 - now <= MOVE_COOLDOWN
    ensures var s2 := ProcessStableMove(s, observed, squares, noiseState, now, accept, after).session;
      ProcessStableMove(s2, observed2, squares2, noiseState2, now2, accept, after).pushed.None?
  {
    var s2 := ProcessStableMove(s, observed, squares, noiseState, now, accept, after).session;
    assert s2.lastMoveTime == now;
    assert !Commits(s2, observed2, noiseState2, now2, accept);
  }

  // ---------------------------------------------------------------------
  // One frame

  datatype Frame<G> = Frame(session: Session<G>, observed: set<Sq>, changes: set<Sq>, pushed: Option<Move>)

  /** One camera frame, after the board has been cut into squares: the
      detector runs with delta mode and the frame's focus set, the observed
      occupancy is the set of squares with a (smoothed) piece, the noise
      handler sees the visually changed squares, the status follows the
      noise state, and the stability logic runs last. */
  function OnFrame<G>(s: Session<G>, squares: map<Sq, G>, frameCount: nat, now: real,
                      detect: (G, Sq) -> bool, differs: (G, G) -> bool,
                      accept: Move -> bool, after: (Position, Move) -> Position): (r: Frame<G>)
    requires PieceDetector.Inv(s.detector) && NoiseHandler.Inv(s.noise)
    ensures NoiseHandler.Inv(r.session.noise)
    ensures r.observed <= squares.Keys
    ensures r.session.status == Waiting <==>
      NoiseHandler.Process(s.noise, r.changes).report.state == NoiseHandler.NoiseActive
    ensures r.pushed.Some? ==>
      && r.pushed.value in s.engine.pos.legal
      && NoiseHandler.Process(s.noise, r.changes).report.state != NoiseHandler.NoiseActive
      && r.session.engine == Push(s.engine, r.pushed.value, after)
    ensures r.pushed.None? ==> r.session.engine == s.engine
    ensures r.pushed.Some? <==>
      Commits(s, r.observed, NoiseHandler.Process(s.noise, r.changes).report.state, now, accept)
    ensures r.pushed.Some? ==> r.pushed == Inferred(s, r.observed)
  {
    var focus := FocusSet(s.engine.pos, frameCount);
    var scan := PieceDetector.DetectAll(s.detector, squares, true, true, focus, detect, differs);
    var observed := set pos | pos in scan.results && scan.results[pos];
    var step := NoiseHandler.Process(s.noise, scan.changes);
    var status := if step.report.state == NoiseHandler.NoiseActive then Waiting else Processing;
    var s1 := s.(detector := scan.detector, noise := step.next, status := status);
    var st := ProcessStableMove(s1, observed, squares, step.report.state, now, accept, after);
    GatesIgnoreOtherFields(s, s1, observed, step.report.state, now, accept);
    assert NoiseHandler.Inv(st.session.noise) by {
      if st.pushed.Some? {
        NoiseHandler.InitialInv();
        assert st.session.noise == NoiseHandler.Reset(s1.noise);
      } else {
        assert st.session.noise == step.next;
      }
    }
    assert st.session.status == status by {
      if st.pushed.Some? {
        assert st.session.status == s1.status;
      } else {
        assert st.session.status == s1.status;
      }
    }
    Frame(st.session, observed, scan.changes, st.pushed)
  }
}
