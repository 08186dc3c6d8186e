/** The per-square change sensor: a background model per square, a z-score
    (or plain mean difference) test against it, intensity buckets for the
    detailed analysis, and the hand-versus-move pattern classifier. Every
    pixel computation (grey conversion, blur, z-scores, changed-pixel
    percentages, the running Gaussian update) is an oracle parameter. */
module ChangeDetector {
  import opened Basics

  const DEFAULT_SENSITIVITY: real := 25.0
  const DEFAULT_Z_THRESHOLD: real := 2.5
  const DEFAULT_STABLE_FRAMES: int := 15

  /** The thresholds and mode the detector reads from its settings; the
      main loop also reads `stableFrames` from here. */
  datatype Settings = Settings(sensitivity: real, zThreshold: real, useGaussian: bool, stableFrames: int)

  const DEFAULT_SETTINGS: Settings :=
    Settings(DEFAULT_SENSITIVITY, DEFAULT_Z_THRESHOLD, true, DEFAULT_STABLE_FRAMES)

  /** `M` is one square's background model (mean and variance images). */
  datatype Sensor<M> = Sensor(
    settings: Settings,
    calibrated: bool,
    models: map<Sq, M>,
    focus: Option<set<Sq>>)

  function Init<M>(settings: Settings): (s: Sensor<M>)
    ensures !s.calibrated && s.models == map[] && s.focus.None?
  {
    Sensor(settings, false, map[], None)
  }

  /** Calibration replaces every model by one fitted to the given squares. */
  function Calibrate<G, M>(s: Sensor<M>, squares: map<Sq, G>, fit: G -> M): (r: Sensor<M>)
    ensures r.calibrated && r.models.Keys == squares.Keys
    ensures forall pos :: pos in squares ==> r.models[pos] == fit(squares[pos])
    ensures r.settings == s.settings && r.focus == s.focus
  {
    s.(calibrated := true, models := map pos | pos in squares :: fit(squares[pos]))
  }

  /** Resetting one square's model to the current image. */
  function UpdateReference<G, M>(s: Sensor<M>, pos: Sq, img: G, fit: G -> M): (r: Sensor<M>)
    ensures r.models.Keys == s.models.Keys + {pos} && r.models[pos] == fit(img)
    ensures forall q :: q in s.models && q != pos ==> r.models[q] == s.models[q]
    ensures r.calibrated == s.calibrated && r.focus == s.focus && r.settings == s.settings
  {
    s.(models := s.models[pos := fit(img)])
  }

  /** Resetting the models of all given squares; the others are kept. */
  function UpdateAllReferences<G, M>(s: Sensor<M>, squares: map<Sq, G>, fit: G -> M): (r: Sensor<M>)
    ensures r.models.Keys == s.models.Keys + squares.Keys
    ensures forall pos :: pos in squares ==> r.models[pos] == fit(squares[pos])
    ensures forall pos :: pos in s.models && pos !in squares ==> r.models[pos] == s.models[pos]
    ensures r.calibrated == s.calibrated && r.focus == s.focus && r.settings == s.settings
  {
    s.(models := map pos | pos in s.models.Keys + squares.Keys ::
         if pos in squares then fit(squares[pos]) else s.models[pos])
  }

  /** Resetting the squares listed in `order` one at a time, first to
      last. */
  function UpdateEach<G, M>(s: Sensor<M>, squares: map<Sq, G>, order: seq<Sq>, fit: G -> M): Sensor<M>
    requires Elems(order) <= squares.Keys
    decreases |order|
  {
    if |order| == 0 then s
    else
      var front, last := order[..|order| - 1], order[|order| - 1];
      assert Elems(front) <= Elems(order) by {
        forall x | x in front ensures x in order {
          var k :| 0 <= k < |front| && front[k] == x;
          assert order[k] == x;
        }
      }
      UpdateReference(UpdateEach(s, squares, front, fit), last, squares[last], fit)
  }

  /** The entries of `squares` whose square is in `keys`. */
  function Restrict<G>(squares: map<Sq, G>, keys: set<Sq>): (r: map<Sq, G>)
    ensures r.Keys == squares.Keys * keys
    ensures forall pos :: pos in r ==> r[pos] == squares[pos]
  {
    map pos | pos in squares && pos in keys :: squares[pos]
  }

  /** Resetting squares one at a time, in any order and with repeats,
      resets exactly the squares visited. */
  lemma {:induction false} UpdateEachResetsVisited<G, M>(s: Sensor<M>, squares: map<Sq, G>, order: seq<Sq>, fit: G -> M)
    requires Elems(order) <= squares.Keys
    ensures UpdateEach(s, squares, order, fit) == UpdateAllReferences(s, Restrict(squares, Elems(order)), fit)
    decreases |order|
  {
    if |order| == 0 {
      var u := UpdateAllReferences(s, Restrict(squares, Elems(order)), fit);
      assert u.models == s.models;
    } else {
      var front, last := order[..|order| - 1], order[|order| - 1];
      assert order == front + [last];
      assert Elems(order) == Elems(front) + {last};
      UpdateEachResetsVisited(s, squares, front, fit);
      var before := UpdateAllReferences(s, Restrict(squares, Elems(front)), fit);
      var a := UpdateReference(before, last, squares[last], fit);
      var rf, ro := Restrict(squares, Elems(front)), Restrict(squares, Elems(order));
      var b := UpdateAllReferences(s, ro, fit);
      assert a.models.Keys == b.models.Keys;
      forall pos | pos in a.models ensures a.models[pos] == b.models[pos] {
        if pos != last {
          assert pos in ro <==> pos in rf;
        }
      }
      assert a.models == b.models;
    }
  }

  /** Updating all references is updating each square in turn, in any
      order in which every supplied square appears. */
  lemma UpdateAllIsEachUpdate<G, M>(s: Sensor<M>, squares: map<Sq, G>, order: seq<Sq>, fit: G -> M)
    requires Elems(order) == squares.Keys
    ensures UpdateEach(s, squares, order, fit) == UpdateAllReferences(s, squares, fit)
  {
    UpdateEachResetsVisited(s, squares, order, fit);
    assert Restrict(squares, Elems(order)) == squares;
  }

  /** An empty request clears the focus. */
  function SetFocus<M>(s: Sensor<M>, squares: set<Sq>): (r: Sensor<M>)
    ensures r.focus.Some? <==> squares != {}
    ensures r.focus.Some? ==> r.focus.value == squares
    ensures r.models == s.models && r.calibrated == s.calibrated && r.settings == s.settings
  {
    s.(focus := if squares != {} then Some(squares) else None)
  }

  function ClearFocus<M>(s: Sensor<M>): (r: Sensor<M>)
    ensures r.focus.None?
    ensures r.models == s.models && r.calibrated == s.calibrated && r.settings == s.settings
  {
    s.(focus := None)
  }

  /** A focus is in force when it is a non-empty set. */
  predicate Focused<M>(s: Sensor<M>) {
    s.focus.Some? && s.focus.value != {}
  }

  function FocusCount<M>(s: Sensor<M>): (n: nat)
    ensures Focused(s) ==> n == |s.focus.value|
    ensures !Focused(s) ==> n == 64
  {
    if Focused(s) then |s.focus.value| else 64
  }

  /** With board squares supplied, a detection pass examines at most
      `FocusCount` squares: the focus size when a focus is in force, the
      whole board otherwise. */
  lemma ExaminedWithinFocusCount<G, M>(s: Sensor<M>, squares: map<Sq, G>)
    requires forall pos :: pos in squares ==> OnBoard(pos)
    ensures |Examined(s, squares)| <= FocusCount(s)
  {
    var e := Examined(s, squares);
    if Focused(s) {
      SubsetCard(e, s.focus.value);
    } else {
      forall pos | pos in e ensures pos in AllSquares() {
        OnBoardIsAllSquares(pos);
      }
      SubsetCard(e, AllSquares());
      GridEnumeratesBoard();
    }
  }

  /** The squares a detection pass looks at: the focus set when one is in
      force, otherwise every supplied square, and in both cases only those
      both supplied and modelled. */
  function Examined<G, M>(s: Sensor<M>, squares: map<Sq, G>): (e: set<Sq>)
    ensures forall pos :: pos in e <==>
      pos in squares && pos in s.models && (Focused(s) ==> pos in s.focus.value)
  {
    var candidates := if Focused(s) then s.focus.value else squares.Keys;
    candidates * squares.Keys * s.models.Keys
  }

  /** The score the simple test compares: the mean z-score in Gaussian mode,
      the mean absolute difference otherwise. */
  function Score<G, M>(s: Sensor<M>, img: G, model: M,
                       zScore: (G, M) -> real, meanDiff: (G, M) -> real): real
  {
    if s.settings.useGaussian then zScore(img, model) else meanDiff(img, model)
  }

  function Threshold<M>(s: Sensor<M>): real {
    if s.settings.useGaussian then s.settings.zThreshold else s.settings.sensitivity
  }

  function ScoresOver<G, M>(s: Sensor<M>, squares: map<Sq, G>, e: set<Sq>,
                            zScore: (G, M) -> real, meanDiff: (G, M) -> real): (changed: map<Sq, real>)
    requires e <= squares.Keys && e <= s.models.Keys
    ensures forall pos :: pos in changed <==>
      pos in e && Score(s, squares[pos], s.models[pos], zScore, meanDiff) > Threshold(s)
    ensures forall pos :: pos in changed ==>
      changed[pos] == Score(s, squares[pos], s.models[pos], zScore, meanDiff)
  {
    map pos | pos in e && Score(s, squares[pos], s.models[pos], zScore, meanDiff) > Threshold(s)
      :: Score(s, squares[pos], s.models[pos], zScore, meanDiff)
  }

  /** Background learning for the examined squares that were not reported. */
  function Relearned<G, M>(models: map<Sq, M>, squares: map<Sq, G>, quiet: set<Sq>,
                           relearn: (M, G) -> M): (r: map<Sq, M>)
    requires quiet <= squares.Keys
    ensures r.Keys == models.Keys
    ensures forall pos :: pos in models ==>
      r[pos] == if pos in quiet then relearn(models[pos], squares[pos]) else models[pos]
  {
    map pos | pos in models :: if pos in quiet then relearn(models[pos], squares[pos]) else models[pos]
  }

  /** One detection pass: the reported squares with their scores, and the
      sensor with updated background models. */
  function DetectChanges<G, M>(s: Sensor<M>, squares: map<Sq, G>,
                               zScore: (G, M) -> real, meanDiff: (G, M) -> real,
                               relearn: (M, G) -> M): (r: (map<Sq, real>, Sensor<M>))
    ensures !s.calibrated ==> r == (map[], s)
    ensures r.0.Keys <= Examined(s, squares)
    ensures r.1.calibrated == s.calibrated && r.1.focus == s.focus && r.1.settings == s.settings
    ensures r.1.models.Keys == s.models.Keys
  {
    if !s.calibrated then (map[], s)
    else
      var e := Examined(s, squares);
      var changed := ScoresOver(s, squares, e, zScore, meanDiff);
      var quiet := if s.settings.useGaussian then e - changed.Keys else {};
      (changed, s.(models := Relearned(s.models, squares, quiet, relearn)))
  }

  /** A square is reported exactly when it is examined and its score exceeds
      the threshold, and then with that score. */
  lemma DetectChangesReports<G, M>(s: Sensor<M>, squares: map<Sq, G>,
                                   zScore: (G, M) -> real, meanDiff: (G, M) -> real,
                                   relearn: (M, G) -> M, pos: Sq)
    requires s.calibrated
    ensures var changed := DetectChanges(s, squares, zScore, meanDiff, relearn).0;
      (pos in changed <==>
         pos in Examined(s, squares)
         && Score(s, squares[pos], s.models[pos], zScore, meanDiff) > Threshold(s))
      && (pos in changed ==> changed[pos] == Score(s, squares[pos], s.models[pos], zScore, meanDiff))
  {
  }

  /** In Gaussian mode, the examined squares split into the reported ones and
      the ones whose background is relearned; no other model changes. In the
      simple mode no model changes at all. */
  lemma DetectChangesRelearnsQuiet<G, M>(s: Sensor<M>, squares: map<Sq, G>,
                                         zScore: (G, M) -> real, meanDiff: (G, M) -> real,
                                         relearn: (M, G) -> M, pos: Sq)
    requires s.calibrated && pos in s.models
    ensures var r := DetectChanges(s, squares, zScore, meanDiff, relearn);
      r.1.models[pos] ==
        if s.settings.useGaussian && pos in Examined(s, squares) && pos !in r.0
        then relearn(s.models[pos], squares[pos])
        else s.models[pos]
  {
  }

  /** With a focus in force, nothing outside it is reported or relearned. */
  lemma FocusRestricts<G, M>(s: Sensor<M>, squares: map<Sq, G>,
                             zScore: (G, M) -> real, meanDiff: (G, M) -> real,
                             relearn: (M, G) -> M, pos: Sq)
    requires Focused(s) && pos !in s.focus.value
    ensures pos !in DetectChanges(s, squares, zScore, meanDiff, relearn).0
    ensures pos in s.models ==> DetectChanges(s, squares, zScore, meanDiff, relearn).1.models[pos] == s.models[pos]
  {
  }

  datatype Intensity = Total | Partial | Light | NoChange

  const TOTAL_PCT: real := 85.0
  const PARTIAL_PCT: real := 50.0
  const LIGHT_PCT: real := 15.0
  const CIRCULAR_RATIO: real := 1.2
  const CIRCULAR_PCT: real := 30.0

  /** The bucket of a changed-pixel percentage. */
  function Bucket(pct: real): (b: Intensity)
    ensures b == Total <==> pct > TOTAL_PCT
    ensures b == Partial <==> PARTIAL_PCT < pct <= TOTAL_PCT
    ensures b == Light <==> LIGHT_PCT < pct <= PARTIAL_PCT
    ensures b == NoChange <==> pct <= LIGHT_PCT
  {
    if pct > TOTAL_PCT then Total
    else if pct > PARTIAL_PCT then Partial
    else if pct > LIGHT_PCT then Light
    else NoChange
  }

  function Level(b: Intensity): nat {
    match b
    case NoChange => 0
    case Light => 1
    case Partial => 2
    case Total => 3
  }

  /** More changed pixels never give a weaker bucket. */
  lemma BucketMonotone(p: real, q: real)
    requires p <= q
    ensures Level(Bucket(p)) <= Level(Bucket(q))
  {
  }

  /** Centre-to-border ratio of changed-pixel percentages, with 10 when only
      the centre changed and 1 when nothing did. */
  function CenterRatio(centerPct: real, borderPct: real): real {
    if borderPct > 0.0 then centerPct / borderPct
    else if centerPct > 0.0 then 10.0
    else 1.0
  }

  /** A changed area concentrated in the centre: a round piece. */
  predicate IsCircular(centerRatio: real, pct: real) {
    centerRatio > CIRCULAR_RATIO && pct > CIRCULAR_PCT
  }

  /** The pixel measurements of one square: mean z-score, percentage of
      changed pixels, and the changed percentages inside and outside the
      central disc. */
  datatype Pixels = Pixels(z: real, pct: real, centerPct: real, borderPct: real)

  datatype Info = Info(
    z: real, pct: real, intensity: Intensity, circular: bool,
    centerRatio: real, centerPct: real, borderPct: real)

  /** The detailed analysis of one square from its pixel measurements. */
  function Analyse(p: Pixels): (info: Info)
    ensures info.intensity == Bucket(p.pct)
    ensures info.circular <==> IsCircular(info.centerRatio, p.pct)
    ensures info.circular ==> info.intensity != NoChange
  {
    var ratio := CenterRatio(p.centerPct, p.borderPct);
    Info(p.z, p.pct, Bucket(p.pct), IsCircular(ratio, p.pct), ratio, p.centerPct, p.borderPct)
  }

  function InfosOver<G, M>(s: Sensor<M>, squares: map<Sq, G>, e: set<Sq>,
                           measure: (G, M) -> Pixels): (detailed: map<Sq, Info>)
    requires e <= squares.Keys && e <= s.models.Keys
    ensures forall pos :: pos in detailed <==>
      pos in e && Analyse(measure(squares[pos], s.models[pos])).intensity != NoChange
    ensures forall pos :: pos in detailed ==> detailed[pos] == Analyse(measure(squares[pos], s.models[pos]))
  {
    map pos | pos in e && Analyse(measure(squares[pos], s.models[pos])).intensity != NoChange
      :: Analyse(measure(squares[pos], s.models[pos]))
  }

  /** The detailed pass: every examined square with a change of some
      intensity, the others having their background relearned. */
  function DetectChangesDetailed<G, M>(s: Sensor<M>, squares: map<Sq, G>,
                                       measure: (G, M) -> Pixels,
                                       relearn: (M, G) -> M): (r: (map<Sq, Info>, Sensor<M>))
    ensures !s.calibrated ==> r == (map[], s)
    ensures forall pos :: pos in r.0 ==> r.0[pos].intensity != NoChange
    ensures r.1.calibrated == s.calibrated && r.1.focus == s.focus && r.1.settings == s.settings
    ensures r.1.models.Keys == s.models.Keys
  {
    if !s.calibrated then (map[], s)
    else
      var e := Examined(s, squares);
      var detailed := InfosOver(s, squares, e, measure);
      (detailed, s.(models := Relearned(s.models, squares, e - detailed.Keys, relearn)))
  }

  /** Every examined square is either reported in detail or relearned. */
  lemma DetailedSplitsExamined<G, M>(s: Sensor<M>, squares: map<Sq, G>,
                                     measure: (G, M) -> Pixels,
                                     relearn: (M, G) -> M, pos: Sq)
    requires s.calibrated && pos in s.models
    ensures var r := DetectChangesDetailed(s, squares, measure, relearn);
      (pos in r.0 <==> pos in Examined(s, squares)
                       && Bucket(measure(squares[pos], s.models[pos]).pct) != NoChange)
      && r.1.models[pos] ==
           if pos in Examined(s, squares) && pos !in r.0
           then relearn(s.models[pos], squares[pos])
           else s.models[pos]
  {
  }

  /** The classifier's verdict on a detailed pass. */
  datatype Pattern = Pattern(
    isHand: bool, isMove: bool,
    handSquares: set<Sq>, moveCandidates: set<Sq>, shadowSquares: set<Sq>)

  function WithIntensity(d: map<Sq, Info>, b: Intensity): (s: set<Sq>)
    ensures forall pos :: pos in s <==> pos in d && d[pos].intensity == b
  {
    set pos | pos in d && d[pos].intensity == b
  }

  function PartialWhere(d: map<Sq, Info>, circular: bool): (s: set<Sq>)
    ensures forall pos :: pos in s <==> pos in d && d[pos].intensity == Partial && d[pos].circular == circular
  {
    set pos | pos in d && d[pos].intensity == Partial && d[pos].circular == circular
  }

  /** Hand versus move: many fully covered squares or several non-round
      partial changes are a hand; exactly two round partial changes are a
      move. */
  function ClassifyHandPattern(d: map<Sq, Info>): (p: Pattern)
    ensures p.handSquares == WithIntensity(d, Total) + PartialWhere(d, false)
    ensures p.moveCandidates == PartialWhere(d, true)
    ensures p.shadowSquares == WithIntensity(d, Light)
  {
    var total := WithIntensity(d, Total);
    var circular := PartialWhere(d, true);
    var nonCircular := PartialWhere(d, false);
    var base := Pattern(false, false, total + nonCircular, circular, WithIntensity(d, Light));
    if |total| >= 3 then base.(isHand := true)
    else if |nonCircular| >= 2 && |circular| == 0 then base.(isHand := true)
    else if |circular| == 2 then base.(isMove := true)
    else if |circular| == 1 then base
    else if |total| == 1 && |circular| >= 1 then base.(isHand := true)
    else base
  }

  /** The verdicts in terms of the counts, both ways, and never both. */
  lemma ClassifyVerdicts(d: map<Sq, Info>)
    ensures var p := ClassifyHandPattern(d);
      var t, c, n := |WithIntensity(d, Total)|, |PartialWhere(d, true)|, |PartialWhere(d, false)|;
      (p.isHand <==> t >= 3 || (n >= 2 && c == 0) || (t == 1 && c >= 3))
      && (p.isMove <==> t < 3 && !(n >= 2 && c == 0) && c == 2)
      && !(p.isHand && p.isMove)
  {
  }

  /** A recognised move has exactly two candidate squares, and no candidate
      is also a hand or shadow square. */
  lemma ClassifyMoveCandidates(d: map<Sq, Info>)
    ensures var p := ClassifyHandPattern(d);
      (p.isMove ==> |p.moveCandidates| == 2)
      && p.moveCandidates !! p.handSquares
      && p.moveCandidates !! p.shadowSquares
      && p.handSquares !! p.shadowSquares
  {
  }

  /** The compatibility single-square test. */
  datatype Prediction = Unknown | Judged(changed: bool, z: real)

  function Predict<G, M>(s: Sensor<M>, img: G, pos: Option<Sq>, zScore: (G, M) -> real): (r: Prediction)
    ensures r.Unknown? <==> !s.calibrated || pos.None? || pos.value !in s.models
    ensures r.Judged? ==>
              r.z == zScore(img, s.models[pos.value]) && (r.changed <==> r.z > s.settings.zThreshold)
  {
    if !s.calibrated || pos.None? || pos.value !in s.models then Unknown
    else
      var z := zScore(img, s.models[pos.value]);
      Judged(z > s.settings.zThreshold, z)
  }
}
