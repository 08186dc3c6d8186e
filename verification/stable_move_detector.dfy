/** The confirmation state machine over per-frame FEN texts: a placement must
    repeat for `threshold` consecutive frames before it replaces the confirmed
    one, and the move between the two is reported once, on that frame. */
module StableMoveDetector {
  import opened Basics
  import MoveDetector

  const DEFAULT_THRESHOLD: int := 15

  datatype Phase = Idle | Transition | Confirmed

  datatype Detector = Detector(
    threshold: int,
    confirmed: Option<string>,
    phase: Phase,
    candidate: Option<string>,
    count: int)

  function Init(threshold: int): (d: Detector)
    ensures d.confirmed.None? && d.phase == Idle && d.candidate.None? && d.count == 0
  {
    Detector(threshold, None, Idle, None, 0)
  }

  /** A call either returns (the detector it leaves and the move, if any) or
      raises out of the move comparison, leaving the detector it had reached. */
  datatype Outcome = Returned(next: Detector, move: Option<string>) | Raised(next: Detector)

  /** Until the first confirmation: count identical frames. */
  function Calibrate(d: Detector, fen: string): (r: Detector)
    requires d.confirmed.None?
    ensures r.candidate == Some(fen)
    ensures r.count == (if d.candidate == Some(fen) then d.count + 1 else 1)
    ensures r.confirmed == (if r.count >= d.threshold then Some(fen) else None)
    ensures r.phase == (if r.count >= d.threshold then Idle else d.phase)
    ensures r.threshold == d.threshold
  {
    var d1 := if d.candidate == Some(fen) then d.(count := d.count + 1)
              else d.(candidate := Some(fen), count := 1);
    if d1.count >= d1.threshold then d1.(confirmed := d1.candidate, phase := Idle) else d1
  }

  /** The idle and transition branches of the machine. */
  function Advance(d: Detector, fen: string): (r: Detector)
    ensures r.threshold == d.threshold && r.confirmed == d.confirmed
    ensures d.phase == Idle ==>
      r == (if Some(fen) != d.confirmed then d.(phase := Transition, candidate := Some(fen), count := 1) else d)
    ensures d.phase == Transition && Some(fen) == d.candidate ==>
      r.candidate == d.candidate && r.count == d.count + 1
      && r.phase == (if d.count + 1 >= d.threshold then Confirmed else Transition)
    ensures d.phase == Transition && Some(fen) != d.candidate && Some(fen) == d.confirmed ==>
      r.phase == Idle && r.candidate.None? && r.count == 0
    ensures d.phase == Transition && Some(fen) != d.candidate && Some(fen) != d.confirmed ==>
      r.phase == Transition && r.candidate == Some(fen) && r.count == 1
    ensures d.phase == Confirmed ==> r == d
  {
    match d.phase
    case Idle =>
      if Some(fen) != d.confirmed then d.(phase := Transition, candidate := Some(fen), count := 1)
      else d
    case Transition =>
      if Some(fen) == d.candidate then
        var d1 := d.(count := d.count + 1);
        if d1.count >= d1.threshold then d1.(phase := Confirmed) else d1
      else if Some(fen) == d.confirmed then d.(phase := Idle, candidate := None, count := 0)
      else d.(candidate := Some(fen), count := 1)
    case Confirmed => d
  }

  /** The confirmed branch: compare the old confirmed placement with the
      candidate, commit the candidate, go back to idle. */
  function Commit(d: Detector): (o: Outcome)
    requires d.phase == Confirmed
    ensures o.Raised? <==>
      d.candidate != d.confirmed && MoveDetector.DetectMove(d.confirmed, d.candidate).IndexError?
    ensures o.Raised? ==> o.next == d
    ensures o.Returned? ==>
      o.next == d.(confirmed := d.candidate, phase := Idle, candidate := None, count := 0)
    ensures o.Returned? && o.move.Some? ==>
      d.candidate != d.confirmed
      && MoveDetector.DetectMove(d.confirmed, d.candidate) == MoveDetector.Found(o.move.value)
  {
    var det := if d.candidate != d.confirmed then MoveDetector.DetectMove(d.confirmed, d.candidate)
               else MoveDetector.NoMove;
    if det.IndexError? then Raised(d)
    else
      var move := if det.Found? then Some(det.uci) else None;
      Returned(d.(confirmed := d.candidate, phase := Idle, candidate := None, count := 0), move)
  }

  /** One frame. */
  function Process(d: Detector, current: Option<string>): (o: Outcome)
    ensures current.None? ==> o == Returned(d, None)
    ensures d.confirmed.None? ==> o.Returned? && o.move.None?
    ensures o.next.threshold == d.threshold
  {
    if current.None? then Returned(d, None)
    else if d.confirmed.None? then Returned(Calibrate(d, current.value), None)
    else
      var d1 := Advance(d, current.value);
      if d1.phase == Confirmed then Commit(d1) else Returned(d1, None)
  }

  /** The states the machine can be in between calls: it never rests in the
      confirmed phase, it stays idle until the first confirmation, and a
      candidate under transition differs from the confirmed placement. */
  predicate Inv(d: Detector) {
    d.phase != Confirmed
    && (d.confirmed.None? ==> d.phase == Idle)
    && (d.phase == Transition ==> d.candidate.Some? && d.candidate != d.confirmed && d.count >= 1)
    && (d.candidate.None? ==> d.count == 0)
    && d.count >= 0
  }

  lemma InitInv(threshold: int)
    ensures Inv(Init(threshold))
  {
  }

  /** Every normal return keeps the invariant; a call that raises had
      compared a real candidate with the confirmed placement. */
  lemma ProcessKeepsInv(d: Detector, current: Option<string>)
    requires Inv(d)
    ensures Process(d, current).Returned? ==> Inv(Process(d, current).next)
    ensures Process(d, current).Raised? ==>
      Process(d, current).next.phase == Confirmed
      && Process(d, current).next.confirmed == d.confirmed
      && Process(d, current).next.candidate.Some?
      && Process(d, current).next.candidate != d.confirmed
  {
  }

  /** A reported move is the plain move from the previous confirmed
      placement to the newly confirmed one, which differ. */
  lemma ReportedMoveIsPlain(d: Detector, current: Option<string>)
    requires Process(d, current).Returned? && Process(d, current).move.Some?
    ensures d.confirmed.Some? && current.Some?
    ensures Process(d, current).next.confirmed != d.confirmed
    ensures MoveDetector.DetectMove(d.confirmed, Process(d, current).next.confirmed)
      == MoveDetector.Found(Process(d, current).move.value)
  {
    var d1 := Advance(d, current.value);
    assert d1.confirmed == d.confirmed;
  }

  /** A detector left in the confirmed phase by a raise re-runs the same
      comparison on every later frame and raises again. */
  lemma RaiseRepeats(d: Detector, current: Option<string>)
    requires d.confirmed.Some? && d.phase == Confirmed
    requires d.candidate != d.confirmed
    requires MoveDetector.DetectMove(d.confirmed, d.candidate).IndexError?
    requires current.Some?
    ensures Process(d, current) == Raised(d)
  {
  }

  function Repeat(fen: Option<string>, n: nat): (frames: seq<Option<string>>)
    ensures |frames| == n
    ensures forall i :: 0 <= i < n ==> frames[i] == fen
  {
    seq(n, _ => fen)
  }

  /** The detector after a run of frames, the moves returned along the way,
      and whether a call raised (which ends the run). */
  datatype Trace = Trace(last: Detector, moves: seq<Option<string>>, raised: bool)

  function Run(d: Detector, frames: seq<Option<string>>): (t: Trace)
    ensures |t.moves| <= |frames|
    ensures !t.raised ==> |t.moves| == |frames|
    decreases |frames|
  {
    if |frames| == 0 then Trace(d, [], false)
    else match Process(d, frames[0])
      case Raised(n) => Trace(n, [], true)
      case Returned(n, m) =>
        var rest := Run(n, frames[1..]);
        Trace(rest.last, [m] + rest.moves, rest.raised)
  }

  /** The calibration state after `k` identical frames, short of confirmation. */
  function Calibrating(threshold: int, fen: string, k: nat): Detector {
    Detector(threshold, None, Idle, if k == 0 then None else Some(fen), k)
  }

  /** Calibration: the first `threshold` identical frames confirm that
      placement on the last of them, and no earlier, without reporting a move. */
  lemma {:induction false} CalibrationConfirms(threshold: int, fen: string, k: nat, n: nat)
    requires threshold >= 1 && k < threshold && k + n <= threshold
    ensures Run(Calibrating(threshold, fen, k), Repeat(Some(fen), n)) ==
      Trace(
        if k + n == threshold then Detector(threshold, Some(fen), Idle, Some(fen), threshold)
        else Calibrating(threshold, fen, k + n),
        Repeat(None, n),
        false)
    decreases n
  {
    var d := Calibrating(threshold, fen, k);
    var frames := Repeat(Some(fen), n);
    if n > 0 {
      assert frames[1..] == Repeat(Some(fen), n - 1);
      var next := Calibrate(d, fen);
      assert Process(d, frames[0]) == Returned(next, None);
      if k + 1 == threshold {
        assert next == Detector(threshold, Some(fen), Idle, Some(fen), threshold);
        assert Run(next, frames[1..]) == Trace(next, [], false);
      } else {
        assert next == Calibrating(threshold, fen, k + 1);
        CalibrationConfirms(threshold, fen, k + 1, n - 1);
      }
      assert [None] + Repeat(None, n - 1) == Repeat(None, n);
    }
  }

  /** Starting fresh, `threshold` identical frames confirm the placement. */
  lemma FirstConfirmation(threshold: int, fen: string)
    requires threshold >= 1
    ensures Run(Init(threshold), Repeat(Some(fen), threshold)).last.confirmed == Some(fen)
    ensures Run(Init(threshold), Repeat(Some(fen), threshold)).moves == Repeat(None, threshold)
    ensures Run(Init(threshold), Repeat(Some(fen), threshold - 1)).last.confirmed.None?
  {
    assert Init(threshold) == Calibrating(threshold, fen, 0);
    CalibrationConfirms(threshold, fen, 0, threshold);
    CalibrationConfirms(threshold, fen, 0, threshold - 1);
  }

  /** The outcome the comparison of two confirmed placements produces. */
  function Reported(prev: string, curr: string): Option<string> {
    match MoveDetector.DetectMove(Some(prev), Some(curr))
    case Found(uci) => Some(uci)
    case _ => None
  }

  /** During a transition towards `fen`, the remaining frames up to the
      threshold count up and the last one commits. */
  lemma {:induction false} TransitionCommits(threshold: int, prev: string, fen: string, k: nat)
    requires fen != prev && 1 <= k < threshold
    requires !MoveDetector.DetectMove(Some(prev), Some(fen)).IndexError?
    ensures Run(Detector(threshold, Some(prev), Transition, Some(fen), k), Repeat(Some(fen), threshold - k)) ==
      Trace(Detector(threshold, Some(fen), Idle, None, 0),
            Repeat(None, threshold - k - 1) + [Reported(prev, fen)],
            false)
    decreases threshold - k
  {
    var d := Detector(threshold, Some(prev), Transition, Some(fen), k);
    var n := threshold - k;
    var frames := Repeat(Some(fen), n);
    assert frames[1..] == Repeat(Some(fen), n - 1);
    var d1 := d.(count := k + 1);
    if k + 1 >= threshold {
      assert Advance(d, fen) == d1.(phase := Confirmed);
      assert Process(d, frames[0]) == Returned(Detector(threshold, Some(fen), Idle, None, 0), Reported(prev, fen));
      assert frames[1..] == [];
    } else {
      assert Process(d, frames[0]) == Returned(d1, None);
      TransitionCommits(threshold, prev, fen, k + 1);
      assert [None] + (Repeat(None, n - 2) + [Reported(prev, fen)]) == Repeat(None, n - 1) + [Reported(prev, fen)];
    }
  }

  /** After confirmation, a new placement held for `threshold` frames (at
      least two) is confirmed on the last of them and its move reported
      there and only there. */
  lemma SteadyMoveReported(d: Detector, fen: string)
    requires Inv(d) && d.phase == Idle && d.confirmed.Some? && d.confirmed != Some(fen)
    requires d.threshold >= 2
    requires !MoveDetector.DetectMove(d.confirmed, Some(fen)).IndexError?
    ensures Run(d, Repeat(Some(fen), d.threshold)) ==
      Trace(Detector(d.threshold, Some(fen), Idle, None, 0),
            Repeat(None, d.threshold - 1) + [Reported(d.confirmed.value, fen)],
            false)
  {
    var frames := Repeat(Some(fen), d.threshold);
    var d1 := Detector(d.threshold, d.confirmed, Transition, Some(fen), 1);
    assert Process(d, frames[0]) == Returned(d1, None);
    assert frames[1..] == Repeat(Some(fen), d.threshold - 1);
    TransitionCommits(d.threshold, d.confirmed.value, fen, 1);
    assert [None] + (Repeat(None, d.threshold - 2) + [Reported(d.confirmed.value, fen)])
      == Repeat(None, d.threshold - 1) + [Reported(d.confirmed.value, fen)];
  }

  /** A flicker that returns to the confirmed placement mid-transition is a
      false alarm: back to idle, nothing reported, nothing confirmed. */
  lemma FlickerIgnored(d: Detector)
    requires Inv(d) && d.phase == Transition
    ensures Process(d, d.confirmed) ==
      Returned(d.(phase := Idle, candidate := None, count := 0), None)
  {
  }
}
