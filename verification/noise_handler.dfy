/** The hand-occlusion filter: a three-state machine driven only by the set of
    squares that changed in each frame. */
module NoiseHandler {
  import opened Basics

  /** More changed squares than this in one frame means a hand. */
  const NOISE_THRESHOLD: nat := 3
  /** Frames a pending change must persist before it is reported stable. */
  const STABILITY_FRAMES: nat := 12
  /** Quiet frames needed to leave the noise state. */
  const COOLDOWN_FRAMES: nat := 5

  datatype NoiseState = Idle | NoiseActive | MovePending

  datatype Handler = Handler(
    state: NoiseState,
    pending: set<Sq>,
    stableCount: nat,
    cooldownCount: nat,
    lifted: Option<Sq>)

  datatype Message =
    | Waiting | HandDetected | Detecting | NoiseCleared | Clearing
    | Stabilizing | HandActive | InterruptedByHand | MoveReady
    | StableReady | Counting | Updated

  /** The state returned with each frame and the keys of its data record that
      callers read. A key the record leaves out reads as its default: no
      squares, no lifted square, not stable. */
  datatype Report = Report(
    state: NoiseState,
    message: Message,
    squares: Option<set<Sq>>,
    lifted: Option<Sq>,
    stable: bool)

  datatype Step = Step(next: Handler, report: Report)

  function Initial(): (h: Handler)
    ensures h.state == Idle && h.pending == {} && h.stableCount == 0
    ensures h.cooldownCount == 0 && h.lifted == None
  {
    Handler(Idle, {}, 0, 0, None)
  }

  /** The public reset: every field back to its initial value. */
  function Reset(h: Handler): (r: Handler)
    ensures r == Initial()
  {
    Initial()
  }

  predicate IsBlocked(h: Handler) {
    h.state == NoiseActive
  }

  /** The lifted-piece hint derived from a freshly recorded change set. */
  function LiftedHint(changed: set<Sq>): (l: Option<Sq>)
    ensures l.Some? <==> |changed| == 1
    ensures l.Some? ==> changed == {l.value}
  {
    if |changed| == 1 then Some(TheOne(changed)) else None
  }

  function ProcessIdle(h: Handler, changed: set<Sq>): Step
    requires h.state == Idle
  {
    var n := |changed|;
    if n == 0 then
      Step(h, Report(Idle, Waiting, None, None, false))
    else if n > NOISE_THRESHOLD then
      Step(h.(state := NoiseActive, cooldownCount := 0),
           Report(NoiseActive, HandDetected, None, None, false))
    else
      var lifted := LiftedHint(changed);
      Step(h.(state := MovePending, pending := changed, stableCount := 1, lifted := lifted),
           Report(MovePending, Detecting, Some(changed), lifted, false))
  }

  function ProcessNoise(h: Handler, changed: set<Sq>): Step
    requires h.state == NoiseActive
  {
    var n := |changed|;
    if n == 0 then
      var c := h.cooldownCount + 1;
      if c >= COOLDOWN_FRAMES then
        Step(h.(state := Idle, cooldownCount := 0), Report(Idle, NoiseCleared, None, None, false))
      else
        Step(h.(cooldownCount := c), Report(NoiseActive, Clearing, None, None, false))
    else if n <= NOISE_THRESHOLD then
      var c := h.cooldownCount + 1;
      if c >= COOLDOWN_FRAMES then
        // The hint field is left as it was: this path does not recompute it.
        Step(h.(state := MovePending, pending := changed, stableCount := 1, cooldownCount := c),
             Report(MovePending, Detecting, Some(changed), None, false))
      else
        Step(h.(cooldownCount := c), Report(NoiseActive, Stabilizing, None, None, false))
    else
      Step(h.(cooldownCount := 0), Report(NoiseActive, HandActive, None, None, false))
  }

  function ProcessPending(h: Handler, changed: set<Sq>): Step
    requires h.state == MovePending
  {
    var n := |changed|;
    if n > NOISE_THRESHOLD then
      Step(h.(state := NoiseActive, pending := {}, stableCount := 0, cooldownCount := 0),
           Report(NoiseActive, InterruptedByHand, None, None, false))
    else if n == 0 then
      var s := h.stableCount + 1;
      if s >= STABILITY_FRAMES then
        Step(Reset(h), Report(Idle, MoveReady, Some(h.pending), None, true))
      else
        Step(h.(stableCount := s), Report(MovePending, Stabilizing, Some(h.pending), None, false))
    else if changed == h.pending then
      var s := h.stableCount + 1;
      if s >= STABILITY_FRAMES then
        Step(h.(stableCount := s), Report(MovePending, StableReady, Some(h.pending), None, true))
      else
        var hint := if |h.pending| == 1 then h.lifted else None;
        Step(h.(stableCount := s), Report(MovePending, Counting, Some(h.pending), hint, false))
    else
      var lifted := LiftedHint(changed);
      Step(h.(pending := changed, stableCount := 1, lifted := lifted),
           Report(MovePending, Updated, Some(changed), lifted, false))
  }

  /** Structural invariant of every reachable handler. */
  predicate Inv(h: Handler) {
    && (h.state == MovePending ==> 1 <= |h.pending| <= NOISE_THRESHOLD && h.stableCount >= 1)
    && (h.state == Idle ==> h.pending == {} && h.stableCount == 0 && h.cooldownCount == 0)
    && (h.state == NoiseActive ==> h.pending == {} && h.stableCount == 0 && h.cooldownCount < COOLDOWN_FRAMES)
  }

  /** One frame through the state machine. The reported state is always the
      state the handler is left in, the invariant is preserved, and a frame is
      reported stable only from a pending change that has persisted for
      STABILITY_FRAMES frames, carrying exactly the pending squares. */
  function Process(h: Handler, changed: set<Sq>): (r: Step)
    ensures r.report.state == r.next.state
    ensures Inv(h) ==> Inv(r.next)
    ensures r.report.stable ==>
              h.state == MovePending && |changed| <= NOISE_THRESHOLD
              && h.stableCount + 1 >= STABILITY_FRAMES
              && (changed == {} || changed == h.pending)
              && r.report.squares == Some(h.pending)
  {
    match h.state
    case Idle => ProcessIdle(h, changed)
    case NoiseActive => ProcessNoise(h, changed)
    case MovePending => ProcessPending(h, changed)
  }

  lemma InitialInv()
    ensures Inv(Initial()) && !IsBlocked(Initial())
  {}

  /** In IDLE an empty frame changes nothing. */
  lemma IdleQuiet(h: Handler)
    requires h.state == Idle
    ensures Process(h, {}).next == h
    ensures Process(h, {}).report.state == Idle && Process(h, {}).report.message == Waiting
  {}

  /** From IDLE, more than NOISE_THRESHOLD changes block processing. */
  lemma IdleToNoise(h: Handler, changed: set<Sq>)
    requires h.state == Idle && |changed| > NOISE_THRESHOLD
    ensures var r := Process(h, changed);
      r.next.state == NoiseActive && r.next.cooldownCount == 0 && IsBlocked(r.next)
      && r.next.pending == h.pending && r.next.stableCount == h.stableCount
  {}

  /** From IDLE, one to three changes start a pending move; the lifted hint
      is the changed square exactly when one square changed. */
  lemma IdleToPending(h: Handler, changed: set<Sq>)
    requires h.state == Idle && 1 <= |changed| <= NOISE_THRESHOLD
    ensures var r := Process(h, changed);
      && r.next.state == MovePending && r.next.pending == changed && r.next.stableCount == 1
      && (|changed| == 1 <==> r.next.lifted.Some?)
      && (|changed| == 1 ==> changed == {r.next.lifted.value})
      && r.report.lifted == r.next.lifted && !r.report.stable
  {}

  /** In NOISE_ACTIVE a quiet-ish frame advances the cooldown, a noisy one
      restarts it; on reaching COOLDOWN_FRAMES an empty frame returns to IDLE
      and a small one starts a pending move. */
  lemma NoiseRules(h: Handler, changed: set<Sq>)
    requires h.state == NoiseActive
    ensures var r := Process(h, changed);
      && (|changed| > NOISE_THRESHOLD ==>
            r.next.state == NoiseActive && r.next.cooldownCount == 0)
      && (|changed| <= NOISE_THRESHOLD && h.cooldownCount + 1 < COOLDOWN_FRAMES ==>
            r.next.state == NoiseActive && r.next.cooldownCount == h.cooldownCount + 1)
      && (|changed| == 0 && h.cooldownCount + 1 >= COOLDOWN_FRAMES ==>
            r.next.state == Idle && r.next.cooldownCount == 0)
      && (1 <= |changed| <= NOISE_THRESHOLD && h.cooldownCount + 1 >= COOLDOWN_FRAMES ==>
            r.next.state == MovePending && r.next.pending == changed && r.next.stableCount == 1)
  {}

  /** More than NOISE_THRESHOLD changes abort a pending move. */
  lemma PendingAbort(h: Handler, changed: set<Sq>)
    requires h.state == MovePending && |changed| > NOISE_THRESHOLD
    ensures var r := Process(h, changed);
      r.next.state == NoiseActive && r.next.pending == {} && r.next.stableCount == 0
      && r.next.cooldownCount == 0 && IsBlocked(r.next)
  {}

  /** A different small change set replaces the pending one and restarts the
      count. */
  lemma PendingReplaced(h: Handler, changed: set<Sq>)
    requires h.state == MovePending && 1 <= |changed| <= NOISE_THRESHOLD && changed != h.pending
    ensures var r := Process(h, changed);
      r.next.state == MovePending && r.next.pending == changed && r.next.stableCount == 1
      && !r.report.stable
  {}

  /** Feeding the same frame `k` times (k >= 1). */
  function Feed(h: Handler, changed: set<Sq>, k: nat): Step
    requires k >= 1
  {
    if k == 1 then Process(h, changed) else Process(Feed(h, changed, k - 1).next, changed)
  }

  /** Starting from IDLE, the same one-to-three-square set fed `k` times
      leaves the handler pending on that set with count `k`; the `k`-th call
      reports stable exactly when k >= STABILITY_FRAMES, and the machine is
      not reset by a stable report, so later calls keep reporting it. */
  lemma {:induction false} RepeatedSetBecomesStable(changed: set<Sq>, k: nat)
    requires 1 <= |changed| <= NOISE_THRESHOLD && k >= 1
    ensures var r := Feed(Initial(), changed, k);
      && r.next.state == MovePending && r.next.pending == changed
      && r.next.stableCount == k && r.next.lifted == LiftedHint(changed)
      && (r.report.stable <==> k >= STABILITY_FRAMES)
  {
    if k > 1 {
      RepeatedSetBecomesStable(changed, k - 1);
    }
  }

  /** Empty frames during MOVE_PENDING count towards stability; the frame that
      reaches STABILITY_FRAMES returns IDLE, stable, with the pending squares,
      and every field reset. */
  lemma {:induction false} PendingSettles(h: Handler, k: nat)
    requires h.state == MovePending && k >= 1
    ensures var r := Feed(h, {}, k);
      && (h.stableCount + k < STABILITY_FRAMES ==>
            r.next == h.(stableCount := h.stableCount + k) && !r.report.stable)
      && (h.stableCount + k == STABILITY_FRAMES ==>
            r.next == Initial() && r.report.stable && r.report.squares == Some(h.pending)
            && r.report.state == Idle)
  {
    if k > 1 {
      PendingSettles(h, k - 1);
    }
  }

  /** From NOISE_ACTIVE, COOLDOWN_FRAMES - cooldown empty frames return to
      IDLE, and fewer keep the machine blocked. */
  lemma {:induction false} NoiseClears(h: Handler, k: nat)
    requires h.state == NoiseActive && k >= 1
    ensures var r := Feed(h, {}, k);
      && (h.cooldownCount + k < COOLDOWN_FRAMES ==>
            r.next == h.(cooldownCount := h.cooldownCount + k) && IsBlocked(r.next))
      && (h.cooldownCount + k == COOLDOWN_FRAMES ==>
            r.next.state == Idle && r.next.cooldownCount == 0 && !IsBlocked(r.next))
  {
    if k > 1 {
      NoiseClears(h, k - 1);
    }
  }

  /** Five simultaneously changed squares block; five empty frames unblock. */
  lemma HandThenQuiet(hand: set<Sq>)
    requires |hand| == 5
    ensures var blocked := Process(Initial(), hand).next;
      IsBlocked(blocked) && Feed(blocked, {}, COOLDOWN_FRAMES).next.state == Idle
  {
    var blocked := Process(Initial(), hand).next;
    NoiseClears(blocked, COOLDOWN_FRAMES);
  }

  /** The lifted hint is not recomputed when a pending move starts from
      NOISE_ACTIVE, so a "counting" report can carry a square from before the
      hand appeared: here (4, 1) is reported while only (2, 2) is pending. */
  lemma StaleLiftedHint()
    ensures var a := Process(Initial(), {Sq(4, 1)}).next;
      var b := Process(a, {Sq(0, 0), Sq(1, 0), Sq(2, 0), Sq(3, 0)}).next;
      var c := Feed(b, {Sq(2, 2)}, COOLDOWN_FRAMES).next;
      var d := Process(c, {Sq(2, 2)});
      c.state == MovePending && c.pending == {Sq(2, 2)}
      && d.report.message == Counting && d.report.lifted == Some(Sq(4, 1))
  {
    var a := Process(Initial(), {Sq(4, 1)}).next;
    assert |{Sq(4, 1)}| == 1;
    assert a.lifted == Some(Sq(4, 1));
    var quad := {Sq(0, 0), Sq(1, 0), Sq(2, 0), Sq(3, 0)};
    assert |quad| == 4;
    var b := Process(a, quad).next;
    assert b.state == NoiseActive && b.cooldownCount == 0 && b.lifted == Some(Sq(4, 1));
    var one := {Sq(2, 2)};
    assert |one| == 1;
    NoiseFeedsSmall(b, one, COOLDOWN_FRAMES);
  }

  lemma {:induction false} NoiseFeedsSmall(h: Handler, changed: set<Sq>, k: nat)
    requires h.state == NoiseActive && 1 <= |changed| <= NOISE_THRESHOLD && 1 <= k
    requires h.cooldownCount + k <= COOLDOWN_FRAMES
    ensures var r := Feed(h, changed, k);
      && (h.cooldownCount + k < COOLDOWN_FRAMES ==>
            r.next == h.(cooldownCount := h.cooldownCount + k))
      && (h.cooldownCount + k == COOLDOWN_FRAMES ==>
            r.next == h.(state := MovePending, pending := changed, stableCount := 1,
                         cooldownCount := COOLDOWN_FRAMES))
  {
    if k > 1 {
      NoiseFeedsSmall(h, changed, k - 1);
    }
  }
}
