/** Per-square piece presence with temporal smoothing and delta scheduling.
    The image analysis itself (is there a round piece in this square image?)
    and the pixel comparison against a reference are oracles; what is
    modelled is which squares get re-analysed, what is cached, how the
    reading history is kept and smoothed, and when references move. Images
    are of an arbitrary type `G`, already preprocessed to grey. */
module PieceDetector {
  import opened Basics

  /** Readings kept per square. */
  const HISTORY_SIZE := 5

  datatype Detector<G> = Detector(
    references: map<Sq, G>,
    cache: map<Sq, bool>,
    history: map<Sq, seq<bool>>)

  function Initial<G>(): (d: Detector<G>)
    ensures d.references == map[] && d.cache == map[] && d.history == map[]
  {
    Detector(map[], map[], map[])
  }

  /** Every history holds at most HISTORY_SIZE readings. */
  predicate Inv<G>(d: Detector<G>) {
    forall pos :: pos in d.history ==> |d.history[pos]| <= HISTORY_SIZE
  }

  function HistoryOf<G>(d: Detector<G>, pos: Sq): seq<bool> {
    if pos in d.history then d.history[pos] else []
  }

  /** Appends a reading and drops the oldest one when that overflows. */
  function UpdateHistory(h: seq<bool>, reading: bool): (r: seq<bool>)
    ensures 0 < |r| <= |h| + 1 && r[|r| - 1] == reading
    ensures r == (h + [reading])[|h| + 1 - |r|..]
    ensures |h| < HISTORY_SIZE ==> |r| == |h| + 1
    ensures |h| == HISTORY_SIZE ==> |r| == HISTORY_SIZE
  {
    var r := h + [reading];
    if |r| > HISTORY_SIZE then r[1..] else r
  }

  /** Number of `true` readings. */
  function Trues(h: seq<bool>): nat {
    Count(h, true)
  }

  /** The smoothed reading: false with no history, the last reading while
      fewer than three are known, otherwise whether at least 60% of the
      readings are true (SmoothedIsPresenceRatio relates the integer test
      used here to the fraction the program computes). */
  function Smoothed(h: seq<bool>): (present: bool)
    ensures |h| == 0 ==> !present
    ensures 0 < |h| < 3 ==> present == h[|h| - 1]
    ensures |h| >= 3 ==> (present <==> 5 * Trues(h) >= 3 * |h|)
  {
    if |h| < 3 then |h| > 0 && h[|h| - 1]
    else 5 * Trues(h) >= 3 * |h|
  }

  /** With three or more readings the smoothed reading is exactly the test
      "fraction of true readings >= 0.6". */
  lemma SmoothedIsPresenceRatio(h: seq<bool>)
    requires |h| >= 3
    ensures Smoothed(h) <==> PresenceReached(Trues(h), |h|)
  {
    RatioThreshold(Trues(h), |h|);
  }

  /** Whether `t` true readings out of `n` reach the presence fraction. */
  predicate PresenceReached(t: nat, n: nat)
    requires n > 0
  {
    (t as real) / (n as real) >= 0.6
  }

  /** The 60% presence test on a ratio is the integer test 5t >= 3n. */
  lemma RatioThreshold(t: nat, n: nat)
    requires n > 0
    ensures PresenceReached(t, n) <==> 5 * t >= 3 * n
  {
    var tr := t as real;
    var nr := n as real;
    var p := tr / nr;
    DivMul(tr, nr);
    if p >= 0.6 {
      MulMono(0.6, p, nr);
      assert (3 * n) as real <= (5 * t) as real;
    } else {
      MulMono(p, 0.6, nr);
      assert (5 * t) as real < (3 * n) as real;
    }
  }

  lemma DivMul(t: real, n: real)
    requires n > 0.0
    ensures (t / n) * n == t
  {}

  lemma MulMono(a: real, b: real, c: real)
    requires a <= b && c > 0.0
    ensures a * c <= b * c
  {}

  /** A square counts as visually changed when it has no reference yet or
      its image differs from the reference by more than the pixel
      threshold (the `differs` oracle). */
  function HasChanged<G>(d: Detector<G>, pos: Sq, gray: G, differs: (G, G) -> bool): (changed: bool)
    ensures pos !in d.references ==> changed
    ensures pos in d.references ==> (changed <==> differs(gray, d.references[pos]))
  {
    pos !in d.references || differs(gray, d.references[pos])
  }

  /** Squares named in the focus set are always re-analysed; the others are
      when delta mode applies and the square is uncached or has changed. */
  predicate ShouldProcess<G>(d: Detector<G>, pos: Sq, changed: bool, useDelta: bool, focus: Option<set<Sq>>) {
    || (focus.Some? && pos in focus.value)
    || ((focus.None? || useDelta) && (pos !in d.cache || changed))
  }

  /** The raw reading: a fresh analysis when processed or uncached, the
      cached one otherwise. */
  function RawReading<G>(d: Detector<G>, pos: Sq, gray: G, process: bool, detect: (G, Sq) -> bool): bool {
    if process || pos !in d.cache then detect(gray, pos) else d.cache[pos]
  }

  /** What happens to one square in a pass. */
  datatype Visit = Visit(changed: bool, process: bool, raw: bool, history: seq<bool>, result: bool)

  function VisitSquare<G>(d: Detector<G>, pos: Sq, gray: G, useSmoothing: bool, useDelta: bool,
                          focus: Option<set<Sq>>, detect: (G, Sq) -> bool, differs: (G, G) -> bool): Visit
  {
    var changed := HasChanged(d, pos, gray, differs);
    var process := ShouldProcess(d, pos, changed, useDelta, focus);
    var raw := RawReading(d, pos, gray, process, detect);
    var history := UpdateHistory(HistoryOf(d, pos), raw);
    Visit(changed, process, raw, history, if useSmoothing then Smoothed(history) else raw)
  }

  /** The visits of all the frame's squares. */
  function Visits<G>(d: Detector<G>, squares: map<Sq, G>, useSmoothing: bool, useDelta: bool,
                     focus: Option<set<Sq>>, detect: (G, Sq) -> bool, differs: (G, G) -> bool): (v: map<Sq, Visit>)
    ensures forall pos :: pos in v <==> pos in squares
    ensures forall pos :: pos in v ==>
      v[pos] == VisitSquare(d, pos, squares[pos], useSmoothing, useDelta, focus, detect, differs)
  {
    map pos | pos in squares :: VisitSquare(d, pos, squares[pos], useSmoothing, useDelta, focus, detect, differs)
  }

  /** The maps a pass merges into the detector and returns. */
  function Refreshed<G>(squares: map<Sq, G>, v: map<Sq, Visit>): (m: map<Sq, G>)
    requires forall pos :: pos in v <==> pos in squares
    ensures forall pos :: pos in m <==> pos in squares && v[pos].process && v[pos].raw == v[pos].result
    ensures forall pos :: pos in m ==> m[pos] == squares[pos]
  {
    map pos | pos in squares && v[pos].process && v[pos].raw == v[pos].result :: squares[pos]
  }

  function RawReadings(v: map<Sq, Visit>): (m: map<Sq, bool>)
    ensures forall pos :: pos in m <==> pos in v
    ensures forall pos :: pos in m ==> m[pos] == v[pos].raw
  {
    map pos | pos in v :: v[pos].raw
  }

  function Histories(v: map<Sq, Visit>): (m: map<Sq, seq<bool>>)
    ensures forall pos :: pos in m <==> pos in v
    ensures forall pos :: pos in m ==> m[pos] == v[pos].history
  {
    map pos | pos in v :: v[pos].history
  }

  function Results(v: map<Sq, Visit>): (m: map<Sq, bool>)
    ensures forall pos :: pos in m <==> pos in v
    ensures forall pos :: pos in m ==> m[pos] == v[pos].result
  {
    map pos | pos in v :: v[pos].result
  }

  function Changes(v: map<Sq, Visit>): (c: set<Sq>)
    ensures forall pos :: pos in c <==> pos in v && v[pos].changed
  {
    set pos | pos in v && v[pos].changed
  }

  datatype Scan<G> = Scan(detector: Detector<G>, results: map<Sq, bool>, changes: set<Sq>)

  /** One pass over a frame's squares. Each square is handled on its own, so
      the order of the frame's squares does not matter. */
  function DetectAll<G>(d: Detector<G>, squares: map<Sq, G>, useSmoothing: bool, useDelta: bool,
                        focus: Option<set<Sq>>, detect: (G, Sq) -> bool, differs: (G, G) -> bool): (r: Scan<G>)
    requires Inv(d)
    // the visual changes are exactly the squares whose image changed
    ensures forall pos :: pos in r.changes <==>
      pos in squares && (pos !in d.references || differs(squares[pos], d.references[pos]))
    // every square of the frame gets a result, smoothed over its readings or raw
    ensures forall pos :: pos in r.results <==> pos in squares
    ensures forall pos :: pos in squares ==>
      && pos in r.detector.cache && pos in r.detector.history
      && r.results[pos] == (if useSmoothing then Smoothed(r.detector.history[pos]) else r.detector.cache[pos])
  {
    var v := Visits(d, squares, useSmoothing, useDelta, focus, detect, differs);
    var next := Detector(
      d.references + Refreshed(squares, v),
      d.cache + RawReadings(v),
      d.history + Histories(v));
    Scan(next, Results(v), Changes(v))
  }

  /** Histories stay within HISTORY_SIZE. */
  lemma DetectAllKeepsInv<G>(d: Detector<G>, squares: map<Sq, G>, useSmoothing: bool, useDelta: bool,
                             focus: Option<set<Sq>>, detect: (G, Sq) -> bool, differs: (G, G) -> bool)
    requires Inv(d)
    ensures Inv(DetectAll(d, squares, useSmoothing, useDelta, focus, detect, differs).detector)
  {
    var v := Visits(d, squares, useSmoothing, useDelta, focus, detect, differs);
    var r := DetectAll(d, squares, useSmoothing, useDelta, focus, detect, differs);
    assert r.detector.history == d.history + Histories(v);
    forall pos | pos in r.detector.history ensures |r.detector.history[pos]| <= HISTORY_SIZE {
      if pos in squares {
        assert r.detector.history[pos] == UpdateHistory(HistoryOf(d, pos), v[pos].raw);
      }
    }
  }

  /** Whether a pass re-analyses a square of the frame: always for a focus
      square, otherwise in delta mode (or with no focus set) when the square
      is uncached or its image changed. */
  predicate Processed<G>(d: Detector<G>, squares: map<Sq, G>, useDelta: bool, focus: Option<set<Sq>>,
                         differs: (G, G) -> bool, pos: Sq)
    requires pos in squares
  {
    var changed := pos !in d.references || differs(squares[pos], d.references[pos]);
    (focus.Some? && pos in focus.value) || ((focus.None? || useDelta) && (pos !in d.cache || changed))
  }

  /** Each square of the frame gets exactly one new reading, the one left
      in the cache. */
  lemma DetectAllHistory<G>(d: Detector<G>, squares: map<Sq, G>, useSmoothing: bool, useDelta: bool,
                            focus: Option<set<Sq>>, detect: (G, Sq) -> bool, differs: (G, G) -> bool, pos: Sq)
    requires Inv(d) && pos in squares
    ensures var r := DetectAll(d, squares, useSmoothing, useDelta, focus, detect, differs);
      r.detector.history[pos] == UpdateHistory(HistoryOf(d, pos), r.detector.cache[pos])
  {
    var v := Visits(d, squares, useSmoothing, useDelta, focus, detect, differs);
    var r := DetectAll(d, squares, useSmoothing, useDelta, focus, detect, differs);
    assert r.detector.cache[pos] == v[pos].raw by {
      assert r.detector.cache == d.cache + RawReadings(v);
    }
    assert r.detector.history[pos] == v[pos].history by {
      assert r.detector.history == d.history + Histories(v);
    }
  }

  /** That reading is a fresh analysis when the square is processed or
      uncached, and the cached reading otherwise. */
  lemma DetectAllReading<G>(d: Detector<G>, squares: map<Sq, G>, useSmoothing: bool, useDelta: bool,
                            focus: Option<set<Sq>>, detect: (G, Sq) -> bool, differs: (G, G) -> bool, pos: Sq)
    requires Inv(d) && pos in squares
    ensures var r := DetectAll(d, squares, useSmoothing, useDelta, focus, detect, differs);
      && (Processed(d, squares, useDelta, focus, differs, pos) || pos !in d.cache ==>
            r.detector.cache[pos] == detect(squares[pos], pos))
      && (!Processed(d, squares, useDelta, focus, differs, pos) && pos in d.cache ==>
            r.detector.cache[pos] == d.cache[pos])
  {
    var v := Visits(d, squares, useSmoothing, useDelta, focus, detect, differs);
    var r := DetectAll(d, squares, useSmoothing, useDelta, focus, detect, differs);
    assert r.detector.cache[pos] == v[pos].raw by {
      assert r.detector.cache == d.cache + RawReadings(v);
    }
    assert v[pos].raw == RawReading(d, pos, squares[pos], Processed(d, squares, useDelta, focus, differs, pos), detect);
  }

  /** A square's reference moves to its current image exactly when the
      square was re-analysed and its raw and smoothed readings agree, and
      stays as it was otherwise. */
  lemma DetectAllReference<G>(d: Detector<G>, squares: map<Sq, G>, useSmoothing: bool, useDelta: bool,
                              focus: Option<set<Sq>>, detect: (G, Sq) -> bool, differs: (G, G) -> bool, pos: Sq)
    requires Inv(d) && pos in squares
    ensures var r := DetectAll(d, squares, useSmoothing, useDelta, focus, detect, differs);
      var moves := Processed(d, squares, useDelta, focus, differs, pos) && r.detector.cache[pos] == r.results[pos];
      && (moves ==> pos in r.detector.references && r.detector.references[pos] == squares[pos])
      && (!moves ==> (pos in r.detector.references <==> pos in d.references) &&
                     (pos in d.references ==> r.detector.references[pos] == d.references[pos]))
  {
    var v := Visits(d, squares, useSmoothing, useDelta, focus, detect, differs);
    var r := DetectAll(d, squares, useSmoothing, useDelta, focus, detect, differs);
    var visit := v[pos];
    assert visit.process == Processed(d, squares, useDelta, focus, differs, pos);
    assert r.detector.cache == d.cache + RawReadings(v);
    assert r.detector.cache[pos] == visit.raw;
    assert r.results == Results(v);
    assert r.results[pos] == visit.result;
    assert r.detector.references == d.references + Refreshed(squares, v);
  }

  /** Squares outside the frame are untouched. */
  lemma DetectAllFrame<G>(d: Detector<G>, squares: map<Sq, G>, useSmoothing: bool, useDelta: bool,
                          focus: Option<set<Sq>>, detect: (G, Sq) -> bool, differs: (G, G) -> bool, pos: Sq)
    requires Inv(d) && pos !in squares
    ensures var r := DetectAll(d, squares, useSmoothing, useDelta, focus, detect, differs);
      && (pos in r.detector.history <==> pos in d.history)
      && (pos in d.history ==> r.detector.history[pos] == d.history[pos])
      && (pos in r.detector.cache <==> pos in d.cache)
      && (pos in d.cache ==> r.detector.cache[pos] == d.cache[pos])
      && (pos in r.detector.references <==> pos in d.references)
      && (pos in d.references ==> r.detector.references[pos] == d.references[pos])
  {}

  /** Resets the references of the given squares to their current images
      and empties the cache, so every square is re-analysed next time. */
  function UpdateReferences<G>(d: Detector<G>, squares: map<Sq, G>): (r: Detector<G>)
    ensures r.cache == map[] && r.history == d.history
    ensures forall pos :: pos in squares ==> pos in r.references && r.references[pos] == squares[pos]
    ensures forall pos :: pos !in squares ==>
      (pos in r.references <==> pos in d.references) &&
      (pos in d.references ==> r.references[pos] == d.references[pos])
  {
    Detector(d.references + squares, map[], d.history)
  }

  /** Replaces all references by the given images and caches a fresh
      analysis of each. */
  function CalibrateReference<G>(d: Detector<G>, squares: map<Sq, G>, detect: (G, Sq) -> bool): (r: Detector<G>)
    ensures r.references == squares && r.history == d.history
    ensures r.cache.Keys == squares.Keys
    ensures forall pos :: pos in squares ==> r.cache[pos] == detect(squares[pos], pos)
  {
    Detector(squares, map pos | pos in squares :: detect(squares[pos], pos), d.history)
  }

  /** Three agreeing raw readings in a row decide the smoothed reading,
      whatever the (at most five) readings before them were. */
  lemma {:induction false} ThreeReadingsDecide(h: seq<bool>, reading: bool)
    requires |h| <= HISTORY_SIZE
    ensures Smoothed(UpdateHistory(UpdateHistory(UpdateHistory(h, reading), reading), reading)) == reading
  {
    var h1 := UpdateHistory(h, reading);
    var h2 := UpdateHistory(h1, reading);
    var h3 := UpdateHistory(h2, reading);
    EndsWith(h, reading, 0);
    EndsWith(h1, reading, 1);
    EndsWith(h2, reading, 2);
    var n := |h3|;
    assert 3 <= n <= HISTORY_SIZE;
    var older := h3[..n - 3];
    var last3 := [reading, reading, reading];
    assert h3 == older + last3 by {
      assert h3[n - 3] == reading && h3[n - 2] == reading && h3[n - 1] == reading;
    }
    CountAppend(older, last3, true);
    var t := Trues(h3);
    assert t == Count(older, true) + Count(last3, true);
    assert Count(older, true) <= n - 3;
    CountRepeated(reading, 3);
    assert last3 == seq(3, _ => reading);
  }

  /** `n` copies of a reading hold `n` or no true readings. */
  lemma {:induction false} CountRepeated(reading: bool, n: nat)
    ensures Count(seq(n, _ => reading), true) == if reading then n else 0
  {
    if n > 0 {
      var s := seq(n, _ => reading);
      assert s[..n - 1] == seq(n - 1, _ => reading);
      CountRepeated(reading, n - 1);
    }
  }

  /** Appending a reading to a history that ends in `k` copies of it gives
      one that ends in `k + 1` copies, as long as k < HISTORY_SIZE. */
  lemma EndsWith(h: seq<bool>, reading: bool, k: nat)
    requires k < HISTORY_SIZE && |h| <= HISTORY_SIZE && k <= |h|
    requires forall i :: |h| - k <= i < |h| ==> h[i] == reading
    ensures var r := UpdateHistory(h, reading);
      k + 1 <= |r| <= HISTORY_SIZE && forall i :: |r| - (k + 1) <= i < |r| ==> r[i] == reading
  {
    var r := UpdateHistory(h, reading);
    var full := h + [reading];
    var shift := |h| + 1 - |r|;
    assert shift == 0 || shift == 1;
    forall i | |r| - (k + 1) <= i < |r| ensures r[i] == reading {
      assert r[i] == full[i + shift];
      if i + shift < |h| {
        assert full[i + shift] == h[i + shift];
      }
    }
  }

  lemma {:induction false} CountAppend<T>(a: seq<T>, b: seq<T>, x: T)
    ensures Count(a + b, x) == Count(a, x) + Count(b, x)
  {
    if |b| > 0 {
      var b' := b[..|b| - 1];
      assert (a + b)[..|a + b| - 1] == a + b';
      CountAppend(a, b', x);
    } else {
      assert a + b == a;
    }
  }

  /** Right after the references are reset to a frame, showing the same
      frame again reports no visual change (given that an image never
      differs from itself), and in delta mode every square is re-analysed. */
  lemma RefreshSilencesChanges<G>(d: Detector<G>, squares: map<Sq, G>, useSmoothing: bool,
                                  focus: Option<set<Sq>>, detect: (G, Sq) -> bool, differs: (G, G) -> bool)
    requires Inv(d)
    requires forall g: G :: !differs(g, g)
    ensures var r := DetectAll(UpdateReferences(d, squares), squares, useSmoothing, true, focus, detect, differs);
      && r.changes == {}
      && forall pos :: pos in squares ==> r.detector.cache[pos] == detect(squares[pos], pos)
  {
    var u := UpdateReferences(d, squares);
    var r := DetectAll(u, squares, useSmoothing, true, focus, detect, differs);
    forall pos | pos in squares ensures pos !in r.changes {
      assert !differs(squares[pos], squares[pos]);
    }
    forall pos | pos in squares ensures r.detector.cache[pos] == detect(squares[pos], pos) {
      assert ShouldProcess(u, pos, false, true, focus);
    }
  }
}
