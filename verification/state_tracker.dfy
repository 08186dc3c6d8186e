/** Majority smoothing of per-frame FEN texts: keep the placement fields of
    the last `length` frames and call a placement stable once it holds a
    strict majority of them. */
module StateTracker {
  import opened Basics
  import opened Strings

  const DEFAULT_LENGTH: nat := 5

  datatype Tracker = Tracker(
    length: nat,
    history: seq<string>,
    stable: Option<string>,
    lastStable: Option<string>)

  function Init(length: nat): (t: Tracker)
    ensures t.history == [] && t.stable.None? && t.lastStable.None?
  {
    Tracker(length, [], None, None)
  }

  /** The placement field: the text before the first space, that is the
      longest space-free prefix. */
  function Placement(fen: string): (p: string)
    ensures ' ' !in p
    ensures p <= fen
    ensures p == fen || fen[|p|] == ' '
  {
    var parts := Split(fen, ' ');
    JoinSplit(fen, ' ');
    if |parts| > 1 then
      assert Join(parts, ' ') == parts[0] + [' '] + Join(parts[1..], ' ');
      parts[0]
    else parts[0]
  }

  /** Appending to a bounded deque: the oldest entries fall off the left. */
  function Window(h: seq<string>, x: string, length: nat): (w: seq<string>)
    ensures |w| == if |h| + 1 > length then length else |h| + 1
    ensures w == (h + [x])[|h| + 1 - |w|..]
  {
    var full := h + [x];
    if |full| > length then full[|full| - length..] else full
  }

  /** The highest count of any entry of `h[k..]` within `h`. */
  function MaxCountFrom(h: seq<string>, k: nat): (c: nat)
    requires k < |h|
    ensures forall i :: k <= i < |h| ==> Count(h, h[i]) <= c
    ensures exists i :: k <= i < |h| && Count(h, h[i]) == c
    decreases |h| - k
  {
    var here := Count(h, h[k]);
    if k == |h| - 1 then here
    else
      var rest := MaxCountFrom(h, k + 1);
      if here >= rest then here else rest
  }

  /** The first index from `k` on whose entry has count `c`. */
  function FirstWithCount(h: seq<string>, c: nat, k: nat): (i: nat)
    requires k < |h|
    requires exists j :: k <= j < |h| && Count(h, h[j]) == c
    ensures k <= i < |h| && Count(h, h[i]) == c
    ensures forall j :: k <= j < i ==> Count(h, h[j]) != c
    decreases |h| - k
  {
    if Count(h, h[k]) == c then k else FirstWithCount(h, c, k + 1)
  }

  /** `Counter(h).most_common(1)[0]`: an entry of highest count, the earliest
      one to appear among ties, and its count. */
  function MostCommon(h: seq<string>): (r: (string, nat))
    requires |h| > 0
    ensures r.0 in h && r.1 == Count(h, r.0)
    ensures forall i :: 0 <= i < |h| ==> Count(h, h[i]) <= r.1
  {
    var c := MaxCountFrom(h, 0);
    var i := FirstWithCount(h, c, 0);
    (h[i], c)
  }

  /** Two different entries together occur at most once per slot. */
  lemma {:induction false} CountPair(h: seq<string>, x: string, y: string)
    requires x != y
    ensures Count(h, x) + Count(h, y) <= |h|
    decreases |h|
  {
    if |h| > 0 {
      CountPair(h[..|h| - 1], x, y);
    }
  }

  /** A strict majority entry is the most common one, whatever the order. */
  lemma MajorityIsMostCommon(h: seq<string>, x: string)
    requires 2 * Count(h, x) > |h|
    ensures |h| > 0 && MostCommon(h) == (x, Count(h, x))
  {
    var (y, f) := MostCommon(h);
    assert x in h;
    var k :| 0 <= k < |h| && h[k] == x;
    assert Count(h, x) <= f;
    if y != x {
      CountPair(h, x, y);
    }
  }

  /** What one update call ends in: `Raised` for a zero-length history, whose
      empty counter has no most common entry. */
  datatype Outcome =
    | Returned(next: Tracker, fen: Option<string>, changed: bool)
    | Raised(next: Tracker)

  /** Strict majority threshold `length // 2 + 1`. */
  function Quorum(length: nat): nat {
    length / 2 + 1
  }

  /** The update as written: on a change of stable placement it returns the
      current frame's full text, whatever that frame's placement. */
  function Update(t: Tracker, fen: string): (o: Outcome)
    ensures o.next.length == t.length
    ensures o.next.history == Window(t.history, Placement(fen), t.length)
    ensures o.Raised? <==> t.length == 0
    ensures o.Returned? && o.fen.Some? ==> o.fen == Some(fen)
    ensures o.Returned? && o.changed ==> o.fen.Some? && o.next.lastStable == o.next.stable
    ensures o.next.stable == t.stable || (o.next.stable.Some? && o.next.stable.value in o.next.history)
  {
    var h := Window(t.history, Placement(fen), t.length);
    var t1 := t.(history := h);
    if |h| < t.length then Returned(t1, None, false)
    else if |h| == 0 then Raised(t1)
    else
      var (top, freq) := MostCommon(h);
      if freq >= Quorum(t.length) then
        var t2 := t1.(stable := Some(top));
        if t2.stable != t2.lastStable then Returned(t2.(lastStable := t2.stable), Some(fen), true)
        else Returned(t2, Some(fen), false)
      else Returned(t1, None, false)
  }

  /** The stable placement after an update is exactly the strict majority of
      a full history, when there is one; otherwise it is left as it was. */
  lemma UpdateFindsMajority(t: Tracker, fen: string, x: string)
    requires t.length > 0
    requires var h := Window(t.history, Placement(fen), t.length);
      |h| == t.length && Count(h, x) >= Quorum(t.length)
    ensures Update(t, fen).Returned?
    ensures Update(t, fen).next.stable == Some(x)
    ensures Update(t, fen).fen == Some(fen)
    ensures Update(t, fen).changed <==> t.lastStable != Some(x)
  {
    var h := Window(t.history, Placement(fen), t.length);
    MajorityIsMostCommon(h, x);
  }

  lemma UpdateWithoutMajority(t: Tracker, fen: string)
    requires t.length > 0
    requires var h := Window(t.history, Placement(fen), t.length);
      |h| < t.length || forall i :: 0 <= i < |h| ==> Count(h, h[i]) < Quorum(t.length)
    ensures Update(t, fen) ==
      Returned(t.(history := Window(t.history, Placement(fen), t.length)), None, false)
  {
  }

  /** The returned text's placement need not be the stable one: with a
      history of five, frames a, a, a, b, b (two different placements) fill
      the history with a the majority, and the fifth call reports b's text
      as the new stable one. */
  lemma ReturnsCurrentNotStable(a: string, b: string)
    requires ' ' !in a && ' ' !in b && a != b
    ensures var t0 := Init(5);
      var t1 := Update(t0, a).next;
      var t2 := Update(t1, a).next;
      var t3 := Update(t2, a).next;
      var t4 := Update(t3, b).next;
      var o := Update(t4, b);
      o.Returned? && o.changed && o.fen == Some(b) && o.next.stable == Some(a)
      && Placement(o.fen.value) != o.next.stable.value
  {
    WarmUpFromInit(a, b);
    var t4 := Tracker(5, [a, a, a, b], None, None);
    PlacementOfField(a);
    PlacementOfField(b);
    assert Window(t4.history, b, 5) == [a, a, a, b, b];
    CountThreeOfFive(a, b);
    UpdateFindsMajority(t4, b, a);
  }

  /** Four frames a, a, a, b from a fresh tracker of length five only fill
      the history. */
  lemma WarmUpFromInit(a: string, b: string)
    requires ' ' !in a && ' ' !in b
    ensures Update(Init(5), a).next == Tracker(5, [a], None, None)
    ensures Update(Tracker(5, [a], None, None), a).next == Tracker(5, [a, a], None, None)
    ensures Update(Tracker(5, [a, a], None, None), a).next == Tracker(5, [a, a, a], None, None)
    ensures Update(Tracker(5, [a, a, a], None, None), b).next == Tracker(5, [a, a, a, b], None, None)
  {
    PlacementOfField(a);
    PlacementOfField(b);
    WarmUpStep(Init(5), a);
    WarmUpStep(Tracker(5, [a], None, None), a);
    WarmUpStep(Tracker(5, [a, a], None, None), a);
    WarmUpStep(Tracker(5, [a, a, a], None, None), b);
  }

  lemma CountThreeOfFive(a: string, b: string)
    requires a != b
    ensures Count([a, a, a, b, b], a) == 3
  {
    var h := [a, a, a, b, b];
    assert h[..4] == [a, a, a, b];
    assert h[..4][..3] == [a, a, a];
    assert h[..4][..3][..2] == [a, a];
    assert h[..4][..3][..2][..1] == [a];
    assert h[..4][..3][..2][..1][..0] == [];
    assert Count([a], a) == 1;
    assert Count([a, a], a) == 2;
    assert Count([a, a, a], a) == 3;
    assert Count([a, a, a, b], a) == 3;
  }

  /** While the history is filling up, an update only records the placement. */
  lemma WarmUpStep(t: Tracker, fen: string)
    requires |t.history| + 1 < t.length
    ensures Update(t, fen) == Returned(t.(history := t.history + [Placement(fen)]), None, false)
  {
  }

  /** A text without spaces is its own placement field. */
  lemma PlacementOfField(p: string)
    requires ' ' !in p
    ensures Placement(p) == p
  {
    SplitNoSeparator(p, ' ');
  }

  /** The update with the evident intent: the returned text carries the
      stable placement, followed by the current frame's remaining fields. */
  function UpdateIntended(t: Tracker, fen: string): (o: Outcome)
    ensures o.Returned? && o.fen.Some? ==> o.next.stable.Some?
  {
    match Update(t, fen)
    case Raised(n) => Raised(n)
    case Returned(n, out, changed) =>
      if out.Some? then Returned(n, Some(n.stable.value + fen[|Placement(fen)|..]), changed)
      else Returned(n, None, changed)
  }

  /** Every history entry is a placement field. */
  predicate Inv(t: Tracker) {
    (forall i :: 0 <= i < |t.history| ==> ' ' !in t.history[i])
    && (t.stable.Some? ==> ' ' !in t.stable.value)
  }

  lemma InitInv(length: nat)
    ensures Inv(Init(length))
  {
  }

  lemma UpdateIntendedKeepsInv(t: Tracker, fen: string)
    requires Inv(t)
    ensures Inv(UpdateIntended(t, fen).next)
  {
    var o := Update(t, fen);
    var n := UpdateIntended(t, fen).next;
    assert n == o.next;
    WindowSpaceFree(t.history, Placement(fen), t.length);
  }

  /** Appending a space-free entry to space-free entries keeps the window
      space-free. */
  lemma WindowSpaceFree(h: seq<string>, x: string, length: nat)
    requires forall i :: 0 <= i < |h| ==> ' ' !in h[i]
    requires ' ' !in x
    ensures forall i :: 0 <= i < |Window(h, x, length)| ==> ' ' !in Window(h, x, length)[i]
  {
    var w := Window(h, x, length);
    var full := h + [x];
    forall i | 0 <= i < |w| ensures ' ' !in w[i] {
      var k := |full| - |w| + i;
      assert w[i] == full[k];
      if k < |h| { assert full[k] == h[k]; }
    }
  }

  /** A space-free field followed by nothing or by a space is the placement
      field of the combined text. */
  lemma PlacementWithRest(p: string, rest: string)
    requires ' ' !in p
    requires rest == [] || rest[0] == ' '
    ensures Placement(p + rest) == p
  {
    if rest == [] {
      assert p + rest == p;
      SplitNoSeparator(p, ' ');
    } else {
      SplitFirst(p, rest[1..], ' ');
      assert p + rest == p + [' '] + rest[1..];
    }
  }

  /** With the intended update, the text returned always has the stable
      placement as its placement field. */
  lemma UpdateIntendedReturnsStable(t: Tracker, fen: string)
    requires Inv(t)
    requires UpdateIntended(t, fen).Returned? && UpdateIntended(t, fen).fen.Some?
    ensures Placement(UpdateIntended(t, fen).fen.value) == UpdateIntended(t, fen).next.stable.value
  {
    var o := UpdateIntended(t, fen);
    UpdateIntendedKeepsInv(t, fen);
    var s := o.next.stable.value;
    var p := Placement(fen);
    var rest := fen[|p|..];
    assert rest == [] || rest[0] == ' ' by {
      if rest != [] { assert rest[0] == fen[|p|]; }
    }
    assert o.fen.value == s + rest;
    PlacementWithRest(s, rest);
  }
}
