/** Shared vocabulary: optional values, board squares and the 64-square grid. */
module Basics {

  datatype Option<T> = None | Some(value: T)

  /** A board square as the (file, rank) pair the program keys everything by:
      a1 = (0, 0), h8 = (7, 7). Fields are unbounded so that off-board pairs
      can be represented and rejected. */
  datatype Sq = Sq(file: int, rank: int)

  predicate OnBoard(s: Sq) {
    0 <= s.file < 8 && 0 <= s.rank < 8
  }

  /** The 64 on-board squares, listed rank by rank. */
  function GridSeq(): (g: seq<Sq>)
    ensures |g| == 64
  {
    seq(64, i requires 0 <= i < 64 => Sq(i % 8, i / 8))
  }

  /** The rank flip `(f, r) -> (f, 7 - r)` between image rows, top row
      first, and board ranks, rank 1 first. */
  function Flipped(s: Sq): (t: Sq)
    ensures t.file == s.file && t.rank + s.rank == 7
    ensures OnBoard(s) <==> OnBoard(t)
  {
    Sq(s.file, 7 - s.rank)
  }

  function AllSquares(): set<Sq> {
    set f, r | 0 <= f < 8 && 0 <= r < 8 :: Sq(f, r)
  }

  predicate Distinct<T(==)>(xs: seq<T>) {
    forall i, j :: 0 <= i < j < |xs| ==> xs[i] != xs[j]
  }

  function Elems<T(==)>(xs: seq<T>): set<T> {
    set x | x in xs
  }

  /** `xs` lists every member of `s` exactly once, in some order. */
  predicate Enumerates<T(==)>(xs: seq<T>, s: set<T>) {
    Distinct(xs) && Elems(xs) == s
  }

  lemma {:induction false} DistinctCard<T>(xs: seq<T>)
    requires Distinct(xs)
    ensures |Elems(xs)| == |xs|
  {
    if |xs| > 0 {
      var t := xs[1..];
      assert Distinct(t);
      DistinctCard(t);
      assert xs[0] !in t by {
        forall k | 0 <= k < |t| ensures t[k] != xs[0] {
          assert t[k] == xs[k + 1];
        }
      }
      assert Elems(xs) == {xs[0]} + Elems(t) by {
        assert xs == [xs[0]] + t;
      }
    }
  }

  /** The grid listing holds each on-board square exactly once. */
  lemma GridEnumeratesBoard()
    ensures Enumerates(GridSeq(), AllSquares())
    ensures |AllSquares()| == 64
  {
    var g := GridSeq();
    forall i, j | 0 <= i < j < |g| ensures g[i] != g[j] {
      assert i == (i / 8) * 8 + i % 8 && j == (j / 8) * 8 + j % 8;
      assert g[i].file == i % 8 && g[i].rank == i / 8;
      assert g[j].file == j % 8 && g[j].rank == j / 8;
    }
    forall s | s in AllSquares() ensures s in Elems(g) {
      var k := s.rank * 8 + s.file;
      assert g[k] == s;
    }
    DistinctCard(g);
  }

  lemma SubsetCard<T>(a: set<T>, b: set<T>)
    requires a <= b
    ensures |a| <= |b|
  {
    assert b == a + (b - a);
  }

  lemma OnBoardIsAllSquares(s: Sq)
    ensures OnBoard(s) <==> s in AllSquares()
  {
    if OnBoard(s) {
      assert s == Sq(s.file, s.rank);
    }
  }

  /** Algebraic square name: file letter a..h then rank digit 1..8. */
  function SquareName(file: int, rank: int): (name: string)
    requires 0 <= file < 8 && 0 <= rank < 8
    ensures |name| == 2
    ensures 'a' <= name[0] <= 'h' && '1' <= name[1] <= '8'
    ensures name[0] as int - 'a' as int == file
    ensures name[1] as int - '1' as int == rank
  {
    [(('a' as int) + file) as char, (('1' as int) + rank) as char]
  }

  lemma SquareNameInjective(f1: int, r1: int, f2: int, r2: int)
    requires 0 <= f1 < 8 && 0 <= r1 < 8 && 0 <= f2 < 8 && 0 <= r2 < 8
    ensures SquareName(f1, r1) == SquareName(f2, r2) <==> f1 == f2 && r1 == r2
  {
    if SquareName(f1, r1) == SquareName(f2, r2) {
      assert SquareName(f1, r1)[0] == SquareName(f2, r2)[0];
      assert SquareName(f1, r1)[1] == SquareName(f2, r2)[1];
    }
  }

  /** Python's `str(n)` for a decimal digit count 0..9. */
  function DigitChar(n: int): (c: char)
    requires 0 <= n <= 9
    ensures '0' <= c <= '9' && c as int - '0' as int == n
  {
    (('0' as int) + n) as char
  }

  predicate IsDigit(c: char) {
    '0' <= c <= '9'
  }

  function DigitValue(c: char): (n: nat)
    requires IsDigit(c)
    ensures n <= 9 && DigitChar(n) == c
  {
    c as int - '0' as int
  }

  /** Any two members of a one-element set are equal. */
  lemma SingletonMember<T>(s: set<T>)
    requires |s| == 1
    ensures forall a, b :: a in s && b in s ==> a == b
    ensures forall a :: a in s ==> s == {a}
  {
    forall a | a in s ensures s == {a} {
      assert |s - {a}| == 0;
    }
  }

  /** The only element of a one-element set. */
  function TheOne<T(==)>(s: set<T>): (x: T)
    requires |s| == 1
    ensures s == {x}
  {
    SingletonMember(s);
    var x :| x in s; x
  }

  function Abs(x: int): (a: nat)
    ensures a == x || a == -x
  {
    if x < 0 then -x else x
  }

  /** Number of occurrences of `x` in `xs`. */
  function Count<T(==)>(xs: seq<T>, x: T): (n: nat)
    ensures n <= |xs|
    ensures n > 0 <==> x in xs
  {
    if |xs| == 0 then 0
    else (if xs[|xs| - 1] == x then 1 else 0) + Count(xs[..|xs| - 1], x)
  }

  /** Python's `x // d`: the quotient rounded towards negative infinity,
      whatever the signs. */
  function FloorDiv(x: int, d: int): (q: int)
    requires d != 0
    ensures d > 0 ==> d * q <= x < d * q + d
    ensures d < 0 ==> d * q + d < x <= d * q
  {
    if d > 0 then x / d else (-x) / (-d)
  }

  lemma MulLeq(k: int, a: int, b: int)
    requires k > 0 && a <= b
    ensures k * a <= k * b
  {
  }

  /** The quotient of `v` by a positive `d` is the `q` whose block
      `[d * q, d * q + d)` holds `v`. */
  lemma DivUnique(v: int, d: int, q: int)
    requires d > 0 && d * q <= v < d * q + d
    ensures v / d == q
  {
    var k := v / d;
    assert d * k <= v < d * k + d;
    if k < q {
      MulLeq(d, k + 1, q);
    } else if k > q {
      MulLeq(d, q + 1, k);
    }
  }
}
