/** Totals over the 64 squares of a board, visited as the source's nested
    loops visit them: row by row, and left to right within a row. */
module BoardSums {
  import opened Pieces

  /** What one square adds to a total, given its contents and coordinates. */
  type SquareTerm = (Square, Coord, Coord) -> int

  /** Square number k in row-major order. */
  function Row(k: nat): Coord requires k < 64 { k / 8 }
  function Col(k: nat): Coord requires k < 64 { k % 8 }

  lemma SquareIndex(x: Coord, y: Coord)
    ensures Row(8 * x + y) == x && Col(8 * x + y) == y
  {
  }

  lemma SquareSplit(k: nat)
    requires k < 64
    ensures k == 8 * Row(k) + Col(k)
  {
  }

  /** The 64 terms of `f` over `b`, in loop order. */
  function Terms(b: Board, f: SquareTerm): (c: seq<int>)
    ensures |c| == 64
  {
    seq(64, k requires 0 <= k < 64 => f(b[Row(k)][Col(k)], Row(k), Col(k)))
  }

  lemma TermAt(b: Board, f: SquareTerm, x: Coord, y: Coord)
    ensures Terms(b, f)[8 * x + y] == f(b[x][y], x, y)
  {
    SquareIndex(x, y);
  }

  function Sum(s: seq<int>): int {
    if s == [] then 0 else Sum(s[..|s| - 1]) + s[|s| - 1]
  }

  /** The total of `f` over the whole board. */
  function BoardTotal(b: Board, f: SquareTerm): int {
    Sum(Terms(b, f))
  }

  lemma SumPrefixStep(s: seq<int>, n: nat)
    requires n < |s|
    ensures Sum(s[..n + 1]) == Sum(s[..n]) + s[n]
  {
    assert s[..n + 1][..n] == s[..n];
  }

  lemma {:induction false} SumCons(x: int, t: seq<int>)
    ensures Sum([x] + t) == x + Sum(t)
    decreases |t|
  {
    if t != [] {
      assert ([x] + t)[..|t|] == [x] + t[..|t| - 1];
      SumCons(x, t[..|t| - 1]);
    }
  }

  lemma {:induction false} SumUpdate(s: seq<int>, k: nat, v: int)
    requires k < |s|
    ensures Sum(s[k := v]) == Sum(s) - s[k] + v
    decreases |s|
  {
    var n := |s| - 1;
    if k < n {
      assert s[k := v][..n] == s[..n][k := v];
      SumUpdate(s[..n], k, v);
    } else {
      assert s[k := v][..n] == s[..n];
    }
  }

  /** Summing a sequence back to front, with every sign flipped, negates the sum. */
  lemma {:induction false} SumNegatedReverse(s: seq<int>, t: seq<int>)
    requires |t| == |s|
    requires forall k :: 0 <= k < |s| ==> t[k] == -s[|s| - 1 - k]
    ensures Sum(t) == -Sum(s)
    decreases |s|
  {
    if s != [] {
      var n := |s| - 1;
      assert t == [t[0]] + t[1..];
      SumNegatedReverse(s[..n], t[1..]);
      SumCons(t[0], t[1..]);
    }
  }

  /** Sums of sequences that differ term by term differ by the sum of the
      differences. */
  lemma {:induction false} SumDifference(s: seq<int>, t: seq<int>, d: seq<int>)
    requires |s| == |t| == |d|
    requires forall k :: 0 <= k < |s| ==> d[k] == s[k] - t[k]
    ensures Sum(d) == Sum(s) - Sum(t)
    decreases |s|
  {
    if s != [] {
      var n := |s| - 1;
      SumDifference(s[..n], t[..n], d[..n]);
    }
  }

  lemma {:induction false} SumZeros(s: seq<int>)
    requires forall k :: 0 <= k < |s| ==> s[k] == 0
    ensures Sum(s) == 0
    decreases |s|
  {
    if s != [] {
      SumZeros(s[..|s| - 1]);
    }
  }

  lemma {:induction false} SumNonNegative(s: seq<int>)
    requires forall k :: 0 <= k < |s| ==> s[k] >= 0
    ensures Sum(s) >= 0
    decreases |s|
  {
    if s != [] {
      SumNonNegative(s[..|s| - 1]);
    }
  }

  /** Changing one square changes a board total by exactly the difference
      of that square's terms. */
  lemma PlaceChangesOneTerm(b: Board, f: SquareTerm, x: Coord, y: Coord, sq: Square)
    ensures BoardTotal(Place(b, x, y, sq), f) == BoardTotal(b, f) - f(b[x][y], x, y) + f(sq, x, y)
  {
    var k := 8 * x + y;
    SquareIndex(x, y);
    var c := Terms(b, f);
    var c' := Terms(Place(b, x, y, sq), f);
    forall i | 0 <= i < 64
      ensures c'[i] == c[k := f(sq, x, y)][i]
    {
      SquareSplit(i);
    }
    assert c' == c[k := f(sq, x, y)];
    SumUpdate(c, k, f(sq, x, y));
  }

  /** The total of row x: what one pass of the inner loop adds. */
  function RowTotal(b: Board, f: SquareTerm, x: Coord): int {
    f(b[x][0], x, 0) + f(b[x][1], x, 1) + f(b[x][2], x, 2) + f(b[x][3], x, 3) +
    f(b[x][4], x, 4) + f(b[x][5], x, 5) + f(b[x][6], x, 6) + f(b[x][7], x, 7)
  }

  lemma RowStep(b: Board, f: SquareTerm, x: Coord)
    ensures Sum(Terms(b, f)[..8 * x + 8]) == Sum(Terms(b, f)[..8 * x]) + RowTotal(b, f, x)
  {
    var c := Terms(b, f);
    var k: int := 8 * x;
    SumPrefixStep(c, k); TermAt(b, f, x, 0);
    SumPrefixStep(c, k + 1); TermAt(b, f, x, 1);
    SumPrefixStep(c, k + 2); TermAt(b, f, x, 2);
    SumPrefixStep(c, k + 3); TermAt(b, f, x, 3);
    SumPrefixStep(c, k + 4); TermAt(b, f, x, 4);
    SumPrefixStep(c, k + 5); TermAt(b, f, x, 5);
    SumPrefixStep(c, k + 6); TermAt(b, f, x, 6);
    SumPrefixStep(c, k + 7); TermAt(b, f, x, 7);
  }

  /** A board total as the total of its eight row passes. */
  lemma TotalByRows(b: Board, f: SquareTerm)
    ensures BoardTotal(b, f) == RowTotal(b, f, 0) + RowTotal(b, f, 1) + RowTotal(b, f, 2) + RowTotal(b, f, 3)
                              + RowTotal(b, f, 4) + RowTotal(b, f, 5) + RowTotal(b, f, 6) + RowTotal(b, f, 7)
  {
    var c := Terms(b, f);
    assert c[..0] == [];
    RowStep(b, f, 0);
    var s1 := Sum(c[..8]);
    assert s1 == RowTotal(b, f, 0);
    RowStep(b, f, 1);
    var s2 := Sum(c[..16]);
    assert s2 == s1 + RowTotal(b, f, 1);
    RowStep(b, f, 2);
    var s3 := Sum(c[..24]);
    assert s3 == s2 + RowTotal(b, f, 2);
    RowStep(b, f, 3);
    var s4 := Sum(c[..32]);
    assert s4 == s3 + RowTotal(b, f, 3);
    RowStep(b, f, 4);
    var s5 := Sum(c[..40]);
    assert s5 == s4 + RowTotal(b, f, 4);
    RowStep(b, f, 5);
    var s6 := Sum(c[..48]);
    assert s6 == s5 + RowTotal(b, f, 5);
    RowStep(b, f, 6);
    var s7 := Sum(c[..56]);
    assert s7 == s6 + RowTotal(b, f, 6);
    RowStep(b, f, 7);
    assert c[..64] == c;
  }
}
