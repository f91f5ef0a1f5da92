/** The material counter of the statistics panel: the base values of one
    side's pieces, in whole pawns. */
module Statistics {
  import opened Pieces
  import opened BoardSums
  import opened Evaluator

  /** What one square adds to `color`'s material: the base value of a piece
      of that colour, nothing otherwise. Every kind has an entry in the
      `pieceValues` table, so the fallback to 0 never applies. */
  function MaterialTerm(color: Color, sq: Square, x: Coord, y: Coord): (v: int)
    ensures v >= 0
    ensures v > 0 <==> sq.Occupied? && sq.piece.color == color
  {
    if sq.Occupied? && sq.piece.color == color then BaseValue(sq.piece.kind) else 0
  }

  function MaterialTerms(color: Color): SquareTerm {
    (sq: Square, x: Coord, y: Coord) => MaterialTerm(color, sq, x, y)
  }

  /** The sum of the base values of `color`'s pieces, in centipawns. */
  function RawMaterial(b: Board, color: Color): (m: int)
    ensures m >= 0
  {
    var c := Terms(b, MaterialTerms(color));
    forall k | 0 <= k < 64
      ensures c[k] >= 0
    {
      SquareSplit(k);
      TermAt(b, MaterialTerms(color), Row(k), Col(k));
    }
    SumNonNegative(c);
    BoardTotal(b, MaterialTerms(color))
  }

  /** What `calculateMaterial` returns: the raw material rounded down to
      whole pawns. */
  function Material(b: Board, color: Color): int {
    RawMaterial(b, color) / 100
  }

  /** `calculateMaterial`: the nested row/column loops of the source over
      the board, then the division by 100 rounded down. */
  method CalculateMaterial(b: Board, color: Color) returns (result: int)
    ensures result == Material(b, color)
    ensures 100 * result <= RawMaterial(b, color) < 100 * result + 100
  {
    ghost var c := Terms(b, MaterialTerms(color));
    var material := 0;
    for i := 0 to 8
      invariant material == Sum(c[..8 * i])
    {
      for j := 0 to 8
        invariant material == Sum(c[..8 * i + j])
      {
        SumPrefixStep(c, 8 * i + j);
        TermAt(b, MaterialTerms(color), i, j);
        var square := b[i][j];
        if square.Occupied? && square.piece.color == color {
          material := material + BaseValue(square.piece.kind);
        }
      }
    }
    assert c[..64] == c;
    result := material / 100;
  }

  /** One row of `color`'s material, in the order the inner loop adds it.
      This is `RowTotal` of the material terms written out first-order,
      which keeps the start-position lemmas cheap for the solver. */
  function RowMaterial(b: Board, color: Color, x: Coord): int {
    MaterialTerm(color, b[x][0], x, 0) + MaterialTerm(color, b[x][1], x, 1) +
    MaterialTerm(color, b[x][2], x, 2) + MaterialTerm(color, b[x][3], x, 3) +
    MaterialTerm(color, b[x][4], x, 4) + MaterialTerm(color, b[x][5], x, 5) +
    MaterialTerm(color, b[x][6], x, 6) + MaterialTerm(color, b[x][7], x, 7)
  }

  lemma MaterialByRows(b: Board, color: Color)
    ensures RawMaterial(b, color) == RowMaterial(b, color, 0) + RowMaterial(b, color, 1) + RowMaterial(b, color, 2)
                                   + RowMaterial(b, color, 3) + RowMaterial(b, color, 4) + RowMaterial(b, color, 5)
                                   + RowMaterial(b, color, 6) + RowMaterial(b, color, 7)
  {
    TotalByRows(b, MaterialTerms(color));
  }

  /** Each side starts with 240 pawns' worth of material: eight pawns, two
      knights, two bishops, two rooks, a queen and the king's 20000. */
  lemma StartMaterial()
    ensures Material(StartPosition, White) == 240
    ensures Material(StartPosition, Black) == 240
  {
    StartMaterialWhite();
    StartMaterialBlack();
  }

  lemma StartMaterialWhite()
    ensures RawMaterial(StartPosition, White) == 24000
  {
    MaterialByRows(StartPosition, White);
    assert RowMaterial(StartPosition, White, 6) == 800;
    assert RowMaterial(StartPosition, White, 7) == 23200;
  }

  lemma StartMaterialBlack()
    ensures RawMaterial(StartPosition, Black) == 24000
  {
    MaterialByRows(StartPosition, Black);
    assert RowMaterial(StartPosition, Black, 0) == 23200;
    assert RowMaterial(StartPosition, Black, 1) == 800;
  }

  /** Emptying a square that holds a piece of `color` lowers that side's raw
      material by the piece's base value and leaves the other side's alone. */
  lemma CaptureLowersMaterial(b: Board, x: Coord, y: Coord)
    requires b[x][y].Occupied?
    ensures var p := b[x][y].piece;
            && RawMaterial(Place(b, x, y, Empty), p.color) == RawMaterial(b, p.color) - BaseValue(p.kind)
            && RawMaterial(Place(b, x, y, Empty), Opposite(p.color)) == RawMaterial(b, Opposite(p.color))
  {
    var p := b[x][y].piece;
    PlaceChangesOneTerm(b, MaterialTerms(p.color), x, y, Empty);
    PlaceChangesOneTerm(b, MaterialTerms(Opposite(p.color)), x, y, Empty);
  }

  predicate NoPawns(b: Board) {
    forall x, y :: 0 <= x < 8 && 0 <= y < 8 ==> !(b[x][y].Occupied? && b[x][y].piece.kind == Pawn)
  }

  /** Without pawns or knights no piece-square bonus applies, and the
      evaluation is exactly White's raw material minus Black's. */
  lemma EvaluationIsMaterialDifference(b: Board)
    requires NoPawns(b) && NoKnights(b)
    ensures Evaluation(b) == RawMaterial(b, White) - RawMaterial(b, Black)
  {
    var w := Terms(b, MaterialTerms(White));
    var k := Terms(b, MaterialTerms(Black));
    var e := Terms(b, PieceValueAt);
    forall i | 0 <= i < 64
      ensures e[i] == w[i] - k[i]
    {
      var x, y := Row(i), Col(i);
      SquareSplit(i);
      TermAt(b, PieceValueAt, x, y);
      TermAt(b, MaterialTerms(White), x, y);
      TermAt(b, MaterialTerms(Black), x, y);
    }
    SumDifference(w, k, e);
  }
}
