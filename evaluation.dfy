/** The static evaluator: material plus a piece-square bonus for pawns and
    knights, summed over the 64 squares, positive when White is ahead. */
module Evaluator {
  import opened Pieces
  import opened BoardSums

  /** The `pieceValues` table. */
  function BaseValue(k: Kind): int {
    match k
    case Pawn => 100
    case Knight => 320
    case Bishop => 330
    case Rook => 500
    case Queen => 900
    case King => 20000
  }

  const PawnTable: seq<int> :=
    [0,  0,  0,  0,  0,  0,  0,  0] +
    [50, 50, 50, 50, 50, 50, 50, 50] +
    [10, 10, 20, 30, 30, 20, 10, 10] +
    [5,  5, 10, 25, 25, 10,  5,  5] +
    [0,  0,  0, 20, 20,  0,  0,  0] +
    [5, -5,-10,  0,  0,-10, -5,  5] +
    [5, 10, 10,-20,-20, 10, 10,  5] +
    [0,  0,  0,  0,  0,  0,  0,  0]

  const KnightTable: seq<int> :=
    [-50,-40,-30,-30,-30,-30,-40,-50] +
    [-40,-20,  0,  0,  0,  0,-20,-40] +
    [-30,  0, 10, 15, 15, 10,  0,-30] +
    [-30,  5, 15, 20, 20, 15,  5,-30] +
    [-30,  0, 15, 20, 20, 15,  0,-30] +
    [-30,  5, 10, 15, 15, 10,  5,-30] +
    [-40,-20,  0,  5,  5,  0,-20,-40] +
    [-50,-40,-30,-30,-30,-30,-40,-50]

  lemma PawnTableBounds()
    ensures |PawnTable| == 64
    ensures forall k :: 0 <= k < 64 ==> -20 <= PawnTable[k] <= 50
  {
  }

  lemma KnightTableBounds()
    ensures |KnightTable| == 64
    ensures forall k :: 0 <= k < 64 ==> -50 <= KnightTable[k] <= 20
  {
  }

  /** Where a pawn on (x, y) reads the pawn table: from the far end for
      White, from the near end for Black. */
  function PawnIndex(isWhite: bool, x: Coord, y: Coord): (i: nat)
    ensures i < 64
  {
    if isWhite then 63 - (x * 8 + y) else x * 8 + y
  }

  /** The pawn-table entry for a pawn on (x, y). */
  function PawnBonus(isWhite: bool, x: Coord, y: Coord): (v: int)
    ensures -20 <= v <= 50
  {
    PawnTableBounds();
    PawnTable[PawnIndex(isWhite, x, y)]
  }

  /** The knight-table entry for a knight on (x, y), the same for both colours. */
  function KnightBonus(x: Coord, y: Coord): (v: int)
    ensures -50 <= v <= 20
  {
    KnightTableBounds();
    KnightTable[x * 8 + y]
  }

  /** `getAbsoluteValue`: the unsigned worth of a piece on square (x, y).
      Pawns and knights add their table bonus to the base value; every other
      kind is worth its base value wherever it stands. */
  function AbsoluteValue(p: Piece, isWhite: bool, x: Coord, y: Coord): (v: int)
    ensures p.kind == Pawn ==> 80 <= v <= 150
    ensures p.kind == Knight ==> 270 <= v <= 340
    ensures p.kind != Pawn && p.kind != Knight ==> v == BaseValue(p.kind)
    ensures v > 0
  {
    if p.kind == Pawn then
      BaseValue(Pawn) + PawnBonus(isWhite, x, y)
    else if p.kind == Knight then
      BaseValue(Knight) + KnightBonus(x, y)
    else
      BaseValue(p.kind)
  }

  /** `getPieceValue`: the signed worth of a square, 0 when empty, positive
      for a White piece and negative for a Black one. */
  function PieceValueAt(sq: Square, x: Coord, y: Coord): (v: int)
    ensures v == 0 <==> sq.Empty?
    ensures v > 0 <==> sq.Occupied? && sq.piece.color == White
    ensures v < 0 ==> -v == AbsoluteValue(sq.piece, false, x, y)
    ensures v > 0 ==> v == AbsoluteValue(sq.piece, true, x, y)
  {
    match sq
    case Empty => 0
    case Occupied(p) =>
      var absoluteValue := AbsoluteValue(p, p.color == White, x, y);
      if p.color == White then absoluteValue else -absoluteValue
  }

  /** What `evaluateBoard` computes: the total of the signed piece values
      over the 64 squares. */
  function Evaluation(b: Board): int {
    BoardTotal(b, PieceValueAt)
  }

  /** `evaluateBoard`: the nested row/column loops of the source. */
  method EvaluateBoard(b: Board) returns (totalEvaluation: int)
    ensures totalEvaluation == Evaluation(b)
  {
    ghost var c := Terms(b, PieceValueAt);
    totalEvaluation := 0;
    for i := 0 to 8
      invariant totalEvaluation == Sum(c[..8 * i])
    {
      for j := 0 to 8
        invariant totalEvaluation == Sum(c[..8 * i + j])
      {
        SumPrefixStep(c, 8 * i + j);
        TermAt(b, PieceValueAt, i, j);
        totalEvaluation := totalEvaluation + PieceValueAt(b[i][j], i, j);
      }
    }
    assert c[..64] == c;
  }

  /** Changing one square changes the evaluation by exactly the difference
      of that square's signed values. */
  lemma PlaceChangesEvaluation(b: Board, x: Coord, y: Coord, sq: Square)
    ensures Evaluation(Place(b, x, y, sq)) == Evaluation(b) - PieceValueAt(b[x][y], x, y) + PieceValueAt(sq, x, y)
  {
    PlaceChangesOneTerm(b, PieceValueAt, x, y, sq);
  }

  lemma EmptyBoardIsZero()
    ensures Evaluation(EmptyBoard) == 0
  {
    var c := Terms(EmptyBoard, PieceValueAt);
    forall k | 0 <= k < 64
      ensures c[k] == 0
    {
      SquareSplit(k);
      TermAt(EmptyBoard, PieceValueAt, Row(k), Col(k));
    }
    SumZeros(c);
  }

  predicate NoKnights(b: Board) {
    forall x, y :: 0 <= x < 8 && 0 <= y < 8 ==> !(b[x][y].Occupied? && b[x][y].piece.kind == Knight)
  }

  /** A piece other than a knight, moved to the square opposite through the
      centre and given to the other side, keeps its unsigned worth. */
  lemma RotatedAbsoluteValue(p: Piece, isWhite: bool, x: Coord, y: Coord)
    requires p.kind != Knight
    ensures AbsoluteValue(Piece(p.kind, Opposite(p.color)), !isWhite, 7 - x, 7 - y) == AbsoluteValue(p, isWhite, x, y)
  {
    if p.kind == Pawn {
      PawnIndexMirrored(isWhite, x, y);
    }
  }

  /** The pawn table is read mirrored for White, so a pawn on the square
      opposite through the centre with the other colour reads the same entry. */
  lemma PawnIndexMirrored(isWhite: bool, x: Coord, y: Coord)
    ensures PawnIndex(!isWhite, 7 - x, 7 - y) == PawnIndex(isWhite, x, y)
  {
    var i := x * 8 + y;
    assert (7 - x) * 8 + (7 - y) == 63 - i;
  }

  lemma RotatedTerm(b: Board, k: nat)
    requires k < 64
    requires NoKnights(b)
    ensures Terms(Rotated(b), PieceValueAt)[k] == -Terms(b, PieceValueAt)[63 - k]
  {
    var x: int, y: int := Row(63 - k), Col(63 - k);
    SquareSplit(63 - k);
    TermAt(b, PieceValueAt, x, y);
    TermAt(Rotated(b), PieceValueAt, 7 - x, 7 - y);
    assert 8 * (7 - x) + (7 - y) == k;
    RotatedSquare(b, x, y);
  }

  /** On the square opposite through the centre, the rotated board holds
      the original piece with the other colour, worth the negation of the
      original unless it is a knight. */
  lemma RotatedSquare(b: Board, x: Coord, y: Coord)
    requires !(b[x][y].Occupied? && b[x][y].piece.kind == Knight)
    ensures PieceValueAt(Rotated(b)[7 - x][7 - y], 7 - x, 7 - y) == -PieceValueAt(b[x][y], x, y)
  {
    assert Rotated(b)[7 - x][7 - y] == SwapColor(b[x][y]);
    if b[x][y].Occupied? {
      var p := b[x][y].piece;
      RotatedAbsoluteValue(p, p.color == White, x, y);
    }
  }

  /** For a board without knights, turning it round and swapping the
      colours negates the evaluation. */
  lemma RotationNegatesWithoutKnights(b: Board)
    requires NoKnights(b)
    ensures Evaluation(Rotated(b)) == -Evaluation(b)
  {
    var c := Terms(b, PieceValueAt);
    var r := Terms(Rotated(b), PieceValueAt);
    forall k | 0 <= k < 64
      ensures r[k] == -c[63 - k]
    {
      RotatedTerm(b, k);
    }
    SumNegatedReverse(c, r);
  }

  /** Material and piece-square bonuses cancel in the initial position. */
  lemma StartPositionIsLevel()
    ensures Evaluation(StartPosition) == 0
  {
    TotalByRows(StartPosition, PieceValueAt);
    StartBackRanks();
    StartPawnRanks();
    StartEmptyRanks();
  }

  lemma StartBackRanks()
    ensures RowTotal(StartPosition, PieceValueAt, 0) == -23120
    ensures RowTotal(StartPosition, PieceValueAt, 7) == 23120
  {
    KnightTableBounds();
    assert KnightTable[1] == KnightTable[6] == KnightTable[57] == KnightTable[62] == -40;
  }

  lemma StartPawnRanks()
    ensures RowTotal(StartPosition, PieceValueAt, 1) == -1200
    ensures RowTotal(StartPosition, PieceValueAt, 6) == 1200
  {
    PawnTableBounds();
    assert forall k :: 8 <= k < 16 ==> PawnTable[k] == 50;
  }

  lemma StartEmptyRanks()
    ensures RowTotal(StartPosition, PieceValueAt, 2) == 0 && RowTotal(StartPosition, PieceValueAt, 3) == 0
    ensures RowTotal(StartPosition, PieceValueAt, 4) == 0 && RowTotal(StartPosition, PieceValueAt, 5) == 0
  {
  }

  /** An extra White pawn on a square whose table entry is 0 is worth exactly 100. */
  lemma ExtraPawnIsWorthOneHundred()
    ensures Evaluation(Place(StartPosition, 3, 5, Occupied(Piece(Pawn, White)))) == 100
  {
    StartPositionIsLevel();
    PlaceChangesEvaluation(StartPosition, 3, 5, Occupied(Piece(Pawn, White)));
  }

  lemma RotatedLoneKnight()
    ensures Rotated(Place(EmptyBoard, 1, 3, Occupied(Piece(Knight, White))))
         == Place(EmptyBoard, 6, 4, Occupied(Piece(Knight, Black)))
  {
    var b := Place(EmptyBoard, 1, 3, Occupied(Piece(Knight, White)));
    var r := Place(EmptyBoard, 6, 4, Occupied(Piece(Knight, Black)));
    var t := Rotated(b);
    forall x | 0 <= x < 8
      ensures t[x] == r[x]
    {
      forall y | 0 <= y < 8
        ensures t[x][y] == r[x][y]
      {
        assert t[x][y] == SwapColor(b[7 - x][7 - y]);
      }
    }
  }

  /** The knight table is read unmirrored for both colours and is not
      symmetric through the centre on 12 of its squares, so the rotation
      property can fail once a knight stands on one of them: a lone White
      knight on (1, 3) scores 320, its rotated Black counterpart on (6, 4)
      scores -325. */
  lemma KnightBreaksRotation()
    ensures var b := Place(EmptyBoard, 1, 3, Occupied(Piece(Knight, White)));
            Evaluation(b) == 320 && Evaluation(Rotated(b)) == -325
  {
    RotatedLoneKnight();
    EmptyBoardIsZero();
    PlaceChangesEvaluation(EmptyBoard, 1, 3, Occupied(Piece(Knight, White)));
    PlaceChangesEvaluation(EmptyBoard, 6, 4, Occupied(Piece(Knight, Black)));
  }
}
