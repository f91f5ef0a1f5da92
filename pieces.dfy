/** The board as the rules engine hands it to the engine: an 8x8 grid, row 0
    first (rank 8, Black's back rank, in the standard set-up), each square
    empty or holding a piece of some kind and colour. */
module Pieces {

  datatype Color = White | Black

  datatype Kind = Pawn | Knight | Bishop | Rook | Queen | King

  datatype Piece = Piece(kind: Kind, color: Color)

  /** `null` or a piece object, as one entry of `game.board()`. */
  datatype Square = Empty | Occupied(piece: Piece)

  /** A row or column index. */
  type Coord = i: int | 0 <= i < 8

  /** Row-major 8x8 grid. */
  type Board = b: seq<seq<Square>> | |b| == 8 && forall x :: 0 <= x < |b| ==> |b[x]| == 8
    witness seq(8, _ => seq(8, _ => Empty))

  function Opposite(c: Color): Color {
    if c == White then Black else White
  }

  /** The same square with the piece (if any) handed to the other side. */
  function SwapColor(sq: Square): Square {
    match sq
    case Empty => Empty
    case Occupied(p) => Occupied(Piece(p.kind, Opposite(p.color)))
  }

  /** `b` with square (x, y) replaced by `sq`. */
  function Place(b: Board, x: Coord, y: Coord, sq: Square): (r: Board)
    ensures r[x][y] == sq
    ensures forall i, j :: 0 <= i < 8 && 0 <= j < 8 && (i, j) != (x, y) ==> r[i][j] == b[i][j]
  {
    b[x := b[x][y := sq]]
  }

  /** The board turned through 180 degrees with every piece changing sides. */
  function Rotated(b: Board): (r: Board)
    ensures forall x, y :: 0 <= x < 8 && 0 <= y < 8 ==> r[x][y] == SwapColor(b[7 - x][7 - y])
  {
    seq(8, x requires 0 <= x < 8 => RotatedRow(b, x))
  }

  /** Row x of the rotated board: row 7-x read right to left. */
  function RotatedRow(b: Board, x: Coord): (r: seq<Square>)
    ensures |r| == 8
    ensures forall y :: 0 <= y < 8 ==> r[y] == SwapColor(b[7 - x][7 - y])
  {
    seq(8, y requires 0 <= y < 8 => SwapColor(b[7 - x][7 - y]))
  }

  const EmptyRow: seq<Square> := [Empty, Empty, Empty, Empty, Empty, Empty, Empty, Empty]

  const EmptyBoard: Board := [EmptyRow, EmptyRow, EmptyRow, EmptyRow, EmptyRow, EmptyRow, EmptyRow, EmptyRow]

  function BackRank(c: Color): seq<Square> {
    [Occupied(Piece(Rook, c)), Occupied(Piece(Knight, c)), Occupied(Piece(Bishop, c)), Occupied(Piece(Queen, c)),
     Occupied(Piece(King, c)), Occupied(Piece(Bishop, c)), Occupied(Piece(Knight, c)), Occupied(Piece(Rook, c))]
  }

  function PawnRank(c: Color): seq<Square> {
    var p := Occupied(Piece(Pawn, c));
    [p, p, p, p, p, p, p, p]
  }

  /** The standard initial position, as `game.board()` returns it after `game.reset()`. */
  const StartPosition: Board :=
    [BackRank(Black), PawnRank(Black), EmptyRow, EmptyRow, EmptyRow, EmptyRow, PawnRank(White), BackRank(White)]
}
