# Chess engine core of `js/main.js`

This project models the small chess engine built into the page script
`js/main.js` and proves properties of it in Dafny. The page lets a player
play against the computer. Everything else in that script is user-interface
glue. The engine has five parts:

- **The static evaluator** (`evaluateBoard`, `getPieceValue`,
  `getAbsoluteValue`, and the `pieceValues`, `pawnTable` and `knightTable`
  tables). It scores a board as the sum of 64 signed per-square values:
  - a piece's base value, positive for White and negative for Black;
  - plus a piece-square bonus for pawns and knights.

  A White pawn reads the pawn table from the far end and a Black pawn from
  the near end. A knight of either colour reads the knight table at `8x+y`,
  unmirrored.
- **The search** (`minimax`). It is a depth-bounded minimax with alpha-beta
  pruning:
  - it runs on the rules engine's position object, which it changes in place
    with `game.move` and `game.undo`;
  - leaves score `-evaluateBoard`;
  - a maximising node starts from -9999 and a minimising node from 9999;
  - a node returns as soon as its window closes, after taking its move back.
- **The root selector** (`calculateBestMove`). It searches every root move
  to `depth - 1` with window (-10000, 10000) as a minimising node. It keeps
  the last move whose score is at least the running best, starting from -9999,
  and returns no move when no score reaches that.
- **The clock**. Each `updateClock` tick charges the side to move one second
  and stops the game when that side's time runs out. `formatTime` renders a
  time as `m:ss`.
- **The material counter** (`calculateMaterial`). It sums one side's base
  values and rounds down to whole pawns.

The modules follow this split:

- `Basics` (basics.dfy) holds `Option`, `Max` and `Min`.
- `Pieces` (pieces.dfy) holds the board: an 8x8 grid of optional coloured
  pieces, with row 0 first.
- `BoardSums` (board_sum.dfy) holds the row-by-row 64-square total that the
  evaluator and the material counter both loop over.
- `Evaluator` (evaluation.dfy) holds the static evaluator.
- `Search` (search.dfy) holds the search and the root selector.
- `Clock` (clock.dfy) holds the clock and the time rendering.
- `Statistics` (statistics.dfy) holds the material counter.

The rules engine (chess.js) is a separate library. The model sees it only
through a record `Rules<P, M>`, which gives three things:

- the legal moves of a position, in the engine's fixed order;
- the position a move leads to;
- the board of a position.

`Game` is a class that holds the current position and the stack of earlier
positions. Its `Move` and `Undo` methods change these in place, as the engine
does. `Game.Minimax` and `Game.CalculateBestMove` are the source's loops
written over this class, and each is proved against a pure specification
function. Alpha-beta pruning is proved sound against an unpruned minimax
that uses the same leaves and seeds, `PlainMinimax`.

The search's seeds have consequences the model makes explicit:

- From depth 3 on, a position with a legal move always yields a move
  (`DeepSearchAlwaysChooses`).
- At depth 1, if every move leaves White more than 9999 ahead, no move is
  chosen although moves exist (`ShallowSearchCanPass`).
- Pruning never changes the chosen move. A pruned root score either equals
  the plain minimax score or both lie below -9999, where the selector ignores
  them (`PrunedChoiceMatchesPlain`). A root score can fall below -10000 only
  at depth 1 or 2. When none does, the pruned and plain root scores are equal.

Both colours read the knight table unmirrored. Colour symmetry is proved
for every board without knights (`RotationNegatesWithoutKnights`): turning
the board round and swapping colours negates the evaluation. The knight
table is point-symmetric on 52 of its 64 squares, so the symmetry can fail
only once a knight stands on one of the other 12. `KnightBreaksRotation`
exhibits such a board.

## Model

| member | source | states |
|---|---|---|
| `Evaluator.PawnTableBounds` | js/main.js:28-37 | The pawn table has 64 entries, each in [-20, 50]. |
| `Evaluator.KnightTableBounds` | js/main.js:39-48 | The knight table has 64 entries, each in [-50, 20]. |
| `Evaluator.PawnIndex` | js/main.js:182 | A pawn reads a pawn-table entry inside the table: 63 - (8x+y) for White, 8x+y for Black. |
| `Evaluator.PawnBonus` | js/main.js:182 | A pawn's table bonus lies in [-20, 50]. |
| `Evaluator.KnightBonus` | js/main.js:184 | A knight's table bonus lies in [-50, 20], whatever its colour. |
| `Evaluator.PawnIndexMirrored` | js/main.js:182 | A pawn of the other colour, on the square opposite through the centre, reads the same pawn-table entry. |
| `Evaluator.AbsoluteValue` | js/main.js:180-188 | A pawn is worth 80..150 and a knight 270..340. Any other kind is worth exactly its `pieceValues` entry on every square. That entry is `BaseValue`, the table of js/main.js:23-26. Every piece is worth more than 0. |
| `Evaluator.PieceValueAt` | js/main.js:173-178 | A square scores 0 exactly when it is empty. It scores positive exactly when it holds a White piece, and then equals the piece's absolute value. A negative score is minus the absolute value of a Black piece. |
| `Evaluator.EvaluateBoard` | js/main.js:161-171 | The nested row/column loop returns the sum of the 64 per-square values, taken in row-major order. |
| `BoardSums.PlaceChangesOneTerm` | js/main.js:165-169 | Replacing one square changes a 64-square total by exactly the change in that square's term. |
| `BoardSums.TotalByRows` | js/main.js:165-169 | A 64-square total equals the sum of the eight inner-loop passes, one per row. |
| `Evaluator.PlaceChangesEvaluation` | js/main.js:161-178 | Changing one square changes the evaluation by exactly the difference of that square's old and new signed values. |
| `Evaluator.EmptyBoardIsZero` | js/main.js:161-178 | An empty board evaluates to 0. |
| `Evaluator.RotatedAbsoluteValue` | js/main.js:180-188 | A non-knight piece keeps its absolute value when it moves to the square opposite through the centre and changes colour. This is where the pawn table's mirrored reading for White matters. |
| `Evaluator.RotatedSquare` | js/main.js:173-188 | For a square without a knight, the rotated board's opposite square holds the piece with its colour swapped, and its signed value is negated. |
| `Evaluator.RotatedTerm` | js/main.js:161-188 | On a knight-free board, term k of the rotated board is minus term 63-k of the original. |
| `Evaluator.RotationNegatesWithoutKnights` | js/main.js:161-188 | On a board without knights, turning the board round and swapping colours negates the evaluation. |
| `Evaluator.StartPositionIsLevel` | js/main.js:161-188 | The standard initial position evaluates to 0. |
| `Evaluator.ExtraPawnIsWorthOneHundred` | js/main.js:180-182 | Adding a White pawn on a square whose pawn-table entry is 0 raises the evaluation of the initial position to exactly 100. |
| `Evaluator.KnightBreaksRotation` | js/main.js:183-184 | A lone White knight on (1, 3) scores 320. The rotated board, a Black knight on (6, 4), scores -325, not -320. |
| `Search.AlphaBeta` | js/main.js:190-218 | A leaf returns minus the evaluation. An inner node without moves returns its seed: -9999 when maximising, 9999 when minimising. An inner maximising node returns at least -9999, and an inner minimising node at most 9999. |
| `Search.AlphaBetaLoop` | js/main.js:197-216 | From any point of a node's move loop, the result is at least the running best when maximising and at most it when minimising. |
| `Search.PlainMinimax` | js/main.js:190-218 | The unpruned reference search has the same leaves and seeds, and the same bounds at inner nodes. |
| `Search.PlainMinimaxLoop` | js/main.js:199-205 | The unpruned move loop returns at least (maximising) or at most (minimising) its running best. |
| `Search.PlainLoopFactor` | js/main.js:199-205 | The unpruned loop folds max (or min) over the children, so a value folded into its start can be taken out again. |
| `Search.AlphaBetaSound` | js/main.js:190-218 | For alpha < beta, clamping the pruned result into [alpha, beta] gives the same value as clamping the plain minimax value. |
| `Search.AlphaBetaLoopSound` | js/main.js:197-216 | The clamp equality holds for every suffix of a node's move loop, whatever its running window and best, cutoffs included. |
| `Search.AlphaBetaAgreesWithMinimax` | js/main.js:190-218 | For alpha < beta and plain value v: if alpha < v < beta, the pruned result equals v. If v <= alpha, it is <= alpha. If v >= beta, it is >= beta. |
| `Search.DeepNodeBounds` | js/main.js:197-216 | A node of depth two or more returns a value in [-9999, 9999], whichever side is to move. |
| `Search.DeepLoopBounds` | js/main.js:199-215 | At depth two or more, a move loop started in [-9999, 9999] stays there. |
| `Search.RootScores` | js/main.js:225-229 | There is one root score per legal move, in the engine's order. |
| `Search.PlainRootScores` | js/main.js:225-229 | The unpruned search gives one root score per legal move. |
| `Search.SelectLast` | js/main.js:222-234 | With the -9999 seed and the `>=` test, the selector returns one of two things. If some score reaches -9999, it returns the last position holding the highest score, with nothing later reaching it. Otherwise it returns no position, exactly when every score is below -9999. |
| `Search.BestMove` | js/main.js:220-236 | A returned move is one of the legal moves. No move is returned exactly when every root score is below -9999, which includes the case of no legal moves. |
| `Search.RootScoreMatchesPlain` | js/main.js:225-229 | A root score is at most 9999 from depth 2 on. It equals the plain minimax score whenever that score exceeds -10000. |
| `Search.SelectLastIgnoresSubSeed` | js/main.js:223-233 | Two score lists that agree at every position, or are both below -9999 there, lead the selector to the same choice. |
| `Search.RootScoreAgreesAboveSeed` | js/main.js:225-229 | Each pruned root score equals the plain minimax score, or both are below -9999. |
| `Search.PrunedChoiceMatchesPlain` | js/main.js:220-236 | At every depth >= 1, the pruned search chooses the same move as selecting over the plain minimax root scores. When no plain root score drops to -10000 or below, the pruned root scores equal the plain ones. |
| `Search.DeepSearchAlwaysChooses` | js/main.js:220-236 | From depth 3 on, a position with a legal move always yields a move. |
| `Search.ShallowSearchCanPass` | js/main.js:220-236 | At depth 1, when every move leaves White more than 9999 ahead, no move is chosen. |
| `Search.Game.constructor` | js/main.js:5 | A new game holds the given rules, the start position and an empty undo stack. |
| `Search.Game.Move` | js/main.js:200 | A legal move is applied and the previous position pushed. An illegal move changes nothing and reports failure. |
| `Search.Game.Undo` | js/main.js:202 | The most recent position is popped back. With nothing to take back, nothing changes and failure is reported. |
| `Search.Game.Minimax` | js/main.js:190-218 | The method returns the pruned search value of the current position. The position and undo stack are exactly as it found them, cutoff returns included. |
| `Search.Game.CalculateBestMove` | js/main.js:220-236 | The method returns the selector's choice over the root scores. The position and undo stack are exactly as it found them. |
| `Clock.Tick` | js/main.js:349-378 | A stopped clock or a finished game changes nothing. Otherwise only the active side's time moves: down by one, never below 0. The game keeps running exactly while that time is above 0. The active side and the other side's time never change. |
| `Clock.FlagFallsAfterRemainingTime` | js/main.js:349-378 | With t seconds left for the side to move, the game runs for t - 1 ticks with that time counting down. It stops on the t-th tick with that time at 0, and stays stopped. |
| `Clock.ChessClock.constructor` | js/main.js:546-554 | A new game gives both sides the chosen time control, White to move and the game running. |
| `Clock.ChessClock.UpdateClock` | js/main.js:349-378 | One call moves the clock's fields exactly as one `Tick`. |
| `Clock.DigitChar` | js/main.js:401 | A digit in 0..9 renders as a decimal digit character. |
| `Clock.NatToString` | js/main.js:401 | A non-negative integer renders as a non-empty string of decimal digits. |
| `Clock.PaddedSeconds` | js/main.js:401 | For 0 <= secs < 60, the optional "0" followed by the number is exactly two digits: tens, then units. |
| `Clock.JsRemainder` | js/main.js:400 | JavaScript's `%` with a positive divisor n: the remainder has the sign of the dividend and lies within n of zero. Together with the quotient rounded toward zero, it rebuilds the dividend. |
| `Clock.FormatTime` | js/main.js:398-402 | For a time s >= 0, the display is the minutes s / 60 in decimal, a colon, and the two digits of s mod 60. |
| `Clock.DigitsOfNat` | js/main.js:401 | Reading back the decimal digits of n gives n. |
| `Clock.FormatTimeRoundTrip` | js/main.js:398-402 | For s >= 0, the display reads back as minutes times 60 plus seconds, which is s. |
| `Statistics.MaterialTerm` | js/main.js:468-471 | A square adds a positive amount to a side's material exactly when it holds that side's piece, and nothing otherwise. |
| `Statistics.RawMaterial` | js/main.js:463-474 | A side's material before rounding is never negative. |
| `Statistics.CalculateMaterial` | js/main.js:463-477 | The nested loop returns the side's total base value divided by 100 and rounded down. 100 times the result is within one pawn below the raw total. |
| `Statistics.MaterialByRows` | js/main.js:466-473 | A side's raw material is the sum of its eight row passes. |
| `Statistics.StartMaterial` | js/main.js:463-477 | In the initial position each side counts 240: eight pawns, two knights, two bishops, two rooks, a queen and the king's 20000, in centipawns, divided by 100. |
| `Statistics.StartMaterialWhite` | js/main.js:463-474 | In the initial position White's raw material is 24000 centipawns. |
| `Statistics.StartMaterialBlack` | js/main.js:463-474 | In the initial position Black's raw material is 24000 centipawns. |
| `Statistics.CaptureLowersMaterial` | js/main.js:468-471 | Emptying a square holding a piece lowers its owner's raw material by the piece's base value. The opponent's raw material is unchanged. |
| `Statistics.EvaluationIsMaterialDifference` | js/main.js:173-188 | On a board without pawns or knights, the evaluation is White's raw material minus Black's. |

## Left out

- The rules engine (chess.js) is not part of this model. `Rules<P, M>` stands for it, with three functions: `moves` (legal-move generation), `apply` (the position a move leads to) and `board` (the board of a position). Positions and moves are type parameters. `game_over` is the `gameOver` parameter of `Clock.Tick` and `Clock.ChessClock.UpdateClock`.
- `Game.Undo` restores a stored position; the engine reverses the last move. Observably they are the same, provided the engine's `undo` inverts its `move`, which the model takes as given.
- All DOM and jQuery updates, chessboard.js handlers, sound, timers (`setTimeout`, `setInterval`), `saveGame`/`loadGame`, `exportToPGN`, `recalculateCapturedPieces` and the SAN lookup in `makeAIMove` are left out. They are user-interface glue or I/O around the engine.
- `Clock.ChessClock.UpdateClock` does not model the display refresh, the `pauseClock` call, the status message or the sound. `gameOver` is a parameter standing for `game.game_over()`.
- `Search.Game.CalculateBestMove`: requires depth >= 1. At depth 0 the source calls `minimax` with depth -1, which never reaches its `depth === 0` base case.
- JavaScript numbers are modelled as unbounded integers. Every value the engine computes stays far inside the range where doubles are exact.
- The `|| 0` fallback of `calculateMaterial` is not modelled: every piece kind has a `pieceValues` entry, so it never applies.
- `Clock.FormatTime`: its contract covers non-negative times only. For a negative input the function follows JavaScript's floor division and sign-keeping remainder, but no property of that output is proved. The clock never shows a negative time.
