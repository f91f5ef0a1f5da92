/** The game-tree search: depth-bounded minimax with alpha-beta pruning on
    a position shared with the rules engine and changed in place by
    move/undo, and the root move selector built on it. */
module Search {
  import opened Basics
  import opened Pieces
  import opened Evaluator

  /** The rules engine (chess.js) as the search sees it: the legal moves of
      a position in the engine's fixed order, the position a move leads to,
      and the board of a position. */
  datatype Rules<!P, !M> = Rules(moves: P -> seq<M>, apply: (P, M) -> P, board: P -> Board)

  /** The starting value of `bestMove` at an inner node. */
  function Seed(maximizing: bool): int { if maximizing then -9999 else 9999 }

  /** The better of two scores for the side at the node. */
  function Better(maximizing: bool, x: int, y: int): int { if maximizing then Max(x, y) else Min(x, y) }

  /** `v` brought into the window [alpha, beta]. */
  function Clamp(v: int, alpha: int, beta: int): int { Max(alpha, Min(v, beta)) }

  /** What `minimax(depth, game, alpha, beta, maximizing)` returns when
      called on position `p`: a leaf scores the negated evaluation, an inner
      node runs the move loop from its seed. */
  function AlphaBeta<P, M>(r: Rules<P, M>, p: P, depth: nat, alpha: int, beta: int, maximizing: bool): (v: int)
    ensures depth == 0 ==> v == -Evaluation(r.board(p))
    ensures depth > 0 && r.moves(p) == [] ==> v == Seed(maximizing)
    ensures depth > 0 && maximizing ==> v >= -9999
    ensures depth > 0 && !maximizing ==> v <= 9999
    decreases depth, 1
  {
    if depth == 0 then -Evaluation(r.board(p))
    else AlphaBetaLoop(r, p, depth, 0, alpha, beta, Seed(maximizing), maximizing)
  }

  /** The move loop of an inner node from the i-th move on, with the
      window and running best it has reached there. A cutoff returns the
      running best at once, skipping the remaining moves. */
  function AlphaBetaLoop<P, M>(r: Rules<P, M>, p: P, depth: nat, i: nat, alpha: int, beta: int, best: int,
                               maximizing: bool): (v: int)
    requires depth > 0 && i <= |r.moves(p)|
    ensures maximizing ==> v >= best
    ensures !maximizing ==> v <= best
    decreases depth, 0, |r.moves(p)| - i
  {
    if i == |r.moves(p)| then best
    else
      var child := AlphaBeta(r, r.apply(p, r.moves(p)[i]), depth - 1, alpha, beta, !maximizing);
      if maximizing then
        var best' := Max(best, child);
        var alpha' := Max(alpha, best');
        if beta <= alpha' then best' else AlphaBetaLoop(r, p, depth, i + 1, alpha', beta, best', maximizing)
      else
        var best' := Min(best, child);
        var beta' := Min(beta, best');
        if beta' <= alpha then best' else AlphaBetaLoop(r, p, depth, i + 1, alpha, beta', best', maximizing)
  }

  /** Plain minimax over the same tree, with the same leaves and seeds and
      no cutoffs: the reference the pruned search is measured against. */
  function PlainMinimax<P, M>(r: Rules<P, M>, p: P, depth: nat, maximizing: bool): (v: int)
    ensures depth > 0 && maximizing ==> v >= -9999
    ensures depth > 0 && !maximizing ==> v <= 9999
    decreases depth, 1
  {
    if depth == 0 then -Evaluation(r.board(p))
    else PlainMinimaxLoop(r, p, depth, 0, Seed(maximizing), maximizing)
  }

  function PlainMinimaxLoop<P, M>(r: Rules<P, M>, p: P, depth: nat, i: nat, best: int, maximizing: bool): (v: int)
    requires depth > 0 && i <= |r.moves(p)|
    ensures maximizing ==> v >= best
    ensures !maximizing ==> v <= best
    decreases depth, 0, |r.moves(p)| - i
  {
    if i == |r.moves(p)| then best
    else
      var child := PlainMinimax(r, r.apply(p, r.moves(p)[i]), depth - 1, !maximizing);
      PlainMinimaxLoop(r, p, depth, i + 1, Better(maximizing, best, child), maximizing)
  }

  /** The plain loop folds Max (or Min) over the children, so a value folded
      into its start can be taken out again. */
  lemma {:induction false} PlainLoopFactor<P, M>(r: Rules<P, M>, p: P, depth: nat, i: nat, x: int, y: int,
                                                 maximizing: bool)
    requires depth > 0 && i <= |r.moves(p)|
    ensures PlainMinimaxLoop(r, p, depth, i, Better(maximizing, x, y), maximizing)
         == Better(maximizing, x, PlainMinimaxLoop(r, p, depth, i, y, maximizing))
    decreases |r.moves(p)| - i
  {
    if i < |r.moves(p)| {
      var child := PlainMinimax(r, r.apply(p, r.moves(p)[i]), depth - 1, !maximizing);
      assert Better(maximizing, Better(maximizing, x, y), child) == Better(maximizing, x, Better(maximizing, y, child));
      PlainLoopFactor(r, p, depth, i + 1, x, Better(maximizing, y, child), maximizing);
    }
  }

  /** Alpha-beta soundness: inside the window the pruned search returns
      exactly the plain minimax value, and at or beyond an edge of the
      window it returns a value at or beyond the same edge. */
  lemma {:induction false} AlphaBetaSound<P, M>(r: Rules<P, M>, p: P, depth: nat, alpha: int, beta: int,
                                               maximizing: bool)
    requires alpha < beta
    ensures Clamp(AlphaBeta(r, p, depth, alpha, beta, maximizing), alpha, beta)
         == Clamp(PlainMinimax(r, p, depth, maximizing), alpha, beta)
    decreases depth, 1
  {
    if depth > 0 {
      AlphaBetaLoopSound(r, p, depth, 0, alpha, beta, Seed(maximizing), maximizing);
    }
  }

  // Window arithmetic for one step of the move loop. `c` is the pruned
  // child value, `cp` the plain one, `rest` the plain value of the remaining
  // siblings folded from `best`.

  lemma MaxStepCutoff(alpha: int, beta: int, best: int, c: int, cp: int, rest: int)
    requires alpha < beta && Clamp(c, alpha, beta) == Clamp(cp, alpha, beta) && rest >= best
    requires beta <= Max(alpha, Max(best, c))
    ensures Clamp(Max(best, c), alpha, beta) == Clamp(Max(cp, rest), alpha, beta)
  {
  }

  lemma MaxStepContinue(alpha: int, beta: int, best: int, c: int, cp: int, rest: int, v: int)
    requires alpha < beta && Clamp(c, alpha, beta) == Clamp(cp, alpha, beta) && rest >= best
    requires Max(alpha, Max(best, c)) < beta && v >= Max(best, c)
    requires Clamp(v, Max(alpha, Max(best, c)), beta) == Clamp(Max(c, rest), Max(alpha, Max(best, c)), beta)
    ensures Clamp(v, alpha, beta) == Clamp(Max(cp, rest), alpha, beta)
  {
  }

  lemma MinStepCutoff(alpha: int, beta: int, best: int, c: int, cp: int, rest: int)
    requires alpha < beta && Clamp(c, alpha, beta) == Clamp(cp, alpha, beta) && rest <= best
    requires Min(beta, Min(best, c)) <= alpha
    ensures Clamp(Min(best, c), alpha, beta) == Clamp(Min(cp, rest), alpha, beta)
  {
  }

  lemma MinStepContinue(alpha: int, beta: int, best: int, c: int, cp: int, rest: int, v: int)
    requires alpha < beta && Clamp(c, alpha, beta) == Clamp(cp, alpha, beta) && rest <= best
    requires alpha < Min(beta, Min(best, c)) && v <= Min(best, c)
    requires Clamp(v, alpha, Min(beta, Min(best, c))) == Clamp(Min(c, rest), alpha, Min(beta, Min(best, c)))
    ensures Clamp(v, alpha, beta) == Clamp(Min(cp, rest), alpha, beta)
  {
  }

  lemma {:induction false} AlphaBetaLoopSound<P, M>(r: Rules<P, M>, p: P, depth: nat, i: nat, alpha: int, beta: int,
                                                   best: int, maximizing: bool)
    requires depth > 0 && i <= |r.moves(p)|
    requires alpha < beta
    ensures Clamp(AlphaBetaLoop(r, p, depth, i, alpha, beta, best, maximizing), alpha, beta)
         == Clamp(PlainMinimaxLoop(r, p, depth, i, best, maximizing), alpha, beta)
    decreases depth, 0, |r.moves(p)| - i
  {
    if i < |r.moves(p)| {
      var q := r.apply(p, r.moves(p)[i]);
      var c := AlphaBeta(r, q, depth - 1, alpha, beta, !maximizing);
      var cp := PlainMinimax(r, q, depth - 1, !maximizing);
      AlphaBetaSound(r, q, depth - 1, alpha, beta, !maximizing);
      var rest := PlainMinimaxLoop(r, p, depth, i + 1, best, maximizing);
      PlainLoopFactor(r, p, depth, i + 1, cp, best, maximizing);
      PlainLoopFactor(r, p, depth, i + 1, c, best, maximizing);
      var best' := Better(maximizing, best, c);
      assert PlainMinimaxLoop(r, p, depth, i, best, maximizing) == Better(maximizing, cp, rest);
      assert PlainMinimaxLoop(r, p, depth, i + 1, best', maximizing) == Better(maximizing, c, rest);
      if maximizing {
        var alpha' := Max(alpha, best');
        if beta <= alpha' {
          MaxStepCutoff(alpha, beta, best, c, cp, rest);
        } else {
          AlphaBetaLoopSound(r, p, depth, i + 1, alpha', beta, best', maximizing);
          var v := AlphaBetaLoop(r, p, depth, i + 1, alpha', beta, best', maximizing);
          MaxStepContinue(alpha, beta, best, c, cp, rest, v);
        }
      } else {
        var beta' := Min(beta, best');
        if beta' <= alpha {
          MinStepCutoff(alpha, beta, best, c, cp, rest);
        } else {
          AlphaBetaLoopSound(r, p, depth, i + 1, alpha, beta', best', maximizing);
          var v := AlphaBetaLoop(r, p, depth, i + 1, alpha, beta', best', maximizing);
          MinStepContinue(alpha, beta, best, c, cp, rest, v);
        }
      }
    }
  }

  /** Alpha-beta soundness in the three cases of the window. */
  lemma AlphaBetaAgreesWithMinimax<P, M>(r: Rules<P, M>, p: P, depth: nat, alpha: int, beta: int, maximizing: bool)
    requires alpha < beta
    ensures var v := PlainMinimax(r, p, depth, maximizing);
            var w := AlphaBeta(r, p, depth, alpha, beta, maximizing);
            (alpha < v < beta ==> w == v) && (v <= alpha ==> w <= alpha) && (v >= beta ==> w >= beta)
  {
    AlphaBetaSound(r, p, depth, alpha, beta, maximizing);
  }

  /** The score `calculateBestMove` gives each root move, in the engine's
      order: the move is searched to depth-1 with window (-10000, 10000) as a
      minimising node. */
  function RootScores<P, M>(r: Rules<P, M>, p: P, depth: nat): (scores: seq<int>)
    requires depth >= 1
    ensures |scores| == |r.moves(p)|
  {
    var ms := r.moves(p);
    seq(|ms|, i requires 0 <= i < |ms| => AlphaBeta(r, r.apply(p, ms[i]), depth - 1, -10000, 10000, false))
  }

  /** The root scores of plain minimax, for comparison. */
  function PlainRootScores<P, M>(r: Rules<P, M>, p: P, depth: nat): (scores: seq<int>)
    requires depth >= 1
    ensures |scores| == |r.moves(p)|
  {
    var ms := r.moves(p);
    seq(|ms|, i requires 0 <= i < |ms| => PlainMinimax(r, r.apply(p, ms[i]), depth - 1, false))
  }

  /** The running (bestMove index, bestValue) of the root loop after it has
      seen `scores`: starting from (none, -9999), a score at least as high as
      the running value replaces it. The result is the last position of the
      highest score, provided that score reaches -9999, and none otherwise. */
  function SelectLast(scores: seq<int>): (choice: (Option<nat>, int))
    ensures choice.0.None? <==> forall k :: 0 <= k < |scores| ==> scores[k] < -9999
    ensures choice.0.None? ==> choice.1 == -9999
    ensures choice.0.Some? ==>
              && choice.0.value < |scores|
              && choice.1 == scores[choice.0.value] >= -9999
              && (forall k :: 0 <= k < |scores| ==> scores[k] <= choice.1)
              && (forall k :: choice.0.value < k < |scores| ==> scores[k] < choice.1)
  {
    if scores == [] then (None, -9999)
    else
      var n := |scores| - 1;
      var before := SelectLast(scores[..n]);
      if scores[n] >= before.1 then (Some(n), scores[n]) else before
  }

  /** One more score either takes over the selection or leaves it alone. */
  lemma SelectLastStep(scores: seq<int>, i: nat)
    requires i < |scores|
    ensures var before := SelectLast(scores[..i]);
            SelectLast(scores[..i + 1]) == if scores[i] >= before.1 then (Some(i), scores[i]) else before
  {
    assert scores[..i + 1][..i] == scores[..i];
  }

  function MoveAt<M>(ms: seq<M>, index: Option<nat>): Option<M> {
    match index
    case Some(i) => if i < |ms| then Some(ms[i]) else None
    case None => None
  }

  /** What `calculateBestMove(depth)` returns on position `p`. */
  function BestMove<P, M>(r: Rules<P, M>, p: P, depth: nat): (best: Option<M>)
    requires depth >= 1
    ensures best.Some? ==> best.value in r.moves(p)
    ensures best.None? <==> forall k :: 0 <= k < |r.moves(p)| ==> RootScores(r, p, depth)[k] < -9999
  {
    MoveAt(r.moves(p), SelectLast(RootScores(r, p, depth)).0)
  }

  /** A root move scores at most 9999, and exactly its plain minimax value
      unless that value falls to -10000 or below. */
  lemma {:induction false} RootScoreMatchesPlain<P, M>(r: Rules<P, M>, p: P, depth: nat, k: nat)
    requires depth >= 1 && k < |r.moves(p)|
    ensures depth >= 2 ==> RootScores(r, p, depth)[k] <= 9999
    ensures PlainRootScores(r, p, depth)[k] > -10000 ==> RootScores(r, p, depth)[k] == PlainRootScores(r, p, depth)[k]
  {
    var q := r.apply(p, r.moves(p)[k]);
    AlphaBetaAgreesWithMinimax(r, q, depth - 1, -10000, 10000, false);
  }

  /** Scores that agree, or are both below the seed -9999, lead the
      selector to the same choice: a score below -9999 never takes over. */
  lemma {:induction false} SelectLastIgnoresSubSeed(s: seq<int>, t: seq<int>)
    requires |s| == |t|
    requires forall k :: 0 <= k < |s| ==> s[k] == t[k] || (s[k] < -9999 && t[k] < -9999)
    ensures SelectLast(s) == SelectLast(t)
    decreases |s|
  {
    if s != [] {
      var n := |s| - 1;
      SelectLastIgnoresSubSeed(s[..n], t[..n]);
    }
  }

  /** A pruned root score is the plain one, or both are below -9999. */
  lemma RootScoreAgreesAboveSeed<P, M>(r: Rules<P, M>, p: P, depth: nat, k: nat)
    requires depth >= 1 && k < |r.moves(p)|
    ensures var w := RootScores(r, p, depth)[k];
            var v := PlainRootScores(r, p, depth)[k];
            w == v || (w < -9999 && v < -9999)
  {
    var q := r.apply(p, r.moves(p)[k]);
    AlphaBetaAgreesWithMinimax(r, q, depth - 1, -10000, 10000, false);
  }

  /** Pruning never changes the chosen move: the pruned root scores pick the
      same move as the plain minimax scores. When no plain root score drops
      to -10000 or below, the root scores themselves are the same. */
  lemma PrunedChoiceMatchesPlain<P, M>(r: Rules<P, M>, p: P, depth: nat)
    requires depth >= 1
    ensures BestMove(r, p, depth) == MoveAt(r.moves(p), SelectLast(PlainRootScores(r, p, depth)).0)
    ensures (forall k :: 0 <= k < |r.moves(p)| ==> PlainRootScores(r, p, depth)[k] > -10000) ==>
              RootScores(r, p, depth) == PlainRootScores(r, p, depth)
  {
    var w := RootScores(r, p, depth);
    var v := PlainRootScores(r, p, depth);
    forall k | 0 <= k < |r.moves(p)|
      ensures w[k] == v[k] || (w[k] < -9999 && v[k] < -9999)
      ensures v[k] > -10000 ==> w[k] == v[k]
    {
      RootScoreAgreesAboveSeed(r, p, depth, k);
      RootScoreMatchesPlain(r, p, depth, k);
    }
    SelectLastIgnoresSubSeed(w, v);
  }

  /** Below a leaf-parent the seeds bound the value from the other side as
      well: a minimising node of depth two or more never returns less than
      -9999, since each of its children is a maximising node that returns at
      least that; symmetrically for a maximising node. */
  lemma {:induction false} DeepNodeBounds<P, M>(r: Rules<P, M>, p: P, depth: nat, alpha: int, beta: int,
                                               maximizing: bool)
    requires depth >= 2
    ensures -9999 <= AlphaBeta(r, p, depth, alpha, beta, maximizing) <= 9999
  {
    DeepLoopBounds(r, p, depth, 0, alpha, beta, Seed(maximizing), maximizing);
  }

  lemma {:induction false} DeepLoopBounds<P, M>(r: Rules<P, M>, p: P, depth: nat, i: nat, alpha: int, beta: int,
                                               best: int, maximizing: bool)
    requires depth >= 2 && i <= |r.moves(p)|
    requires -9999 <= best <= 9999
    ensures -9999 <= AlphaBetaLoop(r, p, depth, i, alpha, beta, best, maximizing) <= 9999
    decreases |r.moves(p)| - i
  {
    if i < |r.moves(p)| {
      var child := AlphaBeta(r, r.apply(p, r.moves(p)[i]), depth - 1, alpha, beta, !maximizing);
      if maximizing {
        DeepLoopBounds(r, p, depth, i + 1, Max(alpha, Max(best, child)), beta, Max(best, child), maximizing);
      } else {
        DeepLoopBounds(r, p, depth, i + 1, alpha, Min(beta, Min(best, child)), Min(best, child), maximizing);
      }
    }
  }

  /** From depth three on, every root score is at least the selector's seed
      -9999, so a position with a legal move always yields a move. At depth
      one or two a root score is (or may be) a negated evaluation, which can
      fall below -9999; the selector then skips that move, and no move is
      chosen only when every root score falls below -9999. */
  lemma DeepSearchAlwaysChooses<P, M>(r: Rules<P, M>, p: P, depth: nat)
    requires depth >= 3 && r.moves(p) != []
    ensures BestMove(r, p, depth).Some?
  {
    var ms := r.moves(p);
    DeepNodeBounds(r, r.apply(p, ms[0]), depth - 1, -10000, 10000, false);
    assert RootScores(r, p, depth)[0] >= -9999;
  }

  /** At depth one the root scores are the negated evaluations of the
      positions after each move, so when every move leaves White more than
      9999 ahead no move is chosen, although moves exist. */
  lemma ShallowSearchCanPass<P, M>(r: Rules<P, M>, p: P)
    requires forall m :: m in r.moves(p) ==> Evaluation(r.board(r.apply(p, m))) > 9999
    ensures BestMove(r, p, 1) == None
  {
    var ms := r.moves(p);
    forall k | 0 <= k < |ms|
      ensures RootScores(r, p, 1)[k] < -9999
    {
      assert ms[k] in ms;
    }
  }

  /** The position object of the rules engine, shared by the caller and the
      search and changed in place. `history` holds the positions before each
      applied move, most recent last, as the engine's undo stack. */
  class Game<P, M(==)> {
    const rules: Rules<P, M>
    var pos: P
    var history: seq<P>

    constructor (rules: Rules<P, M>, start: P)
      ensures this.rules == rules && pos == start && history == []
    {
      this.rules := rules;
      pos := start;
      history := [];
    }

    /** `game.move(m)`: plays a legal move and pushes the old position; an
        illegal move changes nothing and reports failure. */
    method Move(m: M) returns (ok: bool)
      modifies this
      ensures ok == (m in old(rules.moves(pos)))
      ensures ok ==> pos == rules.apply(old(pos), m) && history == old(history) + [old(pos)]
      ensures !ok ==> pos == old(pos) && history == old(history)
    {
      ok := m in rules.moves(pos);
      if ok {
        history := history + [pos];
        pos := rules.apply(pos, m);
      }
    }

    /** `game.undo()`: takes back the most recent move; with nothing to take
        back it changes nothing and reports failure. */
    method Undo() returns (ok: bool)
      modifies this
      ensures ok == (old(history) != [])
      ensures ok ==> pos == old(history)[|old(history)| - 1] && history == old(history)[..|old(history)| - 1]
      ensures !ok ==> pos == old(pos) && history == old(history)
    {
      ok := history != [];
      if ok {
        pos := history[|history| - 1];
        history := history[..|history| - 1];
      }
    }

    /** `minimax`: returns the pruned search value and leaves the position
        and the undo stack as it found them, every move it plays being taken
        back before the next move or any return, cutoffs included. */
    method Minimax(depth: nat, alpha: int, beta: int, isMaximisingPlayer: bool) returns (value: int)
      modifies this
      ensures pos == old(pos) && history == old(history)
      ensures value == AlphaBeta(rules, pos, depth, alpha, beta, isMaximisingPlayer)
      decreases depth
    {
      if depth == 0 {
        var evaluation := EvaluateBoard(rules.board(pos));
        return -evaluation;
      }
      var moves := rules.moves(pos);
      ghost var p := pos;
      if isMaximisingPlayer {
        var bestMove := -9999;
        var a := alpha;
        var i := 0;
        while i < |moves|
          invariant i <= |moves|
          invariant pos == p && history == old(history)
          invariant AlphaBetaLoop(rules, p, depth, i, a, beta, bestMove, true) == AlphaBeta(rules, p, depth, alpha, beta, true)
        {
          var moved := Move(moves[i]);
          var score := Minimax(depth - 1, a, beta, !isMaximisingPlayer);
          bestMove := Max(bestMove, score);
          var undone := Undo();
          a := Max(a, bestMove);
          if beta <= a {
            return bestMove;
          }
          i := i + 1;
        }
        return bestMove;
      } else {
        var bestMove := 9999;
        var b := beta;
        var i := 0;
        while i < |moves|
          invariant i <= |moves|
          invariant pos == p && history == old(history)
          invariant AlphaBetaLoop(rules, p, depth, i, alpha, b, bestMove, false) == AlphaBeta(rules, p, depth, alpha, beta, false)
        {
          var moved := Move(moves[i]);
          var score := Minimax(depth - 1, alpha, b, !isMaximisingPlayer);
          bestMove := Min(bestMove, score);
          var undone := Undo();
          b := Min(b, bestMove);
          if b <= alpha {
            return bestMove;
          }
          i := i + 1;
        }
        return bestMove;
      }
    }

    /** `calculateBestMove`: tries every root move, keeps the last one whose
        score is at least the running best, and leaves the position and the
        undo stack as it found them. */
    method CalculateBestMove(depth: nat) returns (bestMove: Option<M>)
      requires depth >= 1
      modifies this
      ensures pos == old(pos) && history == old(history)
      ensures bestMove == BestMove(rules, pos, depth)
    {
      var moves := rules.moves(pos);
      ghost var p := pos;
      ghost var scores := RootScores(rules, p, depth);
      ghost var bestIndex: Option<nat> := None;
      bestMove := None;
      var bestValue := -9999;
      for i := 0 to |moves|
        invariant pos == p && history == old(history)
        invariant SelectLast(scores[..i]) == (bestIndex, bestValue)
        invariant bestMove == MoveAt(moves, bestIndex)
      {
        var move := moves[i];
        var moved := Move(move);
        var boardValue := Minimax(depth - 1, -10000, 10000, false);
        var undone := Undo();
        assert boardValue == scores[i];
        SelectLastStep(scores, i);
        if boardValue >= bestValue {
          bestValue := boardValue;
          bestMove := Some(move);
          bestIndex := Some(i);
        }
      }
      assert scores[..|moves|] == scores;
    }
  }
}
