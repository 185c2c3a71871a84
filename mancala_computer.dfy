/**
 * The Mancala computer player of mancala.py: it tries every move on a copy of the
 * board and scores it by a depth-limited minimax over store differences. A move
 * that grants a further turn is searched again for the same player at the same depth.
 */
module MancalaComputer {
  import opened Options
  import opened Scores
  import opened MancalaBoard

  /** `find_all_moves` from hole `k` on: the non-empty holes, in increasing order. */
  function MovesFrom(s: BoardState, k: nat): (moves: seq<nat>)
    requires WellFormed(s) && k <= Holes
    ensures forall i :: 0 <= i < |moves| ==> k <= moves[i] < Holes && s.holes[moves[i]] > 0
    ensures forall m: nat :: k <= m < Holes && s.holes[m] > 0 ==> m in moves
    ensures forall i, j :: 0 <= i < j < |moves| ==> moves[i] < moves[j]
    decreases Holes - k
  {
    if k == Holes then []
    else if s.holes[k] > 0 then [k] + MovesFrom(s, k + 1)
    else MovesFrom(s, k + 1)
  }

  /**
   * `Computer.find_all_moves` (mancala.py:146-152): every non-empty hole on either
   * side of the board, each once, in increasing order of hole number.
   */
  function FindAllMoves(s: BoardState): (moves: seq<nat>)
    requires WellFormed(s)
    ensures forall i :: 0 <= i < |moves| ==> moves[i] < Holes && s.holes[moves[i]] > 0
    ensures forall m: nat :: m < Holes && s.holes[m] > 0 ==> m in moves
    ensures forall i, j :: 0 <= i < j < |moves| ==> moves[i] < moves[j]
  {
    MovesFrom(s, 0)
  }

  /**
   * What the search needs of a move played on a copy: the board stays well formed
   * and keeps its beads, and a further turn leaves fewer beads in the holes.
   */
  lemma MoveForSearch(s: BoardState, move: nat, turn: Side)
    requires WellFormed(s) && move < Holes
    ensures var r := Sow(s, move, turn);
      && WellFormed(r.board)
      && Beads(r.board) == Beads(s)
      && (r.again ==> Sum(r.board.holes) < Sum(s.holes))
  {
    SowFacts(s, move, turn);
  }

  /** The store difference seen from `player`'s side. */
  function StoreDifference(player: Side, s: BoardState): int
  {
    if player == A then s.a - s.b else s.b - s.a
  }

  /**
   * `Computer.evaluate(board, to_move, depth, limit)` (mancala.py:107-144) for the
   * computer playing `player`: the store difference at the depth limit or when no
   * move is left, otherwise the minimum of the move scores when the opponent moves
   * and the maximum when the computer moves.
   */
  function Evaluate(player: Side, s: BoardState, toMove: Side, depth: nat, limit: nat): int
    requires WellFormed(s) && depth <= limit
    decreases limit - depth, Sum(s.holes), 2, 0
  {
    if depth == limit then StoreDifference(player, s)
    else
      var moves := FindAllMoves(s);
      if moves == [] then StoreDifference(player, s)
      else
        var scores := MoveScores(player, s, toMove, depth, limit, moves);
        if toMove != player then Min(scores) else Max(scores)
  }

  /** The scores of `moves`, in order: the values the source collects in its `scores` dictionary. */
  function MoveScores(player: Side, s: BoardState, toMove: Side, depth: nat, limit: nat, moves: seq<nat>): (scores: seq<int>)
    requires WellFormed(s) && depth < limit
    requires forall i :: 0 <= i < |moves| ==> moves[i] < Holes
    ensures |scores| == |moves|
    decreases limit - depth, Sum(s.holes), 1, |moves|
  {
    if moves == [] then []
    else [MoveScore(player, s, toMove, depth, limit, moves[0])] + MoveScores(player, s, toMove, depth, limit, moves[1..])
  }

  /** The i-th move score is the score of the i-th move: the source's `scores[move]` entries, in move order. */
  lemma {:induction false} MoveScoresInOrder(player: Side, s: BoardState, toMove: Side, depth: nat, limit: nat, moves: seq<nat>)
    requires WellFormed(s) && depth < limit
    requires forall i :: 0 <= i < |moves| ==> moves[i] < Holes
    ensures var scores := MoveScores(player, s, toMove, depth, limit, moves);
      forall i :: 0 <= i < |moves| ==> scores[i] == MoveScore(player, s, toMove, depth, limit, moves[i])
    decreases |moves|
  {
    if moves != [] {
      MoveScoresInOrder(player, s, toMove, depth, limit, moves[1..]);
      var scores := MoveScores(player, s, toMove, depth, limit, moves);
      var rest := MoveScores(player, s, toMove, depth, limit, moves[1..]);
      assert scores[1..] == rest;
    }
  }

  /**
   * One move inside the search (mancala.py:124-131), played on a copy: a turn that
   * ends passes the move to the other side one level deeper; a further turn
   * searches again for the same side at the same depth.
   */
  function MoveScore(player: Side, s: BoardState, toMove: Side, depth: nat, limit: nat, move: nat): int
    requires WellFormed(s) && depth < limit && move < Holes
    decreases limit - depth, Sum(s.holes), 0, 0
  {
    MoveForSearch(s, move, toMove);
    var r := Sow(s, move, toMove);
    if !r.again then Evaluate(player, r.board, Other(toMove), depth + 1, limit)
    else Evaluate(player, r.board, toMove, depth, limit)
  }

  /** One candidate move at the root (mancala.py:95-102): the search starts at depth 0 either way. */
  function RootScore(player: Side, s: BoardState, limit: nat, move: nat): int
    requires WellFormed(s) && move < Holes
  {
    MoveForSearch(s, move, player);
    var r := Sow(s, move, player);
    if !r.again then Evaluate(player, r.board, Other(player), 0, limit)
    else Evaluate(player, r.board, player, 0, limit)
  }

  function RootScores(player: Side, s: BoardState, limit: nat, moves: seq<nat>): (scores: seq<int>)
    requires WellFormed(s)
    requires forall i :: 0 <= i < |moves| ==> moves[i] < Holes
    ensures |scores| == |moves|
    ensures forall i {:trigger scores[i]} :: 0 <= i < |moves| ==> scores[i] == RootScore(player, s, limit, moves[i])
  {
    if moves == [] then []
    else [RootScore(player, s, limit, moves[0])] + RootScores(player, s, limit, moves[1..])
  }

  /** `move` is a non-empty hole with the highest root score, and no lower-numbered hole scores as high. */
  ghost predicate FirstBest(player: Side, s: BoardState, limit: nat, move: nat)
    requires WellFormed(s)
  {
    && move < Holes && s.holes[move] > 0
    && (forall m: nat :: m < Holes && s.holes[m] > 0 ==>
          RootScore(player, s, limit, m) <= RootScore(player, s, limit, move))
    && (forall m: nat :: m < move && s.holes[m] > 0 ==>
          RootScore(player, s, limit, m) < RootScore(player, s, limit, move))
  }

  /**
   * `Computer.calculate(board, limit)` (mancala.py:85-105): the first non-empty hole,
   * in increasing order, whose root score is maximal; None where the source's
   * `max` of an empty dictionary raises, when every hole is empty.
   */
  function Calculate(player: Side, s: BoardState, limit: nat): (choice: Option<nat>)
    requires WellFormed(s)
    ensures choice.None? <==> forall m: nat :: m < Holes ==> s.holes[m] == 0
    ensures choice.Some? ==> FirstBest(player, s, limit, choice.value)
  {
    var moves := FindAllMoves(s);
    if moves == [] then
      NoMovesIffEmpty(s);
      None
    else
      var scores := RootScores(player, s, limit, moves);
      var i := FirstMaxIndex(scores);
      FirstMaxIsFirstBest(player, s, limit, moves, scores, i);
      Some(moves[i])
  }

  /** There is no move exactly when every hole is empty. */
  lemma NoMovesIffEmpty(s: BoardState)
    requires WellFormed(s)
    ensures FindAllMoves(s) == [] <==> forall m: nat :: m < Holes ==> s.holes[m] == 0
  {
  }

  /** The first maximal score over the moves in increasing order picks the first best hole. */
  lemma FirstMaxIsFirstBest(player: Side, s: BoardState, limit: nat, moves: seq<nat>, scores: seq<int>, i: nat)
    requires WellFormed(s) && moves == FindAllMoves(s) && moves != []
    requires scores == RootScores(player, s, limit, moves) && i == FirstMaxIndex(scores)
    ensures FirstBest(player, s, limit, moves[i])
  {
    forall m: nat | m < Holes && s.holes[m] > 0
      ensures RootScore(player, s, limit, m) <= scores[i]
      ensures m < moves[i] ==> RootScore(player, s, limit, m) < scores[i]
    {
      assert m in moves;
      var j :| 0 <= j < |moves| && moves[j] == m;
      FirstMaxSorted(moves, scores, i, j);
      assert scores[j] == RootScore(player, s, limit, m);
    }
    assert scores[i] == RootScore(player, s, limit, moves[i]);
  }

  /**
   * The search only ever compares store differences of boards reached by legal
   * sowing, so its value is bounded by the number of beads on the board.
   */
  lemma {:induction false} EvaluateBounded(player: Side, s: BoardState, toMove: Side, depth: nat, limit: nat)
    requires WellFormed(s) && depth <= limit
    ensures -(Beads(s) as int) <= Evaluate(player, s, toMove, depth, limit) <= Beads(s)
    decreases limit - depth, Sum(s.holes), 2, 0
  {
    if depth < limit {
      var moves := FindAllMoves(s);
      if moves != [] {
        var scores := MoveScores(player, s, toMove, depth, limit, moves);
        MoveScoresBounded(player, s, toMove, depth, limit, moves);
        assert Min(scores) in scores && Max(scores) in scores;
      }
    }
  }

  lemma {:induction false} MoveScoresBounded(player: Side, s: BoardState, toMove: Side, depth: nat, limit: nat, moves: seq<nat>)
    requires WellFormed(s) && depth < limit
    requires forall i :: 0 <= i < |moves| ==> moves[i] < Holes
    ensures forall x :: x in MoveScores(player, s, toMove, depth, limit, moves) ==> -(Beads(s) as int) <= x <= Beads(s)
    decreases limit - depth, Sum(s.holes), 1, |moves|
  {
    if moves != [] {
      MoveScoreBounded(player, s, toMove, depth, limit, moves[0]);
      MoveScoresBounded(player, s, toMove, depth, limit, moves[1..]);
      var first := MoveScore(player, s, toMove, depth, limit, moves[0]);
      assert MoveScores(player, s, toMove, depth, limit, moves) == [first] + MoveScores(player, s, toMove, depth, limit, moves[1..]);
    }
  }

  lemma {:induction false} MoveScoreBounded(player: Side, s: BoardState, toMove: Side, depth: nat, limit: nat, move: nat)
    requires WellFormed(s) && depth < limit && move < Holes
    ensures -(Beads(s) as int) <= MoveScore(player, s, toMove, depth, limit, move) <= Beads(s)
    decreases limit - depth, Sum(s.holes), 0, 0
  {
    MoveForSearch(s, move, toMove);
    var r := Sow(s, move, toMove);
    if !r.again {
      EvaluateBounded(player, r.board, Other(toMove), depth + 1, limit);
    } else {
      EvaluateBounded(player, r.board, toMove, depth, limit);
    }
  }

  /**
   * The score of each candidate move at the root is bounded in the same way:
   * a move never creates or destroys beads.
   */
  lemma RootScoreBounded(player: Side, s: BoardState, limit: nat, move: nat)
    requires WellFormed(s) && move < Holes
    ensures -(Beads(s) as int) <= RootScore(player, s, limit, move) <= Beads(s)
  {
    MoveForSearch(s, move, player);
    var r := Sow(s, move, player);
    if !r.again {
      EvaluateBounded(player, r.board, Other(player), 0, limit);
    } else {
      EvaluateBounded(player, r.board, player, 0, limit);
    }
  }

  /**
   * The search is zero-sum: a position's value for the computer playing 'a' is
   * the negation of its value for the computer playing 'b', because the store
   * difference flips its sign and minimum and maximum trade places.
   */
  lemma {:induction false} EvaluateZeroSum(s: BoardState, toMove: Side, depth: nat, limit: nat)
    requires WellFormed(s) && depth <= limit
    ensures Evaluate(A, s, toMove, depth, limit) == -Evaluate(B, s, toMove, depth, limit)
    decreases limit - depth, Sum(s.holes), 2, 0
  {
    if depth < limit {
      var moves := FindAllMoves(s);
      if moves != [] {
        MoveScoresZeroSum(s, toMove, depth, limit, moves);
        var scores := MoveScores(B, s, toMove, depth, limit, moves);
        if toMove == A {
          MaxNegated(scores);
        } else {
          MinNegated(scores);
        }
      }
    }
  }

  lemma {:induction false} MoveScoresZeroSum(s: BoardState, toMove: Side, depth: nat, limit: nat, moves: seq<nat>)
    requires WellFormed(s) && depth < limit
    requires forall i :: 0 <= i < |moves| ==> moves[i] < Holes
    ensures MoveScores(A, s, toMove, depth, limit, moves) == Negated(MoveScores(B, s, toMove, depth, limit, moves))
    decreases limit - depth, Sum(s.holes), 1, |moves|
  {
    if moves != [] {
      var m := moves[0];
      MoveScoreZeroSum(s, toMove, depth, limit, m);
      MoveScoresZeroSum(s, toMove, depth, limit, moves[1..]);
      var restA := MoveScores(A, s, toMove, depth, limit, moves[1..]);
      var restB := MoveScores(B, s, toMove, depth, limit, moves[1..]);
      var y := MoveScore(B, s, toMove, depth, limit, m);
      NegatedCons(y, restB);
      assert MoveScores(B, s, toMove, depth, limit, moves) == [y] + restB;
      assert MoveScores(A, s, toMove, depth, limit, moves) == [MoveScore(A, s, toMove, depth, limit, m)] + restA;
    }
  }

  lemma {:induction false} MoveScoreZeroSum(s: BoardState, toMove: Side, depth: nat, limit: nat, move: nat)
    requires WellFormed(s) && depth < limit && move < Holes
    ensures MoveScore(A, s, toMove, depth, limit, move) == -MoveScore(B, s, toMove, depth, limit, move)
    decreases limit - depth, Sum(s.holes), 0, 0
  {
    MoveForSearch(s, move, toMove);
    var r := Sow(s, move, toMove);
    if !r.again {
      EvaluateZeroSum(r.board, Other(toMove), depth + 1, limit);
    } else {
      EvaluateZeroSum(r.board, toMove, depth, limit);
    }
  }
}
