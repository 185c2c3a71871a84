/**
 * Tic-tac-toe of tictactoe.py: a 3x3 board updated in place, read-only win and
 * tie tests on its value, and the computer's depth-scored minimax over copies.
 */
module TicTacToe {
  import opened Options
  import opened Scores

  /** The two marks; the source uses the strings 'X' and 'O'. */
  datatype Player = X | O

  /** A cell holds a mark or Python's `None`. */
  datatype Cell = Empty | Mark(p: Player)

  /**
   * The value of a board: its nine cells in row-major order, the order of the
   * source's `for row` / `for col` loops. Cell (row, col) sits at `3 * row + col`.
   */
  type Grid = seq<Cell>

  predicate IsGrid(g: Grid)
  {
    |g| == 9
  }

  const EmptyGrid: Grid := [Empty, Empty, Empty, Empty, Empty, Empty, Empty, Empty, Empty]

  /** The row of cell `k`. */
  function Row(k: nat): (r: nat)
    requires k < 9
    ensures r < 3 && 3 * r <= k < 3 * r + 3
  {
    if k < 3 then 0 else if k < 6 then 1 else 2
  }

  /** The column of cell `k`. */
  function Col(k: nat): (c: nat)
    requires k < 9
    ensures c < 3 && k == 3 * Row(k) + c
  {
    k - 3 * Row(k)
  }

  /** The grid with cell `k` replaced by `v`, every other cell kept. */
  function Put(g: Grid, k: nat, v: Cell): (h: Grid)
    requires IsGrid(g) && k < 9
    ensures IsGrid(h) && h[k] == v
    ensures forall j :: 0 <= j < 9 && j != k ==> h[j] == g[j]
  {
    g[k := v]
  }

  /** The empty cells at positions `k` and after. */
  function EmptyFrom(g: Grid, k: nat): nat
    requires IsGrid(g) && k <= 9
    decreases 9 - k
  {
    if k == 9 then 0 else (if g[k] == Empty then 1 else 0) + EmptyFrom(g, k + 1)
  }

  function CountEmpty(g: Grid): nat
    requires IsGrid(g)
  {
    EmptyFrom(g, 0)
  }

  /** Filling an empty cell leaves exactly one empty cell fewer from every position at or before it. */
  lemma {:induction false} EmptyFromPut(g: Grid, j: nat, p: Player, k: nat)
    requires IsGrid(g) && j < 9 && g[j] == Empty && k <= 9
    ensures EmptyFrom(Put(g, j, Mark(p)), k) == EmptyFrom(g, k) - (if k <= j then 1 else 0)
    decreases 9 - k
  {
    if k < 9 {
      EmptyFromPut(g, j, p, k + 1);
    }
  }

  lemma CountEmptyPut(g: Grid, j: nat, p: Player)
    requires IsGrid(g) && j < 9 && g[j] == Empty
    ensures CountEmpty(Put(g, j, Mark(p))) == CountEmpty(g) - 1
  {
    EmptyFromPut(g, j, p, 0);
  }

  /** No empty cell from position `k` on exactly when every such cell is set. */
  lemma {:induction false} EmptyFromZero(g: Grid, k: nat)
    requires IsGrid(g) && k <= 9
    ensures EmptyFrom(g, k) == 0 <==> forall j :: k <= j < 9 ==> g[j] != Empty
    decreases 9 - k
  {
    if k < 9 {
      EmptyFromZero(g, k + 1);
    }
  }

  /** The eight lines of three cells: rows, columns and the two diagonals. */
  const Lines: seq<seq<nat>> := [
    [0, 1, 2], [3, 4, 5], [6, 7, 8],
    [0, 3, 6], [1, 4, 7], [2, 5, 8],
    [0, 4, 8], [2, 4, 6]]

  /** Every cell of `line` holds `p`'s mark. */
  predicate Owns(g: Grid, line: seq<nat>, p: Player)
    requires IsGrid(g) && |line| == 3 && forall i :: 0 <= i < 3 ==> line[i] < 9
  {
    forall i :: 0 <= i < 3 ==> g[line[i]] == Mark(p)
  }

  /**
   * `Board.has_won(player)` (tictactoe.py:36-57): a row of three marks of
   * `player`, then a column, then the two diagonals.
   */
  function HasWon(g: Grid, p: Player): bool
    requires IsGrid(g)
  {
    var m := Mark(p);
    || (g[0] == m && g[1] == m && g[2] == m)
    || (g[3] == m && g[4] == m && g[5] == m)
    || (g[6] == m && g[7] == m && g[8] == m)
    || (g[0] == m && g[3] == m && g[6] == m)
    || (g[1] == m && g[4] == m && g[7] == m)
    || (g[2] == m && g[5] == m && g[8] == m)
    || (g[0] == m && g[4] == m && g[8] == m)
    || (g[2] == m && g[4] == m && g[6] == m)
  }

  /** A player has won exactly when one of the eight lines is entirely theirs. */
  lemma HasWonIffLine(g: Grid, p: Player)
    requires IsGrid(g)
    ensures HasWon(g, p) <==> exists k :: 0 <= k < |Lines| && Owns(g, Lines[k], p)
  {
    if HasWon(g, p) {
      var k := WinningLine(g, p);
    }
    forall k | 0 <= k < |Lines| && Owns(g, Lines[k], p) ensures HasWon(g, p) {
      OwnedLineWins(g, p, k);
    }
  }

  /** The line that `has_won` found. */
  lemma WinningLine(g: Grid, p: Player) returns (k: nat)
    requires IsGrid(g) && HasWon(g, p)
    ensures k < |Lines| && Owns(g, Lines[k], p)
  {
    var m := Mark(p);
    if g[0] == m && g[1] == m && g[2] == m { k := 0; }
    else if g[3] == m && g[4] == m && g[5] == m { k := 1; }
    else if g[6] == m && g[7] == m && g[8] == m { k := 2; }
    else if g[0] == m && g[3] == m && g[6] == m { k := 3; }
    else if g[1] == m && g[4] == m && g[7] == m { k := 4; }
    else if g[2] == m && g[5] == m && g[8] == m { k := 5; }
    else if g[0] == m && g[4] == m && g[8] == m { k := 6; }
    else { k := 7; }
  }

  /** An owned line is found by `has_won`. */
  lemma OwnedLineWins(g: Grid, p: Player, k: nat)
    requires IsGrid(g) && k < |Lines| && Owns(g, Lines[k], p)
    ensures HasWon(g, p)
  {
    assert g[Lines[k][0]] == Mark(p);
    assert g[Lines[k][1]] == Mark(p);
    assert g[Lines[k][2]] == Mark(p);
  }

  /** `Board.has_tie()` (tictactoe.py:59-67): no cell is empty; it does not look for a winner. */
  predicate HasTie(g: Grid)
    requires IsGrid(g)
  {
    forall k :: 0 <= k < 9 ==> g[k] != Empty
  }

  /** A tie is a board without empty cells. */
  lemma HasTieIffNoEmpty(g: Grid)
    requires IsGrid(g)
    ensures HasTie(g) <==> CountEmpty(g) == 0
  {
    EmptyFromZero(g, 0);
  }

  /** A full board that `X` has won is still a tie: the tie test ignores winners. */
  lemma TieIgnoresWinner()
    ensures var g := [Mark(X), Mark(X), Mark(X), Mark(O), Mark(O), Mark(X), Mark(X), Mark(O), Mark(O)];
      IsGrid(g) && HasTie(g) && HasWon(g, X)
  {
  }

  /** The tic-tac-toe board of tictactoe.py, a 3x3 grid updated in place. */
  class Board {
    var board: array2<Cell>

    ghost predicate Valid()
      reads this
    {
      board.Length0 == 3 && board.Length1 == 3
    }

    /** The cells the board currently holds, row by row. */
    function Value(): (g: Grid)
      reads this, board
      requires Valid()
      ensures IsGrid(g)
      ensures forall r, c :: 0 <= r < 3 && 0 <= c < 3 ==> g[3 * r + c] == board[r, c]
    {
      [board[0, 0], board[0, 1], board[0, 2],
       board[1, 0], board[1, 1], board[1, 2],
       board[2, 0], board[2, 1], board[2, 2]]
    }

    /** `Board()` (tictactoe.py:10-14) with a grid of its own, every cell empty. */
    constructor ()
      ensures Valid() && fresh(board)
      ensures Value() == EmptyGrid
    {
      board := new Cell[3, 3]((_, _) => Empty);
    }

    /** `Board(grid)`: a board holding its own copy of `g`. */
    constructor FromGrid(g: Grid)
      requires IsGrid(g)
      ensures Valid() && fresh(board)
      ensures Value() == g
    {
      board := new Cell[3, 3]((r, c) requires 0 <= r < 3 && 0 <= c < 3 => g[3 * r + c]);
    }

    /** `Board.get(pos)` (tictactoe.py:30-34). */
    function Get(row: nat, col: nat): (cell: Cell)
      reads this, board
      requires Valid() && row < 3 && col < 3
      ensures cell == Value()[3 * row + col]
    {
      board[row, col]
    }

    /** `Board.is_set(pos)` (tictactoe.py:16-22): the cell holds a mark, which Python finds truthy. */
    function IsSet(row: nat, col: nat): (marked: bool)
      reads this, board
      requires Valid() && row < 3 && col < 3
      ensures marked <==> Value()[3 * row + col] != Empty
    {
      Get(row, col) != Empty
    }

    /** `Board.set(pos, player)` (tictactoe.py:24-28): that cell becomes `p`'s, every other stays. */
    method Set(row: nat, col: nat, p: Player)
      requires Valid() && row < 3 && col < 3
      modifies board
      ensures Valid()
      ensures Value() == Put(old(Value()), 3 * row + col, Mark(p))
    {
      board[row, col] := Mark(p);
    }

    /** `Board.duplicate()` (tictactoe.py:69-73): a new board over a new grid with the same cells. */
    method Duplicate() returns (d: Board)
      requires Valid()
      ensures fresh(d) && fresh(d.board) && d.Valid()
      ensures d.Value() == Value()
    {
      d := new Board.FromGrid(Value());
    }

    /**
     * How the computer tries a move (tictactoe.py:119-120, 150-151): duplicate,
     * then set the copy. The copy holds the move and this board is untouched.
     */
    method TryOnCopy(row: nat, col: nat, p: Player) returns (d: Board)
      requires Valid() && row < 3 && col < 3
      ensures fresh(d) && d.Valid()
      ensures d.Value() == Put(Value(), 3 * row + col, Mark(p))
      ensures Value() == old(Value())
    {
      d := Duplicate();
      d.Set(row, col, p);
    }
  }

  /** `Computer(computer, player)`: the computer's mark and its opponent's. */
  datatype Computer = Computer(computer: Player, player: Player)

  /**
   * `Computer.evaluate(board, depth)` (tictactoe.py:86-95): a win for the computer
   * is worth more the sooner it comes, a win for the player costs more the sooner
   * it comes; the computer's win is tested first. Within the nine moves of a game
   * the sign says who has won, and a non-zero score is worth the moves left of ten.
   */
  function Evaluate(c: Computer, g: Grid, depth: int): (v: int)
    requires IsGrid(g)
    ensures depth < 10 ==> (v > 0 <==> HasWon(g, c.computer))
    ensures depth < 10 ==> (v < 0 <==> !HasWon(g, c.computer) && HasWon(g, c.player))
    ensures v == 0 || v == 10 - depth || v == -(10 - depth)
  {
    if HasWon(g, c.computer) then 10 - depth
    else if HasWon(g, c.player) then depth - 10
    else 0
  }

  /** `Computer.game_over(board)` (tictactoe.py:97-107). */
  predicate GameOver(c: Computer, g: Grid)
    requires IsGrid(g)
  {
    HasWon(g, c.computer) || HasWon(g, c.player) || HasTie(g)
  }

  /**
   * `Computer.minimax(board, player, depth, limit)` (tictactoe.py:127-171): the
   * evaluation at game over or at the depth limit; otherwise the best score over
   * the computer's moves or the worst over the player's, each move played on a
   * copy, with the source's defaults -1 and 1 for an empty list of scores.
   */
  function Minimax(c: Computer, g: Grid, mover: Player, depth: nat, limit: nat): int
    requires IsGrid(g) && (mover == c.computer || mover == c.player)
    decreases CountEmpty(g), 1, 0
  {
    if GameOver(c, g) then Evaluate(c, g, depth)
    else if depth == limit then Evaluate(c, g, depth)
    else if mover == c.computer then
      var scores := MoveScores(c, g, mover, c.player, depth, limit, 0);
      if scores == [] then -1 else Max(scores)
    else
      var scores := MoveScores(c, g, mover, c.computer, depth, limit, 0);
      if scores == [] then 1 else Min(scores)
  }

  /** The scores of `mover`'s moves into the empty cells from position `k` on, in row-major order. */
  function MoveScores(c: Computer, g: Grid, mover: Player, next: Player, depth: nat, limit: nat, k: nat): (scores: seq<int>)
    requires IsGrid(g) && k <= 9
    requires next == c.computer || next == c.player
    ensures |scores| == EmptyFrom(g, k)
    decreases CountEmpty(g), 0, 9 - k
  {
    if k == 9 then []
    else
      var rest := MoveScores(c, g, mover, next, depth, limit, k + 1);
      if g[k] == Empty then [MoveScore(c, g, mover, next, depth, limit, k)] + rest
      else rest
  }

  /** `mover` fills empty cell `k` on a copy and the search goes on one level deeper with `next` to move. */
  function MoveScore(c: Computer, g: Grid, mover: Player, next: Player, depth: nat, limit: nat, k: nat): int
    requires IsGrid(g) && k < 9 && g[k] == Empty
    requires next == c.computer || next == c.player
    decreases CountEmpty(g), 0, 0
  {
    CountEmptyPut(g, k, mover);
    Minimax(c, Put(g, k, Mark(mover)), next, depth + 1, limit)
  }

  /** With no empty cell the game is over, so the search evaluates and the defaults are never used. */
  lemma FullBoardEvaluates(c: Computer, g: Grid, mover: Player, depth: nat, limit: nat)
    requires IsGrid(g) && (mover == c.computer || mover == c.player) && CountEmpty(g) == 0
    ensures Minimax(c, g, mover, depth, limit) == Evaluate(c, g, depth)
  {
    HasTieIffNoEmpty(g);
  }

  /**
   * Within the default limit, a search started at `depth` scores between
   * `depth - 10` and `10 - depth`: wins further away are worth less.
   */
  lemma {:induction false} MinimaxBounded(c: Computer, g: Grid, mover: Player, depth: nat, limit: nat)
    requires IsGrid(g) && (mover == c.computer || mover == c.player)
    requires depth <= limit <= 10
    ensures depth - 10 <= Minimax(c, g, mover, depth, limit) <= 10 - depth
    decreases CountEmpty(g), 1, 0
  {
    if !GameOver(c, g) && depth < limit {
      var next := if mover == c.computer then c.player else c.computer;
      MoveScoresBounded(c, g, mover, next, depth, limit, 0);
      var scores := MoveScores(c, g, mover, next, depth, limit, 0);
      if scores != [] {
        assert Max(scores) in scores && Min(scores) in scores;
      }
    }
  }

  lemma {:induction false} MoveScoresBounded(c: Computer, g: Grid, mover: Player, next: Player, depth: nat, limit: nat, k: nat)
    requires IsGrid(g) && k <= 9
    requires next == c.computer || next == c.player
    requires depth < limit <= 10
    ensures forall x :: x in MoveScores(c, g, mover, next, depth, limit, k) ==> depth + 1 - 10 <= x <= 10 - depth - 1
    decreases CountEmpty(g), 0, 9 - k
  {
    if k < 9 {
      MoveScoresBounded(c, g, mover, next, depth, limit, k + 1);
      if g[k] == Empty {
        MoveScoreBounded(c, g, mover, next, depth, limit, k);
        var first := MoveScore(c, g, mover, next, depth, limit, k);
        var rest := MoveScores(c, g, mover, next, depth, limit, k + 1);
        assert MoveScores(c, g, mover, next, depth, limit, k) == [first] + rest;
      }
    }
  }

  lemma {:induction false} MoveScoreBounded(c: Computer, g: Grid, mover: Player, next: Player, depth: nat, limit: nat, k: nat)
    requires IsGrid(g) && k < 9 && g[k] == Empty
    requires next == c.computer || next == c.player
    requires depth < limit <= 10
    ensures depth + 1 - 10 <= MoveScore(c, g, mover, next, depth, limit, k) <= 10 - depth - 1
    decreases CountEmpty(g), 0, 0
  {
    CountEmptyPut(g, k, mover);
    MinimaxBounded(c, Put(g, k, Mark(mover)), next, depth + 1, limit);
  }

  /** The same two marks with the roles exchanged. */
  function Swapped(c: Computer): (s: Computer)
    ensures s.computer == c.player && s.player == c.computer
  {
    Computer(c.player, c.computer)
  }

  /** A mark of `q` never gives a different player `p` a line. */
  lemma PutKeepsNoWin(g: Grid, k: nat, q: Player, p: Player)
    requires IsGrid(g) && k < 9 && p != q && !HasWon(g, p)
    ensures !HasWon(Put(g, k, Mark(q)), p)
  {
  }

  /**
   * The search is zero-sum: exchanging the computer's and the player's roles
   * negates every score, on any board that no more than one player has won.
   */
  lemma {:induction false} MinimaxSwapped(c: Computer, g: Grid, mover: Player, depth: nat, limit: nat)
    requires IsGrid(g) && (mover == c.computer || mover == c.player) && c.computer != c.player
    requires !(HasWon(g, c.computer) && HasWon(g, c.player))
    ensures Minimax(Swapped(c), g, mover, depth, limit) == -Minimax(c, g, mover, depth, limit)
    decreases CountEmpty(g), 1, 0
  {
    if !GameOver(c, g) && depth != limit {
      var next := if mover == c.computer then c.player else c.computer;
      MoveScoresSwapped(c, g, mover, next, depth, limit, 0);
      var scores := MoveScores(c, g, mover, next, depth, limit, 0);
      assert MoveScores(Swapped(c), g, mover, next, depth, limit, 0) == Negated(scores);
      if scores != [] {
        MaxNegated(scores);
        MinNegated(scores);
      }
    }
  }

  lemma {:induction false} MoveScoresSwapped(c: Computer, g: Grid, mover: Player, next: Player, depth: nat, limit: nat, k: nat)
    requires IsGrid(g) && k <= 9 && c.computer != c.player
    requires (mover == c.computer && next == c.player) || (mover == c.player && next == c.computer)
    requires !HasWon(g, c.computer) && !HasWon(g, c.player)
    ensures MoveScores(Swapped(c), g, mover, next, depth, limit, k) == Negated(MoveScores(c, g, mover, next, depth, limit, k))
    decreases CountEmpty(g), 0, 9 - k
  {
    if k < 9 {
      MoveScoresSwapped(c, g, mover, next, depth, limit, k + 1);
      if g[k] == Empty {
        MoveScoreSwapped(c, g, mover, next, depth, limit, k);
        var x := MoveScore(c, g, mover, next, depth, limit, k);
        var rest := MoveScores(c, g, mover, next, depth, limit, k + 1);
        assert MoveScores(c, g, mover, next, depth, limit, k) == [x] + rest;
        NegatedCons(x, rest);
        assert MoveScores(Swapped(c), g, mover, next, depth, limit, k) == [-x] + Negated(rest);
      }
    }
  }

  lemma {:induction false} MoveScoreSwapped(c: Computer, g: Grid, mover: Player, next: Player, depth: nat, limit: nat, k: nat)
    requires IsGrid(g) && k < 9 && g[k] == Empty && c.computer != c.player
    requires (mover == c.computer && next == c.player) || (mover == c.player && next == c.computer)
    requires !HasWon(g, c.computer) && !HasWon(g, c.player)
    ensures MoveScore(Swapped(c), g, mover, next, depth, limit, k) == -MoveScore(c, g, mover, next, depth, limit, k)
    decreases CountEmpty(g), 0, 0
  {
    CountEmptyPut(g, k, mover);
    PutKeepsNoWin(g, k, mover, next);
    MinimaxSwapped(c, Put(g, k, Mark(mover)), next, depth + 1, limit);
  }

  /** The score of the computer's move into cell `k` at the root: the opponent answers, depth 0, limit 10. */
  function RootScore(c: Computer, g: Grid, k: nat): int
    requires IsGrid(g) && k < 9
  {
    Minimax(c, Put(g, k, Mark(c.computer)), c.player, 0, 10)
  }

  /** The empty cells from position `k` on, in row-major order: the source's `moves` list. */
  function EmptyCells(g: Grid, k: nat): (cells: seq<nat>)
    requires IsGrid(g) && k <= 9
    ensures forall i :: 0 <= i < |cells| ==> k <= cells[i] < 9 && g[cells[i]] == Empty
    ensures forall j: nat :: k <= j < 9 && g[j] == Empty ==> j in cells
    ensures forall a, b :: 0 <= a < b < |cells| ==> cells[a] < cells[b]
    decreases 9 - k
  {
    if k == 9 then []
    else if g[k] == Empty then [k] + EmptyCells(g, k + 1)
    else EmptyCells(g, k + 1)
  }

  /**
   * The move scores are those of the empty cells from position `k` on, one each,
   * in row-major order: the order of the source's `for row` / `for col` loops.
   */
  lemma {:induction false} MoveScoresInOrder(c: Computer, g: Grid, mover: Player, next: Player, depth: nat, limit: nat, k: nat)
    requires IsGrid(g) && k <= 9
    requires next == c.computer || next == c.player
    ensures var scores, cells := MoveScores(c, g, mover, next, depth, limit, k), EmptyCells(g, k);
      && |scores| == |cells|
      && forall i :: 0 <= i < |cells| ==> scores[i] == MoveScore(c, g, mover, next, depth, limit, cells[i])
    decreases 9 - k
  {
    if k < 9 {
      MoveScoresInOrder(c, g, mover, next, depth, limit, k + 1);
      if g[k] == Empty {
        var rest := MoveScores(c, g, mover, next, depth, limit, k + 1);
        var cellsRest := EmptyCells(g, k + 1);
        var scores := MoveScores(c, g, mover, next, depth, limit, k);
        var cells := EmptyCells(g, k);
        assert scores[1..] == rest && cells[1..] == cellsRest;
      }
    }
  }

  function RootScores(c: Computer, g: Grid, cells: seq<nat>): (scores: seq<int>)
    requires IsGrid(g)
    requires forall i :: 0 <= i < |cells| ==> cells[i] < 9
    ensures |scores| == |cells|
    ensures forall i {:trigger scores[i]} :: 0 <= i < |cells| ==> scores[i] == RootScore(c, g, cells[i])
  {
    if cells == [] then []
    else [RootScore(c, g, cells[0])] + RootScores(c, g, cells[1..])
  }

  /** Cell `k` is empty, scores at least as well as every empty cell and better than every earlier one. */
  ghost predicate FirstBest(c: Computer, g: Grid, k: nat)
    requires IsGrid(g)
  {
    && k < 9 && g[k] == Empty
    && (forall j: nat :: j < 9 && g[j] == Empty ==> RootScore(c, g, j) <= RootScore(c, g, k))
    && (forall j: nat :: j < k && g[j] == Empty ==> RootScore(c, g, j) < RootScore(c, g, k))
  }

  /**
   * `Computer.calculate_move(board)` (tictactoe.py:109-125): the first empty cell
   * in row-major order with the highest score, as (row, col); None where the
   * source's `max` of an empty list raises, on a full board.
   */
  function CalculateMove(c: Computer, g: Grid): (move: Option<(nat, nat)>)
    requires IsGrid(g)
    ensures move.None? <==> HasTie(g)
    ensures move.Some? ==>
      move.value.0 < 3 && move.value.1 < 3 && FirstBest(c, g, 3 * move.value.0 + move.value.1)
  {
    var cells := EmptyCells(g, 0);
    if cells == [] then
      None
    else
      var scores := RootScores(c, g, cells);
      var i := FirstMaxIndex(scores);
      var k := cells[i];
      FirstMaxIsFirstBest(c, g, cells, scores, i);
      Some((Row(k), Col(k)))
  }

  /** The first maximal score over the empty cells in row-major order picks the first best cell. */
  lemma FirstMaxIsFirstBest(c: Computer, g: Grid, cells: seq<nat>, scores: seq<int>, i: nat)
    requires IsGrid(g) && cells == EmptyCells(g, 0) && cells != []
    requires scores == RootScores(c, g, cells) && i == FirstMaxIndex(scores)
    ensures FirstBest(c, g, cells[i])
  {
    forall j: nat | j < 9 && g[j] == Empty
      ensures RootScore(c, g, j) <= scores[i]
      ensures j < cells[i] ==> RootScore(c, g, j) < scores[i]
    {
      assert j in cells;
      var n :| 0 <= n < |cells| && cells[n] == j;
      FirstMaxSorted(cells, scores, i, n);
      assert scores[n] == RootScore(c, g, j);
    }
    assert scores[i] == RootScore(c, g, cells[i]);
  }
}
