# Games: Wordle solver, tic-tac-toe and Mancala

This project is a Dafny model of the game logic in three Python files. Properties of that logic are proved about the model.

- **Wordle (`wordle.py`).**
  - `Game.guess` judges a guess against the secret word, giving one status per position.
  - A `Solver` folds that feedback into five per-position `Constraint` objects plus a list of letters that must occur somewhere.
  - It filters its pool of candidate answers with those constraints.
  - It picks its next guess:
    - two fixed opening words;
    - then shortcuts for pools of one or two words;
    - then a worst-case-minimising search over the first ten guessable words. The search simulates every answer on a copy of the solver.
- **Tic-tac-toe (`tictactoe.py`).** A 3x3 board that is updated in place, with tests for a win and a tie. The computer uses a depth-scored minimax over copies of the board and takes the first best move in row-major order.
- **Mancala (`mancala.py`).** Twelve holes and two stores. A move sows beads in place with relay sowing (a non-empty landing hole is picked up) and can grant an extra turn. The computer runs a depth-limited minimax on store differences.

How the model is built:

- **Objects whose fields the source updates are classes**, and their methods are proved against value-level definitions. These are `WordleSolver.Constraint`, `WordleSolver.Solver`, `WordleFeedback.Game`, `TicTacToe.Board` (over an `array2`) and `MancalaBoard.Board`.
- **Read-only logic is functions** over values: feedback, constraint folding, validity, filtering, the search's choice, win/tie tests, minimax and sowing.
- **Modules:**
  - `Options` (an `Option` type);
  - `Scores` (Python's `max`, `min` and `list.index` on score lists);
  - `WordleFeedback`, `WordleConstraints`, `WordleSearch` and `WordleSolver`;
  - `TicTacToe`;
  - `MancalaBoard` and `MancalaComputer`.

## Model

| member | source | states |
|---|---|---|
| WordleFeedback.StatusAt | wordle.py:47-53 | a position is correct iff the letters agree; "elsewhere" iff they differ and the guessed letter occurs anywhere in the secret (membership, not multiplicity); incorrect iff the letter does not occur |
| WordleFeedback.Feedback | wordle.py:45-55 | the feedback has exactly five statuses, the i-th being the status of position i |
| WordleFeedback.AllCorrectIffSame | wordle.py:85 | on five-letter words the feedback is all correct exactly when the guess equals the secret |
| WordleFeedback.FeedbackIgnoresMultiplicity | wordle.py:50 | guessing "aaaaa" against "abcde" marks every extra `a` as present elsewhere, although the secret holds only one |
| WordleFeedback.Game.constructor | wordle.py:32-39 | the secret is the given word, or the randomly drawn answer when no word is given |
| WordleFeedback.Game.Guess | wordle.py:41-55 | the loop builds exactly the feedback of the guess against the secret |
| WordleConstraints.CountPositive | wordle.py:225 | a letter occurs in a list exactly when its count is positive |
| WordleConstraints.RemoveFirstCount | wordle.py:228 | `list.remove` takes away one copy of the letter and keeps the count of every other letter |
| WordleConstraints.DiscardCount | wordle.py:225-228 | the guarded removal lowers the letter's count by one when present and changes nothing else |
| WordleConstraints.DiscardNoDup | wordle.py:225-228 | a guarded removal keeps a duplicate-free list duplicate-free |
| WordleConstraints.ExcludeTimesRecords | wordle.py:250-256 | n rounds of the absent branch append the letter n times to the impossible letters and keep the solved letter |
| WordleConstraints.DiscardTimesRemoves | wordle.py:250-254 | n guarded removals take n copies of the letter away, or all of them when there are fewer |
| WordleConstraints.DiscardTimesKeeps | wordle.py:250-254 | repeated removals of one letter keep the count of every other letter |
| WordleConstraints.Count | wordle.py:225 | the number of occurrences of a letter in a list, never more than the list's length: the measure behind the `in` tests and the `remove` calls on the acceptable letters |
| WordleConstraints.NoDupCount | wordle.py:243-244 | a letter occurs at most once in a duplicate-free list |
| WordleConstraints.RemoveFirst | wordle.py:228 | `list.remove` shortens the list by one and introduces no new letter |
| WordleConstraints.RemoveFirstNoDup | wordle.py:228 | removing a letter keeps a duplicate-free list duplicate-free |
| WordleConstraints.Discard | wordle.py:225-228 | the guarded removal introduces no new letter |
| WordleConstraints.ExcludeTimesAcceptable | wordle.py:250-254 | n rounds of the absent branch act on the acceptable list as n guarded removals |
| WordleConstraints.ExcludeTimesNoDup | wordle.py:250-254 | the absent branch keeps a duplicate-free acceptable list duplicate-free |
| WordleConstraints.Elsewhere | wordle.py:223-244 | the constraints after a present-elsewhere status: position i excludes the letter once, every other position allows it; five positions remain |
| WordleConstraints.ApplyStatus | wordle.py:218-256 | one round of `calculate_constraints`: a correct status sets position i's solved letter, present-elsewhere applies `Elsewhere` and appends the letter to the must-contain list when missing, absent excludes it five times at position i |
| WordleConstraints.CalculateConstraints | wordle.py:214-256 | the five rounds applied in position order; the result still has five constraints |
| WordleConstraints.CorrectSolvesPosition | wordle.py:220-222 | a correct status overwrites the position's solved letter whatever it was; that position's lists, every other position and the must-contain list are unchanged |
| WordleConstraints.AbsentIsLocal | wordle.py:248-256 | an absent status touches only position i: the letter is appended five times to its impossible letters, up to five copies leave its acceptable letters, every other letter keeps its count, and the other positions and the must-contain list are unchanged |
| WordleConstraints.AbsentRemovesLetter | wordle.py:248-256 | on a duplicate-free acceptable list, the absent letter is no longer acceptable at that position |
| WordleConstraints.PresentElsewhere | wordle.py:223-247 | the letter leaves position i's acceptable list once (if present) and is appended to its impossible letters; every other position is unchanged when it already rules the letter out or accepts it, and otherwise gets exactly the letter appended to its acceptable list; the must-contain list is unchanged when it holds the letter and otherwise gets exactly the letter appended |
| WordleConstraints.ConstraintsAdmitFrom | wordle.py:258-270 | the zip loop from position i: false at the first position whose solved letter differs or that holds a ruled-out letter, true when either side runs out |
| WordleConstraints.ContainsAll | wordle.py:277-280 | false at the first must-contain letter missing from the word, otherwise true |
| WordleConstraints.CheckGuessValid | wordle.py:272-282 | the zip test, then the must-contain test |
| WordleConstraints.ApplyStatusTidy | wordle.py:218-256 | one status keeps every acceptable list and the must-contain list free of duplicates, and the must-contain list only grows |
| WordleConstraints.CalculateConstraintsTidy | wordle.py:214-256 | the whole fold over five positions keeps those lists duplicate-free and never shrinks the must-contain list |
| WordleConstraints.ConstraintsAdmitFromIff | wordle.py:258-270 | the zip test passes exactly when every paired position holds its solved letter (if any) and no letter ruled out there |
| WordleConstraints.ContainsAllIff | wordle.py:277-280 | the must-contain loop passes exactly when every listed letter occurs in the word |
| WordleConstraints.CheckGuessValidIff | wordle.py:272-282 | `check_guess_valid` holds exactly when the solved letters match, no position holds a ruled-out letter and every must-contain letter occurs |
| WordleConstraints.AcceptableIgnored | wordle.py:258-282 | two states that differ only in their acceptable letters judge every word alike |
| WordleConstraints.Filter | wordle.py:284-293 | filtering never lengthens the pool |
| WordleConstraints.FilterMembers | wordle.py:284-293 | a word is in the filtered pool exactly when it was in the pool and is valid |
| WordleConstraints.FilterPicksValid | wordle.py:288-291 | the filtered pool is the subsequence of the pool, in pool order, at exactly the positions of valid words |
| WordleConstraints.FilterIdempotent | wordle.py:284-293 | filtering twice with unchanged constraints gives the same pool as filtering once |
| WordleConstraints.NoKnowledgeAdmitsAll | wordle.py:104-110 | a new solver's constraints admit every word |
| WordleConstraints.StatusKeepsSecret | wordle.py:218-256 | folding in the secret's own status for one position never rules the secret out |
| WordleConstraints.NoKnowledgeTidy | wordle.py:104-110 | a new solver's lists hold no duplicates |
| WordleConstraints.FeedbackKeepsSecretFirst | wordle.py:218-256 | folding the secret's own feedback into any number of positions never rules the secret out |
| WordleConstraints.SecretSurvives | wordle.py:214-293 | when the feedback comes from the secret and the secret is in the pool and meets the constraints so far, it meets the updated constraints and survives filtering |
| WordleSearch.OutcomeSizes | wordle.py:180-194 | one pool size per answer, each the size of the copy's filtered pool and at most the pool size |
| WordleSearch.Worst | wordle.py:179-197 | the running worst case is at least 1 and at least every answer's pool size |
| WordleSearch.WorstAttained | wordle.py:179-197 | the worst case is 1 or is the pool size of some answer |
| WordleSearch.WorstBounded | wordle.py:179-197 | the worst case never exceeds a common bound of the sizes (or 1) |
| WordleSearch.WorstExtend | wordle.py:196-197 | one more answer raises the worst case to its size exactly when that size is larger |
| WordleSearch.WorstCase | wordle.py:179-197 | a candidate's worst case lies between 1 and the pool size (1 for an empty pool) |
| WordleSearch.Scores | wordle.py:174-197 | one score per candidate, each its worst case over all answers |
| WordleSearch.Skips | wordle.py:175-176 | a candidate is passed over exactly when it was guessed before |
| WordleSearch.PickFromNone | wordle.py:172-211 | the loop ends without a choice exactly when every candidate is passed over |
| WordleSearch.PickFromFirstMinimal | wordle.py:172-209 | a choice is the first candidate not passed over with a minimal score |
| WordleSearch.PickFrom | wordle.py:172-209 | a choice is always a position among the candidates |
| WordleSearch.FirstMinimalIsFirstBest | wordle.py:205-207 | the first minimal score picks a candidate not guessed before whose worst case is smallest and strictly smaller than every earlier one's |
| WordleSearch.SearchIsFirstBest | wordle.py:172-212 | the search yields None exactly when every candidate was guessed before; otherwise the first candidate not guessed before whose worst case is smallest, so the early return on 1 chooses the same word |
| WordleSearch.SearchTakesPerfect | wordle.py:201-203 | the first unguessed candidate with worst case 1 is the one returned |
| WordleSearch.FirstUnguessed | wordle.py:163-167 | None exactly when every pool word was guessed; otherwise the first pool word not guessed before |
| WordleSearch.Outcome | wordle.py:182-194 | the pool a copy keeps when the answer is the secret: the old constraints updated with the guess's feedback against the answer, then the pool filtered |
| WordleSearch.Search | wordle.py:172-212 | the candidate the loop picks from the scores and skips, starting with no best candidate and a bound of one more than the pool size |
| WordleSolver.Constraint.constructor | wordle.py:104-110 | a new constraint has nothing solved and both lists empty |
| WordleSolver.Constraint.Dup | wordle.py:112-120 | a new constraint object with the same solved letter and lists |
| WordleSolver.Constraint.Exclude | wordle.py:225-230 | the first copy of the letter leaves the acceptable list (if present) and the letter is appended to the impossible letters |
| WordleSolver.Constraint.Allow | wordle.py:238-244 | the letter is appended to the acceptable list unless it is ruled out or already acceptable |
| WordleSolver.Solver.constructor | wordle.py:126-138 | five new empty constraints, empty must-contain list, no guesses, zero guesses counted, the pool is all answers |
| WordleSolver.Solver.MarkCorrect | wordle.py:220-222 | the solver's state becomes that of a correct status at position i |
| WordleSolver.Solver.MarkPresent | wordle.py:223-244 | the constraints become those of a present-elsewhere status: excluded at i, allowed elsewhere |
| WordleSolver.Solver.MarkAbsent | wordle.py:248-256 | the solver's state becomes that of an absent status: five exclusion rounds at position i |
| WordleSolver.Solver.CalculateConstraints | wordle.py:214-256 | the solver's constraints and must-contain list become the fold of the five statuses over the old ones |
| WordleSolver.Solver.CheckGuessValidConstraints | wordle.py:258-270 | the result is the zip test of the constraints against the word |
| WordleSolver.Solver.CheckGuessValid | wordle.py:272-282 | the result is the validity of the word under the solver's state |
| WordleSolver.Solver.CalculatePossibleWords | wordle.py:284-293 | the new pool is the filter of the old pool under the current constraints |
| WordleSolver.Solver.CopyConstraints | wordle.py:300 | five new, distinct constraint objects, none shared with the solver, holding the solver's constraint values |
| WordleSolver.Solver.DeepCopy | wordle.py:295-303 | a new default solver (default opening words, no guesses) sharing no constraint object, with equal constraints, must-contain list, pool and word lists |
| WordleSolver.Solver.InlineFeedback | wordle.py:182-189 | the search's inline feedback equals `Game.guess` on the same pair |
| WordleSolver.Solver.Replay | wordle.py:193-194 | the copy's pool becomes the old pool filtered by the old constraints updated with the feedback |
| WordleSolver.Solver.OutcomeSize | wordle.py:181-194 | simulating one answer on a copy gives the size of the pool that answer would leave, and this solver is unchanged |
| WordleSolver.Solver.WorstCaseOf | wordle.py:179-197 | the loop over all answers computes the candidate's worst case |
| WordleSolver.Solver.ScoreCandidate | wordle.py:175-197 | a candidate is skipped exactly when guessed before, and otherwise scored with its worst case |
| WordleSolver.Solver.SearchGuess | wordle.py:172-209 | the loop with its early return and strict-improvement update yields the search's choice |
| WordleSolver.Solver.SearchAndRecord | wordle.py:172-212 | the search's choice, possibly None, is returned and appended to the guesses |
| WordleSolver.Solver.UnguessedInPool | wordle.py:163-167 | the loop returns the first pool word not guessed before, if any |
| WordleSolver.Solver.GuessFromPool | wordle.py:160-212 | a one-word pool returns its word and a two-word pool its first unguessed word, both unrecorded; otherwise the search's choice is returned and recorded |
| WordleSolver.Solver.CalculateGuess | wordle.py:140-212 | call 0 returns and records the starting word; call 1 filters, then returns and records the next word; later calls filter and then guess from the pool; the guess count always rises by one |
| Scores.Max | tictactoe.py:157 | the maximum is an element and bounds every element from above |
| Scores.Min | tictactoe.py:171 | the minimum is an element and bounds every element from below |
| Scores.IndexOf | tictactoe.py:125 | `list.index`: a position holding the value, with no earlier position holding it |
| Scores.FirstMaxIndex | tictactoe.py:125 | the first position holding a maximal score |
| Scores.MinNegated | mancala.py:141-144 | the minimum of negated scores is the negated maximum |
| Scores.MaxNegated | mancala.py:141-144 | the maximum of negated scores is the negated minimum |
| Scores.FirstMaxSorted | tictactoe.py:125 | over increasing keys, the first maximal score is at least every score and beats every earlier key |
| TicTacToe.Row | tictactoe.py:115-116 | the row of a cell in row-major order |
| TicTacToe.Col | tictactoe.py:115-116 | the column of a cell, so that the cell is 3 times its row plus its column |
| TicTacToe.Put | tictactoe.py:24-28 | the written cell holds the new mark and every other cell is unchanged |
| TicTacToe.EmptyFromPut | tictactoe.py:148-151 | filling an empty cell leaves exactly one empty cell fewer |
| TicTacToe.CountEmptyPut | tictactoe.py:148-151 | each move of the search removes one empty cell, which bounds the recursion depth |
| TicTacToe.EmptyFromZero | tictactoe.py:63-67 | no empty cell remains exactly when every cell is set |
| TicTacToe.HasWonIffLine | tictactoe.py:36-57 | `has_won` holds exactly when one of the three rows, three columns or two diagonals is entirely the player's |
| TicTacToe.WinningLine | tictactoe.py:36-57 | a win names a line the player owns |
| TicTacToe.OwnedLineWins | tictactoe.py:36-57 | owning any line is a win |
| TicTacToe.HasWon | tictactoe.py:36-57 | the rows, then the columns, then the two diagonals, tested for three marks of the player |
| TicTacToe.HasTie | tictactoe.py:59-67 | every one of the nine cells holds a mark |
| TicTacToe.HasTieIffNoEmpty | tictactoe.py:59-67 | `has_tie` holds exactly when no cell is empty |
| TicTacToe.TieIgnoresWinner | tictactoe.py:59-67 | a full board that a player has won still counts as a tie: the tie test does not look for a winner |
| TicTacToe.Board.Value | tictactoe.py:6-14 | the board's value is its nine cells, row by row |
| TicTacToe.Board.constructor | tictactoe.py:10-14 | a new board owns a new grid with every cell empty |
| TicTacToe.Board.FromGrid | tictactoe.py:10-14 | a board built from a grid holds exactly that grid |
| TicTacToe.Board.Get | tictactoe.py:30-34 | the cell at (row, col) |
| TicTacToe.Board.IsSet | tictactoe.py:16-22 | true exactly when the cell holds a mark |
| TicTacToe.Board.Set | tictactoe.py:24-28 | afterwards the cell holds the player's mark and every other cell is unchanged |
| TicTacToe.Board.Duplicate | tictactoe.py:69-73 | a new board over a new grid with the same cells |
| TicTacToe.Board.TryOnCopy | tictactoe.py:119-120 | the copy holds the move and the original board is unchanged |
| TicTacToe.Evaluate | tictactoe.py:86-95 | within a game (depth below 10) the score is positive exactly when the computer has won, negative exactly when the player has won and the computer has not (the computer is tested first), and zero otherwise; a non-zero score is worth the 10 - depth moves left, so sooner wins count more |
| TicTacToe.GameOver | tictactoe.py:97-107 | the computer has won, or the player has won, or the board is a tie |
| TicTacToe.Minimax | tictactoe.py:127-171 | the evaluation at game over or at depth == limit; otherwise the maximum of the computer's move scores (-1 when there are none) or the minimum of the player's (1 when there are none) |
| TicTacToe.MoveScore | tictactoe.py:148-153 | the mover fills one empty cell of a copy and the search continues one level deeper with the other side to move |
| TicTacToe.RootScore | tictactoe.py:119-121 | the search at depth 0 with limit 10 on the board after the computer's move, with the player to answer |
| TicTacToe.MoveScores | tictactoe.py:145-154 | one score per empty cell from position k on |
| TicTacToe.MoveScoresInOrder | tictactoe.py:145-154 | the i-th score is the score of the move into the i-th empty cell in row-major order, as the nested `for row` / `for col` loops collect them |
| TicTacToe.FullBoardEvaluates | tictactoe.py:131-135 | on a board with no empty cell the search stops at the evaluation, so the empty-list defaults are never used |
| TicTacToe.MinimaxBounded | tictactoe.py:127-171 | within the default limit, a search started at depth d scores between d - 10 and 10 - d |
| TicTacToe.MoveScoresBounded | tictactoe.py:143-171 | every move score one level deeper lies within the bounds of that depth |
| TicTacToe.MoveScoreBounded | tictactoe.py:148-153 | a move tried on a copy scores within the bounds one level deeper |
| TicTacToe.Swapped | tictactoe.py:79-84 | the computer and the player exchange roles; not a model of `Computer.__init__` itself but the device that states the zero-sum lemmas `MinimaxSwapped` and its companions |
| TicTacToe.PutKeepsNoWin | tictactoe.py:148-151 | one player's mark never gives another player a line |
| TicTacToe.MinimaxSwapped | tictactoe.py:127-171 | the search is zero-sum: exchanging the two roles negates the score on any board that at most one player has won |
| TicTacToe.MoveScoresSwapped | tictactoe.py:143-171 | exchanging roles negates every move score |
| TicTacToe.MoveScoreSwapped | tictactoe.py:148-153 | exchanging roles negates the score of one move |
| TicTacToe.EmptyCells | tictactoe.py:113-123 | the list of moves is exactly the empty cells, in increasing row-major order |
| TicTacToe.RootScores | tictactoe.py:119-123 | one score per move, each the minimax score of the computer's move there with the player to answer |
| TicTacToe.CalculateMove | tictactoe.py:109-125 | None exactly on a full board; otherwise a valid empty cell with maximal score, and the first such cell in row-major order |
| TicTacToe.FirstMaxIsFirstBest | tictactoe.py:125 | the first maximum of the scores over the row-major move list is the first best cell |
| MancalaBoard.Other | mancala.py:98 | the other player differs from the mover |
| MancalaBoard.NextHole | mancala.py:51 | the next hole is the following one modulo 12, so holes 0 to 10 step up by one and 11 wraps to 0 |
| MancalaBoard.SumUpdate | mancala.py:54 | changing one hole changes the bead total by the difference |
| MancalaBoard.Bank | mancala.py:32-48 | at the mover's store hole (11 for 'a', 5 for 'b') one bead goes into the mover's store; elsewhere nothing changes |
| MancalaBoard.Drop | mancala.py:51-65 | step to the next hole and drop a bead; with beads left, go on; with the hand empty, pick up the hole if it now holds more than one bead, otherwise end the turn |
| MancalaBoard.SowPass | mancala.py:30-65 | one pass of the loop: bank at the store hole, returning True if that was the last bead, else drop; a pass that goes on leaves twelve holes, a hole number and beads in hand |
| MancalaBoard.SowPassProgress | mancala.py:30-65 | each pass of the `while beads` loop that goes on either banks a bead or moves one hole closer to the mover's store hole (the loop's termination measure) |
| MancalaBoard.SowPassConserves | mancala.py:30-65 | a pass that goes on keeps every bead, leaves the opponent's store alone and never shrinks the mover's store |
| MancalaBoard.SowPassEnds | mancala.py:37-65 | a pass that ends keeps every bead; True follows a banked last bead and a grown store; False leaves the last bead alone in the hole it landed in |
| MancalaBoard.SowFrom | mancala.py:30-65 | sowing to the end keeps twelve holes |
| MancalaBoard.SowFromFinished | mancala.py:37-65 | a pass that stops ends the move with its result |
| MancalaBoard.SowFromContinue | mancala.py:59-62 | a relay pass leaves the rest of the move to start where it stopped, one pass shorter |
| MancalaBoard.SowFromConserves | mancala.py:30-65 | sowing to the end conserves beads and the opponent's store; the mover's store never shrinks and grows whenever a further turn is granted |
| MancalaBoard.SowFromEndsInSingleton | mancala.py:57-65 | a turn that ends without a further turn leaves a hole holding exactly one bead |
| MancalaBoard.SowFacts | mancala.py:17-65 | an empty hole returns False and changes nothing; holes stay twelve; beads are conserved; only the mover's store grows; a further turn banks a bead; an ended turn leaves its last bead alone |
| MancalaBoard.Sow | mancala.py:17-65 | an empty hole returns False and changes nothing; otherwise the hole is emptied and its beads are sown to the end |
| MancalaBoard.Board.constructor | mancala.py:8-15 | the given stores and holes, or four beads in each of twelve holes when no holes are given |
| MancalaBoard.Board.Move | mancala.py:17-65 | the loop leaves the board and return value that sowing the hole prescribes |
| MancalaBoard.Board.SowOnePass | mancala.py:30-65 | one iteration of the loop body performs one pass: it ends the move with its return value or goes on from the next hole |
| MancalaBoard.Board.Dup | mancala.py:67-71 | a new board with equal stores and holes |
| MancalaComputer.MovesFrom | mancala.py:150-152 | exactly the non-empty holes from a given hole on, each once, in increasing order |
| MancalaComputer.FindAllMoves | mancala.py:146-152 | exactly the non-empty holes on both sides, each once, in increasing order |
| MancalaComputer.NoMovesIffEmpty | mancala.py:146-152 | no move exists exactly when every hole is empty |
| MancalaComputer.MoveForSearch | mancala.py:124-131 | a move tried in the search keeps the board well formed and its beads, and a further turn leaves fewer beads in the holes (the search's termination measure) |
| MancalaComputer.StoreDifference | mancala.py:113-116 | the computer's store minus the opponent's: a - b for 'a', b - a for 'b' |
| MancalaComputer.Evaluate | mancala.py:107-144 | the store difference at the depth limit or when no move is left; otherwise the minimum of the move scores when the opponent moves and the maximum when the computer moves |
| MancalaComputer.MoveScore | mancala.py:124-131 | a move played on a copy: an ended turn passes to the other side one level deeper; a further turn searches again for the same side at the same depth |
| MancalaComputer.RootScore | mancala.py:95-102 | the search value after the computer's move, at depth 0 whether or not the computer moves again |
| MancalaComputer.MoveScores | mancala.py:121-131 | one score per move |
| MancalaComputer.MoveScoresInOrder | mancala.py:121-131 | the i-th move score is the score of the i-th move, as the source's `scores[move]` entries pair each move with its own search value |
| MancalaComputer.RootScores | mancala.py:93-102 | one score per move, each the search value after the computer's move, starting at depth 0 either way |
| MancalaComputer.Calculate | mancala.py:85-105 | None exactly when every hole is empty; otherwise a non-empty hole with maximal score, the lowest-numbered such hole |
| MancalaComputer.FirstMaxIsFirstBest | mancala.py:105 | the first maximum over the increasing move list is the first best hole |
| MancalaComputer.EvaluateBounded | mancala.py:107-144 | every search value lies between minus and plus the board's total beads |
| MancalaComputer.MoveScoresBounded | mancala.py:121-131 | every move score lies within the bead bounds |
| MancalaComputer.MoveScoreBounded | mancala.py:124-131 | one move's score lies within the bead bounds |
| MancalaComputer.RootScoreBounded | mancala.py:93-102 | a root score lies within the bead bounds |
| MancalaComputer.EvaluateZeroSum | mancala.py:107-144 | the search is zero-sum: a position's value for the computer playing 'a' is the negation of its value for 'b' |
| MancalaComputer.MoveScoresZeroSum | mancala.py:121-131 | the move scores for 'a' are the negated move scores for 'b' |
| MancalaComputer.MoveScoreZeroSum | mancala.py:124-131 | one move's score for 'a' is the negation of its score for 'b' |

## Left out

- File loading of the word lists (wordle.py:12-22, 306). `WORDLE_WORDS` and `WORDLE_ANSWERS` are parameters of the `Solver` constructor. `my_words` is the first ten entries of `WORDLE_WORDS` (wordle.py:132).
- The random choice of the secret (wordle.py:25-26, 39). The drawn answer is the constructor parameter `drawn` of `WordleFeedback.Game`.
- Console play, `input`, ANSI-coloured and other printing, and the drivers: wordle.py:57-98 and 308-368, the pygame `Game` class of tictactoe.py:173-298, and mancala.py:104 and 155-187.
- Lowercasing with `str.lower` (wordle.py:37, 46). Inputs are taken to be lowercase already.
- `copy.deepcopy` mechanics. `WordleSolver.Solver.DeepCopy` models the solver's own `__deepcopy__`: a default `Solver()` that receives copies of the constraints, the must-contain list and the pool.
- Word length. `Feedback`, `Game.Guess`, `CalculateConstraints` and `Solver.CalculateConstraints` require words of at least five letters, where the source indexes five positions; Python would raise `IndexError` on shorter words. `IsWord` and `WordLists` require exactly five letters, so `AllCorrectIffSame`, `SecretSurvives`, `InlineFeedback`, `WorstCaseOf`, the guess search and `CalculateGuess` do not cover longer words, which Python accepts, judging only their first five positions.
- WordleSolver.Solver.CalculateConstraints: `must_contain_somewhere` is kept in a local variable during the loop and written back once. Nothing reads it inside the loop, so the result is the same.
- WordleSolver.Solver.SearchGuess: tracks the best candidate by its position among the candidates and returns its word. Because the candidate list is a prefix of a Python list, the returned word is the same.
- WordleConstraints.AbsentIsLocal: states the acceptable letters of position i by the count of every letter, not as an exact list, so the order of the remaining letters is not stated.
- The shared mutable default grid of `Board.__init__` (tictactoe.py:10). Every board built without a grid gets a fresh one.
- TicTacToe.Board.Set and TicTacToe.Board.Get require row and column below 3. Python would index negatively or raise for other positions.
- TicTacToe.Minimax requires the mover to be the computer or the player. For any other value the source falls through and returns `None`.
- TicTacToe.MinimaxSwapped requires the two marks to differ. The computer and the player are always 'X' and 'O' in the game.
- TicTacToe.CalculateMove returns None on a full board, where the source's `max` of an empty list raises.
- MancalaComputer.Calculate returns None when every hole is empty, where `max` of an empty dictionary raises. The `print(scores)` is left out.
- `find_all_moves` builds a set that still holds `None` and then discards it (mancala.py:150-152). The order of such a set depends on the Python version. The model assumes increasing hole order, so ties go to the lowest hole.
- MancalaBoard.Board.Move requires a hole number below 12. The interactive loop passes unchecked user input.
- MancalaBoard.Board.Move: after the `while beads` loop the source would return `None`. That point is unreachable: every pass that empties the hand returns. The model returns False there.
- MancalaBoard.SowFacts: states that a further turn comes with a grown store and fewer beads in the holes, and that an ended turn leaves some hole holding one bead. Which hole the last bead reached is stated per pass by `SowPassEnds` and `SowOnePass`.
