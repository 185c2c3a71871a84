/**
 * The feedback of wordle.py's `Game.guess`: one status per position of the
 * guess, judged against the secret word.
 */
module WordleFeedback {

  /**
   * The three status values; the source encodes them as the integers 0
   * (`STATUS_LETTER_INCORRECT`), 1 (`STATUS_LETTER_INCORRECT_POSITION`) and 2
   * (`STATUS_LETTER_CORRECT`).
   */
  datatype Status = Incorrect | IncorrectPosition | Correct

  /** The word lists hold five-letter words. */
  predicate IsWord(w: string)
  {
    |w| == 5
  }

  /**
   * The status of position `i`: correct when the letters agree, otherwise
   * "elsewhere" when the guessed letter occurs anywhere in the secret (its
   * number of occurrences is never counted), otherwise incorrect.
   */
  function StatusAt(guess: string, word: string, i: nat): (st: Status)
    requires i < |guess| && i < |word|
    ensures st == Correct <==> guess[i] == word[i]
    ensures st == IncorrectPosition <==> guess[i] != word[i] && guess[i] in word
    ensures st == Incorrect <==> guess[i] !in word
  {
    if guess[i] == word[i] then Correct
    else if guess[i] in word then IncorrectPosition
    else Incorrect
  }

  /** The feedback for the first five positions (wordle.py:41-55). */
  function Feedback(guess: string, word: string): (r: seq<Status>)
    requires |guess| >= 5 && |word| >= 5
    ensures |r| == 5
    ensures forall i :: 0 <= i < 5 ==> r[i] == StatusAt(guess, word, i)
  {
    seq(5, i requires 0 <= i < 5 => StatusAt(guess, word, i))
  }

  const AllCorrect: seq<Status> := [Correct, Correct, Correct, Correct, Correct]

  /** The feedback is all correct exactly when the guess is the secret (the winning test of wordle.py:85). */
  lemma AllCorrectIffSame(guess: string, word: string)
    requires IsWord(guess) && IsWord(word)
    ensures Feedback(guess, word) == AllCorrect <==> guess == word
  {
    var r := Feedback(guess, word);
    if r == AllCorrect {
      forall i | 0 <= i < 5 ensures guess[i] == word[i] {
        assert r[i] == Correct;
      }
    }
  }

  /**
   * Occurrences are not counted: against "abcde", every extra `a` of the guess
   * "aaaaa" is still reported as present elsewhere.
   */
  lemma FeedbackIgnoresMultiplicity()
    ensures Feedback("aaaaa", "abcde") == [Correct, IncorrectPosition, IncorrectPosition, IncorrectPosition, IncorrectPosition]
  {
    var r := Feedback("aaaaa", "abcde");
    assert "abcde"[0] == 'a';
    assert r[1] == IncorrectPosition && r[2] == IncorrectPosition;
    assert r[3] == IncorrectPosition && r[4] == IncorrectPosition;
  }

  /** The Wordle game of wordle.py: a secret word and the guess judge. */
  class Game {
    const word: string

    /**
     * `Game(word)` (wordle.py:33-39): the given word, or, when none (or the empty
     * string) is given, the answer drawn at random, which arrives here as `drawn`.
     */
    constructor (word: string, drawn: string)
      ensures this.word == if word != [] then word else drawn
    {
      this.word := if word != [] then word else drawn;
    }

    /** `Game.guess(guess)` (wordle.py:41-55): the statuses, built position by position. */
    method Guess(guess: string) returns (values: seq<Status>)
      requires |guess| >= 5 && |word| >= 5
      ensures values == Feedback(guess, word)
    {
      values := [];
      for i := 0 to 5
        invariant values == Feedback(guess, word)[..i]
      {
        if guess[i] == word[i] {
          values := values + [Correct];
        } else if guess[i] in word {
          values := values + [IncorrectPosition];
        } else {
          values := values + [Incorrect];
        }
      }
    }
  }
}
