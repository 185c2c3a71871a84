/**
 * wordle.py's `Constraint` and `Solver` objects: the state the solver updates
 * in place, and its methods, each proved against the value-level definitions
 * of the modules it imports.
 */
module WordleSolver {
  import opened Options
  import opened WordleFeedback
  import opened WordleConstraints
  import opened WordleSearch

  /** The default opening words of `Solver()` (wordle.py:126). */
  const DefaultStartingWord: string := "reais"
  const DefaultNextWord: string := "blahs"

  /** `Constraint` (wordle.py:100-120): what one position of the secret may hold. */
  class Constraint {
    var solved: Option<char>
    var acceptable: seq<char>
    var incorrect: seq<char>

    function Value(): ConstraintValue
      reads this
    {
      ConstraintValue(solved, acceptable, incorrect)
    }

    /** `Constraint()` (wordle.py:104-110): nothing solved, no letters recorded. */
    constructor ()
      ensures Value() == NoConstraint
    {
      solved := None;
      acceptable := [];
      incorrect := [];
    }

    /** `dup()` (wordle.py:112-120): a new constraint with copies of the lists. */
    method Dup() returns (c: Constraint)
      ensures fresh(c) && c.Value() == Value()
    {
      c := new Constraint();
      c.solved := solved;
      c.acceptable := acceptable;
      c.incorrect := incorrect;
    }

    /**
     * One round of ruling `x` out here (wordle.py:226-230 and 251-256): the
     * first copy leaves the acceptable letters, and `x` is recorded as impossible.
     */
    method Exclude(x: char)
      modifies this
      ensures Value() == WordleConstraints.Exclude(old(Value()), x)
    {
      if x in acceptable {
        acceptable := RemoveFirst(acceptable, x);
      }
      incorrect := incorrect + [x];
    }

    /**
     * `x` becomes acceptable here unless it is ruled out or already acceptable
     * (one round of the inner loop of wordle.py:232-243).
     */
    method Allow(x: char)
      modifies this
      ensures Value() == WordleConstraints.Allow(old(Value()), x)
    {
      if x in incorrect {
        return;
      }
      if x !in acceptable {
        acceptable := acceptable + [x];
      }
    }
  }

  /** `Solver` (wordle.py:122-303). */
  class Solver {
    /** `WORDLE_WORDS` and `WORDLE_ANSWERS`, the word lists the solver reads. */
    const words: seq<string>
    const answers: seq<string>
    const startingWord: string
    const nextWord: string
    /** The candidates of the search: the first ten guessable words. */
    const myWords: seq<string> := if |words| <= 10 then words else words[..10]

    var numGuesses: nat
    /** The recorded guesses; a search that finds nothing records `None`. */
    var guesses: seq<Option<string>>
    var constraints: seq<Constraint>
    var mustContain: seq<char>
    var possibleWords: seq<string>

    /** Five distinct constraint objects. */
    predicate Valid()
      reads this`constraints
    {
      Distinct(constraints)
    }

    static predicate Distinct(cs: seq<Constraint>)
    {
      && |cs| == 5
      && forall a, b :: 0 <= a < 5 && 0 <= b < 5 && a != b ==> cs[a] != cs[b]
    }

    /** The word lists hold five-letter words, as the search needs. */
    predicate WordLists()
    {
      AllWords(myWords) && AllWords(answers)
    }

    /** Five objects, pairwise different, are five distinct constraints. */
    static lemma DistinctFive(cs: seq<Constraint>)
      requires |cs| == 5
      requires cs[0] != cs[1] && cs[0] != cs[2] && cs[0] != cs[3] && cs[0] != cs[4] && cs[1] != cs[2]
      requires cs[1] != cs[3] && cs[1] != cs[4] && cs[2] != cs[3] && cs[2] != cs[4] && cs[3] != cs[4]
      ensures Distinct(cs)
    {
    }

    /** What the solver knows, as a value. */
    function Known(): (k: Knowledge)
      requires |constraints| == 5
      reads this`constraints, this`mustContain, constraints
      ensures IsKnowledge(k)
    {
      Knowledge([constraints[0].Value(), constraints[1].Value(), constraints[2].Value(),
                 constraints[3].Value(), constraints[4].Value()], mustContain)
    }

    /** `Solver(starting_word, next_word)` (wordle.py:126-138). */
    constructor (words: seq<string>, answers: seq<string>, startingWord: string, nextWord: string)
      ensures Valid() && Known() == NoKnowledge
      ensures fresh(constraints[0]) && fresh(constraints[1]) && fresh(constraints[2])
      ensures fresh(constraints[3]) && fresh(constraints[4])
      ensures this.words == words && this.answers == answers
      ensures this.startingWord == startingWord && this.nextWord == nextWord
      ensures numGuesses == 0 && guesses == [] && possibleWords == answers
    {
      this.words := words;
      this.answers := answers;
      this.startingWord := startingWord;
      this.nextWord := nextWord;
      numGuesses := 0;
      guesses := [];
      var c0 := new Constraint();
      var c1 := new Constraint();
      var c2 := new Constraint();
      var c3 := new Constraint();
      var c4 := new Constraint();
      constraints := [c0, c1, c2, c3, c4];
      mustContain := [];
      possibleWords := answers;
    }

    /** The "correct" branch of `calculate_constraints` (wordle.py:218-222): the letter is recorded as solved. */
    method MarkCorrect(i: nat, x: char)
      requires Valid() && i < 5
      modifies constraints
      ensures Known() == ApplyStatus(old(Known()), i, x, Correct)
    {
      constraints[i].solved := Some(x);
    }

    /**
     * The constraint updates of the "present elsewhere" branch (wordle.py:223-243):
     * `x` is ruled out at `i` and becomes acceptable everywhere it is not ruled out.
     */
    method MarkPresent(i: nat, x: char)
      requires Valid() && i < 5
      modifies constraints
      ensures Known().constraints == Elsewhere(old(Known()).constraints, i, x)
    {
      ghost var cs := Known().constraints;
      ghost var target := Elsewhere(cs, i, x);
      constraints[i].Exclude(x);
      for j := 0 to 5
        invariant forall m :: 0 <= m < 5 ==>
          constraints[m].Value() == if m == i || m < j then target[m] else cs[m]
        modifies constraints
      {
        if j != i {
          constraints[j].Allow(x);
        }
      }
      assert constraints[0].Value() == target[0] && constraints[1].Value() == target[1];
      assert constraints[2].Value() == target[2] && constraints[3].Value() == target[3];
      assert constraints[4].Value() == target[4];
    }

    /** The "absent" branch of `calculate_constraints` (wordle.py:248-256): five rounds on position `i`. */
    method MarkAbsent(i: nat, x: char)
      requires Valid() && i < 5
      modifies constraints
      ensures Known() == ApplyStatus(old(Known()), i, x, Incorrect)
    {
      ghost var cs := Known().constraints;
      var c := constraints[i];
      for j := 0 to 5
        invariant c.Value() == ExcludeTimes(cs[i], x, j)
        modifies c
      {
        c.Exclude(x);
      }
    }

    /** `calculate_constraints(guess, status)` (wordle.py:214-256). */
    method CalculateConstraints(guess: string, status: seq<Status>)
      requires Valid() && |guess| >= 5 && |status| >= 5
      modifies this`mustContain, constraints
      ensures Known() == WordleConstraints.CalculateConstraints(old(Known()), guess, status)
    {
      ghost var k := Known();
      var must := mustContain;
      for i := 0 to 5
        invariant Known().(mustContain := must) == ApplyFirst(k, guess, status, i)
        modifies constraints
      {
        var letter := guess[i];
        match status[i]
        case Correct =>
          MarkCorrect(i, letter);
        case IncorrectPosition =>
          MarkPresent(i, letter);
          if letter !in must {
            must := must + [letter];
          }
        case Incorrect =>
          MarkAbsent(i, letter);
      }
      mustContain := must;
    }

    /** `check_guess_valid_constraints(guess)` (wordle.py:258-270); `zip` stops at the shorter side. */
    method CheckGuessValidConstraints(guess: string) returns (ok: bool)
      requires Valid()
      ensures ok == ConstraintsAdmitFrom(Known().constraints, guess, 0)
    {
      ghost var cs := Known().constraints;
      var n := if |guess| < 5 then |guess| else 5;
      for i := 0 to n
        invariant ConstraintsAdmitFrom(cs, guess, 0) == ConstraintsAdmitFrom(cs, guess, i)
      {
        var c := constraints[i];
        if c.solved.Some? && guess[i] != c.solved.value {
          return false;
        }
        if guess[i] in c.incorrect {
          return false;
        }
      }
      return true;
    }

    /** `check_guess_valid(guess)` (wordle.py:272-282). */
    method CheckGuessValid(guess: string) returns (ok: bool)
      requires Valid()
      ensures ok == WordleConstraints.CheckGuessValid(Known(), guess)
    {
      ok := CheckGuessValidConstraints(guess);
      if !ok {
        return;
      }
      for m := 0 to |mustContain|
        invariant ContainsAll(mustContain, guess) == ContainsAll(mustContain[m..], guess)
      {
        assert mustContain[m..][1..] == mustContain[m + 1..];
        if mustContain[m] !in guess {
          return false;
        }
      }
      return true;
    }

    /** `calculate_possible_words()` (wordle.py:284-293): keep the valid words of the pool, in order. */
    method CalculatePossibleWords()
      requires Valid()
      modifies this`possibleWords
      ensures possibleWords == Filter(Known(), old(possibleWords))
    {
      var pool := possibleWords;
      var kept: seq<string> := [];
      for p := 0 to |pool|
        invariant kept == Filter(Known(), pool[..p])
        modifies {}
      {
        assert pool[..p + 1][..p] == pool[..p];
        var ok := CheckGuessValid(pool[p]);
        if ok {
          kept := kept + [pool[p]];
        }
      }
      assert pool[..|pool|] == pool;
      possibleWords := kept;
    }

    /** Copies of the five constraints (wordle.py:300), five new objects. */
    method CopyConstraints() returns (cs: seq<Constraint>)
      requires Valid()
      ensures Distinct(cs)
      ensures fresh(cs[0]) && fresh(cs[1]) && fresh(cs[2]) && fresh(cs[3]) && fresh(cs[4])
      ensures forall m :: 0 <= m < 5 ==> constraints[m] !in cs
      ensures [cs[0].Value(), cs[1].Value(), cs[2].Value(), cs[3].Value(), cs[4].Value()] == Known().constraints
    {
      var c0 := constraints[0].Dup();
      var c1 := constraints[1].Dup();
      var c2 := constraints[2].Dup();
      var c3 := constraints[3].Dup();
      var c4 := constraints[4].Dup();
      cs := [c0, c1, c2, c3, c4];
      DistinctFive(cs);
    }

    /**
     * `__deepcopy__` (wordle.py:295-303): a new default solver carrying copies of
     * the constraints, the letters known to be present and the pool.
     */
    method DeepCopy() returns (s: Solver)
      requires Valid()
      ensures fresh(s) && s.Valid()
      ensures fresh(s.constraints[0]) && fresh(s.constraints[1]) && fresh(s.constraints[2])
      ensures fresh(s.constraints[3]) && fresh(s.constraints[4])
      ensures forall m :: 0 <= m < 5 ==> constraints[m] !in s.constraints
      ensures s.Known() == Known() && s.possibleWords == possibleWords
      ensures s.words == words && s.answers == answers && s.myWords == myWords
      ensures s.startingWord == DefaultStartingWord && s.nextWord == DefaultNextWord
      ensures s.numGuesses == 0 && s.guesses == []
    {
      var cs := CopyConstraints();
      s := new Solver(words, answers, DefaultStartingWord, DefaultNextWord);
      s.constraints := cs;
      s.mustContain := mustContain;
      s.possibleWords := possibleWords;
    }

    /** The feedback the search computes inline (wordle.py:182-189), starting from all zeros. */
    static method InlineFeedback(guess: string, answer: string) returns (values: seq<Status>)
      requires IsWord(guess) && IsWord(answer)
      ensures values == Feedback(guess, answer)
    {
      values := [Incorrect, Incorrect, Incorrect, Incorrect, Incorrect];
      for i := 0 to 5
        invariant |values| == 5
        invariant forall j :: 0 <= j < i ==> values[j] == StatusAt(guess, answer, j)
      {
        if guess[i] == answer[i] {
          values := values[i := Correct];
        } else if guess[i] in answer {
          values := values[i := IncorrectPosition];
        } else {
          values := values[i := Incorrect];
        }
      }
    }

    /**
     * What a copy of the solver does with one answer (wordle.py:193-194): it
     * takes the feedback and filters its pool.
     */
    method Replay(guess: string, values: seq<Status>)
      requires Valid() && |guess| >= 5 && |values| >= 5
      modifies this`mustContain, this`possibleWords, constraints
      ensures possibleWords == Filter(WordleConstraints.CalculateConstraints(old(Known()), guess, values), old(possibleWords))
    {
      CalculateConstraints(guess, values);
      CalculatePossibleWords();
    }

    /**
     * One answer of the worst-case loop (wordle.py:181-194): a copy of the
     * solver replays the feedback; this solver is untouched.
     */
    method OutcomeSize(guess: string, answer: string) returns (n: nat)
      requires Valid() && IsWord(guess) && IsWord(answer)
      ensures n == |Outcome(Known(), possibleWords, guess, answer)|
    {
      var values := InlineFeedback(guess, answer);
      var copy := DeepCopy();
      copy.Replay(guess, values);
      n := |copy.possibleWords|;
    }

    /** The worst case of one candidate (wordle.py:179-197): the largest pool any answer leaves. */
    method WorstCaseOf(guess: string) returns (worst: nat)
      requires Valid() && WordLists() && IsWord(guess)
      ensures worst == WorstCase(Known(), possibleWords, guess, answers)
    {
      ghost var k := Known();
      ghost var sizes := OutcomeSizes(k, possibleWords, guess, answers);
      worst := 1;
      for a := 0 to |answers|
        invariant worst == Worst(sizes[..a])
      {
        var n := OutcomeSize(guess, answers[a]);
        assert n == sizes[a];
        WorstExtend(sizes, a);
        if n > worst {
          worst := n;
        }
      }
      assert sizes[..|answers|] == sizes;
    }

    /**
     * One candidate of the search loop (wordle.py:175-197): passed over when it
     * was guessed before, otherwise scored by its worst case.
     */
    method ScoreCandidate(i: nat) returns (skipped: bool, worst: nat)
      requires Valid() && WordLists() && i < |myWords|
      ensures skipped == Skips(guesses, myWords)[i]
      ensures !skipped ==> worst == Scores(Known(), possibleWords, answers, myWords)[i]
    {
      var guess := myWords[i];
      if Some(guess) in guesses {
        return true, 0;
      }
      skipped := false;
      worst := WorstCaseOf(guess);
    }

    /**
     * The search loop of `calculate_guess` (wordle.py:172-209), before the
     * choice is recorded; the best candidate so far is kept by its position.
     */
    method SearchGuess() returns (best: Option<string>)
      requires Valid() && WordLists()
      ensures best == Search(Known(), possibleWords, answers, guesses, myWords)
    {
      ghost var scores := Scores(Known(), possibleWords, answers, myWords);
      ghost var skip := Skips(guesses, myWords);
      var bestAt: Option<nat> := None;
      var bestLen := |possibleWords| + 1;
      ghost var pick := PickFrom(scores, skip, 0, bestAt, bestLen);
      assert Search(Known(), possibleWords, answers, guesses, myWords) == Named(myWords, pick);
      for i := 0 to |myWords|
        invariant bestAt.Some? ==> bestAt.value < i
        invariant pick == PickFrom(scores, skip, i, bestAt, bestLen)
      {
        var skipped, worst := ScoreCandidate(i);
        if skipped {
          continue;
        }
        if worst == 1 {
          return Some(myWords[i]);
        }
        if worst < bestLen {
          bestAt := Some(i);
          bestLen := worst;
        }
      }
      best := Named(myWords, bestAt);
    }

    /** The loop for a pool of two words (wordle.py:163-167). */
    method UnguessedInPool() returns (r: Option<string>)
      ensures r == FirstUnguessed(possibleWords, guesses)
    {
      for m := 0 to |possibleWords|
        invariant FirstUnguessed(possibleWords, guesses) == FirstUnguessed(possibleWords[m..], guesses)
      {
        assert possibleWords[m..][1..] == possibleWords[m + 1..];
        if Some(possibleWords[m]) !in guesses {
          return Some(possibleWords[m]);
        }
      }
      return None;
    }

    /**
     * The part of `calculate_guess` after the pool is filtered (wordle.py:157-212):
     * the shortcuts for pools of one and two words, which are not recorded, then
     * the search, whose choice (possibly `None`) is recorded.
     */
    method GuessFromPool() returns (g: Option<string>)
      requires Valid() && WordLists()
      modifies this`guesses
      ensures if |possibleWords| == 1 then
                g == Some(possibleWords[0]) && guesses == old(guesses)
              else if |possibleWords| == 2 && FirstUnguessed(possibleWords, old(guesses)).Some? then
                g == FirstUnguessed(possibleWords, old(guesses)) && guesses == old(guesses)
              else
                g == Search(Known(), possibleWords, answers, old(guesses), myWords) && guesses == old(guesses) + [g]
    {
      if |possibleWords| == 1 {
        return Some(possibleWords[0]);
      }
      if |possibleWords| == 2 {
        var r := UnguessedInPool();
        if r.Some? {
          return r;
        }
      }
      g := SearchAndRecord();
    }

    /** The search of wordle.py:172-212, whose choice is recorded among the guesses. */
    method SearchAndRecord() returns (g: Option<string>)
      requires Valid() && WordLists()
      modifies this`guesses
      ensures g == Search(Known(), possibleWords, answers, old(guesses), myWords) && guesses == old(guesses) + [g]
    {
      g := SearchGuess();
      guesses := guesses + [g];
    }

    /**
     * `calculate_guess()` (wordle.py:140-212): the two opening words, then a
     * guess from the filtered pool.
     */
    method CalculateGuess() returns (g: Option<string>)
      requires Valid() && WordLists()
      modifies this`numGuesses, this`guesses, this`possibleWords
      ensures numGuesses == old(numGuesses) + 1
      ensures old(numGuesses) == 0 ==>
        g == Some(startingWord) && guesses == old(guesses) + [g] && possibleWords == old(possibleWords)
      ensures old(numGuesses) == 1 ==>
        g == Some(nextWord) && guesses == old(guesses) + [g] && possibleWords == Filter(Known(), old(possibleWords))
      ensures old(numGuesses) >= 2 ==>
        && possibleWords == Filter(Known(), old(possibleWords))
        && if |possibleWords| == 1 then
             g == Some(possibleWords[0]) && guesses == old(guesses)
           else if |possibleWords| == 2 && FirstUnguessed(possibleWords, old(guesses)).Some? then
             g == FirstUnguessed(possibleWords, old(guesses)) && guesses == old(guesses)
           else
             g == Search(Known(), possibleWords, answers, old(guesses), myWords) && guesses == old(guesses) + [g]
    {
      if numGuesses == 0 {
        numGuesses := numGuesses + 1;
        guesses := guesses + [Some(startingWord)];
        return Some(startingWord);
      }
      if numGuesses == 1 {
        CalculatePossibleWords();
        numGuesses := numGuesses + 1;
        guesses := guesses + [Some(nextWord)];
        return Some(nextWord);
      }
      numGuesses := numGuesses + 1;
      CalculatePossibleWords();
      g := GuessFromPool();
    }
  }
}
