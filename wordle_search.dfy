/**
 * How wordle.py's `Solver.calculate_guess` chooses after its two opening words,
 * as values: the shortcut for a pool of two words and the search for the
 * candidate whose worst case leaves the fewest possible words.
 */
module WordleSearch {
  import opened Options
  import opened WordleFeedback
  import opened WordleConstraints

  /** Every word of the list has five letters. */
  predicate AllWords(ws: seq<string>)
  {
    forall i :: 0 <= i < |ws| ==> IsWord(ws[i])
  }

  /**
   * The pool a copy of the solver keeps when `answer` is the secret: the copy
   * takes the feedback of `guess` against `answer` and filters (wordle.py:182-194).
   */
  function Outcome(k: Knowledge, pool: seq<string>, guess: string, answer: string): seq<string>
    requires IsKnowledge(k) && IsWord(guess) && IsWord(answer)
  {
    Filter(CalculateConstraints(k, guess, Feedback(guess, answer)), pool)
  }

  /** The size of the outcome for each answer, in answer order. */
  function OutcomeSizes(k: Knowledge, pool: seq<string>, guess: string, answers: seq<string>): (s: seq<nat>)
    requires IsKnowledge(k) && IsWord(guess) && AllWords(answers)
    ensures |s| == |answers|
    ensures forall j :: 0 <= j < |answers| ==> s[j] == |Outcome(k, pool, guess, answers[j])| && s[j] <= |pool|
  {
    if answers == [] then []
    else [|Outcome(k, pool, guess, answers[0])|] + OutcomeSizes(k, pool, guess, answers[1..])
  }

  /**
   * The running `worst_case` (wordle.py:179-197): it starts at 1 and is raised
   * to any larger size, so it is the largest size, or 1.
   */
  function Worst(sizes: seq<nat>): (w: nat)
    ensures 1 <= w
    ensures forall j :: 0 <= j < |sizes| ==> sizes[j] <= w
  {
    if sizes == [] then 1
    else
      var prev := Worst(sizes[..|sizes| - 1]);
      var last := sizes[|sizes| - 1];
      assert forall j :: 0 <= j < |sizes| - 1 ==> sizes[j] == sizes[..|sizes| - 1][j];
      if last > prev then last else prev
  }

  /** The worst case is one of the sizes, unless it is the starting value 1. */
  lemma {:induction false} WorstAttained(sizes: seq<nat>)
    ensures Worst(sizes) == 1 || exists j :: 0 <= j < |sizes| && sizes[j] == Worst(sizes)
  {
    if sizes != [] {
      var init := sizes[..|sizes| - 1];
      WorstAttained(init);
      if Worst(sizes) != 1 && Worst(sizes) == Worst(init) {
        var j :| 0 <= j < |init| && init[j] == Worst(init);
        assert sizes[j] == Worst(sizes);
      }
    }
  }

  /** A bound on every size bounds the worst case too, unless it is below 1. */
  lemma {:induction false} WorstBounded(sizes: seq<nat>, bound: nat)
    requires forall j :: 0 <= j < |sizes| ==> sizes[j] <= bound
    ensures Worst(sizes) <= if bound == 0 then 1 else bound
  {
    if sizes != [] {
      var init := sizes[..|sizes| - 1];
      assert forall j :: 0 <= j < |init| ==> init[j] == sizes[j];
      WorstBounded(init, bound);
    }
  }

  /** Taking one more size into account: the larger of the two. */
  lemma WorstExtend(sizes: seq<nat>, a: nat)
    requires a < |sizes|
    ensures Worst(sizes[..a + 1]) == if sizes[a] > Worst(sizes[..a]) then sizes[a] else Worst(sizes[..a])
  {
    assert sizes[..a + 1][..a] == sizes[..a];
  }

  /** The score of a candidate: the worst case over all the answers. */
  function WorstCase(k: Knowledge, pool: seq<string>, guess: string, answers: seq<string>): (w: nat)
    requires IsKnowledge(k) && IsWord(guess) && AllWords(answers)
    ensures 1 <= w <= if pool == [] then 1 else |pool|
  {
    var sizes := OutcomeSizes(k, pool, guess, answers);
    WorstBounded(sizes, |pool|);
    Worst(sizes)
  }

  /** The score of every candidate, in candidate order. */
  function Scores(k: Knowledge, pool: seq<string>, answers: seq<string>, cands: seq<string>): (s: seq<nat>)
    requires IsKnowledge(k) && AllWords(answers) && AllWords(cands)
    ensures |s| == |cands|
    ensures forall i :: 0 <= i < |cands| ==> s[i] == WorstCase(k, pool, cands[i], answers)
  {
    if cands == [] then []
    else [WorstCase(k, pool, cands[0], answers)] + Scores(k, pool, answers, cands[1..])
  }

  /** Which candidates are passed over because they were guessed before (wordle.py:175-176). */
  function Skips(guesses: seq<Option<string>>, cands: seq<string>): (s: seq<bool>)
    ensures |s| == |cands|
    ensures forall i :: 0 <= i < |cands| ==> (s[i] <==> Some(cands[i]) in guesses)
  {
    if cands == [] then []
    else [Some(cands[0]) in guesses] + Skips(guesses, cands[1..])
  }

  /**
   * The loop over the candidates (wordle.py:174-209), on their scores: a
   * skipped candidate is passed over, a score of 1 is taken at once, and
   * otherwise only a strictly smaller score replaces the best so far.
   */
  function PickFrom(scores: seq<nat>, skip: seq<bool>, i: nat, best: Option<nat>, bestLen: int): (r: Option<nat>)
    requires |skip| == |scores| && i <= |scores|
    requires best.Some? ==> best.value < i
    ensures r.Some? ==> r.value < |scores|
    decreases |scores| - i
  {
    if i == |scores| then best
    else if skip[i] then PickFrom(scores, skip, i + 1, best, bestLen)
    else if scores[i] == 1 then Some(i)
    else if scores[i] < bestLen then PickFrom(scores, skip, i + 1, Some(i), scores[i])
    else PickFrom(scores, skip, i + 1, best, bestLen)
  }

  /** `b` is the first candidate, among those not skipped, with the smallest score. */
  predicate FirstMinimal(scores: seq<nat>, skip: seq<bool>, b: nat)
    requires |skip| == |scores|
  {
    && b < |scores| && !skip[b]
    && (forall j :: 0 <= j < |scores| && !skip[j] ==> scores[b] <= scores[j])
    && (forall j :: 0 <= j < b && !skip[j] ==> scores[b] < scores[j])
  }

  /** What the loop knows after the candidates before `i`. */
  predicate PickInvariant(scores: seq<nat>, skip: seq<bool>, i: nat, best: Option<nat>, bestLen: int)
    requires |skip| == |scores| && i <= |scores|
  {
    && (forall j :: 0 <= j < |scores| && !skip[j] ==> 1 <= scores[j])
    && (forall j :: 0 <= j < i && !skip[j] ==> scores[j] != 1)
    && (best.None? ==>
          && (forall j :: 0 <= j < i ==> skip[j])
          && (forall j :: i <= j < |scores| && !skip[j] ==> scores[j] < bestLen || scores[j] == 1))
    && (best.Some? ==>
          && best.value < i && !skip[best.value] && bestLen == scores[best.value]
          && (forall j :: 0 <= j < i && !skip[j] ==> scores[best.value] <= scores[j])
          && (forall j :: 0 <= j < best.value && !skip[j] ==> scores[best.value] < scores[j]))
  }

  /** The loop finds nothing exactly when every candidate is skipped. */
  lemma {:induction false} PickFromNone(scores: seq<nat>, skip: seq<bool>, i: nat, best: Option<nat>, bestLen: int)
    requires |skip| == |scores| && i <= |scores| && (best.Some? ==> best.value < i)
    requires PickInvariant(scores, skip, i, best, bestLen)
    ensures PickFrom(scores, skip, i, best, bestLen).None? <==> forall j :: 0 <= j < |scores| ==> skip[j]
    decreases |scores| - i
  {
    if i < |scores| {
      if skip[i] {
        PickFromNone(scores, skip, i + 1, best, bestLen);
      } else if scores[i] != 1 && scores[i] < bestLen {
        assert PickInvariant(scores, skip, i + 1, Some(i), scores[i]);
        PickFromNone(scores, skip, i + 1, Some(i), scores[i]);
      } else if scores[i] != 1 {
        PickFromNone(scores, skip, i + 1, best, bestLen);
      }
    }
  }

  /** What the loop finds is the first candidate with the smallest score. */
  lemma {:induction false} PickFromFirstMinimal(scores: seq<nat>, skip: seq<bool>, i: nat, best: Option<nat>, bestLen: int)
    requires |skip| == |scores| && i <= |scores| && (best.Some? ==> best.value < i)
    requires PickInvariant(scores, skip, i, best, bestLen)
    ensures var r := PickFrom(scores, skip, i, best, bestLen); r.Some? ==> FirstMinimal(scores, skip, r.value)
    decreases |scores| - i
  {
    if i < |scores| {
      if skip[i] {
        PickFromFirstMinimal(scores, skip, i + 1, best, bestLen);
      } else if scores[i] == 1 {
        assert FirstMinimal(scores, skip, i);
      } else if scores[i] < bestLen {
        assert PickInvariant(scores, skip, i + 1, Some(i), scores[i]);
        PickFromFirstMinimal(scores, skip, i + 1, Some(i), scores[i]);
      } else {
        assert best.Some?;
        PickFromFirstMinimal(scores, skip, i + 1, best, bestLen);
      }
    }
  }

  /**
   * The search of wordle.py:172-212: the chosen candidate, or `None` (the
   * initial `best_guess`) when every candidate was guessed before. The
   * starting bound is one more than the pool size.
   */
  function Search(k: Knowledge, pool: seq<string>, answers: seq<string>, guesses: seq<Option<string>>, cands: seq<string>): Option<string>
    requires IsKnowledge(k) && AllWords(answers) && AllWords(cands)
  {
    Named(cands, PickFrom(Scores(k, pool, answers, cands), Skips(guesses, cands), 0, None, |pool| + 1))
  }

  /** The candidate at a chosen position, if any. */
  function Named(cands: seq<string>, r: Option<nat>): Option<string>
    requires r.Some? ==> r.value < |cands|
  {
    match r
    case None => None
    case Some(i) => Some(cands[i])
  }

  /**
   * Candidate `b` was not guessed before, no candidate not guessed before has
   * a smaller worst case, and every one before `b` has a larger one.
   */
  predicate FirstBest(k: Knowledge, pool: seq<string>, answers: seq<string>, guesses: seq<Option<string>>, cands: seq<string>, b: nat)
    requires IsKnowledge(k) && AllWords(answers) && AllWords(cands)
  {
    && b < |cands| && Some(cands[b]) !in guesses
    && (forall j :: 0 <= j < |cands| && Some(cands[j]) !in guesses ==>
          WorstCase(k, pool, cands[b], answers) <= WorstCase(k, pool, cands[j], answers))
    && (forall j :: 0 <= j < b && Some(cands[j]) !in guesses ==>
          WorstCase(k, pool, cands[b], answers) < WorstCase(k, pool, cands[j], answers))
  }

  /**
   * The search returns the first candidate not guessed before whose worst case
   * is smallest; `None` exactly when every candidate was guessed before. Taking
   * a worst case of 1 at once gives the same choice, since no worst case is
   * below 1.
   */
  lemma SearchIsFirstBest(k: Knowledge, pool: seq<string>, answers: seq<string>, guesses: seq<Option<string>>, cands: seq<string>)
    requires IsKnowledge(k) && AllWords(answers) && AllWords(cands)
    ensures var r := Search(k, pool, answers, guesses, cands);
      && (r.None? <==> forall j :: 0 <= j < |cands| ==> Some(cands[j]) in guesses)
      && (r.Some? ==> exists b: nat :: FirstBest(k, pool, answers, guesses, cands, b) && r.value == cands[b])
  {
    var scores := Scores(k, pool, answers, cands);
    var skip := Skips(guesses, cands);
    forall j | 0 <= j < |scores| && !skip[j] ensures 1 <= scores[j] && (scores[j] < |pool| + 1 || scores[j] == 1) {
      assert scores[j] == WorstCase(k, pool, cands[j], answers);
    }
    assert PickInvariant(scores, skip, 0, None, |pool| + 1);
    PickFromNone(scores, skip, 0, None, |pool| + 1);
    PickFromFirstMinimal(scores, skip, 0, None, |pool| + 1);
    var r := PickFrom(scores, skip, 0, None, |pool| + 1);
    if r.Some? {
      var b := r.value;
      FirstMinimalIsFirstBest(k, pool, answers, guesses, cands, b);
      assert Search(k, pool, answers, guesses, cands) == Some(cands[b]);
    }
  }

  lemma FirstMinimalIsFirstBest(k: Knowledge, pool: seq<string>, answers: seq<string>, guesses: seq<Option<string>>, cands: seq<string>, b: nat)
    requires IsKnowledge(k) && AllWords(answers) && AllWords(cands)
    requires FirstMinimal(Scores(k, pool, answers, cands), Skips(guesses, cands), b)
    ensures FirstBest(k, pool, answers, guesses, cands, b)
  {
    var scores := Scores(k, pool, answers, cands);
    var skip := Skips(guesses, cands);
    forall j | 0 <= j < |cands| && Some(cands[j]) !in guesses
      ensures WorstCase(k, pool, cands[b], answers) <= WorstCase(k, pool, cands[j], answers)
    {
      assert !skip[j];
    }
    forall j | 0 <= j < b && Some(cands[j]) !in guesses
      ensures WorstCase(k, pool, cands[b], answers) < WorstCase(k, pool, cands[j], answers)
    {
      assert !skip[j];
    }
  }

  /** When a candidate not guessed before scores 1, the search returns the first such candidate. */
  lemma SearchTakesPerfect(k: Knowledge, pool: seq<string>, answers: seq<string>, guesses: seq<Option<string>>, cands: seq<string>, p: nat)
    requires IsKnowledge(k) && AllWords(answers) && AllWords(cands)
    requires p < |cands| && Some(cands[p]) !in guesses && WorstCase(k, pool, cands[p], answers) == 1
    requires forall j :: 0 <= j < p && Some(cands[j]) !in guesses ==> WorstCase(k, pool, cands[j], answers) != 1
    ensures Search(k, pool, answers, guesses, cands) == Some(cands[p])
  {
    SearchIsFirstBest(k, pool, answers, guesses, cands);
    var b: nat :| FirstBest(k, pool, answers, guesses, cands, b) && Search(k, pool, answers, guesses, cands) == Some(cands[b]);
    assert WorstCase(k, pool, cands[b], answers) == 1;
  }

  /** The loop for a pool of two words (wordle.py:163-167): the first word of the pool not guessed before. */
  function FirstUnguessed(pool: seq<string>, guesses: seq<Option<string>>): (r: Option<string>)
    ensures r.None? <==> forall i :: 0 <= i < |pool| ==> Some(pool[i]) in guesses
    ensures r.Some? ==> exists i :: (0 <= i < |pool| && pool[i] == r.value && Some(pool[i]) !in guesses &&
                                     forall j :: 0 <= j < i ==> Some(pool[j]) in guesses)
  {
    if pool == [] then None
    else if Some(pool[0]) !in guesses then Some(pool[0])
    else
      var rest := FirstUnguessed(pool[1..], guesses);
      assert forall i :: 1 <= i < |pool| ==> pool[i] == pool[1..][i - 1];
      if rest.Some? then
        var i :| 0 <= i < |pool[1..]| && pool[1..][i] == rest.value && Some(pool[1..][i]) !in guesses
          && forall j :: 0 <= j < i ==> Some(pool[1..][j]) in guesses;
        assert pool[i + 1] == rest.value;
        rest
      else rest
  }
}
