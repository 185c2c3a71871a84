/**
 * What wordle.py's `Solver` knows about the secret, as values: the five
 * per-position constraints and `must_contain_somewhere`, how feedback is folded
 * into them (`calculate_constraints`), the validity test for a candidate word
 * (`check_guess_valid`) and the filtering of the candidate pool
 * (`calculate_possible_words`).
 */
module WordleConstraints {
  import opened Options
  import opened WordleFeedback

  /** The value of one `Constraint` (wordle.py:100-120). */
  datatype ConstraintValue = ConstraintValue(solved: Option<char>, acceptable: seq<char>, incorrect: seq<char>)

  /** A new `Constraint()`: nothing solved, no letters recorded. */
  const NoConstraint := ConstraintValue(None, [], [])

  /** The solver's constraints, one per position, and its `must_contain_somewhere` list. */
  datatype Knowledge = Knowledge(constraints: seq<ConstraintValue>, mustContain: seq<char>)

  predicate IsKnowledge(k: Knowledge)
  {
    |k.constraints| == 5
  }

  /** What a new `Solver()` knows. */
  const NoKnowledge := Knowledge([NoConstraint, NoConstraint, NoConstraint, NoConstraint, NoConstraint], [])

  predicate NoDup<T(==)>(s: seq<T>)
  {
    forall a, b :: 0 <= a < b < |s| ==> s[a] != s[b]
  }

  function Repeat(x: char, n: nat): (r: seq<char>)
    ensures |r| == n && forall i :: 0 <= i < n ==> r[i] == x
  {
    seq(n, _ => x)
  }

  /** Python's `list.count(x)`: the number of occurrences of `x`. */
  function Count(s: seq<char>, x: char): (n: nat)
    ensures n <= |s|
  {
    if s == [] then 0 else (if s[0] == x then 1 else 0) + Count(s[1..], x)
  }

  lemma {:induction false} CountPositive(s: seq<char>, x: char)
    ensures Count(s, x) > 0 <==> x in s
  {
    if s != [] {
      CountPositive(s[1..], x);
      assert x in s <==> s[0] == x || x in s[1..];
    }
  }

  lemma {:induction false} NoDupCount(s: seq<char>, x: char)
    requires NoDup(s)
    ensures Count(s, x) <= 1
  {
    if s != [] {
      NoDupCount(s[1..], x);
      if s[0] == x {
        assert x !in s[1..];
        CountPositive(s[1..], x);
      }
    }
  }

  /** Python's `list.remove(x)`: the list without the first occurrence of `x`. */
  function RemoveFirst(s: seq<char>, x: char): (r: seq<char>)
    requires x in s
    ensures |r| == |s| - 1
    ensures forall y :: y in r ==> y in s
  {
    if s[0] == x then s[1..] else [s[0]] + RemoveFirst(s[1..], x)
  }

  /** Exactly one copy of `x` goes, and every other letter keeps its count. */
  lemma {:induction false} RemoveFirstCount(s: seq<char>, x: char, y: char)
    requires x in s
    ensures Count(RemoveFirst(s, x), y) == if y == x then Count(s, y) - 1 else Count(s, y)
  {
    if s[0] != x {
      RemoveFirstCount(s[1..], x, y);
      var rest := RemoveFirst(s[1..], x);
      assert ([s[0]] + rest)[1..] == rest;
    }
  }

  lemma {:induction false} RemoveFirstNoDup(s: seq<char>, x: char)
    requires x in s && NoDup(s)
    ensures NoDup(RemoveFirst(s, x))
  {
    if s[0] != x {
      RemoveFirstNoDup(s[1..], x);
      var rest := RemoveFirst(s[1..], x);
      assert s[0] !in s[1..];
      assert s[0] !in rest;
      assert ([s[0]] + rest)[1..] == rest;
    }
  }

  /** The guarded removal `if x in s: s.remove(x)` of wordle.py:226-229 and 251-254. */
  function Discard(s: seq<char>, x: char): (r: seq<char>)
    ensures forall y :: y in r ==> y in s
  {
    if x in s then RemoveFirst(s, x) else s
  }

  /** One guarded removal takes away one copy of `x` if there is one, and keeps every other letter. */
  lemma DiscardCount(s: seq<char>, x: char, y: char)
    ensures Count(Discard(s, x), y) == if y == x && x in s then Count(s, y) - 1 else Count(s, y)
  {
    if x in s {
      RemoveFirstCount(s, x, y);
    }
  }

  lemma DiscardNoDup(s: seq<char>, x: char)
    requires NoDup(s)
    ensures NoDup(Discard(s, x))
  {
    if x in s {
      RemoveFirstNoDup(s, x);
    }
  }

  /** `x` is no longer acceptable at this position and is recorded as impossible here. */
  function Exclude(c: ConstraintValue, x: char): ConstraintValue
  {
    c.(acceptable := Discard(c.acceptable, x), incorrect := c.incorrect + [x])
  }

  /** `Exclude` applied `n` times over. */
  function ExcludeTimes(c: ConstraintValue, x: char, n: nat): ConstraintValue
  {
    if n == 0 then c else Exclude(ExcludeTimes(c, x, n - 1), x)
  }

  lemma {:induction false} ExcludeTimesRecords(c: ConstraintValue, x: char, n: nat)
    ensures ExcludeTimes(c, x, n).solved == c.solved
    ensures ExcludeTimes(c, x, n).incorrect == c.incorrect + Repeat(x, n)
  {
    if n > 0 {
      ExcludeTimesRecords(c, x, n - 1);
      assert Repeat(x, n) == Repeat(x, n - 1) + [x];
    }
  }

  /** `n` guarded removals of `x` from a plain list. */
  function DiscardTimes(s: seq<char>, x: char, n: nat): seq<char>
  {
    if n == 0 then s else Discard(DiscardTimes(s, x, n - 1), x)
  }

  lemma {:induction false} ExcludeTimesAcceptable(c: ConstraintValue, x: char, n: nat)
    ensures ExcludeTimes(c, x, n).acceptable == DiscardTimes(c.acceptable, x, n)
  {
    if n > 0 {
      ExcludeTimesAcceptable(c, x, n - 1);
    }
  }

  /** `n` guarded removals take away `n` copies of `x`, or all of them when there are fewer. */
  lemma {:induction false} DiscardTimesRemoves(s: seq<char>, x: char, n: nat)
    ensures Count(DiscardTimes(s, x, n), x) == if Count(s, x) >= n then Count(s, x) - n else 0
  {
    if n > 0 {
      DiscardTimesRemoves(s, x, n - 1);
      CountPositive(DiscardTimes(s, x, n - 1), x);
      DiscardCount(DiscardTimes(s, x, n - 1), x, x);
    }
  }

  /** Guarded removals of `x` keep every other letter. */
  lemma {:induction false} DiscardTimesKeeps(s: seq<char>, x: char, n: nat, y: char)
    requires y != x
    ensures Count(DiscardTimes(s, x, n), y) == Count(s, y)
  {
    if n > 0 {
      DiscardTimesKeeps(s, x, n - 1, y);
      DiscardCount(DiscardTimes(s, x, n - 1), x, y);
    }
  }

  lemma {:induction false} ExcludeTimesNoDup(c: ConstraintValue, x: char, n: nat)
    requires NoDup(c.acceptable)
    ensures NoDup(ExcludeTimes(c, x, n).acceptable)
  {
    if n > 0 {
      ExcludeTimesNoDup(c, x, n - 1);
      DiscardNoDup(ExcludeTimes(c, x, n - 1).acceptable, x);
    }
  }

  /** `x` becomes acceptable here, unless it is already impossible or already acceptable here. */
  function Allow(c: ConstraintValue, x: char): ConstraintValue
  {
    if x in c.incorrect || x in c.acceptable then c else c.(acceptable := c.acceptable + [x])
  }

  /** The constraints after a "present elsewhere" status for `x` at position `i`. */
  function Elsewhere(cs: seq<ConstraintValue>, i: nat, x: char): (r: seq<ConstraintValue>)
    requires |cs| == 5 && i < 5
    ensures |r| == 5
  {
    seq(5, j requires 0 <= j < 5 => if j == i then Exclude(cs[j], x) else Allow(cs[j], x))
  }

  /** One round of the loop of `calculate_constraints` (wordle.py:216-256): the status of position `i`. */
  function ApplyStatus(k: Knowledge, i: nat, x: char, st: Status): (r: Knowledge)
    requires IsKnowledge(k) && i < 5
    ensures IsKnowledge(r)
  {
    match st
    case Correct =>
      k.(constraints := k.constraints[i := k.constraints[i].(solved := Some(x))])
    case IncorrectPosition =>
      Knowledge(Elsewhere(k.constraints, i, x), if x in k.mustContain then k.mustContain else k.mustContain + [x])
    case Incorrect =>
      k.(constraints := k.constraints[i := ExcludeTimes(k.constraints[i], x, 5)])
  }

  /** The first `n` rounds of `calculate_constraints`, in position order. */
  function ApplyFirst(k: Knowledge, guess: string, status: seq<Status>, n: nat): (r: Knowledge)
    requires IsKnowledge(k) && n <= 5 && |guess| >= 5 && |status| >= 5
    ensures IsKnowledge(r)
  {
    if n == 0 then k else ApplyStatus(ApplyFirst(k, guess, status, n - 1), n - 1, guess[n - 1], status[n - 1])
  }

  /** `Solver.calculate_constraints(guess, status)` (wordle.py:214-256). */
  function CalculateConstraints(k: Knowledge, guess: string, status: seq<Status>): (r: Knowledge)
    requires IsKnowledge(k) && |guess| >= 5 && |status| >= 5
    ensures IsKnowledge(r)
  {
    ApplyFirst(k, guess, status, 5)
  }

  /**
   * A correct letter overwrites the position's solved letter, whatever it was;
   * nothing else changes (wordle.py:218-222).
   */
  lemma CorrectSolvesPosition(k: Knowledge, i: nat, x: char)
    requires IsKnowledge(k) && i < 5
    ensures var r := ApplyStatus(k, i, x, Correct);
      && r.constraints[i].solved == Some(x)
      && r.constraints[i].acceptable == k.constraints[i].acceptable
      && r.constraints[i].incorrect == k.constraints[i].incorrect
      && (forall j :: 0 <= j < 5 && j != i ==> r.constraints[j] == k.constraints[j])
      && r.mustContain == k.mustContain
  {
  }

  /**
   * An absent letter only touches its own position (wordle.py:248-256): the
   * inner loop runs five times over `constraints[i]`, so the letter is recorded
   * as impossible five times and up to five copies leave the acceptable list.
   */
  lemma AbsentIsLocal(k: Knowledge, i: nat, x: char)
    requires IsKnowledge(k) && i < 5
    ensures var r := ApplyStatus(k, i, x, Incorrect);
      && (forall j :: 0 <= j < 5 && j != i ==> r.constraints[j] == k.constraints[j])
      && r.mustContain == k.mustContain
      && r.constraints[i].solved == k.constraints[i].solved
      && r.constraints[i].incorrect == k.constraints[i].incorrect + [x, x, x, x, x]
      && Count(r.constraints[i].acceptable, x) ==
         (if Count(k.constraints[i].acceptable, x) >= 5 then Count(k.constraints[i].acceptable, x) - 5 else 0)
      && forall y :: y != x ==> Count(r.constraints[i].acceptable, y) == Count(k.constraints[i].acceptable, y)
  {
    ExcludeTimesRecords(k.constraints[i], x, 5);
    var acc := k.constraints[i].acceptable;
    ExcludeTimesAcceptable(k.constraints[i], x, 5);
    DiscardTimesRemoves(acc, x, 5);
    forall y | y != x
      ensures Count(DiscardTimes(acc, x, 5), y) == Count(acc, y)
    {
      DiscardTimesKeeps(acc, x, 5, y);
    }
    assert Repeat(x, 5) == [x, x, x, x, x];
  }

  /** On duplicate-free acceptable lists, an absent letter leaves no trace among the acceptable letters. */
  lemma AbsentRemovesLetter(k: Knowledge, i: nat, x: char)
    requires IsKnowledge(k) && i < 5 && NoDup(k.constraints[i].acceptable)
    ensures x !in ApplyStatus(k, i, x, Incorrect).constraints[i].acceptable
  {
    var acc := k.constraints[i].acceptable;
    AbsentIsLocal(k, i, x);
    NoDupCount(acc, x);
    CountPositive(ApplyStatus(k, i, x, Incorrect).constraints[i].acceptable, x);
  }

  /**
   * A letter present elsewhere (wordle.py:223-247): it leaves the acceptable
   * list of position `i` once and is recorded as impossible there; every other
   * position that neither rules it out nor accepts it already gets it appended,
   * the rest stay as they were; `must_contain_somewhere` gets it appended only
   * when missing.
   */
  lemma PresentElsewhere(k: Knowledge, i: nat, x: char)
    requires IsKnowledge(k) && i < 5
    ensures var r := ApplyStatus(k, i, x, IncorrectPosition);
      && r.constraints[i].solved == k.constraints[i].solved
      && r.constraints[i].incorrect == k.constraints[i].incorrect + [x]
      && (forall y :: Count(r.constraints[i].acceptable, y) ==
            if y == x && x in k.constraints[i].acceptable then Count(k.constraints[i].acceptable, y) - 1
            else Count(k.constraints[i].acceptable, y))
      && (forall j :: 0 <= j < 5 && j != i ==>
            && r.constraints[j].solved == k.constraints[j].solved
            && r.constraints[j].incorrect == k.constraints[j].incorrect
            && (x in k.constraints[j].incorrect || x in k.constraints[j].acceptable ==>
                  r.constraints[j] == k.constraints[j])
            && (x !in k.constraints[j].incorrect && x !in k.constraints[j].acceptable ==>
                  r.constraints[j].acceptable == k.constraints[j].acceptable + [x]))
      && (x in k.mustContain ==> r.mustContain == k.mustContain)
      && (x !in k.mustContain ==> r.mustContain == k.mustContain + [x])
  {
    forall y {
      DiscardCount(k.constraints[i].acceptable, x, y);
    }
  }

  /** The lists the solver only appends to when the letter is missing hold no duplicates. */
  predicate Tidy(k: Knowledge)
    requires IsKnowledge(k)
  {
    NoDup(k.mustContain) && forall j :: 0 <= j < 5 ==> NoDup(k.constraints[j].acceptable)
  }

  lemma NoKnowledgeTidy()
    ensures IsKnowledge(NoKnowledge) && Tidy(NoKnowledge)
  {
  }

  lemma ApplyStatusTidy(k: Knowledge, i: nat, x: char, st: Status)
    requires IsKnowledge(k) && i < 5 && Tidy(k)
    ensures Tidy(ApplyStatus(k, i, x, st))
    ensures k.mustContain <= ApplyStatus(k, i, x, st).mustContain
  {
    var r := ApplyStatus(k, i, x, st);
    match st
    case Correct =>
    case IncorrectPosition =>
      DiscardNoDup(k.constraints[i].acceptable, x);
      forall j | 0 <= j < 5 ensures NoDup(r.constraints[j].acceptable) {
        if j != i && x !in k.constraints[j].incorrect && x !in k.constraints[j].acceptable {
          assert r.constraints[j].acceptable == k.constraints[j].acceptable + [x];
        }
      }
    case Incorrect =>
      ExcludeTimesNoDup(k.constraints[i], x, 5);
  }

  /**
   * `calculate_constraints` keeps every acceptable list and
   * `must_contain_somewhere` duplicate-free, and only ever extends the latter.
   */
  lemma {:induction false} CalculateConstraintsTidy(k: Knowledge, guess: string, status: seq<Status>, n: nat)
    requires IsKnowledge(k) && Tidy(k) && n <= 5 && |guess| >= 5 && |status| >= 5
    ensures Tidy(ApplyFirst(k, guess, status, n))
    ensures k.mustContain <= ApplyFirst(k, guess, status, n).mustContain
  {
    if n > 0 {
      CalculateConstraintsTidy(k, guess, status, n - 1);
      ApplyStatusTidy(ApplyFirst(k, guess, status, n - 1), n - 1, guess[n - 1], status[n - 1]);
    }
  }

  /** The solved-letter and impossible-letter tests of `check_guess_valid_constraints` (wordle.py:258-270) from position `i` of the zip on. */
  function ConstraintsAdmitFrom(cs: seq<ConstraintValue>, w: string, i: nat): bool
    decreases |cs| - i
  {
    if i >= |cs| || i >= |w| then true
    else if cs[i].solved.Some? && w[i] != cs[i].solved.value then false
    else if w[i] in cs[i].incorrect then false
    else ConstraintsAdmitFrom(cs, w, i + 1)
  }

  /** The `must_contain_somewhere` loop of `check_guess_valid` (wordle.py:277-280). */
  function ContainsAll(must: seq<char>, w: string): bool
  {
    if must == [] then true
    else if must[0] !in w then false
    else ContainsAll(must[1..], w)
  }

  /** `Solver.check_guess_valid(guess)` (wordle.py:258-282). */
  function CheckGuessValid(k: Knowledge, w: string): bool
  {
    ConstraintsAdmitFrom(k.constraints, w, 0) && ContainsAll(k.mustContain, w)
  }

  /**
   * The condition the validity test decides: every solved position holds its
   * letter, no letter sits where it was ruled out, and every letter known to be
   * present occurs. Acceptable letters play no part.
   */
  predicate Admits(k: Knowledge, w: string)
    requires IsKnowledge(k)
  {
    && (forall i :: 0 <= i < 5 && i < |w| ==>
          && (k.constraints[i].solved.Some? ==> w[i] == k.constraints[i].solved.value)
          && w[i] !in k.constraints[i].incorrect)
    && (forall x :: x in k.mustContain ==> x in w)
  }

  lemma {:induction false} ConstraintsAdmitFromIff(cs: seq<ConstraintValue>, w: string, i: nat)
    ensures ConstraintsAdmitFrom(cs, w, i) <==>
      forall j :: i <= j < |cs| && j < |w| ==> (cs[j].solved.Some? ==> w[j] == cs[j].solved.value) && w[j] !in cs[j].incorrect
    decreases |cs| - i
  {
    if i < |cs| && i < |w| {
      ConstraintsAdmitFromIff(cs, w, i + 1);
    }
  }

  lemma {:induction false} ContainsAllIff(must: seq<char>, w: string)
    ensures ContainsAll(must, w) <==> forall x :: x in must ==> x in w
  {
    if must != [] {
      ContainsAllIff(must[1..], w);
      assert must == [must[0]] + must[1..];
    }
  }

  /** `check_guess_valid` holds exactly when the word meets every recorded condition. */
  lemma CheckGuessValidIff(k: Knowledge, w: string)
    requires IsKnowledge(k)
    ensures CheckGuessValid(k, w) <==> Admits(k, w)
  {
    ConstraintsAdmitFromIff(k.constraints, w, 0);
    ContainsAllIff(k.mustContain, w);
  }

  /** The acceptable letters never affect `check_guess_valid`. */
  lemma AcceptableIgnored(k: Knowledge, l: Knowledge, w: string)
    requires IsKnowledge(k) && IsKnowledge(l) && k.mustContain == l.mustContain
    requires forall i :: 0 <= i < 5 ==>
      k.constraints[i].solved == l.constraints[i].solved && k.constraints[i].incorrect == l.constraints[i].incorrect
    ensures CheckGuessValid(k, w) == CheckGuessValid(l, w)
  {
    CheckGuessValidIff(k, w);
    CheckGuessValidIff(l, w);
  }

  /** `Solver.calculate_possible_words()` (wordle.py:284-293): the words of the pool that pass, in pool order. */
  function Filter(k: Knowledge, pool: seq<string>): (r: seq<string>)
    ensures |r| <= |pool|
  {
    if pool == [] then []
    else
      var init, last := pool[..|pool| - 1], pool[|pool| - 1];
      Filter(k, init) + (if CheckGuessValid(k, last) then [last] else [])
  }

  /** A word is in the filtered pool exactly when it is in the pool and valid. */
  lemma {:induction false} FilterMembers(k: Knowledge, pool: seq<string>, w: string)
    ensures w in Filter(k, pool) <==> w in pool && CheckGuessValid(k, w)
  {
    if pool != [] {
      var init, last := pool[..|pool| - 1], pool[|pool| - 1];
      FilterMembers(k, init, w);
      assert pool == init + [last];
    }
  }

  /**
   * The filtered pool is the subsequence of the pool made of exactly its valid
   * positions: `idx` lists those positions in increasing order.
   */
  lemma {:induction false} FilterPicksValid(k: Knowledge, pool: seq<string>) returns (idx: seq<nat>)
    ensures |idx| == |Filter(k, pool)|
    ensures forall m :: 0 <= m < |idx| ==> idx[m] < |pool| && Filter(k, pool)[m] == pool[idx[m]]
    ensures forall a, b :: 0 <= a < b < |idx| ==> idx[a] < idx[b]
    ensures forall p :: 0 <= p < |pool| ==> (CheckGuessValid(k, pool[p]) <==> p in idx)
  {
    if pool == [] {
      idx := [];
    } else {
      var init, last := pool[..|pool| - 1], pool[|pool| - 1];
      var prev := FilterPicksValid(k, init);
      idx := prev + if CheckGuessValid(k, last) then [|pool| - 1] else [];
      forall p | 0 <= p < |pool| ensures CheckGuessValid(k, pool[p]) <==> p in idx {
        if p < |pool| - 1 {
          assert pool[p] == init[p];
        }
      }
    }
  }

  /** Filtering twice with the same knowledge gives the pool of filtering once. */
  lemma {:induction false} FilterIdempotent(k: Knowledge, pool: seq<string>)
    ensures Filter(k, Filter(k, pool)) == Filter(k, pool)
  {
    if pool != [] {
      var init, last := pool[..|pool| - 1], pool[|pool| - 1];
      FilterIdempotent(k, init);
      var f := Filter(k, init);
      if CheckGuessValid(k, last) {
        var g := f + [last];
        assert g[..|g| - 1] == f && g[|g| - 1] == last;
        assert Filter(k, pool) == g;
        assert Filter(k, g) == Filter(k, f) + [last];
      } else {
        assert Filter(k, pool) == f;
      }
    }
  }

  /** Any word meets the conditions of a new solver. */
  lemma NoKnowledgeAdmitsAll(w: string)
    ensures IsKnowledge(NoKnowledge) && Admits(NoKnowledge, w)
  {
  }

  /** The status of one position, judged against the secret, never rules the secret out. */
  lemma StatusKeepsSecret(k: Knowledge, i: nat, guess: string, secret: string)
    requires IsKnowledge(k) && i < 5 && IsWord(guess) && IsWord(secret) && Admits(k, secret)
    ensures Admits(ApplyStatus(k, i, guess[i], StatusAt(guess, secret, i)), secret)
  {
    var x := guess[i];
    var st := StatusAt(guess, secret, i);
    var r := ApplyStatus(k, i, x, st);
    match st
    case Correct =>
    case IncorrectPosition =>
      forall j | 0 <= j < 5 ensures secret[j] !in r.constraints[j].incorrect {
        if j == i {
          assert r.constraints[i].incorrect == k.constraints[i].incorrect + [x];
        }
      }
    case Incorrect =>
      ExcludeTimesRecords(k.constraints[i], x, 5);
  }

  lemma {:induction false} FeedbackKeepsSecretFirst(k: Knowledge, guess: string, secret: string, n: nat)
    requires IsKnowledge(k) && n <= 5 && IsWord(guess) && IsWord(secret) && Admits(k, secret)
    ensures Admits(ApplyFirst(k, guess, Feedback(guess, secret), n), secret)
  {
    if n > 0 {
      FeedbackKeepsSecretFirst(k, guess, secret, n - 1);
      StatusKeepsSecret(ApplyFirst(k, guess, Feedback(guess, secret), n - 1), n - 1, guess, secret);
    }
  }

  /**
   * Soundness of the solver: when the statuses fed in are the game's feedback
   * for the secret and the secret is in the pool and meets the conditions so
   * far, it still meets them and survives the next filtering.
   */
  lemma SecretSurvives(k: Knowledge, pool: seq<string>, guess: string, secret: string)
    requires IsKnowledge(k) && IsWord(guess) && IsWord(secret) && Admits(k, secret) && secret in pool
    ensures var l := CalculateConstraints(k, guess, Feedback(guess, secret));
      Admits(l, secret) && secret in Filter(l, pool)
  {
    var l := CalculateConstraints(k, guess, Feedback(guess, secret));
    FeedbackKeepsSecretFirst(k, guess, secret, 5);
    CheckGuessValidIff(l, secret);
    FilterMembers(l, pool, secret);
  }
}
