/** Python's `max`, `min` and `list.index` over lists of integer scores, as used by the game searches. */
module Scores {

  /** `max(s)`: an element of `s` that no other element exceeds. */
  function Max(s: seq<int>): (m: int)
    requires |s| > 0
    ensures m in s
    ensures forall x :: x in s ==> x <= m
  {
    if |s| == 1 then s[0]
    else
      var rest := Max(s[1..]);
      assert forall x :: x in s ==> x == s[0] || x in s[1..];
      if s[0] >= rest then s[0] else rest
  }

  /** `min(s)`: an element of `s` that no other element undercuts. */
  function Min(s: seq<int>): (m: int)
    requires |s| > 0
    ensures m in s
    ensures forall x :: x in s ==> m <= x
  {
    if |s| == 1 then s[0]
    else
      var rest := Min(s[1..]);
      assert forall x :: x in s ==> x == s[0] || x in s[1..];
      if s[0] <= rest then s[0] else rest
  }

  /** `s.index(x)`: the position of the first occurrence of `x`. */
  function IndexOf(s: seq<int>, x: int): (i: nat)
    requires x in s
    ensures i < |s| && s[i] == x
    ensures forall j :: 0 <= j < i ==> s[j] != x
  {
    if s[0] == x then 0 else 1 + IndexOf(s[1..], x)
  }

  /** `s.index(max(s))`: the first position holding a maximal score. */
  function FirstMaxIndex(s: seq<int>): (i: nat)
    requires |s| > 0
    ensures i < |s|
    ensures forall j :: 0 <= j < |s| ==> s[j] <= s[i]
    ensures forall j :: 0 <= j < i ==> s[j] < s[i]
  {
    var m := Max(s);
    var i := IndexOf(s, m);
    assert forall j :: 0 <= j < |s| ==> s[j] in s;
    i
  }

  /** Every score negated: the same positions seen from the other player's side. */
  function Negated(s: seq<int>): (r: seq<int>)
    ensures |r| == |s|
    ensures forall i :: 0 <= i < |s| ==> r[i] == -s[i]
  {
    if s == [] then [] else [-s[0]] + Negated(s[1..])
  }

  lemma NegatedCons(x: int, rest: seq<int>)
    ensures Negated([x] + rest) == [-x] + Negated(rest)
  {
    assert ([x] + rest)[1..] == rest;
  }

  /** The minimum of the negated scores is the negated maximum: minimax is zero-sum. */
  lemma MinNegated(s: seq<int>)
    requires |s| > 0
    ensures Min(Negated(s)) == -Max(s)
  {
    var r := Negated(s);
    var i := IndexOf(s, Max(s));
    assert r[i] in r;
    var k := IndexOf(r, Min(r));
    assert s[k] in s;
  }

  /** The maximum of the negated scores is the negated minimum. */
  lemma MaxNegated(s: seq<int>)
    requires |s| > 0
    ensures Max(Negated(s)) == -Min(s)
  {
    var r := Negated(s);
    var i := IndexOf(s, Min(s));
    assert r[i] in r;
    var k := IndexOf(r, Max(r));
    assert s[k] in s;
  }

  /**
   * Scores listed against strictly increasing keys: every score is at most the
   * first maximum, and a key below the first maximum's key scores strictly less.
   */
  lemma FirstMaxSorted(keys: seq<nat>, s: seq<int>, i: nat, j: nat)
    requires |s| == |keys| && i < |s| && j < |s|
    requires forall a, b :: 0 <= a < b < |keys| ==> keys[a] < keys[b]
    requires forall k :: 0 <= k < |s| ==> s[k] <= s[i]
    requires forall k :: 0 <= k < i ==> s[k] < s[i]
    ensures s[j] <= s[i]
    ensures keys[j] < keys[i] ==> s[j] < s[i]
  {
    if j > i {
      assert keys[i] < keys[j];
    }
  }
}
