/**
 * The Mancala board of mancala.py: twelve holes numbered 0..11 and two stores.
 * Player 'a' banks a bead whenever sowing passes hole 11, player 'b' whenever it
 * passes hole 5. A move empties one hole and sows its beads one by one into the
 * following holes; when the last bead lands in a hole that already held beads,
 * that whole hole is picked up and sowing continues (relay sowing).
 */
module MancalaBoard {

  /** The player to move: the source passes the strings 'a' and 'b'. */
  datatype Side = A | B

  function Other(turn: Side): (o: Side)
    ensures o != turn
  {
    if turn == A then B else A
  }

  const Holes: nat := 12
  const StartingBeads: nat := 4

  /** The hole after which `turn` drops a bead into its own store. */
  function StoreHole(turn: Side): nat
  {
    if turn == A then 11 else 5
  }

  /** Holes wrap around from 11 to 0. */
  function NextHole(hole: nat): (next: nat)
    requires hole < Holes
    ensures next < Holes && next == (hole + 1) % Holes
  {
    if hole < 11 then hole + 1 else 0
  }

  /** The value of a board: the holes and the two stores. */
  datatype BoardState = BoardState(holes: seq<nat>, a: nat, b: nat)

  predicate WellFormed(s: BoardState)
  {
    |s.holes| == Holes
  }

  /** The board after a move, and whether the mover plays again. */
  datatype MoveResult = MoveResult(board: BoardState, again: bool)

  function Sum(s: seq<nat>): nat
  {
    if s == [] then 0 else s[0] + Sum(s[1..])
  }

  lemma {:induction false} SumUpdate(s: seq<nat>, i: nat, v: nat)
    requires i < |s|
    ensures Sum(s[i := v]) == Sum(s) - s[i] + v
  {
    if i > 0 {
      SumUpdate(s[1..], i - 1, v);
      assert s[i := v][1..] == s[1..][i - 1 := v];
    }
  }

  /** Every bead on the board: in the holes and in both stores. */
  function Beads(s: BoardState): nat
  {
    Sum(s.holes) + s.a + s.b
  }

  function Store(s: BoardState, turn: Side): nat
  {
    if turn == A then s.a else s.b
  }

  /** How many steps sowing from `hole` takes to reach the mover's store hole. */
  function Distance(hole: nat, turn: Side): nat
    requires hole < Holes
  {
    if hole <= StoreHole(turn) then StoreHole(turn) - hole else StoreHole(turn) + Holes - hole
  }

  /** Where one pass of the sowing loop leaves things. */
  datatype Pass = Continue(board: BoardState, hole: nat, inHand: nat) | Finished(result: MoveResult)

  /**
   * One pass of the `while beads` loop of `Board.move` (mancala.py:30-65), entered
   * at `hole` with `beads` in hand: bank a bead if `hole` is the mover's store hole
   * (returning True if it was the last), step to the next hole and drop a bead,
   * then pick up that hole if the hand is empty and it now holds more than one bead.
   */
  function SowPass(s: BoardState, hole: nat, beads: nat, turn: Side): (p: Pass)
    requires WellFormed(s) && hole < Holes && beads > 0
    ensures p.Continue? ==> WellFormed(p.board) && p.hole < Holes && p.inHand > 0
  {
    var inHand := if hole == StoreHole(turn) then beads - 1 else beads;
    if inHand == 0 then Finished(MoveResult(Bank(s, hole, turn), true))
    else Drop(Bank(s, hole, turn), hole, inHand)
  }

  /** The store part of a pass (mancala.py:32-48): a bead goes to the mover's store at its store hole. */
  function Bank(s: BoardState, hole: nat, turn: Side): BoardState
  {
    if hole != StoreHole(turn) then s
    else if turn == A then s.(a := s.a + 1)
    else s.(b := s.b + 1)
  }

  /** The hole part of a pass (mancala.py:51-65): step, drop a bead, pick the hole up if the hand is empty. */
  function Drop(s: BoardState, hole: nat, inHand: nat): (p: Pass)
    requires WellFormed(s) && hole < Holes && inHand > 0
    ensures p.Continue? ==> WellFormed(p.board) && p.hole < Holes && p.inHand > 0
  {
    var next := NextHole(hole);
    var s2 := s.(holes := s.holes[next := s.holes[next] + 1]);
    if inHand > 1 then Continue(s2, next, inHand - 1)
    else if s2.holes[next] > 1 then Continue(s2.(holes := s2.holes[next := 0]), next, s2.holes[next])
    else Finished(MoveResult(s2, false))
  }

  /**
   * Every pass makes progress: either a bead is banked, so fewer beads remain in
   * the holes and in hand, or sowing moves one hole closer to the mover's store hole.
   */
  lemma SowPassProgress(s: BoardState, hole: nat, beads: nat, turn: Side)
    requires WellFormed(s) && hole < Holes && beads > 0
    ensures var p := SowPass(s, hole, beads, turn);
      p.Continue? ==>
        || Sum(p.board.holes) + p.inHand < Sum(s.holes) + beads
        || (Sum(p.board.holes) + p.inHand == Sum(s.holes) + beads && Distance(p.hole, turn) < Distance(hole, turn))
  {
    var s1 := Bank(s, hole, turn);
    var inHand := if hole == StoreHole(turn) then beads - 1 else beads;
    if inHand > 0 {
      var next := NextHole(hole);
      var s2 := s1.(holes := s1.holes[next := s1.holes[next] + 1]);
      SumUpdate(s1.holes, next, s1.holes[next] + 1);
      if inHand == 1 && s2.holes[next] > 1 {
        SumUpdate(s2.holes, next, 0);
      }
    }
  }

  /**
   * A pass that goes on keeps every bead (in holes, in hand or in a store), leaves
   * the opponent's store alone and never shrinks the mover's store.
   */
  lemma SowPassConserves(s: BoardState, hole: nat, beads: nat, turn: Side)
    requires WellFormed(s) && hole < Holes && beads > 0
    ensures var p := SowPass(s, hole, beads, turn);
      p.Continue? ==>
        && Sum(p.board.holes) + p.inHand + p.board.a + p.board.b == Sum(s.holes) + beads + s.a + s.b
        && Store(p.board, Other(turn)) == Store(s, Other(turn))
        && Store(p.board, turn) >= Store(s, turn)
  {
    var s1 := Bank(s, hole, turn);
    var inHand := if hole == StoreHole(turn) then beads - 1 else beads;
    if inHand > 0 {
      var next := NextHole(hole);
      var s2 := s1.(holes := s1.holes[next := s1.holes[next] + 1]);
      SumUpdate(s1.holes, next, s1.holes[next] + 1);
      if inHand == 1 && s2.holes[next] > 1 {
        SumUpdate(s2.holes, next, 0);
      }
    }
  }

  /**
   * A pass that ends the turn keeps every bead and the opponent's store; it either
   * banked the last bead (a further turn, the mover's store grew) or left the last
   * bead alone in the hole after `hole`.
   */
  lemma SowPassEnds(s: BoardState, hole: nat, beads: nat, turn: Side)
    requires WellFormed(s) && hole < Holes && beads > 0
    ensures var p := SowPass(s, hole, beads, turn);
      p.Finished? ==>
        && WellFormed(p.result.board)
        && Beads(p.result.board) == Sum(s.holes) + beads + s.a + s.b
        && Store(p.result.board, Other(turn)) == Store(s, Other(turn))
        && (p.result.again ==> Store(p.result.board, turn) > Store(s, turn))
        && (!p.result.again ==> Store(p.result.board, turn) >= Store(s, turn) && p.result.board.holes[NextHole(hole)] == 1)
  {
    var s1 := Bank(s, hole, turn);
    var inHand := if hole == StoreHole(turn) then beads - 1 else beads;
    if inHand == 1 {
      var next := NextHole(hole);
      var s2 := s1.(holes := s1.holes[next := s1.holes[next] + 1]);
      SumUpdate(s1.holes, next, s1.holes[next] + 1);
      assert SowPass(s, hole, beads, turn) == Drop(s1, hole, 1);
      if s2.holes[next] <= 1 {
        assert SowPass(s, hole, beads, turn) == Finished(MoveResult(s2, false));
        assert s2.holes[next] == 1;
      }
    }
  }

  /**
   * The `while beads` loop of `Board.move` (mancala.py:30-65) run to its end from
   * `hole` with `beads` in hand. Termination is by the passes' progress: beads on
   * the board and in hand, then the distance to the mover's store hole.
   */
  function SowFrom(s: BoardState, hole: nat, beads: nat, turn: Side): (r: MoveResult)
    requires WellFormed(s) && hole < Holes
    ensures WellFormed(r.board)
    decreases Sum(s.holes) + beads, Distance(hole, turn)
  {
    if beads == 0 then MoveResult(s, false)
    else
      match SowPass(s, hole, beads, turn)
      case Finished(r) => r
      case Continue(s', hole', beads') =>
        SowPassProgress(s, hole, beads, turn);
        SowFrom(s', hole', beads', turn)
  }

  /** A pass that stops ends the sowing with its result. */
  lemma SowFromFinished(s: BoardState, hole: nat, beads: nat, turn: Side, r: MoveResult)
    requires WellFormed(s) && hole < Holes && beads > 0
    requires SowPass(s, hole, beads, turn) == Finished(r)
    ensures SowFrom(s, hole, beads, turn) == r
  {
  }

  /** How many passes the sowing loop still makes: the loop's termination measure. */
  function Passes(s: BoardState, hole: nat, beads: nat, turn: Side): nat
    requires WellFormed(s) && hole < Holes
    decreases Sum(s.holes) + beads, Distance(hole, turn)
  {
    if beads == 0 then 0
    else
      match SowPass(s, hole, beads, turn)
      case Finished(_) => 1
      case Continue(s', hole', beads') =>
        SowPassProgress(s, hole, beads, turn);
        1 + Passes(s', hole', beads', turn)
  }

  /** A pass that goes on leaves the rest of the sowing, one pass shorter, to start where it stopped. */
  lemma SowFromContinue(s: BoardState, hole: nat, beads: nat, turn: Side, s': BoardState, hole': nat, beads': nat)
    requires WellFormed(s) && hole < Holes && beads > 0
    requires SowPass(s, hole, beads, turn) == Continue(s', hole', beads')
    ensures SowFrom(s, hole, beads, turn) == SowFrom(s', hole', beads', turn)
    ensures Passes(s', hole', beads', turn) < Passes(s, hole, beads, turn)
  {
  }

  /** `Board.move(hole, turn)` (mancala.py:17-65) on a board value. */
  function Sow(s: BoardState, hole: nat, turn: Side): MoveResult
    requires WellFormed(s) && hole < Holes
  {
    if s.holes[hole] == 0 then MoveResult(s, false)
    else SowFrom(s.(holes := s.holes[hole := 0]), hole, s.holes[hole], turn)
  }

  /**
   * What sowing to the end preserves: twelve holes, every bead (those in hand end
   * up on the board), the opponent's store; the mover's store never shrinks and
   * grows whenever a further turn is granted.
   */
  lemma {:induction false} SowFromConserves(s: BoardState, hole: nat, beads: nat, turn: Side)
    requires WellFormed(s) && hole < Holes
    ensures var r := SowFrom(s, hole, beads, turn);
      && WellFormed(r.board)
      && Beads(r.board) == Beads(s) + beads
      && Store(r.board, Other(turn)) == Store(s, Other(turn))
      && Store(r.board, turn) >= Store(s, turn)
      && (r.again ==> Store(r.board, turn) > Store(s, turn))
    decreases Sum(s.holes) + beads, Distance(hole, turn)
  {
    if beads > 0 {
      SowPassProgress(s, hole, beads, turn);
      SowPassConserves(s, hole, beads, turn);
      SowPassEnds(s, hole, beads, turn);
      match SowPass(s, hole, beads, turn)
      case Finished(r) =>
      case Continue(s', hole', beads') =>
        SowFromConserves(s', hole', beads', turn);
    }
  }

  /** A turn that does not end in the store ends in a hole holding exactly one bead. */
  lemma {:induction false} SowFromEndsInSingleton(s: BoardState, hole: nat, beads: nat, turn: Side)
    requires WellFormed(s) && hole < Holes && beads > 0
    ensures var r := SowFrom(s, hole, beads, turn);
      !r.again ==> exists h :: 0 <= h < Holes && r.board.holes[h] == 1
    decreases Sum(s.holes) + beads, Distance(hole, turn)
  {
    SowPassProgress(s, hole, beads, turn);
    SowPassEnds(s, hole, beads, turn);
    match SowPass(s, hole, beads, turn)
    case Finished(r) =>
      if !r.again {
        assert r.board.holes[NextHole(hole)] == 1;
      }
    case Continue(s', hole', beads') =>
      SowFromEndsInSingleton(s', hole', beads', turn);
  }

  /**
   * `Board.move` properties (mancala.py:23-65): an empty hole is refused and nothing
   * changes; otherwise beads are conserved, only the mover's store grows, the mover
   * plays again only after banking its last bead, and otherwise the last bead lies
   * alone in its hole.
   */
  lemma SowFacts(s: BoardState, hole: nat, turn: Side)
    requires WellFormed(s) && hole < Holes
    ensures var r := Sow(s, hole, turn);
      && (s.holes[hole] == 0 ==> r == MoveResult(s, false))
      && WellFormed(r.board)
      && Beads(r.board) == Beads(s)
      && Store(r.board, Other(turn)) == Store(s, Other(turn))
      && Store(r.board, turn) >= Store(s, turn)
      && (r.again ==> Store(r.board, turn) > Store(s, turn) && Sum(r.board.holes) < Sum(s.holes))
      && (!r.again && s.holes[hole] > 0 ==> exists h :: 0 <= h < Holes && r.board.holes[h] == 1)
  {
    if s.holes[hole] > 0 {
      var emptied := s.(holes := s.holes[hole := 0]);
      SumUpdate(s.holes, hole, 0);
      SowFromConserves(emptied, hole, s.holes[hole], turn);
      SowFromEndsInSingleton(emptied, hole, s.holes[hole], turn);
    }
  }

  /** The board of mancala.py, updated in place by `Move`. */
  class Board {
    var a: nat
    var b: nat
    var holes: seq<nat>

    ghost predicate Valid()
      reads this
    {
      |holes| == Holes
    }

    function State(): BoardState
      reads this
    {
      BoardState(holes, a, b)
    }

    /** `Board(a, b, holes)`; an empty `holes` list gives four beads in every hole. */
    constructor (a: nat, b: nat, holes: seq<nat>)
      requires |holes| == Holes || holes == []
      ensures Valid()
      ensures State() == BoardState(if holes == [] then seq(Holes, _ => StartingBeads) else holes, a, b)
    {
      this.a := a;
      this.b := b;
      this.holes := if holes == [] then seq(Holes, _ => StartingBeads) else holes;
    }

    /** `Board.move(hole, turn)`: sow the beads of `hole`, returning whether `turn` plays again. */
    method Move(hole: nat, turn: Side) returns (again: bool)
      requires Valid() && hole < Holes
      modifies this
      ensures Valid()
      ensures MoveResult(State(), again) == Sow(old(State()), hole, turn)
    {
      if holes[hole] == 0 {
        return false;
      }
      var beads: nat := holes[hole];
      holes := holes[hole := 0];
      var h: nat := hole;
      while beads > 0
        invariant Valid() && h < Holes
        invariant SowFrom(State(), h, beads, turn) == Sow(old(State()), hole, turn)
        decreases Passes(State(), h, beads, turn)
      {
        ghost var before, beadsBefore, hBefore := State(), beads, h;
        var done;
        done, again, h, beads := SowOnePass(h, beads, turn);
        if done {
          SowFromFinished(before, hBefore, beadsBefore, turn, MoveResult(State(), again));
          return again;
        }
        SowFromContinue(before, hBefore, beadsBefore, turn, State(), h, beads);
      }
      // The guard holds on entry and every pass that empties the hand returns:
      // the loop never exits normally (the source would return None here).
      return false;
    }

    /**
     * The body of the `while beads` loop of `Board.move` (mancala.py:30-65): one
     * pass, which either ends the move (`done`, with its return value `again`) or
     * leaves `beads` in hand at hole `next`.
     */
    method SowOnePass(h: nat, beads: nat, turn: Side) returns (done: bool, again: bool, next: nat, inHand: nat)
      requires Valid() && h < Holes && beads > 0
      modifies this
      ensures Valid()
      ensures done ==> SowPass(old(State()), h, beads, turn) == Finished(MoveResult(State(), again))
      ensures !done ==> SowPass(old(State()), h, beads, turn) == Continue(State(), next, inHand)
    {
      inHand := beads;
      if h == 11 && turn == A {
        a := a + 1;
        inHand := inHand - 1;
        if inHand == 0 {
          return true, true, h, 0;
        }
      } else if h == 5 && turn == B {
        b := b + 1;
        inHand := inHand - 1;
        if inHand == 0 {
          return true, true, h, 0;
        }
      }
      assert State() == Bank(old(State()), h, turn);
      assert SowPass(old(State()), h, beads, turn) == Drop(State(), h, inHand);
      next := if h < 11 then h + 1 else 0;
      holes := holes[next := holes[next] + 1];
      inHand := inHand - 1;
      if inHand == 0 {
        if holes[next] > 1 {
          inHand := holes[next];
          holes := holes[next := 0];
        } else {
          return true, false, next, 0;
        }
      }
      return false, false, next, inHand;
    }

    /** `Board.dup()`: an independent copy with the same stores and holes. */
    method Dup() returns (d: Board)
      requires Valid()
      ensures fresh(d) && d.Valid()
      ensures d.State() == State()
    {
      d := new Board(a, b, holes);
    }
  }
}
