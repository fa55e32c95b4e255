/**
  Applying a list of quarter turns, as the scrambler does. The scrambler
  draws each turn at random from the list of the twelve quarter turns;
  here the drawn indices are a parameter, so the model covers every
  sequence of draws. Any such sequence is undone by the opposite turns in
  reverse order, and it keeps the colours.
*/
module Scramble {
  import opened Cubes
  import opened FaceMoves
  import opened FaceLaws
  import opened Colors

  /** Every index of `turns` names one of the twelve entries of the scrambler's list. */
  predicate ValidTurns(turns: seq<nat>) {
    forall k | 0 <= k < |turns| :: turns[k] < 12
  }

  /** Entry `i` of the scrambler's list: U, U', D, D', L, L', R, R', F, F', B, B'. */
  function QuarterTurn(c: Cube, i: nat): (c': Cube)
    requires Valid(c) && i < 12
    ensures Valid(c') && c'.n == c.n
  {
    if i == 0 then MoveU(c)
    else if i == 1 then MoveUPrime(c)
    else if i == 2 then MoveD(c)
    else if i == 3 then MoveDPrime(c)
    else if i == 4 then MoveL(c)
    else if i == 5 then MoveLPrime(c)
    else if i == 6 then MoveR(c)
    else if i == 7 then MoveRPrime(c)
    else if i == 8 then MoveF(c)
    else if i == 9 then MoveFPrime(c)
    else if i == 10 then MoveB(c)
    else MoveBPrime(c)
  }

  /** `QuarterTurn` case by case. */
  lemma QuarterTurnCases(c: Cube, i: nat)
    requires Valid(c) && i < 12
    ensures i == 0 ==> QuarterTurn(c, i) == MoveU(c)
    ensures i == 1 ==> QuarterTurn(c, i) == MoveUPrime(c)
    ensures i == 2 ==> QuarterTurn(c, i) == MoveD(c)
    ensures i == 3 ==> QuarterTurn(c, i) == MoveDPrime(c)
    ensures i == 4 ==> QuarterTurn(c, i) == MoveL(c)
    ensures i == 5 ==> QuarterTurn(c, i) == MoveLPrime(c)
    ensures i == 6 ==> QuarterTurn(c, i) == MoveR(c)
    ensures i == 7 ==> QuarterTurn(c, i) == MoveRPrime(c)
    ensures i == 8 ==> QuarterTurn(c, i) == MoveF(c)
    ensures i == 9 ==> QuarterTurn(c, i) == MoveFPrime(c)
    ensures i == 10 ==> QuarterTurn(c, i) == MoveB(c)
    ensures i == 11 ==> QuarterTurn(c, i) == MoveBPrime(c)
  {
  }

  /** The index of the turn that undoes turn `i`: the other entry of its pair. */
  function Opposite(i: nat): (j: nat)
    requires i < 12
    ensures j < 12 && j != i
    ensures (i % 2 == 0 ==> j == i + 1) && (i % 2 == 1 ==> j + 1 == i)
  {
    if i % 2 == 0 then i + 1 else i - 1
  }

  /** The opposite of the opposite turn is the turn itself. */
  lemma OppositeOpposite(i: nat)
    requires i < 12
    ensures Opposite(Opposite(i)) == i
  {
  }

  /** Each quarter turn is undone by its opposite. */
  lemma QuarterTurnUndo(c: Cube, i: nat)
    requires Valid(c) && i < 12
    ensures QuarterTurn(QuarterTurn(c, i), Opposite(i)) == c
  {
    hide *;
    QuarterTurnCases(c, i);
    QuarterTurnCases(QuarterTurn(c, i), Opposite(i));
    if i < 2 {
      MoveUInverse(c);
    } else if i < 4 {
      MoveDInverse(c);
    } else if i < 6 {
      MoveLInverse(c);
    } else if i < 8 {
      MoveRInverse(c);
    } else if i < 10 {
      MoveFInverse(c);
    } else {
      MoveBInverse(c);
    }
  }

  /** Each quarter turn keeps the colours. */
  lemma QuarterTurnColors(c: Cube, i: nat)
    requires Valid(c) && i < 12
    ensures SameColors(c, QuarterTurn(c, i))
  {
    hide *;
    QuarterTurnCases(c, i);
    if i < 2 {
      MoveUColors(c);
    } else if i < 4 {
      MoveDColors(c);
    } else if i < 6 {
      MoveLColors(c);
    } else if i < 8 {
      MoveRColors(c);
    } else if i < 10 {
      MoveFColors(c);
    } else {
      MoveBColors(c);
    }
  }

  /** The cube after the turns `turns`, first to last. */
  function ApplyTurns(c: Cube, turns: seq<nat>): (c': Cube)
    requires Valid(c) && ValidTurns(turns)
    ensures Valid(c') && c'.n == c.n
    decreases |turns|
  {
    if turns == [] then c else ApplyTurns(QuarterTurn(c, turns[0]), turns[1..])
  }

  /** The turns that undo `turns`: the opposite of each, last first. */
  function UndoTurns(turns: seq<nat>): (u: seq<nat>)
    requires ValidTurns(turns)
    ensures |u| == |turns| && ValidTurns(u)
    ensures forall k | 0 <= k < |u| :: u[k] == Opposite(turns[|turns| - 1 - k])
  {
    if turns == [] then [] else UndoTurns(turns[1..]) + [Opposite(turns[0])]
  }

  /** Applying `a` then `b` is applying `a + b`. */
  lemma {:induction false} ApplyTurnsAppend(c: Cube, a: seq<nat>, b: seq<nat>)
    requires Valid(c) && ValidTurns(a) && ValidTurns(b)
    ensures ValidTurns(a + b)
    ensures ApplyTurns(c, a + b) == ApplyTurns(ApplyTurns(c, a), b)
    decreases |a|
  {
    if a == [] {
      assert a + b == b;
    } else {
      assert (a + b)[1..] == a[1..] + b;
      ApplyTurnsAppend(QuarterTurn(c, a[0]), a[1..], b);
    }
  }

  /** Any sequence of quarter turns is undone by `UndoTurns` of it. */
  lemma {:induction false} ApplyTurnsUndo(c: Cube, turns: seq<nat>)
    requires Valid(c) && ValidTurns(turns)
    ensures ApplyTurns(ApplyTurns(c, turns), UndoTurns(turns)) == c
    decreases |turns|
  {
    if turns != [] {
      var i := turns[0];
      var c1 := QuarterTurn(c, i);
      var d := ApplyTurns(c1, turns[1..]);
      ApplyTurnsUndo(c1, turns[1..]);
      ApplyTurnsAppend(d, UndoTurns(turns[1..]), [Opposite(i)]);
      QuarterTurnUndo(c, i);
    }
  }

  /** Any sequence of quarter turns keeps the colours. */
  lemma {:induction false} ApplyTurnsColors(c: Cube, turns: seq<nat>)
    requires Valid(c) && ValidTurns(turns)
    ensures SameColors(c, ApplyTurns(c, turns))
    decreases |turns|
  {
    if turns == [] {
      SameColorsRefl(c);
    } else {
      var c1 := QuarterTurn(c, turns[0]);
      QuarterTurnColors(c, turns[0]);
      ApplyTurnsColors(c1, turns[1..]);
      SameColorsTrans(c, c1, ApplyTurns(c1, turns[1..]));
    }
  }

  /**
    U, D, L, R, F, B followed by their six inverses in reverse order gives
    a fresh cube back, for every size.
  */
  lemma SixTurnsAndBackIsNew(n: nat)
    requires n >= 1
    ensures ValidTurns([0, 2, 4, 6, 8, 10, 11, 9, 7, 5, 3, 1])
    ensures ApplyTurns(New(n), [0, 2, 4, 6, 8, 10, 11, 9, 7, 5, 3, 1]) == New(n)
  {
    var there := [0, 2, 4, 6, 8, 10];
    var back := UndoTurns(there);
    assert back == [11, 9, 7, 5, 3, 1];
    assert there + back == [0, 2, 4, 6, 8, 10, 11, 9, 7, 5, 3, 1];
    ApplyTurnsAppend(New(n), there, back);
    ApplyTurnsUndo(New(n), there);
  }

  /**
    The scrambler's loop: apply the drawn turns one after another. The
    result is the cube `ApplyTurns` describes, with the same colours, and
    the undo sequence brings the starting cube back.
  */
  method ScrambleWith(c: Cube, draws: seq<nat>) returns (r: Cube)
    requires Valid(c) && ValidTurns(draws)
    ensures Valid(r) && r.n == c.n
    ensures r == ApplyTurns(c, draws)
    ensures SameColors(c, r)
    ensures ApplyTurns(r, UndoTurns(draws)) == c
  {
    r := c;
    var i := 0;
    while i < |draws|
      invariant 0 <= i <= |draws|
      invariant ValidTurns(draws[..i])
      invariant Valid(r) && r == ApplyTurns(c, draws[..i])
    {
      ApplyTurnsAppend(c, draws[..i], [draws[i]]);
      assert draws[..i + 1] == draws[..i] + [draws[i]];
      r := QuarterTurn(r, draws[i]);
      i := i + 1;
    }
    assert draws[..i] == draws;
    ApplyTurnsColors(c, draws);
    ApplyTurnsUndo(c, draws);
  }
}
