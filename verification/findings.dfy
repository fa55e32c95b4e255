/**
  Two places where the source does not do what it evidently means to,
  each shown on the model of the code as written next to the corrected
  definition the rest of the model uses.

  1. The solved check accepts cubes that are not solved: it asks only
     that every row be one colour, so a single U turn of a fresh cube of
     size 2 or more passes it. The corrected check, `IsSolvedUniform`,
     asks that every face be one colour and rejects that cube.

  2. S' as written does not undo S: it writes U's old middle row into L's
     middle column without reversing it, so S then S' leaves L's middle
     column upside down. It undoes S exactly when that column reads the
     same both ways; a concrete cube of size 3 where it does not is given.
     The corrected `MoveSPrime` reverses the row, and `MoveSInverse`
     proves that it undoes S.
*/
module Findings {
  import opened Grids
  import opened Cubes
  import opened FaceMoves
  import opened FaceLaws
  import opened SliceMoves

  /**
    One U turn of a fresh cube with n >= 2 passes the source's solved
    check, although its Front face now has a blue top row over red rows;
    the corrected check rejects it.
  */
  lemma RowCheckAcceptsTurnedCube(n: nat)
    requires n >= 2
    ensures IsSolved(MoveU(New(n)))
    ensures !IsSolvedUniform(MoveU(New(n)))
  {
    var c := New(n);
    var t := MoveU(c);
    MoveUCells(c);
    assert t.F[0][0] == Blue && t.F[1][0] == Red;
  }

  /** S' as written after S restores face U. */
  lemma SPrimeAsWrittenRestoresFaceU(c: Cube)
    requires Valid(c)
    ensures MoveSPrimeAsWritten(MoveS(c)).U == c.U
  {
    hide *;
    var a := MoveS(c);
    MoveSCellsU(c);
    MoveSCellsR(c);
    MoveSPrimeAsWrittenCellsU(a);
    ValidFaces(c);
    ValidFaces(a);
    ValidFaces(MoveSPrimeAsWritten(a));
    forall x, y | 0 <= x < c.n && 0 <= y < c.n
      ensures MoveSPrimeAsWritten(a).U[x][y] == c.U[x][y]
    {
      if x == Mid(c.n) {
        assert MoveSPrimeAsWritten(a).U[x][y] == a.R[y][x];
      }
    }
    GridEq(MoveSPrimeAsWritten(a).U, c.U, c.n);
  }

  /** S' as written after S restores face R. */
  lemma SPrimeAsWrittenRestoresFaceR(c: Cube)
    requires Valid(c)
    ensures MoveSPrimeAsWritten(MoveS(c)).R == c.R
  {
    hide *;
    var a := MoveS(c);
    MoveSCellsR(c);
    MoveSCellsD(c);
    MoveSPrimeAsWrittenCellsR(a);
    ValidFaces(c);
    ValidFaces(a);
    ValidFaces(MoveSPrimeAsWritten(a));
    forall x, y | 0 <= x < c.n && 0 <= y < c.n
      ensures MoveSPrimeAsWritten(a).R[x][y] == c.R[x][y]
    {
      if y == Mid(c.n) {
        assert MoveSPrimeAsWritten(a).R[x][y] == a.D[y][c.n - 1 - x];
      }
    }
    GridEq(MoveSPrimeAsWritten(a).R, c.R, c.n);
  }

  /** S' as written after S restores face D. */
  lemma SPrimeAsWrittenRestoresFaceD(c: Cube)
    requires Valid(c)
    ensures MoveSPrimeAsWritten(MoveS(c)).D == c.D
  {
    hide *;
    var a := MoveS(c);
    MoveSCellsD(c);
    MoveSCellsL(c);
    MoveSPrimeAsWrittenCellsD(a);
    ValidFaces(c);
    ValidFaces(a);
    ValidFaces(MoveSPrimeAsWritten(a));
    forall x, y | 0 <= x < c.n && 0 <= y < c.n
      ensures MoveSPrimeAsWritten(a).D[x][y] == c.D[x][y]
    {
      if x == Mid(c.n) {
        assert MoveSPrimeAsWritten(a).D[x][y] == a.L[y][x];
      }
    }
    GridEq(MoveSPrimeAsWritten(a).D, c.D, c.n);
  }

  /**
    S' as written after S: every face but L is restored, L's middle column
    comes back reversed, and the rest of L is restored.
  */
  lemma SPrimeAsWrittenAfterS(c: Cube)
    requires Valid(c)
    ensures MoveSPrimeAsWritten(MoveS(c)).U == c.U && MoveSPrimeAsWritten(MoveS(c)).D == c.D
    ensures MoveSPrimeAsWritten(MoveS(c)).R == c.R
    ensures MoveSPrimeAsWritten(MoveS(c)).F == c.F && MoveSPrimeAsWritten(MoveS(c)).B == c.B
    ensures forall x, y | 0 <= x < c.n && y == Mid(c.n) :: MoveSPrimeAsWritten(MoveS(c)).L[x][y] == c.L[c.n - 1 - x][y]
    ensures forall x, y | 0 <= x < c.n && 0 <= y < c.n && y != Mid(c.n) :: MoveSPrimeAsWritten(MoveS(c)).L[x][y] == c.L[x][y]
  {
    hide *;
    var a := MoveS(c);
    SPrimeAsWrittenRestoresFaceU(c);
    SPrimeAsWrittenRestoresFaceR(c);
    SPrimeAsWrittenRestoresFaceD(c);
    MoveSCellsU(c);
    MoveSCellsL(c);
    MoveSPrimeAsWrittenCellsL(a);
    ValidFaces(c);
    ValidFaces(a);
    ValidFaces(MoveSPrimeAsWritten(a));
    forall x, y | 0 <= x < c.n && y == Mid(c.n)
      ensures MoveSPrimeAsWritten(a).L[x][y] == c.L[c.n - 1 - x][y]
    {
      assert MoveSPrimeAsWritten(a).L[x][y] == a.U[y][x];
    }
  }

  /** S' as written undoes S exactly when L's middle column reads the same from both ends. */
  lemma SPrimeAsWrittenUndoesSIff(c: Cube)
    requires Valid(c)
    ensures MoveSPrimeAsWritten(MoveS(c)) == c <==>
      forall x | 0 <= x < c.n :: c.L[x][Mid(c.n)] == c.L[c.n - 1 - x][Mid(c.n)]
  {
    var r := MoveSPrimeAsWritten(MoveS(c));
    SPrimeAsWrittenAfterS(c);
    if forall x | 0 <= x < c.n :: c.L[x][Mid(c.n)] == c.L[c.n - 1 - x][Mid(c.n)] {
      GridEq(r.L, c.L, c.n);
    }
  }

  /**
    A cube of size 3 that S' as written does not bring back after S: its
    Left face is green but for one white cell at the top of the middle
    column.
  */
  lemma SPrimeAsWrittenNotInverse()
    ensures var c := Cube(3, Filled(3, White), Filled(3, Yellow),
                          [[Green, White, Green], [Green, Green, Green], [Green, Green, Green]],
                          Filled(3, Blue), Filled(3, Red), Filled(3, Orange));
            Valid(c) && MoveSPrimeAsWritten(MoveS(c)) != c
  {
    var c := Cube(3, Filled(3, White), Filled(3, Yellow),
                  [[Green, White, Green], [Green, Green, Green], [Green, Green, Green]],
                  Filled(3, Blue), Filled(3, Red), Filled(3, Orange));
    SPrimeAsWrittenUndoesSIff(c);
    assert c.L[0][Mid(c.n)] != c.L[c.n - 1 - 0][Mid(c.n)];
  }
}
