/**
  The slice-turn laws: M' undoes M, E' undoes E and the corrected S'
  undoes S, in either order, and four turns of any slice give the cube
  back. The proofs follow every facelet of a face round the cycle.
*/
module SliceLaws {
  import opened Grids
  import opened Cubes
  import opened SliceMoves

  /** M' after M restores face U. */
  lemma MUndoFaceU(c: Cube)
    requires Valid(c)
    ensures MoveMPrime(MoveM(c)).U == c.U
  {
    hide *;
    var a := MoveM(c);
    MoveMCellsU(c);
    MoveMCellsB(c);
    MoveMPrimeCellsU(a);
    ValidFaces(c);
    ValidFaces(a);
    ValidFaces(MoveMPrime(a));
    forall x, y | 0 <= x < c.n && 0 <= y < c.n
      ensures MoveMPrime(a).U[x][y] == c.U[x][y]
    {
      if y == Mid(c.n) {
        assert MoveMPrime(a).U[x][y] == a.B[c.n - 1 - x][y];
      }
    }
    GridEq(MoveMPrime(a).U, c.U, c.n);
  }

  /** M' after M restores face F. */
  lemma MUndoFaceF(c: Cube)
    requires Valid(c)
    ensures MoveMPrime(MoveM(c)).F == c.F
  {
    hide *;
    var a := MoveM(c);
    MoveMCellsF(c);
    MoveMCellsU(c);
    MoveMPrimeCellsF(a);
    ValidFaces(c);
    ValidFaces(a);
    ValidFaces(MoveMPrime(a));
    forall x, y | 0 <= x < c.n && 0 <= y < c.n
      ensures MoveMPrime(a).F[x][y] == c.F[x][y]
    {
      if y == Mid(c.n) {
        assert MoveMPrime(a).F[x][y] == a.U[x][y];
      }
    }
    GridEq(MoveMPrime(a).F, c.F, c.n);
  }

  /** M' after M restores face D. */
  lemma MUndoFaceD(c: Cube)
    requires Valid(c)
    ensures MoveMPrime(MoveM(c)).D == c.D
  {
    hide *;
    var a := MoveM(c);
    MoveMCellsD(c);
    MoveMCellsF(c);
    MoveMPrimeCellsD(a);
    ValidFaces(c);
    ValidFaces(a);
    ValidFaces(MoveMPrime(a));
    forall x, y | 0 <= x < c.n && 0 <= y < c.n
      ensures MoveMPrime(a).D[x][y] == c.D[x][y]
    {
      if y == Mid(c.n) {
        assert MoveMPrime(a).D[x][y] == a.F[x][y];
      }
    }
    GridEq(MoveMPrime(a).D, c.D, c.n);
  }

  /** M' after M restores face B. */
  lemma MUndoFaceB(c: Cube)
    requires Valid(c)
    ensures MoveMPrime(MoveM(c)).B == c.B
  {
    hide *;
    var a := MoveM(c);
    MoveMCellsB(c);
    MoveMCellsD(c);
    MoveMPrimeCellsB(a);
    ValidFaces(c);
    ValidFaces(a);
    ValidFaces(MoveMPrime(a));
    forall x, y | 0 <= x < c.n && 0 <= y < c.n
      ensures MoveMPrime(a).B[x][y] == c.B[x][y]
    {
      if y == Mid(c.n) {
        assert MoveMPrime(a).B[x][y] == a.D[c.n - 1 - x][y];
      }
    }
    GridEq(MoveMPrime(a).B, c.B, c.n);
  }

  /** M after M' restores face U. */
  lemma MRedoFaceU(c: Cube)
    requires Valid(c)
    ensures MoveM(MoveMPrime(c)).U == c.U
  {
    hide *;
    var a := MoveMPrime(c);
    MoveMPrimeCellsU(c);
    MoveMPrimeCellsF(c);
    MoveMCellsU(a);
    ValidFaces(c);
    ValidFaces(a);
    ValidFaces(MoveM(a));
    forall x, y | 0 <= x < c.n && 0 <= y < c.n
      ensures MoveM(a).U[x][y] == c.U[x][y]
    {
      if y == Mid(c.n) {
        assert MoveM(a).U[x][y] == a.F[x][y];
      }
    }
    GridEq(MoveM(a).U, c.U, c.n);
  }

  /** M after M' restores face F. */
  lemma MRedoFaceF(c: Cube)
    requires Valid(c)
    ensures MoveM(MoveMPrime(c)).F == c.F
  {
    hide *;
    var a := MoveMPrime(c);
    MoveMPrimeCellsF(c);
    MoveMPrimeCellsD(c);
    MoveMCellsF(a);
    ValidFaces(c);
    ValidFaces(a);
    ValidFaces(MoveM(a));
    forall x, y | 0 <= x < c.n && 0 <= y < c.n
      ensures MoveM(a).F[x][y] == c.F[x][y]
    {
      if y == Mid(c.n) {
        assert MoveM(a).F[x][y] == a.D[x][y];
      }
    }
    GridEq(MoveM(a).F, c.F, c.n);
  }

  /** M after M' restores face D. */
  lemma MRedoFaceD(c: Cube)
    requires Valid(c)
    ensures MoveM(MoveMPrime(c)).D == c.D
  {
    hide *;
    var a := MoveMPrime(c);
    MoveMPrimeCellsD(c);
    MoveMPrimeCellsB(c);
    MoveMCellsD(a);
    ValidFaces(c);
    ValidFaces(a);
    ValidFaces(MoveM(a));
    forall x, y | 0 <= x < c.n && 0 <= y < c.n
      ensures MoveM(a).D[x][y] == c.D[x][y]
    {
      if y == Mid(c.n) {
        assert MoveM(a).D[x][y] == a.B[c.n - 1 - x][y];
      }
    }
    GridEq(MoveM(a).D, c.D, c.n);
  }

  /** M after M' restores face B. */
  lemma MRedoFaceB(c: Cube)
    requires Valid(c)
    ensures MoveM(MoveMPrime(c)).B == c.B
  {
    hide *;
    var a := MoveMPrime(c);
    MoveMPrimeCellsB(c);
    MoveMPrimeCellsU(c);
    MoveMCellsB(a);
    ValidFaces(c);
    ValidFaces(a);
    ValidFaces(MoveM(a));
    forall x, y | 0 <= x < c.n && 0 <= y < c.n
      ensures MoveM(a).B[x][y] == c.B[x][y]
    {
      if y == Mid(c.n) {
        assert MoveM(a).B[x][y] == a.U[c.n - 1 - x][y];
      }
    }
    GridEq(MoveM(a).B, c.B, c.n);
  }

  /** M' undoes M, and M undoes M'. */
  lemma MoveMInverse(c: Cube)
    requires Valid(c)
    ensures MoveMPrime(MoveM(c)) == c
    ensures MoveM(MoveMPrime(c)) == c
  {
    MUndoFaceU(c);
    MUndoFaceF(c);
    MUndoFaceD(c);
    MUndoFaceB(c);
    MRedoFaceU(c);
    MRedoFaceF(c);
    MRedoFaceD(c);
    MRedoFaceB(c);
  }

  /** Four M turns restore face U. */
  lemma MFourFaceU(c: Cube)
    requires Valid(c)
    ensures MoveM(MoveM(MoveM(MoveM(c)))).U == c.U
  {
    hide *;
    var a1 := MoveM(c);
    var a2 := MoveM(a1);
    var a3 := MoveM(a2);
    MoveMCellsU(a3);
    MoveMCellsF(a2);
    MoveMCellsU(a2);
    MoveMCellsD(a1);
    MoveMCellsU(a1);
    MoveMCellsB(c);
    MoveMCellsU(c);
    ValidFaces(c);
    ValidFaces(a1);
    ValidFaces(a2);
    ValidFaces(a3);
    ValidFaces(MoveM(a3));
    forall x, y | 0 <= x < c.n && 0 <= y < c.n
      ensures MoveM(a3).U[x][y] == c.U[x][y]
    {
      if y == Mid(c.n) {
        assert MoveM(a3).U[x][y] == a3.F[x][y];
        assert a3.F[x][y] == a2.D[x][y];
        assert a2.D[x][y] == a1.B[c.n - 1 - x][y];
      }
    }
    GridEq(MoveM(a3).U, c.U, c.n);
  }

  /** Four M turns restore face F. */
  lemma MFourFaceF(c: Cube)
    requires Valid(c)
    ensures MoveM(MoveM(MoveM(MoveM(c)))).F == c.F
  {
    hide *;
    var a1 := MoveM(c);
    var a2 := MoveM(a1);
    var a3 := MoveM(a2);
    MoveMCellsF(a3);
    MoveMCellsD(a2);
    MoveMCellsF(a2);
    MoveMCellsB(a1);
    MoveMCellsF(a1);
    MoveMCellsU(c);
    MoveMCellsF(c);
    ValidFaces(c);
    ValidFaces(a1);
    ValidFaces(a2);
    ValidFaces(a3);
    ValidFaces(MoveM(a3));
    forall x, y | 0 <= x < c.n && 0 <= y < c.n
      ensures MoveM(a3).F[x][y] == c.F[x][y]
    {
      if y == Mid(c.n) {
        assert MoveM(a3).F[x][y] == a3.D[x][y];
        assert a3.D[x][y] == a2.B[c.n - 1 - x][y];
        assert a2.B[c.n - 1 - x][y] == a1.U[x][y];
      }
    }
    GridEq(MoveM(a3).F, c.F, c.n);
  }

  /** Four M turns restore face D. */
  lemma MFourFaceD(c: Cube)
    requires Valid(c)
    ensures MoveM(MoveM(MoveM(MoveM(c)))).D == c.D
  {
    hide *;
    var a1 := MoveM(c);
    var a2 := MoveM(a1);
    var a3 := MoveM(a2);
    MoveMCellsD(a3);
    MoveMCellsB(a2);
    MoveMCellsD(a2);
    MoveMCellsU(a1);
    MoveMCellsD(a1);
    MoveMCellsF(c);
    MoveMCellsD(c);
    ValidFaces(c);
    ValidFaces(a1);
    ValidFaces(a2);
    ValidFaces(a3);
    ValidFaces(MoveM(a3));
    forall x, y | 0 <= x < c.n && 0 <= y < c.n
      ensures MoveM(a3).D[x][y] == c.D[x][y]
    {
      if y == Mid(c.n) {
        assert MoveM(a3).D[x][y] == a3.B[c.n - 1 - x][y];
        assert a3.B[c.n - 1 - x][y] == a2.U[x][y];
        assert a2.U[x][y] == a1.F[x][y];
      }
    }
    GridEq(MoveM(a3).D, c.D, c.n);
  }

  /** Four M turns restore face B. */
  lemma MFourFaceB(c: Cube)
    requires Valid(c)
    ensures MoveM(MoveM(MoveM(MoveM(c)))).B == c.B
  {
    hide *;
    var a1 := MoveM(c);
    var a2 := MoveM(a1);
    var a3 := MoveM(a2);
    MoveMCellsB(a3);
    MoveMCellsU(a2);
    MoveMCellsB(a2);
    MoveMCellsF(a1);
    MoveMCellsB(a1);
    MoveMCellsD(c);
    MoveMCellsB(c);
    ValidFaces(c);
    ValidFaces(a1);
    ValidFaces(a2);
    ValidFaces(a3);
    ValidFaces(MoveM(a3));
    forall x, y | 0 <= x < c.n && 0 <= y < c.n
      ensures MoveM(a3).B[x][y] == c.B[x][y]
    {
      if y == Mid(c.n) {
        assert MoveM(a3).B[x][y] == a3.U[c.n - 1 - x][y];
        assert a3.U[c.n - 1 - x][y] == a2.F[c.n - 1 - x][y];
        assert a2.F[c.n - 1 - x][y] == a1.D[c.n - 1 - x][y];
      }
    }
    GridEq(MoveM(a3).B, c.B, c.n);
  }

  /** Four M turns, or four M' turns, give the cube back. */
  lemma MoveMOrderFour(c: Cube)
    requires Valid(c)
    ensures MoveM(MoveM(MoveM(MoveM(c)))) == c
    ensures MoveMPrime(MoveMPrime(MoveMPrime(MoveMPrime(c)))) == c
  {
    MFourFaceU(c);
    MFourFaceF(c);
    MFourFaceD(c);
    MFourFaceB(c);
    var a1 := MoveM(c);
    var a2 := MoveM(a1);
    var a3 := MoveM(a2);
    MoveMInverse(a3);
    MoveMInverse(a2);
    MoveMInverse(a1);
    MoveMInverse(c);
  }

  /** E' after E restores face F. */
  lemma EUndoFaceF(c: Cube)
    requires Valid(c)
    ensures MoveEPrime(MoveE(c)).F == c.F
  {
    hide *;
    var a := MoveE(c);
    MoveECellsF(c);
    MoveECellsL(c);
    MoveEPrimeCellsF(a);
    ValidFaces(c);
    ValidFaces(a);
    ValidFaces(MoveEPrime(a));
    forall x, y | 0 <= x < c.n && 0 <= y < c.n
      ensures MoveEPrime(a).F[x][y] == c.F[x][y]
    {
      if x == Mid(c.n) {
        assert MoveEPrime(a).F[x][y] == a.L[x][y];
      }
    }
    GridEq(MoveEPrime(a).F, c.F, c.n);
  }

  /** E' after E restores face R. */
  lemma EUndoFaceR(c: Cube)
    requires Valid(c)
    ensures MoveEPrime(MoveE(c)).R == c.R
  {
    hide *;
    var a := MoveE(c);
    MoveECellsR(c);
    MoveECellsF(c);
    MoveEPrimeCellsR(a);
    ValidFaces(c);
    ValidFaces(a);
    ValidFaces(MoveEPrime(a));
    forall x, y | 0 <= x < c.n && 0 <= y < c.n
      ensures MoveEPrime(a).R[x][y] == c.R[x][y]
    {
      if x == Mid(c.n) {
        assert MoveEPrime(a).R[x][y] == a.F[x][y];
      }
    }
    GridEq(MoveEPrime(a).R, c.R, c.n);
  }

  /** E' after E restores face B. */
  lemma EUndoFaceB(c: Cube)
    requires Valid(c)
    ensures MoveEPrime(MoveE(c)).B == c.B
  {
    hide *;
    var a := MoveE(c);
    MoveECellsB(c);
    MoveECellsR(c);
    MoveEPrimeCellsB(a);
    ValidFaces(c);
    ValidFaces(a);
    ValidFaces(MoveEPrime(a));
    forall x, y | 0 <= x < c.n && 0 <= y < c.n
      ensures MoveEPrime(a).B[x][y] == c.B[x][y]
    {
      if x == Mid(c.n) {
        assert MoveEPrime(a).B[x][y] == a.R[x][y];
      }
    }
    GridEq(MoveEPrime(a).B, c.B, c.n);
  }

  /** E' after E restores face L. */
  lemma EUndoFaceL(c: Cube)
    requires Valid(c)
    ensures MoveEPrime(MoveE(c)).L == c.L
  {
    hide *;
    var a := MoveE(c);
    MoveECellsL(c);
    MoveECellsB(c);
    MoveEPrimeCellsL(a);
    ValidFaces(c);
    ValidFaces(a);
    ValidFaces(MoveEPrime(a));
    forall x, y | 0 <= x < c.n && 0 <= y < c.n
      ensures MoveEPrime(a).L[x][y] == c.L[x][y]
    {
      if x == Mid(c.n) {
        assert MoveEPrime(a).L[x][y] == a.B[x][y];
      }
    }
    GridEq(MoveEPrime(a).L, c.L, c.n);
  }

  /** E after E' restores face F. */
  lemma ERedoFaceF(c: Cube)
    requires Valid(c)
    ensures MoveE(MoveEPrime(c)).F == c.F
  {
    hide *;
    var a := MoveEPrime(c);
    MoveEPrimeCellsF(c);
    MoveEPrimeCellsR(c);
    MoveECellsF(a);
    ValidFaces(c);
    ValidFaces(a);
    ValidFaces(MoveE(a));
    forall x, y | 0 <= x < c.n && 0 <= y < c.n
      ensures MoveE(a).F[x][y] == c.F[x][y]
    {
      if x == Mid(c.n) {
        assert MoveE(a).F[x][y] == a.R[x][y];
      }
    }
    GridEq(MoveE(a).F, c.F, c.n);
  }

  /** E after E' restores face R. */
  lemma ERedoFaceR(c: Cube)
    requires Valid(c)
    ensures MoveE(MoveEPrime(c)).R == c.R
  {
    hide *;
    var a := MoveEPrime(c);
    MoveEPrimeCellsR(c);
    MoveEPrimeCellsB(c);
    MoveECellsR(a);
    ValidFaces(c);
    ValidFaces(a);
    ValidFaces(MoveE(a));
    forall x, y | 0 <= x < c.n && 0 <= y < c.n
      ensures MoveE(a).R[x][y] == c.R[x][y]
    {
      if x == Mid(c.n) {
        assert MoveE(a).R[x][y] == a.B[x][y];
      }
    }
    GridEq(MoveE(a).R, c.R, c.n);
  }

  /** E after E' restores face B. */
  lemma ERedoFaceB(c: Cube)
    requires Valid(c)
    ensures MoveE(MoveEPrime(c)).B == c.B
  {
    hide *;
    var a := MoveEPrime(c);
    MoveEPrimeCellsB(c);
    MoveEPrimeCellsL(c);
    MoveECellsB(a);
    ValidFaces(c);
    ValidFaces(a);
    ValidFaces(MoveE(a));
    forall x, y | 0 <= x < c.n && 0 <= y < c.n
      ensures MoveE(a).B[x][y] == c.B[x][y]
    {
      if x == Mid(c.n) {
        assert MoveE(a).B[x][y] == a.L[x][y];
      }
    }
    GridEq(MoveE(a).B, c.B, c.n);
  }

  /** E after E' restores face L. */
  lemma ERedoFaceL(c: Cube)
    requires Valid(c)
    ensures MoveE(MoveEPrime(c)).L == c.L
  {
    hide *;
    var a := MoveEPrime(c);
    MoveEPrimeCellsL(c);
    MoveEPrimeCellsF(c);
    MoveECellsL(a);
    ValidFaces(c);
    ValidFaces(a);
    ValidFaces(MoveE(a));
    forall x, y | 0 <= x < c.n && 0 <= y < c.n
      ensures MoveE(a).L[x][y] == c.L[x][y]
    {
      if x == Mid(c.n) {
        assert MoveE(a).L[x][y] == a.F[x][y];
      }
    }
    GridEq(MoveE(a).L, c.L, c.n);
  }

  /** E' undoes E, and E undoes E'. */
  lemma MoveEInverse(c: Cube)
    requires Valid(c)
    ensures MoveEPrime(MoveE(c)) == c
    ensures MoveE(MoveEPrime(c)) == c
  {
    EUndoFaceF(c);
    EUndoFaceR(c);
    EUndoFaceB(c);
    EUndoFaceL(c);
    ERedoFaceF(c);
    ERedoFaceR(c);
    ERedoFaceB(c);
    ERedoFaceL(c);
  }

  /** Four E turns restore face F. */
  lemma EFourFaceF(c: Cube)
    requires Valid(c)
    ensures MoveE(MoveE(MoveE(MoveE(c)))).F == c.F
  {
    hide *;
    var a1 := MoveE(c);
    var a2 := MoveE(a1);
    var a3 := MoveE(a2);
    MoveECellsF(a3);
    MoveECellsR(a2);
    MoveECellsF(a2);
    MoveECellsB(a1);
    MoveECellsF(a1);
    MoveECellsL(c);
    MoveECellsF(c);
    ValidFaces(c);
    ValidFaces(a1);
    ValidFaces(a2);
    ValidFaces(a3);
    ValidFaces(MoveE(a3));
    forall x, y | 0 <= x < c.n && 0 <= y < c.n
      ensures MoveE(a3).F[x][y] == c.F[x][y]
    {
      if x == Mid(c.n) {
        assert MoveE(a3).F[x][y] == a3.R[x][y];
        assert a3.R[x][y] == a2.B[x][y];
        assert a2.B[x][y] == a1.L[x][y];
      }
    }
    GridEq(MoveE(a3).F, c.F, c.n);
  }

  /** Four E turns restore face R. */
  lemma EFourFaceR(c: Cube)
    requires Valid(c)
    ensures MoveE(MoveE(MoveE(MoveE(c)))).R == c.R
  {
    hide *;
    var a1 := MoveE(c);
    var a2 := MoveE(a1);
    var a3 := MoveE(a2);
    MoveECellsR(a3);
    MoveECellsB(a2);
    MoveECellsR(a2);
    MoveECellsL(a1);
    MoveECellsR(a1);
    MoveECellsF(c);
    MoveECellsR(c);
    ValidFaces(c);
    ValidFaces(a1);
    ValidFaces(a2);
    ValidFaces(a3);
    ValidFaces(MoveE(a3));
    forall x, y | 0 <= x < c.n && 0 <= y < c.n
      ensures MoveE(a3).R[x][y] == c.R[x][y]
    {
      if x == Mid(c.n) {
        assert MoveE(a3).R[x][y] == a3.B[x][y];
        assert a3.B[x][y] == a2.L[x][y];
        assert a2.L[x][y] == a1.F[x][y];
      }
    }
    GridEq(MoveE(a3).R, c.R, c.n);
  }

  /** Four E turns restore face B. */
  lemma EFourFaceB(c: Cube)
    requires Valid(c)
    ensures MoveE(MoveE(MoveE(MoveE(c)))).B == c.B
  {
    hide *;
    var a1 := MoveE(c);
    var a2 := MoveE(a1);
    var a3 := MoveE(a2);
    MoveECellsB(a3);
    MoveECellsL(a2);
    MoveECellsB(a2);
    MoveECellsF(a1);
    MoveECellsB(a1);
    MoveECellsR(c);
    MoveECellsB(c);
    ValidFaces(c);
    ValidFaces(a1);
    ValidFaces(a2);
    ValidFaces(a3);
    ValidFaces(MoveE(a3));
    forall x, y | 0 <= x < c.n && 0 <= y < c.n
      ensures MoveE(a3).B[x][y] == c.B[x][y]
    {
      if x == Mid(c.n) {
        assert MoveE(a3).B[x][y] == a3.L[x][y];
        assert a3.L[x][y] == a2.F[x][y];
        assert a2.F[x][y] == a1.R[x][y];
      }
    }
    GridEq(MoveE(a3).B, c.B, c.n);
  }

  /** Four E turns restore face L. */
  lemma EFourFaceL(c: Cube)
    requires Valid(c)
    ensures MoveE(MoveE(MoveE(MoveE(c)))).L == c.L
  {
    hide *;
    var a1 := MoveE(c);
    var a2 := MoveE(a1);
    var a3 := MoveE(a2);
    MoveECellsL(a3);
    MoveECellsF(a2);
    MoveECellsL(a2);
    MoveECellsR(a1);
    MoveECellsL(a1);
    MoveECellsB(c);
    MoveECellsL(c);
    ValidFaces(c);
    ValidFaces(a1);
    ValidFaces(a2);
    ValidFaces(a3);
    ValidFaces(MoveE(a3));
    forall x, y | 0 <= x < c.n && 0 <= y < c.n
      ensures MoveE(a3).L[x][y] == c.L[x][y]
    {
      if x == Mid(c.n) {
        assert MoveE(a3).L[x][y] == a3.F[x][y];
        assert a3.F[x][y] == a2.R[x][y];
        assert a2.R[x][y] == a1.B[x][y];
      }
    }
    GridEq(MoveE(a3).L, c.L, c.n);
  }

  /** Four E turns, or four E' turns, give the cube back. */
  lemma MoveEOrderFour(c: Cube)
    requires Valid(c)
    ensures MoveE(MoveE(MoveE(MoveE(c)))) == c
    ensures MoveEPrime(MoveEPrime(MoveEPrime(MoveEPrime(c)))) == c
  {
    EFourFaceF(c);
    EFourFaceR(c);
    EFourFaceB(c);
    EFourFaceL(c);
    var a1 := MoveE(c);
    var a2 := MoveE(a1);
    var a3 := MoveE(a2);
    MoveEInverse(a3);
    MoveEInverse(a2);
    MoveEInverse(a1);
    MoveEInverse(c);
  }

  /** S' after S restores face U. */
  lemma SUndoFaceU(c: Cube)
    requires Valid(c)
    ensures MoveSPrime(MoveS(c)).U == c.U
  {
    hide *;
    var a := MoveS(c);
    MoveSCellsU(c);
    MoveSCellsR(c);
    MoveSPrimeCellsU(a);
    ValidFaces(c);
    ValidFaces(a);
    ValidFaces(MoveSPrime(a));
    forall x, y | 0 <= x < c.n && 0 <= y < c.n
      ensures MoveSPrime(a).U[x][y] == c.U[x][y]
    {
      if x == Mid(c.n) {
        assert MoveSPrime(a).U[x][y] == a.R[y][x];
      }
    }
    GridEq(MoveSPrime(a).U, c.U, c.n);
  }

  /** S' after S restores face L. */
  lemma SUndoFaceL(c: Cube)
    requires Valid(c)
    ensures MoveSPrime(MoveS(c)).L == c.L
  {
    hide *;
    var a := MoveS(c);
    MoveSCellsL(c);
    MoveSCellsU(c);
    MoveSPrimeCellsL(a);
    ValidFaces(c);
    ValidFaces(a);
    ValidFaces(MoveSPrime(a));
    forall x, y | 0 <= x < c.n && 0 <= y < c.n
      ensures MoveSPrime(a).L[x][y] == c.L[x][y]
    {
      if y == Mid(c.n) {
        assert MoveSPrime(a).L[x][y] == a.U[y][c.n - 1 - x];
      }
    }
    GridEq(MoveSPrime(a).L, c.L, c.n);
  }

  /** S' after S restores face D. */
  lemma SUndoFaceD(c: Cube)
    requires Valid(c)
    ensures MoveSPrime(MoveS(c)).D == c.D
  {
    hide *;
    var a := MoveS(c);
    MoveSCellsD(c);
    MoveSCellsL(c);
    MoveSPrimeCellsD(a);
    ValidFaces(c);
    ValidFaces(a);
    ValidFaces(MoveSPrime(a));
    forall x, y | 0 <= x < c.n && 0 <= y < c.n
      ensures MoveSPrime(a).D[x][y] == c.D[x][y]
    {
      if x == Mid(c.n) {
        assert MoveSPrime(a).D[x][y] == a.L[y][x];
      }
    }
    GridEq(MoveSPrime(a).D, c.D, c.n);
  }

  /** S' after S restores face R. */
  lemma SUndoFaceR(c: Cube)
    requires Valid(c)
    ensures MoveSPrime(MoveS(c)).R == c.R
  {
    hide *;
    var a := MoveS(c);
    MoveSCellsR(c);
    MoveSCellsD(c);
    MoveSPrimeCellsR(a);
    ValidFaces(c);
    ValidFaces(a);
    ValidFaces(MoveSPrime(a));
    forall x, y | 0 <= x < c.n && 0 <= y < c.n
      ensures MoveSPrime(a).R[x][y] == c.R[x][y]
    {
      if y == Mid(c.n) {
        assert MoveSPrime(a).R[x][y] == a.D[y][c.n - 1 - x];
      }
    }
    GridEq(MoveSPrime(a).R, c.R, c.n);
  }

  /** S after S' restores face U. */
  lemma SRedoFaceU(c: Cube)
    requires Valid(c)
    ensures MoveS(MoveSPrime(c)).U == c.U
  {
    hide *;
    var a := MoveSPrime(c);
    MoveSPrimeCellsU(c);
    MoveSPrimeCellsL(c);
    MoveSCellsU(a);
    ValidFaces(c);
    ValidFaces(a);
    ValidFaces(MoveS(a));
    forall x, y | 0 <= x < c.n && 0 <= y < c.n
      ensures MoveS(a).U[x][y] == c.U[x][y]
    {
      if x == Mid(c.n) {
        assert MoveS(a).U[x][y] == a.L[c.n - 1 - y][x];
      }
    }
    GridEq(MoveS(a).U, c.U, c.n);
  }

  /** S after S' restores face L. */
  lemma SRedoFaceL(c: Cube)
    requires Valid(c)
    ensures MoveS(MoveSPrime(c)).L == c.L
  {
    hide *;
    var a := MoveSPrime(c);
    MoveSPrimeCellsL(c);
    MoveSPrimeCellsD(c);
    MoveSCellsL(a);
    ValidFaces(c);
    ValidFaces(a);
    ValidFaces(MoveS(a));
    forall x, y | 0 <= x < c.n && 0 <= y < c.n
      ensures MoveS(a).L[x][y] == c.L[x][y]
    {
      if y == Mid(c.n) {
        assert MoveS(a).L[x][y] == a.D[y][x];
      }
    }
    GridEq(MoveS(a).L, c.L, c.n);
  }

  /** S after S' restores face D. */
  lemma SRedoFaceD(c: Cube)
    requires Valid(c)
    ensures MoveS(MoveSPrime(c)).D == c.D
  {
    hide *;
    var a := MoveSPrime(c);
    MoveSPrimeCellsD(c);
    MoveSPrimeCellsR(c);
    MoveSCellsD(a);
    ValidFaces(c);
    ValidFaces(a);
    ValidFaces(MoveS(a));
    forall x, y | 0 <= x < c.n && 0 <= y < c.n
      ensures MoveS(a).D[x][y] == c.D[x][y]
    {
      if x == Mid(c.n) {
        assert MoveS(a).D[x][y] == a.R[c.n - 1 - y][x];
      }
    }
    GridEq(MoveS(a).D, c.D, c.n);
  }

  /** S after S' restores face R. */
  lemma SRedoFaceR(c: Cube)
    requires Valid(c)
    ensures MoveS(MoveSPrime(c)).R == c.R
  {
    hide *;
    var a := MoveSPrime(c);
    MoveSPrimeCellsR(c);
    MoveSPrimeCellsU(c);
    MoveSCellsR(a);
    ValidFaces(c);
    ValidFaces(a);
    ValidFaces(MoveS(a));
    forall x, y | 0 <= x < c.n && 0 <= y < c.n
      ensures MoveS(a).R[x][y] == c.R[x][y]
    {
      if y == Mid(c.n) {
        assert MoveS(a).R[x][y] == a.U[y][x];
      }
    }
    GridEq(MoveS(a).R, c.R, c.n);
  }

  /** S' undoes S, and S undoes S'. */
  lemma MoveSInverse(c: Cube)
    requires Valid(c)
    ensures MoveSPrime(MoveS(c)) == c
    ensures MoveS(MoveSPrime(c)) == c
  {
    SUndoFaceU(c);
    SUndoFaceL(c);
    SUndoFaceD(c);
    SUndoFaceR(c);
    SRedoFaceU(c);
    SRedoFaceL(c);
    SRedoFaceD(c);
    SRedoFaceR(c);
  }

  /** Four S turns restore face U. */
  lemma SFourFaceU(c: Cube)
    requires Valid(c)
    ensures MoveS(MoveS(MoveS(MoveS(c)))).U == c.U
  {
    hide *;
    var a1 := MoveS(c);
    var a2 := MoveS(a1);
    var a3 := MoveS(a2);
    MoveSCellsU(a3);
    MoveSCellsL(a2);
    MoveSCellsU(a2);
    MoveSCellsD(a1);
    MoveSCellsU(a1);
    MoveSCellsR(c);
    MoveSCellsU(c);
    ValidFaces(c);
    ValidFaces(a1);
    ValidFaces(a2);
    ValidFaces(a3);
    ValidFaces(MoveS(a3));
    forall x, y | 0 <= x < c.n && 0 <= y < c.n
      ensures MoveS(a3).U[x][y] == c.U[x][y]
    {
      if x == Mid(c.n) {
        assert MoveS(a3).U[x][y] == a3.L[c.n - 1 - y][x];
        assert a3.L[c.n - 1 - y][x] == a2.D[x][c.n - 1 - y];
        assert a2.D[x][c.n - 1 - y] == a1.R[y][x];
      }
    }
    GridEq(MoveS(a3).U, c.U, c.n);
  }

  /** Four S turns restore face L. */
  lemma SFourFaceL(c: Cube)
    requires Valid(c)
    ensures MoveS(MoveS(MoveS(MoveS(c)))).L == c.L
  {
    hide *;
    var a1 := MoveS(c);
    var a2 := MoveS(a1);
    var a3 := MoveS(a2);
    MoveSCellsL(a3);
    MoveSCellsD(a2);
    MoveSCellsL(a2);
    MoveSCellsR(a1);
    MoveSCellsL(a1);
    MoveSCellsU(c);
    MoveSCellsL(c);
    ValidFaces(c);
    ValidFaces(a1);
    ValidFaces(a2);
    ValidFaces(a3);
    ValidFaces(MoveS(a3));
    forall x, y | 0 <= x < c.n && 0 <= y < c.n
      ensures MoveS(a3).L[x][y] == c.L[x][y]
    {
      if y == Mid(c.n) {
        assert MoveS(a3).L[x][y] == a3.D[y][x];
        assert a3.D[y][x] == a2.R[c.n - 1 - x][y];
        assert a2.R[c.n - 1 - x][y] == a1.U[y][c.n - 1 - x];
      }
    }
    GridEq(MoveS(a3).L, c.L, c.n);
  }

  /** Four S turns restore face D. */
  lemma SFourFaceD(c: Cube)
    requires Valid(c)
    ensures MoveS(MoveS(MoveS(MoveS(c)))).D == c.D
  {
    hide *;
    var a1 := MoveS(c);
    var a2 := MoveS(a1);
    var a3 := MoveS(a2);
    MoveSCellsD(a3);
    MoveSCellsR(a2);
    MoveSCellsD(a2);
    MoveSCellsU(a1);
    MoveSCellsD(a1);
    MoveSCellsL(c);
    MoveSCellsD(c);
    ValidFaces(c);
    ValidFaces(a1);
    ValidFaces(a2);
    ValidFaces(a3);
    ValidFaces(MoveS(a3));
    forall x, y | 0 <= x < c.n && 0 <= y < c.n
      ensures MoveS(a3).D[x][y] == c.D[x][y]
    {
      if x == Mid(c.n) {
        assert MoveS(a3).D[x][y] == a3.R[c.n - 1 - y][x];
        assert a3.R[c.n - 1 - y][x] == a2.U[x][c.n - 1 - y];
        assert a2.U[x][c.n - 1 - y] == a1.L[y][x];
      }
    }
    GridEq(MoveS(a3).D, c.D, c.n);
  }

  /** Four S turns restore face R. */
  lemma SFourFaceR(c: Cube)
    requires Valid(c)
    ensures MoveS(MoveS(MoveS(MoveS(c)))).R == c.R
  {
    hide *;
    var a1 := MoveS(c);
    var a2 := MoveS(a1);
    var a3 := MoveS(a2);
    MoveSCellsR(a3);
    MoveSCellsU(a2);
    MoveSCellsR(a2);
    MoveSCellsL(a1);
    MoveSCellsR(a1);
    MoveSCellsD(c);
    MoveSCellsR(c);
    ValidFaces(c);
    ValidFaces(a1);
    ValidFaces(a2);
    ValidFaces(a3);
    ValidFaces(MoveS(a3));
    forall x, y | 0 <= x < c.n && 0 <= y < c.n
      ensures MoveS(a3).R[x][y] == c.R[x][y]
    {
      if y == Mid(c.n) {
        assert MoveS(a3).R[x][y] == a3.U[y][x];
        assert a3.U[y][x] == a2.L[c.n - 1 - x][y];
        assert a2.L[c.n - 1 - x][y] == a1.D[y][c.n - 1 - x];
      }
    }
    GridEq(MoveS(a3).R, c.R, c.n);
  }

  /** Four S turns, or four S' turns, give the cube back. */
  lemma MoveSOrderFour(c: Cube)
    requires Valid(c)
    ensures MoveS(MoveS(MoveS(MoveS(c)))) == c
    ensures MoveSPrime(MoveSPrime(MoveSPrime(MoveSPrime(c)))) == c
  {
    SFourFaceU(c);
    SFourFaceL(c);
    SFourFaceD(c);
    SFourFaceR(c);
    var a1 := MoveS(c);
    var a2 := MoveS(a1);
    var a3 := MoveS(a2);
    MoveSInverse(a3);
    MoveSInverse(a2);
    MoveSInverse(a1);
    MoveSInverse(c);
  }
}
