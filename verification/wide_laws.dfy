/**
  The wide-turn laws, for every layer count up to n: each primed wide turn
  undoes its wide turn and the other way round, and four wide turns of
  the same kind give the cube back. The proofs compare the closed forms
  face by face.
*/
module WideLaws {
  import opened Grids
  import opened Cubes
  import opened WideMoves
  import opened WideClosedForms

  /** Uw' after Uw restores face F. */
  lemma UwUndoFaceF(c: Cube, k: int)
    requires Valid(c) && 0 < k <= c.n
    ensures MoveUwPrime(MoveUw(c, k), k).F == c.F
  {
    hide *;
    var a := MoveUw(c, k);
    ValidFaces(c);
    ValidFaces(MoveUwPrime(a, k));
    MoveUwCellsF(c, k);
    MoveUwCellsL(c, k);
    MoveUwPrimeCellsF(a, k);
    ValidFaces(a);
    forall x, y | 0 <= x < c.n && 0 <= y < c.n
      ensures MoveUwPrime(a, k).F[x][y] == c.F[x][y]
    {
      if 0 <= x < k {
        assert MoveUwPrime(a, k).F[x][y] == a.L[x][y];
      }
    }
    GridEq(MoveUwPrime(a, k).F, c.F, c.n);
  }

  /** Uw after Uw' restores face F. */
  lemma UwRedoFaceF(c: Cube, k: int)
    requires Valid(c) && 0 < k <= c.n
    ensures MoveUw(MoveUwPrime(c, k), k).F == c.F
  {
    hide *;
    var a := MoveUwPrime(c, k);
    ValidFaces(c);
    ValidFaces(MoveUw(a, k));
    MoveUwPrimeCellsF(c, k);
    MoveUwPrimeCellsR(c, k);
    MoveUwCellsF(a, k);
    ValidFaces(a);
    forall x, y | 0 <= x < c.n && 0 <= y < c.n
      ensures MoveUw(a, k).F[x][y] == c.F[x][y]
    {
      if 0 <= x < k {
        assert MoveUw(a, k).F[x][y] == a.R[x][y];
      }
    }
    GridEq(MoveUw(a, k).F, c.F, c.n);
  }

  /** Uw' after Uw restores face R. */
  lemma UwUndoFaceR(c: Cube, k: int)
    requires Valid(c) && 0 < k <= c.n
    ensures MoveUwPrime(MoveUw(c, k), k).R == c.R
  {
    hide *;
    var a := MoveUw(c, k);
    ValidFaces(c);
    ValidFaces(MoveUwPrime(a, k));
    MoveUwCellsR(c, k);
    MoveUwCellsF(c, k);
    MoveUwPrimeCellsR(a, k);
    ValidFaces(a);
    forall x, y | 0 <= x < c.n && 0 <= y < c.n
      ensures MoveUwPrime(a, k).R[x][y] == c.R[x][y]
    {
      if 0 <= x < k {
        assert MoveUwPrime(a, k).R[x][y] == a.F[x][y];
      }
    }
    GridEq(MoveUwPrime(a, k).R, c.R, c.n);
  }

  /** Uw after Uw' restores face R. */
  lemma UwRedoFaceR(c: Cube, k: int)
    requires Valid(c) && 0 < k <= c.n
    ensures MoveUw(MoveUwPrime(c, k), k).R == c.R
  {
    hide *;
    var a := MoveUwPrime(c, k);
    ValidFaces(c);
    ValidFaces(MoveUw(a, k));
    MoveUwPrimeCellsR(c, k);
    MoveUwPrimeCellsB(c, k);
    MoveUwCellsR(a, k);
    ValidFaces(a);
    forall x, y | 0 <= x < c.n && 0 <= y < c.n
      ensures MoveUw(a, k).R[x][y] == c.R[x][y]
    {
      if 0 <= x < k {
        assert MoveUw(a, k).R[x][y] == a.B[x][y];
      }
    }
    GridEq(MoveUw(a, k).R, c.R, c.n);
  }

  /** Uw' after Uw restores face B. */
  lemma UwUndoFaceB(c: Cube, k: int)
    requires Valid(c) && 0 < k <= c.n
    ensures MoveUwPrime(MoveUw(c, k), k).B == c.B
  {
    hide *;
    var a := MoveUw(c, k);
    ValidFaces(c);
    ValidFaces(MoveUwPrime(a, k));
    MoveUwCellsB(c, k);
    MoveUwCellsR(c, k);
    MoveUwPrimeCellsB(a, k);
    ValidFaces(a);
    forall x, y | 0 <= x < c.n && 0 <= y < c.n
      ensures MoveUwPrime(a, k).B[x][y] == c.B[x][y]
    {
      if 0 <= x < k {
        assert MoveUwPrime(a, k).B[x][y] == a.R[x][y];
      }
    }
    GridEq(MoveUwPrime(a, k).B, c.B, c.n);
  }

  /** Uw after Uw' restores face B. */
  lemma UwRedoFaceB(c: Cube, k: int)
    requires Valid(c) && 0 < k <= c.n
    ensures MoveUw(MoveUwPrime(c, k), k).B == c.B
  {
    hide *;
    var a := MoveUwPrime(c, k);
    ValidFaces(c);
    ValidFaces(MoveUw(a, k));
    MoveUwPrimeCellsB(c, k);
    MoveUwPrimeCellsL(c, k);
    MoveUwCellsB(a, k);
    ValidFaces(a);
    forall x, y | 0 <= x < c.n && 0 <= y < c.n
      ensures MoveUw(a, k).B[x][y] == c.B[x][y]
    {
      if 0 <= x < k {
        assert MoveUw(a, k).B[x][y] == a.L[x][y];
      }
    }
    GridEq(MoveUw(a, k).B, c.B, c.n);
  }

  /** Uw' after Uw restores face L. */
  lemma UwUndoFaceL(c: Cube, k: int)
    requires Valid(c) && 0 < k <= c.n
    ensures MoveUwPrime(MoveUw(c, k), k).L == c.L
  {
    hide *;
    var a := MoveUw(c, k);
    ValidFaces(c);
    ValidFaces(MoveUwPrime(a, k));
    MoveUwCellsL(c, k);
    MoveUwCellsB(c, k);
    MoveUwPrimeCellsL(a, k);
    ValidFaces(a);
    forall x, y | 0 <= x < c.n && 0 <= y < c.n
      ensures MoveUwPrime(a, k).L[x][y] == c.L[x][y]
    {
      if 0 <= x < k {
        assert MoveUwPrime(a, k).L[x][y] == a.B[x][y];
      }
    }
    GridEq(MoveUwPrime(a, k).L, c.L, c.n);
  }

  /** Uw after Uw' restores face L. */
  lemma UwRedoFaceL(c: Cube, k: int)
    requires Valid(c) && 0 < k <= c.n
    ensures MoveUw(MoveUwPrime(c, k), k).L == c.L
  {
    hide *;
    var a := MoveUwPrime(c, k);
    ValidFaces(c);
    ValidFaces(MoveUw(a, k));
    MoveUwPrimeCellsL(c, k);
    MoveUwPrimeCellsF(c, k);
    MoveUwCellsL(a, k);
    ValidFaces(a);
    forall x, y | 0 <= x < c.n && 0 <= y < c.n
      ensures MoveUw(a, k).L[x][y] == c.L[x][y]
    {
      if 0 <= x < k {
        assert MoveUw(a, k).L[x][y] == a.F[x][y];
      }
    }
    GridEq(MoveUw(a, k).L, c.L, c.n);
  }

  /** For every layer count up to n, Uw' undoes Uw. */
  lemma MoveUwInverse(c: Cube, layers: int)
    requires Valid(c) && layers <= c.n
    ensures MoveUwPrime(MoveUw(c, layers), layers) == c
  {
    hide *;
    if layers <= 0 {
      MoveUwNoOp(c, layers);
    } else {
      ValidFaces(c);
      MoveUwFaces(c, layers);
      MoveUwPrimeFaces(MoveUw(c, layers), layers);
      RotateRoundTrip(c.U);
      UwUndoFaceF(c, layers);
      UwUndoFaceR(c, layers);
      UwUndoFaceB(c, layers);
      UwUndoFaceL(c, layers);
    }
  }

  /** For every layer count up to n, Uw undoes Uw'. */
  lemma MoveUwPrimeInverse(c: Cube, layers: int)
    requires Valid(c) && layers <= c.n
    ensures MoveUw(MoveUwPrime(c, layers), layers) == c
  {
    hide *;
    if layers <= 0 {
      MoveUwNoOp(c, layers);
    } else {
      ValidFaces(c);
      MoveUwPrimeFaces(c, layers);
      MoveUwFaces(MoveUwPrime(c, layers), layers);
      RotateRoundTrip(c.U);
      UwRedoFaceF(c, layers);
      UwRedoFaceR(c, layers);
      UwRedoFaceB(c, layers);
      UwRedoFaceL(c, layers);
    }
  }

  /** Four Uw turns restore face F. */
  lemma UwFourFaceF(c: Cube, k: int)
    requires Valid(c) && 0 < k <= c.n
    ensures MoveUw(MoveUw(MoveUw(MoveUw(c, k), k), k), k).F == c.F
  {
    hide *;
    var a1 := MoveUw(c, k);
    var a2 := MoveUw(a1, k);
    var a3 := MoveUw(a2, k);
    ValidFaces(c);
    ValidFaces(MoveUw(a3, k));
    MoveUwCellsF(a3, k);
    MoveUwCellsR(a2, k);
    MoveUwCellsF(a2, k);
    MoveUwCellsB(a1, k);
    MoveUwCellsF(a1, k);
    MoveUwCellsL(c, k);
    MoveUwCellsF(c, k);
    ValidFaces(a1);
    ValidFaces(a2);
    ValidFaces(a3);
    forall x, y | 0 <= x < c.n && 0 <= y < c.n
      ensures MoveUw(a3, k).F[x][y] == c.F[x][y]
    {
      if 0 <= x < k {
        assert MoveUw(a3, k).F[x][y] == a3.R[x][y];
        assert a3.R[x][y] == a2.B[x][y];
        assert a2.B[x][y] == a1.L[x][y];
      }
    }
    GridEq(MoveUw(a3, k).F, c.F, c.n);
  }

  /** Four Uw turns restore face R. */
  lemma UwFourFaceR(c: Cube, k: int)
    requires Valid(c) && 0 < k <= c.n
    ensures MoveUw(MoveUw(MoveUw(MoveUw(c, k), k), k), k).R == c.R
  {
    hide *;
    var a1 := MoveUw(c, k);
    var a2 := MoveUw(a1, k);
    var a3 := MoveUw(a2, k);
    ValidFaces(c);
    ValidFaces(MoveUw(a3, k));
    MoveUwCellsR(a3, k);
    MoveUwCellsB(a2, k);
    MoveUwCellsR(a2, k);
    MoveUwCellsL(a1, k);
    MoveUwCellsR(a1, k);
    MoveUwCellsF(c, k);
    MoveUwCellsR(c, k);
    ValidFaces(a1);
    ValidFaces(a2);
    ValidFaces(a3);
    forall x, y | 0 <= x < c.n && 0 <= y < c.n
      ensures MoveUw(a3, k).R[x][y] == c.R[x][y]
    {
      if 0 <= x < k {
        assert MoveUw(a3, k).R[x][y] == a3.B[x][y];
        assert a3.B[x][y] == a2.L[x][y];
        assert a2.L[x][y] == a1.F[x][y];
      }
    }
    GridEq(MoveUw(a3, k).R, c.R, c.n);
  }

  /** Four Uw turns restore face B. */
  lemma UwFourFaceB(c: Cube, k: int)
    requires Valid(c) && 0 < k <= c.n
    ensures MoveUw(MoveUw(MoveUw(MoveUw(c, k), k), k), k).B == c.B
  {
    hide *;
    var a1 := MoveUw(c, k);
    var a2 := MoveUw(a1, k);
    var a3 := MoveUw(a2, k);
    ValidFaces(c);
    ValidFaces(MoveUw(a3, k));
    MoveUwCellsB(a3, k);
    MoveUwCellsL(a2, k);
    MoveUwCellsB(a2, k);
    MoveUwCellsF(a1, k);
    MoveUwCellsB(a1, k);
    MoveUwCellsR(c, k);
    MoveUwCellsB(c, k);
    ValidFaces(a1);
    ValidFaces(a2);
    ValidFaces(a3);
    forall x, y | 0 <= x < c.n && 0 <= y < c.n
      ensures MoveUw(a3, k).B[x][y] == c.B[x][y]
    {
      if 0 <= x < k {
        assert MoveUw(a3, k).B[x][y] == a3.L[x][y];
        assert a3.L[x][y] == a2.F[x][y];
        assert a2.F[x][y] == a1.R[x][y];
      }
    }
    GridEq(MoveUw(a3, k).B, c.B, c.n);
  }

  /** Four Uw turns restore face L. */
  lemma UwFourFaceL(c: Cube, k: int)
    requires Valid(c) && 0 < k <= c.n
    ensures MoveUw(MoveUw(MoveUw(MoveUw(c, k), k), k), k).L == c.L
  {
    hide *;
    var a1 := MoveUw(c, k);
    var a2 := MoveUw(a1, k);
    var a3 := MoveUw(a2, k);
    ValidFaces(c);
    ValidFaces(MoveUw(a3, k));
    MoveUwCellsL(a3, k);
    MoveUwCellsF(a2, k);
    MoveUwCellsL(a2, k);
    MoveUwCellsR(a1, k);
    MoveUwCellsL(a1, k);
    MoveUwCellsB(c, k);
    MoveUwCellsL(c, k);
    ValidFaces(a1);
    ValidFaces(a2);
    ValidFaces(a3);
    forall x, y | 0 <= x < c.n && 0 <= y < c.n
      ensures MoveUw(a3, k).L[x][y] == c.L[x][y]
    {
      if 0 <= x < k {
        assert MoveUw(a3, k).L[x][y] == a3.F[x][y];
        assert a3.F[x][y] == a2.R[x][y];
        assert a2.R[x][y] == a1.B[x][y];
      }
    }
    GridEq(MoveUw(a3, k).L, c.L, c.n);
  }

  /** For every layer count up to n, four Uw turns give the cube back. */
  lemma MoveUwOrderFour(c: Cube, layers: int)
    requires Valid(c) && layers <= c.n
    ensures MoveUw(MoveUw(MoveUw(MoveUw(c, layers), layers), layers), layers) == c
  {
    hide *;
    if layers <= 0 {
      MoveUwNoOp(c, layers);
    } else {
      var a1 := MoveUw(c, layers);
      var a2 := MoveUw(a1, layers);
      var a3 := MoveUw(a2, layers);
      ValidFaces(c);
      MoveUwFaces(c, layers);
      MoveUwFaces(a1, layers);
      MoveUwFaces(a2, layers);
      MoveUwFaces(a3, layers);
      RotateOrderFour(c.U);
      UwFourFaceF(c, layers);
      UwFourFaceR(c, layers);
      UwFourFaceB(c, layers);
      UwFourFaceL(c, layers);
    }
  }

  /** For every layer count up to n, four Uw' turns give the cube back. */
  lemma MoveUwPrimeOrderFour(c: Cube, layers: int)
    requires Valid(c) && layers <= c.n
    ensures MoveUwPrime(MoveUwPrime(MoveUwPrime(MoveUwPrime(c, layers), layers), layers), layers) == c
  {
    var a1 := MoveUw(c, layers);
    var a2 := MoveUw(a1, layers);
    var a3 := MoveUw(a2, layers);
    MoveUwOrderFour(c, layers);
    MoveUwInverse(a3, layers);
    MoveUwInverse(a2, layers);
    MoveUwInverse(a1, layers);
    MoveUwInverse(c, layers);
  }

  /** Dw' after Dw restores face F. */
  lemma DwUndoFaceF(c: Cube, k: int)
    requires Valid(c) && 0 < k <= c.n
    ensures MoveDwPrime(MoveDw(c, k), k).F == c.F
  {
    hide *;
    var a := MoveDw(c, k);
    ValidFaces(c);
    ValidFaces(MoveDwPrime(a, k));
    MoveDwCellsF(c, k);
    MoveDwCellsR(c, k);
    MoveDwPrimeCellsF(a, k);
    ValidFaces(a);
    forall x, y | 0 <= x < c.n && 0 <= y < c.n
      ensures MoveDwPrime(a, k).F[x][y] == c.F[x][y]
    {
      if c.n - k <= x < c.n {
        assert MoveDwPrime(a, k).F[x][y] == a.R[x][y];
      }
    }
    GridEq(MoveDwPrime(a, k).F, c.F, c.n);
  }

  /** Dw after Dw' restores face F. */
  lemma DwRedoFaceF(c: Cube, k: int)
    requires Valid(c) && 0 < k <= c.n
    ensures MoveDw(MoveDwPrime(c, k), k).F == c.F
  {
    hide *;
    var a := MoveDwPrime(c, k);
    ValidFaces(c);
    ValidFaces(MoveDw(a, k));
    MoveDwPrimeCellsF(c, k);
    MoveDwPrimeCellsL(c, k);
    MoveDwCellsF(a, k);
    ValidFaces(a);
    forall x, y | 0 <= x < c.n && 0 <= y < c.n
      ensures MoveDw(a, k).F[x][y] == c.F[x][y]
    {
      if c.n - k <= x < c.n {
        assert MoveDw(a, k).F[x][y] == a.L[x][y];
      }
    }
    GridEq(MoveDw(a, k).F, c.F, c.n);
  }

  /** Dw' after Dw restores face L. */
  lemma DwUndoFaceL(c: Cube, k: int)
    requires Valid(c) && 0 < k <= c.n
    ensures MoveDwPrime(MoveDw(c, k), k).L == c.L
  {
    hide *;
    var a := MoveDw(c, k);
    ValidFaces(c);
    ValidFaces(MoveDwPrime(a, k));
    MoveDwCellsL(c, k);
    MoveDwCellsF(c, k);
    MoveDwPrimeCellsL(a, k);
    ValidFaces(a);
    forall x, y | 0 <= x < c.n && 0 <= y < c.n
      ensures MoveDwPrime(a, k).L[x][y] == c.L[x][y]
    {
      if c.n - k <= x < c.n {
        assert MoveDwPrime(a, k).L[x][y] == a.F[x][y];
      }
    }
    GridEq(MoveDwPrime(a, k).L, c.L, c.n);
  }

  /** Dw after Dw' restores face L. */
  lemma DwRedoFaceL(c: Cube, k: int)
    requires Valid(c) && 0 < k <= c.n
    ensures MoveDw(MoveDwPrime(c, k), k).L == c.L
  {
    hide *;
    var a := MoveDwPrime(c, k);
    ValidFaces(c);
    ValidFaces(MoveDw(a, k));
    MoveDwPrimeCellsL(c, k);
    MoveDwPrimeCellsB(c, k);
    MoveDwCellsL(a, k);
    ValidFaces(a);
    forall x, y | 0 <= x < c.n && 0 <= y < c.n
      ensures MoveDw(a, k).L[x][y] == c.L[x][y]
    {
      if c.n - k <= x < c.n {
        assert MoveDw(a, k).L[x][y] == a.B[x][y];
      }
    }
    GridEq(MoveDw(a, k).L, c.L, c.n);
  }

  /** Dw' after Dw restores face B. */
  lemma DwUndoFaceB(c: Cube, k: int)
    requires Valid(c) && 0 < k <= c.n
    ensures MoveDwPrime(MoveDw(c, k), k).B == c.B
  {
    hide *;
    var a := MoveDw(c, k);
    ValidFaces(c);
    ValidFaces(MoveDwPrime(a, k));
    MoveDwCellsB(c, k);
    MoveDwCellsL(c, k);
    MoveDwPrimeCellsB(a, k);
    ValidFaces(a);
    forall x, y | 0 <= x < c.n && 0 <= y < c.n
      ensures MoveDwPrime(a, k).B[x][y] == c.B[x][y]
    {
      if c.n - k <= x < c.n {
        assert MoveDwPrime(a, k).B[x][y] == a.L[x][y];
      }
    }
    GridEq(MoveDwPrime(a, k).B, c.B, c.n);
  }

  /** Dw after Dw' restores face B. */
  lemma DwRedoFaceB(c: Cube, k: int)
    requires Valid(c) && 0 < k <= c.n
    ensures MoveDw(MoveDwPrime(c, k), k).B == c.B
  {
    hide *;
    var a := MoveDwPrime(c, k);
    ValidFaces(c);
    ValidFaces(MoveDw(a, k));
    MoveDwPrimeCellsB(c, k);
    MoveDwPrimeCellsR(c, k);
    MoveDwCellsB(a, k);
    ValidFaces(a);
    forall x, y | 0 <= x < c.n && 0 <= y < c.n
      ensures MoveDw(a, k).B[x][y] == c.B[x][y]
    {
      if c.n - k <= x < c.n {
        assert MoveDw(a, k).B[x][y] == a.R[x][y];
      }
    }
    GridEq(MoveDw(a, k).B, c.B, c.n);
  }

  /** Dw' after Dw restores face R. */
  lemma DwUndoFaceR(c: Cube, k: int)
    requires Valid(c) && 0 < k <= c.n
    ensures MoveDwPrime(MoveDw(c, k), k).R == c.R
  {
    hide *;
    var a := MoveDw(c, k);
    ValidFaces(c);
    ValidFaces(MoveDwPrime(a, k));
    MoveDwCellsR(c, k);
    MoveDwCellsB(c, k);
    MoveDwPrimeCellsR(a, k);
    ValidFaces(a);
    forall x, y | 0 <= x < c.n && 0 <= y < c.n
      ensures MoveDwPrime(a, k).R[x][y] == c.R[x][y]
    {
      if c.n - k <= x < c.n {
        assert MoveDwPrime(a, k).R[x][y] == a.B[x][y];
      }
    }
    GridEq(MoveDwPrime(a, k).R, c.R, c.n);
  }

  /** Dw after Dw' restores face R. */
  lemma DwRedoFaceR(c: Cube, k: int)
    requires Valid(c) && 0 < k <= c.n
    ensures MoveDw(MoveDwPrime(c, k), k).R == c.R
  {
    hide *;
    var a := MoveDwPrime(c, k);
    ValidFaces(c);
    ValidFaces(MoveDw(a, k));
    MoveDwPrimeCellsR(c, k);
    MoveDwPrimeCellsF(c, k);
    MoveDwCellsR(a, k);
    ValidFaces(a);
    forall x, y | 0 <= x < c.n && 0 <= y < c.n
      ensures MoveDw(a, k).R[x][y] == c.R[x][y]
    {
      if c.n - k <= x < c.n {
        assert MoveDw(a, k).R[x][y] == a.F[x][y];
      }
    }
    GridEq(MoveDw(a, k).R, c.R, c.n);
  }

  /** For every layer count up to n, Dw' undoes Dw. */
  lemma MoveDwInverse(c: Cube, layers: int)
    requires Valid(c) && layers <= c.n
    ensures MoveDwPrime(MoveDw(c, layers), layers) == c
  {
    hide *;
    if layers <= 0 {
      MoveDwNoOp(c, layers);
    } else {
      ValidFaces(c);
      MoveDwFaces(c, layers);
      MoveDwPrimeFaces(MoveDw(c, layers), layers);
      RotateRoundTrip(c.D);
      DwUndoFaceF(c, layers);
      DwUndoFaceL(c, layers);
      DwUndoFaceB(c, layers);
      DwUndoFaceR(c, layers);
    }
  }

  /** For every layer count up to n, Dw undoes Dw'. */
  lemma MoveDwPrimeInverse(c: Cube, layers: int)
    requires Valid(c) && layers <= c.n
    ensures MoveDw(MoveDwPrime(c, layers), layers) == c
  {
    hide *;
    if layers <= 0 {
      MoveDwNoOp(c, layers);
    } else {
      ValidFaces(c);
      MoveDwPrimeFaces(c, layers);
      MoveDwFaces(MoveDwPrime(c, layers), layers);
      RotateRoundTrip(c.D);
      DwRedoFaceF(c, layers);
      DwRedoFaceL(c, layers);
      DwRedoFaceB(c, layers);
      DwRedoFaceR(c, layers);
    }
  }

  /** Four Dw turns restore face F. */
  lemma DwFourFaceF(c: Cube, k: int)
    requires Valid(c) && 0 < k <= c.n
    ensures MoveDw(MoveDw(MoveDw(MoveDw(c, k), k), k), k).F == c.F
  {
    hide *;
    var a1 := MoveDw(c, k);
    var a2 := MoveDw(a1, k);
    var a3 := MoveDw(a2, k);
    ValidFaces(c);
    ValidFaces(MoveDw(a3, k));
    MoveDwCellsF(a3, k);
    MoveDwCellsL(a2, k);
    MoveDwCellsF(a2, k);
    MoveDwCellsB(a1, k);
    MoveDwCellsF(a1, k);
    MoveDwCellsR(c, k);
    MoveDwCellsF(c, k);
    ValidFaces(a1);
    ValidFaces(a2);
    ValidFaces(a3);
    forall x, y | 0 <= x < c.n && 0 <= y < c.n
      ensures MoveDw(a3, k).F[x][y] == c.F[x][y]
    {
      if c.n - k <= x < c.n {
        assert MoveDw(a3, k).F[x][y] == a3.L[x][y];
        assert a3.L[x][y] == a2.B[x][y];
        assert a2.B[x][y] == a1.R[x][y];
      }
    }
    GridEq(MoveDw(a3, k).F, c.F, c.n);
  }

  /** Four Dw turns restore face L. */
  lemma DwFourFaceL(c: Cube, k: int)
    requires Valid(c) && 0 < k <= c.n
    ensures MoveDw(MoveDw(MoveDw(MoveDw(c, k), k), k), k).L == c.L
  {
    hide *;
    var a1 := MoveDw(c, k);
    var a2 := MoveDw(a1, k);
    var a3 := MoveDw(a2, k);
    ValidFaces(c);
    ValidFaces(MoveDw(a3, k));
    MoveDwCellsL(a3, k);
    MoveDwCellsB(a2, k);
    MoveDwCellsL(a2, k);
    MoveDwCellsR(a1, k);
    MoveDwCellsL(a1, k);
    MoveDwCellsF(c, k);
    MoveDwCellsL(c, k);
    ValidFaces(a1);
    ValidFaces(a2);
    ValidFaces(a3);
    forall x, y | 0 <= x < c.n && 0 <= y < c.n
      ensures MoveDw(a3, k).L[x][y] == c.L[x][y]
    {
      if c.n - k <= x < c.n {
        assert MoveDw(a3, k).L[x][y] == a3.B[x][y];
        assert a3.B[x][y] == a2.R[x][y];
        assert a2.R[x][y] == a1.F[x][y];
      }
    }
    GridEq(MoveDw(a3, k).L, c.L, c.n);
  }

  /** Four Dw turns restore face B. */
  lemma DwFourFaceB(c: Cube, k: int)
    requires Valid(c) && 0 < k <= c.n
    ensures MoveDw(MoveDw(MoveDw(MoveDw(c, k), k), k), k).B == c.B
  {
    hide *;
    var a1 := MoveDw(c, k);
    var a2 := MoveDw(a1, k);
    var a3 := MoveDw(a2, k);
    ValidFaces(c);
    ValidFaces(MoveDw(a3, k));
    MoveDwCellsB(a3, k);
    MoveDwCellsR(a2, k);
    MoveDwCellsB(a2, k);
    MoveDwCellsF(a1, k);
    MoveDwCellsB(a1, k);
    MoveDwCellsL(c, k);
    MoveDwCellsB(c, k);
    ValidFaces(a1);
    ValidFaces(a2);
    ValidFaces(a3);
    forall x, y | 0 <= x < c.n && 0 <= y < c.n
      ensures MoveDw(a3, k).B[x][y] == c.B[x][y]
    {
      if c.n - k <= x < c.n {
        assert MoveDw(a3, k).B[x][y] == a3.R[x][y];
        assert a3.R[x][y] == a2.F[x][y];
        assert a2.F[x][y] == a1.L[x][y];
      }
    }
    GridEq(MoveDw(a3, k).B, c.B, c.n);
  }

  /** Four Dw turns restore face R. */
  lemma DwFourFaceR(c: Cube, k: int)
    requires Valid(c) && 0 < k <= c.n
    ensures MoveDw(MoveDw(MoveDw(MoveDw(c, k), k), k), k).R == c.R
  {
    hide *;
    var a1 := MoveDw(c, k);
    var a2 := MoveDw(a1, k);
    var a3 := MoveDw(a2, k);
    ValidFaces(c);
    ValidFaces(MoveDw(a3, k));
    MoveDwCellsR(a3, k);
    MoveDwCellsF(a2, k);
    MoveDwCellsR(a2, k);
    MoveDwCellsL(a1, k);
    MoveDwCellsR(a1, k);
    MoveDwCellsB(c, k);
    MoveDwCellsR(c, k);
    ValidFaces(a1);
    ValidFaces(a2);
    ValidFaces(a3);
    forall x, y | 0 <= x < c.n && 0 <= y < c.n
      ensures MoveDw(a3, k).R[x][y] == c.R[x][y]
    {
      if c.n - k <= x < c.n {
        assert MoveDw(a3, k).R[x][y] == a3.F[x][y];
        assert a3.F[x][y] == a2.L[x][y];
        assert a2.L[x][y] == a1.B[x][y];
      }
    }
    GridEq(MoveDw(a3, k).R, c.R, c.n);
  }

  /** For every layer count up to n, four Dw turns give the cube back. */
  lemma MoveDwOrderFour(c: Cube, layers: int)
    requires Valid(c) && layers <= c.n
    ensures MoveDw(MoveDw(MoveDw(MoveDw(c, layers), layers), layers), layers) == c
  {
    hide *;
    if layers <= 0 {
      MoveDwNoOp(c, layers);
    } else {
      var a1 := MoveDw(c, layers);
      var a2 := MoveDw(a1, layers);
      var a3 := MoveDw(a2, layers);
      ValidFaces(c);
      MoveDwFaces(c, layers);
      MoveDwFaces(a1, layers);
      MoveDwFaces(a2, layers);
      MoveDwFaces(a3, layers);
      RotateOrderFour(c.D);
      DwFourFaceF(c, layers);
      DwFourFaceL(c, layers);
      DwFourFaceB(c, layers);
      DwFourFaceR(c, layers);
    }
  }

  /** For every layer count up to n, four Dw' turns give the cube back. */
  lemma MoveDwPrimeOrderFour(c: Cube, layers: int)
    requires Valid(c) && layers <= c.n
    ensures MoveDwPrime(MoveDwPrime(MoveDwPrime(MoveDwPrime(c, layers), layers), layers), layers) == c
  {
    var a1 := MoveDw(c, layers);
    var a2 := MoveDw(a1, layers);
    var a3 := MoveDw(a2, layers);
    MoveDwOrderFour(c, layers);
    MoveDwInverse(a3, layers);
    MoveDwInverse(a2, layers);
    MoveDwInverse(a1, layers);
    MoveDwInverse(c, layers);
  }

  /** Lw' after Lw restores face U. */
  lemma LwUndoFaceU(c: Cube, k: int)
    requires Valid(c) && 0 < k <= c.n
    ensures MoveLwPrime(MoveLw(c, k), k).U == c.U
  {
    hide *;
    var a := MoveLw(c, k);
    ValidFaces(c);
    ValidFaces(MoveLwPrime(a, k));
    MoveLwCellsU(c, k);
    MoveLwCellsF(c, k);
    MoveLwPrimeCellsU(a, k);
    ValidFaces(a);
    forall x, y | 0 <= x < c.n && 0 <= y < c.n
      ensures MoveLwPrime(a, k).U[x][y] == c.U[x][y]
    {
      if 0 <= y < k {
        assert MoveLwPrime(a, k).U[x][y] == a.F[x][y];
      }
    }
    GridEq(MoveLwPrime(a, k).U, c.U, c.n);
  }

  /** Lw after Lw' restores face U. */
  lemma LwRedoFaceU(c: Cube, k: int)
    requires Valid(c) && 0 < k <= c.n
    ensures MoveLw(MoveLwPrime(c, k), k).U == c.U
  {
    hide *;
    var a := MoveLwPrime(c, k);
    ValidFaces(c);
    ValidFaces(MoveLw(a, k));
    MoveLwPrimeCellsU(c, k);
    MoveLwPrimeCellsB(c, k);
    MoveLwCellsU(a, k);
    ValidFaces(a);
    forall x, y | 0 <= x < c.n && 0 <= y < c.n
      ensures MoveLw(a, k).U[x][y] == c.U[x][y]
    {
      if 0 <= y < k {
        assert MoveLw(a, k).U[x][y] == a.B[c.n - 1 - x][c.n - 1 - y];
      }
    }
    GridEq(MoveLw(a, k).U, c.U, c.n);
  }

  /** Lw' after Lw restores face B. */
  lemma LwUndoFaceB(c: Cube, k: int)
    requires Valid(c) && 0 < k <= c.n
    ensures MoveLwPrime(MoveLw(c, k), k).B == c.B
  {
    hide *;
    var a := MoveLw(c, k);
    ValidFaces(c);
    ValidFaces(MoveLwPrime(a, k));
    MoveLwCellsB(c, k);
    MoveLwCellsU(c, k);
    MoveLwPrimeCellsB(a, k);
    ValidFaces(a);
    forall x, y | 0 <= x < c.n && 0 <= y < c.n
      ensures MoveLwPrime(a, k).B[x][y] == c.B[x][y]
    {
      if c.n - k <= y < c.n {
        assert MoveLwPrime(a, k).B[x][y] == a.U[c.n - 1 - x][c.n - 1 - y];
      }
    }
    GridEq(MoveLwPrime(a, k).B, c.B, c.n);
  }

  /** Lw after Lw' restores face B. */
  lemma LwRedoFaceB(c: Cube, k: int)
    requires Valid(c) && 0 < k <= c.n
    ensures MoveLw(MoveLwPrime(c, k), k).B == c.B
  {
    hide *;
    var a := MoveLwPrime(c, k);
    ValidFaces(c);
    ValidFaces(MoveLw(a, k));
    MoveLwPrimeCellsB(c, k);
    MoveLwPrimeCellsD(c, k);
    MoveLwCellsB(a, k);
    ValidFaces(a);
    forall x, y | 0 <= x < c.n && 0 <= y < c.n
      ensures MoveLw(a, k).B[x][y] == c.B[x][y]
    {
      if c.n - k <= y < c.n {
        assert MoveLw(a, k).B[x][y] == a.D[c.n - 1 - x][c.n - 1 - y];
      }
    }
    GridEq(MoveLw(a, k).B, c.B, c.n);
  }

  /** Lw' after Lw restores face D. */
  lemma LwUndoFaceD(c: Cube, k: int)
    requires Valid(c) && 0 < k <= c.n
    ensures MoveLwPrime(MoveLw(c, k), k).D == c.D
  {
    hide *;
    var a := MoveLw(c, k);
    ValidFaces(c);
    ValidFaces(MoveLwPrime(a, k));
    MoveLwCellsD(c, k);
    MoveLwCellsB(c, k);
    MoveLwPrimeCellsD(a, k);
    ValidFaces(a);
    forall x, y | 0 <= x < c.n && 0 <= y < c.n
      ensures MoveLwPrime(a, k).D[x][y] == c.D[x][y]
    {
      if 0 <= y < k {
        assert MoveLwPrime(a, k).D[x][y] == a.B[c.n - 1 - x][c.n - 1 - y];
      }
    }
    GridEq(MoveLwPrime(a, k).D, c.D, c.n);
  }

  /** Lw after Lw' restores face D. */
  lemma LwRedoFaceD(c: Cube, k: int)
    requires Valid(c) && 0 < k <= c.n
    ensures MoveLw(MoveLwPrime(c, k), k).D == c.D
  {
    hide *;
    var a := MoveLwPrime(c, k);
    ValidFaces(c);
    ValidFaces(MoveLw(a, k));
    MoveLwPrimeCellsD(c, k);
    MoveLwPrimeCellsF(c, k);
    MoveLwCellsD(a, k);
    ValidFaces(a);
    forall x, y | 0 <= x < c.n && 0 <= y < c.n
      ensures MoveLw(a, k).D[x][y] == c.D[x][y]
    {
      if 0 <= y < k {
        assert MoveLw(a, k).D[x][y] == a.F[x][y];
      }
    }
    GridEq(MoveLw(a, k).D, c.D, c.n);
  }

  /** Lw' after Lw restores face F. */
  lemma LwUndoFaceF(c: Cube, k: int)
    requires Valid(c) && 0 < k <= c.n
    ensures MoveLwPrime(MoveLw(c, k), k).F == c.F
  {
    hide *;
    var a := MoveLw(c, k);
    ValidFaces(c);
    ValidFaces(MoveLwPrime(a, k));
    MoveLwCellsF(c, k);
    MoveLwCellsD(c, k);
    MoveLwPrimeCellsF(a, k);
    ValidFaces(a);
    forall x, y | 0 <= x < c.n && 0 <= y < c.n
      ensures MoveLwPrime(a, k).F[x][y] == c.F[x][y]
    {
      if 0 <= y < k {
        assert MoveLwPrime(a, k).F[x][y] == a.D[x][y];
      }
    }
    GridEq(MoveLwPrime(a, k).F, c.F, c.n);
  }

  /** Lw after Lw' restores face F. */
  lemma LwRedoFaceF(c: Cube, k: int)
    requires Valid(c) && 0 < k <= c.n
    ensures MoveLw(MoveLwPrime(c, k), k).F == c.F
  {
    hide *;
    var a := MoveLwPrime(c, k);
    ValidFaces(c);
    ValidFaces(MoveLw(a, k));
    MoveLwPrimeCellsF(c, k);
    MoveLwPrimeCellsU(c, k);
    MoveLwCellsF(a, k);
    ValidFaces(a);
    forall x, y | 0 <= x < c.n && 0 <= y < c.n
      ensures MoveLw(a, k).F[x][y] == c.F[x][y]
    {
      if 0 <= y < k {
        assert MoveLw(a, k).F[x][y] == a.U[x][y];
      }
    }
    GridEq(MoveLw(a, k).F, c.F, c.n);
  }

  /** For every layer count up to n, Lw' undoes Lw. */
  lemma MoveLwInverse(c: Cube, layers: int)
    requires Valid(c) && layers <= c.n
    ensures MoveLwPrime(MoveLw(c, layers), layers) == c
  {
    hide *;
    if layers <= 0 {
      MoveLwNoOp(c, layers);
    } else {
      ValidFaces(c);
      MoveLwFaces(c, layers);
      MoveLwPrimeFaces(MoveLw(c, layers), layers);
      RotateRoundTrip(c.L);
      LwUndoFaceU(c, layers);
      LwUndoFaceB(c, layers);
      LwUndoFaceD(c, layers);
      LwUndoFaceF(c, layers);
    }
  }

  /** For every layer count up to n, Lw undoes Lw'. */
  lemma MoveLwPrimeInverse(c: Cube, layers: int)
    requires Valid(c) && layers <= c.n
    ensures MoveLw(MoveLwPrime(c, layers), layers) == c
  {
    hide *;
    if layers <= 0 {
      MoveLwNoOp(c, layers);
    } else {
      ValidFaces(c);
      MoveLwPrimeFaces(c, layers);
      MoveLwFaces(MoveLwPrime(c, layers), layers);
      RotateRoundTrip(c.L);
      LwRedoFaceU(c, layers);
      LwRedoFaceB(c, layers);
      LwRedoFaceD(c, layers);
      LwRedoFaceF(c, layers);
    }
  }

  /** Four Lw turns restore face U. */
  lemma LwFourFaceU(c: Cube, k: int)
    requires Valid(c) && 0 < k <= c.n
    ensures MoveLw(MoveLw(MoveLw(MoveLw(c, k), k), k), k).U == c.U
  {
    hide *;
    var a1 := MoveLw(c, k);
    var a2 := MoveLw(a1, k);
    var a3 := MoveLw(a2, k);
    ValidFaces(c);
    ValidFaces(MoveLw(a3, k));
    MoveLwCellsU(a3, k);
    MoveLwCellsB(a2, k);
    MoveLwCellsU(a2, k);
    MoveLwCellsD(a1, k);
    MoveLwCellsU(a1, k);
    MoveLwCellsF(c, k);
    MoveLwCellsU(c, k);
    ValidFaces(a1);
    ValidFaces(a2);
    ValidFaces(a3);
    forall x, y | 0 <= x < c.n && 0 <= y < c.n
      ensures MoveLw(a3, k).U[x][y] == c.U[x][y]
    {
      if 0 <= y < k {
        assert MoveLw(a3, k).U[x][y] == a3.B[c.n - 1 - x][c.n - 1 - y];
        assert a3.B[c.n - 1 - x][c.n - 1 - y] == a2.D[x][y];
        assert a2.D[x][y] == a1.F[x][y];
      }
    }
    GridEq(MoveLw(a3, k).U, c.U, c.n);
  }

  /** Four Lw turns restore face B. */
  lemma LwFourFaceB(c: Cube, k: int)
    requires Valid(c) && 0 < k <= c.n
    ensures MoveLw(MoveLw(MoveLw(MoveLw(c, k), k), k), k).B == c.B
  {
    hide *;
    var a1 := MoveLw(c, k);
    var a2 := MoveLw(a1, k);
    var a3 := MoveLw(a2, k);
    ValidFaces(c);
    ValidFaces(MoveLw(a3, k));
    MoveLwCellsB(a3, k);
    MoveLwCellsD(a2, k);
    MoveLwCellsB(a2, k);
    MoveLwCellsF(a1, k);
    MoveLwCellsB(a1, k);
    MoveLwCellsU(c, k);
    MoveLwCellsB(c, k);
    ValidFaces(a1);
    ValidFaces(a2);
    ValidFaces(a3);
    forall x, y | 0 <= x < c.n && 0 <= y < c.n
      ensures MoveLw(a3, k).B[x][y] == c.B[x][y]
    {
      if c.n - k <= y < c.n {
        assert MoveLw(a3, k).B[x][y] == a3.D[c.n - 1 - x][c.n - 1 - y];
        assert a3.D[c.n - 1 - x][c.n - 1 - y] == a2.F[c.n - 1 - x][c.n - 1 - y];
        assert a2.F[c.n - 1 - x][c.n - 1 - y] == a1.U[c.n - 1 - x][c.n - 1 - y];
      }
    }
    GridEq(MoveLw(a3, k).B, c.B, c.n);
  }

  /** Four Lw turns restore face D. */
  lemma LwFourFaceD(c: Cube, k: int)
    requires Valid(c) && 0 < k <= c.n
    ensures MoveLw(MoveLw(MoveLw(MoveLw(c, k), k), k), k).D == c.D
  {
    hide *;
    var a1 := MoveLw(c, k);
    var a2 := MoveLw(a1, k);
    var a3 := MoveLw(a2, k);
    ValidFaces(c);
    ValidFaces(MoveLw(a3, k));
    MoveLwCellsD(a3, k);
    MoveLwCellsF(a2, k);
    MoveLwCellsD(a2, k);
    MoveLwCellsU(a1, k);
    MoveLwCellsD(a1, k);
    MoveLwCellsB(c, k);
    MoveLwCellsD(c, k);
    ValidFaces(a1);
    ValidFaces(a2);
    ValidFaces(a3);
    forall x, y | 0 <= x < c.n && 0 <= y < c.n
      ensures MoveLw(a3, k).D[x][y] == c.D[x][y]
    {
      if 0 <= y < k {
        assert MoveLw(a3, k).D[x][y] == a3.F[x][y];
        assert a3.F[x][y] == a2.U[x][y];
        assert a2.U[x][y] == a1.B[c.n - 1 - x][c.n - 1 - y];
      }
    }
    GridEq(MoveLw(a3, k).D, c.D, c.n);
  }

  /** Four Lw turns restore face F. */
  lemma LwFourFaceF(c: Cube, k: int)
    requires Valid(c) && 0 < k <= c.n
    ensures MoveLw(MoveLw(MoveLw(MoveLw(c, k), k), k), k).F == c.F
  {
    hide *;
    var a1 := MoveLw(c, k);
    var a2 := MoveLw(a1, k);
    var a3 := MoveLw(a2, k);
    ValidFaces(c);
    ValidFaces(MoveLw(a3, k));
    MoveLwCellsF(a3, k);
    MoveLwCellsU(a2, k);
    MoveLwCellsF(a2, k);
    MoveLwCellsB(a1, k);
    MoveLwCellsF(a1, k);
    MoveLwCellsD(c, k);
    MoveLwCellsF(c, k);
    ValidFaces(a1);
    ValidFaces(a2);
    ValidFaces(a3);
    forall x, y | 0 <= x < c.n && 0 <= y < c.n
      ensures MoveLw(a3, k).F[x][y] == c.F[x][y]
    {
      if 0 <= y < k {
        assert MoveLw(a3, k).F[x][y] == a3.U[x][y];
        assert a3.U[x][y] == a2.B[c.n - 1 - x][c.n - 1 - y];
        assert a2.B[c.n - 1 - x][c.n - 1 - y] == a1.D[x][y];
      }
    }
    GridEq(MoveLw(a3, k).F, c.F, c.n);
  }

  /** For every layer count up to n, four Lw turns give the cube back. */
  lemma MoveLwOrderFour(c: Cube, layers: int)
    requires Valid(c) && layers <= c.n
    ensures MoveLw(MoveLw(MoveLw(MoveLw(c, layers), layers), layers), layers) == c
  {
    hide *;
    if layers <= 0 {
      MoveLwNoOp(c, layers);
    } else {
      var a1 := MoveLw(c, layers);
      var a2 := MoveLw(a1, layers);
      var a3 := MoveLw(a2, layers);
      ValidFaces(c);
      MoveLwFaces(c, layers);
      MoveLwFaces(a1, layers);
      MoveLwFaces(a2, layers);
      MoveLwFaces(a3, layers);
      RotateOrderFour(c.L);
      LwFourFaceU(c, layers);
      LwFourFaceB(c, layers);
      LwFourFaceD(c, layers);
      LwFourFaceF(c, layers);
    }
  }

  /** For every layer count up to n, four Lw' turns give the cube back. */
  lemma MoveLwPrimeOrderFour(c: Cube, layers: int)
    requires Valid(c) && layers <= c.n
    ensures MoveLwPrime(MoveLwPrime(MoveLwPrime(MoveLwPrime(c, layers), layers), layers), layers) == c
  {
    var a1 := MoveLw(c, layers);
    var a2 := MoveLw(a1, layers);
    var a3 := MoveLw(a2, layers);
    MoveLwOrderFour(c, layers);
    MoveLwInverse(a3, layers);
    MoveLwInverse(a2, layers);
    MoveLwInverse(a1, layers);
    MoveLwInverse(c, layers);
  }

  /** Rw' after Rw restores face U. */
  lemma RwUndoFaceU(c: Cube, k: int)
    requires Valid(c) && 0 < k <= c.n
    ensures MoveRwPrime(MoveRw(c, k), k).U == c.U
  {
    hide *;
    var a := MoveRw(c, k);
    ValidFaces(c);
    ValidFaces(MoveRwPrime(a, k));
    MoveRwCellsU(c, k);
    MoveRwCellsF(c, k);
    MoveRwPrimeCellsU(a, k);
    ValidFaces(a);
    forall x, y | 0 <= x < c.n && 0 <= y < c.n
      ensures MoveRwPrime(a, k).U[x][y] == c.U[x][y]
    {
      if c.n - k <= y < c.n {
        assert MoveRwPrime(a, k).U[x][y] == a.F[x][y];
      }
    }
    GridEq(MoveRwPrime(a, k).U, c.U, c.n);
  }

  /** Rw after Rw' restores face U. */
  lemma RwRedoFaceU(c: Cube, k: int)
    requires Valid(c) && 0 < k <= c.n
    ensures MoveRw(MoveRwPrime(c, k), k).U == c.U
  {
    hide *;
    var a := MoveRwPrime(c, k);
    ValidFaces(c);
    ValidFaces(MoveRw(a, k));
    MoveRwPrimeCellsU(c, k);
    MoveRwPrimeCellsB(c, k);
    MoveRwCellsU(a, k);
    ValidFaces(a);
    forall x, y | 0 <= x < c.n && 0 <= y < c.n
      ensures MoveRw(a, k).U[x][y] == c.U[x][y]
    {
      if c.n - k <= y < c.n {
        assert MoveRw(a, k).U[x][y] == a.B[c.n - 1 - x][c.n - 1 - y];
      }
    }
    GridEq(MoveRw(a, k).U, c.U, c.n);
  }

  /** Rw' after Rw restores face B. */
  lemma RwUndoFaceB(c: Cube, k: int)
    requires Valid(c) && 0 < k <= c.n
    ensures MoveRwPrime(MoveRw(c, k), k).B == c.B
  {
    hide *;
    var a := MoveRw(c, k);
    ValidFaces(c);
    ValidFaces(MoveRwPrime(a, k));
    MoveRwCellsB(c, k);
    MoveRwCellsU(c, k);
    MoveRwPrimeCellsB(a, k);
    ValidFaces(a);
    forall x, y | 0 <= x < c.n && 0 <= y < c.n
      ensures MoveRwPrime(a, k).B[x][y] == c.B[x][y]
    {
      if 0 <= y < k {
        assert MoveRwPrime(a, k).B[x][y] == a.U[c.n - 1 - x][c.n - 1 - y];
      }
    }
    GridEq(MoveRwPrime(a, k).B, c.B, c.n);
  }

  /** Rw after Rw' restores face B. */
  lemma RwRedoFaceB(c: Cube, k: int)
    requires Valid(c) && 0 < k <= c.n
    ensures MoveRw(MoveRwPrime(c, k), k).B == c.B
  {
    hide *;
    var a := MoveRwPrime(c, k);
    ValidFaces(c);
    ValidFaces(MoveRw(a, k));
    MoveRwPrimeCellsB(c, k);
    MoveRwPrimeCellsD(c, k);
    MoveRwCellsB(a, k);
    ValidFaces(a);
    forall x, y | 0 <= x < c.n && 0 <= y < c.n
      ensures MoveRw(a, k).B[x][y] == c.B[x][y]
    {
      if 0 <= y < k {
        assert MoveRw(a, k).B[x][y] == a.D[c.n - 1 - x][c.n - 1 - y];
      }
    }
    GridEq(MoveRw(a, k).B, c.B, c.n);
  }

  /** Rw' after Rw restores face D. */
  lemma RwUndoFaceD(c: Cube, k: int)
    requires Valid(c) && 0 < k <= c.n
    ensures MoveRwPrime(MoveRw(c, k), k).D == c.D
  {
    hide *;
    var a := MoveRw(c, k);
    ValidFaces(c);
    ValidFaces(MoveRwPrime(a, k));
    MoveRwCellsD(c, k);
    MoveRwCellsB(c, k);
    MoveRwPrimeCellsD(a, k);
    ValidFaces(a);
    forall x, y | 0 <= x < c.n && 0 <= y < c.n
      ensures MoveRwPrime(a, k).D[x][y] == c.D[x][y]
    {
      if c.n - k <= y < c.n {
        assert MoveRwPrime(a, k).D[x][y] == a.B[c.n - 1 - x][c.n - 1 - y];
      }
    }
    GridEq(MoveRwPrime(a, k).D, c.D, c.n);
  }

  /** Rw after Rw' restores face D. */
  lemma RwRedoFaceD(c: Cube, k: int)
    requires Valid(c) && 0 < k <= c.n
    ensures MoveRw(MoveRwPrime(c, k), k).D == c.D
  {
    hide *;
    var a := MoveRwPrime(c, k);
    ValidFaces(c);
    ValidFaces(MoveRw(a, k));
    MoveRwPrimeCellsD(c, k);
    MoveRwPrimeCellsF(c, k);
    MoveRwCellsD(a, k);
    ValidFaces(a);
    forall x, y | 0 <= x < c.n && 0 <= y < c.n
      ensures MoveRw(a, k).D[x][y] == c.D[x][y]
    {
      if c.n - k <= y < c.n {
        assert MoveRw(a, k).D[x][y] == a.F[x][y];
      }
    }
    GridEq(MoveRw(a, k).D, c.D, c.n);
  }

  /** Rw' after Rw restores face F. */
  lemma RwUndoFaceF(c: Cube, k: int)
    requires Valid(c) && 0 < k <= c.n
    ensures MoveRwPrime(MoveRw(c, k), k).F == c.F
  {
    hide *;
    var a := MoveRw(c, k);
    ValidFaces(c);
    ValidFaces(MoveRwPrime(a, k));
    MoveRwCellsF(c, k);
    MoveRwCellsD(c, k);
    MoveRwPrimeCellsF(a, k);
    ValidFaces(a);
    forall x, y | 0 <= x < c.n && 0 <= y < c.n
      ensures MoveRwPrime(a, k).F[x][y] == c.F[x][y]
    {
      if c.n - k <= y < c.n {
        assert MoveRwPrime(a, k).F[x][y] == a.D[x][y];
      }
    }
    GridEq(MoveRwPrime(a, k).F, c.F, c.n);
  }

  /** Rw after Rw' restores face F. */
  lemma RwRedoFaceF(c: Cube, k: int)
    requires Valid(c) && 0 < k <= c.n
    ensures MoveRw(MoveRwPrime(c, k), k).F == c.F
  {
    hide *;
    var a := MoveRwPrime(c, k);
    ValidFaces(c);
    ValidFaces(MoveRw(a, k));
    MoveRwPrimeCellsF(c, k);
    MoveRwPrimeCellsU(c, k);
    MoveRwCellsF(a, k);
    ValidFaces(a);
    forall x, y | 0 <= x < c.n && 0 <= y < c.n
      ensures MoveRw(a, k).F[x][y] == c.F[x][y]
    {
      if c.n - k <= y < c.n {
        assert MoveRw(a, k).F[x][y] == a.U[x][y];
      }
    }
    GridEq(MoveRw(a, k).F, c.F, c.n);
  }

  /** For every layer count up to n, Rw' undoes Rw. */
  lemma MoveRwInverse(c: Cube, layers: int)
    requires Valid(c) && layers <= c.n
    ensures MoveRwPrime(MoveRw(c, layers), layers) == c
  {
    hide *;
    if layers <= 0 {
      MoveRwNoOp(c, layers);
    } else {
      ValidFaces(c);
      MoveRwFaces(c, layers);
      MoveRwPrimeFaces(MoveRw(c, layers), layers);
      RotateRoundTrip(c.R);
      RwUndoFaceU(c, layers);
      RwUndoFaceB(c, layers);
      RwUndoFaceD(c, layers);
      RwUndoFaceF(c, layers);
    }
  }

  /** For every layer count up to n, Rw undoes Rw'. */
  lemma MoveRwPrimeInverse(c: Cube, layers: int)
    requires Valid(c) && layers <= c.n
    ensures MoveRw(MoveRwPrime(c, layers), layers) == c
  {
    hide *;
    if layers <= 0 {
      MoveRwNoOp(c, layers);
    } else {
      ValidFaces(c);
      MoveRwPrimeFaces(c, layers);
      MoveRwFaces(MoveRwPrime(c, layers), layers);
      RotateRoundTrip(c.R);
      RwRedoFaceU(c, layers);
      RwRedoFaceB(c, layers);
      RwRedoFaceD(c, layers);
      RwRedoFaceF(c, layers);
    }
  }

  /** Four Rw turns restore face U. */
  lemma RwFourFaceU(c: Cube, k: int)
    requires Valid(c) && 0 < k <= c.n
    ensures MoveRw(MoveRw(MoveRw(MoveRw(c, k), k), k), k).U == c.U
  {
    hide *;
    var a1 := MoveRw(c, k);
    var a2 := MoveRw(a1, k);
    var a3 := MoveRw(a2, k);
    ValidFaces(c);
    ValidFaces(MoveRw(a3, k));
    MoveRwCellsU(a3, k);
    MoveRwCellsB(a2, k);
    MoveRwCellsU(a2, k);
    MoveRwCellsD(a1, k);
    MoveRwCellsU(a1, k);
    MoveRwCellsF(c, k);
    MoveRwCellsU(c, k);
    ValidFaces(a1);
    ValidFaces(a2);
    ValidFaces(a3);
    forall x, y | 0 <= x < c.n && 0 <= y < c.n
      ensures MoveRw(a3, k).U[x][y] == c.U[x][y]
    {
      if c.n - k <= y < c.n {
        assert MoveRw(a3, k).U[x][y] == a3.B[c.n - 1 - x][c.n - 1 - y];
        assert a3.B[c.n - 1 - x][c.n - 1 - y] == a2.D[x][y];
        assert a2.D[x][y] == a1.F[x][y];
      }
    }
    GridEq(MoveRw(a3, k).U, c.U, c.n);
  }

  /** Four Rw turns restore face B. */
  lemma RwFourFaceB(c: Cube, k: int)
    requires Valid(c) && 0 < k <= c.n
    ensures MoveRw(MoveRw(MoveRw(MoveRw(c, k), k), k), k).B == c.B
  {
    hide *;
    var a1 := MoveRw(c, k);
    var a2 := MoveRw(a1, k);
    var a3 := MoveRw(a2, k);
    ValidFaces(c);
    ValidFaces(MoveRw(a3, k));
    MoveRwCellsB(a3, k);
    MoveRwCellsD(a2, k);
    MoveRwCellsB(a2, k);
    MoveRwCellsF(a1, k);
    MoveRwCellsB(a1, k);
    MoveRwCellsU(c, k);
    MoveRwCellsB(c, k);
    ValidFaces(a1);
    ValidFaces(a2);
    ValidFaces(a3);
    forall x, y | 0 <= x < c.n && 0 <= y < c.n
      ensures MoveRw(a3, k).B[x][y] == c.B[x][y]
    {
      if 0 <= y < k {
        assert MoveRw(a3, k).B[x][y] == a3.D[c.n - 1 - x][c.n - 1 - y];
        assert a3.D[c.n - 1 - x][c.n - 1 - y] == a2.F[c.n - 1 - x][c.n - 1 - y];
        assert a2.F[c.n - 1 - x][c.n - 1 - y] == a1.U[c.n - 1 - x][c.n - 1 - y];
      }
    }
    GridEq(MoveRw(a3, k).B, c.B, c.n);
  }

  /** Four Rw turns restore face D. */
  lemma RwFourFaceD(c: Cube, k: int)
    requires Valid(c) && 0 < k <= c.n
    ensures MoveRw(MoveRw(MoveRw(MoveRw(c, k), k), k), k).D == c.D
  {
    hide *;
    var a1 := MoveRw(c, k);
    var a2 := MoveRw(a1, k);
    var a3 := MoveRw(a2, k);
    ValidFaces(c);
    ValidFaces(MoveRw(a3, k));
    MoveRwCellsD(a3, k);
    MoveRwCellsF(a2, k);
    MoveRwCellsD(a2, k);
    MoveRwCellsU(a1, k);
    MoveRwCellsD(a1, k);
    MoveRwCellsB(c, k);
    MoveRwCellsD(c, k);
    ValidFaces(a1);
    ValidFaces(a2);
    ValidFaces(a3);
    forall x, y | 0 <= x < c.n && 0 <= y < c.n
      ensures MoveRw(a3, k).D[x][y] == c.D[x][y]
    {
      if c.n - k <= y < c.n {
        assert MoveRw(a3, k).D[x][y] == a3.F[x][y];
        assert a3.F[x][y] == a2.U[x][y];
        assert a2.U[x][y] == a1.B[c.n - 1 - x][c.n - 1 - y];
      }
    }
    GridEq(MoveRw(a3, k).D, c.D, c.n);
  }

  /** Four Rw turns restore face F. */
  lemma RwFourFaceF(c: Cube, k: int)
    requires Valid(c) && 0 < k <= c.n
    ensures MoveRw(MoveRw(MoveRw(MoveRw(c, k), k), k), k).F == c.F
  {
    hide *;
    var a1 := MoveRw(c, k);
    var a2 := MoveRw(a1, k);
    var a3 := MoveRw(a2, k);
    ValidFaces(c);
    ValidFaces(MoveRw(a3, k));
    MoveRwCellsF(a3, k);
    MoveRwCellsU(a2, k);
    MoveRwCellsF(a2, k);
    MoveRwCellsB(a1, k);
    MoveRwCellsF(a1, k);
    MoveRwCellsD(c, k);
    MoveRwCellsF(c, k);
    ValidFaces(a1);
    ValidFaces(a2);
    ValidFaces(a3);
    forall x, y | 0 <= x < c.n && 0 <= y < c.n
      ensures MoveRw(a3, k).F[x][y] == c.F[x][y]
    {
      if c.n - k <= y < c.n {
        assert MoveRw(a3, k).F[x][y] == a3.U[x][y];
        assert a3.U[x][y] == a2.B[c.n - 1 - x][c.n - 1 - y];
        assert a2.B[c.n - 1 - x][c.n - 1 - y] == a1.D[x][y];
      }
    }
    GridEq(MoveRw(a3, k).F, c.F, c.n);
  }

  /** For every layer count up to n, four Rw turns give the cube back. */
  lemma MoveRwOrderFour(c: Cube, layers: int)
    requires Valid(c) && layers <= c.n
    ensures MoveRw(MoveRw(MoveRw(MoveRw(c, layers), layers), layers), layers) == c
  {
    hide *;
    if layers <= 0 {
      MoveRwNoOp(c, layers);
    } else {
      var a1 := MoveRw(c, layers);
      var a2 := MoveRw(a1, layers);
      var a3 := MoveRw(a2, layers);
      ValidFaces(c);
      MoveRwFaces(c, layers);
      MoveRwFaces(a1, layers);
      MoveRwFaces(a2, layers);
      MoveRwFaces(a3, layers);
      RotateOrderFour(c.R);
      RwFourFaceU(c, layers);
      RwFourFaceB(c, layers);
      RwFourFaceD(c, layers);
      RwFourFaceF(c, layers);
    }
  }

  /** For every layer count up to n, four Rw' turns give the cube back. */
  lemma MoveRwPrimeOrderFour(c: Cube, layers: int)
    requires Valid(c) && layers <= c.n
    ensures MoveRwPrime(MoveRwPrime(MoveRwPrime(MoveRwPrime(c, layers), layers), layers), layers) == c
  {
    var a1 := MoveRw(c, layers);
    var a2 := MoveRw(a1, layers);
    var a3 := MoveRw(a2, layers);
    MoveRwOrderFour(c, layers);
    MoveRwInverse(a3, layers);
    MoveRwInverse(a2, layers);
    MoveRwInverse(a1, layers);
    MoveRwInverse(c, layers);
  }

  /** Fw' after Fw restores face U. */
  lemma FwUndoFaceU(c: Cube, k: int)
    requires Valid(c) && 0 < k <= c.n
    ensures MoveFwPrime(MoveFw(c, k), k).U == c.U
  {
    hide *;
    var a := MoveFw(c, k);
    ValidFaces(c);
    ValidFaces(MoveFwPrime(a, k));
    MoveFwCellsU(c, k);
    MoveFwCellsR(c, k);
    MoveFwPrimeCellsU(a, k);
    ValidFaces(a);
    forall x, y | 0 <= x < c.n && 0 <= y < c.n
      ensures MoveFwPrime(a, k).U[x][y] == c.U[x][y]
    {
      if c.n - k <= x < c.n {
        assert MoveFwPrime(a, k).U[x][y] == a.R[y][x + k - c.n];
      }
    }
    GridEq(MoveFwPrime(a, k).U, c.U, c.n);
  }

  /** Fw after Fw' restores face U. */
  lemma FwRedoFaceU(c: Cube, k: int)
    requires Valid(c) && 0 < k <= c.n
    ensures MoveFw(MoveFwPrime(c, k), k).U == c.U
  {
    hide *;
    var a := MoveFwPrime(c, k);
    ValidFaces(c);
    ValidFaces(MoveFw(a, k));
    MoveFwPrimeCellsU(c, k);
    MoveFwPrimeCellsL(c, k);
    MoveFwCellsU(a, k);
    ValidFaces(a);
    forall x, y | 0 <= x < c.n && 0 <= y < c.n
      ensures MoveFw(a, k).U[x][y] == c.U[x][y]
    {
      if c.n - k <= x < c.n {
        assert MoveFw(a, k).U[x][y] == a.L[c.n - 1 - y][2 * c.n - k - 1 - x];
      }
    }
    GridEq(MoveFw(a, k).U, c.U, c.n);
  }

  /** Fw' after Fw restores face L. */
  lemma FwUndoFaceL(c: Cube, k: int)
    requires Valid(c) && 0 < k <= c.n
    ensures MoveFwPrime(MoveFw(c, k), k).L == c.L
  {
    hide *;
    var a := MoveFw(c, k);
    ValidFaces(c);
    ValidFaces(MoveFwPrime(a, k));
    MoveFwCellsL(c, k);
    MoveFwCellsU(c, k);
    MoveFwPrimeCellsL(a, k);
    ValidFaces(a);
    forall x, y | 0 <= x < c.n && 0 <= y < c.n
      ensures MoveFwPrime(a, k).L[x][y] == c.L[x][y]
    {
      if c.n - k <= y < c.n {
        assert MoveFwPrime(a, k).L[x][y] == a.U[2 * c.n - k - 1 - y][c.n - 1 - x];
      }
    }
    GridEq(MoveFwPrime(a, k).L, c.L, c.n);
  }

  /** Fw after Fw' restores face L. */
  lemma FwRedoFaceL(c: Cube, k: int)
    requires Valid(c) && 0 < k <= c.n
    ensures MoveFw(MoveFwPrime(c, k), k).L == c.L
  {
    hide *;
    var a := MoveFwPrime(c, k);
    ValidFaces(c);
    ValidFaces(MoveFw(a, k));
    MoveFwPrimeCellsL(c, k);
    MoveFwPrimeCellsD(c, k);
    MoveFwCellsL(a, k);
    ValidFaces(a);
    forall x, y | 0 <= x < c.n && 0 <= y < c.n
      ensures MoveFw(a, k).L[x][y] == c.L[x][y]
    {
      if c.n - k <= y < c.n {
        assert MoveFw(a, k).L[x][y] == a.D[c.n - 1 - y][x];
      }
    }
    GridEq(MoveFw(a, k).L, c.L, c.n);
  }

  /** Fw' after Fw restores face D. */
  lemma FwUndoFaceD(c: Cube, k: int)
    requires Valid(c) && 0 < k <= c.n
    ensures MoveFwPrime(MoveFw(c, k), k).D == c.D
  {
    hide *;
    var a := MoveFw(c, k);
    ValidFaces(c);
    ValidFaces(MoveFwPrime(a, k));
    MoveFwCellsD(c, k);
    MoveFwCellsL(c, k);
    MoveFwPrimeCellsD(a, k);
    ValidFaces(a);
    forall x, y | 0 <= x < c.n && 0 <= y < c.n
      ensures MoveFwPrime(a, k).D[x][y] == c.D[x][y]
    {
      if 0 <= x < k {
        assert MoveFwPrime(a, k).D[x][y] == a.L[y][c.n - 1 - x];
      }
    }
    GridEq(MoveFwPrime(a, k).D, c.D, c.n);
  }

  /** Fw after Fw' restores face D. */
  lemma FwRedoFaceD(c: Cube, k: int)
    requires Valid(c) && 0 < k <= c.n
    ensures MoveFw(MoveFwPrime(c, k), k).D == c.D
  {
    hide *;
    var a := MoveFwPrime(c, k);
    ValidFaces(c);
    ValidFaces(MoveFw(a, k));
    MoveFwPrimeCellsD(c, k);
    MoveFwPrimeCellsR(c, k);
    MoveFwCellsD(a, k);
    ValidFaces(a);
    forall x, y | 0 <= x < c.n && 0 <= y < c.n
      ensures MoveFw(a, k).D[x][y] == c.D[x][y]
    {
      if 0 <= x < k {
        assert MoveFw(a, k).D[x][y] == a.R[c.n - 1 - y][x];
      }
    }
    GridEq(MoveFw(a, k).D, c.D, c.n);
  }

  /** Fw' after Fw restores face R. */
  lemma FwUndoFaceR(c: Cube, k: int)
    requires Valid(c) && 0 < k <= c.n
    ensures MoveFwPrime(MoveFw(c, k), k).R == c.R
  {
    hide *;
    var a := MoveFw(c, k);
    ValidFaces(c);
    ValidFaces(MoveFwPrime(a, k));
    MoveFwCellsR(c, k);
    MoveFwCellsD(c, k);
    MoveFwPrimeCellsR(a, k);
    ValidFaces(a);
    forall x, y | 0 <= x < c.n && 0 <= y < c.n
      ensures MoveFwPrime(a, k).R[x][y] == c.R[x][y]
    {
      if 0 <= y < k {
        assert MoveFwPrime(a, k).R[x][y] == a.D[y][c.n - 1 - x];
      }
    }
    GridEq(MoveFwPrime(a, k).R, c.R, c.n);
  }

  /** Fw after Fw' restores face R. */
  lemma FwRedoFaceR(c: Cube, k: int)
    requires Valid(c) && 0 < k <= c.n
    ensures MoveFw(MoveFwPrime(c, k), k).R == c.R
  {
    hide *;
    var a := MoveFwPrime(c, k);
    ValidFaces(c);
    ValidFaces(MoveFw(a, k));
    MoveFwPrimeCellsR(c, k);
    MoveFwPrimeCellsU(c, k);
    MoveFwCellsR(a, k);
    ValidFaces(a);
    forall x, y | 0 <= x < c.n && 0 <= y < c.n
      ensures MoveFw(a, k).R[x][y] == c.R[x][y]
    {
      if 0 <= y < k {
        assert MoveFw(a, k).R[x][y] == a.U[c.n + y - k][x];
      }
    }
    GridEq(MoveFw(a, k).R, c.R, c.n);
  }

  /** For every layer count up to n, Fw' undoes Fw. */
  lemma MoveFwInverse(c: Cube, layers: int)
    requires Valid(c) && layers <= c.n
    ensures MoveFwPrime(MoveFw(c, layers), layers) == c
  {
    hide *;
    if layers <= 0 {
      MoveFwNoOp(c, layers);
    } else {
      ValidFaces(c);
      MoveFwFaces(c, layers);
      MoveFwPrimeFaces(MoveFw(c, layers), layers);
      RotateRoundTrip(c.F);
      FwUndoFaceU(c, layers);
      FwUndoFaceL(c, layers);
      FwUndoFaceD(c, layers);
      FwUndoFaceR(c, layers);
    }
  }

  /** For every layer count up to n, Fw undoes Fw'. */
  lemma MoveFwPrimeInverse(c: Cube, layers: int)
    requires Valid(c) && layers <= c.n
    ensures MoveFw(MoveFwPrime(c, layers), layers) == c
  {
    hide *;
    if layers <= 0 {
      MoveFwNoOp(c, layers);
    } else {
      ValidFaces(c);
      MoveFwPrimeFaces(c, layers);
      MoveFwFaces(MoveFwPrime(c, layers), layers);
      RotateRoundTrip(c.F);
      FwRedoFaceU(c, layers);
      FwRedoFaceL(c, layers);
      FwRedoFaceD(c, layers);
      FwRedoFaceR(c, layers);
    }
  }

  /** Four Fw turns restore face U. */
  lemma FwFourFaceU(c: Cube, k: int)
    requires Valid(c) && 0 < k <= c.n
    ensures MoveFw(MoveFw(MoveFw(MoveFw(c, k), k), k), k).U == c.U
  {
    hide *;
    var a1 := MoveFw(c, k);
    var a2 := MoveFw(a1, k);
    var a3 := MoveFw(a2, k);
    ValidFaces(c);
    ValidFaces(MoveFw(a3, k));
    MoveFwCellsU(a3, k);
    MoveFwCellsL(a2, k);
    MoveFwCellsU(a2, k);
    MoveFwCellsD(a1, k);
    MoveFwCellsU(a1, k);
    MoveFwCellsR(c, k);
    MoveFwCellsU(c, k);
    ValidFaces(a1);
    ValidFaces(a2);
    ValidFaces(a3);
    forall x, y | 0 <= x < c.n && 0 <= y < c.n
      ensures MoveFw(a3, k).U[x][y] == c.U[x][y]
    {
      if c.n - k <= x < c.n {
        assert MoveFw(a3, k).U[x][y] == a3.L[c.n - 1 - y][2 * c.n - k - 1 - x];
        assert a3.L[c.n - 1 - y][2 * c.n - k - 1 - x] == a2.D[x + k - c.n][c.n - 1 - y];
        assert a2.D[x + k - c.n][c.n - 1 - y] == a1.R[y][x + k - c.n];
      }
    }
    GridEq(MoveFw(a3, k).U, c.U, c.n);
  }

  /** Four Fw turns restore face L. */
  lemma FwFourFaceL(c: Cube, k: int)
    requires Valid(c) && 0 < k <= c.n
    ensures MoveFw(MoveFw(MoveFw(MoveFw(c, k), k), k), k).L == c.L
  {
    hide *;
    var a1 := MoveFw(c, k);
    var a2 := MoveFw(a1, k);
    var a3 := MoveFw(a2, k);
    ValidFaces(c);
    ValidFaces(MoveFw(a3, k));
    MoveFwCellsL(a3, k);
    MoveFwCellsD(a2, k);
    MoveFwCellsL(a2, k);
    MoveFwCellsR(a1, k);
    MoveFwCellsL(a1, k);
    MoveFwCellsU(c, k);
    MoveFwCellsL(c, k);
    ValidFaces(a1);
    ValidFaces(a2);
    ValidFaces(a3);
    forall x, y | 0 <= x < c.n && 0 <= y < c.n
      ensures MoveFw(a3, k).L[x][y] == c.L[x][y]
    {
      if c.n - k <= y < c.n {
        assert MoveFw(a3, k).L[x][y] == a3.D[c.n - 1 - y][x];
        assert a3.D[c.n - 1 - y][x] == a2.R[c.n - 1 - x][c.n - 1 - y];
        assert a2.R[c.n - 1 - x][c.n - 1 - y] == a1.U[2 * c.n - k - 1 - y][c.n - 1 - x];
      }
    }
    GridEq(MoveFw(a3, k).L, c.L, c.n);
  }

  /** Four Fw turns restore face D. */
  lemma FwFourFaceD(c: Cube, k: int)
    requires Valid(c) && 0 < k <= c.n
    ensures MoveFw(MoveFw(MoveFw(MoveFw(c, k), k), k), k).D == c.D
  {
    hide *;
    var a1 := MoveFw(c, k);
    var a2 := MoveFw(a1, k);
    var a3 := MoveFw(a2, k);
    ValidFaces(c);
    ValidFaces(MoveFw(a3, k));
    MoveFwCellsD(a3, k);
    MoveFwCellsR(a2, k);
    MoveFwCellsD(a2, k);
    MoveFwCellsU(a1, k);
    MoveFwCellsD(a1, k);
    MoveFwCellsL(c, k);
    MoveFwCellsD(c, k);
    ValidFaces(a1);
    ValidFaces(a2);
    ValidFaces(a3);
    forall x, y | 0 <= x < c.n && 0 <= y < c.n
      ensures MoveFw(a3, k).D[x][y] == c.D[x][y]
    {
      if 0 <= x < k {
        assert MoveFw(a3, k).D[x][y] == a3.R[c.n - 1 - y][x];
        assert a3.R[c.n - 1 - y][x] == a2.U[c.n + x - k][c.n - 1 - y];
        assert a2.U[c.n + x - k][c.n - 1 - y] == a1.L[y][c.n - 1 - x];
      }
    }
    GridEq(MoveFw(a3, k).D, c.D, c.n);
  }

  /** Four Fw turns restore face R. */
  lemma FwFourFaceR(c: Cube, k: int)
    requires Valid(c) && 0 < k <= c.n
    ensures MoveFw(MoveFw(MoveFw(MoveFw(c, k), k), k), k).R == c.R
  {
    hide *;
    var a1 := MoveFw(c, k);
    var a2 := MoveFw(a1, k);
    var a3 := MoveFw(a2, k);
    ValidFaces(c);
    ValidFaces(MoveFw(a3, k));
    MoveFwCellsR(a3, k);
    MoveFwCellsU(a2, k);
    MoveFwCellsR(a2, k);
    MoveFwCellsL(a1, k);
    MoveFwCellsR(a1, k);
    MoveFwCellsD(c, k);
    MoveFwCellsR(c, k);
    ValidFaces(a1);
    ValidFaces(a2);
    ValidFaces(a3);
    forall x, y | 0 <= x < c.n && 0 <= y < c.n
      ensures MoveFw(a3, k).R[x][y] == c.R[x][y]
    {
      if 0 <= y < k {
        assert MoveFw(a3, k).R[x][y] == a3.U[c.n + y - k][x];
        assert a3.U[c.n + y - k][x] == a2.L[c.n - 1 - x][c.n - 1 - y];
        assert a2.L[c.n - 1 - x][c.n - 1 - y] == a1.D[y][c.n - 1 - x];
      }
    }
    GridEq(MoveFw(a3, k).R, c.R, c.n);
  }

  /** For every layer count up to n, four Fw turns give the cube back. */
  lemma MoveFwOrderFour(c: Cube, layers: int)
    requires Valid(c) && layers <= c.n
    ensures MoveFw(MoveFw(MoveFw(MoveFw(c, layers), layers), layers), layers) == c
  {
    hide *;
    if layers <= 0 {
      MoveFwNoOp(c, layers);
    } else {
      var a1 := MoveFw(c, layers);
      var a2 := MoveFw(a1, layers);
      var a3 := MoveFw(a2, layers);
      ValidFaces(c);
      MoveFwFaces(c, layers);
      MoveFwFaces(a1, layers);
      MoveFwFaces(a2, layers);
      MoveFwFaces(a3, layers);
      RotateOrderFour(c.F);
      FwFourFaceU(c, layers);
      FwFourFaceL(c, layers);
      FwFourFaceD(c, layers);
      FwFourFaceR(c, layers);
    }
  }

  /** For every layer count up to n, four Fw' turns give the cube back. */
  lemma MoveFwPrimeOrderFour(c: Cube, layers: int)
    requires Valid(c) && layers <= c.n
    ensures MoveFwPrime(MoveFwPrime(MoveFwPrime(MoveFwPrime(c, layers), layers), layers), layers) == c
  {
    var a1 := MoveFw(c, layers);
    var a2 := MoveFw(a1, layers);
    var a3 := MoveFw(a2, layers);
    MoveFwOrderFour(c, layers);
    MoveFwInverse(a3, layers);
    MoveFwInverse(a2, layers);
    MoveFwInverse(a1, layers);
    MoveFwInverse(c, layers);
  }

  /** Bw' after Bw restores face U. */
  lemma BwUndoFaceU(c: Cube, k: int)
    requires Valid(c) && 0 < k <= c.n
    ensures MoveBwPrime(MoveBw(c, k), k).U == c.U
  {
    hide *;
    var a := MoveBw(c, k);
    ValidFaces(c);
    ValidFaces(MoveBwPrime(a, k));
    MoveBwCellsU(c, k);
    MoveBwCellsL(c, k);
    MoveBwPrimeCellsU(a, k);
    ValidFaces(a);
    forall x, y | 0 <= x < c.n && 0 <= y < c.n
      ensures MoveBwPrime(a, k).U[x][y] == c.U[x][y]
    {
      if 0 <= x < k {
        assert MoveBwPrime(a, k).U[x][y] == a.L[y][x];
      }
    }
    GridEq(MoveBwPrime(a, k).U, c.U, c.n);
  }

  /** Bw after Bw' restores face U. */
  lemma BwRedoFaceU(c: Cube, k: int)
    requires Valid(c) && 0 < k <= c.n
    ensures MoveBw(MoveBwPrime(c, k), k).U == c.U
  {
    hide *;
    var a := MoveBwPrime(c, k);
    ValidFaces(c);
    ValidFaces(MoveBw(a, k));
    MoveBwPrimeCellsU(c, k);
    MoveBwPrimeCellsR(c, k);
    MoveBwCellsU(a, k);
    ValidFaces(a);
    forall x, y | 0 <= x < c.n && 0 <= y < c.n
      ensures MoveBw(a, k).U[x][y] == c.U[x][y]
    {
      if 0 <= x < k {
        assert MoveBw(a, k).U[x][y] == a.R[c.n - 1 - y][c.n - 1 - x];
      }
    }
    GridEq(MoveBw(a, k).U, c.U, c.n);
  }

  /** Bw' after Bw restores face R. */
  lemma BwUndoFaceR(c: Cube, k: int)
    requires Valid(c) && 0 < k <= c.n
    ensures MoveBwPrime(MoveBw(c, k), k).R == c.R
  {
    hide *;
    var a := MoveBw(c, k);
    ValidFaces(c);
    ValidFaces(MoveBwPrime(a, k));
    MoveBwCellsR(c, k);
    MoveBwCellsU(c, k);
    MoveBwPrimeCellsR(a, k);
    ValidFaces(a);
    forall x, y | 0 <= x < c.n && 0 <= y < c.n
      ensures MoveBwPrime(a, k).R[x][y] == c.R[x][y]
    {
      if c.n - k <= y < c.n {
        assert MoveBwPrime(a, k).R[x][y] == a.U[c.n - 1 - y][c.n - 1 - x];
      }
    }
    GridEq(MoveBwPrime(a, k).R, c.R, c.n);
  }

  /** Bw after Bw' restores face R. */
  lemma BwRedoFaceR(c: Cube, k: int)
    requires Valid(c) && 0 < k <= c.n
    ensures MoveBw(MoveBwPrime(c, k), k).R == c.R
  {
    hide *;
    var a := MoveBwPrime(c, k);
    ValidFaces(c);
    ValidFaces(MoveBw(a, k));
    MoveBwPrimeCellsR(c, k);
    MoveBwPrimeCellsD(c, k);
    MoveBwCellsR(a, k);
    ValidFaces(a);
    forall x, y | 0 <= x < c.n && 0 <= y < c.n
      ensures MoveBw(a, k).R[x][y] == c.R[x][y]
    {
      if c.n - k <= y < c.n {
        assert MoveBw(a, k).R[x][y] == a.D[y][x];
      }
    }
    GridEq(MoveBw(a, k).R, c.R, c.n);
  }

  /** Bw' after Bw restores face D. */
  lemma BwUndoFaceD(c: Cube, k: int)
    requires Valid(c) && 0 < k <= c.n
    ensures MoveBwPrime(MoveBw(c, k), k).D == c.D
  {
    hide *;
    var a := MoveBw(c, k);
    ValidFaces(c);
    ValidFaces(MoveBwPrime(a, k));
    MoveBwCellsD(c, k);
    MoveBwCellsR(c, k);
    MoveBwPrimeCellsD(a, k);
    ValidFaces(a);
    forall x, y | 0 <= x < c.n && 0 <= y < c.n
      ensures MoveBwPrime(a, k).D[x][y] == c.D[x][y]
    {
      if c.n - k <= x < c.n {
        assert MoveBwPrime(a, k).D[x][y] == a.R[y][x];
      }
    }
    GridEq(MoveBwPrime(a, k).D, c.D, c.n);
  }

  /** Bw after Bw' restores face D. */
  lemma BwRedoFaceD(c: Cube, k: int)
    requires Valid(c) && 0 < k <= c.n
    ensures MoveBw(MoveBwPrime(c, k), k).D == c.D
  {
    hide *;
    var a := MoveBwPrime(c, k);
    ValidFaces(c);
    ValidFaces(MoveBw(a, k));
    MoveBwPrimeCellsD(c, k);
    MoveBwPrimeCellsL(c, k);
    MoveBwCellsD(a, k);
    ValidFaces(a);
    forall x, y | 0 <= x < c.n && 0 <= y < c.n
      ensures MoveBw(a, k).D[x][y] == c.D[x][y]
    {
      if c.n - k <= x < c.n {
        assert MoveBw(a, k).D[x][y] == a.L[c.n - 1 - y][c.n - 1 - x];
      }
    }
    GridEq(MoveBw(a, k).D, c.D, c.n);
  }

  /** Bw' after Bw restores face L. */
  lemma BwUndoFaceL(c: Cube, k: int)
    requires Valid(c) && 0 < k <= c.n
    ensures MoveBwPrime(MoveBw(c, k), k).L == c.L
  {
    hide *;
    var a := MoveBw(c, k);
    ValidFaces(c);
    ValidFaces(MoveBwPrime(a, k));
    MoveBwCellsL(c, k);
    MoveBwCellsD(c, k);
    MoveBwPrimeCellsL(a, k);
    ValidFaces(a);
    forall x, y | 0 <= x < c.n && 0 <= y < c.n
      ensures MoveBwPrime(a, k).L[x][y] == c.L[x][y]
    {
      if 0 <= y < k {
        assert MoveBwPrime(a, k).L[x][y] == a.D[c.n - 1 - y][c.n - 1 - x];
      }
    }
    GridEq(MoveBwPrime(a, k).L, c.L, c.n);
  }

  /** Bw after Bw' restores face L. */
  lemma BwRedoFaceL(c: Cube, k: int)
    requires Valid(c) && 0 < k <= c.n
    ensures MoveBw(MoveBwPrime(c, k), k).L == c.L
  {
    hide *;
    var a := MoveBwPrime(c, k);
    ValidFaces(c);
    ValidFaces(MoveBw(a, k));
    MoveBwPrimeCellsL(c, k);
    MoveBwPrimeCellsU(c, k);
    MoveBwCellsL(a, k);
    ValidFaces(a);
    forall x, y | 0 <= x < c.n && 0 <= y < c.n
      ensures MoveBw(a, k).L[x][y] == c.L[x][y]
    {
      if 0 <= y < k {
        assert MoveBw(a, k).L[x][y] == a.U[y][x];
      }
    }
    GridEq(MoveBw(a, k).L, c.L, c.n);
  }

  /** For every layer count up to n, Bw' undoes Bw. */
  lemma MoveBwInverse(c: Cube, layers: int)
    requires Valid(c) && layers <= c.n
    ensures MoveBwPrime(MoveBw(c, layers), layers) == c
  {
    hide *;
    if layers <= 0 {
      MoveBwNoOp(c, layers);
    } else {
      ValidFaces(c);
      MoveBwFaces(c, layers);
      MoveBwPrimeFaces(MoveBw(c, layers), layers);
      RotateRoundTrip(c.B);
      BwUndoFaceU(c, layers);
      BwUndoFaceR(c, layers);
      BwUndoFaceD(c, layers);
      BwUndoFaceL(c, layers);
    }
  }

  /** For every layer count up to n, Bw undoes Bw'. */
  lemma MoveBwPrimeInverse(c: Cube, layers: int)
    requires Valid(c) && layers <= c.n
    ensures MoveBw(MoveBwPrime(c, layers), layers) == c
  {
    hide *;
    if layers <= 0 {
      MoveBwNoOp(c, layers);
    } else {
      ValidFaces(c);
      MoveBwPrimeFaces(c, layers);
      MoveBwFaces(MoveBwPrime(c, layers), layers);
      RotateRoundTrip(c.B);
      BwRedoFaceU(c, layers);
      BwRedoFaceR(c, layers);
      BwRedoFaceD(c, layers);
      BwRedoFaceL(c, layers);
    }
  }

  /** Four Bw turns restore face U. */
  lemma BwFourFaceU(c: Cube, k: int)
    requires Valid(c) && 0 < k <= c.n
    ensures MoveBw(MoveBw(MoveBw(MoveBw(c, k), k), k), k).U == c.U
  {
    hide *;
    var a1 := MoveBw(c, k);
    var a2 := MoveBw(a1, k);
    var a3 := MoveBw(a2, k);
    ValidFaces(c);
    ValidFaces(MoveBw(a3, k));
    MoveBwCellsU(a3, k);
    MoveBwCellsR(a2, k);
    MoveBwCellsU(a2, k);
    MoveBwCellsD(a1, k);
    MoveBwCellsU(a1, k);
    MoveBwCellsL(c, k);
    MoveBwCellsU(c, k);
    ValidFaces(a1);
    ValidFaces(a2);
    ValidFaces(a3);
    forall x, y | 0 <= x < c.n && 0 <= y < c.n
      ensures MoveBw(a3, k).U[x][y] == c.U[x][y]
    {
      if 0 <= x < k {
        assert MoveBw(a3, k).U[x][y] == a3.R[c.n - 1 - y][c.n - 1 - x];
        assert a3.R[c.n - 1 - y][c.n - 1 - x] == a2.D[c.n - 1 - x][c.n - 1 - y];
        assert a2.D[c.n - 1 - x][c.n - 1 - y] == a1.L[y][x];
      }
    }
    GridEq(MoveBw(a3, k).U, c.U, c.n);
  }

  /** Four Bw turns restore face R. */
  lemma BwFourFaceR(c: Cube, k: int)
    requires Valid(c) && 0 < k <= c.n
    ensures MoveBw(MoveBw(MoveBw(MoveBw(c, k), k), k), k).R == c.R
  {
    hide *;
    var a1 := MoveBw(c, k);
    var a2 := MoveBw(a1, k);
    var a3 := MoveBw(a2, k);
    ValidFaces(c);
    ValidFaces(MoveBw(a3, k));
    MoveBwCellsR(a3, k);
    MoveBwCellsD(a2, k);
    MoveBwCellsR(a2, k);
    MoveBwCellsL(a1, k);
    MoveBwCellsR(a1, k);
    MoveBwCellsU(c, k);
    MoveBwCellsR(c, k);
    ValidFaces(a1);
    ValidFaces(a2);
    ValidFaces(a3);
    forall x, y | 0 <= x < c.n && 0 <= y < c.n
      ensures MoveBw(a3, k).R[x][y] == c.R[x][y]
    {
      if c.n - k <= y < c.n {
        assert MoveBw(a3, k).R[x][y] == a3.D[y][x];
        assert a3.D[y][x] == a2.L[c.n - 1 - x][c.n - 1 - y];
        assert a2.L[c.n - 1 - x][c.n - 1 - y] == a1.U[c.n - 1 - y][c.n - 1 - x];
      }
    }
    GridEq(MoveBw(a3, k).R, c.R, c.n);
  }

  /** Four Bw turns restore face D. */
  lemma BwFourFaceD(c: Cube, k: int)
    requires Valid(c) && 0 < k <= c.n
    ensures MoveBw(MoveBw(MoveBw(MoveBw(c, k), k), k), k).D == c.D
  {
    hide *;
    var a1 := MoveBw(c, k);
    var a2 := MoveBw(a1, k);
    var a3 := MoveBw(a2, k);
    ValidFaces(c);
    ValidFaces(MoveBw(a3, k));
    MoveBwCellsD(a3, k);
    MoveBwCellsL(a2, k);
    MoveBwCellsD(a2, k);
    MoveBwCellsU(a1, k);
    MoveBwCellsD(a1, k);
    MoveBwCellsR(c, k);
    MoveBwCellsD(c, k);
    ValidFaces(a1);
    ValidFaces(a2);
    ValidFaces(a3);
    forall x, y | 0 <= x < c.n && 0 <= y < c.n
      ensures MoveBw(a3, k).D[x][y] == c.D[x][y]
    {
      if c.n - k <= x < c.n {
        assert MoveBw(a3, k).D[x][y] == a3.L[c.n - 1 - y][c.n - 1 - x];
        assert a3.L[c.n - 1 - y][c.n - 1 - x] == a2.U[c.n - 1 - x][c.n - 1 - y];
        assert a2.U[c.n - 1 - x][c.n - 1 - y] == a1.R[y][x];
      }
    }
    GridEq(MoveBw(a3, k).D, c.D, c.n);
  }

  /** Four Bw turns restore face L. */
  lemma BwFourFaceL(c: Cube, k: int)
    requires Valid(c) && 0 < k <= c.n
    ensures MoveBw(MoveBw(MoveBw(MoveBw(c, k), k), k), k).L == c.L
  {
    hide *;
    var a1 := MoveBw(c, k);
    var a2 := MoveBw(a1, k);
    var a3 := MoveBw(a2, k);
    ValidFaces(c);
    ValidFaces(MoveBw(a3, k));
    MoveBwCellsL(a3, k);
    MoveBwCellsU(a2, k);
    MoveBwCellsL(a2, k);
    MoveBwCellsR(a1, k);
    MoveBwCellsL(a1, k);
    MoveBwCellsD(c, k);
    MoveBwCellsL(c, k);
    ValidFaces(a1);
    ValidFaces(a2);
    ValidFaces(a3);
    forall x, y | 0 <= x < c.n && 0 <= y < c.n
      ensures MoveBw(a3, k).L[x][y] == c.L[x][y]
    {
      if 0 <= y < k {
        assert MoveBw(a3, k).L[x][y] == a3.U[y][x];
        assert a3.U[y][x] == a2.R[c.n - 1 - x][c.n - 1 - y];
        assert a2.R[c.n - 1 - x][c.n - 1 - y] == a1.D[c.n - 1 - y][c.n - 1 - x];
      }
    }
    GridEq(MoveBw(a3, k).L, c.L, c.n);
  }

  /** For every layer count up to n, four Bw turns give the cube back. */
  lemma MoveBwOrderFour(c: Cube, layers: int)
    requires Valid(c) && layers <= c.n
    ensures MoveBw(MoveBw(MoveBw(MoveBw(c, layers), layers), layers), layers) == c
  {
    hide *;
    if layers <= 0 {
      MoveBwNoOp(c, layers);
    } else {
      var a1 := MoveBw(c, layers);
      var a2 := MoveBw(a1, layers);
      var a3 := MoveBw(a2, layers);
      ValidFaces(c);
      MoveBwFaces(c, layers);
      MoveBwFaces(a1, layers);
      MoveBwFaces(a2, layers);
      MoveBwFaces(a3, layers);
      RotateOrderFour(c.B);
      BwFourFaceU(c, layers);
      BwFourFaceR(c, layers);
      BwFourFaceD(c, layers);
      BwFourFaceL(c, layers);
    }
  }

  /** For every layer count up to n, four Bw' turns give the cube back. */
  lemma MoveBwPrimeOrderFour(c: Cube, layers: int)
    requires Valid(c) && layers <= c.n
    ensures MoveBwPrime(MoveBwPrime(MoveBwPrime(MoveBwPrime(c, layers), layers), layers), layers) == c
  {
    var a1 := MoveBw(c, layers);
    var a2 := MoveBw(a1, layers);
    var a3 := MoveBw(a2, layers);
    MoveBwOrderFour(c, layers);
    MoveBwInverse(a3, layers);
    MoveBwInverse(a2, layers);
    MoveBwInverse(a1, layers);
    MoveBwInverse(c, layers);
  }
}
