/**
  The quarter and half turns, related to the wide turns: a quarter turn is
  the wide turn of the same face with one layer, so it inherits the wide
  laws. Where every facelet goes, the inverse and order-four laws, and the
  half turns as their own inverses.
*/
module FaceLaws {
  import opened Grids
  import opened Cubes
  import opened FaceMoves
  import opened WideMoves
  import opened WideClosedForms
  import opened WideCells
  import opened WideLaws

  /** U and U' are the one-layer Uw and Uw'. */
  lemma MoveUIsWide(c: Cube)
    requires Valid(c)
    ensures MoveU(c) == MoveUw(c, 1)
    ensures MoveUPrime(c) == MoveUwPrime(c, 1)
  {
    var c1 := c.(U := RotateCW(c.U));
    MoveUwIs(c, 1);
    MoveUwPrimeIs(c, 1);
    UwLayersUnfold(c1, 1);
    UwPrimeLayersUnfold(c, 1);
  }

  /** D and D' are the one-layer Dw and Dw'. */
  lemma MoveDIsWide(c: Cube)
    requires Valid(c)
    ensures MoveD(c) == MoveDw(c, 1)
    ensures MoveDPrime(c) == MoveDwPrime(c, 1)
  {
    var c1 := c.(D := RotateCW(c.D));
    MoveDwIs(c, 1);
    MoveDwPrimeIs(c, 1);
    DwLayersUnfold(c1, 1);
    DwPrimeLayersUnfold(c, 1);
  }

  /** L and L' are the one-layer Lw and Lw'. */
  lemma MoveLIsWide(c: Cube)
    requires Valid(c)
    ensures MoveL(c) == MoveLw(c, 1)
    ensures MoveLPrime(c) == MoveLwPrime(c, 1)
  {
    var c1 := c.(L := RotateCW(c.L));
    MoveLwIs(c, 1);
    MoveLwPrimeIs(c, 1);
    LwLayersUnfold(c1, 1);
    LwPrimeLayersUnfold(c, 1);
  }

  /** R and R' are the one-layer Rw and Rw'. */
  lemma MoveRIsWide(c: Cube)
    requires Valid(c)
    ensures MoveR(c) == MoveRw(c, 1)
    ensures MoveRPrime(c) == MoveRwPrime(c, 1)
  {
    var c1 := c.(R := RotateCW(c.R));
    MoveRwIs(c, 1);
    MoveRwPrimeIs(c, 1);
    RwLayersUnfold(c1, 1);
    RwPrimeLayersUnfold(c, 1);
  }

  /** F and F' are the one-layer Fw and Fw'. */
  lemma MoveFIsWide(c: Cube)
    requires Valid(c)
    ensures MoveF(c) == MoveFw(c, 1)
    ensures MoveFPrime(c) == MoveFwPrime(c, 1)
  {
    var c1 := c.(F := RotateCW(c.F));
    MoveFwIs(c, 1);
    MoveFwPrimeIs(c, 1);
    FwLayersUnfold(c1, c.n - 1, 1);
    FwPrimeLayersUnfold(c, c.n - 1, 1);
  }

  /** B and B' are the one-layer Bw and Bw'. */
  lemma MoveBIsWide(c: Cube)
    requires Valid(c)
    ensures MoveB(c) == MoveBw(c, 1)
    ensures MoveBPrime(c) == MoveBwPrime(c, 1)
  {
    var c1 := c.(B := RotateCW(c.B));
    MoveBwIs(c, 1);
    MoveBwPrimeIs(c, 1);
    BwLayersUnfold(c1, 1);
    BwPrimeLayersUnfold(c, 1);
  }

  /**
    Where U puts every facelet: U turns a quarter clockwise, D stays, one
    ribbon of each side face is replaced by its neighbour's, and every
    other cell stays where it was.
  */
  lemma MoveUCells(c: Cube)
    requires Valid(c)
    ensures MoveU(c).U == RotateCW(c.U) && MoveU(c).D == c.D
    ensures forall y | 0 <= y < c.n :: MoveU(c).F[0][y] == c.R[0][y]
    ensures forall x, y | 0 <= x < c.n && 0 <= y < c.n && x != 0 :: MoveU(c).F[x][y] == c.F[x][y]
    ensures forall y | 0 <= y < c.n :: MoveU(c).R[0][y] == c.B[0][y]
    ensures forall x, y | 0 <= x < c.n && 0 <= y < c.n && x != 0 :: MoveU(c).R[x][y] == c.R[x][y]
    ensures forall y | 0 <= y < c.n :: MoveU(c).B[0][y] == c.L[0][y]
    ensures forall x, y | 0 <= x < c.n && 0 <= y < c.n && x != 0 :: MoveU(c).B[x][y] == c.B[x][y]
    ensures forall y | 0 <= y < c.n :: MoveU(c).L[0][y] == c.F[0][y]
    ensures forall x, y | 0 <= x < c.n && 0 <= y < c.n && x != 0 :: MoveU(c).L[x][y] == c.L[x][y]
  {
    hide *;
    MoveUIsWide(c);
    ValidFaces(c);
    MoveUwFaces(c, 1);
    MoveUwCellsF(c, 1);
    MoveUwCellsR(c, 1);
    MoveUwCellsB(c, 1);
    MoveUwCellsL(c, 1);
  }

  /**
    Where U' puts every facelet: U turns a quarter counterclockwise, D stays, one
    ribbon of each side face is replaced by its neighbour's, and every
    other cell stays where it was.
  */
  lemma MoveUPrimeCells(c: Cube)
    requires Valid(c)
    ensures MoveUPrime(c).U == RotateCCW(c.U) && MoveUPrime(c).D == c.D
    ensures forall y | 0 <= y < c.n :: MoveUPrime(c).F[0][y] == c.L[0][y]
    ensures forall x, y | 0 <= x < c.n && 0 <= y < c.n && x != 0 :: MoveUPrime(c).F[x][y] == c.F[x][y]
    ensures forall y | 0 <= y < c.n :: MoveUPrime(c).L[0][y] == c.B[0][y]
    ensures forall x, y | 0 <= x < c.n && 0 <= y < c.n && x != 0 :: MoveUPrime(c).L[x][y] == c.L[x][y]
    ensures forall y | 0 <= y < c.n :: MoveUPrime(c).B[0][y] == c.R[0][y]
    ensures forall x, y | 0 <= x < c.n && 0 <= y < c.n && x != 0 :: MoveUPrime(c).B[x][y] == c.B[x][y]
    ensures forall y | 0 <= y < c.n :: MoveUPrime(c).R[0][y] == c.F[0][y]
    ensures forall x, y | 0 <= x < c.n && 0 <= y < c.n && x != 0 :: MoveUPrime(c).R[x][y] == c.R[x][y]
  {
    hide *;
    MoveUIsWide(c);
    ValidFaces(c);
    MoveUwPrimeFaces(c, 1);
    MoveUwPrimeCellsF(c, 1);
    MoveUwPrimeCellsL(c, 1);
    MoveUwPrimeCellsB(c, 1);
    MoveUwPrimeCellsR(c, 1);
  }

  /** U' undoes U, and U undoes U'. */
  lemma MoveUInverse(c: Cube)
    requires Valid(c)
    ensures MoveUPrime(MoveU(c)) == c
    ensures MoveU(MoveUPrime(c)) == c
  {
    hide *;
    ValidFaces(c);
    MoveUIsWide(c);
    MoveUIsWide(MoveU(c));
    MoveUIsWide(MoveUPrime(c));
    MoveUwInverse(c, 1);
    MoveUwPrimeInverse(c, 1);
  }

  /** Four U turns, or four U' turns, give the cube back. */
  lemma MoveUOrderFour(c: Cube)
    requires Valid(c)
    ensures MoveU(MoveU(MoveU(MoveU(c)))) == c
    ensures MoveUPrime(MoveUPrime(MoveUPrime(MoveUPrime(c)))) == c
  {
    hide *;
    ValidFaces(c);
    var a1 := MoveU(c);
    var a2 := MoveU(a1);
    var a3 := MoveU(a2);
    var b1 := MoveUPrime(c);
    var b2 := MoveUPrime(b1);
    var b3 := MoveUPrime(b2);
    MoveUIsWide(c);
    MoveUIsWide(a1);
    MoveUIsWide(a2);
    MoveUIsWide(a3);
    MoveUIsWide(b1);
    MoveUIsWide(b2);
    MoveUIsWide(b3);
    MoveUwOrderFour(c, 1);
    MoveUwPrimeOrderFour(c, 1);
  }

  /** U2 is its own inverse, and it equals two U' turns. */
  lemma MoveU2Laws(c: Cube)
    requires Valid(c)
    ensures MoveU2(MoveU2(c)) == c
    ensures MoveU2(c) == MoveUPrime(MoveUPrime(c))
  {
    var a2 := MoveU(MoveU(c));
    MoveUOrderFour(c);
    MoveUInverse(MoveU(a2));
    MoveUInverse(a2);
  }

  /**
    Where D puts every facelet: D turns a quarter clockwise, U stays, one
    ribbon of each side face is replaced by its neighbour's, and every
    other cell stays where it was.
  */
  lemma MoveDCells(c: Cube)
    requires Valid(c)
    ensures MoveD(c).D == RotateCW(c.D) && MoveD(c).U == c.U
    ensures forall x, y | x == c.n - 1 && 0 <= y < c.n :: MoveD(c).F[x][y] == c.L[x][y]
    ensures forall x, y | 0 <= x < c.n && 0 <= y < c.n && x != c.n - 1 :: MoveD(c).F[x][y] == c.F[x][y]
    ensures forall x, y | x == c.n - 1 && 0 <= y < c.n :: MoveD(c).L[x][y] == c.B[x][y]
    ensures forall x, y | 0 <= x < c.n && 0 <= y < c.n && x != c.n - 1 :: MoveD(c).L[x][y] == c.L[x][y]
    ensures forall x, y | x == c.n - 1 && 0 <= y < c.n :: MoveD(c).B[x][y] == c.R[x][y]
    ensures forall x, y | 0 <= x < c.n && 0 <= y < c.n && x != c.n - 1 :: MoveD(c).B[x][y] == c.B[x][y]
    ensures forall x, y | x == c.n - 1 && 0 <= y < c.n :: MoveD(c).R[x][y] == c.F[x][y]
    ensures forall x, y | 0 <= x < c.n && 0 <= y < c.n && x != c.n - 1 :: MoveD(c).R[x][y] == c.R[x][y]
  {
    hide *;
    MoveDIsWide(c);
    ValidFaces(c);
    MoveDwFaces(c, 1);
    MoveDwCellsF(c, 1);
    MoveDwCellsL(c, 1);
    MoveDwCellsB(c, 1);
    MoveDwCellsR(c, 1);
  }

  /**
    Where D' puts every facelet: D turns a quarter counterclockwise, U stays, one
    ribbon of each side face is replaced by its neighbour's, and every
    other cell stays where it was.
  */
  lemma MoveDPrimeCells(c: Cube)
    requires Valid(c)
    ensures MoveDPrime(c).D == RotateCCW(c.D) && MoveDPrime(c).U == c.U
    ensures forall x, y | x == c.n - 1 && 0 <= y < c.n :: MoveDPrime(c).F[x][y] == c.R[x][y]
    ensures forall x, y | 0 <= x < c.n && 0 <= y < c.n && x != c.n - 1 :: MoveDPrime(c).F[x][y] == c.F[x][y]
    ensures forall x, y | x == c.n - 1 && 0 <= y < c.n :: MoveDPrime(c).R[x][y] == c.B[x][y]
    ensures forall x, y | 0 <= x < c.n && 0 <= y < c.n && x != c.n - 1 :: MoveDPrime(c).R[x][y] == c.R[x][y]
    ensures forall x, y | x == c.n - 1 && 0 <= y < c.n :: MoveDPrime(c).B[x][y] == c.L[x][y]
    ensures forall x, y | 0 <= x < c.n && 0 <= y < c.n && x != c.n - 1 :: MoveDPrime(c).B[x][y] == c.B[x][y]
    ensures forall x, y | x == c.n - 1 && 0 <= y < c.n :: MoveDPrime(c).L[x][y] == c.F[x][y]
    ensures forall x, y | 0 <= x < c.n && 0 <= y < c.n && x != c.n - 1 :: MoveDPrime(c).L[x][y] == c.L[x][y]
  {
    hide *;
    MoveDIsWide(c);
    ValidFaces(c);
    MoveDwPrimeFaces(c, 1);
    MoveDwPrimeCellsF(c, 1);
    MoveDwPrimeCellsR(c, 1);
    MoveDwPrimeCellsB(c, 1);
    MoveDwPrimeCellsL(c, 1);
  }

  /** D' undoes D, and D undoes D'. */
  lemma MoveDInverse(c: Cube)
    requires Valid(c)
    ensures MoveDPrime(MoveD(c)) == c
    ensures MoveD(MoveDPrime(c)) == c
  {
    hide *;
    ValidFaces(c);
    MoveDIsWide(c);
    MoveDIsWide(MoveD(c));
    MoveDIsWide(MoveDPrime(c));
    MoveDwInverse(c, 1);
    MoveDwPrimeInverse(c, 1);
  }

  /** Four D turns, or four D' turns, give the cube back. */
  lemma MoveDOrderFour(c: Cube)
    requires Valid(c)
    ensures MoveD(MoveD(MoveD(MoveD(c)))) == c
    ensures MoveDPrime(MoveDPrime(MoveDPrime(MoveDPrime(c)))) == c
  {
    hide *;
    ValidFaces(c);
    var a1 := MoveD(c);
    var a2 := MoveD(a1);
    var a3 := MoveD(a2);
    var b1 := MoveDPrime(c);
    var b2 := MoveDPrime(b1);
    var b3 := MoveDPrime(b2);
    MoveDIsWide(c);
    MoveDIsWide(a1);
    MoveDIsWide(a2);
    MoveDIsWide(a3);
    MoveDIsWide(b1);
    MoveDIsWide(b2);
    MoveDIsWide(b3);
    MoveDwOrderFour(c, 1);
    MoveDwPrimeOrderFour(c, 1);
  }

  /** D2 is its own inverse, and it equals two D' turns. */
  lemma MoveD2Laws(c: Cube)
    requires Valid(c)
    ensures MoveD2(MoveD2(c)) == c
    ensures MoveD2(c) == MoveDPrime(MoveDPrime(c))
  {
    var a2 := MoveD(MoveD(c));
    MoveDOrderFour(c);
    MoveDInverse(MoveD(a2));
    MoveDInverse(a2);
  }

  /**
    Where L puts every facelet: L turns a quarter clockwise, R stays, one
    ribbon of each side face is replaced by its neighbour's, and every
    other cell stays where it was.
  */
  lemma MoveLCells(c: Cube)
    requires Valid(c)
    ensures MoveL(c).L == RotateCW(c.L) && MoveL(c).R == c.R
    ensures forall x | 0 <= x < c.n :: MoveL(c).U[x][0] == c.B[c.n - 1 - x][c.n - 1]
    ensures forall x, y | 0 <= x < c.n && 0 <= y < c.n && y != 0 :: MoveL(c).U[x][y] == c.U[x][y]
    ensures forall x, y | 0 <= x < c.n && y == c.n - 1 :: MoveL(c).B[x][y] == c.D[c.n - 1 - x][0]
    ensures forall x, y | 0 <= x < c.n && 0 <= y < c.n && y != c.n - 1 :: MoveL(c).B[x][y] == c.B[x][y]
    ensures forall x | 0 <= x < c.n :: MoveL(c).D[x][0] == c.F[x][0]
    ensures forall x, y | 0 <= x < c.n && 0 <= y < c.n && y != 0 :: MoveL(c).D[x][y] == c.D[x][y]
    ensures forall x | 0 <= x < c.n :: MoveL(c).F[x][0] == c.U[x][0]
    ensures forall x, y | 0 <= x < c.n && 0 <= y < c.n && y != 0 :: MoveL(c).F[x][y] == c.F[x][y]
  {
    hide *;
    MoveLIsWide(c);
    ValidFaces(c);
    MoveLwFaces(c, 1);
    MoveLwCellsU(c, 1);
    MoveLwCellsB(c, 1);
    MoveLwCellsD(c, 1);
    MoveLwCellsF(c, 1);
  }

  /**
    Where L' puts every facelet: L turns a quarter counterclockwise, R stays, one
    ribbon of each side face is replaced by its neighbour's, and every
    other cell stays where it was.
  */
  lemma MoveLPrimeCells(c: Cube)
    requires Valid(c)
    ensures MoveLPrime(c).L == RotateCCW(c.L) && MoveLPrime(c).R == c.R
    ensures forall x | 0 <= x < c.n :: MoveLPrime(c).U[x][0] == c.F[x][0]
    ensures forall x, y | 0 <= x < c.n && 0 <= y < c.n && y != 0 :: MoveLPrime(c).U[x][y] == c.U[x][y]
    ensures forall x | 0 <= x < c.n :: MoveLPrime(c).F[x][0] == c.D[x][0]
    ensures forall x, y | 0 <= x < c.n && 0 <= y < c.n && y != 0 :: MoveLPrime(c).F[x][y] == c.F[x][y]
    ensures forall x | 0 <= x < c.n :: MoveLPrime(c).D[x][0] == c.B[c.n - 1 - x][c.n - 1]
    ensures forall x, y | 0 <= x < c.n && 0 <= y < c.n && y != 0 :: MoveLPrime(c).D[x][y] == c.D[x][y]
    ensures forall x, y | 0 <= x < c.n && y == c.n - 1 :: MoveLPrime(c).B[x][y] == c.U[c.n - 1 - x][0]
    ensures forall x, y | 0 <= x < c.n && 0 <= y < c.n && y != c.n - 1 :: MoveLPrime(c).B[x][y] == c.B[x][y]
  {
    hide *;
    MoveLIsWide(c);
    ValidFaces(c);
    MoveLwPrimeFaces(c, 1);
    MoveLwPrimeCellsU(c, 1);
    MoveLwPrimeCellsF(c, 1);
    MoveLwPrimeCellsD(c, 1);
    MoveLwPrimeCellsB(c, 1);
  }

  /** L' undoes L, and L undoes L'. */
  lemma MoveLInverse(c: Cube)
    requires Valid(c)
    ensures MoveLPrime(MoveL(c)) == c
    ensures MoveL(MoveLPrime(c)) == c
  {
    hide *;
    ValidFaces(c);
    MoveLIsWide(c);
    MoveLIsWide(MoveL(c));
    MoveLIsWide(MoveLPrime(c));
    MoveLwInverse(c, 1);
    MoveLwPrimeInverse(c, 1);
  }

  /** Four L turns, or four L' turns, give the cube back. */
  lemma MoveLOrderFour(c: Cube)
    requires Valid(c)
    ensures MoveL(MoveL(MoveL(MoveL(c)))) == c
    ensures MoveLPrime(MoveLPrime(MoveLPrime(MoveLPrime(c)))) == c
  {
    hide *;
    ValidFaces(c);
    var a1 := MoveL(c);
    var a2 := MoveL(a1);
    var a3 := MoveL(a2);
    var b1 := MoveLPrime(c);
    var b2 := MoveLPrime(b1);
    var b3 := MoveLPrime(b2);
    MoveLIsWide(c);
    MoveLIsWide(a1);
    MoveLIsWide(a2);
    MoveLIsWide(a3);
    MoveLIsWide(b1);
    MoveLIsWide(b2);
    MoveLIsWide(b3);
    MoveLwOrderFour(c, 1);
    MoveLwPrimeOrderFour(c, 1);
  }

  /** L2 is its own inverse, and it equals two L' turns. */
  lemma MoveL2Laws(c: Cube)
    requires Valid(c)
    ensures MoveL2(MoveL2(c)) == c
    ensures MoveL2(c) == MoveLPrime(MoveLPrime(c))
  {
    var a2 := MoveL(MoveL(c));
    MoveLOrderFour(c);
    MoveLInverse(MoveL(a2));
    MoveLInverse(a2);
  }

  /**
    Where R puts every facelet: R turns a quarter clockwise, L stays, one
    ribbon of each side face is replaced by its neighbour's, and every
    other cell stays where it was.
  */
  lemma MoveRCells(c: Cube)
    requires Valid(c)
    ensures MoveR(c).R == RotateCW(c.R) && MoveR(c).L == c.L
    ensures forall x, y | 0 <= x < c.n && y == c.n - 1 :: MoveR(c).U[x][y] == c.B[c.n - 1 - x][0]
    ensures forall x, y | 0 <= x < c.n && 0 <= y < c.n && y != c.n - 1 :: MoveR(c).U[x][y] == c.U[x][y]
    ensures forall x | 0 <= x < c.n :: MoveR(c).B[x][0] == c.D[c.n - 1 - x][c.n - 1]
    ensures forall x, y | 0 <= x < c.n && 0 <= y < c.n && y != 0 :: MoveR(c).B[x][y] == c.B[x][y]
    ensures forall x, y | 0 <= x < c.n && y == c.n - 1 :: MoveR(c).D[x][y] == c.F[x][y]
    ensures forall x, y | 0 <= x < c.n && 0 <= y < c.n && y != c.n - 1 :: MoveR(c).D[x][y] == c.D[x][y]
    ensures forall x, y | 0 <= x < c.n && y == c.n - 1 :: MoveR(c).F[x][y] == c.U[x][y]
    ensures forall x, y | 0 <= x < c.n && 0 <= y < c.n && y != c.n - 1 :: MoveR(c).F[x][y] == c.F[x][y]
  {
    hide *;
    MoveRIsWide(c);
    ValidFaces(c);
    MoveRwFaces(c, 1);
    MoveRwCellsU(c, 1);
    MoveRwCellsB(c, 1);
    MoveRwCellsD(c, 1);
    MoveRwCellsF(c, 1);
  }

  /**
    Where R' puts every facelet: R turns a quarter counterclockwise, L stays, one
    ribbon of each side face is replaced by its neighbour's, and every
    other cell stays where it was.
  */
  lemma MoveRPrimeCells(c: Cube)
    requires Valid(c)
    ensures MoveRPrime(c).R == RotateCCW(c.R) && MoveRPrime(c).L == c.L
    ensures forall x, y | 0 <= x < c.n && y == c.n - 1 :: MoveRPrime(c).U[x][y] == c.F[x][y]
    ensures forall x, y | 0 <= x < c.n && 0 <= y < c.n && y != c.n - 1 :: MoveRPrime(c).U[x][y] == c.U[x][y]
    ensures forall x, y | 0 <= x < c.n && y == c.n - 1 :: MoveRPrime(c).F[x][y] == c.D[x][y]
    ensures forall x, y | 0 <= x < c.n && 0 <= y < c.n && y != c.n - 1 :: MoveRPrime(c).F[x][y] == c.F[x][y]
    ensures forall x, y | 0 <= x < c.n && y == c.n - 1 :: MoveRPrime(c).D[x][y] == c.B[c.n - 1 - x][0]
    ensures forall x, y | 0 <= x < c.n && 0 <= y < c.n && y != c.n - 1 :: MoveRPrime(c).D[x][y] == c.D[x][y]
    ensures forall x | 0 <= x < c.n :: MoveRPrime(c).B[x][0] == c.U[c.n - 1 - x][c.n - 1]
    ensures forall x, y | 0 <= x < c.n && 0 <= y < c.n && y != 0 :: MoveRPrime(c).B[x][y] == c.B[x][y]
  {
    hide *;
    MoveRIsWide(c);
    ValidFaces(c);
    MoveRwPrimeFaces(c, 1);
    MoveRwPrimeCellsU(c, 1);
    MoveRwPrimeCellsF(c, 1);
    MoveRwPrimeCellsD(c, 1);
    MoveRwPrimeCellsB(c, 1);
  }

  /** R' undoes R, and R undoes R'. */
  lemma MoveRInverse(c: Cube)
    requires Valid(c)
    ensures MoveRPrime(MoveR(c)) == c
    ensures MoveR(MoveRPrime(c)) == c
  {
    hide *;
    ValidFaces(c);
    MoveRIsWide(c);
    MoveRIsWide(MoveR(c));
    MoveRIsWide(MoveRPrime(c));
    MoveRwInverse(c, 1);
    MoveRwPrimeInverse(c, 1);
  }

  /** Four R turns, or four R' turns, give the cube back. */
  lemma MoveROrderFour(c: Cube)
    requires Valid(c)
    ensures MoveR(MoveR(MoveR(MoveR(c)))) == c
    ensures MoveRPrime(MoveRPrime(MoveRPrime(MoveRPrime(c)))) == c
  {
    hide *;
    ValidFaces(c);
    var a1 := MoveR(c);
    var a2 := MoveR(a1);
    var a3 := MoveR(a2);
    var b1 := MoveRPrime(c);
    var b2 := MoveRPrime(b1);
    var b3 := MoveRPrime(b2);
    MoveRIsWide(c);
    MoveRIsWide(a1);
    MoveRIsWide(a2);
    MoveRIsWide(a3);
    MoveRIsWide(b1);
    MoveRIsWide(b2);
    MoveRIsWide(b3);
    MoveRwOrderFour(c, 1);
    MoveRwPrimeOrderFour(c, 1);
  }

  /** R2 is its own inverse, and it equals two R' turns. */
  lemma MoveR2Laws(c: Cube)
    requires Valid(c)
    ensures MoveR2(MoveR2(c)) == c
    ensures MoveR2(c) == MoveRPrime(MoveRPrime(c))
  {
    var a2 := MoveR(MoveR(c));
    MoveROrderFour(c);
    MoveRInverse(MoveR(a2));
    MoveRInverse(a2);
  }

  /**
    Where F puts every facelet: F turns a quarter clockwise, B stays, one
    ribbon of each side face is replaced by its neighbour's, and every
    other cell stays where it was.
  */
  lemma MoveFCells(c: Cube)
    requires Valid(c)
    ensures MoveF(c).F == RotateCW(c.F) && MoveF(c).B == c.B
    ensures forall x, y | x == c.n - 1 && 0 <= y < c.n :: MoveF(c).U[x][y] == c.L[c.n - 1 - y][c.n - 1]
    ensures forall x, y | 0 <= x < c.n && 0 <= y < c.n && x != c.n - 1 :: MoveF(c).U[x][y] == c.U[x][y]
    ensures forall x, y | 0 <= x < c.n && y == c.n - 1 :: MoveF(c).L[x][y] == c.D[0][x]
    ensures forall x, y | 0 <= x < c.n && 0 <= y < c.n && y != c.n - 1 :: MoveF(c).L[x][y] == c.L[x][y]
    ensures forall y | 0 <= y < c.n :: MoveF(c).D[0][y] == c.R[c.n - 1 - y][0]
    ensures forall x, y | 0 <= x < c.n && 0 <= y < c.n && x != 0 :: MoveF(c).D[x][y] == c.D[x][y]
    ensures forall x | 0 <= x < c.n :: MoveF(c).R[x][0] == c.U[c.n - 1][x]
    ensures forall x, y | 0 <= x < c.n && 0 <= y < c.n && y != 0 :: MoveF(c).R[x][y] == c.R[x][y]
  {
    hide *;
    MoveFIsWide(c);
    ValidFaces(c);
    MoveFwFaces(c, 1);
    MoveFwCellsU(c, 1);
    MoveFwCellsL(c, 1);
    MoveFwCellsD(c, 1);
    MoveFwCellsR(c, 1);
  }

  /**
    Where F' puts every facelet: F turns a quarter counterclockwise, B stays, one
    ribbon of each side face is replaced by its neighbour's, and every
    other cell stays where it was.
  */
  lemma MoveFPrimeCells(c: Cube)
    requires Valid(c)
    ensures MoveFPrime(c).F == RotateCCW(c.F) && MoveFPrime(c).B == c.B
    ensures forall x, y | x == c.n - 1 && 0 <= y < c.n :: MoveFPrime(c).U[x][y] == c.R[y][0]
    ensures forall x, y | 0 <= x < c.n && 0 <= y < c.n && x != c.n - 1 :: MoveFPrime(c).U[x][y] == c.U[x][y]
    ensures forall x | 0 <= x < c.n :: MoveFPrime(c).R[x][0] == c.D[0][c.n - 1 - x]
    ensures forall x, y | 0 <= x < c.n && 0 <= y < c.n && y != 0 :: MoveFPrime(c).R[x][y] == c.R[x][y]
    ensures forall y | 0 <= y < c.n :: MoveFPrime(c).D[0][y] == c.L[y][c.n - 1]
    ensures forall x, y | 0 <= x < c.n && 0 <= y < c.n && x != 0 :: MoveFPrime(c).D[x][y] == c.D[x][y]
    ensures forall x, y | 0 <= x < c.n && y == c.n - 1 :: MoveFPrime(c).L[x][y] == c.U[c.n - 1][c.n - 1 - x]
    ensures forall x, y | 0 <= x < c.n && 0 <= y < c.n && y != c.n - 1 :: MoveFPrime(c).L[x][y] == c.L[x][y]
  {
    hide *;
    MoveFIsWide(c);
    ValidFaces(c);
    MoveFwPrimeFaces(c, 1);
    MoveFwPrimeCellsU(c, 1);
    MoveFwPrimeCellsR(c, 1);
    MoveFwPrimeCellsD(c, 1);
    MoveFwPrimeCellsL(c, 1);
  }

  /** F' undoes F, and F undoes F'. */
  lemma MoveFInverse(c: Cube)
    requires Valid(c)
    ensures MoveFPrime(MoveF(c)) == c
    ensures MoveF(MoveFPrime(c)) == c
  {
    hide *;
    ValidFaces(c);
    MoveFIsWide(c);
    MoveFIsWide(MoveF(c));
    MoveFIsWide(MoveFPrime(c));
    MoveFwInverse(c, 1);
    MoveFwPrimeInverse(c, 1);
  }

  /** Four F turns, or four F' turns, give the cube back. */
  lemma MoveFOrderFour(c: Cube)
    requires Valid(c)
    ensures MoveF(MoveF(MoveF(MoveF(c)))) == c
    ensures MoveFPrime(MoveFPrime(MoveFPrime(MoveFPrime(c)))) == c
  {
    hide *;
    ValidFaces(c);
    var a1 := MoveF(c);
    var a2 := MoveF(a1);
    var a3 := MoveF(a2);
    var b1 := MoveFPrime(c);
    var b2 := MoveFPrime(b1);
    var b3 := MoveFPrime(b2);
    MoveFIsWide(c);
    MoveFIsWide(a1);
    MoveFIsWide(a2);
    MoveFIsWide(a3);
    MoveFIsWide(b1);
    MoveFIsWide(b2);
    MoveFIsWide(b3);
    MoveFwOrderFour(c, 1);
    MoveFwPrimeOrderFour(c, 1);
  }

  /** F2 is its own inverse, and it equals two F' turns. */
  lemma MoveF2Laws(c: Cube)
    requires Valid(c)
    ensures MoveF2(MoveF2(c)) == c
    ensures MoveF2(c) == MoveFPrime(MoveFPrime(c))
  {
    var a2 := MoveF(MoveF(c));
    MoveFOrderFour(c);
    MoveFInverse(MoveF(a2));
    MoveFInverse(a2);
  }

  /**
    Where B puts every facelet: B turns a quarter clockwise, F stays, one
    ribbon of each side face is replaced by its neighbour's, and every
    other cell stays where it was.
  */
  lemma MoveBCells(c: Cube)
    requires Valid(c)
    ensures MoveB(c).B == RotateCW(c.B) && MoveB(c).F == c.F
    ensures forall y | 0 <= y < c.n :: MoveB(c).U[0][y] == c.R[c.n - 1 - y][c.n - 1]
    ensures forall x, y | 0 <= x < c.n && 0 <= y < c.n && x != 0 :: MoveB(c).U[x][y] == c.U[x][y]
    ensures forall x, y | 0 <= x < c.n && y == c.n - 1 :: MoveB(c).R[x][y] == c.D[c.n - 1][x]
    ensures forall x, y | 0 <= x < c.n && 0 <= y < c.n && y != c.n - 1 :: MoveB(c).R[x][y] == c.R[x][y]
    ensures forall x, y | x == c.n - 1 && 0 <= y < c.n :: MoveB(c).D[x][y] == c.L[c.n - 1 - y][0]
    ensures forall x, y | 0 <= x < c.n && 0 <= y < c.n && x != c.n - 1 :: MoveB(c).D[x][y] == c.D[x][y]
    ensures forall x | 0 <= x < c.n :: MoveB(c).L[x][0] == c.U[0][x]
    ensures forall x, y | 0 <= x < c.n && 0 <= y < c.n && y != 0 :: MoveB(c).L[x][y] == c.L[x][y]
  {
    hide *;
    MoveBIsWide(c);
    ValidFaces(c);
    MoveBwFaces(c, 1);
    MoveBwCellsU(c, 1);
    MoveBwCellsR(c, 1);
    MoveBwCellsD(c, 1);
    MoveBwCellsL(c, 1);
  }

  /**
    Where B' puts every facelet: B turns a quarter counterclockwise, F stays, one
    ribbon of each side face is replaced by its neighbour's, and every
    other cell stays where it was.
  */
  lemma MoveBPrimeCells(c: Cube)
    requires Valid(c)
    ensures MoveBPrime(c).B == RotateCCW(c.B) && MoveBPrime(c).F == c.F
    ensures forall y | 0 <= y < c.n :: MoveBPrime(c).U[0][y] == c.L[y][0]
    ensures forall x, y | 0 <= x < c.n && 0 <= y < c.n && x != 0 :: MoveBPrime(c).U[x][y] == c.U[x][y]
    ensures forall x | 0 <= x < c.n :: MoveBPrime(c).L[x][0] == c.D[c.n - 1][c.n - 1 - x]
    ensures forall x, y | 0 <= x < c.n && 0 <= y < c.n && y != 0 :: MoveBPrime(c).L[x][y] == c.L[x][y]
    ensures forall x, y | x == c.n - 1 && 0 <= y < c.n :: MoveBPrime(c).D[x][y] == c.R[y][c.n - 1]
    ensures forall x, y | 0 <= x < c.n && 0 <= y < c.n && x != c.n - 1 :: MoveBPrime(c).D[x][y] == c.D[x][y]
    ensures forall x, y | 0 <= x < c.n && y == c.n - 1 :: MoveBPrime(c).R[x][y] == c.U[0][c.n - 1 - x]
    ensures forall x, y | 0 <= x < c.n && 0 <= y < c.n && y != c.n - 1 :: MoveBPrime(c).R[x][y] == c.R[x][y]
  {
    hide *;
    MoveBIsWide(c);
    ValidFaces(c);
    MoveBwPrimeFaces(c, 1);
    MoveBwPrimeCellsU(c, 1);
    MoveBwPrimeCellsL(c, 1);
    MoveBwPrimeCellsD(c, 1);
    MoveBwPrimeCellsR(c, 1);
  }

  /** B' undoes B, and B undoes B'. */
  lemma MoveBInverse(c: Cube)
    requires Valid(c)
    ensures MoveBPrime(MoveB(c)) == c
    ensures MoveB(MoveBPrime(c)) == c
  {
    hide *;
    ValidFaces(c);
    MoveBIsWide(c);
    MoveBIsWide(MoveB(c));
    MoveBIsWide(MoveBPrime(c));
    MoveBwInverse(c, 1);
    MoveBwPrimeInverse(c, 1);
  }

  /** Four B turns, or four B' turns, give the cube back. */
  lemma MoveBOrderFour(c: Cube)
    requires Valid(c)
    ensures MoveB(MoveB(MoveB(MoveB(c)))) == c
    ensures MoveBPrime(MoveBPrime(MoveBPrime(MoveBPrime(c)))) == c
  {
    hide *;
    ValidFaces(c);
    var a1 := MoveB(c);
    var a2 := MoveB(a1);
    var a3 := MoveB(a2);
    var b1 := MoveBPrime(c);
    var b2 := MoveBPrime(b1);
    var b3 := MoveBPrime(b2);
    MoveBIsWide(c);
    MoveBIsWide(a1);
    MoveBIsWide(a2);
    MoveBIsWide(a3);
    MoveBIsWide(b1);
    MoveBIsWide(b2);
    MoveBIsWide(b3);
    MoveBwOrderFour(c, 1);
    MoveBwPrimeOrderFour(c, 1);
  }

  /** B2 is its own inverse, and it equals two B' turns. */
  lemma MoveB2Laws(c: Cube)
    requires Valid(c)
    ensures MoveB2(MoveB2(c)) == c
    ensures MoveB2(c) == MoveBPrime(MoveBPrime(c))
  {
    var a2 := MoveB(MoveB(c));
    MoveBOrderFour(c);
    MoveBInverse(MoveB(a2));
    MoveBInverse(a2);
  }
}
