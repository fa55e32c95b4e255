/**
  The slice turns: the middle column slice M, the middle row slice E and
  the standing slice S, each with its inverse. The slice is the one at
  index n/2 (rounded down); the source describes slices as meant for odd
  n but does not check it, so the model takes every n >= 1.
*/
module SliceMoves {
  import opened Grids
  import opened Cubes

  /** The index of the middle slice: n/2 rounded down, below n. */
  function Mid(n: nat): (m: nat)
    requires n >= 1
    ensures m < n && n <= 2 * m + 1
  {
    n / 2
  }

  /**
    Turn the middle column slice (the column at index `Mid(n)` of U, F, D
    and B) the way L' turns: U takes F, F takes D, D takes B reversed, B
    takes U reversed. The source copies cell by cell; writing a whole
    column is the same, as each loop writes one face from another.
  */
  function MoveM(c: Cube): (c': Cube)
    requires Valid(c)
    ensures Valid(c') && c'.n == c.n
    ensures c'.L == c.L && c'.R == c.R
  {
    var m := Mid(c.n);
    var temp := Col(c.U, m);
    var U := SetCol(c.U, m, Col(c.F, m));
    var F := SetCol(c.F, m, Col(c.D, m));
    var colB := Col(c.B, m);
    var D := SetCol(c.D, m, Rev(colB));
    var B := SetCol(c.B, m, Rev(temp));
    c.(U := U, F := F, D := D, B := B)
  }

  /**
    The middle column slice turned back: U takes B reversed, B takes D
    reversed, D takes F, F takes U. The source also copies B's column into
    a list it never reads; that copy has no effect and is left out.
  */
  function MoveMPrime(c: Cube): (c': Cube)
    requires Valid(c)
    ensures Valid(c') && c'.n == c.n
    ensures c'.L == c.L && c'.R == c.R
  {
    var m := Mid(c.n);
    var temp := Col(c.U, m);
    var U := SetCol(c.U, m, Rev(Col(c.B, m)));
    var B := SetCol(c.B, m, Rev(Col(c.D, m)));
    var D := SetCol(c.D, m, Col(c.F, m));
    var F := SetCol(c.F, m, temp);
    c.(U := U, B := B, D := D, F := F)
  }

  /**
    Turn the middle row slice: row `Mid(n)` of F, R, B and L runs
    F <- R <- B <- L <- F.
  */
  function MoveE(c: Cube): (c': Cube)
    requires Valid(c)
    ensures Valid(c') && c'.n == c.n
    ensures c'.U == c.U && c'.D == c.D
  {
    var m := Mid(c.n);
    var temp := Row(c.F, m);
    var F := SetRow(c.F, m, Row(c.R, m));
    var R := SetRow(c.R, m, Row(c.B, m));
    var B := SetRow(c.B, m, Row(c.L, m));
    var L := SetRow(c.L, m, temp);
    c.(F := F, R := R, B := B, L := L)
  }

  /**
    The middle row slice turned back: F <- L <- B <- R <- F.
  */
  function MoveEPrime(c: Cube): (c': Cube)
    requires Valid(c)
    ensures Valid(c') && c'.n == c.n
    ensures c'.U == c.U && c'.D == c.D
  {
    var m := Mid(c.n);
    var temp := Row(c.F, m);
    var F := SetRow(c.F, m, Row(c.L, m));
    var L := SetRow(c.L, m, Row(c.B, m));
    var B := SetRow(c.B, m, Row(c.R, m));
    var R := SetRow(c.R, m, temp);
    c.(F := F, L := L, B := B, R := R)
  }

  /**
    Turn the standing slice the way F turns: U's middle row takes L's
    middle column reversed, L's middle column takes D's middle row, D's
    middle row takes R's middle column reversed, R's middle column takes
    U's middle row.
  */
  function MoveS(c: Cube): (c': Cube)
    requires Valid(c)
    ensures Valid(c') && c'.n == c.n
    ensures c'.F == c.F && c'.B == c.B
  {
    var m := Mid(c.n);
    var temp := Row(c.U, m);
    var colL := Col(c.L, m);
    var U := SetRow(c.U, m, Rev(colL));
    var dRow := Row(c.D, m);
    var L := SetCol(c.L, m, dRow);
    var colR := Col(c.R, m);
    var D := SetRow(c.D, m, Rev(colR));
    var R := SetCol(c.R, m, temp);
    c.(U := U, L := L, D := D, R := R)
  }

  /**
    The standing slice turned back, exactly as the source writes it: U's
    middle row takes R's middle column, R's middle column takes D's middle
    row reversed, D's middle row takes L's middle column, and L's middle
    column takes U's old middle row NOT reversed. `SPrimeAsWrittenNotInverse`
    shows that this does not undo `MoveS`; `MoveSPrime` is the corrected turn.
  */
  function MoveSPrimeAsWritten(c: Cube): (c': Cube)
    requires Valid(c)
    ensures Valid(c') && c'.n == c.n
    ensures c'.F == c.F && c'.B == c.B
  {
    var m := Mid(c.n);
    var temp := Row(c.U, m);
    var colR := Col(c.R, m);
    var U := SetRow(c.U, m, colR);
    var dRow := Row(c.D, m);
    var R := SetCol(c.R, m, Rev(dRow));
    var colL := Col(c.L, m);
    var D := SetRow(c.D, m, colL);
    var L := SetCol(c.L, m, temp);
    c.(U := U, R := R, D := D, L := L)
  }

  /**
    The standing slice turned back, corrected: as `MoveSPrimeAsWritten`,
    except that L's middle column takes U's old middle row reversed, which
    is what running the cycle of `MoveS` backwards requires.
  */
  function MoveSPrime(c: Cube): (c': Cube)
    requires Valid(c)
    ensures Valid(c') && c'.n == c.n
    ensures c'.F == c.F && c'.B == c.B
  {
    var m := Mid(c.n);
    var temp := Row(c.U, m);
    var colR := Col(c.R, m);
    var U := SetRow(c.U, m, colR);
    var dRow := Row(c.D, m);
    var R := SetCol(c.R, m, Rev(dRow));
    var colL := Col(c.L, m);
    var D := SetRow(c.D, m, colL);
    var L := SetCol(c.L, m, Rev(temp));
    c.(U := U, R := R, D := D, L := L)
  }

  /** Where M puts the facelets of U: its middle column comes from F, every other cell stays. */
  lemma MoveMCellsU(c: Cube)
    requires Valid(c)
    ensures forall x, y | 0 <= x < c.n && y == Mid(c.n) :: MoveM(c).U[x][y] == c.F[x][y]
    ensures forall x, y | 0 <= x < c.n && 0 <= y < c.n && y != Mid(c.n) :: MoveM(c).U[x][y] == c.U[x][y]
  {
  }

  /** Where M puts the facelets of F: its middle column comes from D, every other cell stays. */
  lemma MoveMCellsF(c: Cube)
    requires Valid(c)
    ensures forall x, y | 0 <= x < c.n && y == Mid(c.n) :: MoveM(c).F[x][y] == c.D[x][y]
    ensures forall x, y | 0 <= x < c.n && 0 <= y < c.n && y != Mid(c.n) :: MoveM(c).F[x][y] == c.F[x][y]
  {
  }

  /** Where M puts the facelets of D: its middle column comes from B, every other cell stays. */
  lemma MoveMCellsD(c: Cube)
    requires Valid(c)
    ensures forall x, y | 0 <= x < c.n && y == Mid(c.n) :: MoveM(c).D[x][y] == c.B[c.n - 1 - x][y]
    ensures forall x, y | 0 <= x < c.n && 0 <= y < c.n && y != Mid(c.n) :: MoveM(c).D[x][y] == c.D[x][y]
  {
  }

  /** Where M puts the facelets of B: its middle column comes from U, every other cell stays. */
  lemma MoveMCellsB(c: Cube)
    requires Valid(c)
    ensures forall x, y | 0 <= x < c.n && y == Mid(c.n) :: MoveM(c).B[x][y] == c.U[c.n - 1 - x][y]
    ensures forall x, y | 0 <= x < c.n && 0 <= y < c.n && y != Mid(c.n) :: MoveM(c).B[x][y] == c.B[x][y]
  {
  }

  /** Where M' puts the facelets of U: its middle column comes from B, every other cell stays. */
  lemma MoveMPrimeCellsU(c: Cube)
    requires Valid(c)
    ensures forall x, y | 0 <= x < c.n && y == Mid(c.n) :: MoveMPrime(c).U[x][y] == c.B[c.n - 1 - x][y]
    ensures forall x, y | 0 <= x < c.n && 0 <= y < c.n && y != Mid(c.n) :: MoveMPrime(c).U[x][y] == c.U[x][y]
  {
  }

  /** Where M' puts the facelets of B: its middle column comes from D, every other cell stays. */
  lemma MoveMPrimeCellsB(c: Cube)
    requires Valid(c)
    ensures forall x, y | 0 <= x < c.n && y == Mid(c.n) :: MoveMPrime(c).B[x][y] == c.D[c.n - 1 - x][y]
    ensures forall x, y | 0 <= x < c.n && 0 <= y < c.n && y != Mid(c.n) :: MoveMPrime(c).B[x][y] == c.B[x][y]
  {
  }

  /** Where M' puts the facelets of D: its middle column comes from F, every other cell stays. */
  lemma MoveMPrimeCellsD(c: Cube)
    requires Valid(c)
    ensures forall x, y | 0 <= x < c.n && y == Mid(c.n) :: MoveMPrime(c).D[x][y] == c.F[x][y]
    ensures forall x, y | 0 <= x < c.n && 0 <= y < c.n && y != Mid(c.n) :: MoveMPrime(c).D[x][y] == c.D[x][y]
  {
  }

  /** Where M' puts the facelets of F: its middle column comes from U, every other cell stays. */
  lemma MoveMPrimeCellsF(c: Cube)
    requires Valid(c)
    ensures forall x, y | 0 <= x < c.n && y == Mid(c.n) :: MoveMPrime(c).F[x][y] == c.U[x][y]
    ensures forall x, y | 0 <= x < c.n && 0 <= y < c.n && y != Mid(c.n) :: MoveMPrime(c).F[x][y] == c.F[x][y]
  {
  }

  /** Where E puts the facelets of F: its middle row comes from R, every other cell stays. */
  lemma MoveECellsF(c: Cube)
    requires Valid(c)
    ensures forall x, y | x == Mid(c.n) && 0 <= y < c.n :: MoveE(c).F[x][y] == c.R[x][y]
    ensures forall x, y | 0 <= x < c.n && 0 <= y < c.n && x != Mid(c.n) :: MoveE(c).F[x][y] == c.F[x][y]
  {
  }

  /** Where E puts the facelets of R: its middle row comes from B, every other cell stays. */
  lemma MoveECellsR(c: Cube)
    requires Valid(c)
    ensures forall x, y | x == Mid(c.n) && 0 <= y < c.n :: MoveE(c).R[x][y] == c.B[x][y]
    ensures forall x, y | 0 <= x < c.n && 0 <= y < c.n && x != Mid(c.n) :: MoveE(c).R[x][y] == c.R[x][y]
  {
  }

  /** Where E puts the facelets of B: its middle row comes from L, every other cell stays. */
  lemma MoveECellsB(c: Cube)
    requires Valid(c)
    ensures forall x, y | x == Mid(c.n) && 0 <= y < c.n :: MoveE(c).B[x][y] == c.L[x][y]
    ensures forall x, y | 0 <= x < c.n && 0 <= y < c.n && x != Mid(c.n) :: MoveE(c).B[x][y] == c.B[x][y]
  {
  }

  /** Where E puts the facelets of L: its middle row comes from F, every other cell stays. */
  lemma MoveECellsL(c: Cube)
    requires Valid(c)
    ensures forall x, y | x == Mid(c.n) && 0 <= y < c.n :: MoveE(c).L[x][y] == c.F[x][y]
    ensures forall x, y | 0 <= x < c.n && 0 <= y < c.n && x != Mid(c.n) :: MoveE(c).L[x][y] == c.L[x][y]
  {
  }

  /** Where E' puts the facelets of F: its middle row comes from L, every other cell stays. */
  lemma MoveEPrimeCellsF(c: Cube)
    requires Valid(c)
    ensures forall x, y | x == Mid(c.n) && 0 <= y < c.n :: MoveEPrime(c).F[x][y] == c.L[x][y]
    ensures forall x, y | 0 <= x < c.n && 0 <= y < c.n && x != Mid(c.n) :: MoveEPrime(c).F[x][y] == c.F[x][y]
  {
  }

  /** Where E' puts the facelets of L: its middle row comes from B, every other cell stays. */
  lemma MoveEPrimeCellsL(c: Cube)
    requires Valid(c)
    ensures forall x, y | x == Mid(c.n) && 0 <= y < c.n :: MoveEPrime(c).L[x][y] == c.B[x][y]
    ensures forall x, y | 0 <= x < c.n && 0 <= y < c.n && x != Mid(c.n) :: MoveEPrime(c).L[x][y] == c.L[x][y]
  {
  }

  /** Where E' puts the facelets of B: its middle row comes from R, every other cell stays. */
  lemma MoveEPrimeCellsB(c: Cube)
    requires Valid(c)
    ensures forall x, y | x == Mid(c.n) && 0 <= y < c.n :: MoveEPrime(c).B[x][y] == c.R[x][y]
    ensures forall x, y | 0 <= x < c.n && 0 <= y < c.n && x != Mid(c.n) :: MoveEPrime(c).B[x][y] == c.B[x][y]
  {
  }

  /** Where E' puts the facelets of R: its middle row comes from F, every other cell stays. */
  lemma MoveEPrimeCellsR(c: Cube)
    requires Valid(c)
    ensures forall x, y | x == Mid(c.n) && 0 <= y < c.n :: MoveEPrime(c).R[x][y] == c.F[x][y]
    ensures forall x, y | 0 <= x < c.n && 0 <= y < c.n && x != Mid(c.n) :: MoveEPrime(c).R[x][y] == c.R[x][y]
  {
  }

  /** Where S puts the facelets of U: its middle row comes from L, every other cell stays. */
  lemma MoveSCellsU(c: Cube)
    requires Valid(c)
    ensures forall x, y | x == Mid(c.n) && 0 <= y < c.n :: MoveS(c).U[x][y] == c.L[c.n - 1 - y][x]
    ensures forall x, y | 0 <= x < c.n && 0 <= y < c.n && x != Mid(c.n) :: MoveS(c).U[x][y] == c.U[x][y]
  {
  }

  /** Where S puts the facelets of L: its middle column comes from D, every other cell stays. */
  lemma MoveSCellsL(c: Cube)
    requires Valid(c)
    ensures forall x, y | 0 <= x < c.n && y == Mid(c.n) :: MoveS(c).L[x][y] == c.D[y][x]
    ensures forall x, y | 0 <= x < c.n && 0 <= y < c.n && y != Mid(c.n) :: MoveS(c).L[x][y] == c.L[x][y]
  {
  }

  /** Where S puts the facelets of D: its middle row comes from R, every other cell stays. */
  lemma MoveSCellsD(c: Cube)
    requires Valid(c)
    ensures forall x, y | x == Mid(c.n) && 0 <= y < c.n :: MoveS(c).D[x][y] == c.R[c.n - 1 - y][x]
    ensures forall x, y | 0 <= x < c.n && 0 <= y < c.n && x != Mid(c.n) :: MoveS(c).D[x][y] == c.D[x][y]
  {
  }

  /** Where S puts the facelets of R: its middle column comes from U, every other cell stays. */
  lemma MoveSCellsR(c: Cube)
    requires Valid(c)
    ensures forall x, y | 0 <= x < c.n && y == Mid(c.n) :: MoveS(c).R[x][y] == c.U[y][x]
    ensures forall x, y | 0 <= x < c.n && 0 <= y < c.n && y != Mid(c.n) :: MoveS(c).R[x][y] == c.R[x][y]
  {
  }

  /** Where S' as written puts the facelets of U: its middle row comes from R, every other cell stays. */
  lemma MoveSPrimeAsWrittenCellsU(c: Cube)
    requires Valid(c)
    ensures forall x, y | x == Mid(c.n) && 0 <= y < c.n :: MoveSPrimeAsWritten(c).U[x][y] == c.R[y][x]
    ensures forall x, y | 0 <= x < c.n && 0 <= y < c.n && x != Mid(c.n) :: MoveSPrimeAsWritten(c).U[x][y] == c.U[x][y]
  {
  }

  /** Where S' as written puts the facelets of R: its middle column comes from D, every other cell stays. */
  lemma MoveSPrimeAsWrittenCellsR(c: Cube)
    requires Valid(c)
    ensures forall x, y | 0 <= x < c.n && y == Mid(c.n) :: MoveSPrimeAsWritten(c).R[x][y] == c.D[y][c.n - 1 - x]
    ensures forall x, y | 0 <= x < c.n && 0 <= y < c.n && y != Mid(c.n) :: MoveSPrimeAsWritten(c).R[x][y] == c.R[x][y]
  {
  }

  /** Where S' as written puts the facelets of D: its middle row comes from L, every other cell stays. */
  lemma MoveSPrimeAsWrittenCellsD(c: Cube)
    requires Valid(c)
    ensures forall x, y | x == Mid(c.n) && 0 <= y < c.n :: MoveSPrimeAsWritten(c).D[x][y] == c.L[y][x]
    ensures forall x, y | 0 <= x < c.n && 0 <= y < c.n && x != Mid(c.n) :: MoveSPrimeAsWritten(c).D[x][y] == c.D[x][y]
  {
  }

  /** Where S' as written puts the facelets of L: its middle column comes from U, every other cell stays. */
  lemma MoveSPrimeAsWrittenCellsL(c: Cube)
    requires Valid(c)
    ensures forall x, y | 0 <= x < c.n && y == Mid(c.n) :: MoveSPrimeAsWritten(c).L[x][y] == c.U[y][x]
    ensures forall x, y | 0 <= x < c.n && 0 <= y < c.n && y != Mid(c.n) :: MoveSPrimeAsWritten(c).L[x][y] == c.L[x][y]
  {
  }

  /** Where S' puts the facelets of U: its middle row comes from R, every other cell stays. */
  lemma MoveSPrimeCellsU(c: Cube)
    requires Valid(c)
    ensures forall x, y | x == Mid(c.n) && 0 <= y < c.n :: MoveSPrime(c).U[x][y] == c.R[y][x]
    ensures forall x, y | 0 <= x < c.n && 0 <= y < c.n && x != Mid(c.n) :: MoveSPrime(c).U[x][y] == c.U[x][y]
  {
  }

  /** Where S' puts the facelets of R: its middle column comes from D, every other cell stays. */
  lemma MoveSPrimeCellsR(c: Cube)
    requires Valid(c)
    ensures forall x, y | 0 <= x < c.n && y == Mid(c.n) :: MoveSPrime(c).R[x][y] == c.D[y][c.n - 1 - x]
    ensures forall x, y | 0 <= x < c.n && 0 <= y < c.n && y != Mid(c.n) :: MoveSPrime(c).R[x][y] == c.R[x][y]
  {
  }

  /** Where S' puts the facelets of D: its middle row comes from L, every other cell stays. */
  lemma MoveSPrimeCellsD(c: Cube)
    requires Valid(c)
    ensures forall x, y | x == Mid(c.n) && 0 <= y < c.n :: MoveSPrime(c).D[x][y] == c.L[y][x]
    ensures forall x, y | 0 <= x < c.n && 0 <= y < c.n && x != Mid(c.n) :: MoveSPrime(c).D[x][y] == c.D[x][y]
  {
  }

  /** Where S' puts the facelets of L: its middle column comes from U, every other cell stays. */
  lemma MoveSPrimeCellsL(c: Cube)
    requires Valid(c)
    ensures forall x, y | 0 <= x < c.n && y == Mid(c.n) :: MoveSPrime(c).L[x][y] == c.U[y][c.n - 1 - x]
    ensures forall x, y | 0 <= x < c.n && 0 <= y < c.n && y != Mid(c.n) :: MoveSPrime(c).L[x][y] == c.L[x][y]
  {
  }
}
