/**
  The single-layer face turns. Each turn optionally rotates its own face,
  then passes four ribbons (one row or column of each neighbouring face)
  round a cycle, some of them reversed. Every definition below is the
  source's chain of reads and writes, in the source's order; a name bound
  by `var` is read before any later write to the same face, as in the
  source.

  The clockwise turns rotate their face first; the primed turns rotate it
  last. Both orders are kept, although the face and the ribbons never
  overlap.
*/
module FaceMoves {
  import opened Grids
  import opened Cubes

  /** Turn the Up face clockwise; the top rows run F <- R <- B <- L <- F. */
  function MoveU(c: Cube): (c': Cube)
    requires Valid(c)
    ensures Valid(c') && c'.n == c.n
    ensures c'.D == c.D
  {
    var U := RotateCW(c.U);
    var temp := Row(c.F, 0);
    var F := SetRow(c.F, 0, Row(c.R, 0));
    var R := SetRow(c.R, 0, Row(c.B, 0));
    var B := SetRow(c.B, 0, Row(c.L, 0));
    var L := SetRow(c.L, 0, temp);
    c.(U := U, F := F, R := R, B := B, L := L)
  }

  /** Turn the Up face counterclockwise; the top rows run F <- L <- B <- R <- F. */
  function MoveUPrime(c: Cube): (c': Cube)
    requires Valid(c)
    ensures Valid(c') && c'.n == c.n
    ensures c'.D == c.D
  {
    var temp := Row(c.F, 0);
    var F := SetRow(c.F, 0, Row(c.L, 0));
    var L := SetRow(c.L, 0, Row(c.B, 0));
    var B := SetRow(c.B, 0, Row(c.R, 0));
    var R := SetRow(c.R, 0, temp);
    var U := RotateCCW(c.U);
    c.(U := U, F := F, R := R, B := B, L := L)
  }

  /** Turn the Down face clockwise; the bottom rows run F <- L <- B <- R <- F. */
  function MoveD(c: Cube): (c': Cube)
    requires Valid(c)
    ensures Valid(c') && c'.n == c.n
    ensures c'.U == c.U
  {
    var D := RotateCW(c.D);
    var last := |c.F| - 1;
    var temp := Row(c.F, last);
    var F := SetRow(c.F, last, Row(c.L, last));
    var L := SetRow(c.L, last, Row(c.B, last));
    var B := SetRow(c.B, last, Row(c.R, last));
    var R := SetRow(c.R, last, temp);
    c.(D := D, F := F, R := R, B := B, L := L)
  }

  /** Turn the Down face counterclockwise; the bottom rows run F <- R <- B <- L <- F. */
  function MoveDPrime(c: Cube): (c': Cube)
    requires Valid(c)
    ensures Valid(c') && c'.n == c.n
    ensures c'.U == c.U
  {
    var last := |c.F| - 1;
    var temp := Row(c.F, last);
    var F := SetRow(c.F, last, Row(c.R, last));
    var R := SetRow(c.R, last, Row(c.B, last));
    var B := SetRow(c.B, last, Row(c.L, last));
    var L := SetRow(c.L, last, temp);
    var D := RotateCCW(c.D);
    c.(D := D, F := F, R := R, B := B, L := L)
  }

  /**
    Turn the Left face clockwise: U's left column takes B's right column
    reversed, B's right column takes D's left column reversed, D's left
    column takes F's, F's takes U's.
  */
  function MoveL(c: Cube): (c': Cube)
    requires Valid(c)
    ensures Valid(c') && c'.n == c.n
    ensures c'.R == c.R
  {
    var n := c.n;
    var L := RotateCW(c.L);
    var temp := Col(c.U, 0);
    var colB := Col(c.B, n - 1);
    var U := SetCol(c.U, 0, Rev(colB));
    var colD := Col(c.D, 0);
    var B := SetCol(c.B, n - 1, Rev(colD));
    var colF := Col(c.F, 0);
    var D := SetCol(c.D, 0, colF);
    var F := SetCol(c.F, 0, temp);
    c.(L := L, U := U, B := B, D := D, F := F)
  }

  /** Turn the Left face counterclockwise: the cycle of `MoveL` run backwards. */
  function MoveLPrime(c: Cube): (c': Cube)
    requires Valid(c)
    ensures Valid(c') && c'.n == c.n
    ensures c'.R == c.R
  {
    var n := c.n;
    var temp := Col(c.U, 0);
    var U := SetCol(c.U, 0, Col(c.F, 0));
    var F := SetCol(c.F, 0, Col(c.D, 0));
    var colB := Col(c.B, n - 1);
    var D := SetCol(c.D, 0, Rev(colB));
    var B := SetCol(c.B, n - 1, Rev(temp));
    var L := RotateCCW(c.L);
    c.(L := L, U := U, B := B, D := D, F := F)
  }

  /**
    Turn the Right face clockwise. The source wires it in the same ring
    direction as `MoveL`: U's right column takes B's left column reversed,
    B's left column takes D's right column reversed, D's right column
    takes F's, F's takes U's.
  */
  function MoveR(c: Cube): (c': Cube)
    requires Valid(c)
    ensures Valid(c') && c'.n == c.n
    ensures c'.L == c.L
  {
    var n := c.n;
    var R := RotateCW(c.R);
    var temp := Col(c.U, n - 1);
    var colB := Col(c.B, 0);
    var U := SetCol(c.U, n - 1, Rev(colB));
    var colD := Col(c.D, n - 1);
    var B := SetCol(c.B, 0, Rev(colD));
    var colF := Col(c.F, n - 1);
    var D := SetCol(c.D, n - 1, colF);
    var F := SetCol(c.F, n - 1, temp);
    c.(R := R, U := U, B := B, D := D, F := F)
  }

  /** Turn the Right face counterclockwise: the cycle of `MoveR` run backwards. */
  function MoveRPrime(c: Cube): (c': Cube)
    requires Valid(c)
    ensures Valid(c') && c'.n == c.n
    ensures c'.L == c.L
  {
    var n := c.n;
    var temp := Col(c.U, n - 1);
    var U := SetCol(c.U, n - 1, Col(c.F, n - 1));
    var F := SetCol(c.F, n - 1, Col(c.D, n - 1));
    var colB := Col(c.B, 0);
    var D := SetCol(c.D, n - 1, Rev(colB));
    var B := SetCol(c.B, 0, Rev(temp));
    var R := RotateCCW(c.R);
    c.(R := R, U := U, B := B, D := D, F := F)
  }

  /**
    Turn the Front face clockwise: U's bottom row takes L's right column
    reversed, L's right column takes D's top row, D's top row takes R's
    left column reversed, R's left column takes U's bottom row.
  */
  function MoveF(c: Cube): (c': Cube)
    requires Valid(c)
    ensures Valid(c') && c'.n == c.n
    ensures c'.B == c.B
  {
    var n := c.n;
    var F := RotateCW(c.F);
    var last := |c.U| - 1;
    var temp := Row(c.U, last);
    var colL := Col(c.L, n - 1);
    var U := SetRow(c.U, last, Rev(colL));
    var tempD := Row(c.D, 0);
    var L := SetCol(c.L, n - 1, tempD);
    var colR := Col(c.R, 0);
    var D := SetRow(c.D, 0, Rev(colR));
    var R := SetCol(c.R, 0, temp);
    c.(F := F, U := U, L := L, D := D, R := R)
  }

  /**
    Turn the Front face counterclockwise. The source overwrites U's bottom
    row cell by cell from R's left column; as the row has n cells, that
    is the row replaced by the column.
  */
  function MoveFPrime(c: Cube): (c': Cube)
    requires Valid(c)
    ensures Valid(c') && c'.n == c.n
    ensures c'.B == c.B
  {
    var n := c.n;
    var last := |c.U| - 1;
    var temp := Row(c.U, last);
    var U := SetRow(c.U, last, Col(c.R, 0));
    var tempD := Row(c.D, 0);
    var R := SetCol(c.R, 0, Rev(tempD));
    var tempL := Col(c.L, n - 1);
    var D := SetRow(c.D, 0, tempL);
    var L := SetCol(c.L, n - 1, Rev(temp));
    var F := RotateCCW(c.F);
    c.(F := F, U := U, L := L, D := D, R := R)
  }

  /**
    Turn the Back face clockwise: U's top row takes R's right column
    reversed, R's right column takes D's bottom row, D's bottom row takes
    L's left column reversed, L's left column takes U's top row.
  */
  function MoveB(c: Cube): (c': Cube)
    requires Valid(c)
    ensures Valid(c') && c'.n == c.n
    ensures c'.F == c.F
  {
    var n := c.n;
    var B := RotateCW(c.B);
    var temp := Row(c.U, 0);
    var colR := Col(c.R, n - 1);
    var U := SetRow(c.U, 0, Rev(colR));
    var last := |c.D| - 1;
    var tempD := Row(c.D, last);
    var R := SetCol(c.R, n - 1, tempD);
    var colL := Col(c.L, 0);
    var D := SetRow(c.D, last, Rev(colL));
    var L := SetCol(c.L, 0, temp);
    c.(B := B, U := U, R := R, D := D, L := L)
  }

  /**
    Turn the Back face counterclockwise. As in `MoveFPrime`, U's top row is
    overwritten cell by cell from a whole column.
  */
  function MoveBPrime(c: Cube): (c': Cube)
    requires Valid(c)
    ensures Valid(c') && c'.n == c.n
    ensures c'.F == c.F
  {
    var n := c.n;
    var temp := Row(c.U, 0);
    var U := SetRow(c.U, 0, Col(c.L, 0));
    var last := |c.D| - 1;
    var tempD := Row(c.D, last);
    var L := SetCol(c.L, 0, Rev(tempD));
    var tempR := Col(c.R, n - 1);
    var D := SetRow(c.D, last, tempR);
    var R := SetCol(c.R, n - 1, Rev(temp));
    var B := RotateCCW(c.B);
    c.(B := B, U := U, R := R, D := D, L := L)
  }

  /** Half turns: exactly two quarter turns, as in the source. */
  function MoveU2(c: Cube): (c': Cube)
    requires Valid(c)
    ensures Valid(c') && c'.n == c.n
  {
    MoveU(MoveU(c))
  }

  function MoveD2(c: Cube): (c': Cube)
    requires Valid(c)
    ensures Valid(c') && c'.n == c.n
  {
    MoveD(MoveD(c))
  }

  function MoveL2(c: Cube): (c': Cube)
    requires Valid(c)
    ensures Valid(c') && c'.n == c.n
  {
    MoveL(MoveL(c))
  }

  function MoveR2(c: Cube): (c': Cube)
    requires Valid(c)
    ensures Valid(c') && c'.n == c.n
  {
    MoveR(MoveR(c))
  }

  function MoveF2(c: Cube): (c': Cube)
    requires Valid(c)
    ensures Valid(c') && c'.n == c.n
  {
    MoveF(MoveF(c))
  }

  function MoveB2(c: Cube): (c': Cube)
    requires Valid(c)
    ensures Valid(c') && c'.n == c.n
  {
    MoveB(MoveB(c))
  }
}
