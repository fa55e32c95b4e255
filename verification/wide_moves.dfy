/**
  The wide turns. Each is the source's loop over `layers`: iteration `j`
  passes one ribbon per neighbouring face round the cycle, the outermost
  ribbon first. The clockwise turns rotate their face before the loop, the
  primed turns after it, and both only when `layers > 0`; with
  `layers <= 0` the loop is empty and the cube is returned unchanged.

  `XwLayer(c, j)` is one iteration of the loop body and `XwLayers(c, k)`
  the first `k` iterations. The front turns start their run of U rows at
  `start = n - layers`, so their layer functions take `start` as well.
*/
module WideMoves {
  import opened Grids
  import opened Cubes

  /** One iteration of the Uw loop: row `j` of F, R, B and L runs F <- R <- B <- L <- F. */
  function UwLayer(c: Cube, j: nat): (c': Cube)
    requires Valid(c) && j < c.n
    ensures Valid(c') && c'.n == c.n && c'.U == c.U && c'.D == c.D
  {
    var temp := Row(c.F, j);
    var F := SetRow(c.F, j, Row(c.R, j));
    var R := SetRow(c.R, j, Row(c.B, j));
    var B := SetRow(c.B, j, Row(c.L, j));
    var L := SetRow(c.L, j, temp);
    c.(F := F, R := R, B := B, L := L)
  }

  /** The first `k` iterations of the Uw loop. */
  function UwLayers(c: Cube, k: nat): (c': Cube)
    requires Valid(c) && k <= c.n
    ensures Valid(c') && c'.n == c.n && c'.U == c.U && c'.D == c.D
  {
    if k == 0 then c else UwLayer(UwLayers(c, k - 1), k - 1)
  }

  /** One iteration of the Uw' loop: row `j` of F, L, B and R runs F <- L <- B <- R <- F. */
  function UwPrimeLayer(c: Cube, j: nat): (c': Cube)
    requires Valid(c) && j < c.n
    ensures Valid(c') && c'.n == c.n && c'.U == c.U && c'.D == c.D
  {
    var temp := Row(c.F, j);
    var F := SetRow(c.F, j, Row(c.L, j));
    var L := SetRow(c.L, j, Row(c.B, j));
    var B := SetRow(c.B, j, Row(c.R, j));
    var R := SetRow(c.R, j, temp);
    c.(F := F, L := L, B := B, R := R)
  }

  /** The first `k` iterations of the Uw' loop. */
  function UwPrimeLayers(c: Cube, k: nat): (c': Cube)
    requires Valid(c) && k <= c.n
    ensures Valid(c') && c'.n == c.n && c'.U == c.U && c'.D == c.D
  {
    if k == 0 then c else UwPrimeLayer(UwPrimeLayers(c, k - 1), k - 1)
  }

  /** One iteration of the Dw loop: row n-1-j of F, L, B and R runs F <- L <- B <- R <- F. */
  function DwLayer(c: Cube, j: nat): (c': Cube)
    requires Valid(c) && j < c.n
    ensures Valid(c') && c'.n == c.n && c'.U == c.U && c'.D == c.D
  {
    var row := c.n - 1 - j;
    var temp := Row(c.F, row);
    var F := SetRow(c.F, row, Row(c.L, row));
    var L := SetRow(c.L, row, Row(c.B, row));
    var B := SetRow(c.B, row, Row(c.R, row));
    var R := SetRow(c.R, row, temp);
    c.(F := F, L := L, B := B, R := R)
  }

  /** The first `k` iterations of the Dw loop. */
  function DwLayers(c: Cube, k: nat): (c': Cube)
    requires Valid(c) && k <= c.n
    ensures Valid(c') && c'.n == c.n && c'.U == c.U && c'.D == c.D
  {
    if k == 0 then c else DwLayer(DwLayers(c, k - 1), k - 1)
  }

  /** One iteration of the Dw' loop: row n-1-j of F, R, B and L runs F <- R <- B <- L <- F. */
  function DwPrimeLayer(c: Cube, j: nat): (c': Cube)
    requires Valid(c) && j < c.n
    ensures Valid(c') && c'.n == c.n && c'.U == c.U && c'.D == c.D
  {
    var row := c.n - 1 - j;
    var temp := Row(c.F, row);
    var F := SetRow(c.F, row, Row(c.R, row));
    var R := SetRow(c.R, row, Row(c.B, row));
    var B := SetRow(c.B, row, Row(c.L, row));
    var L := SetRow(c.L, row, temp);
    c.(F := F, R := R, B := B, L := L)
  }

  /** The first `k` iterations of the Dw' loop. */
  function DwPrimeLayers(c: Cube, k: nat): (c': Cube)
    requires Valid(c) && k <= c.n
    ensures Valid(c') && c'.n == c.n && c'.U == c.U && c'.D == c.D
  {
    if k == 0 then c else DwPrimeLayer(DwPrimeLayers(c, k - 1), k - 1)
  }

  /** One iteration of the Lw loop: U's column `j` takes B's column n-1-j reversed, that column takes D's column `j` reversed, D's takes F's, F's takes U's. */
  function LwLayer(c: Cube, j: nat): (c': Cube)
    requires Valid(c) && j < c.n
    ensures Valid(c') && c'.n == c.n && c'.L == c.L && c'.R == c.R
  {
    var n := c.n;
    var temp := Col(c.U, j);
    var colB := Col(c.B, n - 1 - j);
    var U := SetCol(c.U, j, Rev(colB));
    var colD := Col(c.D, j);
    var B := SetCol(c.B, n - 1 - j, Rev(colD));
    var colF := Col(c.F, j);
    var D := SetCol(c.D, j, colF);
    var F := SetCol(c.F, j, temp);
    c.(U := U, B := B, D := D, F := F)
  }

  /** The first `k` iterations of the Lw loop. */
  function LwLayers(c: Cube, k: nat): (c': Cube)
    requires Valid(c) && k <= c.n
    ensures Valid(c') && c'.n == c.n && c'.L == c.L && c'.R == c.R
  {
    if k == 0 then c else LwLayer(LwLayers(c, k - 1), k - 1)
  }

  /** One iteration of the Lw' loop: the cycle of `LwLayer` run backwards. */
  function LwPrimeLayer(c: Cube, j: nat): (c': Cube)
    requires Valid(c) && j < c.n
    ensures Valid(c') && c'.n == c.n && c'.L == c.L && c'.R == c.R
  {
    var n := c.n;
    var temp := Col(c.U, j);
    var U := SetCol(c.U, j, Col(c.F, j));
    var F := SetCol(c.F, j, Col(c.D, j));
    var colB := Col(c.B, n - 1 - j);
    var D := SetCol(c.D, j, Rev(colB));
    var B := SetCol(c.B, n - 1 - j, Rev(temp));
    c.(U := U, F := F, D := D, B := B)
  }

  /** The first `k` iterations of the Lw' loop. */
  function LwPrimeLayers(c: Cube, k: nat): (c': Cube)
    requires Valid(c) && k <= c.n
    ensures Valid(c') && c'.n == c.n && c'.L == c.L && c'.R == c.R
  {
    if k == 0 then c else LwPrimeLayer(LwPrimeLayers(c, k - 1), k - 1)
  }

  /** One iteration of the Rw loop: U's column n-1-j takes B's column `j` reversed, that column takes D's column n-1-j reversed, D's takes F's, F's takes U's. */
  function RwLayer(c: Cube, j: nat): (c': Cube)
    requires Valid(c) && j < c.n
    ensures Valid(c') && c'.n == c.n && c'.L == c.L && c'.R == c.R
  {
    var n := c.n;
    var col := n - 1 - j;
    var temp := Col(c.U, col);
    var colB := Col(c.B, j);
    var U := SetCol(c.U, col, Rev(colB));
    var colD := Col(c.D, col);
    var B := SetCol(c.B, j, Rev(colD));
    var colF := Col(c.F, col);
    var D := SetCol(c.D, col, colF);
    var F := SetCol(c.F, col, temp);
    c.(U := U, B := B, D := D, F := F)
  }

  /** The first `k` iterations of the Rw loop. */
  function RwLayers(c: Cube, k: nat): (c': Cube)
    requires Valid(c) && k <= c.n
    ensures Valid(c') && c'.n == c.n && c'.L == c.L && c'.R == c.R
  {
    if k == 0 then c else RwLayer(RwLayers(c, k - 1), k - 1)
  }

  /** One iteration of the Rw' loop: the cycle of `RwLayer` run backwards. */
  function RwPrimeLayer(c: Cube, j: nat): (c': Cube)
    requires Valid(c) && j < c.n
    ensures Valid(c') && c'.n == c.n && c'.L == c.L && c'.R == c.R
  {
    var n := c.n;
    var col := n - 1 - j;
    var temp := Col(c.U, col);
    var U := SetCol(c.U, col, Col(c.F, col));
    var F := SetCol(c.F, col, Col(c.D, col));
    var colB := Col(c.B, j);
    var D := SetCol(c.D, col, Rev(colB));
    var B := SetCol(c.B, j, Rev(temp));
    c.(U := U, F := F, D := D, B := B)
  }

  /** The first `k` iterations of the Rw' loop. */
  function RwPrimeLayers(c: Cube, k: nat): (c': Cube)
    requires Valid(c) && k <= c.n
    ensures Valid(c') && c'.n == c.n && c'.L == c.L && c'.R == c.R
  {
    if k == 0 then c else RwPrimeLayer(RwPrimeLayers(c, k - 1), k - 1)
  }

  /** One iteration of the Fw loop: U's row start+j takes L's column n-1-j reversed, that column takes D's row `j`, D's row takes R's column `j` reversed, R's column takes U's row. */
  function FwLayer(c: Cube, start: nat, j: nat): (c': Cube)
    requires Valid(c) && start + j < c.n
    ensures Valid(c') && c'.n == c.n && c'.F == c.F && c'.B == c.B
  {
    var n := c.n;
    var u := start + j;
    var temp := Row(c.U, u);
    var colL := Col(c.L, n - 1 - j);
    var U := SetRow(c.U, u, Rev(colL));
    var tempD := Row(c.D, j);
    var L := SetCol(c.L, n - 1 - j, tempD);
    var colR := Col(c.R, j);
    var D := SetRow(c.D, j, Rev(colR));
    var R := SetCol(c.R, j, temp);
    c.(U := U, L := L, D := D, R := R)
  }

  /** The first `k` iterations of the Fw loop. */
  function FwLayers(c: Cube, start: nat, k: nat): (c': Cube)
    requires Valid(c) && start + k <= c.n
    ensures Valid(c') && c'.n == c.n && c'.F == c.F && c'.B == c.B
  {
    if k == 0 then c else FwLayer(FwLayers(c, start, k - 1), start, k - 1)
  }

  /** One iteration of the Fw' loop: the cycle of `FwLayer` run backwards. */
  function FwPrimeLayer(c: Cube, start: nat, j: nat): (c': Cube)
    requires Valid(c) && start + j < c.n
    ensures Valid(c') && c'.n == c.n && c'.F == c.F && c'.B == c.B
  {
    var n := c.n;
    var u := start + j;
    var temp := Row(c.U, u);
    var colR := Col(c.R, j);
    var U := SetRow(c.U, u, colR);
    var tempD := Row(c.D, j);
    var R := SetCol(c.R, j, Rev(tempD));
    var colL := Col(c.L, n - 1 - j);
    var D := SetRow(c.D, j, colL);
    var L := SetCol(c.L, n - 1 - j, Rev(temp));
    c.(U := U, R := R, D := D, L := L)
  }

  /** The first `k` iterations of the Fw' loop. */
  function FwPrimeLayers(c: Cube, start: nat, k: nat): (c': Cube)
    requires Valid(c) && start + k <= c.n
    ensures Valid(c') && c'.n == c.n && c'.F == c.F && c'.B == c.B
  {
    if k == 0 then c else FwPrimeLayer(FwPrimeLayers(c, start, k - 1), start, k - 1)
  }

  /** One iteration of the Bw loop: U's row `j` takes R's column n-1-j reversed, that column takes D's row n-1-j, D's row takes L's column `j` reversed, L's column takes U's row. */
  function BwLayer(c: Cube, j: nat): (c': Cube)
    requires Valid(c) && j < c.n
    ensures Valid(c') && c'.n == c.n && c'.F == c.F && c'.B == c.B
  {
    var n := c.n;
    var temp := Row(c.U, j);
    var colR := Col(c.R, n - 1 - j);
    var U := SetRow(c.U, j, Rev(colR));
    var d := n - 1 - j;
    var tempD := Row(c.D, d);
    var R := SetCol(c.R, n - 1 - j, tempD);
    var colL := Col(c.L, j);
    var D := SetRow(c.D, d, Rev(colL));
    var L := SetCol(c.L, j, temp);
    c.(U := U, R := R, D := D, L := L)
  }

  /** The first `k` iterations of the Bw loop. */
  function BwLayers(c: Cube, k: nat): (c': Cube)
    requires Valid(c) && k <= c.n
    ensures Valid(c') && c'.n == c.n && c'.F == c.F && c'.B == c.B
  {
    if k == 0 then c else BwLayer(BwLayers(c, k - 1), k - 1)
  }

  /** One iteration of the Bw' loop: the cycle of `BwLayer` run backwards. */
  function BwPrimeLayer(c: Cube, j: nat): (c': Cube)
    requires Valid(c) && j < c.n
    ensures Valid(c') && c'.n == c.n && c'.F == c.F && c'.B == c.B
  {
    var n := c.n;
    var temp := Row(c.U, j);
    var colL := Col(c.L, j);
    var U := SetRow(c.U, j, colL);
    var d := n - 1 - j;
    var tempD := Row(c.D, d);
    var L := SetCol(c.L, j, Rev(tempD));
    var colR := Col(c.R, n - 1 - j);
    var D := SetRow(c.D, d, colR);
    var R := SetCol(c.R, n - 1 - j, Rev(temp));
    c.(U := U, L := L, D := D, R := R)
  }

  /** The first `k` iterations of the Bw' loop. */
  function BwPrimeLayers(c: Cube, k: nat): (c': Cube)
    requires Valid(c) && k <= c.n
    ensures Valid(c') && c'.n == c.n && c'.F == c.F && c'.B == c.B
  {
    if k == 0 then c else BwPrimeLayer(BwPrimeLayers(c, k - 1), k - 1)
  }

  /** The wide turn Uw: rotate U clockwise, then run `layers` iterations. */
  function MoveUw(c: Cube, layers: int): (c': Cube)
    requires Valid(c) && layers <= c.n
    ensures Valid(c') && c'.n == c.n
  {
    if layers > 0 then UwLayers(c.(U := RotateCW(c.U)), layers) else c
  }

  /** The wide turn Uw': run `layers` iterations, then rotate U counterclockwise. */
  function MoveUwPrime(c: Cube, layers: int): (c': Cube)
    requires Valid(c) && layers <= c.n
    ensures Valid(c') && c'.n == c.n
  {
    if layers > 0 then
      var turned := UwPrimeLayers(c, layers);
      turned.(U := RotateCCW(turned.U))
    else c
  }

  /** The wide turn Dw: rotate D clockwise, then run `layers` iterations. */
  function MoveDw(c: Cube, layers: int): (c': Cube)
    requires Valid(c) && layers <= c.n
    ensures Valid(c') && c'.n == c.n
  {
    if layers > 0 then DwLayers(c.(D := RotateCW(c.D)), layers) else c
  }

  /** The wide turn Dw': run `layers` iterations, then rotate D counterclockwise. */
  function MoveDwPrime(c: Cube, layers: int): (c': Cube)
    requires Valid(c) && layers <= c.n
    ensures Valid(c') && c'.n == c.n
  {
    if layers > 0 then
      var turned := DwPrimeLayers(c, layers);
      turned.(D := RotateCCW(turned.D))
    else c
  }

  /** The wide turn Lw: rotate L clockwise, then run `layers` iterations. */
  function MoveLw(c: Cube, layers: int): (c': Cube)
    requires Valid(c) && layers <= c.n
    ensures Valid(c') && c'.n == c.n
  {
    if layers > 0 then LwLayers(c.(L := RotateCW(c.L)), layers) else c
  }

  /** The wide turn Lw': run `layers` iterations, then rotate L counterclockwise. */
  function MoveLwPrime(c: Cube, layers: int): (c': Cube)
    requires Valid(c) && layers <= c.n
    ensures Valid(c') && c'.n == c.n
  {
    if layers > 0 then
      var turned := LwPrimeLayers(c, layers);
      turned.(L := RotateCCW(turned.L))
    else c
  }

  /** The wide turn Rw: rotate R clockwise, then run `layers` iterations. */
  function MoveRw(c: Cube, layers: int): (c': Cube)
    requires Valid(c) && layers <= c.n
    ensures Valid(c') && c'.n == c.n
  {
    if layers > 0 then RwLayers(c.(R := RotateCW(c.R)), layers) else c
  }

  /** The wide turn Rw': run `layers` iterations, then rotate R counterclockwise. */
  function MoveRwPrime(c: Cube, layers: int): (c': Cube)
    requires Valid(c) && layers <= c.n
    ensures Valid(c') && c'.n == c.n
  {
    if layers > 0 then
      var turned := RwPrimeLayers(c, layers);
      turned.(R := RotateCCW(turned.R))
    else c
  }

  /** The wide turn Fw: rotate F clockwise, then run `layers` iterations. */
  function MoveFw(c: Cube, layers: int): (c': Cube)
    requires Valid(c) && layers <= c.n
    ensures Valid(c') && c'.n == c.n
  {
    if layers > 0 then FwLayers(c.(F := RotateCW(c.F)), c.n - layers, layers) else c
  }

  /** The wide turn Fw': run `layers` iterations, then rotate F counterclockwise. */
  function MoveFwPrime(c: Cube, layers: int): (c': Cube)
    requires Valid(c) && layers <= c.n
    ensures Valid(c') && c'.n == c.n
  {
    if layers > 0 then
      var turned := FwPrimeLayers(c, c.n - layers, layers);
      turned.(F := RotateCCW(turned.F))
    else c
  }

  /** The wide turn Bw: rotate B clockwise, then run `layers` iterations. */
  function MoveBw(c: Cube, layers: int): (c': Cube)
    requires Valid(c) && layers <= c.n
    ensures Valid(c') && c'.n == c.n
  {
    if layers > 0 then BwLayers(c.(B := RotateCW(c.B)), layers) else c
  }

  /** The wide turn Bw': run `layers` iterations, then rotate B counterclockwise. */
  function MoveBwPrime(c: Cube, layers: int): (c': Cube)
    requires Valid(c) && layers <= c.n
    ensures Valid(c') && c'.n == c.n
  {
    if layers > 0 then
      var turned := BwPrimeLayers(c, layers);
      turned.(B := RotateCCW(turned.B))
    else c
  }
}
