/**
  Closed forms of the wide turns: for 1 <= layers <= n, where every
  facelet of the turned cube comes from, in terms of the cube before the
  turn. The turned face is rotated, the opposite face is untouched, the
  first `layers` ribbons of the four side faces hold their neighbours'
  ribbons, and every other cell is unchanged. With `layers <= 0` a wide
  turn is the identity.
*/
module WideClosedForms {
  import opened Grids
  import opened Cubes
  import opened WideMoves
  import opened WideCells

  /** `MoveUw` unfolded: the guarded rotation, then the loop. */
  lemma MoveUwIs(c: Cube, layers: int)
    requires Valid(c) && layers <= c.n
    ensures layers <= 0 ==> MoveUw(c, layers) == c
    ensures layers > 0 ==> Valid(c.(U := RotateCW(c.U))) && MoveUw(c, layers) == UwLayers(c.(U := RotateCW(c.U)), layers)
  {
  }

  /** `MoveUwPrime` unfolded: the loop, then the guarded rotation. */
  lemma MoveUwPrimeIs(c: Cube, layers: int)
    requires Valid(c) && layers <= c.n
    ensures layers <= 0 ==> MoveUwPrime(c, layers) == c
    ensures layers > 0 ==> MoveUwPrime(c, layers).U == RotateCCW(UwPrimeLayers(c, layers).U)
    ensures layers > 0 ==> MoveUwPrime(c, layers).D == UwPrimeLayers(c, layers).D && MoveUwPrime(c, layers).L == UwPrimeLayers(c, layers).L && MoveUwPrime(c, layers).R == UwPrimeLayers(c, layers).R && MoveUwPrime(c, layers).F == UwPrimeLayers(c, layers).F && MoveUwPrime(c, layers).B == UwPrimeLayers(c, layers).B
  {
  }

  /** With no layers to turn, Uw and Uw' leave the cube as it is. */
  lemma MoveUwNoOp(c: Cube, layers: int)
    requires Valid(c) && layers <= 0
    ensures MoveUw(c, layers) == c
    ensures MoveUwPrime(c, layers) == c
  {
    MoveUwIs(c, layers);
    MoveUwPrimeIs(c, layers);
  }

  /** Uw with `k` layers rotates U clockwise and leaves D alone. */
  lemma MoveUwFaces(c: Cube, k: int)
    requires Valid(c) && 0 < k <= c.n
    ensures MoveUw(c, k).U == RotateCW(c.U) && MoveUw(c, k).D == c.D
  {
    hide *;
    ValidFaces(c);
    MoveUwIs(c, k);
  }

  /** Where Uw with `k` layers puts the facelets of F: its first `k` ribbons come from R, the rest stay. */
  lemma MoveUwCellsF(c: Cube, k: int)
    requires Valid(c) && 0 < k <= c.n
    ensures forall x, y | 0 <= x < k && 0 <= y < c.n :: MoveUw(c, k).F[x][y] == c.R[x][y]
    ensures forall x, y | k <= x < c.n && 0 <= y < c.n :: MoveUw(c, k).F[x][y] == c.F[x][y]
  {
    hide *;
    ValidFaces(c);
    MoveUwIs(c, k);
    UwLayersF(c.(U := RotateCW(c.U)), k);
  }

  /** Where Uw with `k` layers puts the facelets of R: its first `k` ribbons come from B, the rest stay. */
  lemma MoveUwCellsR(c: Cube, k: int)
    requires Valid(c) && 0 < k <= c.n
    ensures forall x, y | 0 <= x < k && 0 <= y < c.n :: MoveUw(c, k).R[x][y] == c.B[x][y]
    ensures forall x, y | k <= x < c.n && 0 <= y < c.n :: MoveUw(c, k).R[x][y] == c.R[x][y]
  {
    hide *;
    ValidFaces(c);
    MoveUwIs(c, k);
    UwLayersR(c.(U := RotateCW(c.U)), k);
  }

  /** Where Uw with `k` layers puts the facelets of B: its first `k` ribbons come from L, the rest stay. */
  lemma MoveUwCellsB(c: Cube, k: int)
    requires Valid(c) && 0 < k <= c.n
    ensures forall x, y | 0 <= x < k && 0 <= y < c.n :: MoveUw(c, k).B[x][y] == c.L[x][y]
    ensures forall x, y | k <= x < c.n && 0 <= y < c.n :: MoveUw(c, k).B[x][y] == c.B[x][y]
  {
    hide *;
    ValidFaces(c);
    MoveUwIs(c, k);
    UwLayersB(c.(U := RotateCW(c.U)), k);
  }

  /** Where Uw with `k` layers puts the facelets of L: its first `k` ribbons come from F, the rest stay. */
  lemma MoveUwCellsL(c: Cube, k: int)
    requires Valid(c) && 0 < k <= c.n
    ensures forall x, y | 0 <= x < k && 0 <= y < c.n :: MoveUw(c, k).L[x][y] == c.F[x][y]
    ensures forall x, y | k <= x < c.n && 0 <= y < c.n :: MoveUw(c, k).L[x][y] == c.L[x][y]
  {
    hide *;
    ValidFaces(c);
    MoveUwIs(c, k);
    UwLayersL(c.(U := RotateCW(c.U)), k);
  }

  /** Uw' with `k` layers rotates U counterclockwise and leaves D alone. */
  lemma MoveUwPrimeFaces(c: Cube, k: int)
    requires Valid(c) && 0 < k <= c.n
    ensures MoveUwPrime(c, k).U == RotateCCW(c.U) && MoveUwPrime(c, k).D == c.D
  {
    hide *;
    MoveUwPrimeIs(c, k);
  }

  /** Where Uw' with `k` layers puts the facelets of F: its first `k` ribbons come from L, the rest stay. */
  lemma MoveUwPrimeCellsF(c: Cube, k: int)
    requires Valid(c) && 0 < k <= c.n
    ensures forall x, y | 0 <= x < k && 0 <= y < c.n :: MoveUwPrime(c, k).F[x][y] == c.L[x][y]
    ensures forall x, y | k <= x < c.n && 0 <= y < c.n :: MoveUwPrime(c, k).F[x][y] == c.F[x][y]
  {
    hide *;
    MoveUwPrimeIs(c, k);
    UwPrimeLayersF(c, k);
  }

  /** Where Uw' with `k` layers puts the facelets of L: its first `k` ribbons come from B, the rest stay. */
  lemma MoveUwPrimeCellsL(c: Cube, k: int)
    requires Valid(c) && 0 < k <= c.n
    ensures forall x, y | 0 <= x < k && 0 <= y < c.n :: MoveUwPrime(c, k).L[x][y] == c.B[x][y]
    ensures forall x, y | k <= x < c.n && 0 <= y < c.n :: MoveUwPrime(c, k).L[x][y] == c.L[x][y]
  {
    hide *;
    MoveUwPrimeIs(c, k);
    UwPrimeLayersL(c, k);
  }

  /** Where Uw' with `k` layers puts the facelets of B: its first `k` ribbons come from R, the rest stay. */
  lemma MoveUwPrimeCellsB(c: Cube, k: int)
    requires Valid(c) && 0 < k <= c.n
    ensures forall x, y | 0 <= x < k && 0 <= y < c.n :: MoveUwPrime(c, k).B[x][y] == c.R[x][y]
    ensures forall x, y | k <= x < c.n && 0 <= y < c.n :: MoveUwPrime(c, k).B[x][y] == c.B[x][y]
  {
    hide *;
    MoveUwPrimeIs(c, k);
    UwPrimeLayersB(c, k);
  }

  /** Where Uw' with `k` layers puts the facelets of R: its first `k` ribbons come from F, the rest stay. */
  lemma MoveUwPrimeCellsR(c: Cube, k: int)
    requires Valid(c) && 0 < k <= c.n
    ensures forall x, y | 0 <= x < k && 0 <= y < c.n :: MoveUwPrime(c, k).R[x][y] == c.F[x][y]
    ensures forall x, y | k <= x < c.n && 0 <= y < c.n :: MoveUwPrime(c, k).R[x][y] == c.R[x][y]
  {
    hide *;
    MoveUwPrimeIs(c, k);
    UwPrimeLayersR(c, k);
  }

  /** `MoveDw` unfolded: the guarded rotation, then the loop. */
  lemma MoveDwIs(c: Cube, layers: int)
    requires Valid(c) && layers <= c.n
    ensures layers <= 0 ==> MoveDw(c, layers) == c
    ensures layers > 0 ==> Valid(c.(D := RotateCW(c.D))) && MoveDw(c, layers) == DwLayers(c.(D := RotateCW(c.D)), layers)
  {
  }

  /** `MoveDwPrime` unfolded: the loop, then the guarded rotation. */
  lemma MoveDwPrimeIs(c: Cube, layers: int)
    requires Valid(c) && layers <= c.n
    ensures layers <= 0 ==> MoveDwPrime(c, layers) == c
    ensures layers > 0 ==> MoveDwPrime(c, layers).D == RotateCCW(DwPrimeLayers(c, layers).D)
    ensures layers > 0 ==> MoveDwPrime(c, layers).U == DwPrimeLayers(c, layers).U && MoveDwPrime(c, layers).L == DwPrimeLayers(c, layers).L && MoveDwPrime(c, layers).R == DwPrimeLayers(c, layers).R && MoveDwPrime(c, layers).F == DwPrimeLayers(c, layers).F && MoveDwPrime(c, layers).B == DwPrimeLayers(c, layers).B
  {
  }

  /** With no layers to turn, Dw and Dw' leave the cube as it is. */
  lemma MoveDwNoOp(c: Cube, layers: int)
    requires Valid(c) && layers <= 0
    ensures MoveDw(c, layers) == c
    ensures MoveDwPrime(c, layers) == c
  {
    MoveDwIs(c, layers);
    MoveDwPrimeIs(c, layers);
  }

  /** Dw with `k` layers rotates D clockwise and leaves U alone. */
  lemma MoveDwFaces(c: Cube, k: int)
    requires Valid(c) && 0 < k <= c.n
    ensures MoveDw(c, k).D == RotateCW(c.D) && MoveDw(c, k).U == c.U
  {
    hide *;
    ValidFaces(c);
    MoveDwIs(c, k);
  }

  /** Where Dw with `k` layers puts the facelets of F: its first `k` ribbons come from L, the rest stay. */
  lemma MoveDwCellsF(c: Cube, k: int)
    requires Valid(c) && 0 < k <= c.n
    ensures forall x, y | c.n - k <= x < c.n && 0 <= y < c.n :: MoveDw(c, k).F[x][y] == c.L[x][y]
    ensures forall x, y | 0 <= x < c.n - k && 0 <= y < c.n :: MoveDw(c, k).F[x][y] == c.F[x][y]
  {
    hide *;
    ValidFaces(c);
    MoveDwIs(c, k);
    DwLayersF(c.(D := RotateCW(c.D)), k);
  }

  /** Where Dw with `k` layers puts the facelets of L: its first `k` ribbons come from B, the rest stay. */
  lemma MoveDwCellsL(c: Cube, k: int)
    requires Valid(c) && 0 < k <= c.n
    ensures forall x, y | c.n - k <= x < c.n && 0 <= y < c.n :: MoveDw(c, k).L[x][y] == c.B[x][y]
    ensures forall x, y | 0 <= x < c.n - k && 0 <= y < c.n :: MoveDw(c, k).L[x][y] == c.L[x][y]
  {
    hide *;
    ValidFaces(c);
    MoveDwIs(c, k);
    DwLayersL(c.(D := RotateCW(c.D)), k);
  }

  /** Where Dw with `k` layers puts the facelets of B: its first `k` ribbons come from R, the rest stay. */
  lemma MoveDwCellsB(c: Cube, k: int)
    requires Valid(c) && 0 < k <= c.n
    ensures forall x, y | c.n - k <= x < c.n && 0 <= y < c.n :: MoveDw(c, k).B[x][y] == c.R[x][y]
    ensures forall x, y | 0 <= x < c.n - k && 0 <= y < c.n :: MoveDw(c, k).B[x][y] == c.B[x][y]
  {
    hide *;
    ValidFaces(c);
    MoveDwIs(c, k);
    DwLayersB(c.(D := RotateCW(c.D)), k);
  }

  /** Where Dw with `k` layers puts the facelets of R: its first `k` ribbons come from F, the rest stay. */
  lemma MoveDwCellsR(c: Cube, k: int)
    requires Valid(c) && 0 < k <= c.n
    ensures forall x, y | c.n - k <= x < c.n && 0 <= y < c.n :: MoveDw(c, k).R[x][y] == c.F[x][y]
    ensures forall x, y | 0 <= x < c.n - k && 0 <= y < c.n :: MoveDw(c, k).R[x][y] == c.R[x][y]
  {
    hide *;
    ValidFaces(c);
    MoveDwIs(c, k);
    DwLayersR(c.(D := RotateCW(c.D)), k);
  }

  /** Dw' with `k` layers rotates D counterclockwise and leaves U alone. */
  lemma MoveDwPrimeFaces(c: Cube, k: int)
    requires Valid(c) && 0 < k <= c.n
    ensures MoveDwPrime(c, k).D == RotateCCW(c.D) && MoveDwPrime(c, k).U == c.U
  {
    hide *;
    MoveDwPrimeIs(c, k);
  }

  /** Where Dw' with `k` layers puts the facelets of F: its first `k` ribbons come from R, the rest stay. */
  lemma MoveDwPrimeCellsF(c: Cube, k: int)
    requires Valid(c) && 0 < k <= c.n
    ensures forall x, y | c.n - k <= x < c.n && 0 <= y < c.n :: MoveDwPrime(c, k).F[x][y] == c.R[x][y]
    ensures forall x, y | 0 <= x < c.n - k && 0 <= y < c.n :: MoveDwPrime(c, k).F[x][y] == c.F[x][y]
  {
    hide *;
    MoveDwPrimeIs(c, k);
    DwPrimeLayersF(c, k);
  }

  /** Where Dw' with `k` layers puts the facelets of R: its first `k` ribbons come from B, the rest stay. */
  lemma MoveDwPrimeCellsR(c: Cube, k: int)
    requires Valid(c) && 0 < k <= c.n
    ensures forall x, y | c.n - k <= x < c.n && 0 <= y < c.n :: MoveDwPrime(c, k).R[x][y] == c.B[x][y]
    ensures forall x, y | 0 <= x < c.n - k && 0 <= y < c.n :: MoveDwPrime(c, k).R[x][y] == c.R[x][y]
  {
    hide *;
    MoveDwPrimeIs(c, k);
    DwPrimeLayersR(c, k);
  }

  /** Where Dw' with `k` layers puts the facelets of B: its first `k` ribbons come from L, the rest stay. */
  lemma MoveDwPrimeCellsB(c: Cube, k: int)
    requires Valid(c) && 0 < k <= c.n
    ensures forall x, y | c.n - k <= x < c.n && 0 <= y < c.n :: MoveDwPrime(c, k).B[x][y] == c.L[x][y]
    ensures forall x, y | 0 <= x < c.n - k && 0 <= y < c.n :: MoveDwPrime(c, k).B[x][y] == c.B[x][y]
  {
    hide *;
    MoveDwPrimeIs(c, k);
    DwPrimeLayersB(c, k);
  }

  /** Where Dw' with `k` layers puts the facelets of L: its first `k` ribbons come from F, the rest stay. */
  lemma MoveDwPrimeCellsL(c: Cube, k: int)
    requires Valid(c) && 0 < k <= c.n
    ensures forall x, y | c.n - k <= x < c.n && 0 <= y < c.n :: MoveDwPrime(c, k).L[x][y] == c.F[x][y]
    ensures forall x, y | 0 <= x < c.n - k && 0 <= y < c.n :: MoveDwPrime(c, k).L[x][y] == c.L[x][y]
  {
    hide *;
    MoveDwPrimeIs(c, k);
    DwPrimeLayersL(c, k);
  }

  /** `MoveLw` unfolded: the guarded rotation, then the loop. */
  lemma MoveLwIs(c: Cube, layers: int)
    requires Valid(c) && layers <= c.n
    ensures layers <= 0 ==> MoveLw(c, layers) == c
    ensures layers > 0 ==> Valid(c.(L := RotateCW(c.L))) && MoveLw(c, layers) == LwLayers(c.(L := RotateCW(c.L)), layers)
  {
  }

  /** `MoveLwPrime` unfolded: the loop, then the guarded rotation. */
  lemma MoveLwPrimeIs(c: Cube, layers: int)
    requires Valid(c) && layers <= c.n
    ensures layers <= 0 ==> MoveLwPrime(c, layers) == c
    ensures layers > 0 ==> MoveLwPrime(c, layers).L == RotateCCW(LwPrimeLayers(c, layers).L)
    ensures layers > 0 ==> MoveLwPrime(c, layers).U == LwPrimeLayers(c, layers).U && MoveLwPrime(c, layers).D == LwPrimeLayers(c, layers).D && MoveLwPrime(c, layers).R == LwPrimeLayers(c, layers).R && MoveLwPrime(c, layers).F == LwPrimeLayers(c, layers).F && MoveLwPrime(c, layers).B == LwPrimeLayers(c, layers).B
  {
  }

  /** With no layers to turn, Lw and Lw' leave the cube as it is. */
  lemma MoveLwNoOp(c: Cube, layers: int)
    requires Valid(c) && layers <= 0
    ensures MoveLw(c, layers) == c
    ensures MoveLwPrime(c, layers) == c
  {
    MoveLwIs(c, layers);
    MoveLwPrimeIs(c, layers);
  }

  /** Lw with `k` layers rotates L clockwise and leaves R alone. */
  lemma MoveLwFaces(c: Cube, k: int)
    requires Valid(c) && 0 < k <= c.n
    ensures MoveLw(c, k).L == RotateCW(c.L) && MoveLw(c, k).R == c.R
  {
    hide *;
    ValidFaces(c);
    MoveLwIs(c, k);
  }

  /** Where Lw with `k` layers puts the facelets of U: its first `k` ribbons come from B, the rest stay. */
  lemma MoveLwCellsU(c: Cube, k: int)
    requires Valid(c) && 0 < k <= c.n
    ensures forall x, y | 0 <= x < c.n && 0 <= y < k :: MoveLw(c, k).U[x][y] == c.B[c.n - 1 - x][c.n - 1 - y]
    ensures forall x, y | 0 <= x < c.n && k <= y < c.n :: MoveLw(c, k).U[x][y] == c.U[x][y]
  {
    hide *;
    ValidFaces(c);
    MoveLwIs(c, k);
    LwLayersU(c.(L := RotateCW(c.L)), k);
  }

  /** Where Lw with `k` layers puts the facelets of B: its first `k` ribbons come from D, the rest stay. */
  lemma MoveLwCellsB(c: Cube, k: int)
    requires Valid(c) && 0 < k <= c.n
    ensures forall x, y | 0 <= x < c.n && c.n - k <= y < c.n :: MoveLw(c, k).B[x][y] == c.D[c.n - 1 - x][c.n - 1 - y]
    ensures forall x, y | 0 <= x < c.n && 0 <= y < c.n - k :: MoveLw(c, k).B[x][y] == c.B[x][y]
  {
    hide *;
    ValidFaces(c);
    MoveLwIs(c, k);
    LwLayersB(c.(L := RotateCW(c.L)), k);
  }

  /** Where Lw with `k` layers puts the facelets of D: its first `k` ribbons come from F, the rest stay. */
  lemma MoveLwCellsD(c: Cube, k: int)
    requires Valid(c) && 0 < k <= c.n
    ensures forall x, y | 0 <= x < c.n && 0 <= y < k :: MoveLw(c, k).D[x][y] == c.F[x][y]
    ensures forall x, y | 0 <= x < c.n && k <= y < c.n :: MoveLw(c, k).D[x][y] == c.D[x][y]
  {
    hide *;
    ValidFaces(c);
    MoveLwIs(c, k);
    LwLayersD(c.(L := RotateCW(c.L)), k);
  }

  /** Where Lw with `k` layers puts the facelets of F: its first `k` ribbons come from U, the rest stay. */
  lemma MoveLwCellsF(c: Cube, k: int)
    requires Valid(c) && 0 < k <= c.n
    ensures forall x, y | 0 <= x < c.n && 0 <= y < k :: MoveLw(c, k).F[x][y] == c.U[x][y]
    ensures forall x, y | 0 <= x < c.n && k <= y < c.n :: MoveLw(c, k).F[x][y] == c.F[x][y]
  {
    hide *;
    ValidFaces(c);
    MoveLwIs(c, k);
    LwLayersF(c.(L := RotateCW(c.L)), k);
  }

  /** Lw' with `k` layers rotates L counterclockwise and leaves R alone. */
  lemma MoveLwPrimeFaces(c: Cube, k: int)
    requires Valid(c) && 0 < k <= c.n
    ensures MoveLwPrime(c, k).L == RotateCCW(c.L) && MoveLwPrime(c, k).R == c.R
  {
    hide *;
    MoveLwPrimeIs(c, k);
  }

  /** Where Lw' with `k` layers puts the facelets of U: its first `k` ribbons come from F, the rest stay. */
  lemma MoveLwPrimeCellsU(c: Cube, k: int)
    requires Valid(c) && 0 < k <= c.n
    ensures forall x, y | 0 <= x < c.n && 0 <= y < k :: MoveLwPrime(c, k).U[x][y] == c.F[x][y]
    ensures forall x, y | 0 <= x < c.n && k <= y < c.n :: MoveLwPrime(c, k).U[x][y] == c.U[x][y]
  {
    hide *;
    MoveLwPrimeIs(c, k);
    LwPrimeLayersU(c, k);
  }

  /** Where Lw' with `k` layers puts the facelets of F: its first `k` ribbons come from D, the rest stay. */
  lemma MoveLwPrimeCellsF(c: Cube, k: int)
    requires Valid(c) && 0 < k <= c.n
    ensures forall x, y | 0 <= x < c.n && 0 <= y < k :: MoveLwPrime(c, k).F[x][y] == c.D[x][y]
    ensures forall x, y | 0 <= x < c.n && k <= y < c.n :: MoveLwPrime(c, k).F[x][y] == c.F[x][y]
  {
    hide *;
    MoveLwPrimeIs(c, k);
    LwPrimeLayersF(c, k);
  }

  /** Where Lw' with `k` layers puts the facelets of D: its first `k` ribbons come from B, the rest stay. */
  lemma MoveLwPrimeCellsD(c: Cube, k: int)
    requires Valid(c) && 0 < k <= c.n
    ensures forall x, y | 0 <= x < c.n && 0 <= y < k :: MoveLwPrime(c, k).D[x][y] == c.B[c.n - 1 - x][c.n - 1 - y]
    ensures forall x, y | 0 <= x < c.n && k <= y < c.n :: MoveLwPrime(c, k).D[x][y] == c.D[x][y]
  {
    hide *;
    MoveLwPrimeIs(c, k);
    LwPrimeLayersD(c, k);
  }

  /** Where Lw' with `k` layers puts the facelets of B: its first `k` ribbons come from U, the rest stay. */
  lemma MoveLwPrimeCellsB(c: Cube, k: int)
    requires Valid(c) && 0 < k <= c.n
    ensures forall x, y | 0 <= x < c.n && c.n - k <= y < c.n :: MoveLwPrime(c, k).B[x][y] == c.U[c.n - 1 - x][c.n - 1 - y]
    ensures forall x, y | 0 <= x < c.n && 0 <= y < c.n - k :: MoveLwPrime(c, k).B[x][y] == c.B[x][y]
  {
    hide *;
    MoveLwPrimeIs(c, k);
    LwPrimeLayersB(c, k);
  }

  /** `MoveRw` unfolded: the guarded rotation, then the loop. */
  lemma MoveRwIs(c: Cube, layers: int)
    requires Valid(c) && layers <= c.n
    ensures layers <= 0 ==> MoveRw(c, layers) == c
    ensures layers > 0 ==> Valid(c.(R := RotateCW(c.R))) && MoveRw(c, layers) == RwLayers(c.(R := RotateCW(c.R)), layers)
  {
  }

  /** `MoveRwPrime` unfolded: the loop, then the guarded rotation. */
  lemma MoveRwPrimeIs(c: Cube, layers: int)
    requires Valid(c) && layers <= c.n
    ensures layers <= 0 ==> MoveRwPrime(c, layers) == c
    ensures layers > 0 ==> MoveRwPrime(c, layers).R == RotateCCW(RwPrimeLayers(c, layers).R)
    ensures layers > 0 ==> MoveRwPrime(c, layers).U == RwPrimeLayers(c, layers).U && MoveRwPrime(c, layers).D == RwPrimeLayers(c, layers).D && MoveRwPrime(c, layers).L == RwPrimeLayers(c, layers).L && MoveRwPrime(c, layers).F == RwPrimeLayers(c, layers).F && MoveRwPrime(c, layers).B == RwPrimeLayers(c, layers).B
  {
  }

  /** With no layers to turn, Rw and Rw' leave the cube as it is. */
  lemma MoveRwNoOp(c: Cube, layers: int)
    requires Valid(c) && layers <= 0
    ensures MoveRw(c, layers) == c
    ensures MoveRwPrime(c, layers) == c
  {
    MoveRwIs(c, layers);
    MoveRwPrimeIs(c, layers);
  }

  /** Rw with `k` layers rotates R clockwise and leaves L alone. */
  lemma MoveRwFaces(c: Cube, k: int)
    requires Valid(c) && 0 < k <= c.n
    ensures MoveRw(c, k).R == RotateCW(c.R) && MoveRw(c, k).L == c.L
  {
    hide *;
    ValidFaces(c);
    MoveRwIs(c, k);
  }

  /** Where Rw with `k` layers puts the facelets of U: its first `k` ribbons come from B, the rest stay. */
  lemma MoveRwCellsU(c: Cube, k: int)
    requires Valid(c) && 0 < k <= c.n
    ensures forall x, y | 0 <= x < c.n && c.n - k <= y < c.n :: MoveRw(c, k).U[x][y] == c.B[c.n - 1 - x][c.n - 1 - y]
    ensures forall x, y | 0 <= x < c.n && 0 <= y < c.n - k :: MoveRw(c, k).U[x][y] == c.U[x][y]
  {
    hide *;
    ValidFaces(c);
    MoveRwIs(c, k);
    RwLayersU(c.(R := RotateCW(c.R)), k);
  }

  /** Where Rw with `k` layers puts the facelets of B: its first `k` ribbons come from D, the rest stay. */
  lemma MoveRwCellsB(c: Cube, k: int)
    requires Valid(c) && 0 < k <= c.n
    ensures forall x, y | 0 <= x < c.n && 0 <= y < k :: MoveRw(c, k).B[x][y] == c.D[c.n - 1 - x][c.n - 1 - y]
    ensures forall x, y | 0 <= x < c.n && k <= y < c.n :: MoveRw(c, k).B[x][y] == c.B[x][y]
  {
    hide *;
    ValidFaces(c);
    MoveRwIs(c, k);
    RwLayersB(c.(R := RotateCW(c.R)), k);
  }

  /** Where Rw with `k` layers puts the facelets of D: its first `k` ribbons come from F, the rest stay. */
  lemma MoveRwCellsD(c: Cube, k: int)
    requires Valid(c) && 0 < k <= c.n
    ensures forall x, y | 0 <= x < c.n && c.n - k <= y < c.n :: MoveRw(c, k).D[x][y] == c.F[x][y]
    ensures forall x, y | 0 <= x < c.n && 0 <= y < c.n - k :: MoveRw(c, k).D[x][y] == c.D[x][y]
  {
    hide *;
    ValidFaces(c);
    MoveRwIs(c, k);
    RwLayersD(c.(R := RotateCW(c.R)), k);
  }

  /** Where Rw with `k` layers puts the facelets of F: its first `k` ribbons come from U, the rest stay. */
  lemma MoveRwCellsF(c: Cube, k: int)
    requires Valid(c) && 0 < k <= c.n
    ensures forall x, y | 0 <= x < c.n && c.n - k <= y < c.n :: MoveRw(c, k).F[x][y] == c.U[x][y]
    ensures forall x, y | 0 <= x < c.n && 0 <= y < c.n - k :: MoveRw(c, k).F[x][y] == c.F[x][y]
  {
    hide *;
    ValidFaces(c);
    MoveRwIs(c, k);
    RwLayersF(c.(R := RotateCW(c.R)), k);
  }

  /** Rw' with `k` layers rotates R counterclockwise and leaves L alone. */
  lemma MoveRwPrimeFaces(c: Cube, k: int)
    requires Valid(c) && 0 < k <= c.n
    ensures MoveRwPrime(c, k).R == RotateCCW(c.R) && MoveRwPrime(c, k).L == c.L
  {
    hide *;
    MoveRwPrimeIs(c, k);
  }

  /** Where Rw' with `k` layers puts the facelets of U: its first `k` ribbons come from F, the rest stay. */
  lemma MoveRwPrimeCellsU(c: Cube, k: int)
    requires Valid(c) && 0 < k <= c.n
    ensures forall x, y | 0 <= x < c.n && c.n - k <= y < c.n :: MoveRwPrime(c, k).U[x][y] == c.F[x][y]
    ensures forall x, y | 0 <= x < c.n && 0 <= y < c.n - k :: MoveRwPrime(c, k).U[x][y] == c.U[x][y]
  {
    hide *;
    MoveRwPrimeIs(c, k);
    RwPrimeLayersU(c, k);
  }

  /** Where Rw' with `k` layers puts the facelets of F: its first `k` ribbons come from D, the rest stay. */
  lemma MoveRwPrimeCellsF(c: Cube, k: int)
    requires Valid(c) && 0 < k <= c.n
    ensures forall x, y | 0 <= x < c.n && c.n - k <= y < c.n :: MoveRwPrime(c, k).F[x][y] == c.D[x][y]
    ensures forall x, y | 0 <= x < c.n && 0 <= y < c.n - k :: MoveRwPrime(c, k).F[x][y] == c.F[x][y]
  {
    hide *;
    MoveRwPrimeIs(c, k);
    RwPrimeLayersF(c, k);
  }

  /** Where Rw' with `k` layers puts the facelets of D: its first `k` ribbons come from B, the rest stay. */
  lemma MoveRwPrimeCellsD(c: Cube, k: int)
    requires Valid(c) && 0 < k <= c.n
    ensures forall x, y | 0 <= x < c.n && c.n - k <= y < c.n :: MoveRwPrime(c, k).D[x][y] == c.B[c.n - 1 - x][c.n - 1 - y]
    ensures forall x, y | 0 <= x < c.n && 0 <= y < c.n - k :: MoveRwPrime(c, k).D[x][y] == c.D[x][y]
  {
    hide *;
    MoveRwPrimeIs(c, k);
    RwPrimeLayersD(c, k);
  }

  /** Where Rw' with `k` layers puts the facelets of B: its first `k` ribbons come from U, the rest stay. */
  lemma MoveRwPrimeCellsB(c: Cube, k: int)
    requires Valid(c) && 0 < k <= c.n
    ensures forall x, y | 0 <= x < c.n && 0 <= y < k :: MoveRwPrime(c, k).B[x][y] == c.U[c.n - 1 - x][c.n - 1 - y]
    ensures forall x, y | 0 <= x < c.n && k <= y < c.n :: MoveRwPrime(c, k).B[x][y] == c.B[x][y]
  {
    hide *;
    MoveRwPrimeIs(c, k);
    RwPrimeLayersB(c, k);
  }

  /** `MoveFw` unfolded: the guarded rotation, then the loop. */
  lemma MoveFwIs(c: Cube, layers: int)
    requires Valid(c) && layers <= c.n
    ensures layers <= 0 ==> MoveFw(c, layers) == c
    ensures layers > 0 ==> Valid(c.(F := RotateCW(c.F))) && MoveFw(c, layers) == FwLayers(c.(F := RotateCW(c.F)), c.n - layers, layers)
  {
  }

  /** `MoveFwPrime` unfolded: the loop, then the guarded rotation. */
  lemma MoveFwPrimeIs(c: Cube, layers: int)
    requires Valid(c) && layers <= c.n
    ensures layers <= 0 ==> MoveFwPrime(c, layers) == c
    ensures layers > 0 ==> MoveFwPrime(c, layers).F == RotateCCW(FwPrimeLayers(c, c.n - layers, layers).F)
    ensures layers > 0 ==> MoveFwPrime(c, layers).U == FwPrimeLayers(c, c.n - layers, layers).U && MoveFwPrime(c, layers).D == FwPrimeLayers(c, c.n - layers, layers).D && MoveFwPrime(c, layers).L == FwPrimeLayers(c, c.n - layers, layers).L && MoveFwPrime(c, layers).R == FwPrimeLayers(c, c.n - layers, layers).R && MoveFwPrime(c, layers).B == FwPrimeLayers(c, c.n - layers, layers).B
  {
  }

  /** With no layers to turn, Fw and Fw' leave the cube as it is. */
  lemma MoveFwNoOp(c: Cube, layers: int)
    requires Valid(c) && layers <= 0
    ensures MoveFw(c, layers) == c
    ensures MoveFwPrime(c, layers) == c
  {
    MoveFwIs(c, layers);
    MoveFwPrimeIs(c, layers);
  }

  /** Fw with `k` layers rotates F clockwise and leaves B alone. */
  lemma MoveFwFaces(c: Cube, k: int)
    requires Valid(c) && 0 < k <= c.n
    ensures MoveFw(c, k).F == RotateCW(c.F) && MoveFw(c, k).B == c.B
  {
    hide *;
    ValidFaces(c);
    MoveFwIs(c, k);
  }

  /** Where Fw with `k` layers puts the facelets of U: its first `k` ribbons come from L, the rest stay. */
  lemma MoveFwCellsU(c: Cube, k: int)
    requires Valid(c) && 0 < k <= c.n
    ensures forall x, y | c.n - k <= x < c.n && 0 <= y < c.n :: MoveFw(c, k).U[x][y] == c.L[c.n - 1 - y][c.n - 1 - (x - (c.n - k))]
    ensures forall x, y | 0 <= x < c.n - k && 0 <= y < c.n :: MoveFw(c, k).U[x][y] == c.U[x][y]
  {
    hide *;
    ValidFaces(c);
    MoveFwIs(c, k);
    FwLayersU(c.(F := RotateCW(c.F)), c.n - k, k);
  }

  /** Where Fw with `k` layers puts the facelets of L: its first `k` ribbons come from D, the rest stay. */
  lemma MoveFwCellsL(c: Cube, k: int)
    requires Valid(c) && 0 < k <= c.n
    ensures forall x, y | 0 <= x < c.n && c.n - k <= y < c.n :: MoveFw(c, k).L[x][y] == c.D[c.n - 1 - y][x]
    ensures forall x, y | 0 <= x < c.n && 0 <= y < c.n - k :: MoveFw(c, k).L[x][y] == c.L[x][y]
  {
    hide *;
    ValidFaces(c);
    MoveFwIs(c, k);
    FwLayersL(c.(F := RotateCW(c.F)), c.n - k, k);
  }

  /** Where Fw with `k` layers puts the facelets of D: its first `k` ribbons come from R, the rest stay. */
  lemma MoveFwCellsD(c: Cube, k: int)
    requires Valid(c) && 0 < k <= c.n
    ensures forall x, y | 0 <= x < k && 0 <= y < c.n :: MoveFw(c, k).D[x][y] == c.R[c.n - 1 - y][x]
    ensures forall x, y | k <= x < c.n && 0 <= y < c.n :: MoveFw(c, k).D[x][y] == c.D[x][y]
  {
    hide *;
    ValidFaces(c);
    MoveFwIs(c, k);
    FwLayersD(c.(F := RotateCW(c.F)), c.n - k, k);
  }

  /** Where Fw with `k` layers puts the facelets of R: its first `k` ribbons come from U, the rest stay. */
  lemma MoveFwCellsR(c: Cube, k: int)
    requires Valid(c) && 0 < k <= c.n
    ensures forall x, y | 0 <= x < c.n && 0 <= y < k :: MoveFw(c, k).R[x][y] == c.U[c.n - k + y][x]
    ensures forall x, y | 0 <= x < c.n && k <= y < c.n :: MoveFw(c, k).R[x][y] == c.R[x][y]
  {
    hide *;
    ValidFaces(c);
    MoveFwIs(c, k);
    FwLayersR(c.(F := RotateCW(c.F)), c.n - k, k);
  }

  /** Fw' with `k` layers rotates F counterclockwise and leaves B alone. */
  lemma MoveFwPrimeFaces(c: Cube, k: int)
    requires Valid(c) && 0 < k <= c.n
    ensures MoveFwPrime(c, k).F == RotateCCW(c.F) && MoveFwPrime(c, k).B == c.B
  {
    hide *;
    MoveFwPrimeIs(c, k);
  }

  /** Where Fw' with `k` layers puts the facelets of U: its first `k` ribbons come from R, the rest stay. */
  lemma MoveFwPrimeCellsU(c: Cube, k: int)
    requires Valid(c) && 0 < k <= c.n
    ensures forall x, y | c.n - k <= x < c.n && 0 <= y < c.n :: MoveFwPrime(c, k).U[x][y] == c.R[y][x - (c.n - k)]
    ensures forall x, y | 0 <= x < c.n - k && 0 <= y < c.n :: MoveFwPrime(c, k).U[x][y] == c.U[x][y]
  {
    hide *;
    MoveFwPrimeIs(c, k);
    FwPrimeLayersU(c, c.n - k, k);
  }

  /** Where Fw' with `k` layers puts the facelets of R: its first `k` ribbons come from D, the rest stay. */
  lemma MoveFwPrimeCellsR(c: Cube, k: int)
    requires Valid(c) && 0 < k <= c.n
    ensures forall x, y | 0 <= x < c.n && 0 <= y < k :: MoveFwPrime(c, k).R[x][y] == c.D[y][c.n - 1 - x]
    ensures forall x, y | 0 <= x < c.n && k <= y < c.n :: MoveFwPrime(c, k).R[x][y] == c.R[x][y]
  {
    hide *;
    MoveFwPrimeIs(c, k);
    FwPrimeLayersR(c, c.n - k, k);
  }

  /** Where Fw' with `k` layers puts the facelets of D: its first `k` ribbons come from L, the rest stay. */
  lemma MoveFwPrimeCellsD(c: Cube, k: int)
    requires Valid(c) && 0 < k <= c.n
    ensures forall x, y | 0 <= x < k && 0 <= y < c.n :: MoveFwPrime(c, k).D[x][y] == c.L[y][c.n - 1 - x]
    ensures forall x, y | k <= x < c.n && 0 <= y < c.n :: MoveFwPrime(c, k).D[x][y] == c.D[x][y]
  {
    hide *;
    MoveFwPrimeIs(c, k);
    FwPrimeLayersD(c, c.n - k, k);
  }

  /** Where Fw' with `k` layers puts the facelets of L: its first `k` ribbons come from U, the rest stay. */
  lemma MoveFwPrimeCellsL(c: Cube, k: int)
    requires Valid(c) && 0 < k <= c.n
    ensures forall x, y | 0 <= x < c.n && c.n - k <= y < c.n :: MoveFwPrime(c, k).L[x][y] == c.U[c.n - k + (c.n - 1 - y)][c.n - 1 - x]
    ensures forall x, y | 0 <= x < c.n && 0 <= y < c.n - k :: MoveFwPrime(c, k).L[x][y] == c.L[x][y]
  {
    hide *;
    MoveFwPrimeIs(c, k);
    FwPrimeLayersL(c, c.n - k, k);
  }

  /** `MoveBw` unfolded: the guarded rotation, then the loop. */
  lemma MoveBwIs(c: Cube, layers: int)
    requires Valid(c) && layers <= c.n
    ensures layers <= 0 ==> MoveBw(c, layers) == c
    ensures layers > 0 ==> Valid(c.(B := RotateCW(c.B))) && MoveBw(c, layers) == BwLayers(c.(B := RotateCW(c.B)), layers)
  {
  }

  /** `MoveBwPrime` unfolded: the loop, then the guarded rotation. */
  lemma MoveBwPrimeIs(c: Cube, layers: int)
    requires Valid(c) && layers <= c.n
    ensures layers <= 0 ==> MoveBwPrime(c, layers) == c
    ensures layers > 0 ==> MoveBwPrime(c, layers).B == RotateCCW(BwPrimeLayers(c, layers).B)
    ensures layers > 0 ==> MoveBwPrime(c, layers).U == BwPrimeLayers(c, layers).U && MoveBwPrime(c, layers).D == BwPrimeLayers(c, layers).D && MoveBwPrime(c, layers).L == BwPrimeLayers(c, layers).L && MoveBwPrime(c, layers).R == BwPrimeLayers(c, layers).R && MoveBwPrime(c, layers).F == BwPrimeLayers(c, layers).F
  {
  }

  /** With no layers to turn, Bw and Bw' leave the cube as it is. */
  lemma MoveBwNoOp(c: Cube, layers: int)
    requires Valid(c) && layers <= 0
    ensures MoveBw(c, layers) == c
    ensures MoveBwPrime(c, layers) == c
  {
    MoveBwIs(c, layers);
    MoveBwPrimeIs(c, layers);
  }

  /** Bw with `k` layers rotates B clockwise and leaves F alone. */
  lemma MoveBwFaces(c: Cube, k: int)
    requires Valid(c) && 0 < k <= c.n
    ensures MoveBw(c, k).B == RotateCW(c.B) && MoveBw(c, k).F == c.F
  {
    hide *;
    ValidFaces(c);
    MoveBwIs(c, k);
  }

  /** Where Bw with `k` layers puts the facelets of U: its first `k` ribbons come from R, the rest stay. */
  lemma MoveBwCellsU(c: Cube, k: int)
    requires Valid(c) && 0 < k <= c.n
    ensures forall x, y | 0 <= x < k && 0 <= y < c.n :: MoveBw(c, k).U[x][y] == c.R[c.n - 1 - y][c.n - 1 - x]
    ensures forall x, y | k <= x < c.n && 0 <= y < c.n :: MoveBw(c, k).U[x][y] == c.U[x][y]
  {
    hide *;
    ValidFaces(c);
    MoveBwIs(c, k);
    BwLayersU(c.(B := RotateCW(c.B)), k);
  }

  /** Where Bw with `k` layers puts the facelets of R: its first `k` ribbons come from D, the rest stay. */
  lemma MoveBwCellsR(c: Cube, k: int)
    requires Valid(c) && 0 < k <= c.n
    ensures forall x, y | 0 <= x < c.n && c.n - k <= y < c.n :: MoveBw(c, k).R[x][y] == c.D[y][x]
    ensures forall x, y | 0 <= x < c.n && 0 <= y < c.n - k :: MoveBw(c, k).R[x][y] == c.R[x][y]
  {
    hide *;
    ValidFaces(c);
    MoveBwIs(c, k);
    BwLayersR(c.(B := RotateCW(c.B)), k);
  }

  /** Where Bw with `k` layers puts the facelets of D: its first `k` ribbons come from L, the rest stay. */
  lemma MoveBwCellsD(c: Cube, k: int)
    requires Valid(c) && 0 < k <= c.n
    ensures forall x, y | c.n - k <= x < c.n && 0 <= y < c.n :: MoveBw(c, k).D[x][y] == c.L[c.n - 1 - y][c.n - 1 - x]
    ensures forall x, y | 0 <= x < c.n - k && 0 <= y < c.n :: MoveBw(c, k).D[x][y] == c.D[x][y]
  {
    hide *;
    ValidFaces(c);
    MoveBwIs(c, k);
    BwLayersD(c.(B := RotateCW(c.B)), k);
  }

  /** Where Bw with `k` layers puts the facelets of L: its first `k` ribbons come from U, the rest stay. */
  lemma MoveBwCellsL(c: Cube, k: int)
    requires Valid(c) && 0 < k <= c.n
    ensures forall x, y | 0 <= x < c.n && 0 <= y < k :: MoveBw(c, k).L[x][y] == c.U[y][x]
    ensures forall x, y | 0 <= x < c.n && k <= y < c.n :: MoveBw(c, k).L[x][y] == c.L[x][y]
  {
    hide *;
    ValidFaces(c);
    MoveBwIs(c, k);
    BwLayersL(c.(B := RotateCW(c.B)), k);
  }

  /** Bw' with `k` layers rotates B counterclockwise and leaves F alone. */
  lemma MoveBwPrimeFaces(c: Cube, k: int)
    requires Valid(c) && 0 < k <= c.n
    ensures MoveBwPrime(c, k).B == RotateCCW(c.B) && MoveBwPrime(c, k).F == c.F
  {
    hide *;
    MoveBwPrimeIs(c, k);
  }

  /** Where Bw' with `k` layers puts the facelets of U: its first `k` ribbons come from L, the rest stay. */
  lemma MoveBwPrimeCellsU(c: Cube, k: int)
    requires Valid(c) && 0 < k <= c.n
    ensures forall x, y | 0 <= x < k && 0 <= y < c.n :: MoveBwPrime(c, k).U[x][y] == c.L[y][x]
    ensures forall x, y | k <= x < c.n && 0 <= y < c.n :: MoveBwPrime(c, k).U[x][y] == c.U[x][y]
  {
    hide *;
    MoveBwPrimeIs(c, k);
    BwPrimeLayersU(c, k);
  }

  /** Where Bw' with `k` layers puts the facelets of L: its first `k` ribbons come from D, the rest stay. */
  lemma MoveBwPrimeCellsL(c: Cube, k: int)
    requires Valid(c) && 0 < k <= c.n
    ensures forall x, y | 0 <= x < c.n && 0 <= y < k :: MoveBwPrime(c, k).L[x][y] == c.D[c.n - 1 - y][c.n - 1 - x]
    ensures forall x, y | 0 <= x < c.n && k <= y < c.n :: MoveBwPrime(c, k).L[x][y] == c.L[x][y]
  {
    hide *;
    MoveBwPrimeIs(c, k);
    BwPrimeLayersL(c, k);
  }

  /** Where Bw' with `k` layers puts the facelets of D: its first `k` ribbons come from R, the rest stay. */
  lemma MoveBwPrimeCellsD(c: Cube, k: int)
    requires Valid(c) && 0 < k <= c.n
    ensures forall x, y | c.n - k <= x < c.n && 0 <= y < c.n :: MoveBwPrime(c, k).D[x][y] == c.R[y][x]
    ensures forall x, y | 0 <= x < c.n - k && 0 <= y < c.n :: MoveBwPrime(c, k).D[x][y] == c.D[x][y]
  {
    hide *;
    MoveBwPrimeIs(c, k);
    BwPrimeLayersD(c, k);
  }

  /** Where Bw' with `k` layers puts the facelets of R: its first `k` ribbons come from U, the rest stay. */
  lemma MoveBwPrimeCellsR(c: Cube, k: int)
    requires Valid(c) && 0 < k <= c.n
    ensures forall x, y | 0 <= x < c.n && c.n - k <= y < c.n :: MoveBwPrime(c, k).R[x][y] == c.U[c.n - 1 - y][c.n - 1 - x]
    ensures forall x, y | 0 <= x < c.n && 0 <= y < c.n - k :: MoveBwPrime(c, k).R[x][y] == c.R[x][y]
  {
    hide *;
    MoveBwPrimeIs(c, k);
    BwPrimeLayersR(c, k);
  }
}
