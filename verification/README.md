# A verified model of an N×N×N cube move engine

This project models the move engine of a JavaScript Rubik's-cube library in
Dafny. The library keeps an N×N×N cube as six square grids of facelets,
named U, D, L, R, F and B. It turns the cube with these moves:

- the twelve single-layer quarter turns (U, U′, …, B′);
- the six half turns (U2 … B2);
- the twelve wide turns (Uw, Uw′, …, Bw′), each taking a layer count;
- the six middle-slice turns (M, M′, E, E′, S, S′).

Each move is modelled as a pure function on an immutable `Cube` value. The
model follows the source's own sequence of row and column reads and
writes, in the source's order. The proofs then establish:

- the index formulas of the two face rotations, and that they are inverses;
- for every move, the exact destination of every facelet, and that every
  other facelet keeps its place;
- each move and its inverse undo each other, in both orders;
- every move has order four (a half turn applied twice is the identity);
- every move keeps the number of facelets of each colour;
- a single turn is the wide turn with one layer, and a wide turn with zero
  or fewer layers changes nothing;
- the scrambler's loop over a given sequence of draws is undone by the
  opposite turns taken in reverse order.

| file | module | contents |
|---|---|---|
| grids.dfy | Grids | square grids, row and column ribbons, reversal, both quarter rotations and their laws |
| grid_counts.dfy | GridCounts | per-colour counts of a grid, and how rotations and ribbon writes change them |
| cube.dfy | Cubes | the cube, its construction, the source's solved check and the uniform one, the state snapshot, colour counts |
| face_moves.dfy | FaceMoves | the twelve quarter turns and six half turns |
| wide_moves.dfy | WideMoves | the twelve wide turns, as the per-layer loop of the source |
| wide_cells.dfy | WideCells | what one loop iteration of a wide turn does to each cell |
| wide_closed.dfy | WideClosedForms | what a whole wide turn does to each cell, for any layer count |
| wide_laws.dfy | WideLaws | wide turns: inverse and order four |
| face_laws.dfy | FaceLaws | quarter turns as one-layer wide turns; their cells, inverse, order four; the half-turn laws |
| slice_moves.dfy | SliceMoves | the middle index, the slice turns (S′ as written and corrected), and their cells |
| slice_laws.dfy | SliceLaws | slice turns: inverse and order four |
| colors.dfy | Colors | every move keeps each colour's facelet count |
| findings.dfy | Findings | the two discrepancies listed under Findings, shown on the code as written |
| scramble.dfy | Scramble | the scrambler's twelve-turn list and its loop over given draws |

Source paths below are relative to the repository root.
`src/algorithms/cube-Structure-Rotations.js` holds the cube and every move.
`src/algorithms/cube-scramble.js` holds the scrambler.

Two comments in the source state intentions that the code does not carry out.
The model follows the code:

- The comment on `isSolved` (src/algorithms/cube-Structure-Rotations.js:14) says it checks that all faces are
  solved. The code only checks that each row of each face is one colour.
  `Cubes.IsSolved` is the code's check, and `Cubes.IsSolvedUniform` is the
  whole-face check the comment describes (see Findings).
- The comment above the slice turns (src/algorithms/cube-Structure-Rotations.js:747) says they are for odd-sized
  cubes only. The code does not check N; it uses the middle index
  `floor(n / 2)` for every N. The model does the same, for every N ≥ 1.

## Model

| member | source | states |
|---|---|---|
| Grids.Rev | src/algorithms/cube-Structure-Rotations.js:283 | the reversed ribbon has the same length and holds cell n-1-k of the original at position k |
| Grids.RotateCW | src/algorithms/cube-Structure-Rotations.js:45-49 | turning an n×n face clockwise gives an n×n face |
| Grids.RotateCCW | src/algorithms/cube-Structure-Rotations.js:51-55 | turning an n×n face counterclockwise gives an n×n face |
| Grids.RotateCWAsBuilt | src/algorithms/cube-Structure-Rotations.js:45-49 | the source's construction (column i of the face, reversed, as row i) yields an n×n face |
| Grids.RotateCCWAsBuilt | src/algorithms/cube-Structure-Rotations.js:51-55 | the source's construction (the face's columns in order, then the list of rows reversed) yields an n×n face |
| Grids.RotateCWAsBuiltAgrees | src/algorithms/cube-Structure-Rotations.js:45-49 | the face the source assembles (row i is column i of the face, reversed) has at row i, column j the old cell at row n-1-j, column i |
| Grids.RotateCCWAsBuiltAgrees | src/algorithms/cube-Structure-Rotations.js:51-55 | the face the source assembles (the columns in order, then the list of rows reversed) has at row i, column j the old cell at row j, column n-1-i |
| Grids.RotateRoundTrip | src/algorithms/cube-Structure-Rotations.js:45-55 | the two rotations undo each other in either order on every n×n face with n >= 1 |
| Grids.RotateHalfTurn | src/algorithms/cube-Structure-Rotations.js:45-49 | two clockwise turns send the cell at row i, column j to row n-1-i, column n-1-j |
| Grids.RotateOrderFour | src/algorithms/cube-Structure-Rotations.js:45-49 | four clockwise turns give the face back |
| Grids.RotateCCWIsThreeCW | src/algorithms/cube-Structure-Rotations.js:45-55 | a counterclockwise turn equals three clockwise turns |
| GridCounts.RevMultiset | src/algorithms/cube-Structure-Rotations.js:283 | a reversed ribbon holds the same facelets |
| GridCounts.SetRowCount | src/algorithms/cube-Structure-Rotations.js:66-69 | writing a ribbon into a row trades that row's colours for the ribbon's: the count of each colour changes by exactly that difference |
| GridCounts.SetColCount | src/algorithms/cube-Structure-Rotations.js:147-149 | writing a ribbon into a column trades that column's colours for the ribbon's |
| GridCounts.RotateCWCount | src/algorithms/cube-Structure-Rotations.js:45-49 | a clockwise turn keeps the number of cells of each colour |
| GridCounts.RotateCCWCount | src/algorithms/cube-Structure-Rotations.js:51-55 | a counterclockwise turn keeps the number of cells of each colour |
| Cubes.New | src/algorithms/cube-Structure-Rotations.js:2-12 | a fresh cube of size n >= 1 has six n×n faces; every cell of U is white, of D yellow, of L green, of R blue, of F red and of B orange |
| Cubes.IsSolved | src/algorithms/cube-Structure-Rotations.js:14-19 | the source's row-by-row check accepts every cube whose faces are each one colour; the converse fails (Findings.RowCheckAcceptsTurnedCube), and Cubes.UniformIsSolved restates the accepting direction for valid cubes |
| Cubes.NewIsSolved | src/algorithms/cube-Structure-Rotations.js:2-19 | a fresh cube passes the source's solved check, and also the stricter whole-face check |
| Cubes.UniformIsSolved | src/algorithms/cube-Structure-Rotations.js:15-19 | every cube whose faces are each one colour passes the source's row-by-row check |
| Cubes.GetState | src/algorithms/cube-Structure-Rotations.js:22-31 | the snapshot loses nothing: restoring it with the cube's size gives back exactly the cube |
| FaceMoves.MoveU | src/algorithms/cube-Structure-Rotations.js:59-70 | keeps every face n×n and the size unchanged, and leaves the opposite face D untouched |
| FaceMoves.MoveUPrime | src/algorithms/cube-Structure-Rotations.js:72-82 | keeps every face n×n and the size unchanged, and leaves the opposite face D untouched |
| FaceMoves.MoveD | src/algorithms/cube-Structure-Rotations.js:84-93 | keeps every face n×n and the size unchanged, and leaves the opposite face U untouched |
| FaceMoves.MoveDPrime | src/algorithms/cube-Structure-Rotations.js:95-105 | keeps every face n×n and the size unchanged, and leaves the opposite face U untouched |
| FaceMoves.MoveL | src/algorithms/cube-Structure-Rotations.js:107-150 | keeps every face n×n and the size unchanged, and leaves the opposite face R untouched |
| FaceMoves.MoveLPrime | src/algorithms/cube-Structure-Rotations.js:152-186 | keeps every face n×n and the size unchanged, and leaves the opposite face R untouched |
| FaceMoves.MoveR | src/algorithms/cube-Structure-Rotations.js:188-232 | keeps every face n×n and the size unchanged, and leaves the opposite face L untouched |
| FaceMoves.MoveRPrime | src/algorithms/cube-Structure-Rotations.js:234-268 | keeps every face n×n and the size unchanged, and leaves the opposite face L untouched |
| FaceMoves.MoveF | src/algorithms/cube-Structure-Rotations.js:270-303 | keeps every face n×n and the size unchanged, and leaves the opposite face B untouched |
| FaceMoves.MoveFPrime | src/algorithms/cube-Structure-Rotations.js:305-337 | keeps every face n×n and the size unchanged, and leaves the opposite face B untouched |
| FaceMoves.MoveB | src/algorithms/cube-Structure-Rotations.js:339-372 | keeps every face n×n and the size unchanged, and leaves the opposite face F untouched |
| FaceMoves.MoveBPrime | src/algorithms/cube-Structure-Rotations.js:374-406 | keeps every face n×n and the size unchanged, and leaves the opposite face F untouched |
| FaceMoves.MoveU2 | src/algorithms/cube-Structure-Rotations.js:879-882 | keeps every face n×n and the size unchanged |
| FaceMoves.MoveD2 | src/algorithms/cube-Structure-Rotations.js:884-887 | keeps every face n×n and the size unchanged |
| FaceMoves.MoveL2 | src/algorithms/cube-Structure-Rotations.js:889-892 | keeps every face n×n and the size unchanged |
| FaceMoves.MoveR2 | src/algorithms/cube-Structure-Rotations.js:894-897 | keeps every face n×n and the size unchanged |
| FaceMoves.MoveF2 | src/algorithms/cube-Structure-Rotations.js:899-902 | keeps every face n×n and the size unchanged |
| FaceMoves.MoveB2 | src/algorithms/cube-Structure-Rotations.js:904-907 | keeps every face n×n and the size unchanged |
| WideMoves.MoveUw | src/algorithms/cube-Structure-Rotations.js:412-425 | for every layer count up to n (zero and negative counts included) keeps every face n×n and the size unchanged |
| WideMoves.MoveUwPrime | src/algorithms/cube-Structure-Rotations.js:427-439 | for every layer count up to n (zero and negative counts included) keeps every face n×n and the size unchanged |
| WideMoves.MoveDw | src/algorithms/cube-Structure-Rotations.js:442-455 | for every layer count up to n (zero and negative counts included) keeps every face n×n and the size unchanged |
| WideMoves.MoveDwPrime | src/algorithms/cube-Structure-Rotations.js:457-470 | for every layer count up to n (zero and negative counts included) keeps every face n×n and the size unchanged |
| WideMoves.MoveLw | src/algorithms/cube-Structure-Rotations.js:473-508 | for every layer count up to n (zero and negative counts included) keeps every face n×n and the size unchanged |
| WideMoves.MoveLwPrime | src/algorithms/cube-Structure-Rotations.js:510-537 | for every layer count up to n (zero and negative counts included) keeps every face n×n and the size unchanged |
| WideMoves.MoveRw | src/algorithms/cube-Structure-Rotations.js:540-576 | for every layer count up to n (zero and negative counts included) keeps every face n×n and the size unchanged |
| WideMoves.MoveRwPrime | src/algorithms/cube-Structure-Rotations.js:578-606 | for every layer count up to n (zero and negative counts included) keeps every face n×n and the size unchanged |
| WideMoves.MoveFw | src/algorithms/cube-Structure-Rotations.js:609-643 | for every layer count up to n (zero and negative counts included) keeps every face n×n and the size unchanged |
| WideMoves.MoveFwPrime | src/algorithms/cube-Structure-Rotations.js:645-677 | for every layer count up to n (zero and negative counts included) keeps every face n×n and the size unchanged |
| WideMoves.MoveBw | src/algorithms/cube-Structure-Rotations.js:680-712 | for every layer count up to n (zero and negative counts included) keeps every face n×n and the size unchanged |
| WideMoves.MoveBwPrime | src/algorithms/cube-Structure-Rotations.js:714-744 | for every layer count up to n (zero and negative counts included) keeps every face n×n and the size unchanged |
| WideClosedForms.MoveUwNoOp | src/algorithms/cube-Structure-Rotations.js:412-439 | with a layer count of zero or less, Uw and Uw' return the cube unchanged: the rotation is guarded and the loop is empty |
| WideClosedForms.MoveUwFaces | src/algorithms/cube-Structure-Rotations.js:412-425 | for 0 < k <= n, Uw turns U clockwise exactly once and leaves D untouched |
| WideClosedForms.MoveUwCellsF | src/algorithms/cube-Structure-Rotations.js:412-425 | for 0 < k <= n: `F[x][y] = old R[x][y]` for x < k; every other cell of F keeps its colour |
| WideClosedForms.MoveUwCellsR | src/algorithms/cube-Structure-Rotations.js:412-425 | for 0 < k <= n: `R[x][y] = old B[x][y]` for x < k; every other cell of R keeps its colour |
| WideClosedForms.MoveUwCellsB | src/algorithms/cube-Structure-Rotations.js:412-425 | for 0 < k <= n: `B[x][y] = old L[x][y]` for x < k; every other cell of B keeps its colour |
| WideClosedForms.MoveUwCellsL | src/algorithms/cube-Structure-Rotations.js:412-425 | for 0 < k <= n: `L[x][y] = old F[x][y]` for x < k; every other cell of L keeps its colour |
| WideClosedForms.MoveUwPrimeFaces | src/algorithms/cube-Structure-Rotations.js:427-439 | for 0 < k <= n, Uw' turns U counterclockwise exactly once and leaves D untouched |
| WideClosedForms.MoveUwPrimeCellsF | src/algorithms/cube-Structure-Rotations.js:427-439 | for 0 < k <= n: `F[x][y] = old L[x][y]` for x < k; every other cell of F keeps its colour |
| WideClosedForms.MoveUwPrimeCellsL | src/algorithms/cube-Structure-Rotations.js:427-439 | for 0 < k <= n: `L[x][y] = old B[x][y]` for x < k; every other cell of L keeps its colour |
| WideClosedForms.MoveUwPrimeCellsB | src/algorithms/cube-Structure-Rotations.js:427-439 | for 0 < k <= n: `B[x][y] = old R[x][y]` for x < k; every other cell of B keeps its colour |
| WideClosedForms.MoveUwPrimeCellsR | src/algorithms/cube-Structure-Rotations.js:427-439 | for 0 < k <= n: `R[x][y] = old F[x][y]` for x < k; every other cell of R keeps its colour |
| WideClosedForms.MoveDwNoOp | src/algorithms/cube-Structure-Rotations.js:442-470 | with a layer count of zero or less, Dw and Dw' return the cube unchanged: the rotation is guarded and the loop is empty |
| WideClosedForms.MoveDwFaces | src/algorithms/cube-Structure-Rotations.js:442-455 | for 0 < k <= n, Dw turns D clockwise exactly once and leaves U untouched |
| WideClosedForms.MoveDwCellsF | src/algorithms/cube-Structure-Rotations.js:442-455 | for 0 < k <= n: `F[x][y] = old L[x][y]` for n - k <= x < n; every other cell of F keeps its colour |
| WideClosedForms.MoveDwCellsL | src/algorithms/cube-Structure-Rotations.js:442-455 | for 0 < k <= n: `L[x][y] = old B[x][y]` for n - k <= x < n; every other cell of L keeps its colour |
| WideClosedForms.MoveDwCellsB | src/algorithms/cube-Structure-Rotations.js:442-455 | for 0 < k <= n: `B[x][y] = old R[x][y]` for n - k <= x < n; every other cell of B keeps its colour |
| WideClosedForms.MoveDwCellsR | src/algorithms/cube-Structure-Rotations.js:442-455 | for 0 < k <= n: `R[x][y] = old F[x][y]` for n - k <= x < n; every other cell of R keeps its colour |
| WideClosedForms.MoveDwPrimeFaces | src/algorithms/cube-Structure-Rotations.js:457-470 | for 0 < k <= n, Dw' turns D counterclockwise exactly once and leaves U untouched |
| WideClosedForms.MoveDwPrimeCellsF | src/algorithms/cube-Structure-Rotations.js:457-470 | for 0 < k <= n: `F[x][y] = old R[x][y]` for n - k <= x < n; every other cell of F keeps its colour |
| WideClosedForms.MoveDwPrimeCellsR | src/algorithms/cube-Structure-Rotations.js:457-470 | for 0 < k <= n: `R[x][y] = old B[x][y]` for n - k <= x < n; every other cell of R keeps its colour |
| WideClosedForms.MoveDwPrimeCellsB | src/algorithms/cube-Structure-Rotations.js:457-470 | for 0 < k <= n: `B[x][y] = old L[x][y]` for n - k <= x < n; every other cell of B keeps its colour |
| WideClosedForms.MoveDwPrimeCellsL | src/algorithms/cube-Structure-Rotations.js:457-470 | for 0 < k <= n: `L[x][y] = old F[x][y]` for n - k <= x < n; every other cell of L keeps its colour |
| WideClosedForms.MoveLwNoOp | src/algorithms/cube-Structure-Rotations.js:473-537 | with a layer count of zero or less, Lw and Lw' return the cube unchanged: the rotation is guarded and the loop is empty |
| WideClosedForms.MoveLwFaces | src/algorithms/cube-Structure-Rotations.js:473-508 | for 0 < k <= n, Lw turns L clockwise exactly once and leaves R untouched |
| WideClosedForms.MoveLwCellsU | src/algorithms/cube-Structure-Rotations.js:473-508 | for 0 < k <= n: `U[x][y] = old B[n - 1 - x][n - 1 - y]` for y < k; every other cell of U keeps its colour |
| WideClosedForms.MoveLwCellsB | src/algorithms/cube-Structure-Rotations.js:473-508 | for 0 < k <= n: `B[x][y] = old D[n - 1 - x][n - 1 - y]` for n - k <= y < n; every other cell of B keeps its colour |
| WideClosedForms.MoveLwCellsD | src/algorithms/cube-Structure-Rotations.js:473-508 | for 0 < k <= n: `D[x][y] = old F[x][y]` for y < k; every other cell of D keeps its colour |
| WideClosedForms.MoveLwCellsF | src/algorithms/cube-Structure-Rotations.js:473-508 | for 0 < k <= n: `F[x][y] = old U[x][y]` for y < k; every other cell of F keeps its colour |
| WideClosedForms.MoveLwPrimeFaces | src/algorithms/cube-Structure-Rotations.js:510-537 | for 0 < k <= n, Lw' turns L counterclockwise exactly once and leaves R untouched |
| WideClosedForms.MoveLwPrimeCellsU | src/algorithms/cube-Structure-Rotations.js:510-537 | for 0 < k <= n: `U[x][y] = old F[x][y]` for y < k; every other cell of U keeps its colour |
| WideClosedForms.MoveLwPrimeCellsF | src/algorithms/cube-Structure-Rotations.js:510-537 | for 0 < k <= n: `F[x][y] = old D[x][y]` for y < k; every other cell of F keeps its colour |
| WideClosedForms.MoveLwPrimeCellsD | src/algorithms/cube-Structure-Rotations.js:510-537 | for 0 < k <= n: `D[x][y] = old B[n - 1 - x][n - 1 - y]` for y < k; every other cell of D keeps its colour |
| WideClosedForms.MoveLwPrimeCellsB | src/algorithms/cube-Structure-Rotations.js:510-537 | for 0 < k <= n: `B[x][y] = old U[n - 1 - x][n - 1 - y]` for n - k <= y < n; every other cell of B keeps its colour |
| WideClosedForms.MoveRwNoOp | src/algorithms/cube-Structure-Rotations.js:540-606 | with a layer count of zero or less, Rw and Rw' return the cube unchanged: the rotation is guarded and the loop is empty |
| WideClosedForms.MoveRwFaces | src/algorithms/cube-Structure-Rotations.js:540-576 | for 0 < k <= n, Rw turns R clockwise exactly once and leaves L untouched |
| WideClosedForms.MoveRwCellsU | src/algorithms/cube-Structure-Rotations.js:540-576 | for 0 < k <= n: `U[x][y] = old B[n - 1 - x][n - 1 - y]` for n - k <= y < n; every other cell of U keeps its colour |
| WideClosedForms.MoveRwCellsB | src/algorithms/cube-Structure-Rotations.js:540-576 | for 0 < k <= n: `B[x][y] = old D[n - 1 - x][n - 1 - y]` for y < k; every other cell of B keeps its colour |
| WideClosedForms.MoveRwCellsD | src/algorithms/cube-Structure-Rotations.js:540-576 | for 0 < k <= n: `D[x][y] = old F[x][y]` for n - k <= y < n; every other cell of D keeps its colour |
| WideClosedForms.MoveRwCellsF | src/algorithms/cube-Structure-Rotations.js:540-576 | for 0 < k <= n: `F[x][y] = old U[x][y]` for n - k <= y < n; every other cell of F keeps its colour |
| WideClosedForms.MoveRwPrimeFaces | src/algorithms/cube-Structure-Rotations.js:578-606 | for 0 < k <= n, Rw' turns R counterclockwise exactly once and leaves L untouched |
| WideClosedForms.MoveRwPrimeCellsU | src/algorithms/cube-Structure-Rotations.js:578-606 | for 0 < k <= n: `U[x][y] = old F[x][y]` for n - k <= y < n; every other cell of U keeps its colour |
| WideClosedForms.MoveRwPrimeCellsF | src/algorithms/cube-Structure-Rotations.js:578-606 | for 0 < k <= n: `F[x][y] = old D[x][y]` for n - k <= y < n; every other cell of F keeps its colour |
| WideClosedForms.MoveRwPrimeCellsD | src/algorithms/cube-Structure-Rotations.js:578-606 | for 0 < k <= n: `D[x][y] = old B[n - 1 - x][n - 1 - y]` for n - k <= y < n; every other cell of D keeps its colour |
| WideClosedForms.MoveRwPrimeCellsB | src/algorithms/cube-Structure-Rotations.js:578-606 | for 0 < k <= n: `B[x][y] = old U[n - 1 - x][n - 1 - y]` for y < k; every other cell of B keeps its colour |
| WideClosedForms.MoveFwNoOp | src/algorithms/cube-Structure-Rotations.js:609-677 | with a layer count of zero or less, Fw and Fw' return the cube unchanged: the rotation is guarded and the loop is empty |
| WideClosedForms.MoveFwFaces | src/algorithms/cube-Structure-Rotations.js:609-643 | for 0 < k <= n, Fw turns F clockwise exactly once and leaves B untouched |
| WideClosedForms.MoveFwCellsU | src/algorithms/cube-Structure-Rotations.js:609-643 | for 0 < k <= n: `U[x][y] = old L[n - 1 - y][n - 1 - (x - (n - k))]` for n - k <= x < n; every other cell of U keeps its colour |
| WideClosedForms.MoveFwCellsL | src/algorithms/cube-Structure-Rotations.js:609-643 | for 0 < k <= n: `L[x][y] = old D[n - 1 - y][x]` for n - k <= y < n; every other cell of L keeps its colour |
| WideClosedForms.MoveFwCellsD | src/algorithms/cube-Structure-Rotations.js:609-643 | for 0 < k <= n: `D[x][y] = old R[n - 1 - y][x]` for x < k; every other cell of D keeps its colour |
| WideClosedForms.MoveFwCellsR | src/algorithms/cube-Structure-Rotations.js:609-643 | for 0 < k <= n: `R[x][y] = old U[n - k + y][x]` for y < k; every other cell of R keeps its colour |
| WideClosedForms.MoveFwPrimeFaces | src/algorithms/cube-Structure-Rotations.js:645-677 | for 0 < k <= n, Fw' turns F counterclockwise exactly once and leaves B untouched |
| WideClosedForms.MoveFwPrimeCellsU | src/algorithms/cube-Structure-Rotations.js:645-677 | for 0 < k <= n: `U[x][y] = old R[y][x - (n - k)]` for n - k <= x < n; every other cell of U keeps its colour |
| WideClosedForms.MoveFwPrimeCellsR | src/algorithms/cube-Structure-Rotations.js:645-677 | for 0 < k <= n: `R[x][y] = old D[y][n - 1 - x]` for y < k; every other cell of R keeps its colour |
| WideClosedForms.MoveFwPrimeCellsD | src/algorithms/cube-Structure-Rotations.js:645-677 | for 0 < k <= n: `D[x][y] = old L[y][n - 1 - x]` for x < k; every other cell of D keeps its colour |
| WideClosedForms.MoveFwPrimeCellsL | src/algorithms/cube-Structure-Rotations.js:645-677 | for 0 < k <= n: `L[x][y] = old U[n - k + (n - 1 - y)][n - 1 - x]` for n - k <= y < n; every other cell of L keeps its colour |
| WideClosedForms.MoveBwNoOp | src/algorithms/cube-Structure-Rotations.js:680-744 | with a layer count of zero or less, Bw and Bw' return the cube unchanged: the rotation is guarded and the loop is empty |
| WideClosedForms.MoveBwFaces | src/algorithms/cube-Structure-Rotations.js:680-712 | for 0 < k <= n, Bw turns B clockwise exactly once and leaves F untouched |
| WideClosedForms.MoveBwCellsU | src/algorithms/cube-Structure-Rotations.js:680-712 | for 0 < k <= n: `U[x][y] = old R[n - 1 - y][n - 1 - x]` for x < k; every other cell of U keeps its colour |
| WideClosedForms.MoveBwCellsR | src/algorithms/cube-Structure-Rotations.js:680-712 | for 0 < k <= n: `R[x][y] = old D[y][x]` for n - k <= y < n; every other cell of R keeps its colour |
| WideClosedForms.MoveBwCellsD | src/algorithms/cube-Structure-Rotations.js:680-712 | for 0 < k <= n: `D[x][y] = old L[n - 1 - y][n - 1 - x]` for n - k <= x < n; every other cell of D keeps its colour |
| WideClosedForms.MoveBwCellsL | src/algorithms/cube-Structure-Rotations.js:680-712 | for 0 < k <= n: `L[x][y] = old U[y][x]` for y < k; every other cell of L keeps its colour |
| WideClosedForms.MoveBwPrimeFaces | src/algorithms/cube-Structure-Rotations.js:714-744 | for 0 < k <= n, Bw' turns B counterclockwise exactly once and leaves F untouched |
| WideClosedForms.MoveBwPrimeCellsU | src/algorithms/cube-Structure-Rotations.js:714-744 | for 0 < k <= n: `U[x][y] = old L[y][x]` for x < k; every other cell of U keeps its colour |
| WideClosedForms.MoveBwPrimeCellsL | src/algorithms/cube-Structure-Rotations.js:714-744 | for 0 < k <= n: `L[x][y] = old D[n - 1 - y][n - 1 - x]` for y < k; every other cell of L keeps its colour |
| WideClosedForms.MoveBwPrimeCellsD | src/algorithms/cube-Structure-Rotations.js:714-744 | for 0 < k <= n: `D[x][y] = old R[y][x]` for n - k <= x < n; every other cell of D keeps its colour |
| WideClosedForms.MoveBwPrimeCellsR | src/algorithms/cube-Structure-Rotations.js:714-744 | for 0 < k <= n: `R[x][y] = old U[n - 1 - y][n - 1 - x]` for n - k <= y < n; every other cell of R keeps its colour |
| WideLaws.MoveUwInverse | src/algorithms/cube-Structure-Rotations.js:412-439 | for every layer count up to n, Uw' undoes Uw |
| WideLaws.MoveUwPrimeInverse | src/algorithms/cube-Structure-Rotations.js:412-439 | for every layer count up to n, Uw undoes Uw' |
| WideLaws.MoveUwOrderFour | src/algorithms/cube-Structure-Rotations.js:412-425 | for every layer count up to n, four Uw turns give the cube back |
| WideLaws.MoveUwPrimeOrderFour | src/algorithms/cube-Structure-Rotations.js:427-439 | for every layer count up to n, four Uw' turns give the cube back |
| WideLaws.MoveDwInverse | src/algorithms/cube-Structure-Rotations.js:442-470 | for every layer count up to n, Dw' undoes Dw |
| WideLaws.MoveDwPrimeInverse | src/algorithms/cube-Structure-Rotations.js:442-470 | for every layer count up to n, Dw undoes Dw' |
| WideLaws.MoveDwOrderFour | src/algorithms/cube-Structure-Rotations.js:442-455 | for every layer count up to n, four Dw turns give the cube back |
| WideLaws.MoveDwPrimeOrderFour | src/algorithms/cube-Structure-Rotations.js:457-470 | for every layer count up to n, four Dw' turns give the cube back |
| WideLaws.MoveLwInverse | src/algorithms/cube-Structure-Rotations.js:473-537 | for every layer count up to n, Lw' undoes Lw |
| WideLaws.MoveLwPrimeInverse | src/algorithms/cube-Structure-Rotations.js:473-537 | for every layer count up to n, Lw undoes Lw' |
| WideLaws.MoveLwOrderFour | src/algorithms/cube-Structure-Rotations.js:473-508 | for every layer count up to n, four Lw turns give the cube back |
| WideLaws.MoveLwPrimeOrderFour | src/algorithms/cube-Structure-Rotations.js:510-537 | for every layer count up to n, four Lw' turns give the cube back |
| WideLaws.MoveRwInverse | src/algorithms/cube-Structure-Rotations.js:540-606 | for every layer count up to n, Rw' undoes Rw |
| WideLaws.MoveRwPrimeInverse | src/algorithms/cube-Structure-Rotations.js:540-606 | for every layer count up to n, Rw undoes Rw' |
| WideLaws.MoveRwOrderFour | src/algorithms/cube-Structure-Rotations.js:540-576 | for every layer count up to n, four Rw turns give the cube back |
| WideLaws.MoveRwPrimeOrderFour | src/algorithms/cube-Structure-Rotations.js:578-606 | for every layer count up to n, four Rw' turns give the cube back |
| WideLaws.MoveFwInverse | src/algorithms/cube-Structure-Rotations.js:609-677 | for every layer count up to n, Fw' undoes Fw |
| WideLaws.MoveFwPrimeInverse | src/algorithms/cube-Structure-Rotations.js:609-677 | for every layer count up to n, Fw undoes Fw' |
| WideLaws.MoveFwOrderFour | src/algorithms/cube-Structure-Rotations.js:609-643 | for every layer count up to n, four Fw turns give the cube back |
| WideLaws.MoveFwPrimeOrderFour | src/algorithms/cube-Structure-Rotations.js:645-677 | for every layer count up to n, four Fw' turns give the cube back |
| WideLaws.MoveBwInverse | src/algorithms/cube-Structure-Rotations.js:680-744 | for every layer count up to n, Bw' undoes Bw |
| WideLaws.MoveBwPrimeInverse | src/algorithms/cube-Structure-Rotations.js:680-744 | for every layer count up to n, Bw undoes Bw' |
| WideLaws.MoveBwOrderFour | src/algorithms/cube-Structure-Rotations.js:680-712 | for every layer count up to n, four Bw turns give the cube back |
| WideLaws.MoveBwPrimeOrderFour | src/algorithms/cube-Structure-Rotations.js:714-744 | for every layer count up to n, four Bw' turns give the cube back |
| FaceLaws.MoveUIsWide | src/algorithms/cube-Structure-Rotations.js:59-82 | U equals Uw with one layer, and U' equals Uw' with one layer |
| FaceLaws.MoveDIsWide | src/algorithms/cube-Structure-Rotations.js:84-105 | D equals Dw with one layer, and D' equals Dw' with one layer |
| FaceLaws.MoveLIsWide | src/algorithms/cube-Structure-Rotations.js:107-186 | L equals Lw with one layer, and L' equals Lw' with one layer |
| FaceLaws.MoveRIsWide | src/algorithms/cube-Structure-Rotations.js:188-268 | R equals Rw with one layer, and R' equals Rw' with one layer |
| FaceLaws.MoveFIsWide | src/algorithms/cube-Structure-Rotations.js:270-337 | F equals Fw with one layer, and F' equals Fw' with one layer |
| FaceLaws.MoveBIsWide | src/algorithms/cube-Structure-Rotations.js:339-406 | B equals Bw with one layer, and B' equals Bw' with one layer |
| FaceLaws.MoveUCells | src/algorithms/cube-Structure-Rotations.js:59-70 | U turns U clockwise and leaves D alone; on the side faces `F[0][y] = old R[0][y]` for every y; `R[0][y] = old B[0][y]` for every y; `B[0][y] = old L[0][y]` for every y; `L[0][y] = old F[0][y]` for every y; every other side-face cell keeps its colour |
| FaceLaws.MoveUPrimeCells | src/algorithms/cube-Structure-Rotations.js:72-82 | U' turns U counterclockwise and leaves D alone; on the side faces `F[0][y] = old L[0][y]` for every y; `L[0][y] = old B[0][y]` for every y; `B[0][y] = old R[0][y]` for every y; `R[0][y] = old F[0][y]` for every y; every other side-face cell keeps its colour |
| FaceLaws.MoveUInverse | src/algorithms/cube-Structure-Rotations.js:59-82 | U' undoes U, and U undoes U' |
| FaceLaws.MoveUOrderFour | src/algorithms/cube-Structure-Rotations.js:59-82 | four U turns, or four U' turns, give the cube back |
| FaceLaws.MoveU2Laws | src/algorithms/cube-Structure-Rotations.js:879-882 | U2 applied twice is the identity, and U2 equals two U' turns |
| FaceLaws.MoveDCells | src/algorithms/cube-Structure-Rotations.js:84-93 | D turns D clockwise and leaves U alone; on the side faces `F[x][y] = old L[x][y]` for x = n - 1; `L[x][y] = old B[x][y]` for x = n - 1; `B[x][y] = old R[x][y]` for x = n - 1; `R[x][y] = old F[x][y]` for x = n - 1; every other side-face cell keeps its colour |
| FaceLaws.MoveDPrimeCells | src/algorithms/cube-Structure-Rotations.js:95-105 | D' turns D counterclockwise and leaves U alone; on the side faces `F[x][y] = old R[x][y]` for x = n - 1; `R[x][y] = old B[x][y]` for x = n - 1; `B[x][y] = old L[x][y]` for x = n - 1; `L[x][y] = old F[x][y]` for x = n - 1; every other side-face cell keeps its colour |
| FaceLaws.MoveDInverse | src/algorithms/cube-Structure-Rotations.js:84-105 | D' undoes D, and D undoes D' |
| FaceLaws.MoveDOrderFour | src/algorithms/cube-Structure-Rotations.js:84-105 | four D turns, or four D' turns, give the cube back |
| FaceLaws.MoveD2Laws | src/algorithms/cube-Structure-Rotations.js:884-887 | D2 applied twice is the identity, and D2 equals two D' turns |
| FaceLaws.MoveLCells | src/algorithms/cube-Structure-Rotations.js:107-150 | L turns L clockwise and leaves R alone; on the side faces `U[x][0] = old B[n - 1 - x][n - 1]` for every x; `B[x][y] = old D[n - 1 - x][0]` for y = n - 1; `D[x][0] = old F[x][0]` for every x; `F[x][0] = old U[x][0]` for every x; every other side-face cell keeps its colour |
| FaceLaws.MoveLPrimeCells | src/algorithms/cube-Structure-Rotations.js:152-186 | L' turns L counterclockwise and leaves R alone; on the side faces `U[x][0] = old F[x][0]` for every x; `F[x][0] = old D[x][0]` for every x; `D[x][0] = old B[n - 1 - x][n - 1]` for every x; `B[x][y] = old U[n - 1 - x][0]` for y = n - 1; every other side-face cell keeps its colour |
| FaceLaws.MoveLInverse | src/algorithms/cube-Structure-Rotations.js:107-186 | L' undoes L, and L undoes L' |
| FaceLaws.MoveLOrderFour | src/algorithms/cube-Structure-Rotations.js:107-186 | four L turns, or four L' turns, give the cube back |
| FaceLaws.MoveL2Laws | src/algorithms/cube-Structure-Rotations.js:889-892 | L2 applied twice is the identity, and L2 equals two L' turns |
| FaceLaws.MoveRCells | src/algorithms/cube-Structure-Rotations.js:188-232 | R turns R clockwise and leaves L alone; on the side faces `U[x][y] = old B[n - 1 - x][0]` for y = n - 1; `B[x][0] = old D[n - 1 - x][n - 1]` for every x; `D[x][y] = old F[x][y]` for y = n - 1; `F[x][y] = old U[x][y]` for y = n - 1; every other side-face cell keeps its colour |
| FaceLaws.MoveRPrimeCells | src/algorithms/cube-Structure-Rotations.js:234-268 | R' turns R counterclockwise and leaves L alone; on the side faces `U[x][y] = old F[x][y]` for y = n - 1; `F[x][y] = old D[x][y]` for y = n - 1; `D[x][y] = old B[n - 1 - x][0]` for y = n - 1; `B[x][0] = old U[n - 1 - x][n - 1]` for every x; every other side-face cell keeps its colour |
| FaceLaws.MoveRInverse | src/algorithms/cube-Structure-Rotations.js:188-268 | R' undoes R, and R undoes R' |
| FaceLaws.MoveROrderFour | src/algorithms/cube-Structure-Rotations.js:188-268 | four R turns, or four R' turns, give the cube back |
| FaceLaws.MoveR2Laws | src/algorithms/cube-Structure-Rotations.js:894-897 | R2 applied twice is the identity, and R2 equals two R' turns |
| FaceLaws.MoveFCells | src/algorithms/cube-Structure-Rotations.js:270-303 | F turns F clockwise and leaves B alone; on the side faces `U[x][y] = old L[n - 1 - y][n - 1]` for x = n - 1; `L[x][y] = old D[0][x]` for y = n - 1; `D[0][y] = old R[n - 1 - y][0]` for every y; `R[x][0] = old U[n - 1][x]` for every x; every other side-face cell keeps its colour |
| FaceLaws.MoveFPrimeCells | src/algorithms/cube-Structure-Rotations.js:305-337 | F' turns F counterclockwise and leaves B alone; on the side faces `U[x][y] = old R[y][0]` for x = n - 1; `R[x][0] = old D[0][n - 1 - x]` for every x; `D[0][y] = old L[y][n - 1]` for every y; `L[x][y] = old U[n - 1][n - 1 - x]` for y = n - 1; every other side-face cell keeps its colour |
| FaceLaws.MoveFInverse | src/algorithms/cube-Structure-Rotations.js:270-337 | F' undoes F, and F undoes F' |
| FaceLaws.MoveFOrderFour | src/algorithms/cube-Structure-Rotations.js:270-337 | four F turns, or four F' turns, give the cube back |
| FaceLaws.MoveF2Laws | src/algorithms/cube-Structure-Rotations.js:899-902 | F2 applied twice is the identity, and F2 equals two F' turns |
| FaceLaws.MoveBCells | src/algorithms/cube-Structure-Rotations.js:339-372 | B turns B clockwise and leaves F alone; on the side faces `U[0][y] = old R[n - 1 - y][n - 1]` for every y; `R[x][y] = old D[n - 1][x]` for y = n - 1; `D[x][y] = old L[n - 1 - y][0]` for x = n - 1; `L[x][0] = old U[0][x]` for every x; every other side-face cell keeps its colour |
| FaceLaws.MoveBPrimeCells | src/algorithms/cube-Structure-Rotations.js:374-406 | B' turns B counterclockwise and leaves F alone; on the side faces `U[0][y] = old L[y][0]` for every y; `L[x][0] = old D[n - 1][n - 1 - x]` for every x; `D[x][y] = old R[y][n - 1]` for x = n - 1; `R[x][y] = old U[0][n - 1 - x]` for y = n - 1; every other side-face cell keeps its colour |
| FaceLaws.MoveBInverse | src/algorithms/cube-Structure-Rotations.js:339-406 | B' undoes B, and B undoes B' |
| FaceLaws.MoveBOrderFour | src/algorithms/cube-Structure-Rotations.js:339-406 | four B turns, or four B' turns, give the cube back |
| FaceLaws.MoveB2Laws | src/algorithms/cube-Structure-Rotations.js:904-907 | B2 applied twice is the identity, and B2 equals two B' turns |
| SliceMoves.Mid | src/algorithms/cube-Structure-Rotations.js:753 | the middle index n/2 is below n and at least (n-1)/2 |
| SliceMoves.MoveM | src/algorithms/cube-Structure-Rotations.js:751-774 | keeps every face n×n and the size unchanged, and leaves L and R untouched |
| SliceMoves.MoveMPrime | src/algorithms/cube-Structure-Rotations.js:776-799 | keeps every face n×n and the size unchanged, and leaves L and R untouched |
| SliceMoves.MoveE | src/algorithms/cube-Structure-Rotations.js:803-811 | keeps every face n×n and the size unchanged, and leaves U and D untouched |
| SliceMoves.MoveEPrime | src/algorithms/cube-Structure-Rotations.js:813-821 | keeps every face n×n and the size unchanged, and leaves U and D untouched |
| SliceMoves.MoveS | src/algorithms/cube-Structure-Rotations.js:825-849 | keeps every face n×n and the size unchanged, and leaves F and B untouched |
| SliceMoves.MoveSPrimeAsWritten | src/algorithms/cube-Structure-Rotations.js:851-875 | keeps every face n×n and the size unchanged, and leaves F and B untouched |
| SliceMoves.MoveSPrime | src/algorithms/cube-Structure-Rotations.js:851-875 | keeps every face n×n and the size unchanged, and leaves F and B untouched (corrected: L's middle column takes U's old middle row reversed) |
| SliceMoves.MoveMCellsU | src/algorithms/cube-Structure-Rotations.js:751-774 | M: `U[x][y] = old F[x][y]` for y = Mid(n); every other cell of U keeps its colour |
| SliceMoves.MoveMCellsF | src/algorithms/cube-Structure-Rotations.js:751-774 | M: `F[x][y] = old D[x][y]` for y = Mid(n); every other cell of F keeps its colour |
| SliceMoves.MoveMCellsD | src/algorithms/cube-Structure-Rotations.js:751-774 | M: `D[x][y] = old B[n - 1 - x][y]` for y = Mid(n); every other cell of D keeps its colour |
| SliceMoves.MoveMCellsB | src/algorithms/cube-Structure-Rotations.js:751-774 | M: `B[x][y] = old U[n - 1 - x][y]` for y = Mid(n); every other cell of B keeps its colour |
| SliceMoves.MoveMPrimeCellsU | src/algorithms/cube-Structure-Rotations.js:776-799 | M': `U[x][y] = old B[n - 1 - x][y]` for y = Mid(n); every other cell of U keeps its colour |
| SliceMoves.MoveMPrimeCellsB | src/algorithms/cube-Structure-Rotations.js:776-799 | M': `B[x][y] = old D[n - 1 - x][y]` for y = Mid(n); every other cell of B keeps its colour |
| SliceMoves.MoveMPrimeCellsD | src/algorithms/cube-Structure-Rotations.js:776-799 | M': `D[x][y] = old F[x][y]` for y = Mid(n); every other cell of D keeps its colour |
| SliceMoves.MoveMPrimeCellsF | src/algorithms/cube-Structure-Rotations.js:776-799 | M': `F[x][y] = old U[x][y]` for y = Mid(n); every other cell of F keeps its colour |
| SliceMoves.MoveECellsF | src/algorithms/cube-Structure-Rotations.js:803-811 | E: `F[x][y] = old R[x][y]` for x = Mid(n); every other cell of F keeps its colour |
| SliceMoves.MoveECellsR | src/algorithms/cube-Structure-Rotations.js:803-811 | E: `R[x][y] = old B[x][y]` for x = Mid(n); every other cell of R keeps its colour |
| SliceMoves.MoveECellsB | src/algorithms/cube-Structure-Rotations.js:803-811 | E: `B[x][y] = old L[x][y]` for x = Mid(n); every other cell of B keeps its colour |
| SliceMoves.MoveECellsL | src/algorithms/cube-Structure-Rotations.js:803-811 | E: `L[x][y] = old F[x][y]` for x = Mid(n); every other cell of L keeps its colour |
| SliceMoves.MoveEPrimeCellsF | src/algorithms/cube-Structure-Rotations.js:813-821 | E': `F[x][y] = old L[x][y]` for x = Mid(n); every other cell of F keeps its colour |
| SliceMoves.MoveEPrimeCellsL | src/algorithms/cube-Structure-Rotations.js:813-821 | E': `L[x][y] = old B[x][y]` for x = Mid(n); every other cell of L keeps its colour |
| SliceMoves.MoveEPrimeCellsB | src/algorithms/cube-Structure-Rotations.js:813-821 | E': `B[x][y] = old R[x][y]` for x = Mid(n); every other cell of B keeps its colour |
| SliceMoves.MoveEPrimeCellsR | src/algorithms/cube-Structure-Rotations.js:813-821 | E': `R[x][y] = old F[x][y]` for x = Mid(n); every other cell of R keeps its colour |
| SliceMoves.MoveSCellsU | src/algorithms/cube-Structure-Rotations.js:825-849 | S: `U[x][y] = old L[n - 1 - y][x]` for x = Mid(n); every other cell of U keeps its colour |
| SliceMoves.MoveSCellsL | src/algorithms/cube-Structure-Rotations.js:825-849 | S: `L[x][y] = old D[y][x]` for y = Mid(n); every other cell of L keeps its colour |
| SliceMoves.MoveSCellsD | src/algorithms/cube-Structure-Rotations.js:825-849 | S: `D[x][y] = old R[n - 1 - y][x]` for x = Mid(n); every other cell of D keeps its colour |
| SliceMoves.MoveSCellsR | src/algorithms/cube-Structure-Rotations.js:825-849 | S: `R[x][y] = old U[y][x]` for y = Mid(n); every other cell of R keeps its colour |
| SliceMoves.MoveSPrimeAsWrittenCellsU | src/algorithms/cube-Structure-Rotations.js:851-875 | S' as written: `U[x][y] = old R[y][x]` for x = Mid(n); every other cell of U keeps its colour |
| SliceMoves.MoveSPrimeAsWrittenCellsR | src/algorithms/cube-Structure-Rotations.js:851-875 | S' as written: `R[x][y] = old D[y][n - 1 - x]` for y = Mid(n); every other cell of R keeps its colour |
| SliceMoves.MoveSPrimeAsWrittenCellsD | src/algorithms/cube-Structure-Rotations.js:851-875 | S' as written: `D[x][y] = old L[y][x]` for x = Mid(n); every other cell of D keeps its colour |
| SliceMoves.MoveSPrimeAsWrittenCellsL | src/algorithms/cube-Structure-Rotations.js:851-875 | S' as written: `L[x][y] = old U[y][x]` for y = Mid(n); every other cell of L keeps its colour |
| SliceMoves.MoveSPrimeCellsU | src/algorithms/cube-Structure-Rotations.js:851-875 | corrected S': `U[x][y] = old R[y][x]` for x = Mid(n); every other cell of U keeps its colour |
| SliceMoves.MoveSPrimeCellsR | src/algorithms/cube-Structure-Rotations.js:851-875 | corrected S': `R[x][y] = old D[y][n - 1 - x]` for y = Mid(n); every other cell of R keeps its colour |
| SliceMoves.MoveSPrimeCellsD | src/algorithms/cube-Structure-Rotations.js:851-875 | corrected S': `D[x][y] = old L[y][x]` for x = Mid(n); every other cell of D keeps its colour |
| SliceMoves.MoveSPrimeCellsL | src/algorithms/cube-Structure-Rotations.js:851-875 | corrected S': `L[x][y] = old U[y][n - 1 - x]` for y = Mid(n); every other cell of L keeps its colour |
| SliceLaws.MoveMInverse | src/algorithms/cube-Structure-Rotations.js:751-799 | M' undoes M, and M undoes M', for every n >= 1 |
| SliceLaws.MoveEInverse | src/algorithms/cube-Structure-Rotations.js:803-821 | E' undoes E, and E undoes E', for every n >= 1 |
| SliceLaws.MoveSInverse | src/algorithms/cube-Structure-Rotations.js:825-875 | the corrected S' undoes S, and S undoes it |
| SliceLaws.MoveMOrderFour | src/algorithms/cube-Structure-Rotations.js:751-799 | four M turns, or four M' turns, give the cube back |
| SliceLaws.MoveEOrderFour | src/algorithms/cube-Structure-Rotations.js:803-821 | four E turns, or four E' turns, give the cube back |
| SliceLaws.MoveSOrderFour | src/algorithms/cube-Structure-Rotations.js:825-875 | four S turns give the cube back, and so do four corrected S' turns |
| Colors.MoveUwColors | src/algorithms/cube-Structure-Rotations.js:412-439 | for every layer count up to n, Uw and Uw' keep the number of facelets of each colour |
| Colors.MoveDwColors | src/algorithms/cube-Structure-Rotations.js:442-470 | for every layer count up to n, Dw and Dw' keep the number of facelets of each colour |
| Colors.MoveLwColors | src/algorithms/cube-Structure-Rotations.js:473-537 | for every layer count up to n, Lw and Lw' keep the number of facelets of each colour |
| Colors.MoveRwColors | src/algorithms/cube-Structure-Rotations.js:540-606 | for every layer count up to n, Rw and Rw' keep the number of facelets of each colour |
| Colors.MoveFwColors | src/algorithms/cube-Structure-Rotations.js:609-677 | for every layer count up to n, Fw and Fw' keep the number of facelets of each colour |
| Colors.MoveBwColors | src/algorithms/cube-Structure-Rotations.js:680-744 | for every layer count up to n, Bw and Bw' keep the number of facelets of each colour |
| Colors.MoveUColors | src/algorithms/cube-Structure-Rotations.js:59-82 | U, U' and U2 keep the number of facelets of each colour |
| Colors.MoveDColors | src/algorithms/cube-Structure-Rotations.js:84-105 | D, D' and D2 keep the number of facelets of each colour |
| Colors.MoveLColors | src/algorithms/cube-Structure-Rotations.js:107-186 | L, L' and L2 keep the number of facelets of each colour |
| Colors.MoveRColors | src/algorithms/cube-Structure-Rotations.js:188-268 | R, R' and R2 keep the number of facelets of each colour |
| Colors.MoveFColors | src/algorithms/cube-Structure-Rotations.js:270-337 | F, F' and F2 keep the number of facelets of each colour |
| Colors.MoveBColors | src/algorithms/cube-Structure-Rotations.js:339-406 | B, B' and B2 keep the number of facelets of each colour |
| Colors.MoveMColors | src/algorithms/cube-Structure-Rotations.js:751-774 | M keeps the number of facelets of each colour |
| Colors.MoveMPrimeColors | src/algorithms/cube-Structure-Rotations.js:776-799 | M' keeps the number of facelets of each colour |
| Colors.MoveEColors | src/algorithms/cube-Structure-Rotations.js:803-811 | E keeps the number of facelets of each colour |
| Colors.MoveEPrimeColors | src/algorithms/cube-Structure-Rotations.js:813-821 | E' keeps the number of facelets of each colour |
| Colors.MoveSColors | src/algorithms/cube-Structure-Rotations.js:825-849 | S keeps the number of facelets of each colour |
| Colors.MoveSPrimeAsWrittenColors | src/algorithms/cube-Structure-Rotations.js:851-875 | S' as written keeps the number of facelets of each colour |
| Colors.MoveSPrimeColors | src/algorithms/cube-Structure-Rotations.js:851-875 | S' keeps the number of facelets of each colour |
| Findings.RowCheckAcceptsTurnedCube | src/algorithms/cube-Structure-Rotations.js:15-19 | for n >= 2 the source's check accepts a fresh cube after one U turn, while the whole-face check rejects it |
| Findings.SPrimeAsWrittenRestoresFaceU | src/algorithms/cube-Structure-Rotations.js:825-875 | S' as written after S gives face U back exactly |
| Findings.SPrimeAsWrittenRestoresFaceR | src/algorithms/cube-Structure-Rotations.js:825-875 | S' as written after S gives face R back exactly |
| Findings.SPrimeAsWrittenRestoresFaceD | src/algorithms/cube-Structure-Rotations.js:825-875 | S' as written after S gives face D back exactly |
| Findings.SPrimeAsWrittenAfterS | src/algorithms/cube-Structure-Rotations.js:825-875 | S' as written after S restores U, D, R, F and B, leaves L's middle column reversed and the rest of L restored |
| Findings.SPrimeAsWrittenUndoesSIff | src/algorithms/cube-Structure-Rotations.js:825-875 | S' as written undoes S exactly when L's middle column reads the same from both ends |
| Findings.SPrimeAsWrittenNotInverse | src/algorithms/cube-Structure-Rotations.js:872-874 | on a 3×3×3 cube whose L face has one white cell at the top of its middle column, S then S' as written does not give the cube back |
| Scramble.QuarterTurn | src/algorithms/cube-scramble.js:24-31 | entry i of the twelve-turn list keeps every face n×n and the size unchanged |
| Scramble.Opposite | src/algorithms/cube-scramble.js:24-31 | the list pairs each turn with its inverse: the opposite of an even entry is the next one, of an odd entry the previous one |
| Scramble.OppositeOpposite | src/algorithms/cube-scramble.js:24-31 | pairing is symmetric |
| Scramble.QuarterTurnUndo | src/algorithms/cube-scramble.js:24-31 | each entry of the list is undone by its opposite |
| Scramble.QuarterTurnColors | src/algorithms/cube-scramble.js:24-31 | each entry of the list keeps the number of facelets of each colour |
| Scramble.ApplyTurns | src/algorithms/cube-scramble.js:33-37 | applying a sequence of list entries keeps every face n×n and the size unchanged |
| Scramble.UndoTurns | src/algorithms/cube-scramble.js:33-37 | the undo sequence has one entry per turn: position k holds the opposite of the k-th turn from the end |
| Scramble.ApplyTurnsAppend | src/algorithms/cube-scramble.js:33-37 | applying a + b is applying a, then b |
| Scramble.ApplyTurnsUndo | src/algorithms/cube-scramble.js:33-37 | every scramble is undone by its undo sequence |
| Scramble.ApplyTurnsColors | src/algorithms/cube-scramble.js:33-37 | every scramble keeps the number of facelets of each colour |
| Scramble.SixTurnsAndBackIsNew | src/algorithms/cube-Structure-Rotations.js:59-406 | for every size, U D L R F B followed by B' F' R' L' D' U' gives a fresh cube back |
| Scramble.ScrambleWith | src/algorithms/cube-scramble.js:22-38 | the scrambler's loop over given draws ends in the cube the sequence describes, with the same colours, and the undo sequence brings the start back |

## Left out

- `toString` (src/algorithms/cube-Structure-Rotations.js:33-39) builds display text only. It states nothing about the cube, so it is not modelled.
- The demonstration code at the end of the file (src/algorithms/cube-Structure-Rotations.js:909-929) is never reached from the engine, and `module.exports` only publishes names.
- The wide turns' default of two layers is not modelled: every wide turn takes its layer count explicitly.
- The source does not check its inputs. The model requires N ≥ 1, six N×N faces, and an integer layer count of at most N. Zero and negative layer counts are modelled.
- Layer counts above N are not modelled. In the source, Uw, Dw and Bw rotate the face, cycle the layers that exist, then throw a TypeError on reading a missing row (`undefined.slice()`, src/algorithms/cube-Structure-Rotations.js:419, 449, 688). Fw rotates F and then throws at its first iteration, because its starting row `n - layers` is negative (src/algorithms/cube-Structure-Rotations.js:616-619). Lw and Rw do not throw: they write past the ends of rows and at negative column indices, adding stray entries to the row arrays (for example src/algorithms/cube-Structure-Rotations.js:488, 495).
- Non-integer layer counts, which JavaScript accepts, are excluded by the model's integer parameter.
- Moves mutate the cube in place in the source. Here they return a new cube. No row array is shared between two faces after any move, so the two agree.
- The scrambler's `Math.random` draws and its move count are replaced by a parameter: the sequence of drawn list indices. `Scramble.ScrambleWith` therefore covers every possible run.
- M′ copies B's middle column into `colB` but never reads it (src/algorithms/cube-Structure-Rotations.js:776-799). The unused copy is not modelled.
- There is no claim that the moves match a physical cube's 3D adjacency. The model keeps the source's wiring, quirks included, and proves the engine's own consistency laws. Two quirks stand out:
  - R is wired in the same ring direction as L.
  - Fw pairs U's row `n - layers + j` with L's column `n - 1 - j` (src/algorithms/cube-Structure-Rotations.js:616-630). So for two or more layers the rows and columns are paired crosswise. On a 3×3×3 cube, Fw with two layers fills U's middle row from L's last column, not its middle column. `WideClosedForms.MoveFwCellsU` states this pairing, and the inverse and order-four laws still hold.
- There are no inverse or order-four laws for S′ as written. It does not undo S (see Findings), so those laws are proved for the corrected `SliceMoves.MoveSPrime`.
- FaceMoves.MoveU: like every quarter turn's contract, it states shape and the untouched opposite face only. The destination of every facelet is stated in `FaceLaws.MoveUCells` and `FaceLaws.MoveUPrimeCells` and their analogues for the other faces. This keeps each function cheap to unfold in proofs.
- FaceMoves.MoveU2: like the other half turns, its contract states shape only. Its laws are in `FaceLaws.MoveU2Laws` and the analogues, and its colour count in `Colors.MoveUColors`.
- WideMoves.MoveUw: like every wide turn's contract, it states shape only. Its cells are stated in the `WideClosedForms` lemmas.
- SliceMoves.MoveM: like every slice turn's contract, it states shape and the two untouched faces. Its cells are stated in the `Move…Cells…` lemmas of the same module.

## Findings

| source | as written | input that shows it | evidently intended | confidence | as-written member | corrected member |
|---|---|---|---|---|---|---|
| src/algorithms/cube-Structure-Rotations.js:15-19 | `isSolved` checks that every row of every face is one colour. It never compares rows with each other. | A fresh cube of size 2 or more after one U turn: each side face's top row is one colour, and its other rows are another. The check returns true. | A face counts as solved only when all its facelets share one colour, as the comment at src/algorithms/cube-Structure-Rotations.js:14 says. | not executed | Findings.RowCheckAcceptsTurnedCube | Cubes.IsSolvedUniform |
| src/algorithms/cube-Structure-Rotations.js:872-874 | S′ writes U's old middle row into L's middle column in the same order. S had written L's middle column into U's middle row reversed. | A 3×3×3 cube whose L face has one white facelet at the top of its middle column, every other L facelet green, and every other face one colour. S then S′ leaves that white facelet at the bottom of the column. | L's middle column takes U's old middle row reversed, so that S′ undoes S. | not executed | Findings.SPrimeAsWrittenNotInverse | SliceMoves.MoveSPrime |

`Findings.SPrimeAsWrittenUndoesSIff` characterises the second finding exactly: S′ as written undoes S precisely when L's middle column reads the same from both ends. `SliceLaws.MoveSInverse` and `SliceLaws.MoveSOrderFour` prove the intended laws for the corrected S′.
