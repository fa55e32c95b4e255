/**
  The state of an n×n×n cube: its dimension and six square face grids
  keyed Up, Down, Left, Right, Front and Back, each filled with one colour
  when the cube is built. Also the solved check the source offers, the
  state snapshot, and the per-colour facelet count used to show that
  every move only permutes facelets.
*/
module Cubes {
  import opened Grids
  import opened GridCounts

  /** The six sticker colours; the source spells them 'W', 'Y', 'G', 'B', 'R', 'O'. */
  datatype Color = White | Yellow | Green | Blue | Red | Orange

  /** One face: a grid of colours, indexed `[row][col]`. */
  type Face = seq<seq<Color>>

  /** A cube: the dimension `n` and the six faces, named as in the source. */
  datatype Cube = Cube(n: nat, U: Face, D: Face, L: Face, R: Face, F: Face, B: Face)

  /** The shape every move keeps: n >= 1 and all six faces n×n. */
  predicate Valid(c: Cube) {
    && c.n >= 1
    && IsSquare(c.U, c.n) && IsSquare(c.D, c.n)
    && IsSquare(c.L, c.n) && IsSquare(c.R, c.n)
    && IsSquare(c.F, c.n) && IsSquare(c.B, c.n)
  }

  /** The facts `Valid` packs, one by one. */
  lemma ValidFaces(c: Cube)
    requires Valid(c)
    ensures c.n >= 1
    ensures |c.U| == c.n && |c.D| == c.n && |c.L| == c.n && |c.R| == c.n && |c.F| == c.n && |c.B| == c.n
    ensures IsSquare(c.U, c.n) && IsSquare(c.D, c.n) && IsSquare(c.L, c.n)
    ensures IsSquare(c.R, c.n) && IsSquare(c.F, c.n) && IsSquare(c.B, c.n)
  {
  }

  /** An n×n face with every cell `x`. */
  function Filled(n: nat, x: Color): Face
  {
    seq(n, _ => seq(n, _ => x))
  }

  /**
    A fresh cube: six n×n faces, Up white, Down yellow, Left green, Right
    blue, Front red and Back orange.
  */
  function New(n: nat): (c: Cube)
    requires n >= 1
    ensures Valid(c) && c.n == n
    ensures forall i, j | 0 <= i < n && 0 <= j < n ::
      && c.U[i][j] == White && c.D[i][j] == Yellow
      && c.L[i][j] == Green && c.R[i][j] == Blue
      && c.F[i][j] == Red && c.B[i][j] == Orange
  {
    Cube(n, Filled(n, White), Filled(n, Yellow), Filled(n, Green),
         Filled(n, Blue), Filled(n, Red), Filled(n, Orange))
  }

  /** Every cell of `row` equals the row's first cell. */
  predicate RowUniform(row: seq<Color>) {
    forall k | 0 <= k < |row| :: row[k] == row[0]
  }

  /** Every row of `g` is uniform on its own; different rows may differ. */
  predicate RowsUniform(g: Face) {
    forall i | 0 <= i < |g| :: RowUniform(g[i])
  }

  /**
    The solved check exactly as the source performs it: on every face,
    every row is uniform. It does not compare one row with another, so it
    accepts every cube whose faces are each one colour, and more besides.
  */
  predicate IsSolved(c: Cube): (b: bool)
    ensures IsSolvedUniform(c) ==> b
  {
    && RowsUniform(c.U) && RowsUniform(c.D) && RowsUniform(c.L)
    && RowsUniform(c.R) && RowsUniform(c.F) && RowsUniform(c.B)
  }

  /** All cells of `g` are equal to each other. */
  predicate FaceUniform(g: Face) {
    forall i, j, i', j' | 0 <= i < |g| && 0 <= j < |g[i]| && 0 <= i' < |g| && 0 <= j' < |g[i']| ::
      g[i][j] == g[i'][j']
  }

  /** The solved check the source evidently intends: every face is one colour. */
  predicate IsSolvedUniform(c: Cube) {
    && FaceUniform(c.U) && FaceUniform(c.D) && FaceUniform(c.L)
    && FaceUniform(c.R) && FaceUniform(c.F) && FaceUniform(c.B)
  }

  /** A fresh cube passes both solved checks. */
  lemma NewIsSolved(n: nat)
    requires n >= 1
    ensures IsSolvedUniform(New(n))
    ensures IsSolved(New(n))
  {
  }

  /** A cube whose every face is one colour passes the source's check. */
  lemma UniformIsSolved(c: Cube)
    requires Valid(c)
    requires IsSolvedUniform(c)
    ensures IsSolved(c)
  {
  }

  /** A snapshot of the six faces, without the dimension. */
  datatype State = State(U: Face, D: Face, L: Face, R: Face, F: Face, B: Face)

  /** The cube with dimension `n` whose faces are those of snapshot `s`. */
  function Restore(n: nat, s: State): Cube
  {
    Cube(n, s.U, s.D, s.L, s.R, s.F, s.B)
  }

  /**
    The state snapshot. The source takes a deep copy so that later changes
    to the cube cannot reach the snapshot. Values here are immutable, so
    that independence holds by construction and is not a proved property.
    The contract says only that the snapshot loses nothing.
  */
  function GetState(c: Cube): (s: State)
    ensures Restore(c.n, s) == c
  {
    State(c.U, c.D, c.L, c.R, c.F, c.B)
  }

  /** Number of facelets of colour `x` over all six faces. */
  function ColorCount(c: Cube, x: Color): nat
  {
    Count(c.U, x) + Count(c.D, x) + Count(c.L, x) + Count(c.R, x) + Count(c.F, x) + Count(c.B, x)
  }

  /** Two cubes hold the same facelets: the same number of each colour. */
  predicate SameColors(c: Cube, c': Cube) {
    forall x: Color :: ColorCount(c', x) == ColorCount(c, x)
  }
}
