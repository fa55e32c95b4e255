/**
  Square grids of facelets and the ribbon operations the move engine is
  built from: reading and writing one row or one column, reversing a
  ribbon, and turning a whole grid a quarter turn either way.

  A grid is a sequence of rows, indexed `g[row][col]`.
*/
module Grids {

  /** `g` is an n×n grid: n rows, each of length n. */
  predicate IsSquare<T>(g: seq<seq<T>>, n: nat) {
    |g| == n && forall i | 0 <= i < |g| :: |g[i]| == n
  }

  /** Row `i` of `g`, left to right. */
  function Row<T>(g: seq<seq<T>>, i: nat): seq<T>
    requires i < |g|
  {
    g[i]
  }

  /** `g` with row `i` replaced by the ribbon `s`. */
  function SetRow<T>(g: seq<seq<T>>, i: nat, s: seq<T>): seq<seq<T>>
    requires i < |g|
  {
    g[i := s]
  }

  /** `s` in reverse order (the source's `reverse()` on a copy). */
  function Rev<T>(s: seq<T>): (r: seq<T>)
    ensures |r| == |s|
    ensures forall k | 0 <= k < |s| :: r[k] == s[|s| - 1 - k]
  {
    if s == [] then []
    else
      assert s == [s[0]] + s[1..];
      Rev(s[1..]) + [s[0]]
  }

  /** Column `j` of `g`, read top to bottom, one push per row. */
  function Col<T>(g: seq<seq<T>>, j: nat): (r: seq<T>)
    requires forall i | 0 <= i < |g| :: j < |g[i]|
    ensures |r| == |g|
  {
    seq(|g|, i requires 0 <= i < |g| => g[i][j])
  }

  /** `g` with column `j` overwritten top to bottom by the ribbon `s`. */
  function SetCol<T>(g: seq<seq<T>>, j: nat, s: seq<T>): (r: seq<seq<T>>)
    requires |s| == |g|
    requires forall i | 0 <= i < |g| :: j < |g[i]|
    ensures |r| == |g|
    ensures forall i | 0 <= i < |g| :: |r[i]| == |g[i]|
  {
    seq(|g|, i requires 0 <= i < |g| => g[i][j := s[i]])
  }

  /**
    Quarter turn clockwise: the cell at row `i`, column `j` of the result
    is the cell at row n-1-j, column `i` of `g`.
  */
  function RotateCW<T>(g: seq<seq<T>>): (r: seq<seq<T>>)
    requires |g| >= 1 && IsSquare(g, |g|)
    ensures IsSquare(r, |g|)
  {
    var n := |g|;
    seq(n, i requires 0 <= i < n => seq(n, j requires 0 <= j < n => g[n - 1 - j][i]))
  }

  /**
    Quarter turn counterclockwise: the cell at row `i`, column `j` of the
    result is the cell at row `j`, column n-1-i of `g`.
  */
  function RotateCCW<T>(g: seq<seq<T>>): (r: seq<seq<T>>)
    requires |g| >= 1 && IsSquare(g, |g|)
    ensures IsSquare(r, |g|)
  {
    var n := |g|;
    seq(n, i requires 0 <= i < n => seq(n, j requires 0 <= j < n => g[j][n - 1 - i]))
  }

  /**
    The clockwise turn as the source assembles it: for each column index
    `i` of the first row, column `i` of `g` reversed.
  */
  function RotateCWAsBuilt<T>(g: seq<seq<T>>): (r: seq<seq<T>>)
    requires |g| >= 1 && IsSquare(g, |g|)
    ensures IsSquare(r, |g|)
  {
    seq(|g[0]|, i requires 0 <= i < |g[0]| => Rev(Col(g, i)))
  }

  /**
    The counterclockwise turn as the source assembles it: the columns of
    `g` in order, then that list of rows reversed.
  */
  function RotateCCWAsBuilt<T>(g: seq<seq<T>>): (r: seq<seq<T>>)
    requires |g| >= 1 && IsSquare(g, |g|)
    ensures IsSquare(r, |g|)
  {
    Rev(seq(|g[0]|, i requires 0 <= i < |g[0]| => Col(g, i)))
  }

  /** The clockwise turn the source assembles is the index formula above. */
  lemma RotateCWAsBuiltAgrees<T>(g: seq<seq<T>>)
    requires |g| >= 1 && IsSquare(g, |g|)
    ensures RotateCWAsBuilt(g) == RotateCW(g)
  {
    var n := |g|;
    var cw := RotateCWAsBuilt(g);
    var r := RotateCW(g);
    forall i | 0 <= i < n
      ensures cw[i] == r[i]
    {
      var col := Col(g, i);
      assert cw[i] == Rev(col);
      assert forall j | 0 <= j < n :: r[i][j] == col[n - 1 - j];
    }
  }

  /** The counterclockwise turn the source assembles is the index formula above. */
  lemma RotateCCWAsBuiltAgrees<T>(g: seq<seq<T>>)
    requires |g| >= 1 && IsSquare(g, |g|)
    ensures RotateCCWAsBuilt(g) == RotateCCW(g)
  {
    var n := |g|;
    var cols := seq(|g[0]|, i requires 0 <= i < |g[0]| => Col(g, i));
    var ccw := RotateCCWAsBuilt(g);
    var r := RotateCCW(g);
    forall i | 0 <= i < n
      ensures ccw[i] == r[i]
    {
      var col := Col(g, n - 1 - i);
      assert ccw[i] == cols[n - 1 - i] == col;
      assert forall j | 0 <= j < n :: r[i][j] == col[j];
    }
  }

  /** Two n×n grids that agree on every cell are equal. */
  lemma GridEq<T>(a: seq<seq<T>>, b: seq<seq<T>>, n: nat)
    requires IsSquare(a, n) && IsSquare(b, n)
    requires forall i, j | 0 <= i < n && 0 <= j < n :: a[i][j] == b[i][j]
    ensures a == b
  {
    assert forall i | 0 <= i < n :: a[i] == b[i];
  }

  /** The two rotations undo each other, in either order. */
  lemma RotateRoundTrip<T>(g: seq<seq<T>>)
    requires |g| >= 1 && IsSquare(g, |g|)
    ensures RotateCCW(RotateCW(g)) == g
    ensures RotateCW(RotateCCW(g)) == g
  {
    GridEq(RotateCCW(RotateCW(g)), g, |g|);
    GridEq(RotateCW(RotateCCW(g)), g, |g|);
  }

  /** Two clockwise quarter turns are a half turn. */
  lemma RotateHalfTurn<T>(g: seq<seq<T>>)
    requires |g| >= 1 && IsSquare(g, |g|)
    ensures forall i, j | 0 <= i < |g| && 0 <= j < |g| ::
      RotateCW(RotateCW(g))[i][j] == g[|g| - 1 - i][|g| - 1 - j]
  {
  }

  /** Four clockwise quarter turns give the grid back. */
  lemma RotateOrderFour<T>(g: seq<seq<T>>)
    requires |g| >= 1 && IsSquare(g, |g|)
    ensures RotateCW(RotateCW(RotateCW(RotateCW(g)))) == g
  {
    var h := RotateCW(RotateCW(g));
    RotateHalfTurn(g);
    RotateHalfTurn(h);
    GridEq(RotateCW(RotateCW(h)), g, |g|);
  }

  /** A counterclockwise quarter turn is three clockwise ones. */
  lemma RotateCCWIsThreeCW<T>(g: seq<seq<T>>)
    requires |g| >= 1 && IsSquare(g, |g|)
    ensures RotateCCW(g) == RotateCW(RotateCW(RotateCW(g)))
  {
    var n := |g|;
    var g1 := RotateCW(g);
    var g2 := RotateCW(g1);
    var g3 := RotateCW(g2);
    forall i, j | 0 <= i < n && 0 <= j < n
      ensures RotateCCW(g)[i][j] == g3[i][j]
    {
      assert g3[i][j] == g2[n - 1 - j][i];
      assert g2[n - 1 - j][i] == g1[n - 1 - i][n - 1 - j];
    }
    GridEq(RotateCCW(g), g3, n);
  }

  /** Reversing twice gives the ribbon back. */
  lemma RevRev<T>(s: seq<T>)
    ensures Rev(Rev(s)) == s
  {
  }

  /** The cells of column `j` of an n×n grid. */
  lemma ColCells<T>(g: seq<seq<T>>, j: nat, n: nat)
    requires IsSquare(g, n) && j < n
    ensures |Col(g, j)| == n
    ensures forall x | 0 <= x < n :: Col(g, j)[x] == g[x][j]
  {
  }

  /**
    Writing column `j` of an n×n grid: the grid stays n×n, column `j`
    holds the ribbon top to bottom, and every other cell is unchanged.
  */
  lemma SetColCells<T>(g: seq<seq<T>>, j: nat, s: seq<T>, n: nat)
    requires IsSquare(g, n) && j < n && |s| == n
    ensures IsSquare(SetCol(g, j, s), n)
    ensures forall x | 0 <= x < n :: SetCol(g, j, s)[x][j] == s[x]
    ensures forall x, y | 0 <= x < n && 0 <= y < n && y != j :: SetCol(g, j, s)[x][y] == g[x][y]
  {
  }

  /**
    Writing row `i` of an n×n grid: the grid stays n×n, row `i` holds
    the ribbon left to right, and every other cell is unchanged.
  */
  lemma SetRowCells<T>(g: seq<seq<T>>, i: nat, s: seq<T>, n: nat)
    requires IsSquare(g, n) && i < n && |s| == n
    ensures IsSquare(SetRow(g, i, s), n)
    ensures forall y | 0 <= y < n :: SetRow(g, i, s)[i][y] == s[y]
    ensures forall x, y | 0 <= x < n && 0 <= y < n && x != i :: SetRow(g, i, s)[x][y] == g[x][y]
  {
  }

  /** Reading back a column just written gives the ribbon. */
  lemma ColOfSetCol<T>(g: seq<seq<T>>, j: nat, s: seq<T>)
    requires |s| == |g|
    requires forall i | 0 <= i < |g| :: j < |g[i]|
    ensures Col(SetCol(g, j, s), j) == s
  {
  }

  /** Writing a column twice keeps only the second ribbon. */
  lemma SetColTwice<T>(g: seq<seq<T>>, j: nat, s: seq<T>, t: seq<T>)
    requires |s| == |g| && |t| == |g|
    requires forall i | 0 <= i < |g| :: j < |g[i]|
    ensures SetCol(SetCol(g, j, s), j, t) == SetCol(g, j, t)
  {
    assert forall i | 0 <= i < |g| :: SetCol(SetCol(g, j, s), j, t)[i] == SetCol(g, j, t)[i];
  }

  /** Writing back a column's own contents changes nothing. */
  lemma SetColOfCol<T>(g: seq<seq<T>>, j: nat)
    requires forall i | 0 <= i < |g| :: j < |g[i]|
    ensures SetCol(g, j, Col(g, j)) == g
  {
    assert forall i | 0 <= i < |g| :: SetCol(g, j, Col(g, j))[i] == g[i];
  }
}
