/**
  How many facelets of one colour a grid holds, and how each ribbon
  operation and each rotation changes that number: a rotation keeps it,
  and writing a ribbon trades the old ribbon's count for the new one's.
*/
module GridCounts {
  import opened Grids

  /** The number of cells of `g` equal to `x`, row by row. */
  function Count<T(==)>(g: seq<seq<T>>, x: T): nat
  {
    if g == [] then 0 else Count(g[..|g| - 1], x) + multiset(g[|g| - 1])[x]
  }

  /** The number of cells equal to `x` in columns 0..w-1 of `g`, column by column. */
  function ColumnCount<T(==)>(g: seq<seq<T>>, w: nat, x: T): nat
    requires forall i | 0 <= i < |g| :: w <= |g[i]|
  {
    if w == 0 then 0 else ColumnCount(g, w - 1, x) + multiset(Col(g, w - 1))[x]
  }

  /** Reversing a ribbon keeps its contents. */
  lemma {:induction false} RevMultiset<T>(s: seq<T>)
    ensures multiset(Rev(s)) == multiset(s)
  {
    if s != [] {
      RevMultiset(s[1..]);
      assert s == [s[0]] + s[1..];
    }
  }

  /** Occurrences of `x` in a sequence with one more element at the end. */
  lemma CountSnoc<T>(s: seq<T>, y: T, x: T)
    ensures multiset(s + [y])[x] == multiset(s)[x] + multiset([y])[x]
  {
  }

  /** Occurrences of `x` in a prefix one element longer. */
  lemma CountPrefixStep<T>(s: seq<T>, k: nat, x: T)
    requires 0 < k <= |s|
    ensures multiset(s[..k])[x] == multiset(s[..k - 1])[x] + multiset([s[k - 1]])[x]
  {
    assert s[..k] == s[..k - 1] + [s[k - 1]];
  }

  /** Overwriting one element trades its occurrence for the new element's. */
  lemma CountUpdate<T>(s: seq<T>, j: nat, y: T, x: T)
    requires j < |s|
    ensures multiset(s[j := y])[x] + multiset([s[j]])[x] == multiset(s)[x] + multiset([y])[x]
  {
  }

  /** A column of `g` is the column of all rows but the last, then the last row's cell. */
  lemma ColSnoc<T>(g: seq<seq<T>>, j: nat)
    requires |g| >= 1
    requires forall i | 0 <= i < |g| :: j < |g[i]|
    ensures Col(g, j) == Col(g[..|g| - 1], j) + [g[|g| - 1][j]]
  {
    assert Col(g, j) == Col(g[..|g| - 1], j) + [g[|g| - 1][j]];
  }

  /** Overwriting row `i` trades that row's count for the count in `s`. */
  lemma {:induction false} SetRowCount<T>(g: seq<seq<T>>, i: nat, s: seq<T>, x: T)
    requires i < |g|
    ensures Count(SetRow(g, i, s), x) + multiset(g[i])[x] == Count(g, x) + multiset(s)[x]
  {
    var m := |g| - 1;
    var h := SetRow(g, i, s);
    if i == m {
      assert h[..m] == g[..m];
    } else {
      SetRowCount(g[..m], i, s, x);
      assert h[..m] == SetRow(g[..m], i, s);
      assert g[..m][i] == g[i];
    }
  }

  /** Overwriting column `j` trades that column's count for the count in `s`. */
  lemma {:induction false} SetColCount<T>(g: seq<seq<T>>, j: nat, s: seq<T>, x: T)
    requires |s| == |g|
    requires forall i | 0 <= i < |g| :: j < |g[i]|
    ensures Count(SetCol(g, j, s), x) + multiset(Col(g, j))[x] == Count(g, x) + multiset(s)[x]
  {
    if g != [] {
      var m := |g| - 1;
      var h := SetCol(g, j, s);
      var h' := SetCol(g[..m], j, s[..m]);
      var row := g[m][j := s[m]];
      SetColCount(g[..m], j, s[..m], x);
      assert Count(h, x) == Count(h', x) + multiset(row)[x] by {
        assert h[..m] == h';
      }
      assert multiset(row)[x] + multiset([g[m][j]])[x] == multiset(g[m])[x] + multiset([s[m]])[x] by {
        CountUpdate(g[m], j, s[m], x);
      }
      assert multiset(Col(g, j))[x] == multiset(Col(g[..m], j))[x] + multiset([g[m][j]])[x] by {
        ColSnoc(g, j);
        CountSnoc(Col(g[..m], j), g[m][j], x);
      }
      assert multiset(s)[x] == multiset(s[..m])[x] + multiset([s[m]])[x] by {
        CountPrefixStep(s, |s|, x);
        assert s[..|s|] == s;
      }
    }
  }

  /** A grid with no rows has nothing in its columns. */
  lemma {:induction false} ColumnCountOfEmpty<T>(g: seq<seq<T>>, w: nat, x: T)
    requires g == []
    ensures ColumnCount(g, w, x) == 0
  {
    if w > 0 {
      ColumnCountOfEmpty(g, w - 1, x);
    }
  }

  /** Dropping the last row removes its first `w` cells from the column count. */
  lemma {:induction false} ColumnCountLastRow<T>(g: seq<seq<T>>, w: nat, x: T)
    requires |g| >= 1
    requires forall i | 0 <= i < |g| :: w <= |g[i]|
    ensures ColumnCount(g, w, x) == ColumnCount(g[..|g| - 1], w, x) + multiset(g[|g| - 1][..w])[x]
  {
    var m := |g| - 1;
    if w == 0 {
      assert g[m][..w] == [];
    } else {
      ColumnCountLastRow(g, w - 1, x);
      ColSnoc(g, w - 1);
      CountSnoc(Col(g[..m], w - 1), g[m][w - 1], x);
      CountPrefixStep(g[m], w, x);
    }
  }

  /** Counting a grid column by column gives the same number as counting it row by row. */
  lemma {:induction false} ColumnCountIsCount<T>(g: seq<seq<T>>, w: nat, x: T)
    requires forall i | 0 <= i < |g| :: |g[i]| == w
    ensures ColumnCount(g, w, x) == Count(g, x)
  {
    if g == [] {
      ColumnCountOfEmpty(g, w, x);
    } else {
      var m := |g| - 1;
      ColumnCountLastRow(g, w, x);
      ColumnCountIsCount(g[..m], w, x);
      assert g[m][..w] == g[m];
    }
  }

  /** A grid whose rows are, up to order within each, the columns of `g` has their count. */
  lemma {:induction false} RowsFromColumns<T>(h: seq<seq<T>>, g: seq<seq<T>>, w: nat, x: T)
    requires |h| == w
    requires forall i | 0 <= i < |g| :: w <= |g[i]|
    requires forall k | 0 <= k < w :: multiset(h[k]) == multiset(Col(g, k))
    ensures Count(h, x) == ColumnCount(g, w, x)
  {
    if w > 0 {
      RowsFromColumns(h[..w - 1], g, w - 1, x);
    }
  }

  /** A clockwise quarter turn keeps the count of every colour. */
  lemma RotateCWCount<T>(g: seq<seq<T>>, x: T)
    requires |g| >= 1 && IsSquare(g, |g|)
    ensures Count(RotateCW(g), x) == Count(g, x)
  {
    var n := |g|;
    var h := RotateCW(g);
    RotateCWAsBuiltAgrees(g);
    forall k | 0 <= k < n
      ensures multiset(h[k]) == multiset(Col(g, k))
    {
      assert RotateCWAsBuilt(g)[k] == Rev(Col(g, k));
      RevMultiset(Col(g, k));
    }
    RowsFromColumns(h, g, n, x);
    ColumnCountIsCount(g, n, x);
  }

  /** A counterclockwise quarter turn keeps the count of every colour. */
  lemma RotateCCWCount<T>(g: seq<seq<T>>, x: T)
    requires |g| >= 1 && IsSquare(g, |g|)
    ensures Count(RotateCCW(g), x) == Count(g, x)
  {
    RotateCCWIsThreeCW(g);
    RotateCWCount(g, x);
    RotateCWCount(RotateCW(g), x);
    RotateCWCount(RotateCW(RotateCW(g)), x);
  }
}
